/** Slash-separated paths as Go's path package cleans, joins and climbs them. */
module Paths {
  /** A character in front of text already split: a slash starts a new piece. */
  function Prepend(c: char, pieces: seq<string>): (r: seq<string>)
    requires pieces != []
    ensures r != []
  {
    if c == '/' then [""] + pieces else [[c] + pieces[0]] + pieces[1..]
  }

  /** strings.Split(s, "/"): the pieces between slashes, one more than there are. */
  function Split(s: string): (r: seq<string>)
    ensures r != []
  {
    if s == "" then [""] else Prepend(s[0], Split(s[1..]))
  }

  /** One element met while cleaning: the elements kept so far. */
  function Push(rooted: bool, st: seq<string>, e: string): seq<string> {
    if e == "" || e == "." then st
    else if e != ".." then st + [e]
    else if st != [] && st[|st| - 1] != ".." then st[..|st| - 1]
    else if rooted then st
    else st + [e]
  }

  function PushAll(rooted: bool, st: seq<string>, es: seq<string>): seq<string>
    decreases es
  {
    if es == [] then st else PushAll(rooted, Push(rooted, st, es[0]), es[1..])
  }

  function Glue(st: seq<string>): string {
    if st == [] then ""
    else if |st| == 1 then st[0]
    else Glue(st[..|st| - 1]) + "/" + st[|st| - 1]
  }

  function Render(rooted: bool, st: seq<string>): string {
    if rooted then "/" + Glue(st) else if st == [] then "." else Glue(st)
  }

  function IsRooted(s: string): bool { s != "" && s[0] == '/' }

  function Clean(s: string): string { Render(IsRooted(s), PushAll(IsRooted(s), [], Split(s))) }

  /** path.Join of two parts: empty parts are left out. */
  function Join(a: string, b: string): string {
    if a == "" && b == "" then "" else if a == "" then Clean(b) else if b == "" then Clean(a) else Clean(a + "/" + b)
  }

  /** Everything up to and including the last slash. */
  function UpToSlash(s: string): string {
    if s == "" || s[|s| - 1] == '/' then s else UpToSlash(s[..|s| - 1])
  }

  function Dir(s: string): string { Clean(UpToSlash(s)) }

  // ----- what cleaning leaves

  predicate IsElement(e: string) { e != "" && e != "." && '/' !in e }

  /** Elements of a clean path: "..", if any, only in front of a relative one. */
  predicate IsReduced(rooted: bool, st: seq<string>) {
    && (forall i :: 0 <= i < |st| ==> IsElement(st[i]))
    && (forall i :: 0 <= i < |st| && st[i] == ".." ==> !rooted && forall j :: 0 <= j < i ==> st[j] == "..")
  }

  lemma {:induction false} SplitHasNoSlashes(s: string)
    ensures forall i :: 0 <= i < |Split(s)| ==> '/' !in Split(s)[i]
  {
    if s != "" {
      SplitHasNoSlashes(s[1..]);
    }
  }

  lemma {:induction false} SplitOfPlain(s: string)
    requires '/' !in s
    ensures Split(s) == [s]
  {
    if s != "" {
      SplitOfPlain(s[1..]);
      assert s == [s[0]] + s[1..];
    }
  }

  lemma PrependThenMore(c: char, pieces: seq<string>, more: seq<string>)
    requires pieces != []
    ensures Prepend(c, pieces + more) == Prepend(c, pieces) + more
  {
    assert (pieces + more)[1..] == pieces[1..] + more;
  }

  lemma {:induction false} SplitAtSlash(a: string, b: string)
    ensures Split(a + "/" + b) == Split(a) + Split(b)
  {
    hide Prepend;
    var s := a + "/" + b;
    if a == "" {
      assert s[0] == '/' && s[1..] == b;
      SplitSlashFirst(b);
    } else {
      SplitAtSlash(a[1..], b);
      assert s[0] == a[0] && s[1..] == a[1..] + "/" + b;
      PrependThenMore(a[0], Split(a[1..]), Split(b));
    }
  }

  lemma SplitSlashFirst(b: string)
    ensures Prepend('/', Split(b)) == Split("") + Split(b)
  {
  }

  lemma {:induction false} SplitUndoesGlue(st: seq<string>)
    requires st != [] && forall i :: 0 <= i < |st| ==> '/' !in st[i]
    ensures Split(Glue(st)) == st
  {
    hide Split;
    var n := |st| - 1;
    SplitOfPlain(st[n]);
    if n > 0 {
      SplitUndoesGlue(st[..n]);
      SplitAtSlash(Glue(st[..n]), st[n]);
      assert st == st[..n] + [st[n]];
    } else {
      assert st == [st[0]];
    }
  }

  lemma {:induction false} GlueFromFront(x: string, st: seq<string>)
    requires st != []
    ensures Glue([x] + st) == x + "/" + Glue(st)
  {
    var n := |st| - 1;
    var all := [x] + st;
    assert all[..n + 1] == [x] + st[..n];
    if n > 0 {
      GlueFromFront(x, st[..n]);
    } else {
      assert all[..1] == [x];
    }
  }

  lemma {:induction false} GlueUndoesSplit(s: string)
    ensures Glue(Split(s)) == s
  {
    if s != "" {
      var rest := Split(s[1..]);
      GlueUndoesSplit(s[1..]);
      if s[0] == '/' {
        GlueFromFront("", rest);
      } else {
        GluePrepends(s[0], rest);
      }
      assert s == [s[0]] + s[1..];
    }
  }

  lemma GluePrepends(c: char, pieces: seq<string>)
    requires pieces != [] && c != '/'
    ensures Glue(Prepend(c, pieces)) == [c] + Glue(pieces)
  {
    hide Glue;
    var x, rest := pieces[0], pieces[1..];
    assert pieces == [x] + rest;
    assert Prepend(c, pieces) == [[c] + x] + rest;
    if rest != [] {
      GlueFromFront([c] + x, rest);
      GlueFromFront(x, rest);
      assert ([c] + x) + "/" + Glue(rest) == [c] + (x + "/" + Glue(rest));
    } else {
      assert [[c] + x] + rest == [[c] + x] && [x] + rest == [x];
      GlueOfOne(x);
      GlueOfOne([c] + x);
    }
  }

  lemma GlueOfOne(e: string)
    ensures Glue([e]) == e
  {
  }

  lemma PushKeepsReduced(rooted: bool, st: seq<string>, e: string)
    requires IsReduced(rooted, st) && '/' !in e
    ensures IsReduced(rooted, Push(rooted, st, e))
  {
  }

  lemma {:induction false} PushAllKeepsReduced(rooted: bool, st: seq<string>, es: seq<string>)
    requires IsReduced(rooted, st) && forall i :: 0 <= i < |es| ==> '/' !in es[i]
    ensures IsReduced(rooted, PushAll(rooted, st, es))
    decreases es
  {
    if es != [] {
      PushKeepsReduced(rooted, st, es[0]);
      PushAllKeepsReduced(rooted, Push(rooted, st, es[0]), es[1..]);
    }
  }

  lemma {:induction false} PushAllAppend(rooted: bool, st: seq<string>, a: seq<string>, b: seq<string>)
    ensures PushAll(rooted, st, a + b) == PushAll(rooted, PushAll(rooted, st, a), b)
    decreases a
  {
    if a == [] {
      assert a + b == b;
    } else {
      assert (a + b)[1..] == a[1..] + b;
      PushAllAppend(rooted, Push(rooted, st, a[0]), a[1..], b);
    }
  }

  /** Elements already reduced are kept as they are. */
  lemma {:induction false} PushAllOfReduced(rooted: bool, st: seq<string>)
    requires IsReduced(rooted, st)
    ensures PushAll(rooted, [], st) == st
  {
    if st != [] {
      var n := |st| - 1;
      PushAllOfReduced(rooted, st[..n]);
      PushAllAppend(rooted, [], st[..n], [st[n]]);
      assert st[..n] + [st[n]] == st;
      assert Push(rooted, st[..n], st[n]) == st;
    }
  }

  /** The elements seen when a clean path, extended by a further part, is split. */
  lemma ElementsOfExtended(rooted: bool, st: seq<string>, b: string)
    requires IsReduced(rooted, st)
    ensures var s := Render(rooted, st) + "/" + b;
      IsRooted(s) == rooted && PushAll(rooted, [], Split(s)) == PushAll(rooted, st, Split(b))
  {
    SplitAtSlash(Render(rooted, st), b);
    ElementsOf(rooted, st);
    PushAllAppend(rooted, [], Split(Render(rooted, st)), Split(b));
  }

  lemma ElementsOf(rooted: bool, st: seq<string>)
    requires IsReduced(rooted, st)
    ensures IsRooted(Render(rooted, st)) == rooted
    ensures PushAll(rooted, [], Split(Render(rooted, st))) == st
  {
    if st == [] {
      if rooted {
        SplitAtSlash("", "");
        assert "" + "/" + "" == "/";
        assert Split("") + Split("") == ["", ""];
        assert ["", ""][1..] == [""];
        assert "/" + Glue([]) == "/";
      } else {
        SplitOfPlain(".");
      }
    } else {
      SplitUndoesGlue(st);
      PushAllOfReduced(rooted, st);
      if rooted {
        SplitAtSlash("", Glue(st));
        assert "" + "/" + Glue(st) == "/" + Glue(st);
        assert PushAll(rooted, [], [""] + st) == PushAll(rooted, [], st) by { assert ([""] + st)[1..] == st; }
      }
    }
  }

  /** Cleaning a path again changes nothing. */
  lemma CleanIsIdempotent(s: string)
    ensures Clean(Clean(s)) == Clean(s)
  {
    var rooted := IsRooted(s);
    SplitHasNoSlashes(s);
    PushAllKeepsReduced(rooted, [], Split(s));
    ElementsOf(rooted, PushAll(rooted, [], Split(s)));
  }

  lemma CleanOfExtended(rooted: bool, st: seq<string>, b: string)
    requires IsReduced(rooted, st)
    ensures Clean(Render(rooted, st) + "/" + b) == Render(rooted, PushAll(rooted, st, Split(b)))
  {
    ElementsOfExtended(rooted, st, b);
  }

  /** Joining a part to a clean path pushes its elements, whatever the part is. */
  lemma JoinOfClean(rooted: bool, st: seq<string>, b: string)
    requires IsReduced(rooted, st)
    ensures Join(Render(rooted, st), b) == Render(rooted, PushAll(rooted, st, Split(b)))
  {
    hide Render;
    RenderIsNotEmpty(rooted, st);
    if b == "" {
      ElementsOf(rooted, st);
      assert [""][1..] == [];
    } else {
      ElementsOfExtended(rooted, st, b);
    }
  }

  lemma JoinPushes(rooted: bool, st: seq<string>, e: string)
    requires IsReduced(rooted, st) && '/' !in e
    ensures Join(Render(rooted, st), e) == Render(rooted, Push(rooted, st, e))
  {
    JoinOfClean(rooted, st, e);
    SplitOfPlain(e);
    assert [e][1..] == [];
  }

  lemma RenderIsNotEmpty(rooted: bool, st: seq<string>)
    requires IsReduced(rooted, st)
    ensures Render(rooted, st) != ""
  {
    if st != [] {
    }
  }

  // ----- climbing

  lemma {:induction false} UpToSlashOfPlain(a: string, e: string)
    requires '/' !in e
    ensures UpToSlash(a + "/" + e) == a + "/"
    ensures UpToSlash(e) == ""
  {
    if e == "" {
      assert a + "/" + e == a + "/";
    } else {
      var s := a + "/" + e;
      UpToSlashOfPlain(a, e[..|e| - 1]);
      assert s[..|s| - 1] == a + "/" + e[..|e| - 1];
    }
  }

  lemma CleanOfRoot()
    ensures Clean("/") == "/" == Render(true, [])
  {
    ElementsOf(true, []);
    assert Render(true, []) == "/";
  }

  lemma CleanOfNothing()
    ensures Clean("") == "."
  {
  }

  lemma CleanOfSlashed(rooted: bool, st: seq<string>)
    requires IsReduced(rooted, st)
    ensures Clean(Render(rooted, st) + "/") == Render(rooted, st)
  {
    ElementsOfExtended(rooted, st, "");
    assert Render(rooted, st) + "/" + "" == Render(rooted, st) + "/";
    assert Split("") == [""] && [""][1..] == [];
  }

  /** The directory of a clean path drops its last element; "/" and "." stay. */
  lemma DirOfClean(rooted: bool, st: seq<string>)
    requires IsReduced(rooted, st)
    ensures Dir(Render(rooted, st)) == Render(rooted, if st == [] then [] else st[..|st| - 1])
  {
    hide Split;
    hide PushAll;
    if st == [] {
      if rooted {
        CleanOfRoot();
        assert UpToSlash("/") == "/";
      } else {
        UpToSlashOfPlain("", ".");
        CleanOfNothing();
      }
    } else {
      var n := |st| - 1;
      var parent := st[..n];
      assert IsReduced(rooted, parent);
      if n == 0 && !rooted {
        UpToSlashOfPlain("", st[0]);
        CleanOfNothing();
      } else if n == 0 {
        UpToSlashOfPlain("", st[0]);
        assert Render(rooted, st) == "" + "/" + st[0];
        assert "" + "/" == "/";
        CleanOfRoot();
      } else {
        UpToSlashOfPlain(Render(rooted, parent), st[n]);
        assert Render(rooted, st) == Render(rooted, parent) + "/" + st[n];
        CleanOfSlashed(rooted, parent);
      }
    }
  }
  // ----- the rules of cleaning, on strings

  function Elements(s: string): seq<string> { PushAll(IsRooted(s), [], Split(s)) }

  lemma CleanIsReduced(s: string)
    ensures Clean(s) == Render(IsRooted(s), Elements(s)) && IsReduced(IsRooted(s), Elements(s))
  {
    SplitHasNoSlashes(s);
    PushAllKeepsReduced(IsRooted(s), [], Split(s));
  }

  predicate IsPlain(e: string) { e != "" && e != "." && e != ".." && '/' !in e }

  lemma PlainIsAppended(rooted: bool, st: seq<string>, e: string)
    requires IsReduced(rooted, st) && IsPlain(e)
    ensures IsReduced(rooted, st + [e])
    ensures Push(rooted, st, e) == st + [e] && Push(rooted, st + [e], "..") == st
    ensures Render(rooted, st + [e]) ==
      if st != [] then Render(rooted, st) + "/" + e else if rooted then "/" + e else e
  {
    var st' := st + [e];
    assert st'[..|st|] == st && st'[|st|] == e;
  }

  lemma StartHasNoElements(p: string)
    requires Clean(p) == p
    ensures Elements(p) == [] <==> p == "." || p == "/"
  {
    SplitOfPlain(".");
    assert ["."][1..] == [];
    SplitAtSlash("", "");
    assert "" + "/" + "" == "/";
    assert Split("/") == ["", ""] && ["", ""][1..] == [""] && [""][1..] == [];
    CleanIsReduced(p);
    if Elements(p) == [] {
      GlueOfNone(p);
    }
  }

  lemma GlueOfNone(p: string)
    requires p == Render(IsRooted(p), [])
    ensures p == if IsRooted(p) then "/" else "."
  {
    assert "/" + "" == "/";
  }

  /** Joining one element to a clean path: empty and dot elements change nothing, a
      plain one is appended, and dot-dot takes a plain one away again. */
  lemma JoinByRules(p: string, e: string)
    requires Clean(p) == p && '/' !in e
    ensures e == "" || e == "." ==> Join(p, e) == p
    ensures IsPlain(e) ==>
      && Join(p, e) == (if p == "." then e else if p == "/" then "/" + e else p + "/" + e)
      && Join(Join(p, e), "..") == p
      && Dir(Join(p, e)) == p
  {
    hide Join;
    hide Dir;
    hide Split;
    hide Clean;
    hide Render;
    hide IsReduced;
    hide Elements;
    hide Push;
    var rooted, st := IsRooted(p), Elements(p);
    CleanIsReduced(p);
    StartHasNoElements(p);
    if IsPlain(e) {
      PlainIsAppended(rooted, st, e);
      PlainIsTakenAway(rooted, st, e);
    } else if e == "" || e == "." {
      JoinPushes(rooted, st, e);
      NothingIsPushed(rooted, st, e);
    }
  }

  lemma NothingIsPushed(rooted: bool, st: seq<string>, e: string)
    requires e == "" || e == "."
    ensures Push(rooted, st, e) == st
  {
  }

  lemma PlainIsTakenAway(rooted: bool, st: seq<string>, e: string)
    requires IsReduced(rooted, st) && IsPlain(e)
    ensures var p := Render(rooted, st);
      && Join(p, e) == Render(rooted, st + [e])
      && Join(Join(p, e), "..") == p
      && Dir(Join(p, e)) == p
  {
    hide Join;
    hide Dir;
    hide Render;
    hide IsReduced;
    PlainIsAppended(rooted, st, e);
    JoinPushes(rooted, st, e);
    JoinPushes(rooted, st + [e], "..");
    DirOfClean(rooted, st + [e]);
    assert (st + [e])[..|st|] == st;
  }

  lemma LastElement(rooted: bool, st: seq<string>)
    requires IsReduced(rooted, st) && st != []
    ensures var es := Split(Render(rooted, st)); es[|es| - 1] == st[|st| - 1]
  {
    hide Split;
    SplitUndoesGlue(st);
    if rooted {
      SplitAtSlash("", Glue(st));
      assert "" + "/" + Glue(st) == "/" + Glue(st);
    }
  }

  lemma ClimbsFurther(st: seq<string>)
    requires IsReduced(false, st) && st != [] && st[|st| - 1] == ".."
    ensures Render(false, Push(false, st, "..")) == Render(false, st) + "/.."
  {
    var st' := st + [".."];
    assert st'[..|st|] == st && st'[|st|] == "..";
    assert "/" + ".." == "/..";
  }

  /** Where there is nothing plain to take away: the root stays, and a relative path
      climbs. */
  lemma JoinDotDotByRules(p: string)
    requires Clean(p) == p
    ensures p == "/" ==> Join(p, "..") == "/"
    ensures p == "." ==> Join(p, "..") == ".."
    ensures p == ".." || (exists q :: p == q + "/..") ==> Join(p, "..") == p + "/.."
  {
    hide Join;
    hide Split;
    hide Clean;
    hide IsReduced;
    hide Elements;
    hide Render;
    hide Push;
    var rooted, st := IsRooted(p), Elements(p);
    CleanIsReduced(p);
    StartHasNoElements(p);
    JoinPushes(rooted, st, "..");
    if st == [] {
      ClimbsFromStart(rooted);
      GlueOfNone(p);
    } else {
      LastElement(rooted, st);
      if p == ".." {
        SplitOfPlain("..");
      }
      if q :| p == q + "/.." {
        SplitAtSlash(q, "..");
        SplitOfPlain("..");
        assert q + "/" + ".." == p;
      }
      if st[|st| - 1] == ".." {
        DotDotIsRelative(rooted, st);
        ClimbsFurther(st);
      }
    }
  }

  lemma DotDotIsRelative(rooted: bool, st: seq<string>)
    requires IsReduced(rooted, st) && st != [] && st[|st| - 1] == ".."
    ensures !rooted
  {
  }

  lemma ClimbsFromStart(rooted: bool)
    ensures Render(rooted, Push(rooted, [], "..")) == if rooted then "/" else ".."
  {
    assert "/" + "" == "/";
  }

  /** Cleaning element by element, so that the rules decide every path. */
  lemma CleanByElements(s: string, e: string)
    requires '/' !in e
    ensures Clean(e) == if e == "" || e == "." then "." else e
    ensures Clean(s + "/" + e) == Join(if s == "" then "/" else Clean(s), e)
  {
    hide Join;
    hide Split;
    CleanOfElement(e);
    SplitOfPlain(e);
    SplitAtSlash(s, e);
    var rooted := IsRooted(s + "/" + e);
    CleanIsReduced(if s == "" then "/" else s);
    if s == "" {
      CleanOfRootElement(e);
    } else {
      assert rooted == IsRooted(s);
      PushAllAppend(rooted, [], Split(s), [e]);
      PushAllOne(rooted, Elements(s), e);
      JoinPushes(rooted, Elements(s), e);
    }
  }

  lemma PushAllOne(rooted: bool, st: seq<string>, e: string)
    ensures PushAll(rooted, st, [e]) == Push(rooted, st, e)
  {
    assert [e][1..] == [];
  }

  lemma CleanOfElement(e: string)
    requires '/' !in e
    ensures Clean(e) == if e == "" || e == "." then "." else e
  {
    SplitOfPlain(e);
    PushAllOne(false, [], e);
    assert [] + [e] == [e];
  }

  lemma CleanOfRootElement(e: string)
    requires '/' !in e
    ensures Clean("" + "/" + e) == Join("/", e)
  {
    hide Join;
    hide Split;
    SplitOfPlain("");
    SplitOfPlain(e);
    SplitAtSlash("", e);
    var es: seq<string> := [""] + [e];
    assert es[1..] == [e];
    PushAllOne(true, [], e);
    JoinPushes(true, [], e);
    assert "/" + Glue([]) == "/";
  }
}
