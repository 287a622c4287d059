/** Vendoring the dependencies of a package: the exclusions, the renaming of one
    file, and the parallel pass that renames a list of files in place, one goroutine
    a slot, with a channel counting those that have finished. */
module Vendoring {
  import opened Wrappers
  import opened Counting
  import opened Paths
  import opened Directories

  // ----- the names left alone

  /** The vendor directories of the package's ancestors and its own. */
  function VendorDirs(prev: string, elements: seq<string>): seq<string>
    decreases elements
  {
    if elements == [] then []
    else
      var curr := Join(prev, elements[0]);
      [Join(curr, "vendor")] + VendorDirs(curr, elements[1..])
  }

  function Exclusions(pkg: string): seq<string> { VendorDirs("src", Split(pkg)) + [Join("src", pkg)] }

  /** filepath.Join("src", pkg, "vendor"). */
  function VendorPath(pkg: string): string { Clean(if pkg == "" then "src/vendor" else "src/" + pkg + "/vendor") }

  ghost predicate Excluded(pkg: string, name: string) { exists e :: e in Exclusions(pkg) && e <= name }

  method ExclusionsOf(pkg: string) returns (exclusions: seq<string>)
    ensures exclusions == Exclusions(pkg)
  {
    exclusions := [];
    var elements := Split(pkg);
    var prev := "src";
    assert elements[0..] == elements;
    for i := 0 to |elements|
      invariant exclusions + VendorDirs(prev, elements[i..]) == VendorDirs("src", elements)
    {
      assert elements[i..][1..] == elements[i + 1..];
      var curr := Join(prev, elements[i]);
      exclusions := exclusions + [Join(curr, "vendor")];
      prev := curr;
    }
    exclusions := exclusions + [Join("src", pkg)];
  }

  /** strings.Replace(s, old, new, 1). */
  function ReplaceFirst(s: string, from: string, to: string): string {
    if from <= s then to + s[|from|..] else if s == "" then s else [s[0]] + ReplaceFirst(s[1..], from, to)
  }

  ghost function Vendored(pkg: string, file: SourceDescriptor): SourceDescriptor {
    if Excluded(pkg, file.name) then file else file.(name := ReplaceFirst(file.name, "src", VendorPath(pkg)))
  }

  /** What one goroutine computes, with its loop over the exclusions. */
  method VendorOne(pkg: string, exclusions: seq<string>, file: SourceDescriptor) returns (r: SourceDescriptor)
    requires exclusions == Exclusions(pkg)
    ensures r == Vendored(pkg, file)
  {
    hide Exclusions;
    hide ReplaceFirst;
    hide VendorPath;
    var excluded := false;
    for i := 0 to |exclusions|
      invariant !excluded
      invariant forall k :: 0 <= k < i ==> !(exclusions[k] <= file.name)
    {
      if exclusions[i] <= file.name {
        excluded := true;
        assert exclusions[i] in Exclusions(pkg);
        break;
      }
    }
    if !excluded {
      return file.(name := ReplaceFirst(file.name, "src", VendorPath(pkg)));
    }
    return file;
  }

  // ----- where the vendor path lies

  /** The package's directory and its vendor directory, as elements under "src". */
  lemma PackageStack(pkg: string)
    ensures var st := PushAll(false, ["src"], Split(pkg));
      && IsReduced(false, st)
      && Join("src", pkg) == Render(false, st)
      && VendorPath(pkg) == Render(false, st + ["vendor"]) == Join(Join("src", pkg), "vendor")
  {
    hide Clean;
    hide Join;
    hide Split;
    hide PushAll;
    hide VendorPath;
    var st := PushAll(false, ["src"], Split(pkg));
    assert Render(false, ["src"]) == "src";
    SplitHasNoSlashes(pkg);
    PushAllKeepsReduced(false, ["src"], Split(pkg));
    JoinOfClean(false, ["src"], pkg);
    JoinPushes(false, st, "vendor");
    VendorPathCleans(pkg);
  }

  lemma VendorPathCleans(pkg: string)
    ensures VendorPath(pkg) == Render(false, PushAll(false, ["src"], Split(pkg)) + ["vendor"])
  {
    hide Split;
    hide PushAll;
    hide Clean;
    assert Render(false, ["src"]) == "src";
    SplitOfPlain("vendor");
    SplitOfPlain("");
    if pkg == "" {
      CleanOfExtended(false, ["src"], "vendor");
      assert "src" + "/" + "vendor" == "src/vendor";
      PushNothing(["src"]);
      PushVendor(["src"]);
    } else {
      SplitAtSlash(pkg, "vendor");
      assert "src" + "/" + (pkg + "/" + "vendor") == "src/" + pkg + "/vendor";
      CleanOfExtended(false, ["src"], pkg + "/" + "vendor");
      PushAllAppend(false, ["src"], Split(pkg), ["vendor"]);
      PushVendor(PushAll(false, ["src"], Split(pkg)));
    }
  }

  lemma PushVendor(st: seq<string>)
    ensures PushAll(false, st, ["vendor"]) == st + ["vendor"]
  {
    assert ["vendor"][1..] == [];
  }

  lemma PushNothing(st: seq<string>)
    ensures PushAll(false, st, [""]) == st
  {
    assert [""][1..] == [];
  }

  lemma {:induction false} VendorDirsReachTheEnd(st: seq<string>, elements: seq<string>)
    requires IsReduced(false, st) && elements != [] && forall i :: 0 <= i < |elements| ==> '/' !in elements[i]
    ensures Join(Render(false, PushAll(false, st, elements)), "vendor") in VendorDirs(Render(false, st), elements)
    decreases elements
  {
    JoinPushes(false, st, elements[0]);
    PushKeepsReduced(false, st, elements[0]);
    if |elements| > 1 {
      VendorDirsReachTheEnd(Push(false, st, elements[0]), elements[1..]);
    } else {
      assert elements[1..] == [];
    }
  }

  lemma VendorPathIsExcluded(pkg: string)
    ensures VendorPath(pkg) in Exclusions(pkg)
    ensures |VendorPath(pkg)| >= 6
  {
    PackageStack(pkg);
    SplitHasNoSlashes(pkg);
    VendorDirsReachTheEnd(["src"], Split(pkg));
    assert Render(false, ["src"]) == "src";
  }

  // ----- the exclusions, without the loop

  lemma CleanVendorDir(elements: seq<string>)
    requires elements != [] && forall i :: 0 <= i < |elements| ==> '/' !in elements[i]
    ensures Clean("src/" + Glue(elements) + "/vendor")
         == Render(false, PushAll(false, ["src"], elements) + ["vendor"])
  {
    hide Split;
    hide PushAll;
    hide Clean;
    hide Glue;
    hide IsReduced;
    var g := Glue(elements);
    var b := g + "/" + "vendor";
    GlueOfOne("src");
    SplitUndoesGlue(elements);
    SplitAtSlash(g, "vendor");
    SplitOfPlain("vendor");
    SrcIsReduced();
    CleanOfExtended(false, ["src"], b);
    PushAllAppend(false, ["src"], elements, ["vendor"]);
    PushVendor(PushAll(false, ["src"], elements));
    SameText(g);
  }

  lemma SameText(g: string)
    ensures "src/" + g + "/vendor" == "src" + "/" + (g + "/" + "vendor")
  {
    assert "src" + "/" == "src/" && "/" + "vendor" == "/vendor";
  }

  lemma SrcIsReduced()
    ensures IsReduced(false, ["src"])
  {
  }

  lemma {:induction false} VendorDirsAt(st: seq<string>, elements: seq<string>, j: nat)
    requires IsReduced(false, st) && j < |elements| && forall i :: 0 <= i < |elements| ==> '/' !in elements[i]
    ensures |VendorDirs(Render(false, st), elements)| == |elements|
    ensures VendorDirs(Render(false, st), elements)[j]
         == Render(false, PushAll(false, st, elements[..j + 1]) + ["vendor"])
    decreases elements
  {
    hide Join;
    hide Render;
    hide IsReduced;
    var next := Push(false, st, elements[0]);
    JoinPushes(false, st, elements[0]);
    PushKeepsReduced(false, st, elements[0]);
    JoinPushes(false, next, "vendor");
    assert elements[..j + 1][1..] == elements[1..][..j];
    if |elements| > 1 {
      VendorDirsAt(next, elements[1..], if j > 0 then j - 1 else 0);
    }
    if j == 0 {
      assert elements[1..][..0] == [];
    }
  }

  /** Which names are excluded: the package, and the vendor directory under every path
      that "src" and the first pieces of the package's name spell. */
  lemma ExclusionsExactly(pkg: string, e: string)
    ensures e in Exclusions(pkg) <==>
      || e == Clean("src/" + pkg)
      || exists k :: 0 < k <= |Split(pkg)| && e == VendorUnder(Split(pkg)[..k])
  {
    hide Split;
    hide Clean;
    hide VendorDirs;
    var dirs := VendorDirs("src", Split(pkg));
    PackageIsCleaned(pkg);
    forall k | 0 < k <= |Split(pkg)|
      ensures |dirs| == |Split(pkg)| && dirs[k - 1] == VendorUnder(Split(pkg)[..k])
    {
      VendorDirsOf(pkg, k);
    }
    VendorDirsOf(pkg, 1);
    if e in dirs {
      var j :| 0 <= j < |dirs| && dirs[j] == e;
      assert e == VendorUnder(Split(pkg)[..j + 1]);
    }
  }

  function VendorUnder(elements: seq<string>): string { Clean("src/" + Glue(elements) + "/vendor") }

  lemma VendorDirsOf(pkg: string, k: nat)
    requires 0 < k <= |Split(pkg)|
    ensures var dirs := VendorDirs("src", Split(pkg));
      |dirs| == |Split(pkg)| && dirs[k - 1] == VendorUnder(Split(pkg)[..k])
  {
    hide Split;
    hide Clean;
    hide VendorDirs;
    hide PushAll;
    SplitHasNoSlashes(pkg);
    GlueOfOne("src");
    VendorDirsAt(["src"], Split(pkg), k - 1);
    CleanVendorDir(Split(pkg)[..k]);
  }

  lemma PackageIsCleaned(pkg: string)
    ensures Join("src", pkg) == Clean("src/" + pkg)
  {
    hide Split;
    hide Clean;
    if pkg == "" {
      GlueOfOne("src");
      CleanOfExtended(false, ["src"], "");
      JoinOfClean(false, ["src"], "");
      assert "src" + "/" + "" == "src/" + "";
    } else {
      assert "src" + "/" + pkg == "src/" + pkg;
    }
  }

  /** The package's own vendor directory is where files are moved. */
  lemma VendorPathIsOwn(pkg: string)
    ensures VendorPath(pkg) == Clean("src/" + pkg + "/vendor")
  {
    hide Split;
    hide Clean;
    hide PushAll;
    SplitHasNoSlashes(pkg);
    GlueUndoesSplit(pkg);
    CleanVendorDir(Split(pkg));
    VendorPathCleans(pkg);
  }

  /** What lies in the vendor directory of an ancestor, or of the package, stays. */
  lemma VendoredAboveStays(pkg: string, k: nat, file: SourceDescriptor)
    requires 0 < k <= |Split(pkg)| && VendorUnder(Split(pkg)[..k]) <= file.name
    ensures Vendored(pkg, file) == file
  {
    hide Exclusions;
    hide VendorUnder;
    ExclusionsExactly(pkg, VendorUnder(Split(pkg)[..k]));
  }

  lemma AncestorsVendorStays(above: string, below: string, file: SourceDescriptor)
    requires Clean("src/" + above + "/vendor") <= file.name
    ensures Vendored(above + "/" + below, file) == file
  {
    hide Split;
    hide Clean;
    hide Vendored;
    var pkg, k := above + "/" + below, |Split(above)|;
    SplitAtSlash(above, below);
    assert Split(pkg)[..k] == Split(above);
    GlueUndoesSplit(above);
    VendoredAboveStays(pkg, k, file);
  }

  // ----- the renaming of one file

  /** Where "src" first occurs. */
  ghost predicate FirstAt(s: string, part: string, p: nat) {
    p <= |s| && part <= s[p..] && forall q :: 0 <= q < p ==> !(part <= s[q..])
  }

  lemma FirstInRest(s: string, part: string, p: nat)
    requires FirstAt(s, part, p) && p > 0
    ensures FirstAt(s[1..], part, p - 1) && !(part <= s)
  {
    assert s[0..] == s;
    assert s[1..][p - 1..] == s[p..];
    forall q | 0 <= q < p - 1 ensures !(part <= s[1..][q..]) {
      assert s[1..][q..] == s[q + 1..];
    }
  }

  lemma FirstInWhole(s: string, part: string, p: nat)
    requires s != "" && !(part <= s) && FirstAt(s[1..], part, p)
    ensures FirstAt(s, part, p + 1)
  {
    assert s[0..] == s;
    assert s[1..][p..] == s[p + 1..];
    forall q | 0 <= q < p + 1 ensures !(part <= s[q..]) {
      if q > 0 {
        assert s[1..][q - 1..] == s[q..];
      }
    }
  }

  lemma {:induction false} ReplacesWhereFirst(s: string, from: string, to: string, p: nat)
    requires FirstAt(s, from, p)
    ensures ReplaceFirst(s, from, to) == s[..p] + to + s[p + |from|..]
    decreases p
  {
    hide FirstAt;
    hide ReplaceFirst;
    FirstFits(s, from, p);
    if p == 0 {
      FirstHere(s, from, to);
      assert s[..0] + to == to;
    } else {
      FirstInRest(s, from, p);
      ReplacesWhereFirst(s[1..], from, to, p - 1);
      FirstFits(s[1..], from, p - 1);
      ReplaceSkips(s, from, to);
    }
  }

  lemma ReplaceSkips(s: string, from: string, to: string)
    requires s != "" && !(from <= s)
    ensures ReplaceFirst(s, from, to) == [s[0]] + ReplaceFirst(s[1..], from, to)
  {
  }

  lemma FirstHere(s: string, from: string, to: string)
    requires FirstAt(s, from, 0)
    ensures from <= s && ReplaceFirst(s, from, to) == to + s[|from|..]
  {
    assert s[0..] == s;
  }

  lemma FirstFits(s: string, part: string, p: nat)
    requires FirstAt(s, part, p)
    ensures p + |part| <= |s|
  {
  }

  lemma {:induction false} ReplacesOnlyWhatOccurs(s: string, from: string, to: string)
    requires forall p: nat :: !FirstAt(s, from, p)
    ensures ReplaceFirst(s, from, to) == s
  {
    assert s[0..] == s;
    assert !FirstAt(s, from, 0);
    if s != "" {
      forall p: nat ensures !FirstAt(s[1..], from, p) {
        if FirstAt(s[1..], from, p) {
          FirstInWhole(s, from, p);
        }
      }
      ReplacesOnlyWhatOccurs(s[1..], from, to);
    }
  }

  ghost predicate MentionsSrc(name: string) { exists p: nat :: FirstAt(name, "src", p) }

  /** A file keeps its name exactly when some exclusion is a string prefix of it or
      there is no "src" to replace. */
  lemma UnchangedExactlyWhen(pkg: string, file: SourceDescriptor)
    ensures Vendored(pkg, file) == file <==> Excluded(pkg, file.name) || !MentionsSrc(file.name)
  {
    hide Excluded;
    hide VendorPath;
    VendorPathIsExcluded(pkg);
    if !MentionsSrc(file.name) {
      ReplacesOnlyWhatOccurs(file.name, "src", VendorPath(pkg));
    } else {
      var p: nat :| FirstAt(file.name, "src", p);
      ReplacesWhereFirst(file.name, "src", VendorPath(pkg), p);
      assert |ReplaceFirst(file.name, "src", VendorPath(pkg))| > |file.name|;
    }
  }

  /** And otherwise the first "src" in it gives way to the package's vendor directory,
      and nothing else about the file changes. */
  lemma MovedTo(pkg: string, file: SourceDescriptor, p: nat)
    requires !Excluded(pkg, file.name) && FirstAt(file.name, "src", p)
    ensures p + 3 <= |file.name|
    ensures Vendored(pkg, file) == SourceDescriptor(
      file.name[..p] + Clean("src/" + pkg + "/vendor") + file.name[p + 3..], file.path, file.isMetadata)
  {
    hide Excluded;
    hide Clean;
    hide VendorPath;
    FirstFits(file.name, "src", p);
    VendorPathIsOwn(pkg);
    ReplacesWhereFirst(file.name, "src", VendorPath(pkg), p);
  }

  predicate UnderSrc(name: string) { "src/" <= name }

  /** For a file under src/ a second run changes nothing. */
  lemma SecondRunChangesNothing(pkg: string, file: SourceDescriptor)
    requires UnderSrc(file.name)
    ensures Vendored(pkg, Vendored(pkg, file)) == Vendored(pkg, file)
  {
    SrcFirst(pkg, file);
  }

  lemma SrcFirst(pkg: string, file: SourceDescriptor)
    requires "src" <= file.name
    ensures !Excluded(pkg, file.name) ==> Vendored(pkg, file).name == VendorPath(pkg) + file.name[3..]
    ensures Excluded(pkg, Vendored(pkg, file).name)
  {
    hide VendorPath;
    hide Exclusions;
    VendorPathIsExcluded(pkg);
  }

  /** Which files survive a second run, for any package name: those left alone, those
      that began with "src", and those whose new name is excluded or has lost its
      "src", which takes a package name that climbs out of src with "..". */
  lemma SecondRunExactly(pkg: string, file: SourceDescriptor)
    ensures var once := Vendored(pkg, file);
      && (Vendored(pkg, once) == once <==>
            once == file || "src" <= file.name || Excluded(pkg, once.name) || !MentionsSrc(once.name))
      && (".." !in Split(pkg) ==> (Vendored(pkg, once) == once <==> once == file || "src" <= file.name))
  {
    hide VendorPath;
    hide Excluded;
    hide MentionsSrc;
    var once := Vendored(pkg, file);
    UnchangedExactlyWhen(pkg, once);
    if "src" <= file.name {
      SrcFirst(pkg, file);
    } else if once != file && ".." !in Split(pkg) {
      MovesAgain(pkg, file);
    }
  }

  lemma MovesAgain(pkg: string, file: SourceDescriptor)
    requires Vendored(pkg, file) != file && !("src" <= file.name) && ".." !in Split(pkg)
    ensures !Excluded(pkg, Vendored(pkg, file).name) && MentionsSrc(Vendored(pkg, file).name)
  {
    hide VendorPath;
    hide Excluded;
    UnchangedExactlyWhen(pkg, file);
    var p: nat :| FirstAt(file.name, "src", p);
    ReplacesWhereFirst(file.name, "src", VendorPath(pkg), p);
    UnderlyingSrc(pkg);
    MovedButNotExcluded(pkg, file.name, p);
  }

  lemma MovedButNotExcluded(pkg: string, name: string, p: nat)
    requires FirstAt(name, "src", p) && !("src" <= name)
    requires "src" <= VendorPath(pkg) && forall e :: e in Exclusions(pkg) ==> "src" <= e
    ensures var moved := name[..p] + VendorPath(pkg) + name[p + 3..];
      !Excluded(pkg, moved) && MentionsSrc(moved)
  {
    hide VendorPath;
    hide Exclusions;
    var v := VendorPath(pkg);
    var moved := name[..p] + v + name[p + 3..];
    assert name[0..] == name;
    if p >= 3 {
      assert moved[..3] == name[..3];
    } else {
      assert v[0] == 's' && moved[p] == 's';
    }
    assert !("src" <= moved);
    assert moved[p..] == v + name[p + 3..];
    SomewhereFirst(moved, "src", p);
  }

  lemma {:induction false} SomewhereFirst(s: string, part: string, p: nat)
    requires p <= |s| && part <= s[p..]
    ensures exists q: nat :: FirstAt(s, part, q)
    decreases p
  {
    if q :| 0 <= q < p && part <= s[q..] {
      SomewhereFirst(s, part, q);
    } else {
      assert FirstAt(s, part, p);
    }
  }

  lemma UnderlyingSrc(pkg: string)
    requires ".." !in Split(pkg)
    ensures "src" <= VendorPath(pkg) && forall e :: e in Exclusions(pkg) ==> "src" <= e
  {
    hide VendorPath;
    hide Split;
    hide Join;
    hide PushAll;
    PackageStack(pkg);
    SplitHasNoSlashes(pkg);
    assert Render(false, ["src"]) == "src";
    ElementsStayUnder("src", ["src"], Split(pkg));
    var st := PushAll(false, ["src"], Split(pkg));
    GlueStartsWith(st);
    GlueStartsWith(st + ["vendor"]);
  }

  lemma {:induction false} GlueStartsWith(st: seq<string>)
    requires st != []
    ensures st[0] <= Glue(st)
  {
    if |st| > 1 {
      GlueStartsWith(st[..|st| - 1]);
    }
  }

  lemma {:induction false} ElementsStayUnder(root: string, st: seq<string>, elements: seq<string>)
    requires IsReduced(false, st) && st != [] && st[0] == root
    requires forall i :: 0 <= i < |elements| ==> '/' !in elements[i] && elements[i] != ".."
    ensures var all := PushAll(false, st, elements); all != [] && all[0] == root
    ensures forall e :: e in VendorDirs(Render(false, st), elements) ==> root <= e
    decreases elements
  {
    hide Join;
    hide Render;
    hide IsReduced;
    if elements != [] {
      var next := Push(false, st, elements[0]);
      PushKeepsReduced(false, st, elements[0]);
      JoinPushes(false, st, elements[0]);
      VendorDirUnder(root, next);
      ElementsStayUnder(root, next, elements[1..]);
    }
  }

  lemma VendorDirUnder(root: string, st: seq<string>)
    requires IsReduced(false, st) && st != [] && st[0] == root
    ensures root <= Join(Render(false, st), "vendor")
  {
    hide Join;
    JoinPushes(false, st, "vendor");
    GlueStartsWith(st + ["vendor"]);
  }

  /** Two files under src/ get the same name only if they had it, or if one of them
      was left alone where the other is put. */
  lemma CollideExactlyWhen(pkg: string, x: SourceDescriptor, y: SourceDescriptor)
    requires UnderSrc(x.name) && UnderSrc(y.name)
    ensures Vendored(pkg, x).name == Vendored(pkg, y).name <==>
      || x.name == y.name
      || (Excluded(pkg, x.name) && !Excluded(pkg, y.name) && x.name == VendorPath(pkg) + y.name[3..])
      || (Excluded(pkg, y.name) && !Excluded(pkg, x.name) && y.name == VendorPath(pkg) + x.name[3..])
  {
    hide VendorPath;
    hide Excluded;
    SrcFirst(pkg, x);
    SrcFirst(pkg, y);
    if !Excluded(pkg, x.name) && !Excluded(pkg, y.name) {
      SamePrefix(VendorPath(pkg), x.name[3..], y.name[3..]);
      assert x.name == "src" + x.name[3..] && y.name == "src" + y.name[3..];
    }
  }

  lemma SamePrefix(p: string, a: string, b: string)
    ensures p + a == p + b <==> a == b
  {
    assert (p + a)[|p|..] == a && (p + b)[|p|..] == b;
  }

  /** So distinct names stay distinct when nothing lies in the vendor directory yet. */
  lemma DistinctNamesStayDistinct(pkg: string, x: SourceDescriptor, y: SourceDescriptor)
    requires UnderSrc(x.name) && UnderSrc(y.name) && x.name != y.name
    requires !(VendorPath(pkg) + "/" <= x.name) && !(VendorPath(pkg) + "/" <= y.name)
    ensures Vendored(pkg, x).name != Vendored(pkg, y).name
  {
    hide VendorPath;
    hide Excluded;
    CollideExactlyWhen(pkg, x, y);
    assert x.name[3] == '/' && y.name[3] == '/';
  }

  /** The exclusion is a string prefix, not a directory: a neighbouring package whose
      name continues the package's own is left alone although it lies outside. */
  lemma NeighbourIsLeftAlone(pkg: string, rest: string, path: string, meta: bool)
    ensures var file := SourceDescriptor(Join("src", pkg) + "X/" + rest, path, meta);
      !(Join("src", pkg) + "/" <= file.name) && Vendored(pkg, file) == file
  {
    hide Join;
    var dir := Join("src", pkg);
    assert dir in Exclusions(pkg);
    var name := dir + "X/" + rest;
    assert name[|dir|] == 'X';
    assert dir <= name;
    assert (dir + "/")[|dir|] == '/';
  }

  // ----- the parallel pass

  datatype PC =
    | Working(file: SourceDescriptor)  // the copy it was started with
    | Sending                          // has stored its result
    | Finished                         // has sent its token

  datatype Main = Spawning | Draining(received: nat) | Returned

  datatype State = State(main: Main, files: seq<SourceDescriptor>, pcs: seq<PC>, tokens: nat)

  datatype Step = Spawn | Store(i: nat) | Send(i: nat) | Receive | Return

  function Init(files: seq<SourceDescriptor>): State { State(Spawning, files, [], 0) }

  /** The channel holds one token per file; a full one blocks. */
  predicate Enabled(s: State, step: Step) {
    match step
    case Spawn => s.main.Spawning?
    case Store(i) => i < |s.pcs| && i < |s.files| && s.pcs[i].Working?
    case Send(i) => i < |s.pcs| && s.pcs[i].Sending? && s.tokens < |s.files|
    case Receive => s.main.Draining? && s.main.received < |s.files| && s.tokens > 0
    case Return => s.main.Draining? && s.main.received == |s.files|
  }

  /** Spawning reads the slot as it is then; storing writes it. */
  ghost function Next(pkg: string, s: State, step: Step): State
    requires Enabled(s, step)
  {
    match step
    case Spawn =>
      if |s.pcs| < |s.files| then s.(pcs := s.pcs + [Working(s.files[|s.pcs|])]) else s.(main := Draining(0))
    case Store(i) => s.(files := s.files[i := Vendored(pkg, s.pcs[i].file)], pcs := s.pcs[i := Sending])
    case Send(i) => s.(pcs := s.pcs[i := Finished], tokens := s.tokens + 1)
    case Receive => s.(main := Draining(s.main.received + 1), tokens := s.tokens - 1)
    case Return => s.(main := Returned)
  }

  ghost function Run(pkg: string, files: seq<SourceDescriptor>, steps: seq<Step>): Option<State> {
    if steps == [] then Some(Init(files))
    else
      match Run(pkg, files, steps[..|steps| - 1])
      case None => None
      case Some(s) =>
        var step := steps[|steps| - 1];
        if Enabled(s, step) then Some(Next(pkg, s, step)) else None
  }

  function HasSent(pc: PC): nat { if pc.Finished? then 1 else 0 }

  function Received(m: Main, n: nat): nat {
    match m case Spawning => 0 case Draining(k) => k case Returned => n
  }

  /** Slot by slot: a goroutine works on the original entry and alone replaces it. */
  ghost predicate SlotOk(pkg: string, files: seq<SourceDescriptor>, s: State, i: nat)
    requires |s.files| == |files| && i < |files|
  {
    && (i < |s.pcs| && s.pcs[i].Working? ==> s.pcs[i].file == files[i])
    && s.files[i] == if i < |s.pcs| && !s.pcs[i].Working? then Vendored(pkg, files[i]) else files[i]
  }

  ghost predicate Inv(pkg: string, files: seq<SourceDescriptor>, s: State) {
    && |s.files| == |files|
    && |s.pcs| <= |files|
    && (!s.main.Spawning? ==> |s.pcs| == |files|)
    && Received(s.main, |files|) <= |files|
    && s.tokens + Received(s.main, |files|) == Total(HasSent, s.pcs)
    && forall i :: 0 <= i < |files| ==> SlotOk(pkg, files, s, i)
  }

  lemma SlotsKeep(pkg: string, files: seq<SourceDescriptor>, s: State, step: Step)
    requires |s.files| == |files| && |s.pcs| <= |files|
    requires forall i :: 0 <= i < |files| ==> SlotOk(pkg, files, s, i)
    requires Enabled(s, step)
    ensures forall i :: 0 <= i < |files| ==> SlotOk(pkg, files, Next(pkg, s, step), i)
  {
    hide Vendored;
    var s' := Next(pkg, s, step);
    forall i | 0 <= i < |files| ensures SlotOk(pkg, files, s', i) {
      assert SlotOk(pkg, files, s, i);
      if step.Store? {
        assert SlotOk(pkg, files, s, step.i);
      }
    }
  }

  lemma StepKeepsInv(pkg: string, files: seq<SourceDescriptor>, s: State, step: Step)
    requires Inv(pkg, files, s) && Enabled(s, step)
    ensures Inv(pkg, files, Next(pkg, s, step))
  {
    hide Total;
    hide Vendored;
    SlotsKeep(pkg, files, s, step);
    match step
    case Spawn =>
      if |s.pcs| < |files| {
        TotalAfterAppend(HasSent, s.pcs, Working(s.files[|s.pcs|]));
      }
    case Store(i) =>
      assert SlotOk(pkg, files, s, i);
      TotalAfterUpdate(HasSent, s.pcs, i, Sending);
    case Send(i) => TotalAfterUpdate(HasSent, s.pcs, i, Finished);
    case Receive =>
    case Return =>
  }

  lemma {:induction false} RunKeepsInv(pkg: string, files: seq<SourceDescriptor>, steps: seq<Step>)
    requires Run(pkg, files, steps).Some?
    ensures Inv(pkg, files, Run(pkg, files, steps).value)
  {
    hide Next;
    hide Enabled;
    if steps != [] {
      RunKeepsInv(pkg, files, steps[..|steps| - 1]);
      StepKeepsInv(pkg, files, Run(pkg, files, steps[..|steps| - 1]).value, steps[|steps| - 1]);
    }
  }

  /** In every schedule the pass ends with each slot renamed as if one by one, every
      goroutine finished and every token taken. */
  lemma PassIsTheSequentialMap(pkg: string, files: seq<SourceDescriptor>, steps: seq<Step>)
    requires Run(pkg, files, steps).Some? && Run(pkg, files, steps).value.main.Returned?
    ensures var s := Run(pkg, files, steps).value;
      && |s.files| == |s.pcs| == |files| && s.tokens == 0
      && forall i :: 0 <= i < |files| ==> s.files[i] == Vendored(pkg, files[i]) && s.pcs[i].Finished?
  {
    RunKeepsInv(pkg, files, steps);
    var s := Run(pkg, files, steps).value;
    forall i | 0 <= i < |files| ensures s.pcs[i].Finished? {
      TotalAfterUpdate(HasSent, s.pcs, i, Finished);
    }
    TotalBound(HasSent, s.pcs);
    forall i | 0 <= i < |files| ensures s.files[i] == Vendored(pkg, files[i]) {
      assert SlotOk(pkg, files, s, i);
    }
  }

  /** In every reachable state a slot holds its original entry or that entry renamed,
      and a goroutine never sees another's work. */
  lemma SlotsAreOwned(pkg: string, files: seq<SourceDescriptor>, steps: seq<Step>, step: Step, i: nat)
    requires Run(pkg, files, steps).Some? && Enabled(Run(pkg, files, steps).value, step) && i < |files|
    ensures var s := Run(pkg, files, steps).value;
      && |s.files| == |Next(pkg, s, step).files| == |files|
      && s.files[i] in {files[i], Vendored(pkg, files[i])}
      && (Next(pkg, s, step).files[i] != s.files[i] ==>
            step == Store(i) && s.pcs[i] == Working(files[i]) && s.files[i] == files[i])
  {
    RunKeepsInv(pkg, files, steps);
    assert SlotOk(pkg, files, Run(pkg, files, steps).value, i);
  }

  /** A goroutine that wants to send its token can. */
  lemma SendNeverBlocks(pkg: string, files: seq<SourceDescriptor>, steps: seq<Step>, i: nat)
    requires Run(pkg, files, steps).Some?
    requires var s := Run(pkg, files, steps).value; i < |s.pcs| && s.pcs[i].Sending?
    ensures Enabled(Run(pkg, files, steps).value, Send(i))
  {
    RunKeepsInv(pkg, files, steps);
    TotalAfterUpdate(HasSent, Run(pkg, files, steps).value.pcs, i, Finished);
  }

  /** Program points a goroutine still has to pass. */
  function PointsLeft(pc: PC): nat {
    match pc case Working(_) => 2 case Sending => 1 case Finished => 0
  }

  /** Until the pass returns some step is possible. */
  lemma NeverDeadlocks(pkg: string, files: seq<SourceDescriptor>, steps: seq<Step>) returns (step: Step)
    requires Run(pkg, files, steps).Some? && !Run(pkg, files, steps).value.main.Returned?
    ensures Enabled(Run(pkg, files, steps).value, step)
  {
    RunKeepsInv(pkg, files, steps);
    var s := Run(pkg, files, steps).value;
    if s.main.Spawning? {
      step := Spawn;
    } else if s.main.received == |files| {
      step := Return;
    } else if s.tokens > 0 {
      step := Receive;
    } else {
      TotalIsZero(PointsLeft, s.pcs);
      SomeoneIsLeft(s.pcs);
      var i: nat :| i < |s.pcs| && PointsLeft(s.pcs[i]) != 0;
      step := if s.pcs[i].Working? then Store(i) else Send(i);
    }
  }

  lemma {:induction false} SomeoneIsLeft(pcs: seq<PC>)
    ensures Total(HasSent, pcs) < |pcs| ==> Total(PointsLeft, pcs) > 0
  {
    if pcs != [] {
      SomeoneIsLeft(pcs[..|pcs| - 1]);
    }
  }

  function Remaining(files: seq<SourceDescriptor>, s: State): int {
    3 * (|files| - |s.pcs|) + Total(PointsLeft, s.pcs) + |files| - Received(s.main, |files|)
      + (match s.main case Spawning => 2 case Draining(_) => 1 case Returned => 0)
  }

  /** Every schedule of 4n + 2 steps has returned, and no schedule is longer. */
  lemma {:induction false} EveryScheduleEnds(pkg: string, files: seq<SourceDescriptor>, steps: seq<Step>)
    requires Run(pkg, files, steps).Some?
    ensures |steps| + Remaining(files, Run(pkg, files, steps).value) == 4 * |files| + 2
    ensures Run(pkg, files, steps).value.main.Returned? <==> |steps| == 4 * |files| + 2
  {
    RunKeepsInv(pkg, files, steps);
    if steps != [] {
      var n := |steps| - 1;
      RunKeepsInv(pkg, files, steps[..n]);
      EveryScheduleEnds(pkg, files, steps[..n]);
      EveryStepCounts(pkg, files, Run(pkg, files, steps[..n]).value, steps[n]);
    }
    if Run(pkg, files, steps).value.main.Returned? {
      PassIsTheSequentialMap(pkg, files, steps);
      TotalIsZero(PointsLeft, Run(pkg, files, steps).value.pcs);
    }
  }

  lemma EveryStepCounts(pkg: string, files: seq<SourceDescriptor>, s: State, step: Step)
    requires Inv(pkg, files, s) && Enabled(s, step)
    ensures Remaining(files, Next(pkg, s, step)) == Remaining(files, s) - 1
  {
    hide Total;
    hide Vendored;
    match step
    case Spawn =>
      if |s.pcs| < |files| {
        TotalAfterAppend(PointsLeft, s.pcs, Working(s.files[|s.pcs|]));
      }
    case Store(i) => TotalAfterUpdate(PointsLeft, s.pcs, i, Sending);
    case Send(i) => TotalAfterUpdate(PointsLeft, s.pcs, i, Finished);
    case Receive =>
    case Return =>
  }
}
