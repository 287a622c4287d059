/** The listing of a source package: every directory above an entry, parents first,
    found by climbing from each entry until a directory already seen; and the
    entries themselves in order of their names. */
module Directories {
  import opened Paths

  // ----- strings in the order Go compares them

  predicate Less(a: string, b: string) {
    b != "" && (a == "" || a[0] < b[0] || (a[0] == b[0] && Less(a[1..], b[1..])))
  }

  lemma {:induction false} LessIsTotal(a: string, b: string)
    ensures Less(a, b) || a == b || Less(b, a)
    ensures !(Less(a, b) && Less(b, a)) && !Less(a, a)
  {
    if a != "" && b != "" && a[0] == b[0] {
      LessIsTotal(a[1..], b[1..]);
      assert a == [a[0]] + a[1..] && b == [b[0]] + b[1..];
    }
    if a != "" {
      LessIsTotal(a[1..], a[1..]);
    }
  }

  lemma {:induction false} LessIsTransitive(a: string, b: string, c: string)
    requires Less(a, b) && Less(b, c)
    ensures Less(a, c)
  {
    if a != "" && a[0] == b[0] == c[0] {
      LessIsTransitive(a[1..], b[1..], c[1..]);
    }
  }

  lemma {:induction false} PrefixIsLess(a: string, b: string)
    requires a < b
    ensures Less(a, b)
  {
    if a != "" {
      PrefixIsLess(a[1..], b[1..]);
    }
  }

  /** The first character in which two strings differ decides. */
  lemma {:induction false} LessByFirstDifference(common: string, c: char, a: string, d: char, b: string)
    requires c != d
    ensures Less(common + [c] + a, common + [d] + b) <==> c < d
  {
    var x, y := common + [c] + a, common + [d] + b;
    if common != "" {
      LessByFirstDifference(common[1..], c, a, d, b);
      assert x[1..] == common[1..] + [c] + a && y[1..] == common[1..] + [d] + b;
    }
  }

  // ----- sorting

  ghost predicate Sorted<T>(key: T -> string, xs: seq<T>) {
    forall i, j :: 0 <= i < j < |xs| ==> !Less(key(xs[j]), key(xs[i]))
  }

  ghost predicate DistinctKeys<T>(key: T -> string, xs: seq<T>) {
    forall x, y :: x in xs && y in xs && key(x) == key(y) ==> x == y
  }

  /** With distinct keys there is only one sorted order, whatever order the elements
      were collected in. */
  lemma {:induction false} SortedIsUnique<T>(key: T -> string, xs: seq<T>, ys: seq<T>)
    requires Sorted(key, xs) && Sorted(key, ys) && multiset(xs) == multiset(ys) && DistinctKeys(key, xs)
    ensures xs == ys
  {
    SameLength(xs, ys);
    if xs != [] {
      SameStart(key, xs, ys);
      SortedIsUnique(key, xs[1..], ys[1..]);
      assert xs == [xs[0]] + xs[1..] && ys == [ys[0]] + ys[1..];
    }
  }

  lemma SameStart<T>(key: T -> string, xs: seq<T>, ys: seq<T>)
    requires Sorted(key, xs) && Sorted(key, ys) && multiset(xs) == multiset(ys) && DistinctKeys(key, xs)
    requires xs != [] && ys != []
    ensures xs[0] == ys[0]
    ensures Sorted(key, xs[1..]) && Sorted(key, ys[1..]) && DistinctKeys(key, xs[1..])
    ensures multiset(xs[1..]) == multiset(ys[1..])
  {
    hide Sorted;
    hide DistinctKeys;
    SameFirst(key, xs, ys);
    RestOfSorted(key, xs);
    RestOfSorted(key, ys);
  }

  lemma RestOfSorted<T>(key: T -> string, xs: seq<T>)
    requires xs != [] && Sorted(key, xs)
    ensures Sorted(key, xs[1..]) && multiset(xs[1..]) == multiset(xs) - multiset{xs[0]}
    ensures DistinctKeys(key, xs) ==> DistinctKeys(key, xs[1..])
  {
    assert xs == [xs[0]] + xs[1..];
  }

  lemma SameLength<T>(xs: seq<T>, ys: seq<T>)
    requires multiset(xs) == multiset(ys)
    ensures |xs| == |ys|
  {
    assert |multiset(xs)| == |xs| && |multiset(ys)| == |ys|;
  }

  lemma SameFirst<T>(key: T -> string, xs: seq<T>, ys: seq<T>)
    requires Sorted(key, xs) && Sorted(key, ys) && multiset(xs) == multiset(ys) && DistinctKeys(key, xs)
    requires xs != [] && ys != []
    ensures xs[0] == ys[0]
  {
    assert xs[0] in multiset(ys) && ys[0] in multiset(xs);
    var i :| 0 <= i < |ys| && ys[i] == xs[0];
    var j :| 0 <= j < |xs| && xs[j] == ys[0];
    LessIsTotal(key(xs[0]), key(ys[0]));
  }

  lemma NotLessIsTransitive(a: string, b: string, c: string)
    requires !Less(b, a) && !Less(c, b)
    ensures !Less(c, a)
  {
    LessIsTotal(a, b);
    LessIsTotal(b, c);
    LessIsTotal(a, c);
    if Less(a, b) && Less(b, c) {
      LessIsTransitive(a, b, c);
    }
  }

  method Insert<T>(key: T -> string, xs: seq<T>, x: T) returns (r: seq<T>)
    requires Sorted(key, xs)
    ensures Sorted(key, r) && multiset(r) == multiset(xs) + multiset{x}
  {
    var k := 0;
    while k < |xs| && Less(key(xs[k]), key(x))
      invariant k <= |xs|
      invariant forall i :: 0 <= i < k ==> Less(key(xs[i]), key(x))
    {
      k := k + 1;
    }
    r := xs[..k] + [x] + xs[k..];
    forall i | 0 <= i < |xs| ensures if i < k then !Less(key(x), key(xs[i])) else !Less(key(xs[i]), key(x)) {
      if i < k {
        LessIsTotal(key(xs[i]), key(x));
      } else if i > k {
        NotLessIsTransitive(key(x), key(xs[k]), key(xs[i]));
      }
    }
    assert xs == xs[..k] + xs[k..];
  }

  /** Stands for the library's sort. */
  method Sort<T>(key: T -> string, xs: seq<T>) returns (r: seq<T>)
    ensures Sorted(key, r) && multiset(r) == multiset(xs)
  {
    r := [];
    for i := 0 to |xs|
      invariant Sorted(key, r) && multiset(r) == multiset(xs[..i])
    {
      assert xs[..i + 1] == xs[..i] + [xs[i]];
      r := Insert(key, r, xs[i]);
    }
    assert xs[..|xs|] == xs;
  }

  /** Appends the elements of a set in whatever order it is iterated. */
  method Collect<T(==)>(s: set<T>) returns (r: seq<T>)
    ensures multiset(r) == multiset(s)
  {
    r := [];
    var todo := s;
    while todo != {}
      invariant todo <= s && multiset(r) == multiset(s - todo)
      decreases |todo|
    {
      var x :| x in todo;
      r := r + [x];
      assert s - (todo - {x}) == s - todo + {x};
      todo := todo - {x};
    }
    assert s - todo == s;
  }

  // ----- the entries

  datatype SourceDescriptor = SourceDescriptor(name: string, path: string, isMetadata: bool)

  type SourceMap = map<string, SourceDescriptor>

  function KeysOf(m: SourceMap, among: set<string>, d: SourceDescriptor): set<string> {
    set k | k in among && k in m && m[k] == d
  }

  /** Sorted by name, each value as often as the map holds it. */
  ghost predicate IsListing(m: SourceMap, r: seq<SourceDescriptor>) {
    && Sorted((d: SourceDescriptor) => d.name, r)
    && forall d :: multiset(r)[d] == |KeysOf(m, m.Keys, d)|
  }

  method Sources(m: SourceMap) returns (r: seq<SourceDescriptor>)
    ensures IsListing(m, r)
  {
    var sources: seq<SourceDescriptor> := [];
    var todo := m.Keys;
    while todo != {}
      invariant todo <= m.Keys
      invariant forall d :: multiset(sources)[d] == |KeysOf(m, m.Keys - todo, d)|
      decreases |todo|
    {
      var k :| k in todo;
      forall d
        ensures |KeysOf(m, m.Keys - (todo - {k}), d)|
             == |KeysOf(m, m.Keys - todo, d)| + (if d == m[k] then 1 else 0)
      {
        var before := KeysOf(m, m.Keys - todo, d);
        assert KeysOf(m, m.Keys - (todo - {k}), d) == if d == m[k] then before + {k} else before;
      }
      sources := sources + [m[k]];
      todo := todo - {k};
    }
    assert m.Keys - todo == m.Keys;
    r := Sort((d: SourceDescriptor) => d.name, sources);
  }

  /** When every entry is filed under its name, the listing is the same for every
      order in which the map is iterated. */
  lemma SourcesIgnoreIterationOrder(m: SourceMap, r1: seq<SourceDescriptor>, r2: seq<SourceDescriptor>)
    requires IsListing(m, r1) && IsListing(m, r2)
    requires forall k :: k in m ==> m[k].name == k
    ensures r1 == r2
  {
    assert multiset(r1) == multiset(r2) by {
      forall d ensures multiset(r1)[d] == multiset(r2)[d] {
        assert multiset(r1)[d] == |KeysOf(m, m.Keys, d)|;
      }
    }
    forall x | x in r1 ensures x.name in m && m[x.name] == x {
      assert x in multiset(r1);
      var k :| k in KeysOf(m, m.Keys, x);
    }
    SortedIsUnique((d: SourceDescriptor) => d.name, r1, r2);
  }

  // ----- the directories above an entry

  /** The k-th directory up from a path. */
  function Up(name: string, k: nat): string
    decreases k
  {
    if k == 0 then name else Up(Dir(name), k - 1)
  }

  /** What Directories is to find: everything at least one step up, except ".". */
  ghost predicate IsAbove(names: set<string>, d: string) {
    d != "." && exists name, k: nat :: name in names && k > 0 && Up(name, k) == d
  }

  lemma {:induction false} UpAgain(name: string, k: nat)
    ensures Up(name, k + 1) == Dir(Up(name, k))
    decreases k
  {
    if k > 0 {
      UpAgain(Dir(name), k - 1);
    }
  }

  /** A directory's own directory is shorter, and a prefix of it; "/" and "." stay. */
  lemma DirGetsShorter(s: string)
    ensures var d := Dir(s);
      Dir(d) == "." || (d == "/" && Dir(d) == "/") || Dir(d) < d
  {
    var rooted := IsRooted(UpToSlash(s));
    var st := PushAll(rooted, [], Split(UpToSlash(s)));
    SplitHasNoSlashes(UpToSlash(s));
    PushAllKeepsReduced(rooted, [], Split(UpToSlash(s)));
    DirOfClean(rooted, st);
    if st != [] {
      var n := |st| - 1;
      if n > 0 {
        assert Glue(st) == Glue(st[..n]) + "/" + st[n];
      }
    }
  }

  lemma DirIsNotEmpty(s: string)
    ensures Dir(s) != ""
  {
    SplitHasNoSlashes(UpToSlash(s));
    PushAllKeepsReduced(IsRooted(UpToSlash(s)), [], Split(UpToSlash(s)));
    RenderIsNotEmpty(IsRooted(UpToSlash(s)), PushAll(IsRooted(UpToSlash(s)), [], Split(UpToSlash(s))));
  }

  /** Closed under climbing, up to the place where the climb in progress stands. */
  ghost predicate Climbed(dirs: set<string>, at: string) {
    forall d :: d in dirs ==> Dir(d) == "." || Dir(d) in dirs || Dir(d) == at
  }

  lemma {:induction false} ClimbedHoldsAll(dirs: set<string>, name: string, k: nat)
    requires Climbed(dirs, ".") && "." !in dirs
    requires Dir(name) == "." || Dir(name) in dirs
    requires k > 0
    ensures Up(name, k) == "." || Up(name, k) in dirs
  {
    if k > 1 {
      ClimbedHoldsAll(dirs, name, k - 1);
      UpAgain(name, k - 1);
      DotStays();
    } else {
      assert Up(name, 1) == Dir(name);
    }
  }

  lemma DotStays()
    ensures Dir(".") == "."
  {
    DirOfClean(false, []);
  }

  /** In the order of strings, each once. */
  ghost predicate Ascending(dirs: seq<string>) { forall i, j :: 0 <= i < j < |dirs| ==> Less(dirs[i], dirs[j]) }

  /** A sorted listing of a set is strictly ascending. */
  lemma SortedSetAscends(s: set<string>, dirs: seq<string>)
    requires Sorted((d: string) => d, dirs) && multiset(dirs) == multiset(s)
    ensures Ascending(dirs) && forall d :: d in dirs <==> d in s
  {
    var key := (d: string) => d;
    forall d ensures d in dirs <==> d in s {
      assert d in dirs <==> d in multiset(dirs);
    }
    forall i, j | 0 <= i < j < |dirs| ensures Less(dirs[i], dirs[j]) {
      assert !Less(key(dirs[j]), key(dirs[i]));
      LessIsTotal(dirs[i], dirs[j]);
      if dirs[i] == dirs[j] {
        OccursTwice(dirs, i, j);
      }
    }
  }

  lemma OccursTwice<T>(xs: seq<T>, i: nat, j: nat)
    requires i < j < |xs| && xs[i] == xs[j]
    ensures multiset(xs)[xs[i]] >= 2
  {
    assert xs == xs[..j] + xs[j..];
    assert xs[i] in xs[..j] && xs[i] in xs[j..] by { assert xs[..j][i] == xs[i] && xs[j..][0] == xs[j]; }
  }

  ghost predicate ParentBefore(dirs: seq<string>, j: nat)
    requires j < |dirs|
  {
    Dir(dirs[j]) == "." || dirs[j] == "/" || exists i :: 0 <= i < j && dirs[i] == Dir(dirs[j])
  }

  /** So that an archive can create them in this order. */
  ghost predicate ParentsFirst(dirs: seq<string>) { forall j :: 0 <= j < |dirs| ==> ParentBefore(dirs, j) }

  lemma ParentComesFirst(names: set<string>, dirs: seq<string>, j: nat)
    requires forall d :: d in dirs <==> IsAbove(names, d)
    requires Ascending(dirs) && j < |dirs|
    ensures ParentBefore(dirs, j)
  {
    assert IsAbove(names, dirs[j]) by { assert dirs[j] in dirs; }
    var name, k: nat :| name in names && k > 0 && Up(name, k) == dirs[j];
    UpAgain(name, k - 1);
    UpAgain(name, k);
    DirGetsShorter(Up(name, k - 1));
    if Dir(dirs[j]) != "." && dirs[j] != "/" {
      assert IsAbove(names, Dir(dirs[j]));
      var i :| 0 <= i < |dirs| && dirs[i] == Dir(dirs[j]);
      PrefixIsLess(dirs[i], dirs[j]);
      LessIsTotal(dirs[i], dirs[j]);
    }
  }

  /** A directory still to be recorded is a step up from the entry being climbed. */
  ghost predicate Climbing(name: string, dir: string) { exists k: nat :: k > 0 && Up(name, k) == dir }

  /** Where the climb from the entries in `done` stands: `at` is looked at next. */
  ghost predicate Recorded(names: set<string>, done: set<string>, dirs: set<string>, at: string) {
    && Climbed(dirs, at)
    && (forall d :: d in dirs ==> IsAbove(names, d))
    && (forall name :: name in done ==> Dir(name) == "." || Dir(name) in dirs || Dir(name) == at)
  }

  lemma RecordOne(names: set<string>, done: set<string>, dirs: set<string>, name: string, from: string, at: string)
    requires Recorded(names, done, dirs, at) && name in names && Climbing(name, at)
    requires at == Dir(from) && at != "." && at !in dirs
    ensures Recorded(names, done, dirs + {at}, Dir(at)) && Climbing(name, Dir(at))
    ensures at != "" && (Dir(at) == "." || Dir(at) in dirs + {at} || |Dir(at)| < |at|)
  {
    hide Dir;
    DirIsNotEmpty(from);
    DirGetsShorter(from);
    var k: nat :| k > 0 && Up(name, k) == at;
    UpAgain(name, k);
    assert Up(name, k + 1) == Dir(at);
    assert IsAbove(names, at);
  }

  lemma RecordedIsAll(names: set<string>, dirs: set<string>, d: string)
    requires Recorded(names, names, dirs, ".")
    ensures d in dirs <==> IsAbove(names, d)
  {
    hide Dir;
    if IsAbove(names, d) {
      var name, k: nat :| name in names && k > 0 && Up(name, k) == d;
      ClimbedHoldsAll(dirs, name, k);
    }
  }

  /** The directories above the entries, each once and each parent before what it
      holds; for any set of paths, clean or not, and any order of iteration. */
  method Directories(names: set<string>) returns (dirs: seq<string>)
    ensures forall d :: d in dirs <==> IsAbove(names, d)
    ensures Ascending(dirs)
    ensures ParentsFirst(dirs)
  {
    hide Dir;
    hide Recorded;
    hide Climbing;
    hide IsAbove;
    hide ParentBefore;
    hide Sorted;
    hide Ascending;
    var dirMap: set<string> := {};
    var todo := names;
    NothingRecorded(names);
    assert names - todo == {};
    while todo != {}
      invariant todo <= names && Recorded(names, names - todo, dirMap, ".")
      decreases |todo|
    {
      var name :| name in todo;
      var dir := Dir(name);
      ghost var from := name;
      StartClimb(names, names - todo, dirMap, name);
      assert names - todo + {name} == names - (todo - {name});
      todo := todo - {name};
      while dir != "." && dir !in dirMap
        invariant dir == Dir(from) && Climbing(name, dir) && Recorded(names, names - todo, dirMap, dir)
        decreases if dir == "." || dir in dirMap then 0 else |dir|
      {
        RecordOne(names, names - todo, dirMap, name, from, dir);
        dirMap := dirMap + {dir};
        from := dir;
        dir := Dir(dir);
      }
      StopClimb(names, names - todo, dirMap, dir);
    }
    assert names - todo == names;
    dirs := Collect(dirMap);
    dirs := Sort((d: string) => d, dirs);
    SortedSetAscends(dirMap, dirs);
    forall d ensures d in dirs <==> IsAbove(names, d) {
      RecordedIsAll(names, dirMap, d);
    }
    forall j | 0 <= j < |dirs| ensures ParentBefore(dirs, j) {
      ParentComesFirst(names, dirs, j);
    }
  }

  lemma NothingRecorded(names: set<string>)
    ensures Recorded(names, {}, {}, ".")
  {
  }

  lemma StartClimb(names: set<string>, done: set<string>, dirs: set<string>, name: string)
    requires Recorded(names, done, dirs, ".")
    ensures Recorded(names, done + {name}, dirs, Dir(name)) && Climbing(name, Dir(name))
  {
    hide Dir;
    assert Up(name, 1) == Dir(name);
  }

  lemma StopClimb(names: set<string>, done: set<string>, dirs: set<string>, at: string)
    requires Recorded(names, done, dirs, at) && (at == "." || at in dirs)
    ensures Recorded(names, done, dirs, ".")
  {
    hide Dir;
  }

  /** The listing of the directories, too, is the same for every order of iteration. */
  lemma DirectoriesIgnoreIterationOrder(names: set<string>, r1: seq<string>, r2: seq<string>)
    requires Ascending(r1) && forall d :: d in r1 <==> IsAbove(names, d)
    requires Ascending(r2) && forall d :: d in r2 <==> IsAbove(names, d)
    ensures r1 == r2
  {
    hide IsAbove;
    AscendingIsUnique(r1, r2);
  }

  lemma {:induction false} AscendingIsUnique(xs: seq<string>, ys: seq<string>)
    requires Ascending(xs) && Ascending(ys) && forall d :: d in xs <==> d in ys
    ensures xs == ys
  {
    BothEmpty(xs, ys);
    if xs != [] {
      assert xs[0] in xs && ys[0] in ys;
      var i :| 0 <= i < |ys| && ys[i] == xs[0];
      var j :| 0 <= j < |xs| && xs[j] == ys[0];
      LessIsTotal(xs[0], ys[0]);
      forall d ensures d in xs[1..] <==> d in ys[1..] {
        RestOfAscending(xs, d);
        RestOfAscending(ys, d);
      }
      AscendingIsUnique(xs[1..], ys[1..]);
      assert xs == [xs[0]] + xs[1..] && ys == [ys[0]] + ys[1..];
    }
  }

  lemma BothEmpty(xs: seq<string>, ys: seq<string>)
    requires forall d :: d in xs <==> d in ys
    ensures xs == [] <==> ys == []
  {
    if xs != [] {
      assert xs[0] in xs;
    }
    if ys != [] {
      assert ys[0] in ys;
    }
  }

  lemma RestOfAscending(xs: seq<string>, d: string)
    requires xs != [] && Ascending(xs)
    ensures d in xs[1..] <==> d in xs && d != xs[0]
  {
    LessIsTotal(xs[0], xs[0]);
    assert xs == [xs[0]] + xs[1..];
  }

  /** For a clean path, what is above it is what its leading elements spell; above
      "/" and "." there is only the path itself. */
  lemma {:induction false} AncestorsAreLeadingElements(rooted: bool, st: seq<string>, k: nat)
    requires IsReduced(rooted, st)
    ensures Up(Render(rooted, st), k) == Render(rooted, if k < |st| then st[..|st| - k] else [])
    decreases k
  {
    hide Dir;
    hide Render;
    if k > 0 {
      AncestorsAreLeadingElements(rooted, st, k - 1);
      UpAgain(Render(rooted, st), k - 1);
      var at := if k - 1 < |st| then st[..|st| - (k - 1)] else [];
      DirOfClean(rooted, at);
      if k <= |st| {
        assert at[..|at| - 1] == st[..|st| - k];
      }
    } else {
      assert st[..|st|] == st;
    }
  }
}
