/** The search for the host driver's library closure: a worklist over DT_NEEDED names, started
    from the driver's ICD and the libraries it opens by name, in a finite loader cache. The
    needed-edges may be cyclic. */
module HostClosure {
  import opened Options
  import opened Strings

  /** One loader-cache record. */
  datatype Entry = Entry(flags: int, soname: string, path: string)

  /** What the file system answers: regular files, the DT_NEEDED list of every readable ELF file
      of the wanted class, and where a path leads once links are followed. */
  datatype Host = Host(files: set<string>, elf: map<string, seq<string>>, links: map<string, string>)

  datatype Outcome =
    | Closure(found: seq<(string, string)>)
    | NoIcd | WrongIcd(target: string) | IcdGone(target: string)
    | Missing(name: string) | WrongVersion(name: string) | BadElf(path: string)

  const ICD_SONAME := "libEGL_nvidia.so.0"
  const ICD_STEM := "libEGL_nvidia.so."
  const LIB := "libnvidia-"

  function RealPath(h: Host, p: string): string { if p in h.links then h.links[p] else p }

  function DlopenRoots(v: string): seq<string> {
    ["libnvidia-eglcore.so." + v, "libnvidia-glvkspirv.so." + v]
  }

  // ---- the loader cache -------------------------------------------------------------------

  /** The first record of that name and class. */
  predicate FirstRecord(cache: seq<Entry>, flags: int, name: string, i: nat) {
    && i < |cache| && cache[i].flags == flags && cache[i].soname == name
    && forall j :: 0 <= j < i ==> !(cache[j].flags == flags && cache[j].soname == name)
  }

  /** A name resolves to the path of its first record of the wanted class. */
  ghost predicate Indexed(cache: seq<Entry>, flags: int, byName: map<string, string>) {
    && (forall i :: 0 <= i < |cache| && cache[i].flags == flags ==> cache[i].soname in byName)
    && forall name :: name in byName ==>
         exists i: nat :: FirstRecord(cache, flags, name, i) && byName[name] == cache[i].path
  }

  /** Python's setdefault for a record of the wanted class. */
  function Recorded(byName: map<string, string>, e: Entry, flags: int): map<string, string> {
    if e.flags == flags && e.soname !in byName then byName[e.soname := e.path] else byName
  }

  /** A dictionary filled from the records in order, in which the first entry of a name stays. */
  function Index(cache: seq<Entry>, flags: int): map<string, string> {
    if cache == [] then map[] else Recorded(Index(cache[..|cache| - 1], flags), cache[|cache| - 1], flags)
  }

  lemma IndexedOneMore(cache: seq<Entry>, e: Entry, flags: int, byName: map<string, string>)
    requires Indexed(cache, flags, byName)
    ensures Indexed(cache + [e], flags, Recorded(byName, e, flags))
  {
    var more, m := cache + [e], Recorded(byName, e, flags);
    forall name | name in m ensures exists i: nat :: FirstRecord(more, flags, name, i) && m[name] == more[i].path {
      if name in byName {
        var i: nat :| FirstRecord(cache, flags, name, i) && byName[name] == cache[i].path;
        assert FirstRecord(more, flags, name, i);
      } else {
        assert FirstRecord(more, flags, name, |cache|);
      }
    }
  }

  lemma {:induction false} IndexIsFirst(cache: seq<Entry>, flags: int)
    ensures Indexed(cache, flags, Index(cache, flags))
  {
    if cache != [] {
      var n := |cache| - 1;
      IndexIsFirst(cache[..n], flags);
      IndexedOneMore(cache[..n], cache[n], flags, Index(cache[..n], flags));
      assert cache[..n] + [cache[n]] == cache;
    }
  }

  method IndexCache(cache: seq<Entry>, flags: int) returns (byName: map<string, string>)
    ensures byName == Index(cache, flags) && Indexed(cache, flags, byName)
  {
    byName := map[];
    for i := 0 to |cache|
      invariant byName == Index(cache[..i], flags)
    {
      var e := cache[i];
      assert cache[..i + 1][..i] == cache[..i];
      if e.flags == flags && e.soname !in byName {
        byName := byName[e.soname := e.path];
      }
    }
    assert cache[..|cache|] == cache;
    IndexIsFirst(cache, flags);
  }

  // ---- reachability -----------------------------------------------------------------------

  /** The question put to the search, once the ICD is settled: the names it starts from. */
  datatype Search = Search(h: Host, byName: map<string, string>, v: string, roots: seq<string>) {
    predicate Present(n: string) { n in byName && byName[n] in h.files }

    predicate Good(n: string) {
      Present(n) && EndsWith(n, ".so." + v) && byName[n] in h.elf
    }

    function Needs(n: string): seq<string> {
      if n in byName && byName[n] in h.elf then h.elf[byName[n]] else []
    }

    ghost predicate Chain(ns: seq<string>) {
      && |ns| > 0 && ns[0] in roots
      && (forall i :: 0 <= i < |ns| ==> StartsWith(ns[i], LIB))
      && forall i :: 0 < i < |ns| ==> ns[i] in Needs(ns[i - 1])
    }

    /** A libnvidia- name with a path of libnvidia- names to it from a root. */
    ghost predicate Reachable(n: string) {
      exists ns :: Chain(ns) && ns[|ns| - 1] == n
    }

    lemma RootReachable(n: string)
      requires n in roots && StartsWith(n, LIB)
      ensures Reachable(n)
    {
      assert Chain([n]);
    }

    lemma NeededReachable(n: string, m: string)
      requires Reachable(n) && m in Needs(n) && StartsWith(m, LIB)
      ensures Reachable(m)
    {
      var ns :| Chain(ns) && ns[|ns| - 1] == n;
      assert Chain(ns + [m]);
    }

    /** Every root and every need of a member is a member or still wanted. */
    ghost predicate Closed(names: seq<string>, want: seq<string>) {
      && (forall m :: m in roots && StartsWith(m, LIB) ==> m in names || m in want)
      && forall n, m :: n in names && m in Needs(n) && StartsWith(m, LIB) ==> m in names || m in want
    }

    lemma {:induction false} ChainInside(names: seq<string>, ns: seq<string>)
      requires Closed(names, []) && Chain(ns)
      ensures ns[|ns| - 1] in names
    {
      if |ns| > 1 {
        assert Chain(ns[..|ns| - 1]);
        ChainInside(names, ns[..|ns| - 1]);
      }
    }

    lemma ClosedHoldsReachable(names: seq<string>, n: string)
      requires Closed(names, []) && Reachable(n)
      ensures n in names
    {
      var ns :| Chain(ns) && ns[|ns| - 1] == n;
      ChainInside(names, ns);
    }
  }

  // ---- the search -------------------------------------------------------------------------

  function Names(found: seq<(string, string)>): (ns: seq<string>)
    ensures |ns| == |found| && forall i :: 0 <= i < |found| ==> ns[i] == found[i].0
  {
    seq(|found|, i requires 0 <= i < |found| => found[i].0)
  }

  predicate Distinct(ns: seq<string>) {
    forall i, j :: 0 <= i < j < |ns| ==> ns[i] != ns[j]
  }

  /** Libraries the search has accepted: each good, reachable, once, at the path the cache gives. */
  ghost predicate Accepted(s: Search, libs: seq<(string, string)>) {
    && Distinct(Names(libs))
    && forall i :: 0 <= i < |libs| ==>
         && StartsWith(libs[i].0, LIB) && s.Good(libs[i].0) && libs[i].1 == s.byName[libs[i].0]
         && s.Reachable(libs[i].0)
  }

  /** One of the roots, or needed by one of the first n libraries. */
  ghost predicate Asked(s: Search, libs: seq<(string, string)>, n: nat, m: string)
    requires n <= |libs|
  {
    m in s.roots || exists j :: 0 <= j < n && m in s.Needs(libs[j].0)
  }

  /** Each library was asked for by a root or by one found before it, and so is all that is still wanted. */
  ghost predicate Traced(s: Search, libs: seq<(string, string)>, want: seq<string>) {
    && (forall i :: 0 <= i < |libs| ==> Asked(s, libs, i, libs[i].0))
    && forall m :: m in want ==> Asked(s, libs, |libs|, m)
  }

  lemma TracedOneMore(s: Search, libs: seq<(string, string)>, want: seq<string>, path: string)
    requires want != [] && Traced(s, libs, want)
    ensures Traced(s, libs + [(want[0], path)], want[1..] + s.Needs(want[0]))
  {
    var more := libs + [(want[0], path)];
    forall i | 0 <= i < |more| ensures Asked(s, more, i, more[i].0) {
      AskedKept(s, libs, (want[0], path), i, more[i].0);
    }
    forall m | m in want[1..] + s.Needs(want[0]) ensures Asked(s, more, |more|, m) {
      if m in s.Needs(want[0]) {
        assert more[|libs|].0 == want[0];
      } else {
        AskedKept(s, libs, (want[0], path), |libs|, m);
      }
    }
  }

  lemma AskedKept(s: Search, libs: seq<(string, string)>, lib: (string, string), n: nat, m: string)
    requires n <= |libs|
    ensures Asked(s, libs, n, m) ==> Asked(s, libs + [lib], n, m) && Asked(s, libs + [lib], |libs| + 1, m)
  {
    if Asked(s, libs, n, m) && m !in s.roots {
      var j :| 0 <= j < n && m in s.Needs(libs[j].0);
      assert m in s.Needs((libs + [lib])[j].0);
    }
  }

  ghost predicate WantReachable(s: Search, want: seq<string>) {
    forall n :: n in want && StartsWith(n, LIB) ==> s.Reachable(n)
  }

  /** The names still unfound. */
  ghost function Left(s: Search, libs: seq<(string, string)>): set<string> {
    s.byName.Keys - (set n | n in Names(libs))
  }

  lemma NamesGrow(libs: seq<(string, string)>, n: string, path: string)
    ensures Names(libs + [(n, path)]) == Names(libs) + [n]
  {}

  lemma LeftShrinks(s: Search, libs: seq<(string, string)>, n: string)
    requires n in s.byName && n !in Names(libs)
    ensures Left(s, libs + [(n, s.byName[n])]) < Left(s, libs)
  {
    NamesGrow(libs, n, s.byName[n]);
    assert n in Left(s, libs) && n in Names(libs) + [n];
  }

  lemma AcceptedOneMore(s: Search, libs: seq<(string, string)>, n: string)
    requires Accepted(s, libs) && StartsWith(n, LIB) && n !in Names(libs) && s.Good(n) && s.Reachable(n)
    ensures Accepted(s, libs + [(n, s.byName[n])])
  {
    NamesGrow(libs, n, s.byName[n]);
  }

  lemma ClosedOneMore(s: Search, libs: seq<(string, string)>, want: seq<string>)
    requires want != [] && s.Closed(Names(libs), want) && want[0] in s.byName
    ensures s.Closed(Names(libs + [(want[0], s.byName[want[0]])]), want[1..] + s.Needs(want[0]))
  {
    NamesGrow(libs, want[0], s.byName[want[0]]);
    assert forall m :: m in want ==> m == want[0] || m in want[1..];
  }

  lemma Take(s: Search, libs: seq<(string, string)>, want: seq<string>)
    requires want != [] && Accepted(s, libs) && WantReachable(s, want) && s.Closed(Names(libs), want)
    requires StartsWith(want[0], LIB) && want[0] !in Names(libs) && s.Good(want[0])
    ensures var n := want[0];
      var libs' := libs + [(n, s.byName[n])];
      var want' := want[1..] + s.Needs(n);
      && Accepted(s, libs') && WantReachable(s, want') && s.Closed(Names(libs'), want')
      && Left(s, libs') < Left(s, libs)
  {
    var n := want[0];
    forall m | m in s.Needs(n) && StartsWith(m, LIB) ensures s.Reachable(m) { s.NeededReachable(n, m); }
    AcceptedOneMore(s, libs, n);
    ClosedOneMore(s, libs, want);
    LeftShrinks(s, libs, n);
  }

  lemma Drop(s: Search, libs: seq<(string, string)>, want: seq<string>)
    requires want != [] && WantReachable(s, want) && s.Closed(Names(libs), want)
    requires !StartsWith(want[0], LIB) || want[0] in Names(libs)
    ensures WantReachable(s, want[1..]) && s.Closed(Names(libs), want[1..])
  {
    assert forall m :: m in want ==> m == want[0] || m in want[1..];
  }

  /** The failure names a reachable library and what is wrong with it. */
  ghost predicate Explains(s: Search, r: Outcome) {
    match r
    case Missing(n) => s.Reachable(n) && !s.Present(n)
    case WrongVersion(n) => s.Reachable(n) && s.Present(n) && !EndsWith(n, ".so." + s.v)
    case BadElf(p) => exists n :: s.Reachable(n) && s.Present(n) && s.byName[n] == p && p !in s.h.elf
    case Closure(_) => false
    case NoIcd => false
    case WrongIcd(_) => false
    case IcdGone(_) => false
  }

  method CheckLibrary(s: Search, name: string) returns (bad: Option<Outcome>)
    requires s.Reachable(name)
    ensures bad.None? <==> s.Good(name)
    ensures bad.Some? ==> Explains(s, bad.value)
  {
    if name !in s.byName || s.byName[name] !in s.h.files { return Some(Missing(name)); }
    if !EndsWith(name, ".so." + s.v) { return Some(WrongVersion(name)); }
    if s.byName[name] !in s.h.elf { return Some(BadElf(s.byName[name])); }
    bad := None;
  }

  lemma ExplainsMeans(s: Search, r: Outcome)
    requires Explains(s, r)
    ensures exists n :: s.Reachable(n) && !s.Good(n)
  {}

  /** The worklist. It ends on every finite cache; it finds exactly the reachable names, once each
      and all of version v, and it fails exactly when a reachable name is not good. */
  method Collect(s: Search) returns (r: Outcome)
    ensures r.Closure? ==> Accepted(s, r.found) && Traced(s, r.found, [])
    ensures r.Closure? ==> forall n :: s.Reachable(n) <==> n in Names(r.found)
    ensures !r.Closure? ==> Explains(s, r)
    ensures r.Closure? <==> forall n :: s.Reachable(n) ==> s.Good(n)
  {
    var libs: seq<(string, string)>, want := [], s.roots;
    forall n | n in s.roots && StartsWith(n, LIB) ensures s.Reachable(n) { s.RootReachable(n); }
    while want != []
      invariant Accepted(s, libs) && WantReachable(s, want) && s.Closed(Names(libs), want) && Traced(s, libs, want)
      decreases Left(s, libs), |want|
    {
      var name := want[0];
      if !StartsWith(name, LIB) || name in Names(libs) {
        Drop(s, libs, want);
        want := want[1..];
        continue;
      }
      var bad := CheckLibrary(s, name);
      if bad.Some? {
        ExplainsMeans(s, bad.value);
        return bad.value;
      }
      Take(s, libs, want);
      TracedOneMore(s, libs, want, s.byName[name]);
      libs, want := libs + [(name, s.byName[name])], want[1..] + s.h.elf[s.byName[name]];
    }
    Complete(s, libs);
    r := Closure(libs);
  }

  lemma Complete(s: Search, libs: seq<(string, string)>)
    requires Accepted(s, libs) && s.Closed(Names(libs), [])
    ensures forall n :: s.Reachable(n) <==> n in Names(libs)
    ensures forall n :: s.Reachable(n) ==> s.Good(n)
  {
    forall n | s.Reachable(n) ensures n in Names(libs) { s.ClosedHoldsReachable(Names(libs), n); }
  }

  lemma IcdName(v: string)
    ensures EndsWith(ICD_STEM + v, ".so." + v) && !StartsWith(ICD_STEM + v, LIB)
  {
    var n := ICD_STEM + v;
    assert n[|n| - |".so." + v|..] == ".so." + v;
    assert n[..|LIB|][3] == 'E';
  }

  /** The ICD first, then exactly the reachable libraries, each once. */
  ghost predicate IsClosure(s: Search, icd: string, found: seq<(string, string)>) {
    && found != [] && found[0] == (ICD_STEM + s.v, icd) && Accepted(s, found[1..])
    && forall n :: s.Reachable(n) <==> n in Names(found[1..])
  }

  /** What the ICD's own needs and the libraries it opens by name ask for. */
  function SearchFrom(h: Host, byName: map<string, string>, v: string): Search
    requires ICD_SONAME in byName && RealPath(h, byName[ICD_SONAME]) in h.elf
  {
    Search(h, byName, v, h.elf[RealPath(h, byName[ICD_SONAME])] + DlopenRoots(v))
  }

  /** The cache lists the ICD and it is of version v. */
  predicate IcdNamed(h: Host, byName: map<string, string>, v: string) {
    ICD_SONAME in byName && Basename(RealPath(h, byName[ICD_SONAME])) == ICD_STEM + v
  }

  /** It is also there and can be read. */
  predicate IcdFine(h: Host, byName: map<string, string>, v: string) {
    IcdNamed(h, byName, v) && var icd := RealPath(h, byName[ICD_SONAME]); icd in h.files && icd in h.elf
  }

  // ---- what the caller gets, in the names of the driver's files -----------------------------

  ghost predicate Listed(found: seq<(string, string)>, name: string) {
    exists k :: 0 <= k < |found| && found[k].0 == name
  }

  /** The path of the first record of that name and class. */
  ghost predicate CachedAt(cache: seq<Entry>, flags: int, name: string, path: string) {
    exists i: nat :: FirstRecord(cache, flags, name, i) && cache[i].path == path
  }

  predicate IsLibrary(name: string) { |name| >= 10 && name[..10] == "libnvidia-" }

  ghost predicate OfVersion(name: string, v: string) { exists stem :: name == stem + ".so." + v }

  /** Why the k-th file is there: opened by name, or needed by one before it. */
  ghost predicate Called(h: Host, v: string, found: seq<(string, string)>, k: nat)
    requires k < |found|
  {
    || found[k].0 == "libnvidia-eglcore.so." + v || found[k].0 == "libnvidia-glvkspirv.so." + v
    || exists j :: 0 <= j < k && found[j].1 in h.elf && found[k].0 in h.elf[found[j].1]
  }

  /** The ICD is the file the cache leads to, in the right version. */
  ghost predicate IcdHonest(h: Host, cache: seq<Entry>, flags: int, v: string, f: (string, string)) {
    && f.0 == "libEGL_nvidia.so." + v && f.1 in h.files && f.1 in h.elf
    && exists p :: CachedAt(cache, flags, "libEGL_nvidia.so.0", p) && f.1 == RealPath(h, p)
  }

  /** A library is a file of the right version, at the cache's path, and called for. */
  ghost predicate LibraryHonest(h: Host, cache: seq<Entry>, flags: int, v: string, found: seq<(string, string)>, k: nat)
    requires k < |found|
  {
    && IsLibrary(found[k].0) && OfVersion(found[k].0, v) && found[k].1 in h.files && found[k].1 in h.elf
    && CachedAt(cache, flags, found[k].0, found[k].1) && Called(h, v, found, k)
  }

  /** Every library a file needs is there. */
  ghost predicate NeedsMet(h: Host, found: seq<(string, string)>, k: nat)
    requires k < |found|
  {
    found[k].1 in h.elf && forall m :: m in h.elf[found[k].1] && IsLibrary(m) ==> Listed(found, m)
  }

  /** The files of the closure. */
  ghost predicate IsHonest(h: Host, cache: seq<Entry>, flags: int, v: string, found: seq<(string, string)>) {
    && found != [] && IcdHonest(h, cache, flags, v, found[0])
    && Listed(found, "libnvidia-eglcore.so." + v) && Listed(found, "libnvidia-glvkspirv.so." + v)
    && (forall k :: 0 < k < |found| ==> LibraryHonest(h, cache, flags, v, found, k))
    && (forall k :: 0 <= k < |found| ==> NeedsMet(h, found, k))
    && forall j, k :: 0 <= j < k < |found| ==> found[j].0 != found[k].0
  }

  /** Every error has the cause it names. */
  ghost predicate IsCause(h: Host, cache: seq<Entry>, flags: int, v: string, r: Outcome) {
    match r
    case Closure(_) => false
    case NoIcd => forall i :: 0 <= i < |cache| && cache[i].flags == flags ==> cache[i].soname != "libEGL_nvidia.so.0"
    case WrongIcd(t) =>
      '/' !in v ==> t != "libEGL_nvidia.so." + v && forall dir :: t != dir + "/" + ("libEGL_nvidia.so." + v)
    case IcdGone(t) => t !in h.files
    case Missing(n) => IsLibrary(n) && forall path :: CachedAt(cache, flags, n, path) ==> path !in h.files
    case WrongVersion(n) => IsLibrary(n) && !OfVersion(n, v)
    case BadElf(p) => p !in h.elf
  }

  lemma EndsMeans(name: string, v: string)
    ensures EndsWith(name, ".so." + v) <==> OfVersion(name, v)
  {
    var suffix := ".so." + v;
    if EndsWith(name, suffix) {
      assert name == name[..|name| - |suffix|] + ".so." + v;
    }
    forall stem ensures name == stem + ".so." + v ==> EndsWith(name, suffix) {
      assert stem + ".so." + v == stem + suffix && (stem + suffix)[|stem|..] == suffix;
    }
  }

  lemma CachedIs(cache: seq<Entry>, flags: int, name: string, path: string)
    ensures CachedAt(cache, flags, name, path) <==>
      name in Index(cache, flags) && Index(cache, flags)[name] == path
  {
    IndexIsFirst(cache, flags);
    var m := Index(cache, flags);
    if CachedAt(cache, flags, name, path) {
      var i: nat :| FirstRecord(cache, flags, name, i) && cache[i].path == path;
      assert cache[i].soname in m;
      var j: nat :| FirstRecord(cache, flags, name, j) && m[name] == cache[j].path;
      assert i == j;
    }
  }

  lemma LibraryMeans(name: string)
    ensures StartsWith(name, LIB) <==> IsLibrary(name)
  {}

  lemma RootsAre(v: string)
    ensures DlopenRoots(v) == ["libnvidia-eglcore.so." + v, "libnvidia-glvkspirv.so." + v]
    ensures IsLibrary("libnvidia-eglcore.so." + v) && IsLibrary("libnvidia-glvkspirv.so." + v)
  {}

  /** What the search settled: `found` is the ICD and then what it found. */
  ghost predicate Settled(s: Search, icd: string, found: seq<(string, string)>) {
    && icd in s.h.files && icd in s.h.elf && s.roots == s.h.elf[icd] + DlopenRoots(s.v)
    && found != [] && found[0] == (ICD_STEM + s.v, icd)
    && Accepted(s, found[1..]) && Traced(s, found[1..], [])
    && forall n :: s.Reachable(n) <==> n in Names(found[1..])
  }

  lemma EachFile(s: Search, icd: string, found: seq<(string, string)>, k: nat)
    requires Settled(s, icd, found) && 0 < k < |found|
    ensures var f := found[k];
      && f.0 in s.byName && f.1 == s.byName[f.0] && f.1 in s.h.files && f.1 in s.h.elf && s.Needs(f.0) == s.h.elf[f.1]
      && OfVersion(f.0, s.v) && IsLibrary(f.0) && s.Reachable(f.0)
  {
    var libs := found[1..];
    assert libs[k - 1] == found[k];
    EndsMeans(found[k].0, s.v);
    LibraryMeans(found[k].0);
  }

  lemma EachCalled(s: Search, icd: string, found: seq<(string, string)>, k: nat)
    requires Settled(s, icd, found) && 0 < k < |found|
    ensures Called(s.h, s.v, found, k)
  {
    var libs, name := found[1..], found[k].0;
    assert libs[k - 1] == found[k] && Asked(s, libs, k - 1, libs[k - 1].0);
    RootsAre(s.v);
    if name in s.roots {
      assert name in s.h.elf[found[0].1] || name in DlopenRoots(s.v);
    } else {
      var j :| 0 <= j < k - 1 && name in s.Needs(libs[j].0);
      assert libs[j] == found[j + 1];
      EachFile(s, icd, found, j + 1);
    }
  }

  lemma ReachableListed(s: Search, icd: string, found: seq<(string, string)>, m: string)
    requires Settled(s, icd, found) && s.Reachable(m)
    ensures Listed(found, m)
  {
    var libs := found[1..];
    var i :| 0 <= i < |libs| && Names(libs)[i] == m;
    assert found[i + 1] == libs[i];
  }

  lemma NeedsListed(s: Search, icd: string, found: seq<(string, string)>, k: nat, m: string)
    requires Settled(s, icd, found) && k < |found| && IsLibrary(m)
    requires found[k].1 in s.h.elf && m in s.h.elf[found[k].1]
    ensures Listed(found, m)
  {
    LibraryMeans(m);
    if k == 0 {
      s.RootReachable(m);
    } else {
      EachFile(s, icd, found, k);
      s.NeededReachable(found[k].0, m);
    }
    ReachableListed(s, icd, found, m);
  }

  lemma RootsListed(s: Search, icd: string, found: seq<(string, string)>)
    requires Settled(s, icd, found)
    ensures Listed(found, "libnvidia-eglcore.so." + s.v) && Listed(found, "libnvidia-glvkspirv.so." + s.v)
  {
    RootsAre(s.v);
    forall m | m in DlopenRoots(s.v) ensures Listed(found, m) {
      LibraryMeans(m);
      s.RootReachable(m);
      ReachableListed(s, icd, found, m);
    }
    assert DlopenRoots(s.v)[0] in DlopenRoots(s.v) && DlopenRoots(s.v)[1] in DlopenRoots(s.v);
  }

  lemma NamesApart(s: Search, icd: string, found: seq<(string, string)>, j: nat, k: nat)
    requires Settled(s, icd, found) && j < k < |found|
    ensures found[j].0 != found[k].0
  {
    var names := Names(found[1..]);
    assert names[k - 1] == found[k].0;
    if j == 0 {
      IcdName(s.v);
      assert StartsWith(found[1..][k - 1].0, LIB);
    } else {
      assert names[j - 1] == found[j].0 && names[j - 1] != names[k - 1];
    }
  }

  lemma LibraryIsHonest(s: Search, icd: string, found: seq<(string, string)>, cache: seq<Entry>, flags: int, k: nat)
    requires Settled(s, icd, found) && s.byName == Index(cache, flags) && 0 < k < |found|
    ensures LibraryHonest(s.h, cache, flags, s.v, found, k)
  {
    EachFile(s, icd, found, k);
    EachCalled(s, icd, found, k);
    CachedIs(cache, flags, found[k].0, found[k].1);
  }

  lemma NeedsAreMet(s: Search, icd: string, found: seq<(string, string)>, k: nat)
    requires Settled(s, icd, found) && k < |found|
    ensures NeedsMet(s.h, found, k)
  {
    if k > 0 { EachFile(s, icd, found, k); }
    forall m | m in s.h.elf[found[k].1] && IsLibrary(m) ensures Listed(found, m) {
      NeedsListed(s, icd, found, k, m);
    }
  }

  lemma IcdIsHonest(s: Search, icd: string, cache: seq<Entry>, flags: int)
    requires s.byName == Index(cache, flags) && ICD_SONAME in s.byName && icd == RealPath(s.h, s.byName[ICD_SONAME])
    requires icd in s.h.files && icd in s.h.elf
    ensures IcdHonest(s.h, cache, flags, s.v, (ICD_STEM + s.v, icd))
  {
    CachedIs(cache, flags, ICD_SONAME, s.byName[ICD_SONAME]);
  }

  lemma ClosureIsHonest(s: Search, icd: string, found: seq<(string, string)>, cache: seq<Entry>, flags: int)
    requires Settled(s, icd, found) && s.byName == Index(cache, flags)
    requires ICD_SONAME in s.byName && icd == RealPath(s.h, s.byName[ICD_SONAME])
    ensures IsHonest(s.h, cache, flags, s.v, found)
  {
    IcdIsHonest(s, icd, cache, flags);
    RootsListed(s, icd, found);
    forall k | 0 < k < |found| ensures LibraryHonest(s.h, cache, flags, s.v, found, k) {
      LibraryIsHonest(s, icd, found, cache, flags, k);
    }
    forall k | 0 <= k < |found| ensures NeedsMet(s.h, found, k) { NeedsAreMet(s, icd, found, k); }
    forall j, k | 0 <= j < k < |found| ensures found[j].0 != found[k].0 { NamesApart(s, icd, found, j, k); }
  }

  lemma SearchErrorIsCause(h: Host, cache: seq<Entry>, flags: int, v: string, r: Outcome)
    requires IcdFine(h, Index(cache, flags), v) && Explains(SearchFrom(h, Index(cache, flags), v), r)
    ensures IsCause(h, cache, flags, v, r)
  {
    match r
    case Missing(n) =>
      ReachableIsLibrary(SearchFrom(h, Index(cache, flags), v), n);
      forall path | CachedAt(cache, flags, n, path) ensures path !in h.files { CachedIs(cache, flags, n, path); }
    case WrongVersion(n) =>
      ReachableIsLibrary(SearchFrom(h, Index(cache, flags), v), n);
      EndsMeans(n, v);
    case BadElf(_) =>
  }

  lemma ReachableIsLibrary(s: Search, n: string)
    requires s.Reachable(n)
    ensures IsLibrary(n)
  {
    var ns :| s.Chain(ns) && ns[|ns| - 1] == n;
    LibraryMeans(n);
  }

  lemma NoIcdIsCause(cache: seq<Entry>, flags: int)
    requires ICD_SONAME !in Index(cache, flags)
    ensures forall i :: 0 <= i < |cache| && cache[i].flags == flags ==> cache[i].soname != "libEGL_nvidia.so.0"
  {
    IndexIsFirst(cache, flags);
  }

  lemma WrongIcdIsCause(t: string, v: string)
    requires Basename(t) != ICD_STEM + v
    ensures '/' !in v ==> t != "libEGL_nvidia.so." + v && forall dir :: t != dir + "/" + ("libEGL_nvidia.so." + v)
  {
    if '/' !in v {
      var name := ICD_STEM + v;
      BasenameOf("", name);
      forall dir ensures t != dir + "/" + ("libEGL_nvidia.so." + v) { BasenameOf(dir, name); }
    }
  }

  /** The whole lookup for one ABI. */
  method Find(h: Host, cache: seq<Entry>, flags: int, v: string) returns (r: Outcome)
    ensures var byName := Index(cache, flags);
      && (r.NoIcd? <==> ICD_SONAME !in byName)
      && (r.WrongIcd? <==> ICD_SONAME in byName && Basename(RealPath(h, byName[ICD_SONAME])) != ICD_STEM + v)
      && (r.Closure? <==>
            IcdFine(h, byName, v) && var s := SearchFrom(h, byName, v); forall n :: s.Reachable(n) ==> s.Good(n))
    ensures var byName := Index(cache, flags);
      && (r.WrongIcd? ==> r.target == RealPath(h, byName[ICD_SONAME]))
      && (r.IcdGone? <==> IcdNamed(h, byName, v) && RealPath(h, byName[ICD_SONAME]) !in h.files)
      && (r.IcdGone? ==> r.target == RealPath(h, byName[ICD_SONAME]))
    ensures r.Missing? || r.WrongVersion? || r.BadElf? ==> var byName := Index(cache, flags);
      && IcdNamed(h, byName, v)
      && var icd := RealPath(h, byName[ICD_SONAME]);
         || (icd in h.files && icd !in h.elf && r == BadElf(icd))
         || (IcdFine(h, byName, v) && Explains(SearchFrom(h, byName, v), r))
    ensures r.Closure? ==> var byName := Index(cache, flags);
      IsClosure(SearchFrom(h, byName, v), RealPath(h, byName[ICD_SONAME]), r.found)
    ensures if r.Closure? then IsHonest(h, cache, flags, v, r.found) else IsCause(h, cache, flags, v, r)
  {
    var byName := IndexCache(cache, flags);
    if ICD_SONAME !in byName {
      NoIcdIsCause(cache, flags);
      return NoIcd;
    }
    var icd := RealPath(h, byName[ICD_SONAME]);
    if Basename(icd) != ICD_STEM + v {
      WrongIcdIsCause(icd, v);
      return WrongIcd(icd);
    }
    if icd !in h.files { return IcdGone(icd); }
    if icd !in h.elf { return BadElf(icd); }
    var s := SearchFrom(h, byName, v);
    r := Collect(s);
    if r.Closure? {
      ghost var libs := r.found;
      r := Closure([(Basename(icd), icd)] + r.found);
      assert r.found[1..] == libs;
      ClosureIsHonest(s, icd, r.found, cache, flags);
    } else {
      SearchErrorIsCause(h, cache, flags, v, r);
    }
  }
}
