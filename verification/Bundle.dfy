/** Back up, install and restore a fixed set of files: each target is replaced atomically, one
    after the other, and the backup can undo an install that stopped anywhere. */
module Bundle {
  import opened Disk
  import opened Options
  import opened Strings

  type Writes = set<(Path, Option<File>)>

  // ---- steps --------------------------------------------------------------------------------

  /** From `s` to `t` every path keeps what it holds or gets one of the `writes`, whole: now, and in
      what a power loss may bring back. Directories are only added, and only the added ones can be
      lost that could not be lost before. Temporary files are free. */
  ghost predicate Moves(s: State, t: State, writes: Writes) {
    && (forall p :: !IsTemp(p) ==> Look(t.files, p) == Look(s.files, p) || (p, Look(t.files, p)) in writes)
    && (forall p, y :: !IsTemp(p) && (p, y) in t.stale ==>
          (p, y) in s.stale || y == Look(s.files, p) || (p, y) in writes)
    && (forall p :: !IsTemp(p) && p in t.dirty ==> p in s.dirty)
    && s.dirs <= t.dirs
    && forall d :: AtRisk(t.newDirs, d) && d in s.dirs ==> AtRisk(s.newDirs, d)
  }

  lemma MovesTransitive(s: State, t: State, u: State, writes: Writes)
    requires Moves(s, t, writes) && Moves(t, u, writes)
    ensures Moves(s, u, writes)
  {}

  lemma MovesWider(s: State, t: State, few: Writes, many: Writes)
    requires Moves(s, t, few) && few <= many
    ensures Moves(s, t, many)
  {}

  /** What a power loss may show after such a step it could show before, or it is one of the writes. */
  lemma MovesShow(s: State, t: State, writes: Writes, p: Path, x: Option<File>)
    requires Valid(s) && Moves(s, t, writes) && !IsTemp(p) && CanShow(t, p, x)
    ensures CanShow(s, p, x) || (p, x) in writes
  {}

  /** A power loss cannot leave anything else at `p`. */
  ghost predicate Settled(s: State, p: Path, x: Option<File>) {
    forall y :: CanShow(s, p, y) ==> y == x
  }

  /** No old entry of `p` may come back. */
  ghost predicate Clear(s: State, p: Path) {
    forall y :: (p, y) !in s.stale
  }

  /** An old file at `p` may come back. */
  ghost predicate HasStale(s: State, p: Path) {
    exists f :: (p, Some(f)) in s.stale
  }

  lemma FileSettled(s: State, p: Path)
    requires p in s.files && p !in s.dirty && Clear(s, p)
    ensures Settled(s, p, Some(s.files[p])) <==> !AtRisk(s.newDirs, p.dir)
  {
    assert CanShow(s, p, None) <==> AtRisk(s.newDirs, p.dir);
  }

  lemma AbsenceSettled(s: State, p: Path)
    requires p !in s.files && p !in s.dirty
    ensures Settled(s, p, None) <==> !HasStale(s, p)
  {
    if HasStale(s, p) {
      var f :| (p, Some(f)) in s.stale;
      assert CanShow(s, p, Some(f));
    }
  }

  // ---- missing directories ------------------------------------------------------------------

  /** `a` is the directory or one it lies in. */
  predicate InPath(dir: string, a: string)
    decreases |dir|
  {
    a == dir || (dir != "" && InPath(DirName(dir), a))
  }

  lemma {:induction false} InPathShorter(dir: string, a: string)
    requires InPath(dir, a)
    ensures |a| <= |dir| && (a != "" ==> DirName(a) != dir)
    decreases |dir|
  {
    if a != dir { InPathShorter(DirName(dir), a); }
  }

  lemma {:induction false} PathIsThere(s: State, dir: string, a: string)
    requires Valid(s) && dir in s.dirs && InPath(dir, a)
    ensures a in s.dirs
    decreases |dir|
  {
    if a != dir { PathIsThere(s, DirName(dir), a); }
  }

  /** What is at risk is what has an unflushed directory in its path. */
  lemma {:induction false} RiskInPath(newDirs: set<string>, dir: string)
    ensures AtRisk(newDirs, dir) <==> exists a :: a in newDirs && InPath(dir, a)
    decreases |dir|
  {
    if dir != "" { RiskInPath(newDirs, DirName(dir)); }
  }

  predicate LiesInNext(dirs: seq<string>, i: int) {
    0 <= i < |dirs| - 1 ==> DirName(dirs[i]) == dirs[i + 1]
  }

  /** The directories to make, innermost first. */
  ghost predicate Missing(dirs: set<string>, dir: string, missing: seq<string>, parent: string) {
    && (forall i :: 0 <= i < |missing| ==> missing[i] !in dirs)
    && (forall a :: InPath(dir, a) <==> a in missing || InPath(parent, a))
    && (forall i :: LiesInNext(missing, i))
    && (missing != [] ==> DirName(missing[|missing| - 1]) == parent)
    && (forall i, j :: 0 <= i < j < |missing| ==> |missing[j]| < |missing[i]|)
    && forall i :: 0 <= i < |missing| ==> |parent| < |missing[i]|
  }

  method FindMissing(fs: FileSystem, dir: string) returns (missing: seq<string>)
    requires Valid(fs.Now())
    ensures forall a :: a in missing <==> InPath(dir, a) && a !in fs.dirs
    ensures dir in fs.dirs ==> missing == []
    ensures forall i, j :: 0 <= i < j < |missing| ==> missing[i] != missing[j]
    ensures forall i :: LiesInNext(missing, i)
    ensures missing != [] ==> DirName(missing[|missing| - 1]) in fs.dirs
  {
    missing := [];
    var parent := dir;
    while parent !in fs.dirs
      invariant Missing(fs.dirs, dir, missing, parent) && (dir in fs.dirs ==> missing == [] && parent == dir)
      decreases |parent|
    {
      ghost var before := missing;
      missing := missing + [parent];
      forall i ensures LiesInNext(missing, i) { assert LiesInNext(before, i); }
      parent := DirName(parent);
    }
    forall a | InPath(parent, a) ensures a in fs.dirs { PathIsThere(fs.Now(), parent, a); }
  }

  /** Adding a directory that was not there puts nothing at risk that was. */
  lemma {:induction false} NewDirRisk(s: State, dir: string, d: string)
    requires Valid(s) && dir !in s.dirs && d in s.dirs && AtRisk(s.newDirs + {dir}, d)
    ensures AtRisk(s.newDirs, d)
    decreases |d|
  {
    if d !in s.newDirs { NewDirRisk(s, dir, DirName(d)); }
  }

  method MakeDir(fs: FileSystem, dir: string) returns (st: Status)
    requires Valid(fs.Now())
    modifies fs`dirs, fs`newDirs, fs.calls
    ensures old(fs.calls.failed) <= fs.calls.failed
    ensures st.Done? <==>
      fs.calls.failed == old(fs.calls.failed) && dir !in old(fs.dirs) && DirName(dir) in old(fs.dirs)
    ensures Valid(fs.Now()) && Moves(old(fs.Now()), fs.Now(), {})
    ensures var made := if st.Done? then {dir} else {};
      fs.dirs == old(fs.dirs) + made && fs.newDirs == old(fs.newDirs) + made
  {
    ghost var s := fs.Now();
    st := fs.MkDir(dir);
    forall d | AtRisk(fs.newDirs, d) && d in s.dirs ensures AtRisk(s.newDirs, d) {
      if st.Done? { NewDirRisk(s, dir, d); }
    }
  }

  /** The missing directories of the path are there now, and not flushed. */
  ghost predicate PathMade(s: State, t: State, dir: string) {
    && (forall a :: a in t.dirs <==> a in s.dirs || InPath(dir, a))
    && forall a :: a in t.newDirs <==> a in s.newDirs || (InPath(dir, a) && a !in s.dirs)
  }

  /** All from `i` on are made. */
  ghost predicate MadeFrom(s: State, t: State, missing: seq<string>, i: nat)
    requires i <= |missing|
  {
    && (forall a :: a in t.dirs <==> a in s.dirs || a in missing[i..])
    && (forall a :: a in t.newDirs <==> a in s.newDirs || a in missing[i..])
    && (i == |missing| ==> t == s)
  }

  lemma MadeOneMore(s: State, t: State, u: State, missing: seq<string>, i: nat)
    requires i < |missing| && MadeFrom(s, t, missing, i + 1)
    requires u.dirs == t.dirs + {missing[i]} && u.newDirs == t.newDirs + {missing[i]}
    ensures MadeFrom(s, u, missing, i)
  {
    assert missing[i..] == [missing[i]] + missing[i + 1..];
  }

  /** The next one inward can be made: it is not there, and what it lies in is. */
  lemma NextToMake(s: State, t: State, missing: seq<string>, i: nat)
    requires i < |missing| && MadeFrom(s, t, missing, i + 1)
    requires (forall j :: LiesInNext(missing, j)) && DirName(missing[|missing| - 1]) in s.dirs
    requires missing[i] !in s.dirs && forall j :: i < j < |missing| ==> missing[j] != missing[i]
    ensures missing[i] !in t.dirs && DirName(missing[i]) in t.dirs
  {
    assert LiesInNext(missing, i);
    if i + 1 < |missing| { assert missing[i + 1] in missing[i + 1..]; }
  }

  lemma AllMade(s: State, t: State, missing: seq<string>, dir: string)
    requires MadeFrom(s, t, missing, 0)
    requires forall a :: a in missing <==> InPath(dir, a) && a !in s.dirs
    ensures PathMade(s, t, dir)
  {
    assert missing[0..] == missing;
  }

  /** The parents of a target, made from the outermost missing one inward. */
  method EnsureDirs(fs: FileSystem, dir: string) returns (st: Status)
    requires Valid(fs.Now())
    modifies fs`dirs, fs`newDirs, fs.calls
    ensures old(fs.calls.failed) <= fs.calls.failed && (st.Done? <==> fs.calls.failed == old(fs.calls.failed))
    ensures Valid(fs.Now()) && Moves(old(fs.Now()), fs.Now(), {}) && old(fs.newDirs) <= fs.newDirs
    ensures st.Done? ==> PathMade(old(fs.Now()), fs.Now(), dir)
    ensures dir in old(fs.dirs) ==> fs.Now() == old(fs.Now())
  {
    ghost var s := fs.Now();
    var missing := FindMissing(fs, dir);
    var i := |missing|;
    while i > 0
      invariant 0 <= i <= |missing| && Valid(fs.Now()) && Moves(s, fs.Now(), {}) && s.newDirs <= fs.newDirs
      invariant MadeFrom(s, fs.Now(), missing, i) && fs.calls.failed == old(fs.calls.failed)
    {
      i := i - 1;
      ghost var t := fs.Now();
      NextToMake(s, t, missing, i);
      st := MakeDir(fs, missing[i]);
      MovesTransitive(s, t, fs.Now(), {});
      if !st.Done? { return; }
      MadeOneMore(s, t, fs.Now(), missing, i);
    }
    st := Done;
    AllMade(s, fs.Now(), missing, dir);
  }

  // ---- one target ---------------------------------------------------------------------------

  /** A step that leaves the directories as they are, for paths that are not temporary. */
  ghost predicate SameDirs(s: State, t: State) {
    t.dirs == s.dirs && t.newDirs == s.newDirs
  }

  /** The tail of an attempt that raised: the temporary file is removed if it is still there. */
  method RemoveTemp(fs: FileSystem, temp: Path) returns (st: Status)
    requires IsTemp(temp) && Valid(fs.Now())
    modifies fs, fs.calls
    ensures old(fs.calls.failed) <= fs.calls.failed && (st.Done? <==> fs.calls.failed == old(fs.calls.failed))
    ensures Valid(fs.Now()) && Moves(old(fs.Now()), fs.Now(), {}) && SameDirs(old(fs.Now()), fs.Now())
    ensures forall p: Path, y :: !IsTemp(p) ==> ((p, y) in fs.stale <==> (p, y) in old(fs.stale))
    ensures st.Done? ==> fs.files == old(fs.files) - {temp}
  {
    st := Done;
    if temp in fs.files { st := fs.Unlink(temp); }
  }

  /** The old entries a flush of `dir` leaves, temporary files apart. */
  ghost predicate FlushedIn(s: State, t: State, dir: string) {
    forall p: Path, y :: !IsTemp(p) ==> ((p, y) in t.stale <==> (p, y) in s.stale && p.dir != dir)
  }

  ghost predicate DirsFlushedIn(s: State, t: State, dir: string) {
    t.dirs == s.dirs && forall a :: a in t.newDirs <==> a in s.newDirs && DirName(a) != dir
  }

  method FlushDir(fs: FileSystem, dir: string) returns (st: Status)
    requires Valid(fs.Now())
    modifies fs`stale, fs`newDirs, fs.calls
    ensures old(fs.calls.failed) <= fs.calls.failed && (st.Done? <==> fs.calls.failed == old(fs.calls.failed))
    ensures Valid(fs.Now()) && Moves(old(fs.Now()), fs.Now(), {}) && fs.stale <= old(fs.stale)
    ensures forall d :: d in old(fs.newDirs) && DirName(d) != dir ==> d in fs.newDirs
    ensures st.Done? ==> FlushedIn(old(fs.Now()), fs.Now(), dir) && DirsFlushedIn(old(fs.Now()), fs.Now(), dir)
  {
    ghost var s := fs.Now();
    st := fs.FsyncDir(dir);
    forall d | AtRisk(fs.newDirs, d) ensures AtRisk(s.newDirs, d) { RiskGrows(fs.newDirs, s.newDirs, d); }
  }

  /** Write, flush and rename the temporary file: the target changes in the rename and nowhere else. */
  method WriteAndRename(fs: FileSystem, temp: Path, path: Path, f: File) returns (st: Status)
    requires Valid(fs.Now()) && IsTemp(temp) && !IsTemp(path) && temp in fs.files && temp.dir == path.dir
    modifies fs`files, fs`stale, fs`dirty, fs.calls
    ensures old(fs.calls.failed) <= fs.calls.failed && (st.Done? <==> fs.calls.failed == old(fs.calls.failed))
    ensures Valid(fs.Now()) && Moves(old(fs.Now()), fs.Now(), {(path, Some(f))}) && SameDirs(old(fs.Now()), fs.Now())
    ensures st.Done? ==> fs.files == old(fs.files)[path := f] - {temp}
    ensures st.Done? ==> forall p: Path, y :: !IsTemp(p) && p != path ==>
      ((p, y) in fs.stale <==> (p, y) in old(fs.stale))
  {
    st := fs.Fill(temp, f);
    if !st.Done? { return; }
    st := fs.Fsync(temp);
    if !st.Done? { return; }
    st := fs.Replace(temp, path);
  }

  method WriteAndReplace(fs: FileSystem, temp: Path, path: Path, f: File) returns (st: Status)
    requires Valid(fs.Now()) && IsTemp(temp) && !IsTemp(path) && temp in fs.files && temp.dir == path.dir
    modifies fs, fs.calls
    ensures old(fs.calls.failed) <= fs.calls.failed && (st.Done? <==> fs.calls.failed == old(fs.calls.failed))
    ensures Valid(fs.Now()) && Moves(old(fs.Now()), fs.Now(), {(path, Some(f))})
    ensures forall d :: d in old(fs.newDirs) && DirName(d) != path.dir ==> d in fs.newDirs
    ensures st.Done? ==> fs.files == old(fs.files)[path := f] - {temp} && FlushedIn(old(fs.Now()), fs.Now(), path.dir)
    ensures st.Done? ==> DirsFlushedIn(old(fs.Now()), fs.Now(), path.dir)
  {
    ghost var s, w := fs.Now(), {(path, Some(f))};
    st := WriteAndRename(fs, temp, path, f);
    if !st.Done? { return; }
    ghost var t := fs.Now();
    st := FlushDir(fs, path.dir);
    MovesWider(t, fs.Now(), {}, w);
    MovesTransitive(s, t, fs.Now(), w);
  }

  /** mkstemp, as a step. */
  method NewTemp(fs: FileSystem, dir: string) returns (st: Status, temp: Path)
    requires Valid(fs.Now())
    modifies fs`files, fs`dirty, fs.calls
    ensures old(fs.calls.failed) <= fs.calls.failed
    ensures st.Done? <==> fs.calls.failed == old(fs.calls.failed) && dir in fs.dirs
    ensures Valid(fs.Now()) && Moves(old(fs.Now()), fs.Now(), {}) && SameDirs(old(fs.Now()), fs.Now())
    ensures st.Done? ==> IsTemp(temp) && temp.dir == dir && temp !in old(fs.files) && temp in fs.files
    ensures st.Done? ==> fs.files - {temp} == old(fs.files)
    ensures !st.Done? ==> fs.files == old(fs.files)
  {
    st, temp := fs.MkStemp(dir);
  }

  /** The temporary file, its rename and its removal, in a directory that exists. */
  method Replace(fs: FileSystem, path: Path, f: File) returns (st: Status)
    requires Valid(fs.Now()) && !IsTemp(path)
    modifies fs, fs.calls
    ensures old(fs.calls.failed) <= fs.calls.failed
    ensures st.Done? <==> fs.calls.failed == old(fs.calls.failed) && path.dir in old(fs.dirs)
    ensures Valid(fs.Now()) && Moves(old(fs.Now()), fs.Now(), {(path, Some(f))})
    ensures forall d :: d in old(fs.newDirs) && DirName(d) != path.dir ==> d in fs.newDirs
    ensures st.Done? ==> fs.files == old(fs.files)[path := f] && FlushedIn(old(fs.Now()), fs.Now(), path.dir)
    ensures st.Done? ==> DirsFlushedIn(old(fs.Now()), fs.Now(), path.dir)
  {
    ghost var s0, w := fs.Now(), {(path, Some(f))};
    var temp;
    st, temp := NewTemp(fs, path.dir);
    ghost var s1 := fs.Now();
    MovesWider(s0, s1, {}, w);
    if !st.Done? { return; }
    st := WriteAndReplace(fs, temp, path, f);
    ghost var s2 := fs.Now();
    MovesTransitive(s0, s1, s2, w);
    if st.Crash? { return; }
    var tail := RemoveTemp(fs, temp);
    ghost var s3 := fs.Now();
    MovesWider(s2, s3, {}, w);
    MovesTransitive(s0, s2, s3, w);
    if !tail.Done? { st := tail; }
  }

  /** The path was made where it was missing, and the directory then flushed. */
  ghost predicate WrittenUnder(s: State, t: State, dir: string) {
    && (forall a :: a in t.dirs <==> a in s.dirs || InPath(dir, a))
    && forall a :: a in t.newDirs <==> (a in s.newDirs || (InPath(dir, a) && a !in s.dirs)) && DirName(a) != dir
  }

  lemma {:induction false} RiskAfterWrite(s: State, t: State, dir: string)
    requires Valid(s) && WrittenUnder(s, t, dir)
    ensures AtRisk(t.newDirs, dir) <==> dir !in s.dirs || AtRisk(s.newDirs, dir)
  {
    RiskInPath(s.newDirs, dir);
    RiskInPath(t.newDirs, dir);
    forall a | InPath(dir, a) ensures a in t.newDirs <==> a in s.newDirs || a !in s.dirs { InPathShorter(dir, a); }
    if dir in s.dirs {
      forall a | InPath(dir, a) ensures a in s.dirs { PathIsThere(s, dir, a); }
    }
  }

  /** atomic_write: on every outcome the target holds its old file or the complete new one, now and
      after a power loss, and no other file changes. When it returns, the target holds the new file and no
      temporary file is left; a power loss then leaves the new file exactly if its directory was there
      before the call and no directory of its path had an unflushed entry. */
  method AtomicWrite(fs: FileSystem, path: Path, f: File) returns (st: Status)
    requires Valid(fs.Now()) && !IsTemp(path)
    modifies fs, fs.calls
    ensures old(fs.calls.failed) <= fs.calls.failed
    ensures st.Done? <==> fs.calls.failed == old(fs.calls.failed) && path !in fs.refused
    ensures Valid(fs.Now()) && Moves(old(fs.Now()), fs.Now(), {(path, Some(f))})
    ensures forall d :: d in old(fs.newDirs) && DirName(d) != path.dir ==> d in fs.newDirs
    ensures path in fs.refused ==> !st.Done? && fs.Now() == old(fs.Now())
    ensures st.Done? ==> fs.files == old(fs.files)[path := f] && FlushedIn(old(fs.Now()), fs.Now(), path.dir)
    ensures st.Done? ==> WrittenUnder(old(fs.Now()), fs.Now(), path.dir)
    ensures st.Done? && path !in old(fs.dirty) ==>
      (Settled(fs.Now(), path, Some(f)) <==> path.dir in old(fs.dirs) && !AtRisk(old(fs.newDirs), path.dir))
  {
    if path in fs.refused { return Error; }
    ghost var s0, w := fs.Now(), {(path, Some(f))};
    st := EnsureDirs(fs, path.dir);
    ghost var s1 := fs.Now();
    MovesWider(s0, s1, {}, w);
    if !st.Done? { return; }
    st := Replace(fs, path, f);
    MovesTransitive(s0, s1, fs.Now(), w);
    if st.Done? && path !in s0.dirty {
      FileSettled(fs.Now(), path);
      RiskAfterWrite(s0, fs.Now(), path.dir);
    }
  }

  /** Removing a target is one step, but it is not flushed. */
  method UnlinkTarget(fs: FileSystem, path: Path) returns (st: Status)
    requires Valid(fs.Now()) && path in fs.files && !IsTemp(path)
    modifies fs, fs.calls
    ensures old(fs.calls.failed) <= fs.calls.failed && (st.Done? <==> fs.calls.failed == old(fs.calls.failed))
    ensures Valid(fs.Now()) && Moves(old(fs.Now()), fs.Now(), {(path, None)}) && SameDirs(old(fs.Now()), fs.Now())
    ensures st.Done? ==> fs.files == old(fs.files) - {path}
    ensures st.Done? ==> fs.stale == old(fs.stale) + {(path, Some(old(fs.files)[path]))}
    ensures st.Done? ==> !Settled(fs.Now(), path, None)
  {
    ghost var f := fs.files[path];
    st := fs.Unlink(path);
    assert st.Done? ==> CanShow(fs.Now(), path, Some(f));
  }

  // ---- the set ------------------------------------------------------------------------------

  datatype Target = Target(role: string, path: Path)

  /** What the backup manifest says of one target. */
  datatype Entry = Present(path: Path, sha: int, mode: nat, uid: nat, gid: nat) | Absent(path: Path)

  datatype Manifest = Manifest(schema: int, entries: map<string, Entry>)

  /** The digest and the manifest's text form. */
  datatype Codec = Codec(sha: Bytes -> int, encode: Manifest -> Bytes, decode: Bytes -> Option<Manifest>)

  ghost predicate RoundTrips(c: Codec) {
    forall m :: c.decode(c.encode(m)) == Some(m)
  }

  const JSON := "backup.json"

  /** Distinct roles at distinct places outside the backup directory; no temporary names. */
  predicate WellNamed(targets: seq<Target>, backup: string) {
    && (forall i :: 0 <= i < |targets| ==>
          && !IsTemp(targets[i].path) && targets[i].path.dir != backup
          && !IsTemp(Path(backup, targets[i].role)) && targets[i].role != JSON)
    && forall i, j :: 0 <= i < j < |targets| ==>
         targets[i].role != targets[j].role && targets[i].path != targets[j].path
  }

  /** One write for each target. */
  function WritesOf(targets: seq<Target>, wants: seq<Option<File>>): Writes
    requires |wants| == |targets|
  {
    set i | 0 <= i < |targets| :: (targets[i].path, wants[i])
  }

  /** Every target is now what `wants` says. */
  predicate AllAt(files: map<Path, File>, targets: seq<Target>, wants: seq<Option<File>>)
    requires |wants| == |targets|
  {
    forall i :: 0 <= i < |targets| ==> Look(files, targets[i].path) == wants[i]
  }

  /** Whether an old file at `p` may come back after one more target, given whether it might before:
      a write flushes its directory, a removal leaves the removed file. */
  predicate StaleStep(had: bool, p: Path, t: Target, want: Option<File>, existed: bool) {
    if want.Some? then had && p.dir != t.path.dir else had || (p == t.path && existed)
  }

  /** What one target does to the directories. */
  ghost predicate DirStep(s: State, t: State, target: Target, want: Option<File>) {
    if want.Some? then WrittenUnder(s, t, target.path.dir) else SameDirs(s, t)
  }

  /** One target of a set: the others keep what they have. */
  method WriteTarget(fs: FileSystem, t: Target, want: Option<File>) returns (st: Status)
    requires Valid(fs.Now()) && !IsTemp(t.path)
    modifies fs, fs.calls
    ensures old(fs.calls.failed) <= fs.calls.failed
    ensures st.Done? <==> fs.calls.failed == old(fs.calls.failed) && (want.Some? ==> t.path !in fs.refused)
    ensures Valid(fs.Now()) && Moves(old(fs.Now()), fs.Now(), {(t.path, want)})
    ensures st.Done? ==> fs.At(t.path) == want
    ensures st.Done? ==> forall p :: !IsTemp(p) ==>
      (HasStale(fs.Now(), p) <==> StaleStep(HasStale(old(fs.Now()), p), p, t, want, t.path in old(fs.files)))
    ensures st.Done? ==> forall p :: !IsTemp(p) && Clear(old(fs.Now()), p) && p != t.path ==> Clear(fs.Now(), p)
    ensures st.Done? && want.Some? ==> Clear(fs.Now(), t.path)
    ensures st.Done? ==> DirStep(old(fs.Now()), fs.Now(), t, want)
  {
    if want.Some? {
      st := AtomicWrite(fs, t.path, want.value);
    } else if t.path in fs.files {
      st := UnlinkTarget(fs, t.path);
    } else {
      st := Done;
    }
  }

  /** The same after the first k targets, from `s`. */
  ghost predicate Lingers(s: State, targets: seq<Target>, wants: seq<Option<File>>, p: Path, k: nat)
    requires |wants| == |targets| && k <= |targets|
  {
    if k == 0 then HasStale(s, p)
    else StaleStep(Lingers(s, targets, wants, p, k - 1), p, targets[k - 1], wants[k - 1],
                   targets[k - 1].path in s.files)
  }

  /** Some target from lo up to hi is written into that directory, and so flushes it. */
  ghost predicate Flushes(targets: seq<Target>, wants: seq<Option<File>>, lo: nat, hi: nat, dir: string)
    requires |wants| == |targets| && lo <= hi <= |targets|
  {
    exists j :: lo <= j < hi && wants[j].Some? && targets[j].path.dir == dir
  }

  /** Target j is written to a place under that directory. */
  predicate Under(targets: seq<Target>, wants: seq<Option<File>>, j: nat, a: string)
    requires |wants| == |targets| && j < |targets|
  {
    wants[j].Some? && InPath(targets[j].path.dir, a)
  }

  /** Target j is the first one under it: the one that makes it if it was missing. */
  predicate Makes(targets: seq<Target>, wants: seq<Option<File>>, j: nat, a: string)
    requires |wants| == |targets| && j < |targets|
  {
    Under(targets, wants, j, a) && forall i :: 0 <= i < j ==> !Under(targets, wants, i, a)
  }

  /** The entry of directory `a` is flushed when the loop is over: it was before, or a target is written
      into its parent; if it had to be made, a target behind the one that made it. */
  ghost predicate EntryKept(s: State, targets: seq<Target>, wants: seq<Option<File>>, a: string)
    requires |wants| == |targets|
  {
    if a in s.dirs then a !in s.newDirs || Flushes(targets, wants, 0, |targets|, DirName(a))
    else forall j :: 0 <= j < |targets| && Makes(targets, wants, j, a) ==>
           Flushes(targets, wants, j + 1, |targets|, DirName(a))
  }

  /** What is restored at target i survives a power loss, seen from the state before: a file if the entry
      of every directory of its path is flushed by then; an absence if a later target flushes the directory,
      or if nothing was removed and no old file could come back, or an earlier target flushed that. */
  ghost predicate Lasts(s: State, targets: seq<Target>, wants: seq<Option<File>>, i: nat)
    requires |wants| == |targets| && i < |targets|
  {
    var p := targets[i].path;
    if wants[i].Some? then forall a :: InPath(p.dir, a) ==> EntryKept(s, targets, wants, a)
    else
      || Flushes(targets, wants, i + 1, |targets|, p.dir)
      || (p !in s.files && (!HasStale(s, p) || Flushes(targets, wants, 0, i, p.dir)))
  }

  /** The directory is there after the first k targets, from `s`. */
  ghost predicate Made(s: State, targets: seq<Target>, wants: seq<Option<File>>, a: string, k: nat)
    requires |wants| == |targets| && k <= |targets|
  {
    a in s.dirs || exists j :: 0 <= j < k && Under(targets, wants, j, a)
  }

  /** Its entry is not flushed then. */
  ghost predicate Unflushed(s: State, targets: seq<Target>, wants: seq<Option<File>>, a: string, k: nat)
    requires |wants| == |targets| && k <= |targets|
  {
    if k == 0 then a in s.newDirs
    else
      var had := Unflushed(s, targets, wants, a, k - 1);
      if wants[k - 1].None? then had
      else
        && (had || (Under(targets, wants, k - 1, a) && !Made(s, targets, wants, a, k - 1)))
        && DirName(a) != targets[k - 1].path.dir
  }

  /** It was unflushed and no target flushed it, or it was missing and none did after it was made. */
  lemma {:induction false} UnflushedExactly(s: State, targets: seq<Target>, wants: seq<Option<File>>, a: string, k: nat)
    requires Valid(s) && |wants| == |targets| && k <= |targets|
    ensures Unflushed(s, targets, wants, a, k) <==>
      if a in s.dirs then a in s.newDirs && !Flushes(targets, wants, 0, k, DirName(a))
      else exists j :: 0 <= j < k && Makes(targets, wants, j, a) && !Flushes(targets, wants, j + 1, k, DirName(a))
  {
    if k > 0 {
      UnflushedExactly(s, targets, wants, a, k - 1);
      if a in s.dirs {
        FlushesOneMore(targets, wants, 0, k, DirName(a));
      } else {
        UnflushedMade(s, targets, wants, a, k);
      }
    }
  }

  lemma UnflushedMade(s: State, targets: seq<Target>, wants: seq<Option<File>>, a: string, k: nat)
    requires Valid(s) && |wants| == |targets| && 0 < k <= |targets| && a !in s.dirs
    requires Unflushed(s, targets, wants, a, k - 1) <==>
      exists j :: 0 <= j < k - 1 && Makes(targets, wants, j, a) && !Flushes(targets, wants, j + 1, k - 1, DirName(a))
    ensures Unflushed(s, targets, wants, a, k) <==>
      exists j :: 0 <= j < k && Makes(targets, wants, j, a) && !Flushes(targets, wants, j + 1, k, DirName(a))
  {
    var dir := targets[k - 1].path.dir;
    forall j | 0 <= j < k - 1 && Makes(targets, wants, j, a)
      ensures Flushes(targets, wants, j + 1, k, DirName(a)) <==>
        Flushes(targets, wants, j + 1, k - 1, DirName(a)) || (wants[k - 1].Some? && dir == DirName(a))
    {
      FlushesOneMore(targets, wants, j + 1, k, DirName(a));
    }
    if InPath(dir, a) { InPathShorter(dir, a); }
    assert Makes(targets, wants, k - 1, a) <==> Under(targets, wants, k - 1, a) && !Made(s, targets, wants, a, k - 1);
    assert !Flushes(targets, wants, k, k, DirName(a));
  }

  lemma {:induction false} LingersBefore(s: State, targets: seq<Target>, wants: seq<Option<File>>, i: nat, k: nat,
                                         backup: string)
    requires |wants| == |targets| && WellNamed(targets, backup) && k <= i < |targets|
    ensures var p := targets[i].path;
      Lingers(s, targets, wants, p, k) <==> HasStale(s, p) && !Flushes(targets, wants, 0, k, p.dir)
  {
    if k > 0 {
      LingersBefore(s, targets, wants, i, k - 1, backup);
      FlushesOneMore(targets, wants, 0, k, targets[i].path.dir);
    }
  }

  lemma FlushesOneMore(targets: seq<Target>, wants: seq<Option<File>>, lo: nat, hi: nat, dir: string)
    requires |wants| == |targets| && lo < hi <= |targets|
    ensures Flushes(targets, wants, lo, hi, dir) <==>
      Flushes(targets, wants, lo, hi - 1, dir) || (wants[hi - 1].Some? && targets[hi - 1].path.dir == dir)
  {}

  lemma {:induction false} LingersExactly(s: State, targets: seq<Target>, wants: seq<Option<File>>, i: nat, k: nat,
                                          backup: string)
    requires |wants| == |targets| && WellNamed(targets, backup) && i < k <= |targets| && wants[i].None?
    ensures var p := targets[i].path;
      Lingers(s, targets, wants, p, k) <==>
        && !Flushes(targets, wants, i + 1, k, p.dir)
        && (p in s.files || (HasStale(s, p) && !Flushes(targets, wants, 0, i, p.dir)))
  {
    if k == i + 1 {
      LingersBefore(s, targets, wants, i, i, backup);
    } else {
      LingersExactly(s, targets, wants, i, k - 1, backup);
      FlushesOneMore(targets, wants, i + 1, k, targets[i].path.dir);
    }
  }

  /** The part of the loop's state that says what may come back. */
  ghost predicate Tracked(s: State, t: State, targets: seq<Target>, wants: seq<Option<File>>, k: nat)
    requires |wants| == |targets| && k <= |targets|
  {
    && (forall j :: 0 <= j < k ==> Look(t.files, targets[j].path) == wants[j])
    && (forall j :: k <= j < |targets| ==> Look(t.files, targets[j].path) == Look(s.files, targets[j].path))
    && (forall j :: 0 <= j < k && wants[j].Some? ==> Clear(t, targets[j].path))
    && forall p :: !IsTemp(p) ==> (HasStale(t, p) <==> Lingers(s, targets, wants, p, k))
  }

  lemma TrackedStep(s: State, t: State, u: State, targets: seq<Target>, wants: seq<Option<File>>, k: nat,
                    backup: string)
    requires |wants| == |targets| && WellNamed(targets, backup) && k < |targets| && Tracked(s, t, targets, wants, k)
    requires Moves(t, u, {(targets[k].path, wants[k])}) && Look(u.files, targets[k].path) == wants[k]
    requires forall p :: !IsTemp(p) ==>
      (HasStale(u, p) <==> StaleStep(HasStale(t, p), p, targets[k], wants[k], targets[k].path in t.files))
    requires forall p :: !IsTemp(p) && Clear(t, p) && p != targets[k].path ==> Clear(u, p)
    requires wants[k].Some? ==> Clear(u, targets[k].path)
    ensures Tracked(s, u, targets, wants, k + 1)
  {
    assert targets[k].path in t.files <==> targets[k].path in s.files;
  }

  /** The part of the loop's state that says which directories may be lost. */
  ghost predicate DirsTracked(s: State, t: State, targets: seq<Target>, wants: seq<Option<File>>, k: nat)
    requires |wants| == |targets| && k <= |targets|
  {
    && (forall a :: a in t.dirs <==> Made(s, targets, wants, a, k))
    && forall a :: a in t.newDirs <==> Unflushed(s, targets, wants, a, k)
  }

  lemma DirsTrackedStep(s: State, t: State, u: State, targets: seq<Target>, wants: seq<Option<File>>, k: nat)
    requires |wants| == |targets| && k < |targets| && DirsTracked(s, t, targets, wants, k)
    requires DirStep(t, u, targets[k], wants[k])
    ensures DirsTracked(s, u, targets, wants, k + 1)
  {
    forall a ensures Made(s, targets, wants, a, k + 1) <==> Made(s, targets, wants, a, k) || Under(targets, wants, k, a)
    {}
  }

  /** After the loop, what is at risk is what has a directory in its path whose entry was not flushed. */
  lemma RiskAfterLoop(s: State, t: State, targets: seq<Target>, wants: seq<Option<File>>, dir: string)
    requires Valid(s) && |wants| == |targets| && DirsTracked(s, t, targets, wants, |targets|)
    ensures !AtRisk(t.newDirs, dir) <==> forall a :: InPath(dir, a) ==> EntryKept(s, targets, wants, a)
  {
    RiskInPath(t.newDirs, dir);
    forall a ensures a in t.newDirs <==> !EntryKept(s, targets, wants, a) {
      UnflushedExactly(s, targets, wants, a, |targets|);
    }
  }

  lemma TrackedSettled(s: State, t: State, targets: seq<Target>, wants: seq<Option<File>>, i: nat, backup: string)
    requires Valid(s) && |wants| == |targets| && WellNamed(targets, backup) && i < |targets|
    requires Tracked(s, t, targets, wants, |targets|) && DirsTracked(s, t, targets, wants, |targets|)
    requires targets[i].path !in t.dirty
    ensures Settled(t, targets[i].path, wants[i]) <==> Lasts(s, targets, wants, i)
  {
    if wants[i].Some? {
      FileSettled(t, targets[i].path);
      RiskAfterLoop(s, t, targets, wants, targets[i].path.dir);
    } else {
      AbsenceSettled(t, targets[i].path);
      LingersExactly(s, targets, wants, i, |targets|, backup);
    }
  }

  lemma AllSettled(s: State, t: State, targets: seq<Target>, wants: seq<Option<File>>, backup: string)
    requires Valid(s) && |wants| == |targets| && WellNamed(targets, backup) && Moves(s, t, WritesOf(targets, wants))
    requires Tracked(s, t, targets, wants, |targets|) && DirsTracked(s, t, targets, wants, |targets|)
    ensures forall i :: 0 <= i < |targets| && targets[i].path !in s.dirty ==>
      (Settled(t, targets[i].path, wants[i]) <==> Lasts(s, targets, wants, i))
  {
    forall i | 0 <= i < |targets| && targets[i].path !in s.dirty
      ensures Settled(t, targets[i].path, wants[i]) <==> Lasts(s, targets, wants, i)
    {
      TrackedSettled(s, t, targets, wants, i, backup);
    }
  }

  lemma NothingWritten(s: State, targets: seq<Target>, wants: seq<Option<File>>)
    requires |wants| == |targets|
    ensures Moves(s, s, WritesOf(targets, wants))
    ensures Tracked(s, s, targets, wants, 0) && DirsTracked(s, s, targets, wants, 0)
  {}

  /** One round of the loop that began in `s0`. */
  method WriteNext(fs: FileSystem, targets: seq<Target>, wants: seq<Option<File>>, k: nat, ghost s0: State,
                   ghost backup: string)
    returns (st: Status)
    requires Valid(fs.Now()) && |wants| == |targets| && k < |targets| && WellNamed(targets, backup)
    requires Moves(s0, fs.Now(), WritesOf(targets, wants))
    requires Tracked(s0, fs.Now(), targets, wants, k) && DirsTracked(s0, fs.Now(), targets, wants, k)
    modifies fs, fs.calls
    ensures old(fs.calls.failed) <= fs.calls.failed
    ensures st.Done? <==>
      fs.calls.failed == old(fs.calls.failed) && (wants[k].Some? ==> targets[k].path !in fs.refused)
    ensures Valid(fs.Now()) && Moves(s0, fs.Now(), WritesOf(targets, wants))
    ensures st.Done? ==> Tracked(s0, fs.Now(), targets, wants, k + 1)
    ensures st.Done? ==> DirsTracked(s0, fs.Now(), targets, wants, k + 1)
  {
    ghost var t, w := fs.Now(), WritesOf(targets, wants);
    st := WriteTarget(fs, targets[k], wants[k]);
    assert (targets[k].path, wants[k]) in w;
    MovesWider(t, fs.Now(), {(targets[k].path, wants[k])}, w);
    MovesTransitive(s0, t, fs.Now(), w);
    if !st.Done? { return; }
    TrackedStep(s0, t, fs.Now(), targets, wants, k, backup);
    DirsTrackedStep(s0, t, fs.Now(), targets, wants, k);
  }

  /** The loop of an install or a restore: wherever it stops, every target holds what it held or
      what it was to get; when it ends, what it was to get, and exactly when that survives a power loss. */
  method WriteAll(fs: FileSystem, targets: seq<Target>, wants: seq<Option<File>>, ghost backup: string)
    returns (st: Status)
    requires Valid(fs.Now()) && |wants| == |targets| && WellNamed(targets, backup)
    modifies fs, fs.calls
    ensures old(fs.calls.failed) <= fs.calls.failed
    ensures st.Done? ==> fs.calls.failed == old(fs.calls.failed)
    ensures fs.calls.failed == old(fs.calls.failed) && NoneRefused(targets, fs.refused) ==> st.Done?
    ensures Valid(fs.Now()) && Moves(old(fs.Now()), fs.Now(), WritesOf(targets, wants))
    ensures st.Done? ==> AllAt(fs.files, targets, wants)
    ensures st.Done? ==> forall i :: 0 <= i < |targets| && targets[i].path !in old(fs.dirty) ==>
      (Settled(fs.Now(), targets[i].path, wants[i]) <==> Lasts(old(fs.Now()), targets, wants, i))
  {
    ghost var s0 := fs.Now();
    NothingWritten(s0, targets, wants);
    for k := 0 to |targets|
      invariant Valid(fs.Now()) && Moves(s0, fs.Now(), WritesOf(targets, wants))
      invariant Tracked(s0, fs.Now(), targets, wants, k) && DirsTracked(s0, fs.Now(), targets, wants, k)
      invariant fs.calls.failed == old(fs.calls.failed)
    {
      st := WriteNext(fs, targets, wants, k, s0, backup);
      if !st.Done? { return; }
    }
    st := Done;
    AllSettled(s0, fs.Now(), targets, wants, backup);
  }

  // ---- the backup ---------------------------------------------------------------------------

  function EntryFor(c: Codec, t: Target, x: Option<File>): Entry {
    match x
    case Some(f) => Present(t.path, c.sha(f.data), f.mode, f.uid, f.gid)
    case None => Absent(t.path)
  }

  function EntriesFor(c: Codec, targets: seq<Target>, orig: seq<Option<File>>): map<string, Entry>
    requires |orig| == |targets|
  {
    if targets == [] then map[]
    else
      var n := |targets| - 1;
      EntriesFor(c, targets[..n], orig[..n])[targets[n].role := EntryFor(c, targets[n], orig[n])]
  }

  lemma {:induction false} EntryAt(c: Codec, targets: seq<Target>, orig: seq<Option<File>>, i: nat, backup: string)
    requires |orig| == |targets| && WellNamed(targets, backup) && i < |targets|
    ensures targets[i].role in EntriesFor(c, targets, orig)
    ensures EntriesFor(c, targets, orig)[targets[i].role] == EntryFor(c, targets[i], orig[i])
  {
    var n := |targets| - 1;
    if i < n { EntryAt(c, targets[..n], orig[..n], i, backup); }
  }

  function Roles(targets: seq<Target>): set<string> {
    set i | 0 <= i < |targets| :: targets[i].role
  }

  lemma {:induction false} EntryKeys(c: Codec, targets: seq<Target>, orig: seq<Option<File>>)
    requires |orig| == |targets|
    ensures EntriesFor(c, targets, orig).Keys == Roles(targets)
  {
    if targets != [] {
      var n := |targets| - 1;
      EntryKeys(c, targets[..n], orig[..n]);
      assert Roles(targets) == Roles(targets[..n]) + {targets[n].role} by {
        forall r | r in Roles(targets) ensures r in Roles(targets[..n]) + {targets[n].role} {
          var i :| 0 <= i < |targets| && targets[i].role == r;
          assert i < n ==> targets[..n][i].role == r;
        }
        forall r | r in Roles(targets[..n]) ensures r in Roles(targets) {
          var i :| 0 <= i < n && targets[..n][i].role == r;
          assert targets[i].role == r;
        }
        assert targets[n].role in Roles(targets);
      }
    }
  }

  /** The path holds these bytes, and only the loss of its directory can take them. */
  ghost predicate Holds(s: State, p: Path, data: Bytes) {
    && p !in s.dirty && p in s.files && s.files[p].data == data
    && forall y :: (p, y) in s.stale ==> y.Some? && y.value.data == data
  }

  /** The backup of `orig` is complete, and only the loss of its directory can touch it. */
  ghost predicate Intact(c: Codec, s: State, backup: string, targets: seq<Target>, orig: seq<Option<File>>)
    requires |orig| == |targets|
  {
    && Holds(s, Path(backup, JSON), c.encode(Manifest(1, EntriesFor(c, targets, orig))))
    && forall i :: 0 <= i < |targets| && orig[i].Some? ==> Holds(s, Path(backup, targets[i].role), orig[i].value.data)
  }

  /** The backup is gone as a whole. */
  predicate Gone(files: map<Path, File>, backup: string) {
    forall p :: p in files ==> p.dir != backup
  }

  lemma MovesHolds(s: State, t: State, writes: Writes, p: Path, data: Bytes)
    requires Moves(s, t, writes) && !IsTemp(p) && Holds(s, p, data) && forall y :: (p, y) !in writes
    ensures Holds(t, p, data)
  {}

  /** Steps that write only to targets leave the backup as it is. */
  lemma IntactKept(c: Codec, s: State, t: State, backup: string, targets: seq<Target>, orig: seq<Option<File>>,
                   wants: seq<Option<File>>)
    requires |orig| == |targets| == |wants| && WellNamed(targets, backup) && Moves(s, t, WritesOf(targets, wants))
    requires Intact(c, s, backup, targets, orig)
    ensures Intact(c, t, backup, targets, orig)
  {
    var w := WritesOf(targets, wants);
    JsonIsNoTemp(backup);
    MovesHolds(s, t, w, Path(backup, JSON), c.encode(Manifest(1, EntriesFor(c, targets, orig))));
    forall i | 0 <= i < |targets| && orig[i].Some? ensures Holds(t, Path(backup, targets[i].role), orig[i].value.data) {
      MovesHolds(s, t, w, Path(backup, targets[i].role), orig[i].value.data);
    }
  }

  lemma JsonIsNoTemp(backup: string)
    ensures !IsTemp(Path(backup, JSON))
  {
    assert JSON[..6][0] == 'b';
  }

  /** What each target holds. */
  function Originals(files: map<Path, File>, targets: seq<Target>): seq<Option<File>> {
    seq(|targets|, i requires 0 <= i < |targets| => Look(files, targets[i].path))
  }

  lemma HoldsAfterLoss(s: State, t: State, lost: set<string>, p: Path, data: Bytes)
    requires Holds(s, p, data) && Survives(s, t, lost) && !AtRisk(lost, p.dir)
    ensures Holds(t, p, data)
  {
    assert MayBe(s, p, Look(t.files, p));
  }

  /** A power loss leaves the whole backup or takes the whole directory. */
  lemma LossOfBackup(c: Codec, s: State, t: State, lost: set<string>, backup: string, targets: seq<Target>,
                     orig: seq<Option<File>>)
    requires |orig| == |targets| && Intact(c, s, backup, targets, orig) && Survives(s, t, lost)
    ensures if AtRisk(lost, backup) then Gone(t.files, backup) else Intact(c, t, backup, targets, orig)
  {
    if !AtRisk(lost, backup) {
      HoldsAfterLoss(s, t, lost, Path(backup, JSON), c.encode(Manifest(1, EntriesFor(c, targets, orig))));
      forall i | 0 <= i < |targets| && orig[i].Some?
        ensures Holds(t, Path(backup, targets[i].role), orig[i].value.data)
      {
        HoldsAfterLoss(s, t, lost, Path(backup, targets[i].role), orig[i].value.data);
      }
    }
  }

  /** The file system a power loss leaves when it takes every unflushed directory. */
  ghost function WorstLoss(s: State): State {
    State(map p | p in s.files && !AtRisk(s.newDirs, p.dir) :: s.files[p], {}, {},
          set d | d in s.dirs && !AtRisk(s.newDirs, d), {})
  }

  lemma WorstIsALoss(s: State)
    ensures Survives(s, WorstLoss(s), s.newDirs)
  {}

  /** A complete backup survives every power loss if and only if no directory of its path has an
      unflushed entry. */
  lemma BackupSurvives(c: Codec, s: State, backup: string, targets: seq<Target>, orig: seq<Option<File>>)
    requires |orig| == |targets| && Intact(c, s, backup, targets, orig)
    ensures (forall t :: AfterLoss(s, t) ==> Intact(c, t, backup, targets, orig)) <==> !AtRisk(s.newDirs, backup)
  {
    if AtRisk(s.newDirs, backup) {
      WorstIsALoss(s);
      LossOfBackup(c, s, WorstLoss(s), s.newDirs, backup, targets, orig);
      assert AfterLoss(s, WorstLoss(s)) && Path(backup, JSON) !in WorstLoss(s).files;
    } else {
      forall t | AfterLoss(s, t) ensures Intact(c, t, backup, targets, orig) {
        var lost :| Survives(s, t, lost);
        if AtRisk(lost, backup) { RiskGrows(lost, s.newDirs, backup); }
        LossOfBackup(c, s, t, lost, backup, targets, orig);
      }
    }
  }

  /** Nothing outside the directory changes, and nothing else becomes less safe. */
  ghost predicate Outside(s: State, t: State, dir: string) {
    && (forall p :: !IsTemp(p) && p.dir != dir ==> Look(t.files, p) == Look(s.files, p))
    && (forall p, y :: !IsTemp(p) && p.dir != dir && (p, y) in t.stale ==> (p, y) in s.stale || y == Look(s.files, p))
    && (forall p :: !IsTemp(p) && p in t.dirty ==> p in s.dirty)
    && s.dirs <= t.dirs
    && forall d :: AtRisk(t.newDirs, d) && d in s.dirs ==> AtRisk(s.newDirs, d)
  }

  lemma MovesOutside(s: State, t: State, p: Path, x: Option<File>)
    requires Moves(s, t, {(p, x)})
    ensures Outside(s, t, p.dir)
  {}

  lemma OutsideTransitive(s: State, t: State, u: State, dir: string)
    requires Outside(s, t, dir) && Outside(t, u, dir)
    ensures Outside(s, u, dir)
  {}

  /** Every file of the first `n` targets has its copy. */
  ghost predicate Copied(s: State, backup: string, targets: seq<Target>, orig: seq<Option<File>>, n: nat)
    requires |orig| == |targets| && n <= |targets|
  {
    forall j :: 0 <= j < n && orig[j].Some? ==> Holds(s, Path(backup, targets[j].role), orig[j].value.data)
  }

  /** The copies of the first `n` targets: the bytes, readable by their owner only. */
  predicate CopiesAre(files: map<Path, File>, backup: string, targets: seq<Target>, orig: seq<Option<File>>, n: nat,
                      uid: nat, gid: nat)
    requires |orig| == |targets| && n <= |targets|
  {
    forall j :: 0 <= j < n && orig[j].Some? ==>
      Look(files, Path(backup, targets[j].role)) == Some(File(orig[j].value.data, 0x180, uid, gid))
  }

  /** One file of the backup: after it, its bytes, with nothing older to come back. */
  method WriteCopy(fs: FileSystem, backup: string, role: string, f: File) returns (st: Status)
    requires Valid(fs.Now()) && !IsTemp(Path(backup, role)) && Path(backup, role) !in fs.dirty && backup in fs.dirs
    modifies fs, fs.calls
    ensures old(fs.calls.failed) <= fs.calls.failed
    ensures st.Done? <==> fs.calls.failed == old(fs.calls.failed) && Path(backup, role) !in fs.refused
    ensures Valid(fs.Now()) && Moves(old(fs.Now()), fs.Now(), {(Path(backup, role), Some(f))})
    ensures backup in old(fs.newDirs) ==> backup in fs.newDirs
    ensures st.Done? ==> Holds(fs.Now(), Path(backup, role), f.data)
    ensures st.Done? ==> fs.files == old(fs.files)[Path(backup, role) := f]
  {
    st := AtomicWrite(fs, Path(backup, role), f);
  }

  method CopyTarget(fs: FileSystem, backup: string, targets: seq<Target>, ghost orig: seq<Option<File>>, i: nat,
                    uid: nat, gid: nat) returns (st: Status)
    requires Valid(fs.Now()) && backup in fs.dirs && WellNamed(targets, backup) && i < |targets| == |orig|
    requires orig[i] == fs.At(targets[i].path)
    requires Copied(fs.Now(), backup, targets, orig, i) && forall p :: p in fs.dirty ==> IsTemp(p)
    requires CopiesAre(fs.files, backup, targets, orig, i, uid, gid)
    modifies fs, fs.calls
    ensures st.Done? ==> CopiesAre(fs.files, backup, targets, orig, i + 1, uid, gid)
    ensures old(fs.calls.failed) <= fs.calls.failed
    ensures st.Done? ==> fs.calls.failed == old(fs.calls.failed)
    ensures fs.calls.failed == old(fs.calls.failed) && targets[i].path !in fs.refused && NoneIn(fs.refused, backup) ==>
      st.Done?
    ensures Valid(fs.Now()) && Outside(old(fs.Now()), fs.Now(), backup)
    ensures backup in old(fs.newDirs) ==> backup in fs.newDirs
    ensures st.Done? ==> targets[i].path !in fs.refused && Copied(fs.Now(), backup, targets, orig, i + 1)
  {
    var t := targets[i];
    if t.path in fs.refused { return Error; }
    if t.path !in fs.files { return Done; }
    var data;
    st, data := fs.Read(t.path);
    if !st.Done? { return; }
    ghost var s := fs.Now();
    var f := File(data, 384, uid, gid);
    st := WriteCopy(fs, backup, t.role, f);
    MovesOutside(s, fs.Now(), Path(backup, t.role), Some(f));
    CopiedOneMore(s, fs.Now(), backup, targets, orig, i, f);
    if st.Done? { CopiesOneMore(s.files, fs.files, backup, targets, orig, i, uid, gid); }
  }

  lemma CopiesOneMore(files: map<Path, File>, files': map<Path, File>, backup: string, targets: seq<Target>,
                      orig: seq<Option<File>>, i: nat, uid: nat, gid: nat)
    requires WellNamed(targets, backup) && i < |targets| == |orig| && orig[i].Some?
    requires CopiesAre(files, backup, targets, orig, i, uid, gid)
    requires files' == files[Path(backup, targets[i].role) := File(orig[i].value.data, 384, uid, gid)]
    ensures CopiesAre(files', backup, targets, orig, i + 1, uid, gid)
  {}

  lemma CopiedOneMore(s: State, t: State, backup: string, targets: seq<Target>, orig: seq<Option<File>>, i: nat,
                      f: File)
    requires WellNamed(targets, backup) && i < |targets| == |orig| && Copied(s, backup, targets, orig, i)
    requires Moves(s, t, {(Path(backup, targets[i].role), Some(f))}) && orig[i].Some? && f.data == orig[i].value.data
    ensures Holds(t, Path(backup, targets[i].role), f.data) ==> Copied(t, backup, targets, orig, i + 1)
  {
    forall j | 0 <= j < i && orig[j].Some? ensures Holds(t, Path(backup, targets[j].role), orig[j].value.data) {
      MovesHolds(s, t, {(Path(backup, targets[i].role), Some(f))}, Path(backup, targets[j].role), orig[j].value.data);
    }
  }

  /** The checks refuse nothing in that directory. */
  predicate NoneIn(refused: set<Path>, dir: string) {
    forall p :: p in refused ==> p.dir != dir
  }

  predicate NoneRefused(targets: seq<Target>, refused: set<Path>) {
    forall i :: 0 <= i < |targets| ==> targets[i].path !in refused
  }

  lemma Sealed(c: Codec, s: State, t: State, backup: string, targets: seq<Target>, orig: seq<Option<File>>, f: File)
    requires |orig| == |targets| && WellNamed(targets, backup) && Copied(s, backup, targets, orig, |targets|)
    requires Moves(s, t, {(Path(backup, JSON), Some(f))})
    requires f.data == c.encode(Manifest(1, EntriesFor(c, targets, orig)))
    ensures Holds(t, Path(backup, JSON), f.data) ==> Intact(c, t, backup, targets, orig)
  {
    forall i | 0 <= i < |targets| && orig[i].Some? ensures Holds(t, Path(backup, targets[i].role), orig[i].value.data) {
      MovesHolds(s, t, {(Path(backup, JSON), Some(f))}, Path(backup, targets[i].role), orig[i].value.data);
    }
  }

  /** The copies of all targets; the manifest grows with them. */
  method CopyAll(fs: FileSystem, c: Codec, backup: string, targets: seq<Target>, uid: nat, gid: nat)
    returns (st: Status, manifest: Manifest)
    requires Valid(fs.Now()) && backup in fs.dirs && WellNamed(targets, backup)
    requires forall p:: p in fs.dirty ==> IsTemp(p)
    modifies fs, fs.calls
    ensures old(fs.calls.failed) <= fs.calls.failed
    ensures st.Done? ==> fs.calls.failed == old(fs.calls.failed)
    ensures (fs.calls.failed == old(fs.calls.failed) && NoneRefused(targets, fs.refused)
             && NoneIn(fs.refused, backup)) ==> st.Done?
    ensures Valid(fs.Now()) && Outside(old(fs.Now()), fs.Now(), backup)
    ensures backup in old(fs.newDirs) ==> backup in fs.newDirs
    ensures st.Done? ==> Copied(fs.Now(), backup, targets, Originals(old(fs.files), targets), |targets|)
    ensures st.Done? ==> CopiesAre(fs.files, backup, targets, Originals(old(fs.files), targets), |targets|, uid, gid)
    ensures st.Done? ==> NoneRefused(targets, fs.refused)
    ensures st.Done? ==> manifest == Manifest(1, EntriesFor(c, targets, Originals(old(fs.files), targets)))
  {
    manifest := Manifest(1, map[]);
    ghost var s0, orig := fs.Now(), Originals(fs.files, targets);
    for i := 0 to |targets|
      invariant Valid(fs.Now()) && Outside(s0, fs.Now(), backup) && Copied(fs.Now(), backup, targets, orig, i)
      invariant backup in s0.newDirs ==> backup in fs.newDirs
      invariant CopiesAre(fs.files, backup, targets, orig, i, uid, gid)
      invariant manifest == Manifest(1, EntriesFor(c, targets[..i], orig[..i]))
      invariant forall j :: 0 <= j < i ==> targets[j].path !in fs.refused
      invariant fs.calls.failed == old(fs.calls.failed)
    {
      ghost var s := fs.Now();
      st := CopyTarget(fs, backup, targets, orig, i, uid, gid);
      OutsideTransitive(s0, s, fs.Now(), backup);
      if !st.Done? { return; }
      assert targets[..i + 1][..i] == targets[..i] && orig[..i + 1][..i] == orig[..i];
      manifest := Manifest(1, manifest.entries[targets[i].role := EntryFor(c, targets[i], fs.At(targets[i].path))]);
    }
    assert targets[..|targets|] == targets && orig[..|targets|] == orig;
    st := Done;
  }

  /** backup_set: whatever happens no target changes, and an existing backup is not overwritten. When it
      returns, the backup of what the targets held is complete, and only the loss of its directory can
      touch it; but the entry of that directory is never flushed, so a power loss can. */
  method BackupSet(fs: FileSystem, c: Codec, backup: string, targets: seq<Target>, uid: nat, gid: nat)
    returns (st: Status, manifest: Manifest)
    requires Valid(fs.Now()) && WellNamed(targets, backup) && forall p :: p in fs.dirty ==> IsTemp(p)
    modifies fs, fs.calls
    ensures old(fs.calls.failed) <= fs.calls.failed
    ensures st.Done? ==> fs.calls.failed == old(fs.calls.failed)
    ensures (fs.calls.failed == old(fs.calls.failed) && NoneRefused(targets, fs.refused)
             && NoneIn(fs.refused, backup)) ==>
      (st.Done? <==> backup !in old(fs.dirs) && DirName(backup) in old(fs.dirs))
    ensures Valid(fs.Now()) && Outside(old(fs.Now()), fs.Now(), backup)
    ensures backup in old(fs.dirs) ==> !st.Done? && fs.Now() == old(fs.Now())
    ensures st.Done? ==> Intact(c, fs.Now(), backup, targets, Originals(old(fs.files), targets))
    ensures st.Done? ==> NoneRefused(targets, fs.refused)
    ensures st.Done? ==> manifest == Manifest(1, EntriesFor(c, targets, Originals(old(fs.files), targets)))
    ensures st.Done? ==> AtRisk(fs.newDirs, backup)
    ensures st.Done? ==> IsBackup(c, old(fs.files), fs.files, backup, targets, manifest, uid, gid)
  {
    manifest := Manifest(1, map[]);
    ghost var s0, orig := fs.Now(), Originals(fs.files, targets);
    st := MakeBackupDir(fs, backup);
    if !st.Done? { return; }
    ghost var s1 := fs.Now();
    st, manifest := CopyAll(fs, c, backup, targets, uid, gid);
    ghost var s2 := fs.Now();
    OutsideTransitive(s0, s1, s2, backup);
    if !st.Done? { return; }
    JsonIsNoTemp(backup);
    var f := File(c.encode(manifest), 384, uid, gid);
    st := WriteCopy(fs, backup, JSON, f);
    MovesOutside(s2, fs.Now(), Path(backup, JSON), Some(f));
    OutsideTransitive(s0, s2, fs.Now(), backup);
    Sealed(c, s2, fs.Now(), backup, targets, orig, f);
    if st.Done? { BackupIs(c, s0.files, s2.files, fs.files, backup, targets, manifest, uid, gid); }
  }

  /** What the record says of a target: where it is, and if it is a file its digest, mode and owner. */
  predicate Records(c: Codec, e: Entry, t: Target, x: Option<File>) {
    && e.path == t.path
    && match x
       case None => e.Absent?
       case Some(f) => e.Present? && e.sha == c.sha(f.data) && e.mode == f.mode && e.uid == f.uid && e.gid == f.gid
  }

  /** The whole backup: a copy of every file, and the record of every target, as text. */
  predicate IsBackup(c: Codec, before: map<Path, File>, files: map<Path, File>, backup: string, targets: seq<Target>,
                     manifest: Manifest, uid: nat, gid: nat) {
    && Look(files, Path(backup, "backup.json")) == Some(File(c.encode(manifest), 0x180, uid, gid))
    && manifest.schema == 1
    && (forall role :: role in manifest.entries ==> exists i :: 0 <= i < |targets| && targets[i].role == role)
    && forall i :: 0 <= i < |targets| ==>
         && targets[i].role in manifest.entries
         && Records(c, manifest.entries[targets[i].role], targets[i], Look(before, targets[i].path))
         && (targets[i].path in before ==>
               Look(files, Path(backup, targets[i].role)) == Some(File(before[targets[i].path].data, 0x180, uid, gid)))
  }

  lemma BackupIs(c: Codec, before: map<Path, File>, copied: map<Path, File>, files: map<Path, File>, backup: string,
                 targets: seq<Target>, manifest: Manifest, uid: nat, gid: nat)
    requires WellNamed(targets, backup)
    requires CopiesAre(copied, backup, targets, Originals(before, targets), |targets|, uid, gid)
    requires manifest == Manifest(1, EntriesFor(c, targets, Originals(before, targets)))
    requires files == copied[Path(backup, JSON) := File(c.encode(manifest), 384, uid, gid)]
    ensures IsBackup(c, before, files, backup, targets, manifest, uid, gid)
  {
    var orig := Originals(before, targets);
    EntryKeys(c, targets, orig);
    forall role | role in manifest.entries ensures exists i :: 0 <= i < |targets| && targets[i].role == role {
      assert role in Roles(targets);
    }
    forall i | 0 <= i < |targets|
      ensures targets[i].role in manifest.entries
      ensures Records(c, manifest.entries[targets[i].role], targets[i], Look(before, targets[i].path))
      ensures targets[i].path in before ==>
        Look(files, Path(backup, targets[i].role)) == Some(File(before[targets[i].path].data, 0x180, uid, gid))
    {
      EntryAt(c, targets, orig, i, backup);
    }
  }

  method MakeBackupDir(fs: FileSystem, backup: string) returns (st: Status)
    requires Valid(fs.Now())
    modifies fs`dirs, fs`newDirs, fs.calls
    ensures old(fs.calls.failed) <= fs.calls.failed
    ensures st.Done? <==>
      fs.calls.failed == old(fs.calls.failed) && backup !in old(fs.dirs) && DirName(backup) in old(fs.dirs)
    ensures Valid(fs.Now()) && Outside(old(fs.Now()), fs.Now(), backup)
    ensures backup in old(fs.dirs) ==> !st.Done?
    ensures st.Done? ==> backup in fs.dirs && backup in fs.newDirs
    ensures !st.Done? ==> fs.Now() == old(fs.Now())
  {
    ghost var s := fs.Now();
    st := fs.MkDir(backup);
    forall d | AtRisk(fs.newDirs, d) && d in s.dirs ensures AtRisk(s.newDirs, d) {
      if st.Done? { NewDirRisk(s, backup, d); }
    }
  }

  // ---- the restore --------------------------------------------------------------------------

  /** What restore_set checks of one target before it changes anything. */
  predicate EntryVerifies(c: Codec, files: map<Path, File>, refused: set<Path>, backup: string, t: Target, e: Entry) {
    && t.path !in refused && e.path == t.path
    && (e.Present? ==> Path(backup, t.role) in files && c.sha(files[Path(backup, t.role)].data) == e.sha)
  }

  predicate Verifies(c: Codec, files: map<Path, File>, refused: set<Path>, backup: string, targets: seq<Target>) {
    && Path(backup, JSON) in files
    && var m := c.decode(files[Path(backup, JSON)].data);
    && m.Some? && m.value.schema == 1 && m.value.entries.Keys == Roles(targets)
    && forall i :: 0 <= i < |targets| ==>
         && targets[i].role in m.value.entries
         && EntryVerifies(c, files, refused, backup, targets[i], m.value.entries[targets[i].role])
  }

  function Restored(files: map<Path, File>, backup: string, t: Target, e: Entry): Option<File>
    requires e.Present? ==> Path(backup, t.role) in files
  {
    if e.Present? then Some(File(files[Path(backup, t.role)].data, e.mode, e.uid, e.gid)) else None
  }

  /** What the backup says every target held. */
  function Recorded(c: Codec, files: map<Path, File>, refused: set<Path>, backup: string, targets: seq<Target>)
    : seq<Option<File>>
    requires Verifies(c, files, refused, backup, targets)
  {
    var m := c.decode(files[Path(backup, JSON)].data).value.entries;
    seq(|targets|, i requires 0 <= i < |targets| => Restored(files, backup, targets[i], m[targets[i].role]))
  }

  method VerifyTarget(fs: FileSystem, c: Codec, backup: string, t: Target, e: Entry)
    returns (st: Status, want: Option<File>)
    modifies fs.calls
    ensures old(fs.calls.failed) <= fs.calls.failed
    ensures st.Done? <==>
      fs.calls.failed == old(fs.calls.failed) && EntryVerifies(c, fs.files, fs.refused, backup, t, e)
    ensures st.Done? ==> EntryVerifies(c, fs.files, fs.refused, backup, t, e)
    ensures st.Done? ==> want == Restored(fs.files, backup, t, e)
  {
    want := None;
    if t.path in fs.refused || e.path != t.path { return Error, None; }
    st := Done;
    if e.Present? {
      var data;
      st, data := fs.Read(Path(backup, t.role));
      if !st.Done? { return; }
      if c.sha(data) != e.sha { return Error, None; }
      want := Some(File(data, e.mode, e.uid, e.gid));
    }
  }

  method Verify(fs: FileSystem, c: Codec, backup: string, targets: seq<Target>)
    returns (st: Status, wants: seq<Option<File>>)
    modifies fs.calls
    ensures old(fs.calls.failed) <= fs.calls.failed
    ensures st.Done? <==>
      fs.calls.failed == old(fs.calls.failed) && Verifies(c, fs.files, fs.refused, backup, targets)
    ensures st.Done? ==> Verifies(c, fs.files, fs.refused, backup, targets)
    ensures st.Done? ==> wants == Recorded(c, fs.files, fs.refused, backup, targets)
  {
    wants := [];
    var text;
    st, text := fs.Read(Path(backup, JSON));
    if !st.Done? { return; }
    var m := c.decode(text);
    if m.None? || m.value.schema != 1 || m.value.entries.Keys != Roles(targets) { return Error, []; }
    var entries := m.value.entries;
    for i := 0 to |targets|
      invariant |wants| == i
      invariant fs.calls.failed == old(fs.calls.failed)
      invariant forall j :: 0 <= j < i ==>
        && targets[j].role in entries
        && EntryVerifies(c, fs.files, fs.refused, backup, targets[j], entries[targets[j].role])
        && wants[j] == Restored(fs.files, backup, targets[j], entries[targets[j].role])
    {
      assert targets[i].role in Roles(targets);
      var want;
      st, want := VerifyTarget(fs, c, backup, targets[i], entries[targets[i].role]);
      if !st.Done? { return; }
      wants := wants + [want];
    }
    st := Done;
  }

  /** The record and the copies agree: the record is of schema 1 and names exactly the targets' roles, each with its
      path, and every copy of a file has the recorded digest. */
  predicate Agrees(c: Codec, files: map<Path, File>, refused: set<Path>, backup: string, targets: seq<Target>) {
    && Path(backup, "backup.json") in files
    && var m := c.decode(files[Path(backup, "backup.json")].data);
    && m.Some? && m.value.schema == 1
    && (forall role :: role in m.value.entries ==> exists i :: 0 <= i < |targets| && targets[i].role == role)
    && forall i :: 0 <= i < |targets| ==> CopyAgrees(c, files, refused, backup, targets[i], m.value.entries)
  }

  predicate CopyAgrees(c: Codec, files: map<Path, File>, refused: set<Path>, backup: string, t: Target,
                       entries: map<string, Entry>) {
    && t.path !in refused && t.role in entries && entries[t.role].path == t.path
    && match entries[t.role]
       case Absent(_) => true
       case Present(_, sha, _, _, _) => Path(backup, t.role) in files && c.sha(files[Path(backup, t.role)].data) == sha
  }

  lemma VerifiesIsAgrees(c: Codec, files: map<Path, File>, refused: set<Path>, backup: string, targets: seq<Target>)
    ensures Verifies(c, files, refused, backup, targets) <==> Agrees(c, files, refused, backup, targets)
  {
    if Path(backup, JSON) in files && c.decode(files[Path(backup, JSON)].data).Some? {
      var entries := c.decode(files[Path(backup, JSON)].data).value.entries;
      assert forall i :: 0 <= i < |targets| ==> targets[i].role in Roles(targets);
      if Agrees(c, files, refused, backup, targets) {
        assert forall i :: 0 <= i < |targets| ==> CopyAgrees(c, files, refused, backup, targets[i], entries);
        assert entries.Keys == Roles(targets);
      }
      forall i | 0 <= i < |targets| && targets[i].role in entries
        ensures CopyAgrees(c, files, refused, backup, targets[i], entries)
           <==> EntryVerifies(c, files, refused, backup, targets[i], entries[targets[i].role])
      {}
    }
  }

  /** The target is what its entry says: the copy, of the recorded digest, mode and owner, or nothing. */
  predicate AsRecorded(c: Codec, before: map<Path, File>, files: map<Path, File>, backup: string, t: Target,
                       entries: map<string, Entry>) {
    && t.role in entries
    && match entries[t.role]
       case Absent(_) => t.path !in files
       case Present(_, sha, mode, uid, gid) =>
         && t.path in files && Path(backup, t.role) in before && files[t.path].data == before[Path(backup, t.role)].data
         && c.sha(files[t.path].data) == sha
         && files[t.path].mode == mode && files[t.path].uid == uid && files[t.path].gid == gid
  }

  lemma RestoredAsRecorded(c: Codec, before: map<Path, File>, refused: set<Path>, backup: string, targets: seq<Target>,
                           files: map<Path, File>)
    requires Verifies(c, before, refused, backup, targets)
    requires AllAt(files, targets, Recorded(c, before, refused, backup, targets))
    ensures var entries := c.decode(before[Path(backup, JSON)].data).value.entries;
      forall i :: 0 <= i < |targets| ==> AsRecorded(c, before, files, backup, targets[i], entries)
  {
    var entries := c.decode(before[Path(backup, JSON)].data).value.entries;
    forall i | 0 <= i < |targets| ensures AsRecorded(c, before, files, backup, targets[i], entries) {
      assert Look(files, targets[i].path) == Restored(before, backup, targets[i], entries[targets[i].role]);
    }
  }

  /** restore_set: a backup that does not verify changes no file at all; otherwise, wherever it
      stops, every target holds what it held or what the backup says. When it returns, every target holds
      what the backup says, and that survives a power loss exactly as `Lasts` says. */
  method RestoreSet(fs: FileSystem, c: Codec, backup: string, targets: seq<Target>) returns (st: Status)
    requires Valid(fs.Now()) && WellNamed(targets, backup)
    modifies fs, fs.calls
    ensures old(fs.calls.failed) <= fs.calls.failed
    ensures st.Done? <==>
      fs.calls.failed == old(fs.calls.failed) && Verifies(c, old(fs.files), fs.refused, backup, targets)
    ensures Valid(fs.Now())
    ensures !Verifies(c, old(fs.files), fs.refused, backup, targets) ==> !st.Done? && fs.Now() == old(fs.Now())
    ensures Verifies(c, old(fs.files), fs.refused, backup, targets) ==>
      var wants := Recorded(c, old(fs.files), fs.refused, backup, targets);
      && Moves(old(fs.Now()), fs.Now(), WritesOf(targets, wants))
      && (st.Done? ==> AllAt(fs.files, targets, wants))
      && (st.Done? ==> forall i :: 0 <= i < |targets| && targets[i].path !in old(fs.dirty) ==>
            (Settled(fs.Now(), targets[i].path, wants[i]) <==> Lasts(old(fs.Now()), targets, wants, i)))
    ensures !Agrees(c, old(fs.files), fs.refused, backup, targets) ==> !st.Done? && fs.Now() == old(fs.Now())
    ensures Agrees(c, old(fs.files), fs.refused, backup, targets) && fs.calls.failed == old(fs.calls.failed) ==>
      st.Done?
    ensures st.Done? ==>
      && Agrees(c, old(fs.files), fs.refused, backup, targets)
      && var entries := c.decode(old(fs.files)[Path(backup, "backup.json")].data).value.entries;
         forall i :: 0 <= i < |targets| ==> AsRecorded(c, old(fs.files), fs.files, backup, targets[i], entries)
  {
    ghost var files := fs.files;
    VerifiesIsAgrees(c, files, fs.refused, backup, targets);
    var wants;
    st, wants := Verify(fs, c, backup, targets);
    if !st.Done? { return; }
    st := WriteAll(fs, targets, wants, backup);
    if st.Done? { RestoredAsRecorded(c, files, fs.refused, backup, targets, fs.files); }
  }

  /** A complete backup verifies, and says exactly what was backed up. */
  lemma IntactVerifies(c: Codec, s: State, refused: set<Path>, backup: string, targets: seq<Target>,
                       orig: seq<Option<File>>)
    requires RoundTrips(c) && |orig| == |targets| && WellNamed(targets, backup) && NoneRefused(targets, refused)
    requires Intact(c, s, backup, targets, orig)
    ensures Verifies(c, s.files, refused, backup, targets)
    ensures Recorded(c, s.files, refused, backup, targets) == orig
  {
    var json := Path(backup, JSON);
    assert CanShow(s, json, Look(s.files, json));
    EntryKeys(c, targets, orig);
    forall i | 0 <= i < |targets|
      ensures var e := EntryFor(c, targets[i], orig[i]);
        && targets[i].role in EntriesFor(c, targets, orig) && EntriesFor(c, targets, orig)[targets[i].role] == e
        && EntryVerifies(c, s.files, refused, backup, targets[i], e)
        && Restored(s.files, backup, targets[i], e) == orig[i]
    {
      EntryAt(c, targets, orig, i, backup);
      var p := Path(backup, targets[i].role);
      assert CanShow(s, p, Look(s.files, p));
    }
  }

  // ---- the install and the whole story ------------------------------------------------------

  const SERVERS: set<string> := {"virgl_test_server", "virgl_render_server"}

  function Installed(t: Target, data: Bytes, uid: nat, gid: nat, sysUid: nat, sysGid: nat): File {
    var user := EndsWith(t.role, ".conf");
    File(data, if t.role in SERVERS then 493 else 420, if user then uid else sysUid, if user then gid else sysGid)
  }

  function News(targets: seq<Target>, data: seq<Bytes>, uid: nat, gid: nat, sysUid: nat, sysGid: nat): seq<Option<File>>
    requires |data| == |targets|
  {
    seq(|targets|, i requires 0 <= i < |targets| => Some(Installed(targets[i], data[i], uid, gid, sysUid, sysGid)))
  }

  /** The installed file of a role: the two servers may be executed, and what ends in .conf is the user's. */
  predicate IsInstalled(files: map<Path, File>, t: Target, data: Bytes, uid: nat, gid: nat, sysUid: nat, sysGid: nat) {
    && t.path in files && files[t.path].data == data
    && (t.role == "virgl_test_server" || t.role == "virgl_render_server" ==> files[t.path].mode == 0x1ED)
    && (t.role != "virgl_test_server" && t.role != "virgl_render_server" ==> files[t.path].mode == 0x1A4)
    && if |t.role| >= 5 && t.role[|t.role| - 5..] == ".conf" then files[t.path].uid == uid && files[t.path].gid == gid
       else files[t.path].uid == sysUid && files[t.path].gid == sysGid
  }

  method InstallSet(fs: FileSystem, targets: seq<Target>, data: seq<Bytes>, uid: nat, gid: nat, sysUid: nat,
                    sysGid: nat, ghost backup: string) returns (st: Status)
    requires Valid(fs.Now()) && |data| == |targets| && WellNamed(targets, backup)
    modifies fs, fs.calls
    ensures old(fs.calls.failed) <= fs.calls.failed
    ensures st.Done? ==> fs.calls.failed == old(fs.calls.failed)
    ensures fs.calls.failed == old(fs.calls.failed) && NoneRefused(targets, fs.refused) ==> st.Done?
    ensures Valid(fs.Now())
    ensures Moves(old(fs.Now()), fs.Now(), WritesOf(targets, News(targets, data, uid, gid, sysUid, sysGid)))
    ensures st.Done? ==> AllAt(fs.files, targets, News(targets, data, uid, gid, sysUid, sysGid))
    ensures st.Done? ==> forall i :: 0 <= i < |targets| ==>
      IsInstalled(fs.files, targets[i], data[i], uid, gid, sysUid, sysGid)
  {
    st := WriteAll(fs, targets, News(targets, data, uid, gid, sysUid, sysGid), backup);
  }

  /** Every target is whole: the original or the new file, now and after a power loss. */
  ghost predicate Whole(s: State, targets: seq<Target>, orig: seq<Option<File>>, news: seq<Option<File>>)
    requires |orig| == |targets| == |news|
  {
    forall i, x :: 0 <= i < |targets| && CanShow(s, targets[i].path, x) ==> x == orig[i] || x == news[i]
  }

  lemma WriteOf(targets: seq<Target>, wants: seq<Option<File>>, backup: string, i: nat, x: Option<File>)
    requires |wants| == |targets| && WellNamed(targets, backup) && i < |targets|
    ensures (targets[i].path, x) in WritesOf(targets, wants) <==> x == wants[i]
  {
    if (targets[i].path, x) in WritesOf(targets, wants) {
      var j :| 0 <= j < |targets| && (targets[j].path, wants[j]) == (targets[i].path, x);
    }
  }

  lemma WholeKept(s: State, t: State, backup: string, targets: seq<Target>, orig: seq<Option<File>>,
                  news: seq<Option<File>>, wants: seq<Option<File>>)
    requires Valid(s) && |orig| == |targets| == |news| && (wants == orig || wants == news) && WellNamed(targets, backup)
    requires Whole(s, targets, orig, news) && Moves(s, t, WritesOf(targets, wants))
    ensures Whole(t, targets, orig, news)
  {
    forall i, x | 0 <= i < |targets| && CanShow(t, targets[i].path, x) ensures x == orig[i] || x == news[i] {
      MovesShow(s, t, WritesOf(targets, wants), targets[i].path, x);
      WriteOf(targets, wants, backup, i, x);
    }
  }

  lemma WholeOutside(s: State, t: State, backup: string, targets: seq<Target>, orig: seq<Option<File>>,
                     news: seq<Option<File>>)
    requires Valid(s) && |orig| == |targets| == |news| && WellNamed(targets, backup)
    requires Whole(s, targets, orig, news) && Outside(s, t, backup)
    ensures Whole(t, targets, orig, news)
  {
    forall i, x | 0 <= i < |targets| && CanShow(t, targets[i].path, x) ensures CanShow(s, targets[i].path, x) {}
  }

  /** Nothing in the backup directory, not even an entry that may come back. */
  ghost predicate Forgotten(s: State, backup: string) {
    && Gone(s.files, backup)
    && (forall p, y :: (p, y) in s.stale ==> p.dir != backup)
    && forall p :: p in s.dirty ==> p.dir != backup
  }

  /** The targets are whole, and the backup is intact or was lost as a whole. */
  ghost predicate Ready(c: Codec, s: State, backup: string, targets: seq<Target>, orig: seq<Option<File>>,
                        news: seq<Option<File>>, lost: bool)
    requires |orig| == |targets| == |news|
  {
    && Valid(s) && Whole(s, targets, orig, news) && (forall p :: p in s.dirty ==> IsTemp(p))
    && if lost then Forgotten(s, backup) else Intact(c, s, backup, targets, orig)
  }

  lemma LossKeepsWhole(s: State, t: State, lost: set<string>, targets: seq<Target>, orig: seq<Option<File>>,
                       news: seq<Option<File>>)
    requires |orig| == |targets| == |news| && Whole(s, targets, orig, news) && Survives(s, t, lost)
    ensures Whole(t, targets, orig, news)
  {
    forall i, x | 0 <= i < |targets| && CanShow(t, targets[i].path, x) ensures CanShow(s, targets[i].path, x) {
      NoRisk(targets[i].path.dir);
      LossShows(s, t, lost, targets[i].path);
    }
  }

  lemma ReadyAfterLoss(c: Codec, s: State, t: State, backup: string, targets: seq<Target>, orig: seq<Option<File>>,
                       news: seq<Option<File>>, was: bool) returns (lost: bool)
    requires |orig| == |targets| == |news| && Ready(c, s, backup, targets, orig, news, was) && AfterLoss(s, t)
    ensures Ready(c, t, backup, targets, orig, news, lost)
    ensures lost ==> was || AtRisk(s.newDirs, backup)
  {
    var dirs :| Survives(s, t, dirs);
    LossValid(s, t, dirs);
    LossKeepsWhole(s, t, dirs, targets, orig, news);
    if was {
      forall p | p in t.files ensures p.dir != backup { assert MayBe(s, p, Look(t.files, p)); }
      lost := true;
    } else {
      LossOfBackup(c, s, t, dirs, backup, targets, orig);
      lost := AtRisk(dirs, backup);
      if lost { RiskGrows(dirs, s.newDirs, backup); }
    }
  }

  /** One restore: of an intact backup, or refused without one. */
  method RestoreOnce(fs: FileSystem, c: Codec, backup: string, targets: seq<Target>, ghost orig: seq<Option<File>>,
                     ghost news: seq<Option<File>>, ghost lost: bool) returns (st: Status)
    requires RoundTrips(c) && |orig| == |targets| == |news|
    requires WellNamed(targets, backup)&& NoneRefused(targets, fs.refused)
    requires Ready(c, fs.Now(), backup, targets, orig, news, lost)
    modifies fs, fs.calls
    ensures old(fs.calls.failed) <= fs.calls.failed
    ensures st.Done? ==> fs.calls.failed == old(fs.calls.failed)
    ensures fs.calls.failed == old(fs.calls.failed) && !lost ==> st.Done?
    ensures Ready(c, fs.Now(), backup, targets, orig, news, lost)
    ensures lost ==> !st.Done?
    ensures st.Done? ==> AllAt(fs.files, targets, orig)
    ensures st.Done? ==> forall i :: 0 <= i < |targets| ==>
      (Settled(fs.Now(), targets[i].path, orig[i]) <==> Lasts(old(fs.Now()), targets, orig, i))
  {
    ghost var s := fs.Now();
    if !lost { IntactVerifies(c, s, fs.refused, backup, targets, orig); }
    st := RestoreSet(fs, c, backup, targets);
    if !lost {
      WholeKept(s, fs.Now(), backup, targets, orig, news, orig);
      IntactKept(c, s, fs.Now(), backup, targets, orig, orig);
    }
  }

  /** The power may fail, or not. */
  method Outage(fs: FileSystem, ghost c: Codec, ghost backup: string, ghost targets: seq<Target>,
                ghost orig: seq<Option<File>>, ghost news: seq<Option<File>>, ghost was: bool)
    returns (ghost lost: bool, power: bool)
    requires |orig| == |targets| == |news| && Ready(c, fs.Now(), backup, targets, orig, news, was)
    modifies fs
    ensures Ready(c, fs.Now(), backup, targets, orig, news, lost)
    ensures !power ==> lost == was && fs.Now() == old(fs.Now())
    ensures lost ==> was || AtRisk(old(fs.newDirs), backup)
  {
    ghost var s := fs.Now();
    power, lost := *, was;
    if power {
      fs.Reboot();
      lost := ReadyAfterLoss(c, s, fs.Now(), backup, targets, orig, news, was);
    }
  }

  /** Restores, each of which may be stopped anywhere and may follow a power loss, until one returns. */
  method Attempts(fs: FileSystem, c: Codec, backup: string, targets: seq<Target>, attempts: nat,
                  ghost orig: seq<Option<File>>, ghost news: seq<Option<File>>)
    returns (st: Status, powerFailed: bool, ghost lost: bool, ghost before: State)
    requires RoundTrips(c) && |orig| == |targets| == |news| && WellNamed(targets, backup)
    requires NoneRefused(targets, fs.refused) && Ready(c, fs.Now(), backup, targets, orig, news, false)
    modifies fs, fs.calls
    ensures old(fs.calls.failed) <= fs.calls.failed
    ensures Ready(c, fs.Now(), backup, targets, orig, news, lost) && (lost ==> powerFailed && !st.Done?)
    ensures st.Done? ==> AllAt(fs.files, targets, orig)
    ensures st.Done? ==> forall i :: 0 <= i < |targets| ==>
      (Settled(fs.Now(), targets[i].path, orig[i]) <==> Lasts(before, targets, orig, i))
    ensures fs.calls.failed == old(fs.calls.failed) && !powerFailed && attempts > 0 ==> st.Done?
  {
    st, powerFailed, lost, before := Error, false, false, fs.Now();
    for k := 0 to attempts
      invariant Ready(c, fs.Now(), backup, targets, orig, news, lost) && !st.Done? && (lost ==> powerFailed)
      invariant old(fs.calls.failed) <= fs.calls.failed
      invariant k > 0 && !powerFailed ==> fs.calls.failed > old(fs.calls.failed)
    {
      var power;
      lost, power := Outage(fs, c, backup, targets, orig, news, lost);
      powerFailed := powerFailed || power;
      before := fs.Now();
      st := RestoreOnce(fs, c, backup, targets, orig, news, lost);
      if st.Done? { return; }
    }
  }

  /** Backup, an install stopped anywhere (by an error, a kill or a power loss), and restores each of
      which may be stopped anywhere too. At no point does a target hold anything but its original or its
      new file. A restore that returns gives every target back its original existence, bytes, mode and
      owner, which survives a further power loss exactly as `Lasts` says (`before` is the state it
      started from). Only a power loss can take the backup (`lost`), and then no restore returns. */
  method Session(fs: FileSystem, c: Codec, backup: string, targets: seq<Target>, data: seq<Bytes>,
                 uid: nat, gid: nat, sysUid: nat, sysGid: nat, attempts: nat)
    returns (st: Status, made: bool, powerFailed: bool, ghost lost: bool, ghost before: State)
    requires RoundTrips(c) && |data| == |targets| && WellNamed(targets, backup)
    requires Valid(fs.Now()) && forall p :: p in fs.dirty ==> IsTemp(p)
    requires forall i :: 0 <= i < |targets| ==> Settled(fs.Now(), targets[i].path, fs.At(targets[i].path))
    modifies fs, fs.calls
    ensures && fs.calls.failed == old(fs.calls.failed) && !powerFailed && attempts > 0
      && NoneRefused(targets, fs.refused) && NoneIn(fs.refused, backup)
      && backup !in old(fs.dirs) && DirName(backup) in old(fs.dirs)
      ==> st.Done?
    ensures var orig, news := Originals(old(fs.files), targets), News(targets, data, uid, gid, sysUid, sysGid);
      && Whole(fs.Now(), targets, orig, news)
      && (made ==> Ready(c, fs.Now(), backup, targets, orig, news, lost))
      && (st.Done? ==> made && AllAt(fs.files, targets, orig))
      && (st.Done? ==> forall i :: 0 <= i < |targets| ==>
            (Settled(fs.Now(), targets[i].path, orig[i]) <==> Lasts(before, targets, orig, i)))
    ensures lost ==> powerFailed && !st.Done?
  {
    ghost var orig, news := Originals(fs.files, targets), News(targets, data, uid, gid, sysUid, sysGid);
    ghost var s0 := fs.Now();
    before, lost, powerFailed, made := s0, false, false, false;
    var manifest;
    st, manifest := BackupSet(fs, c, backup, targets, uid, gid);
    assert Whole(s0, targets, orig, news);
    WholeOutside(s0, fs.Now(), backup, targets, orig, news);
    if !st.Done? { return; }
    made := true;
    ghost var s := fs.Now();
    st := InstallSet(fs, targets, data, uid, gid, sysUid, sysGid, backup);
    WholeKept(s, fs.Now(), backup, targets, orig, news, news);
    IntactKept(c, s, fs.Now(), backup, targets, orig, news);
    st, powerFailed, lost, before := Attempts(fs, c, backup, targets, attempts, orig, news);
  }
}
