/** A file system with the calls an atomic replacement is made of. Every call may fail, and the
    process may be killed at it; a power loss leaves what the calls so far allow. */
module Disk {
  import opened ForeignCalls
  import opened Options
  import opened Strings

  type byte = b: nat | b < 256
  type Bytes = seq<byte>

  datatype Path = Path(dir: string, name: string)

  datatype File = File(data: Bytes, mode: nat, uid: nat, gid: nat)

  /** How a call ends: it did its work, it raised OSError, or the process died there. */
  datatype Status = Done | Error | Crash

  /** The names mkstemp makes. */
  predicate IsTemp(p: Path) { StartsWith(p.name, ".nvwd-") }

  function Look(files: map<Path, File>, p: Path): Option<File> {
    if p in files then Some(files[p]) else None
  }

  /** What is there, and what has not reached the disk: `stale` are file entries a power loss may
      bring back (their directory has not been flushed since they were replaced or removed),
      `dirty` are files with unflushed bytes, mode or owner, `newDirs` are directories whose own entry
      has not been flushed, so that a power loss may take them with all they hold. */
  datatype State = State(files: map<Path, File>, stale: set<(Path, Option<File>)>, dirty: set<Path>,
                         dirs: set<string>, newDirs: set<string>)

  /** The directory or one it lies in is among these. */
  predicate AtRisk(newDirs: set<string>, dir: string)
    decreases |dir|
  {
    dir in newDirs || (dir != "" && AtRisk(newDirs, DirName(dir)))
  }

  predicate Valid(s: State) {
    && "" in s.dirs && "" !in s.newDirs && s.newDirs <= s.dirs
    && (forall d :: d in s.dirs ==> DirName(d) in s.dirs)
    && (forall p :: p in s.files ==> p.dir in s.dirs)
    && (forall e :: e in s.stale ==> e.0.dir in s.dirs)
    && (forall p :: p in s.dirty ==> p.dir in s.dirs)
  }

  /** After a power loss now, `x` may be what is at `p`. */
  predicate CanShow(s: State, p: Path, x: Option<File>) {
    p in s.dirty || x == Look(s.files, p) || (p, x) in s.stale || (x.None? && AtRisk(s.newDirs, p.dir))
  }

  predicate MayBe(s: State, p: Path, x: Option<File>) {
    p in s.dirty || x == Look(s.files, p) || (p, x) in s.stale
  }

  /** The file system after a power loss that took the directories `lost`. */
  ghost predicate Survives(s: State, t: State, lost: set<string>) {
    && lost <= s.newDirs && t.stale == {} && t.dirty == {} && t.newDirs == {}
    && (forall d :: d in t.dirs <==> d in s.dirs && !AtRisk(lost, d))
    && (forall p: Path :: AtRisk(lost, p.dir) ==> p !in t.files)
    && forall p: Path :: !AtRisk(lost, p.dir) ==> MayBe(s, p, Look(t.files, p))
  }

  ghost predicate AfterLoss(s: State, t: State) {
    exists lost :: Survives(s, t, lost)
  }

  lemma {:induction false} RiskGrows(few: set<string>, many: set<string>, dir: string)
    requires few <= many && AtRisk(few, dir)
    ensures AtRisk(many, dir)
    decreases |dir|
  {
    if dir !in few { RiskGrows(few, many, DirName(dir)); }
  }

  lemma {:induction false} NoRisk(dir: string)
    ensures !AtRisk({}, dir)
    decreases |dir|
  {
    if dir != "" { NoRisk(DirName(dir)); }
  }

  lemma LossShows(s: State, t: State, lost: set<string>, p: Path)
    requires Survives(s, t, lost)
    ensures CanShow(s, p, Look(t.files, p))
  {
    if AtRisk(lost, p.dir) { RiskGrows(lost, s.newDirs, p.dir); }
  }

  lemma LossValid(s: State, t: State, lost: set<string>)
    requires Valid(s) && Survives(s, t, lost)
    ensures Valid(t)
  {
    forall p | p in t.files ensures p.dir in t.dirs { assert MayBe(s, p, Look(t.files, p)); }
  }

  class FileSystem {
    var files: map<Path, File>
    var dirs: set<string>
    var stale: set<(Path, Option<File>)>
    var dirty: set<Path>
    var newDirs: set<string>
    const calls: Calls
    /** Paths that no_symlinks refuses, or that hold something other than a regular file. */
    const refused: set<Path>

    constructor (s: State, refused: set<Path>)
      ensures Now() == s && this.refused == refused && fresh(calls) && calls.failed == 0
    {
      calls := new Calls();
      files, stale, dirty, dirs, newDirs := s.files, s.stale, s.dirty, s.dirs, s.newDirs;
      this.refused := refused;
    }

    function Now(): State
      reads this
    { State(files, stale, dirty, dirs, newDirs) }

    function At(p: Path): Option<File>
      reads this
    { Look(files, p) }

    /** A directory of its own: refused where something is, or where its parent is missing. */
    method MkDir(dir: string) returns (st: Status)
      modifies this`dirs, this`newDirs, calls
      ensures old(calls.failed) <= calls.failed
      ensures st.Done? <==>
        calls.failed == old(calls.failed) && dir !in old(dirs) && DirName(dir) in old(dirs)
      ensures st.Done? ==> dirs == old(dirs) + {dir} && newDirs == old(newDirs) + {dir}
      ensures !st.Done? ==> dirs == old(dirs) && newDirs == old(newDirs)
    {
      st := *;
      calls.Count(st.Done?);
      if st.Done? && (dir in dirs || DirName(dir) !in dirs) { st := Error; }
      if st.Done? { dirs, newDirs := dirs + {dir}, newDirs + {dir}; }
    }

    /** A new file of an unused temporary name. */
    method MkStemp(dir: string) returns (st: Status, p: Path)
      modifies this`files, this`dirty, calls
      ensures old(calls.failed) <= calls.failed
      ensures st.Done? <==> calls.failed == old(calls.failed) && dir in dirs
      ensures st.Done? ==>
        && IsTemp(p) && p.dir == dir && p !in old(files) && dirty == old(dirty) + {p}
        && p in files && files - {p} == old(files)
      ensures !st.Done? ==> files == old(files) && dirty == old(dirty)
    {
      st := *;
      p := *;
      if st.Done? && (!IsTemp(p) || p.dir != dir || p in files) { st := Error; }   // no name was found
      calls.Count(st.Done?);
      if st.Done? && dir !in dirs { st := Error; }
      if st.Done? {
        files, dirty := files[p := File([], 384, 0, 0)], dirty + {p};
      }
    }

    /** Bytes, mode and owner of an open file; a call that does not end may leave any of them. */
    method Fill(p: Path, f: File) returns (st: Status)
      requires p in files
      modifies this`files, this`dirty, calls
      ensures calls.failed == old(calls.failed) + if st.Done? then 0 else 1
      ensures p in files && files == old(files)[p := files[p]] && dirty == old(dirty) + {p}
      ensures st.Done? ==> files[p] == f
    {
      st := *;
      calls.Count(st.Done?);
      var g: File := *;
      files, dirty := files[p := if st.Done? then f else g], dirty + {p};
    }

    method Fsync(p: Path) returns (st: Status)
      requires p in files
      modifies this`dirty, calls
      ensures calls.failed == old(calls.failed) + if st.Done? then 0 else 1
      ensures dirty == if st.Done? then old(dirty) - {p} else old(dirty)
    {
      st := *;
      calls.Count(st.Done?);
      if st.Done? { dirty := dirty - {p}; }
    }

    /** rename(2) over `to`: one step. Until the directory is flushed the old entry may come back. */
    method Replace(from: Path, to: Path) returns (st: Status)
      requires from in files && from != to
      modifies this`files, this`stale, this`dirty, calls
      ensures calls.failed == old(calls.failed) + if st.Done? then 0 else 1
      ensures st.Done? ==>
        && files == old(files)[to := old(files)[from]] - {from}
        && stale == old(stale) + {(to, old(At(to))), (from, old(At(from)))}
        && dirty == if from in old(dirty) then old(dirty) + {to} else old(dirty)
      ensures !st.Done? ==> files == old(files) && stale == old(stale) && dirty == old(dirty)
    {
      st := *;
      calls.Count(st.Done?);
      if st.Done? {
        stale := stale + {(to, At(to)), (from, At(from))};
        if from in dirty { dirty := dirty + {to}; }
        files := files[to := files[from]] - {from};
      }
    }

    /** Flushes a directory: the entries of its files and of its subdirectories. */
    method FsyncDir(dir: string) returns (st: Status)
      modifies this`stale, this`newDirs, calls
      ensures calls.failed == old(calls.failed) + if st.Done? then 0 else 1
      ensures !st.Done? ==> stale == old(stale) && newDirs == old(newDirs)
      ensures st.Done? ==> forall e :: e in stale <==> e in old(stale) && e.0.dir != dir
      ensures st.Done? ==> forall d :: d in newDirs <==> d in old(newDirs) && DirName(d) != dir
    {
      st := *;
      calls.Count(st.Done?);
      if st.Done? {
        stale := set e | e in stale && e.0.dir != dir;
        newDirs := set d | d in newDirs && DirName(d) != dir;
      }
    }

    method Unlink(p: Path) returns (st: Status)
      requires p in files
      modifies this`files, this`stale, calls
      ensures calls.failed == old(calls.failed) + if st.Done? then 0 else 1
      ensures st.Done? ==> files == old(files) - {p} && stale == old(stale) + {(p, old(At(p)))}
      ensures !st.Done? ==> files == old(files) && stale == old(stale)
    {
      st := *;
      calls.Count(st.Done?);
      if st.Done? {
        stale := stale + {(p, At(p))};
        files := files - {p};
      }
    }

    method Read(p: Path) returns (st: Status, data: Bytes)
      modifies calls
      ensures old(calls.failed) <= calls.failed
      ensures st.Done? <==> calls.failed == old(calls.failed) && p in files
      ensures st.Done? ==> data == files[p].data
    {
      st := *;
      calls.Count(st.Done?);
      data := [];
      if p in files { data := files[p].data; } else if st.Done? { st := Error; }
    }

    /** Power loss and restart: any file system the unflushed state allows. */
    method Reboot()
      modifies this
      ensures AfterLoss(old(Now()), Now())
    {
      var after: map<Path, File> := *;
      var lost: set<string> := *;
      ghost var s := Now();
      if lost <= newDirs
         && (forall p :: p in after ==> !AtRisk(lost, p.dir))
         && (forall p :: p in after.Keys + files.Keys && !AtRisk(lost, p.dir) ==> MayBe(Now(), p, Look(after, p))) {
        files, dirs := after, set d | d in dirs && !AtRisk(lost, d);
      } else {
        lost := {};
        forall d: string ensures !AtRisk({}, d) { NoRisk(d); }
      }
      stale, dirty, newDirs := {}, {}, {};
      assert Survives(s, Now(), lost);
    }
  }
}
