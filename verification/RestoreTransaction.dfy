/**
  The panel restore: commitPanelRestore swaps the live database for a candidate and
  rolls back on any error; importPortableBackup runs it and looks after the candidate's
  assets. Every hook may fail at every call.
 */
module RestoreTransaction {

  /** web/service/portable_backup_transaction.go:29 */
  datatype Suffix = Main | Wal | Shm | Journal

  const SUFFIXES := [Main, Wal, Shm, Journal]

  function Index(s: Suffix): (i: nat)
    ensures i < 4 && SUFFIXES[i] == s
  {
    match s case Main => 0 case Wal => 1 case Shm => 2 case Journal => 3
  }

  /** The places a transaction touches: live+suffix, previous+suffix, failed+suffix and the staged candidate. */
  datatype Path = Live(s: Suffix) | Saved(s: Suffix) | Discarded(s: Suffix) | Candidate

  /**
    A file, by where it came from: file s of the predecessor database, or a file of the
    candidate database.
   */
  datatype File = Old(s: Suffix) | New

  type Files = map<Path, File>

  /** Rename is atomic: the target is replaced and the source is gone. */
  function Renamed(fs: Files, a: Path, b: Path): (r: Files)
    requires a in fs && a != b
  {
    fs[b := fs[a]] - {a}
  }

  /** Which configuration the core was last started with. */
  datatype Config = Previous | Next

  datatype Outcome = Committed | Refused | RolledBack | NeedsRecovery

  /**
    The answers of the hooks and system calls on the way forward: the directory, the
    checkpoint, stopping the core (and, if that fails, whether the core is down anyway and
    can be started again), closing the database, looking at and moving aside each of its
    files, installing the candidate and its mode, opening it (and the sidecars that
    creates), starting the core on it, probing the listeners, publishing it and removing
    the predecessor.
   */
  datatype Answers = Answers(made: bool, checkpoint: bool, stopped: bool, halted: bool, restarted: bool,
                             closed: bool, looked: Suffix -> bool, aside: Suffix -> bool,
                             installed: bool, chmod: bool, ready: bool, created: set<Suffix>,
                             started: bool, free: bool, published: bool, swept: bool)

  /**
    The answers on the way back: stopping the core, closing the database (and the sidecars
    that removes), looking at and discarding each file of the candidate, bringing each
    file of the predecessor back, opening it and starting the core on it.
   */
  datatype Undo = Undo(stopped: bool, closed: bool, drops: set<Suffix>, looked: Suffix -> bool, discarded: Suffix -> bool,
                       back: Suffix -> bool, reopened: bool, started: bool)

  /** The core was stopped, so that from here on a failure means a rollback. */
  predicate Begun(a: Answers) {
    a.made && a.checkpoint && a.stopped
  }

  /** Moving aside fails at this file, where the predecessor has the files `present`. */
  predicate Sticks(a: Answers, present: set<Suffix>, s: Suffix) {
    !a.looked(s) || (if s in present then !a.aside(s) else s == Main)
  }

  /** Nothing fails on the way forward; starting the core counts only if it is to run. */
  predicate AllWell(a: Answers, core: bool, present: set<Suffix>) {
    && Begun(a) && IsInstalled(a, present)
    && a.chmod && a.ready && (core ==> a.started) && a.free && a.published
  }

  predicate IsInstalled(a: Answers, present: set<Suffix>) {
    a.closed && (forall s :: !Sticks(a, present, s)) && a.installed
  }

  /** The files that are moved aside: those up to the first that cannot be. */
  predicate IsMoved(a: Answers, present: set<Suffix>, s: Suffix) {
    a.closed && s in present && forall t | Index(t) <= Index(s) :: !Sticks(a, present, t)
  }

  /** The candidate has this file at the live path when it is to be discarded. */
  predicate ToDiscard(a: Answers, u: Undo, s: Suffix) {
    s == Main || (a.chmod && s in a.created && s !in u.drops)
  }

  /** Nothing that is asked for on the way back fails. */
  predicate ComesBack(a: Answers, u: Undo, core: bool, present: set<Suffix>) {
    && u.stopped && u.closed
    && (IsInstalled(a, present) ==> forall s :: u.looked(s) && (ToDiscard(a, u, s) ==> u.discarded(s)))
    && (forall s | IsMoved(a, present, s) :: u.back(s))
    && u.reopened && (core ==> u.started)
  }

  /** That file is at that path. */
  predicate Is(fs: Files, p: Path, f: File) {
    p in fs && fs[p] == f
  }

  /** Files at their live paths are the predecessor's own. */
  ghost predicate PredecessorLive(fs: Files) {
    forall s | Live(s) in fs :: fs[Live(s)] == Old(s)
  }

  /** Nothing in the directory that a transaction creates for itself. */
  ghost predicate NothingSaved(fs: Files) {
    forall s :: Saved(s) !in fs && Discarded(s) !in fs
  }

  /** The predecessor's files, wherever they are. */
  ghost predicate Kept(fs: Files, old_: set<Suffix>) {
    forall s | s in old_ ::
      Is(fs, Live(s), Old(s)) || Is(fs, Saved(s), Old(s))
  }

  ghost predicate AllBack(fs: Files, old_: set<Suffix>) {
    forall s | s in old_ :: Is(fs, Live(s), Old(s))
  }

  /** What a transaction knows while it runs: what it moved away, and whether the candidate is in. */
  ghost predicate InFlight(fs: Files, old_: set<Suffix>, moved: set<Suffix>, installed: bool) {
    && moved <= old_
    && (forall s | s in moved :: Is(fs, Saved(s), Old(s)))
    && (forall s | s in old_ - moved :: Is(fs, Live(s), Old(s)))
    && (forall s | Live(s) in fs :: if installed then fs[Live(s)] == New else s in old_ - moved)
    && (installed ==> moved == old_ && Live(Main) in fs)
  }

  predicate Same(was: Files, fs: Files, p: Path) {
    (p in fs <==> p in was) && (p in fs ==> fs[p] == was[p])
  }

  /** Of the first i files, those that were moved and can be brought back are back; nothing else has changed. */
  ghost predicate Returned(was: Files, fs: Files, moved: set<Suffix>, u: Undo, i: int) {
    forall s :: if s in moved && Index(s) < i && u.back(s) then Is(fs, Live(s), Old(s))
                else Same(was, fs, Live(s)) && Same(was, fs, Saved(s))
  }

  lemma {:induction false} ReturnNext(was: Files, fs: Files, moved: set<Suffix>, u: Undo, s: Suffix)
    requires Returned(was, fs, moved, u, Index(s)) && (s in moved ==> Is(was, Saved(s), Old(s)))
    ensures s in moved ==> Saved(s) in fs
    ensures Returned(was, if s in moved && u.back(s) then Renamed(fs, Saved(s), Live(s)) else fs, moved, u, Index(s) + 1)
  {
    assert Same(was, fs, Saved(s));
    forall t: Suffix
      ensures Index(t) < Index(s) + 1 <==> Index(t) < Index(s) || t == s
    {
      assert SUFFIXES[Index(t)] == t;
    }
  }

  class Panel {
    var files: Files
    /** The predecessor's files that exist: SQLite may drop or recreate its own sidecars. */
    ghost var predecessor: set<Suffix>
    var running: bool
    var config: Config
    var manual: bool
    var published: bool
    var needRestart: bool
    /** Whether the candidate's asset directory is installed. */
    var assets: bool

    ghost predicate Ready()
      reads this
    {
      && PredecessorLive(files) && NothingSaved(files) && !published
      && predecessor == set s | s in SUFFIXES && Live(s) in files
    }

    // -------------------------------------------------------------- hooks

    /** Stopping may fail, whether the core then still runs or not. While the core is handled it counts as manually stopped. */
    method Stop(answer: bool, halted: bool) returns (ok: bool)
      requires manual
      modifies this`running
      ensures ok == answer && running == (old(running) && !answer && !halted)
    {
      ok := answer;
      running := running && !answer && !halted;
    }

    method Start(c: Config, answer: bool) returns (ok: bool)
      requires manual
      modifies this`running, this`config
      ensures ok == answer && (ok ==> running && config == c)
    {
      ok, config := answer, c;
      running := *;
      if ok {
        running := true;
      }
    }

    /** Closing a database may make SQLite remove its own sidecars, those in `drops`. */
    method CloseDB(ghost moved: set<Suffix>, ghost installed: bool, drops: set<Suffix>, answer: bool) returns (ok: bool)
      requires InFlight(files, predecessor, moved, installed) && Main !in drops
      modifies this`files, this`predecessor
      ensures ok == answer && InFlight(files, predecessor, moved, installed)
      ensures predecessor == if installed then old(predecessor) else old(predecessor) - (drops - moved)
      ensures SameOutsideLive(old(files), files)
      ensures forall s :: Live(s) in files <==> Live(s) in old(files) && s !in drops
    {
      ok := answer;
      files := map p | p in files && !(p.Live? && p.s in drops) :: files[p];
      if !installed {
        predecessor := predecessor - (drops - moved);
      }
    }

    /** Opening the predecessor may recreate its files. */
    method OpenDB(answer: bool) returns (ok: bool)
      modifies this`files, this`predecessor
      ensures ok == answer && old(predecessor) <= predecessor
      ensures SameOutsideLive(old(files), files)
      ensures forall s | Live(s) in old(files) :: Live(s) in files && files[Live(s)] == old(files)[Live(s)]
      ensures forall s | Live(s) in files && Live(s) !in old(files) :: files[Live(s)] == Old(s)
      ensures predecessor == old(predecessor) + set s | s in SUFFIXES && Live(s) in files && Live(s) !in old(files)
    {
      ok := answer;
      for i := 1 to 4
        invariant old(predecessor) <= predecessor
        invariant SameOutsideLive(old(files), files)
        invariant forall s | Live(s) in old(files) :: Live(s) in files && files[Live(s)] == old(files)[Live(s)]
        invariant forall s | Live(s) in files && Live(s) !in old(files) :: files[Live(s)] == Old(s)
        invariant predecessor == old(predecessor) + set s | s in SUFFIXES && Live(s) in files && Live(s) !in old(files)
      {
        var s, created: bool := SUFFIXES[i], *;
        if created && Live(s) !in files {
          files, predecessor := files[Live(s) := Old(s)], predecessor + {s};
        }
      }
    }

    /** Opening the candidate at the live path runs its migrations and may create its sidecars, those in `created`. */
    method OpenCandidate(ghost moved: set<Suffix>, created: set<Suffix>, answer: bool) returns (ok: bool)
      requires InFlight(files, predecessor, moved, true)
      modifies this`files
      ensures ok == answer && InFlight(files, predecessor, moved, true)
      ensures SameOutsideLive(old(files), files)
      ensures forall s :: Live(s) in files <==> Live(s) in old(files) || s in created
    {
      ok := answer;
      var was := files;
      files := map p | p in was.Keys + set s | s in created :: Live(s) :: if p in was then was[p] else New;
    }

    /** web/service/portable_backup.go:414-428: the restart request is dropped before the handle is published. */
    method PublishCandidate(free: bool, answer: bool) returns (ok: bool)
      requires !published
      modifies this`published, this`needRestart
      ensures ok == (free && answer) && published == ok
      ensures needRestart == (old(needRestart) && !free)
    {
      if !free {
        return false;
      }
      needRestart := false;
      ok, published := answer, answer;
    }

    method Rename(a: Path, b: Path, answer: bool) returns (ok: bool)
      requires a != b
      modifies this`files
      ensures ok == (answer && a in old(files))
      ensures files == if ok then Renamed(old(files), a, b) else old(files)
    {
      ok := answer && a in files;
      if ok {
        files := Renamed(files, a, b);
      }
    }

    /** os.Lstat: whether the file is there, or an error other than its absence. */
    method Lstat(p: Path, answer: bool) returns (exists_: bool, failed: bool)
      ensures failed == !answer && (!failed ==> (exists_ <==> p in files))
    {
      exists_, failed := p in files, !answer;
    }

    // -------------------------------------------------------------- rollback

    /**
      web/service/portable_backup_transaction.go:63-109. Never reached once the
      candidate handle has been published. `a` is how the way forward went.
     */
    method Rollback(ghost a: Answers, ghost present: set<Suffix>, wasRunning: bool, moved: set<Suffix>, installed: bool, u: Undo)
      returns (r: Outcome)
      requires InFlight(files, predecessor, moved, installed) && !published && Main !in u.drops
      requires forall s :: Discarded(s) !in files
      requires Stopped(a, present, moved, installed) && manual
      modifies this`files, this`predecessor, this`running, this`config
      ensures r == if ComesBack(a, u, wasRunning, present) then RolledBack else NeedsRecovery
      ensures old(predecessor) - u.drops <= predecessor
      ensures r == RolledBack ==> AllBack(files, predecessor) && PredecessorLive(files)
      ensures r == RolledBack ==> running == wasRunning && (running ==> config == Previous)
      ensures Kept(files, predecessor)
    {
      var halted: bool := *;
      var ok := Stop(u.stopped, halted);
      var recovery := !ok;
      ok := CloseDB(moved, installed, u.drops, u.closed);
      recovery := recovery || !ok;
      if installed {
        ok := DiscardCandidate(moved, u);
        recovery := recovery || !ok;
      }
      var restored := BringBack(moved, u);
      recovery := recovery || !restored;
      if restored {
        ok := OpenDB(u.reopened);
        if !ok {
          recovery := true;
        } else if wasRunning {
          ok := Start(Previous, u.started);
          recovery := recovery || !ok;
        }
      }
      r := if recovery then NeedsRecovery else RolledBack;
    }

    /** Where the way forward stopped: what was moved, and whether the candidate is in with which files. */
    ghost predicate Stopped(a: Answers, present: set<Suffix>, moved: set<Suffix>, installed: bool)
      reads this
    {
      && (forall s :: s in moved <==> IsMoved(a, present, s))
      && installed == IsInstalled(a, present)
      && (installed ==> forall s :: Live(s) in files <==> s == Main || (a.chmod && s in a.created))
    }

    /** Lines 71-83. */
    method DiscardCandidate(ghost moved: set<Suffix>, u: Undo) returns (ok: bool)
      requires InFlight(files, predecessor, moved, true)
      modifies this`files
      ensures forall s :: Saved(s) in files <==> Saved(s) in old(files)
      ensures forall s | Saved(s) in files :: files[Saved(s)] == old(files)[Saved(s)]
      ensures forall s | Live(s) in files :: files[Live(s)] == New
      ensures ok <==> forall s :: u.looked(s) && (Live(s) in old(files) ==> u.discarded(s))
      ensures ok ==> forall s :: Live(s) !in files
    {
      ok := true;
      for i := 0 to 4
        invariant forall s :: Saved(s) in files <==> Saved(s) in old(files)
        invariant forall s | Saved(s) in files :: files[Saved(s)] == old(files)[Saved(s)]
        invariant forall s | Live(s) in files :: files[Live(s)] == New
        invariant forall s | i <= Index(s) :: Live(s) in files <==> Live(s) in old(files)
        invariant ok <==> forall s | Index(s) < i :: u.looked(s) && (Live(s) in old(files) ==> u.discarded(s))
        invariant ok ==> forall s | Index(s) < i :: Live(s) !in files
      {
        var s := SUFFIXES[i];
        var there, failed := Lstat(Live(s), u.looked(s));
        if failed {
          ok := false;
        } else if there {
          var renamed := Rename(Live(s), Discarded(s), u.discarded(s));
          ok := ok && renamed;
        }
        assert forall t | Index(t) < i + 1 :: Index(t) < i || t == s;
      }
      assert forall s :: Index(s) < 4;
    }

    /** Lines 84-93. */
    method BringBack(moved: set<Suffix>, u: Undo) returns (restored: bool)
      requires moved <= predecessor
      requires forall s | s in moved :: Is(files, Saved(s), Old(s))
      requires forall s | s in predecessor - moved :: Is(files, Live(s), Old(s))
      modifies this`files
      ensures Kept(files, predecessor)
      ensures restored <==> forall s | s in moved :: u.back(s)
      ensures restored ==> AllBack(files, predecessor)
      ensures forall s | Live(s) in files :: files[Live(s)] == Old(s) || (Live(s) in old(files) && files[Live(s)] == old(files)[Live(s)])
    {
      restored := true;
      for i := 0 to 4
        invariant Returned(old(files), files, moved, u, i)
        invariant restored <==> forall s | s in moved && Index(s) < i :: u.back(s)
      {
        var s := SUFFIXES[i];
        ReturnNext(old(files), files, moved, u, s);
        if s in moved {
          var ok := Rename(Saved(s), Live(s), u.back(s));
          restored := restored && ok;
        }
        assert forall t | Index(t) < i + 1 :: Index(t) < i || t == s;
      }
      assert forall s :: Index(s) < 4;
    }

    // -------------------------------------------------------------- commit

    /**
      web/service/portable_backup_transaction.go:38-160. `drops` are the sidecars that
      SQLite itself removes when it closes the predecessor; every other file is kept. It
      commits exactly when nothing on the way forward fails and there is a live database;
      otherwise, once the core is stopped, it rolls back cleanly exactly when nothing on the
      way back fails.
     */
    method Commit(a: Answers, u: Undo, drops: set<Suffix>) returns (r: Outcome)
      requires Ready() && Candidate in files && files[Candidate] == New && Main !in drops && Main !in u.drops
      modifies this`files, this`predecessor, this`running, this`config, this`manual, this`published, this`needRestart
      ensures r == Refused <==> !Begun(a)
      ensures r == Committed <==> AllWell(a, old(running) || !old(manual), old(predecessor) - drops)
      ensures r == RolledBack <==>
                && Begun(a) && !AllWell(a, old(running) || !old(manual), old(predecessor) - drops)
                && ComesBack(a, u, old(running), old(predecessor) - drops)
      ensures manual == old(manual)
      ensures published <==> r == Committed
      ensures r == Committed ==> Live(Main) in files && forall s | Live(s) in files :: files[Live(s)] == New
      ensures r == Committed ==> running == (old(running) || !old(manual)) && (running ==> config == Next)
      ensures r == Committed && a.swept ==> NothingSaved(files)
      ensures r != Committed ==> old(predecessor) - drops - u.drops <= predecessor && Kept(files, predecessor)
      ensures r in {Refused, RolledBack} ==> AllBack(files, predecessor) && PredecessorLive(files)
      ensures r == Refused ==> files == old(files) && predecessor == old(predecessor)
      ensures r == Refused && !(a.made && a.checkpoint && a.halted) ==> running == old(running) && config == old(config)
      ensures r == Refused && old(running) && a.restarted ==> running && config in {old(config), Previous}
      ensures r == RolledBack ==> running == old(running) && (running ==> config == Previous)
    {
      if !a.made {
        return Refused;
      }
      var wasRunning, wasManual := running, manual;
      if !a.checkpoint {
        return Refused;
      }
      manual := true;
      var ok := Stop(a.stopped, a.halted);
      if !ok {
        if wasRunning && !running {
          var restarted := Start(Previous, a.restarted);
        }
        manual := wasManual;
        return Refused;
      }
      r := Swap(a, u, wasRunning, wasManual, drops);
      manual := wasManual;
    }

    /** Lines 61-159. */
    method Swap(a: Answers, u: Undo, wasRunning: bool, wasManual: bool, drops: set<Suffix>) returns (r: Outcome)
      requires Ready() && Candidate in files && files[Candidate] == New && !running && Main !in drops && Main !in u.drops
      requires Begun(a) && manual
      modifies this`files, this`predecessor, this`running, this`config, this`published, this`needRestart
      ensures r == if AllWell(a, wasRunning || !wasManual, old(predecessor) - drops) then Committed
                   else if ComesBack(a, u, wasRunning, old(predecessor) - drops) then RolledBack else NeedsRecovery
      ensures published <==> r == Committed
      ensures r == Committed ==> Live(Main) in files && forall s | Live(s) in files :: files[Live(s)] == New
      ensures r == Committed ==> running == (wasRunning || !wasManual) && (running ==> config == Next)
      ensures r == Committed && a.swept ==> NothingSaved(files)
      ensures r != Committed ==> old(predecessor) - drops - u.drops <= predecessor && Kept(files, predecessor)
      ensures r == RolledBack ==> AllBack(files, predecessor) && PredecessorLive(files)
      ensures r == RolledBack ==> running == wasRunning && (running ==> config == Previous)
    {
      var ok, moved, installed := Forward(a, wasRunning || !wasManual, drops);
      if !ok {
        r := Rollback(a, old(predecessor) - drops, wasRunning, moved, installed, u);
        return;
      }
      RemoveSaved(a.swept);
      r := Committed;
    }

    /** Lines 111-151: up to the publication, or to the first failure. */
    method Forward(a: Answers, core: bool, drops: set<Suffix>) returns (ok: bool, moved: set<Suffix>, installed: bool)
      requires Ready() && Candidate in files && files[Candidate] == New && !running && Main !in drops
      requires Begun(a) && manual
      modifies this`files, this`predecessor, this`running, this`config, this`published, this`needRestart
      ensures ok <==> AllWell(a, core, old(predecessor) - drops)
      ensures Stopped(a, old(predecessor) - drops, moved, installed)
      ensures InFlight(files, predecessor, moved, installed) && forall s :: Discarded(s) !in files
      ensures predecessor == old(predecessor) - drops
      ensures published == ok
      ensures ok ==> installed && running == core && (running ==> config == Next)
    {
      moved, installed := Exchange(a, drops);
      ok := false;
      if installed {
        ok := Activate(a, moved, core);
      }
    }

    /** Lines 111-131: the predecessor's files go aside and the candidate takes their place. */
    method Exchange(a: Answers, drops: set<Suffix>) returns (moved: set<Suffix>, installed: bool)
      requires Ready() && Candidate in files && files[Candidate] == New && Main !in drops
      modifies this`files, this`predecessor
      ensures InFlight(files, predecessor, moved, installed) && forall s :: Discarded(s) !in files
      ensures predecessor == old(predecessor) - drops
      ensures forall s :: s in moved <==> IsMoved(a, predecessor, s)
      ensures installed == IsInstalled(a, predecessor)
      ensures installed ==> forall s :: Live(s) in files <==> s == Main
    {
      moved, installed := {}, false;
      forall s | Live(s) in files
        ensures s in predecessor
      {
        assert SUFFIXES[Index(s)] == s;
      }
      var ok := CloseDB({}, false, drops, a.closed);
      assert predecessor == old(predecessor) - drops;
      if !ok {
        return;
      }
      ok, moved := MoveAside(a);
      if !ok {
        return;
      }
      installed := Rename(Candidate, Live(Main), a.installed);
    }

    /** Lines 114-127. */
    method MoveAside(a: Answers) returns (ok: bool, moved: set<Suffix>)
      requires InFlight(files, predecessor, {}, false) && NothingSaved(files)
      requires Candidate in files && files[Candidate] == New && a.closed
      modifies this`files
      ensures InFlight(files, predecessor, moved, false)
      ensures Candidate in files && files[Candidate] == New
      ensures forall s :: Discarded(s) !in files
      ensures ok <==> forall s :: !Sticks(a, predecessor, s)
      ensures forall s :: s in moved <==> IsMoved(a, predecessor, s)
      ensures ok ==> moved == predecessor
    {
      moved := {};
      for i := 0 to 4
        invariant InFlight(files, predecessor, moved, false)
        invariant Candidate in files && files[Candidate] == New
        invariant forall s :: Discarded(s) !in files
        invariant forall s | Index(s) < i :: !Sticks(a, predecessor, s)
        invariant forall s :: s in moved <==> s in predecessor && Index(s) < i
      {
        var s := SUFFIXES[i];
        var there, failed := Lstat(Live(s), a.looked(s));
        if failed {
          assert Sticks(a, predecessor, s);
          return false, moved;
        }
        if !there {
          if s == Main {
            assert Sticks(a, predecessor, s);
            return false, moved;
          }
        } else {
          var renamed := Rename(Live(s), Saved(s), a.aside(s));
          if !renamed {
            assert Sticks(a, predecessor, s);
            return false, moved;
          }
          moved := moved + {s};
        }
        assert forall t | Index(t) < i + 1 :: Index(t) < i || t == s;
      }
      assert forall s :: Index(s) < 4;
      ok := true;
    }

    /** Lines 132-151: permissions, candidate handle, candidate core, publication. */
    method Activate(a: Answers, moved: set<Suffix>, core: bool) returns (ok: bool)
      requires InFlight(files, predecessor, moved, true) && !published && !running && manual
      modifies this`files, this`running, this`config, this`published, this`needRestart
      ensures InFlight(files, predecessor, moved, true)
      ensures SameOutsideLive(old(files), files)
      ensures ok <==> a.chmod && a.ready && (core ==> a.started) && a.free && a.published
      ensures forall s :: Live(s) in files <==> Live(s) in old(files) || (a.chmod && s in a.created)
      ensures published == ok
      ensures ok ==> running == core && (running ==> config == Next)
    {
      if !a.chmod {
        return false;
      }
      ok := OpenCandidate(moved, a.created, a.ready);
      if !ok {
        return;
      }
      if core {
        ok := Start(Next, a.started);
        if !ok {
          return;
        }
      }
      ok := PublishCandidate(a.free, a.published);
    }

    /** Line 154: the predecessor goes only now; a removal that fails may have stopped anywhere. */
    method RemoveSaved(answer: bool)
      modifies this`files
      ensures forall s :: Live(s) in files <==> Live(s) in old(files)
      ensures forall s | Live(s) in files :: files[Live(s)] == old(files)[Live(s)]
      ensures answer ==> NothingSaved(files)
    {
      for i := 0 to 4
        invariant forall s :: Live(s) in files <==> Live(s) in old(files)
        invariant forall s | Live(s) in files :: files[Live(s)] == old(files)[Live(s)]
        invariant forall s | Index(s) < i :: Saved(s) !in files && Discarded(s) !in files
      {
        var stop: bool := *;
        if stop && !answer {
          return;
        }
        files := files - {Saved(SUFFIXES[i]), Discarded(SUFFIXES[i])};
        assert forall t | Index(t) < i + 1 :: Index(t) < i || t == SUFFIXES[i];
      }
      assert forall s :: Index(s) < 4;
    }

    // -------------------------------------------------------------- import

    /**
      web/service/portable_backup.go:336-371. `prepared` says whether the backup could be
      prepared and `withAssets` whether that installed assets; `admitted` whether the barrier
      and the listeners allow the restore; `removes` whether the removals of the final
      cleanup, whose errors are ignored, succeed. Whenever the
      candidate is left at the live path its assets are left too.
     */
    method Import(prepared: bool, withAssets: bool, admitted: bool, a: Answers, u: Undo, drops: set<Suffix>, removes: bool) returns (r: Outcome)
      requires Ready() && !assets && Candidate !in files && Main !in drops && Main !in u.drops
      modifies this
      ensures r == Refused <==> !prepared || !admitted || !Begun(a)
      ensures r == Committed <==> prepared && admitted && AllWell(a, old(running) || !old(manual), old(predecessor) - drops)
      ensures r == RolledBack <==>
                && prepared && admitted && Begun(a)
                && !AllWell(a, old(running) || !old(manual), old(predecessor) - drops)
                && ComesBack(a, u, old(running), old(predecessor) - drops)
      ensures manual == old(manual)
      ensures !prepared ==> r == Refused && files == old(files) && !assets
      ensures prepared && CandidateLive() ==> assets == withAssets
      ensures r != Committed ==> needRestart == old(needRestart) && !published
      ensures r != Committed ==> old(predecessor) - drops - u.drops <= predecessor && Kept(files, predecessor)
      ensures r in {Refused, RolledBack} ==> AllBack(files, predecessor) && PredecessorLive(files)
      ensures r in {Refused, RolledBack} && removes ==> !assets
      ensures r in {Committed, NeedsRecovery} ==> assets == withAssets
      ensures r == Committed ==> published && CandidateLive()
      ensures removes ==> Candidate !in files
    {
      if !prepared {
        return Refused;
      }
      files := files[Candidate := New];
      assets := withAssets;
      r := Install(admitted, a, u, drops, removes);
    }

    predicate CandidateLive()
      reads this
    {
      Live(Main) in files && files[Live(Main)] == New
    }

    /** Lines 343-371: from the prepared candidate on. */
    method Install(admitted: bool, a: Answers, u: Undo, drops: set<Suffix>, removes: bool) returns (r: Outcome)
      requires Ready() && Candidate in files && files[Candidate] == New && Main !in drops && Main !in u.drops
      modifies this
      ensures r == Refused <==> !admitted || !Begun(a)
      ensures r == Committed <==> admitted && AllWell(a, old(running) || !old(manual), old(predecessor) - drops)
      ensures r == RolledBack <==>
                && admitted && Begun(a)
                && !AllWell(a, old(running) || !old(manual), old(predecessor) - drops)
                && ComesBack(a, u, old(running), old(predecessor) - drops)
      ensures manual == old(manual)
      ensures CandidateLive() ==> assets == old(assets)
      ensures r != Committed ==> needRestart == old(needRestart) && !published
      ensures r != Committed ==> old(predecessor) - drops - u.drops <= predecessor && Kept(files, predecessor)
      ensures r in {Refused, RolledBack} ==> AllBack(files, predecessor) && PredecessorLive(files)
      ensures r in {Refused, RolledBack} && removes ==> !assets
      ensures r in {Committed, NeedsRecovery} ==> assets == old(assets)
      ensures r == Committed ==> published && CandidateLive()
      ensures removes ==> Candidate !in files
    {
      var restart := needRestart;
      if !admitted {
        AllLive();
        Cleanup(false, removes);
        return Refused;
      }
      r := Commit(a, u, drops);
      if r != Committed {
        needRestart := restart;
      }
      Cleanup(r == Committed || r == NeedsRecovery, removes);
    }

    lemma {:induction false} AllLive()
      requires Ready()
      ensures AllBack(files, predecessor) && Kept(files, predecessor)
    {
    }

    /** Lines 61-66: each of the two removals may fail, and what it fails to remove may be left. */
    method Cleanup(keepAssets: bool, removes: bool)
      modifies this`files, this`assets
      ensures files == old(files) - {Candidate} || (!removes && files == old(files))
      ensures keepAssets ==> assets == old(assets)
      ensures !keepAssets ==> (assets ==> old(assets)) && (removes ==> !assets)
    {
      var first: bool, second: bool := *, *;
      if removes || first {
        files := files - {Candidate};
      }
      if !keepAssets && (removes || second) {
        assets := false;
      }
    }
  }

  ghost predicate SameOutsideLive(a: Files, b: Files) {
    forall p: Path | !p.Live? :: (p in a <==> p in b) && (p in a ==> a[p] == b[p])
  }
}
