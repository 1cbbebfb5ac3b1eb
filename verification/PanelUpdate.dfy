/**
  The self-update handshake of web/service/panel_update.go as a state machine: requests
  of the panel, one detached worker and installer per request, and status readers, all
  interleaved, with crashes anywhere. They share a lock file and a status file; each
  request has its own directory with a startup file and an ack.
 */
module PanelUpdate {

  /** Where startPanelUpdate is. Failing has decided to return an error and still removes the directory. */
  datatype Request = New | Waiting | SawReady | Confirmed | Acking | Accepted | Failing | Errored | Gone

  /**
    Where the worker script is: Locked has the lock, Owns set owns_lock, Wrote wrote the
    running status, Polling wrote `ready`, Acked saw the ack, then the two phases,
    Finishing runs the exit trap, Exiting has done with the status file.
   */
  datatype Worker =
    | Absent | Starting | Locked | Owns | Wrote | Polling | Acked
    | Downloading | Installing | Finishing(ok: bool) | Exiting | Dead

  datatype Startup = Empty | Ready | Busy | Failed

  /**
    A request and everything that belongs to it: the installer process (which inherits
    the lock), the directory and its files, and what has happened so far: whether the
    installing phase was reached, whether a terminal status was written and whether
    some reader reported the run as interrupted.
   */
  datatype Run = Run(request: Request, worker: Worker, installer: bool,
                     dir: bool, startup: Startup, ack: bool,
                     installed: bool, terminal: bool, interrupted: bool)

  datatype Owner = Nobody | ByRun(run: nat) | ByReader(reader: nat)

  datatype Status = NoStatus | Running(id: nat) | Finished(id: nat, ok: bool)

  /** The lock file and the status file. */
  datatype Shared = Shared(holder: Owner, status: Status)

  /** Where panelUpdateStatus is: it has read a running status, then got the lock, then read again. */
  datatype Reader = Out | Saw | Inside | Leaving

  datatype State = State(runs: seq<Run>, readers: seq<Reader>, shared: Shared)

  const FRESH: Run := Run(New, Absent, false, false, Empty, false, false, false, false)

  function Start(n: nat, m: nat): (s: State) {
    State(seq(n, _ => FRESH), seq(m, _ => Out), Shared(Nobody, NoStatus))
  }

  // ---------------------------------------------------------------- the request

  /** startPanelUpdate, lines 175-241; anything may fail, removing the directory too, and giving up is possible at any poll. */
  predicate RequestMove(r: Run, i: nat, g: Shared, q: Run) {
    match r.request
    case New =>
      // the launch command may report an error although the worker was started
      || q == r.(request := Waiting, worker := Starting, dir := true)
      || q == r.(request := Failing, worker := Starting, dir := true)
      || q == r.(request := Failing, dir := true)
    case Waiting =>
      || q == r.(request := Failing)
      || (r.dir && r.startup.Ready? && q == r.(request := SawReady))
    case SawReady =>
      || q == r.(request := Failing)
      || (!g.status.NoStatus? && g.status.id == i && q == r.(request := Confirmed))
    case Confirmed =>
      || q == r.(request := Failing)
      || (r.dir && q == r.(request := Acking, ack := true))
    case Acking => q == r.(request := Accepted)
    case Failing =>
      || q == r.(request := Errored, dir := false, ack := false)
      || q == r.(request := Errored)
    case _ => false
  }

  /** The panel stops; what it had not returned is never returned. */
  predicate RequestCrash(r: Run, q: Run) {
    (r.request.Waiting? || r.request.SawReady? || r.request.Confirmed? || r.request.Acking? || r.request.Failing?) && q == r.(request := Gone)
  }

  // ---------------------------------------------------------------- the worker

  /** The lock after a process of run i is gone: free once neither worker nor installer is left. */
  function Released(g: Shared, i: nat, left: bool): (h: Shared) {
    if g.holder == ByRun(i) && !left then g.(holder := Nobody) else g
  }

  /** The request directory is removed, if that succeeds: q says whether it did. */
  function Cleared(r: Run, q: Run): (s: Run) {
    if q.dir then r else r.(dir := false, ack := false)
  }

  function Tell(r: Run, word: Startup): (q: Run) {
    if r.dir then r.(startup := word) else r
  }

  /** The script up to the handshake, lines 294-310. */
  predicate HandshakeMove(r: Run, i: nat, g: Shared, q: Run, h: Shared) {
    match r.worker
    case Starting =>
      || (g.holder.Nobody? && q == r.(worker := Locked) && h == g.(holder := ByRun(i)))
      || (!g.holder.Nobody? && q == Tell(r, Busy).(worker := Dead) && h == g)
      || (q == Tell(r, Failed).(worker := Dead) && h == g)
    case Locked =>
      if r.dir then q == r.(worker := Owns) && h == g
      else q == r.(worker := Dead) && h == Released(g, i, r.installer)
    case Owns =>
      || (q == r.(worker := Wrote) && h == g.(status := Running(i)))
      || (q == r.(worker := Finishing(false)) && h == g)
    case Wrote =>
      || (r.dir && q == r.(worker := Polling, startup := Ready) && h == g)
      || (q == r.(worker := Finishing(false)) && h == g)
    case Polling =>
      || (r.dir && r.ack && q == r.(worker := Acked) && h == g)
      || (q == r.(worker := Finishing(false), dir := false, ack := false) && h == g)
      || (q == r.(worker := Finishing(false)) && h == g)
    case _ => false
  }

  /** The two phases, lines 311-320, and the exit trap, lines 277-290. */
  predicate PhaseMove(r: Run, i: nat, g: Shared, q: Run, h: Shared) {
    match r.worker
    case Acked =>
      || (q == Cleared(r, q).(worker := Downloading) && h == g.(status := Running(i)))
      || (q == Cleared(r, q).(worker := Finishing(false)) && h == g)
    case Downloading =>
      || (q == r.(worker := Installing, installer := true, installed := true) && h == g.(status := Running(i)))
      || (q == r.(worker := Finishing(false)) && h == g)
    case Installing =>
      || (q == r.(worker := Finishing(true)) && h == g)
      || (q == r.(worker := Finishing(false)) && h == g)
    case Finishing(ok) =>
      || (q == r.(worker := Exiting, terminal := true) && h == g.(status := Finished(i, ok)))
      || (q == r.(worker := Exiting) && h == g)
    case Exiting =>
      && q == (if r.startup.Empty? then Tell(r, Failed) else r).(worker := Dead)
      && h == Released(g, i, r.installer)
    case _ => false
  }

  /** Killed outright: no trap runs, but the installer keeps the inherited lock. */
  predicate WorkerCrash(r: Run, i: nat, g: Shared, q: Run, h: Shared) {
    !r.worker.Absent? && q == r.(worker := Dead) && h == Released(g, i, r.installer)
  }

  predicate InstallerEnds(r: Run, i: nat, g: Shared, q: Run, h: Shared) {
    r.installer && q == r.(installer := false) && h == Released(g, i, !r.worker.Dead?)
  }

  predicate RunMove(r: Run, i: nat, g: Shared, q: Run, h: Shared) {
    || ((RequestMove(r, i, g, q) || RequestCrash(r, q)) && h == g)
    || HandshakeMove(r, i, g, q, h)
    || PhaseMove(r, i, g, q, h)
    || WorkerCrash(r, i, g, q, h)
    || InstallerEnds(r, i, g, q, h)
  }

  // ---------------------------------------------------------------- the status reader

  /** panelUpdateStatus, lines 104-133, without the verdict. */
  predicate ReaderMove(p: Reader, j: nat, g: Shared, q: Reader, h: Shared) {
    match p
    case Out => g.status.Running? && q == Saw && h == g
    case Saw =>
      if g.holder.Nobody? then q == Inside && h == g.(holder := ByReader(j))
      else q == Out && h == g
    case Inside => q == Leaving && h == g
    case Leaving => q == Out && h == g.(holder := Nobody)
  }

  /** The runs after the second look of reader p, unless it fails: a run still `running` is reported. */
  function Verdict(runs: seq<Run>, p: Reader, g: Shared): (after: seq<Run>) {
    if p.Inside? && g.status.Running? && g.status.id < |runs|
    then runs[g.status.id := runs[g.status.id].(interrupted := true)]
    else runs
  }

  ghost predicate Step(s: State, t: State) {
    || (exists i: nat, q: Run | i < |s.runs| ::
          && RunMove(s.runs[i], i, s.shared, q, t.shared)
          && t == State(s.runs[i := q], s.readers, t.shared))
    || (exists j: nat, p: Reader | j < |s.readers| ::
          && ReaderMove(s.readers[j], j, s.shared, p, t.shared)
          && t == State(t.runs, s.readers[j := p], t.shared)
          && (t.runs == s.runs || t.runs == Verdict(s.runs, s.readers[j], s.shared)))
  }

  // ---------------------------------------------------------------- the invariant

  predicate PastLock(w: Worker) {
    !(w.Absent? || w.Starting? || w.Dead?)
  }

  /** The request can no longer return an error. */
  predicate Granted(r: Request) {
    r.Acking? || r.Accepted? || r.Gone?
  }

  predicate AfterAck(w: Worker) {
    w.Acked? || w.Downloading? || w.Installing? || w == Finishing(true)
  }

  predicate RunInv(r: Run, i: nat, g: Shared) {
    && (PastLock(r.worker) || r.installer ==> g.holder == ByRun(i))
    && (r.ack || AfterAck(r.worker) || r.installed || r.installer ==> Granted(r.request))
    && (r.worker.Installing? || r.worker == Finishing(true) || r.installer ==> r.installed)
    && (r.terminal ==> r.worker.Exiting? || r.worker.Dead?)
    && (g.status == Running(i) ==> !r.terminal && !r.worker.Absent? && !r.worker.Starting?)
    && (r.worker.Wrote? || r.worker.Polling? ==> g.status == Running(i))
    && (g.status == Finished(i, true) ==> r.installed)
    && (g.status == Running(i) || r.terminal || r.interrupted ==> !r.request.New?)
    && (r.interrupted ==> r.worker.Dead? && !r.terminal)
    && (r.request.New? ==> r.worker.Absent?)
  }

  predicate ReaderInv(p: Reader, j: nat, g: Shared) {
    p.Inside? || p.Leaving? ==> g.holder == ByReader(j)
  }

  predicate Inv(s: State) {
    && (forall i | 0 <= i < |s.runs| :: RunInv(s.runs[i], i, s.shared))
    && (forall j | 0 <= j < |s.readers| :: ReaderInv(s.readers[j], j, s.shared))
    && (!s.shared.status.NoStatus? ==> s.shared.status.id < |s.runs|)
  }

  lemma {:induction false} RequestKeeps(r: Run, i: nat, g: Shared, q: Run)
    requires RunInv(r, i, g) && (RequestMove(r, i, g, q) || RequestCrash(r, q))
    ensures RunInv(q, i, g)
  {
  }

  lemma {:induction false} HandshakeKeeps(r: Run, i: nat, g: Shared, q: Run, h: Shared)
    requires RunInv(r, i, g) && HandshakeMove(r, i, g, q, h)
    ensures RunInv(q, i, h)
  {
  }

  lemma {:induction false} PhaseKeeps(r: Run, i: nat, g: Shared, q: Run, h: Shared)
    requires RunInv(r, i, g) && PhaseMove(r, i, g, q, h)
    ensures RunInv(q, i, h)
  {
  }

  lemma {:induction false} CrashKeeps(r: Run, i: nat, g: Shared, q: Run, h: Shared)
    requires RunInv(r, i, g) && (WorkerCrash(r, i, g, q, h) || InstallerEnds(r, i, g, q, h))
    ensures RunInv(q, i, h)
  {
  }

  lemma {:induction false} RunMoveKeeps(r: Run, i: nat, g: Shared, q: Run, h: Shared)
    requires RunInv(r, i, g) && RunMove(r, i, g, q, h)
    ensures RunInv(q, i, h)
  {
    if HandshakeMove(r, i, g, q, h) {
      HandshakeKeeps(r, i, g, q, h);
    } else if PhaseMove(r, i, g, q, h) {
      PhaseKeeps(r, i, g, q, h);
    } else if WorkerCrash(r, i, g, q, h) || InstallerEnds(r, i, g, q, h) {
      CrashKeeps(r, i, g, q, h);
    } else {
      RequestKeeps(r, i, g, q);
    }
  }

  /** The change that a step of `who` can make to the shared files. */
  predicate Fair(who: Owner, g: Shared, h: Shared) {
    && (h.holder == g.holder || (g.holder == Nobody && h.holder == who) || (g.holder == who && h.holder == Nobody))
    && (h.status == g.status || (who.ByRun? && g.holder == who && !h.status.NoStatus? && h.status.id == who.run))
  }

  lemma {:induction false} RunMoveIsFair(r: Run, i: nat, g: Shared, q: Run, h: Shared)
    requires RunInv(r, i, g) && RunMove(r, i, g, q, h)
    ensures Fair(ByRun(i), g, h)
  {
  }

  lemma {:induction false} OtherRunKeeps(r: Run, k: nat, g: Shared, h: Shared, who: Owner)
    requires RunInv(r, k, g) && Fair(who, g, h) && who != ByRun(k)
    ensures RunInv(r, k, h)
  {
  }

  lemma {:induction false} OtherReaderKeeps(p: Reader, k: nat, g: Shared, h: Shared, who: Owner)
    requires ReaderInv(p, k, g) && Fair(who, g, h) && who != ByReader(k)
    ensures ReaderInv(p, k, h)
  {
  }

  lemma {:induction false} RunStepKeepsInv(s: State, i: nat, q: Run, t: State)
    requires Inv(s) && i < |s.runs| && RunMove(s.runs[i], i, s.shared, q, t.shared)
    requires t == State(s.runs[i := q], s.readers, t.shared)
    ensures Inv(t)
  {
    RunMoveKeeps(s.runs[i], i, s.shared, q, t.shared);
    RunMoveIsFair(s.runs[i], i, s.shared, q, t.shared);
    forall k | 0 <= k < |t.runs| ensures RunInv(t.runs[k], k, t.shared) {
      if k != i {
        OtherRunKeeps(s.runs[k], k, s.shared, t.shared, ByRun(i));
      }
    }
    forall k | 0 <= k < |t.readers| ensures ReaderInv(t.readers[k], k, t.shared) {
      OtherReaderKeeps(s.readers[k], k, s.shared, t.shared, ByRun(i));
    }
  }

  /** A reader inside the lock that reads `running` is right: that worker is gone and left no verdict. */
  lemma {:induction false} VerdictKeeps(runs: seq<Run>, k: nat, p: Reader, j: nat, g: Shared)
    requires k < |runs| && RunInv(runs[k], k, g) && ReaderInv(p, j, g)
    ensures RunInv(Verdict(runs, p, g)[k], k, g)
  {
  }

  lemma {:induction false} ReaderStepKeepsInv(s: State, j: nat, p: Reader, t: State)
    requires Inv(s) && j < |s.readers| && ReaderMove(s.readers[j], j, s.shared, p, t.shared)
    requires t == State(t.runs, s.readers[j := p], t.shared)
    requires t.runs == s.runs || t.runs == Verdict(s.runs, s.readers[j], s.shared)
    ensures Inv(t)
  {
    forall k | 0 <= k < |t.runs| ensures RunInv(t.runs[k], k, t.shared) {
      VerdictKeeps(s.runs, k, s.readers[j], j, s.shared);
      OtherRunKeeps(t.runs[k], k, s.shared, t.shared, ByReader(j));
    }
    forall k | 0 <= k < |t.readers| ensures ReaderInv(t.readers[k], k, t.shared) {
      if k != j {
        OtherReaderKeeps(s.readers[k], k, s.shared, t.shared, ByReader(j));
      }
    }
  }

  lemma {:induction false} StepKeepsInv(s: State, t: State)
    requires Inv(s) && Step(s, t)
    ensures Inv(t) && |t.runs| == |s.runs|
  {
    if i: nat, q: Run :| i < |s.runs| && RunMove(s.runs[i], i, s.shared, q, t.shared)
                         && t == State(s.runs[i := q], s.readers, t.shared) {
      RunStepKeepsInv(s, i, q, t);
    } else {
      var j: nat, p: Reader :| j < |s.readers| && ReaderMove(s.readers[j], j, s.shared, p, t.shared)
                              && t == State(t.runs, s.readers[j := p], t.shared)
                              && (t.runs == s.runs || t.runs == Verdict(s.runs, s.readers[j], s.shared));
      ReaderStepKeepsInv(s, j, p, t);
    }
  }
}
