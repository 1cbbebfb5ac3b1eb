/**
  Whole histories of the self-update handshake: what holds of every request and every
  run, at any two moments of any interleaving.
 */
module UpdateHistory {
  import opened PanelUpdate

  // ---------------------------------------------------------------- safety over whole runs

  /** A run of the system, from any number of requests and readers. */
  ghost predicate IsHistory(h: seq<State>) {
    && h != []
    && (exists n, m :: h[0] == Start(n, m))
    && forall k | 0 < k < |h| :: Step(h[k - 1], h[k])
  }

  lemma {:induction false} HistoryInv(h: seq<State>, k: nat)
    requires IsHistory(h) && k < |h|
    ensures Inv(h[k]) && |h[k].runs| == |h[0].runs|
  {
    if k > 0 {
      HistoryInv(h, k - 1);
      StepKeepsInv(h[k - 1], h[k]);
    }
  }

  /** A process of this run that may change the installation. */
  predicate Active(r: Run) {
    PastLock(r.worker) || r.installer
  }

  /** At most one run is past the lock at any moment, its worker and its installer taken together. */
  lemma {:induction false} OneUpdater(h: seq<State>, k: nat, i: nat, j: nat)
    requires IsHistory(h) && k < |h| && i < |h[k].runs| && j < |h[k].runs|
    requires Active(h[k].runs[i]) && Active(h[k].runs[j])
    ensures i == j && forall r | 0 <= r < |h[k].readers| :: !h[k].readers[r].Inside? && !h[k].readers[r].Leaving?
  {
    HistoryInv(h, k);
    var s := h[k];
    assert RunInv(s.runs[i], i, s.shared) && RunInv(s.runs[j], j, s.shared);
    forall r | 0 <= r < |s.readers| ensures !s.readers[r].Inside? && !s.readers[r].Leaving? {
      assert ReaderInv(s.readers[r], r, s.shared);
    }
  }

  /** What a step of the system never takes back. */
  predicate Grows(r: Run, q: Run) {
    && (r.installed ==> q.installed) && (r.terminal ==> q.terminal) && (r.interrupted ==> q.interrupted)
    && (r.request.Errored? ==> q.request.Errored?)
  }

  lemma {:induction false} HandshakeGrows(r: Run, i: nat, g: Shared, q: Run, h: Shared)
    requires HandshakeMove(r, i, g, q, h)
    ensures Grows(r, q)
  {
    match r.worker
    case Starting =>
    case Locked =>
    case _ =>
  }

  lemma {:induction false} PhaseGrows(r: Run, i: nat, g: Shared, q: Run, h: Shared)
    requires PhaseMove(r, i, g, q, h)
    ensures Grows(r, q)
  {
    match r.worker
    case Acked =>
    case Exiting =>
    case _ =>
  }

  lemma {:induction false} RequestGrows(r: Run, i: nat, g: Shared, q: Run)
    requires RequestMove(r, i, g, q) || RequestCrash(r, q)
    ensures Grows(r, q)
  {
  }

  lemma {:induction false} RunMoveGrows(r: Run, i: nat, g: Shared, q: Run, h: Shared)
    requires RunMove(r, i, g, q, h)
    ensures Grows(r, q)
  {
    if HandshakeMove(r, i, g, q, h) {
      HandshakeGrows(r, i, g, q, h);
    } else if PhaseMove(r, i, g, q, h) {
      PhaseGrows(r, i, g, q, h);
    } else if RequestMove(r, i, g, q) || RequestCrash(r, q) {
      RequestGrows(r, i, g, q);
    }
  }

  lemma {:induction false} StepGrows(s: State, t: State)
    requires Step(s, t)
    ensures StateGrows(s, t)
  {
    if k: nat, q: Run :| k < |s.runs| && RunMove(s.runs[k], k, s.shared, q, t.shared)
                         && t == State(s.runs[k := q], s.readers, t.shared) {
      RunMoveGrows(s.runs[k], k, s.shared, q, t.shared);
    }
  }

  predicate StateGrows(s: State, t: State) {
    |s.runs| <= |t.runs| && forall i | 0 <= i < |s.runs| :: Grows(s.runs[i], t.runs[i])
  }

  ghost predicate Growing(h: seq<State>) {
    forall k | 0 < k < |h| :: StateGrows(h[k - 1], h[k])
  }

  lemma {:induction false} HistoryIsGrowing(h: seq<State>)
    requires IsHistory(h)
    ensures Growing(h)
  {
    forall k | 0 < k < |h| ensures StateGrows(h[k - 1], h[k]) {
      StepGrows(h[k - 1], h[k]);
    }
  }

  lemma {:induction false} GrowsFrom(h: seq<State>, a: nat, b: nat)
    requires Growing(h) && a <= b < |h|
    ensures StateGrows(h[a], h[b])
    decreases b
  {
    if a < b {
      GrowsFrom(h, a, b - 1);
      GrowsOn(h[a], h[b - 1], h[b]);
    }
  }

  lemma {:induction false} HistoryGrows(h: seq<State>, a: nat, b: nat)
    requires IsHistory(h) && a <= b < |h|
    ensures StateGrows(h[a], h[b])
  {
    HistoryIsGrowing(h);
    GrowsFrom(h, a, b);
  }

  lemma {:induction false} GrowsOn(s: State, t: State, u: State)
    requires StateGrows(s, t) && StateGrows(t, u)
    ensures StateGrows(s, u)
  {
    forall i | 0 <= i < |s.runs| ensures Grows(s.runs[i], u.runs[i]) {
      assert Grows(s.runs[i], t.runs[i]) && Grows(t.runs[i], u.runs[i]);
    }
  }

  /** A request whose start returned an error never reaches the installing phase, before or after. */
  lemma {:induction false} ErrorNeverInstalls(h: seq<State>, a: nat, b: nat, i: nat)
    requires IsHistory(h) && a < |h| && b < |h| && i < |h[0].runs|
    ensures i < |h[a].runs| && i < |h[b].runs|
    ensures h[a].runs[i].request.Errored? ==> !h[b].runs[i].installed && !h[b].runs[i].installer
    ensures h[a].runs[i].request.Errored? ==> h[b].shared.status != Finished(i, true)
  {
    HistoryInv(h, a);
    HistoryInv(h, b);
    assert RunInv(h[a].runs[i], i, h[a].shared) && RunInv(h[b].runs[i], i, h[b].shared);
    HistoryGrows(h, if a <= b then a else b, if a <= b then b else a);
    if h[a].runs[i].request.Errored? && b < a {
      InstallerWasGranted(h, a, b, i);
    }
  }

  lemma {:induction false} InstallerWasGranted(h: seq<State>, a: nat, b: nat, i: nat)
    requires IsHistory(h) && b < a < |h| && i < |h[b].runs| && i < |h[a].runs|
    requires h[a].runs[i].request.Errored?
    ensures !h[b].runs[i].installer && h[b].shared.status != Finished(i, true)
  {
    HistoryInv(h, a);
    HistoryInv(h, b);
    HistoryGrows(h, b, a);
    assert RunInv(h[a].runs[i], i, h[a].shared) && RunInv(h[b].runs[i], i, h[b].shared);
    assert !h[a].runs[i].installed;
  }

  /** A run that wrote its terminal status is never reported as interrupted, at no time of any history. */
  lemma {:induction false} TerminalNeverInterrupted(h: seq<State>, a: nat, b: nat, i: nat)
    requires IsHistory(h) && a < |h| && b < |h| && i < |h[0].runs|
    ensures i < |h[a].runs| && i < |h[b].runs|
    ensures !(h[a].runs[i].terminal && h[b].runs[i].interrupted)
  {
    HistoryInv(h, a);
    HistoryInv(h, b);
    var last := if a <= b then b else a;
    HistoryGrows(h, a, last);
    HistoryGrows(h, b, last);
    assert RunInv(h[last].runs[i], i, h[last].shared);
  }

  // ---------------------------------------------------------------- what an accepted request knows

  /** The request has seen that its worker is ready. */
  predicate PastReady(r: Request) {
    r.SawReady? || r.Confirmed? || r.Acking? || r.Accepted?
  }

  /** The startup file says `ready` only when the worker waits for the ack and `busy` only when the lock is taken, and a request learns it from there. */
  predicate Honest(r: Run, g: Shared, q: Run) {
    && (q.startup.Ready? ==> r.startup.Ready? || q.worker.Polling?)
    && (q.startup.Busy? ==> r.startup.Busy? || !g.holder.Nobody?)
    && (PastReady(q.request) ==> PastReady(r.request) || r.startup.Ready?)
  }

  lemma {:induction false} RequestKeepsStartup(r: Run, i: nat, g: Shared, q: Run)
    requires RequestMove(r, i, g, q) || RequestCrash(r, q)
    ensures q.startup == r.startup
  {
    match r.request
    case New =>
    case Failing =>
    case _ =>
  }

  lemma {:induction false} RequestLearns(r: Run, i: nat, g: Shared, q: Run)
    requires RequestMove(r, i, g, q) || RequestCrash(r, q)
    ensures PastReady(q.request) ==> PastReady(r.request) || r.startup.Ready?
  {
    match r.request
    case New =>
    case Waiting =>
    case _ =>
  }

  lemma {:induction false} RequestIsHonest(r: Run, i: nat, g: Shared, q: Run)
    requires RequestMove(r, i, g, q) || RequestCrash(r, q)
    ensures Honest(r, g, q)
  {
    RequestKeepsStartup(r, i, g, q);
    RequestLearns(r, i, g, q);
  }

  lemma {:induction false} StartingIsHonest(r: Run, i: nat, g: Shared, q: Run, h: Shared)
    requires r.worker.Starting? && HandshakeMove(r, i, g, q, h)
    ensures Honest(r, g, q)
  {
  }

  lemma {:induction false} HandshakeIsHonest(r: Run, i: nat, g: Shared, q: Run, h: Shared)
    requires HandshakeMove(r, i, g, q, h)
    ensures Honest(r, g, q)
  {
    match r.worker
    case Starting => StartingIsHonest(r, i, g, q, h);
    case Locked =>
    case Polling =>
    case _ =>
  }

  lemma {:induction false} PhaseIsHonest(r: Run, i: nat, g: Shared, q: Run, h: Shared)
    requires PhaseMove(r, i, g, q, h)
    ensures Honest(r, g, q)
  {
    match r.worker
    case Acked =>
    case Exiting =>
    case _ =>
  }

  lemma {:induction false} RunMoveIsHonest(r: Run, i: nat, g: Shared, q: Run, h: Shared)
    requires RunMove(r, i, g, q, h)
    ensures Honest(r, g, q)
  {
    if HandshakeMove(r, i, g, q, h) {
      HandshakeIsHonest(r, i, g, q, h);
    } else if PhaseMove(r, i, g, q, h) {
      PhaseIsHonest(r, i, g, q, h);
    } else if RequestMove(r, i, g, q) || RequestCrash(r, q) {
      RequestIsHonest(r, i, g, q);
    }
  }

  lemma {:induction false} ReadyStep(s: State, t: State, i: nat)
    requires Step(s, t) && i < |s.runs| && i < |t.runs|
    ensures Honest(s.runs[i], s.shared, t.runs[i])
  {
    if k: nat, q: Run :| k < |s.runs| && RunMove(s.runs[k], k, s.shared, q, t.shared)
                         && t == State(s.runs[k := q], s.readers, t.shared) {
      RunMoveIsHonest(s.runs[k], k, s.shared, q, t.shared);
    }
  }

  /** The worker is waiting for the ack, with the lock and its own running status. */
  predicate Announced(s: State, i: nat) {
    i < |s.runs| && s.runs[i].worker.Polling? && s.shared == Shared(ByRun(i), Running(i))
  }

  predicate SaysReady(r: Run) {
    r.startup.Ready? || PastReady(r.request)
  }

  /** Whatever a request was told by its worker was true: an accepted one had the lock and had said so, ... */
  lemma {:induction false} AcceptedWasReady(h: seq<State>, k: nat, i: nat) returns (a: nat)
    requires IsHistory(h) && k < |h| && i < |h[0].runs| && i < |h[k].runs| && SaysReady(h[k].runs[i])
    ensures a <= k && Announced(h[a], i)
  {
    FirstIsFresh(h, i);
    assert k > 0;
    HistoryInv(h, k - 1);
    ReadyStep(h[k - 1], h[k], i);
    if SaysReady(h[k - 1].runs[i]) {
      a := AcceptedWasReady(h, k - 1, i);
    } else {
      HistoryInv(h, k);
      assert RunInv(h[k].runs[i], i, h[k].shared);
      a := k;
    }
  }

  lemma {:induction false} FirstIsFresh(h: seq<State>, i: nat)
    requires IsHistory(h) && i < |h[0].runs|
    ensures h[0].runs[i] == FRESH
  {
    var n, m :| h[0] == Start(n, m);
  }

  /** ... and a busy one found it taken. */
  lemma {:induction false} BusyWasTaken(h: seq<State>, k: nat, i: nat) returns (a: nat)
    requires IsHistory(h) && k < |h| && i < |h[0].runs| && i < |h[k].runs| && h[k].runs[i].startup.Busy?
    ensures a < k && h[a].shared.holder != Nobody
  {
    FirstIsFresh(h, i);
    assert k > 0;
    HistoryInv(h, k - 1);
    ReadyStep(h[k - 1], h[k], i);
    a := k - 1;
    if h[k - 1].runs[i].startup.Busy? {
      a := BusyWasTaken(h, k - 1, i);
    }
  }

  // ---------------------------------------------------------------- what can happen

  /** A run and the shared files at one moment, the other runs standing still. */
  datatype Moment = Moment(run: Run, shared: Shared)

  ghost predicate Unfolds(i: nat, ms: seq<Moment>) {
    forall k | 0 < k < |ms| :: RunMove(ms[k - 1].run, i, ms[k - 1].shared, ms[k].run, ms[k].shared)
  }

  lemma {:induction false} UnfoldsOn(i: nat, a: seq<Moment>, b: seq<Moment>)
    requires Unfolds(i, a) && Unfolds(i, b) && a != [] && b != [] && a[|a| - 1] == b[0]
    ensures Unfolds(i, a + b[1..])
  {
    var all := a + b[1..];
    forall k | 0 < k < |all|
      ensures RunMove(all[k - 1].run, i, all[k - 1].shared, all[k].run, all[k].shared)
    {
      if k >= |a| {
        assert all[k] == b[k - |a| + 1] && all[k - 1] == b[k - |a|];
      }
    }
  }

  /** With the lock free, a worker gets it, and tells its request. */
  lemma {:induction false} Announces(i: nat, g: Shared) returns (ms: seq<Moment>)
    requires g.holder == Nobody
    ensures Unfolds(i, ms) && |ms| > 0 && ms[0] == Moment(FRESH, g)
    ensures ms[|ms| - 1] == Moment(Run(Waiting, Polling, false, true, Ready, false, false, false, false), Shared(ByRun(i), Running(i)))
  {
    var held, running := g.(holder := ByRun(i)), Shared(ByRun(i), Running(i));
    var r := FRESH.(request := Waiting, dir := true);
    ms := [Moment(FRESH, g), Moment(r.(worker := Starting), g), Moment(r.(worker := Locked), held),
           Moment(r.(worker := Owns), held), Moment(r.(worker := Wrote), running),
           Moment(r.(worker := Polling, startup := Ready), running)];
  }

  /** A request that finds it ready accepts it, and it goes on to the first phase. */
  lemma {:induction false} Accepts(i: nat) returns (ms: seq<Moment>)
    ensures Unfolds(i, ms) && |ms| > 0
    ensures
      var g := Shared(ByRun(i), Running(i));
      && ms[0] == Moment(Run(Waiting, Polling, false, true, Ready, false, false, false, false), g)
      && ms[|ms| - 1] == Moment(Run(Accepted, Downloading, false, false, Ready, false, false, false, false), g)
  {
    var g := Shared(ByRun(i), Running(i));
    var r := Run(Waiting, Polling, false, true, Ready, false, false, false, false);
    var acked := r.(request := Acking, ack := true);
    ms := [Moment(r, g), Moment(r.(request := SawReady), g), Moment(r.(request := Confirmed), g),
           Moment(acked, g), Moment(acked.(request := Accepted), g), Moment(acked.(request := Accepted, worker := Acked), g),
           Moment(Run(Accepted, Downloading, false, false, Ready, false, false, false, false), g)];
  }

  /** It installs, writes its verdict and frees the lock. */
  lemma {:induction false} Installs(i: nat) returns (ms: seq<Moment>)
    ensures Unfolds(i, ms) && |ms| > 0
    ensures ms[0] == Moment(Run(Accepted, Downloading, false, false, Ready, false, false, false, false), Shared(ByRun(i), Running(i)))
    ensures ms[|ms| - 1] == Moment(Run(Accepted, Dead, false, false, Ready, false, true, true, false), Shared(Nobody, Finished(i, true)))
  {
    var g, done := Shared(ByRun(i), Running(i)), Shared(ByRun(i), Finished(i, true));
    var r := Run(Accepted, Downloading, false, false, Ready, false, false, false, false);
    var q := r.(installed := true);
    ms := [Moment(r, g), Moment(q.(worker := Installing, installer := true), g), Moment(q.(worker := Installing), g),
           Moment(q.(worker := Finishing(true)), g), Moment(q.(worker := Exiting, terminal := true), done),
           Moment(q.(worker := Dead, terminal := true), Shared(Nobody, Finished(i, true)))];
  }

  /** With the lock taken, a worker says so and goes, and its request returns an error and removes its directory. */
  lemma {:induction false} BusyIsTold(i: nat, g: Shared) returns (ms: seq<Moment>)
    requires g.holder != Nobody
    ensures Unfolds(i, ms) && |ms| == 5 && ms[0] == Moment(FRESH, g)
    ensures ms[2].run.startup == Busy && ms[4] == Moment(Run(Errored, Dead, false, false, Busy, false, false, false, false), g)
  {
    var r := FRESH.(dir := true, startup := Busy, worker := Dead);
    ms := [Moment(FRESH, g), Moment(FRESH.(request := Waiting, worker := Starting, dir := true), g),
           Moment(r.(request := Waiting), g), Moment(r.(request := Failing), g),
           Moment(r.(request := Errored, dir := false), g)];
  }

  /** A worker that fails before it is ready writes its verdict, says so in the startup file, and frees the lock. */
  lemma {:induction false} StartCanFail(i: nat, g: Shared) returns (ms: seq<Moment>)
    requires g.holder == Nobody
    ensures Unfolds(i, ms) && |ms| > 0 && ms[0] == Moment(FRESH, g)
    ensures ms[|ms| - 1] == Moment(Run(Waiting, Dead, false, true, Failed, false, false, true, false), Shared(Nobody, Finished(i, false)))
  {
    var held, done := g.(holder := ByRun(i)), Shared(ByRun(i), Finished(i, false));
    var r := FRESH.(request := Waiting, dir := true);
    ms := [Moment(FRESH, g), Moment(r.(worker := Starting), g), Moment(r.(worker := Locked), held),
           Moment(r.(worker := Owns), held), Moment(r.(worker := Finishing(false)), held),
           Moment(r.(worker := Exiting, terminal := true), done),
           Moment(r.(worker := Dead, terminal := true, startup := Failed), Shared(Nobody, Finished(i, false)))];
  }

  /** A worker that waits for the ack in vain removes the directory, writes its verdict and frees the lock. */
  lemma {:induction false} AckCanTimeOut(i: nat, r: Run) returns (ms: seq<Moment>)
    requires r.worker.Polling? && !r.installer && r.startup.Ready?
    ensures Unfolds(i, ms) && |ms| == 4 && ms[0] == Moment(r, Shared(ByRun(i), Running(i)))
    ensures ms[3] == Moment(r.(worker := Dead, dir := false, ack := false, terminal := true), Shared(Nobody, Finished(i, false)))
  {
    var g, done := Shared(ByRun(i), Running(i)), Shared(ByRun(i), Finished(i, false));
    var q := r.(dir := false, ack := false);
    ms := [Moment(r, g), Moment(q.(worker := Finishing(false)), g), Moment(q.(worker := Exiting, terminal := true), done),
           Moment(q.(worker := Dead, terminal := true), Shared(Nobody, Finished(i, false)))];
  }

  /** A worker killed while it installs leaves the lock with the installer, which frees it; the status is left for a reader. */
  lemma {:induction false} InstallerKeepsLock(i: nat) returns (ms: seq<Moment>)
    ensures Unfolds(i, ms) && |ms| == 4
    ensures
      var g := Shared(ByRun(i), Running(i));
      var r := Run(Accepted, Downloading, false, false, Ready, false, false, false, false);
      && ms[0] == Moment(r, g)
      && ms[2] == Moment(r.(worker := Dead, installer := true, installed := true), g)
      && ms[3] == Moment(r.(worker := Dead, installed := true), g.(holder := Nobody))
  {
    var g := Shared(ByRun(i), Running(i));
    var r := Run(Accepted, Downloading, false, false, Ready, false, false, false, false);
    var q := r.(installed := true, installer := true);
    ms := [Moment(r, g), Moment(q.(worker := Installing), g), Moment(q.(worker := Dead), g),
           Moment(q.(worker := Dead, installer := false), g.(holder := Nobody))];
  }

  /** With the lock free, an update can be accepted, install and leave its verdict and a free lock. */
  lemma {:induction false} UpdateCanSucceed(i: nat, g: Shared) returns (ms: seq<Moment>)
    requires g.holder == Nobody
    ensures Unfolds(i, ms) && |ms| > 0 && ms[0] == Moment(FRESH, g)
    ensures
      var end := ms[|ms| - 1];
      && end.run.request == Accepted && end.run.installed && end.run.terminal && !end.run.interrupted
      && end.shared == Shared(Nobody, Finished(i, true))
  {
    var a := Announces(i, g);
    var b := Accepts(i);
    var c := Installs(i);
    UnfoldsOn(i, a, b);
    ms := a + b[1..];
    UnfoldsOn(i, ms, c);
    ms := ms + c[1..];
  }

  /** A reader that finds a dead worker's status, and the lock free, reports it and frees the lock again. */
  lemma {:induction false} ReaderCanReport(s: State, i: nat, j: nat) returns (h: seq<State>)
    requires i < |s.runs| && j < |s.readers| && s.readers[j] == Out && s.shared == Shared(Nobody, Running(i))
    ensures |h| == 5 && h[0] == s && forall k | 0 < k < |h| :: Step(h[k - 1], h[k])
    ensures h[4] == s.(runs := s.runs[i := s.runs[i].(interrupted := true)])
  {
    var held, rs := s.shared.(holder := ByReader(j)), s.readers;
    var told := s.runs[i := s.runs[i].(interrupted := true)];
    var a := State(s.runs, rs[j := Saw], s.shared);
    var b := State(s.runs, rs[j := Inside], held);
    var c := State(told, rs[j := Leaving], held);
    var d := State(told, rs, s.shared);
    assert rs[j := Saw][j := Inside] == rs[j := Inside] && rs[j := Inside][j := Leaving] == rs[j := Leaving];
    assert rs[j := Leaving][j := Out] == rs;
    ReaderStep(s, j, Saw, a);
    ReaderStep(a, j, Inside, b);
    ReaderStep(b, j, Leaving, c);
    ReaderStep(c, j, Out, d);
    h := [s, a, b, c, d];
  }

  lemma {:induction false} ReaderStep(s: State, j: nat, p: Reader, t: State)
    requires j < |s.readers| && ReaderMove(s.readers[j], j, s.shared, p, t.shared) && t.readers == s.readers[j := p]
    requires t.runs == s.runs || t.runs == Verdict(s.runs, s.readers[j], s.shared)
    ensures Step(s, t)
  {
  }
}
