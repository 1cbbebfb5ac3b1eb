/**
  The restore admission barrier (database/restore_barrier.go) as a state machine:
  any number of threads, each at some point of a mutation, a lifecycle or a restore,
  taking one atomic step at a time in any order.
 */
module RestoreBarrier {

  /**
    Where a thread is. Mutations: M1 passed the first Restoring check, M2 has the read
    lock, MBack failed the second check, MIn is admitted. Lifecycles: L1 has `begin`,
    L2-L4 are the mutation inside, LIn has set the flag, LOut1 and LOut2 are releasing;
    LBack and LFail are refusals. Restores: R1 has `begin`, R2 raised `active`, R3 waits
    in mu.Lock, RIn has drained, ROut1 and ROut2 are releasing.
   */
  datatype Pc =
    | Idle
    | M1 | M2 | MBack | MIn
    | L1 | L2 | L3 | LBack | LFail | L4 | LIn | LOut1 | LOut2
    | R1 | R2 | R3 | RIn | ROut1 | ROut2

  /**
    The shared variables: the two flags, the begin mutex as the thread that holds it
    (FREE when none does), and the RWMutex as its reader count, whether a writer has
    announced itself (which makes TryRLock fail) and whether that writer holds it.
   */
  datatype State = State(threads: seq<Pc>, active: bool, lifecycle: bool, begin: int,
                         readers: int, announced: bool, exclusive: bool)

  const FREE: int := -1

  function Start(n: nat): (s: State) {
    State(seq(n, _ => Idle), false, false, FREE, 0, false, false)
  }

  // ---------------------------------------------------------------- steps

  /** The step of thread i from its point to `pc`, other threads standing still. */
  function At(s: State, i: nat, pc: Pc): (t: State)
    requires i < |s.threads|
  {
    s.(threads := s.threads[i := pc])
  }

  /** TryMutation, lines 43-55, and its release. */
  predicate MutationStep(s: State, i: nat, t: State)
    requires i < |s.threads|
  {
    match s.threads[i]
    case Idle => !s.active && t == At(s, i, M1)
    case M1 => t == if s.announced then At(s, i, Idle) else At(s, i, M2).(readers := s.readers + 1)
    case M2 => t == At(s, i, if s.active then MBack else MIn)
    case MBack => t == At(s, i, Idle).(readers := s.readers - 1)
    case MIn => t == At(s, i, Idle).(readers := s.readers - 1)
    case _ => false
  }

  /** TryLifecycle, lines 24-39, and its release. */
  predicate LifecycleStep(s: State, i: nat, t: State)
    requires i < |s.threads|
  {
    match s.threads[i]
    case Idle => s.begin == FREE && t == At(s, i, L1).(begin := i)
    case L1 => t == At(s, i, if s.active then LFail else L2)
    case L2 => t == if s.announced then At(s, i, LFail) else At(s, i, L3).(readers := s.readers + 1)
    case L3 => t == At(s, i, if s.active then LBack else L4)
    case LBack => t == At(s, i, LFail).(readers := s.readers - 1)
    case LFail => t == At(s, i, Idle).(begin := FREE)
    case L4 => t == At(s, i, LIn).(lifecycle := true)
    case LIn => t == At(s, i, LOut1).(lifecycle := false)
    case LOut1 => t == At(s, i, LOut2).(readers := s.readers - 1)
    case LOut2 => t == At(s, i, Idle).(begin := FREE)
    case _ => false
  }

  /** TryBeginRestore and BeginRestore, lines 59-84, and their release. */
  predicate RestoreStep(s: State, i: nat, t: State)
    requires i < |s.threads|
  {
    match s.threads[i]
    case Idle => s.begin == FREE && t == At(s, i, R1).(begin := i)
    case R1 => t == At(s, i, R2).(active := true)
    case R2 => t == At(s, i, R3).(announced := true)
    case R3 => s.readers == 0 && t == At(s, i, RIn).(exclusive := true)
    case RIn => t == At(s, i, ROut1).(active := false)
    case ROut1 => t == At(s, i, ROut2).(announced := false, exclusive := false)
    case ROut2 => t == At(s, i, Idle).(begin := FREE)
    case _ => false
  }

  /** A refused attempt (a failed first check or TryLock) leaves everything as it is. */
  predicate Step(s: State, i: nat, t: State)
    requires i < |s.threads|
  {
    || MutationStep(s, i, t) || LifecycleStep(s, i, t) || RestoreStep(s, i, t)
    || (s.threads[i] == Idle && t == s)
  }

  // ---------------------------------------------------------------- positions

  predicate HoldsBegin(pc: Pc) {
    !(pc.Idle? || pc.M1? || pc.M2? || pc.MBack? || pc.MIn?)
  }

  predicate HoldsRead(pc: Pc) {
    pc.M2? || pc.MBack? || pc.MIn? || pc.L3? || pc.LBack? || pc.L4? || pc.LIn? || pc.LOut1?
  }

  predicate Admitted(pc: Pc) {
    pc.MIn? || pc.L4? || pc.LIn? || pc.LOut1?
  }

  predicate Raised(pc: Pc) {
    pc.R2? || pc.R3? || pc.RIn?
  }

  predicate Announced(pc: Pc) {
    pc.R3? || pc.RIn? || pc.ROut1?
  }

  predicate Exclusive(pc: Pc) {
    pc.RIn? || pc.ROut1?
  }

  function ReadLocks(pc: Pc): (n: nat) {
    if HoldsRead(pc) then 1 else 0
  }

  function Count(threads: seq<Pc>, p: Pc -> nat): (n: nat) {
    if threads == [] then 0 else p(threads[0]) + Count(threads[1..], p)
  }

  lemma {:induction false} CountUpdate(threads: seq<Pc>, p: Pc -> nat, i: nat, pc: Pc)
    requires i < |threads|
    ensures Count(threads[i := pc], p) == Count(threads, p) - p(threads[i]) + p(pc)
  {
    var u := threads[i := pc];
    if i == 0 {
      assert u[1..] == threads[1..];
    } else {
      CountUpdate(threads[1..], p, i - 1, pc);
      assert u[1..] == threads[1..][i - 1 := pc];
    }
  }

  lemma {:induction false} CountAtLeast(threads: seq<Pc>, p: Pc -> nat, i: nat)
    requires i < |threads|
    ensures Count(threads, p) >= p(threads[i])
  {
    if i > 0 {
      CountAtLeast(threads[1..], p, i - 1);
    }
  }

  lemma {:induction false} CountNone(n: nat, p: Pc -> nat)
    requires p(Idle) == 0
    ensures Count(seq(n, _ => Idle), p) == 0
  {
    if n > 0 {
      CountNone(n - 1, p);
      assert seq(n, _ => Idle)[1..] == seq(n - 1, _ => Idle);
    }
  }

  lemma {:induction false} SomeCounted(threads: seq<Pc>, p: Pc -> nat) returns (i: nat)
    requires Count(threads, p) > 0
    ensures i < |threads| && p(threads[i]) > 0
  {
    if p(threads[0]) > 0 {
      i := 0;
    } else {
      var k := SomeCounted(threads[1..], p);
      i := k + 1;
    }
  }

  // ---------------------------------------------------------------- the invariant

  /** Exactly the recorded holder is at a point where it holds `begin`. */
  predicate OneHolder(threads: seq<Pc>, begin: int) {
    && FREE <= begin < |threads|
    && forall i | 0 <= i < |threads| :: HoldsBegin(threads[i]) <==> i == begin
  }

  /** The point of the thread that holds `begin`. */
  function Holder(s: State): (pc: Pc)
    requires OneHolder(s.threads, s.begin)
  {
    if s.begin == FREE then Idle else s.threads[s.begin]
  }

  /** Every shared variable says exactly what the threads' positions say. */
  predicate Inv(s: State) {
    && OneHolder(s.threads, s.begin)
    && s.active == Raised(Holder(s))
    && s.lifecycle == Holder(s).LIn?
    && s.announced == Announced(Holder(s))
    && s.exclusive == Exclusive(Holder(s))
    && s.readers == Count(s.threads, ReadLocks)
    && (s.exclusive ==> s.readers == 0)
  }

  lemma {:induction false} StartInv(n: nat)
    ensures Inv(Start(n))
  {
    CountNone(n, ReadLocks);
  }

  /** A step between two points keeps the invariant when each shared variable follows the move. */
  lemma {:induction false} MoveKeepsInv(s: State, i: nat, pc: Pc, t: State)
    requires Inv(s) && i < |s.threads| && t.threads == s.threads[i := pc]
    requires HoldsBegin(pc) ==> s.begin == FREE || s.begin == i
    requires t.begin == if HoldsBegin(pc) then i else if s.begin == i then FREE else s.begin
    requires t.readers == s.readers - ReadLocks(s.threads[i]) + ReadLocks(pc)
    requires (t.active, t.lifecycle, t.announced, t.exclusive) ==
             if HoldsBegin(pc) || s.begin == i then (Raised(pc), pc.LIn?, Announced(pc), Exclusive(pc))
             else (s.active, s.lifecycle, s.announced, s.exclusive)
    requires t.exclusive ==> t.readers == 0
    ensures Inv(t)
  {
    CountUpdate(s.threads, ReadLocks, i, pc);
    assert OneHolder(t.threads, t.begin);
  }

  lemma {:induction false} MutationKeepsInv(s: State, i: nat, t: State)
    requires Inv(s) && i < |s.threads| && MutationStep(s, i, t)
    ensures Inv(t) && |t.threads| == |s.threads|
  {
    CountAtLeast(s.threads, ReadLocks, i);
    MoveKeepsInv(s, i, t.threads[i], t);
  }

  lemma {:induction false} LifecycleKeepsInv(s: State, i: nat, t: State)
    requires Inv(s) && i < |s.threads| && LifecycleStep(s, i, t)
    ensures Inv(t) && |t.threads| == |s.threads|
  {
    CountAtLeast(s.threads, ReadLocks, i);
    MoveKeepsInv(s, i, t.threads[i], t);
  }

  lemma {:induction false} RestoreKeepsInv(s: State, i: nat, t: State)
    requires Inv(s) && i < |s.threads| && RestoreStep(s, i, t)
    ensures Inv(t) && |t.threads| == |s.threads|
  {
    CountAtLeast(s.threads, ReadLocks, i);
    MoveKeepsInv(s, i, t.threads[i], t);
  }

  lemma {:induction false} StepKeepsInv(s: State, i: nat, t: State)
    requires Inv(s) && i < |s.threads| && Step(s, i, t)
    ensures Inv(t) && |t.threads| == |s.threads|
  {
    if MutationStep(s, i, t) {
      MutationKeepsInv(s, i, t);
    } else if LifecycleStep(s, i, t) {
      LifecycleKeepsInv(s, i, t);
    } else if RestoreStep(s, i, t) {
      RestoreKeepsInv(s, i, t);
    }
  }

  // ---------------------------------------------------------------- safety

  /** What no interleaving may ever break. */
  predicate Safe(s: State) {
    && !(s.active && s.lifecycle)
    && (forall i, j | 0 <= i < |s.threads| && 0 <= j < |s.threads| ::
          s.threads[i] == RIn ==> !HoldsRead(s.threads[j]))
    && (forall i, j | 0 <= i < |s.threads| && 0 <= j < |s.threads| ::
          HoldsBegin(s.threads[i]) && HoldsBegin(s.threads[j]) ==> i == j)
  }

  /**
    Active and lifecycle are never both true; a restore past its drain coexists with no
    admitted mutation or lifecycle; `begin` has one holder.
   */
  lemma {:induction false} InvIsSafe(s: State)
    requires Inv(s)
    ensures Safe(s)
  {
    forall i, j | 0 <= i < |s.threads| && 0 <= j < |s.threads|
      ensures s.threads[i] == RIn ==> !HoldsRead(s.threads[j])
    {
      CountAtLeast(s.threads, ReadLocks, j);
    }
  }

  /** A run: each state follows from the one before by a step of some thread. */
  ghost predicate Run(run: seq<State>) {
    && run != [] && Inv(run[0])
    && forall k | 0 < k < |run| :: Follows(run[k - 1], run[k])
  }

  ghost predicate Follows(s: State, t: State) {
    exists i: nat :: i < |s.threads| && Step(s, i, t)
  }

  lemma {:induction false} FollowsKeepsInv(s: State, t: State)
    requires Inv(s) && Follows(s, t)
    ensures Inv(t) && |t.threads| == |s.threads|
  {
    var i: nat :| i < |s.threads| && Step(s, i, t);
    StepKeepsInv(s, i, t);
  }

  /** Safety in every interleaving of any number of threads. */
  lemma {:induction false} RunIsSafe(run: seq<State>, k: nat)
    requires Run(run) && k < |run|
    ensures Inv(run[k]) && Safe(run[k]) && |run[k].threads| == |run[0].threads|
  {
    if k > 0 {
      RunIsSafe(run, k - 1);
      FollowsKeepsInv(run[k - 1], run[k]);
    }
    InvIsSafe(run[k]);
  }

  /**
    Between raising and lowering `active` nobody is admitted: whoever is in at a later
    state of such a stretch was in at its beginning.
   */
  lemma {:induction false} NoAdmissionWhileActive(run: seq<State>, a: nat, b: nat, j: nat)
    requires Run(run) && a <= b < |run| && j < |run[0].threads|
    requires forall k | a <= k <= b :: run[k].active
    ensures |run[a].threads| == |run[b].threads| == |run[0].threads|
    ensures Admitted(run[b].threads[j]) ==> Admitted(run[a].threads[j])
    decreases b
  {
    RunIsSafe(run, b);
    if a < b {
      RunIsSafe(run, b - 1);
      NoAdmissionWhileActive(run, a, b - 1, j);
      NoAdmissionNext(run[b - 1], run[b], j);
    }
  }

  lemma {:induction false} NoAdmissionStep(s: State, i: nat, t: State, j: nat)
    requires Inv(s) && s.active && i < |s.threads| && j < |s.threads| && Step(s, i, t)
    ensures |t.threads| == |s.threads|
    ensures Admitted(t.threads[j]) ==> Admitted(s.threads[j])
  {
  }

  lemma {:induction false} NoAdmissionNext(s: State, t: State, j: nat)
    requires Inv(s) && s.active && j < |s.threads| && Follows(s, t)
    ensures |t.threads| == |s.threads|
    ensures Admitted(t.threads[j]) ==> Admitted(s.threads[j])
  {
    var i: nat :| i < |s.threads| && Step(s, i, t);
    NoAdmissionStep(s, i, t, j);
  }

  // ---------------------------------------------------------------- progress

  /** Steps a thread that is past the first check still has to take before it is out. */
  function Rank(pc: Pc): (n: nat) {
    match pc
    case M1 => 3
    case M2 => 2
    case MBack => 1
    case MIn => 1
    case R2 => 2
    case R3 => 1
    case _ => 0
  }

  /** What is left to do before the drain is complete. */
  function Remaining(s: State): (n: nat) {
    Count(s.threads, Rank)
  }

  lemma {:induction false} RankStep(s: State, i: nat, t: State)
    requires Inv(s) && s.active && i < |s.threads| && Step(s, i, t)
    ensures |t.threads| == |s.threads| && t.threads == s.threads[i := t.threads[i]]
    ensures Rank(t.threads[i]) <= Rank(s.threads[i])
    ensures Rank(s.threads[i]) > 0 ==> Rank(t.threads[i]) < Rank(s.threads[i])
  {
  }

  /** While `active` is up, nothing increases what is left, and every thread involved decreases it. */
  lemma {:induction false} DrainDecreases(s: State, i: nat, t: State)
    requires Inv(s) && s.active && i < |s.threads| && Step(s, i, t)
    ensures Remaining(t) <= Remaining(s)
    ensures Rank(s.threads[i]) > 0 ==> Remaining(t) < Remaining(s)
  {
    RankStep(s, i, t);
    CountUpdate(s.threads, Rank, i, t.threads[i]);
  }

  /** The step that a thread involved in the drain can take now, if it is not waiting for others. */
  function NextStep(s: State, i: nat): (t: State)
    requires i < |s.threads|
  {
    match s.threads[i]
    case M1 => if s.announced then At(s, i, Idle) else At(s, i, M2).(readers := s.readers + 1)
    case M2 => At(s, i, if s.active then MBack else MIn)
    case MBack => At(s, i, Idle).(readers := s.readers - 1)
    case MIn => At(s, i, Idle).(readers := s.readers - 1)
    case R2 => At(s, i, R3).(announced := true)
    case R3 => At(s, i, RIn).(exclusive := true)
    case _ => s
  }

  /** A lifecycle never holds a read lock while a restore is active, so only mutations are waited for. */
  lemma {:induction false} WaitedFor(s: State) returns (i: nat)
    requires Inv(s) && s.active && s.readers > 0
    ensures i < |s.threads| && (s.threads[i].M2? || s.threads[i].MBack? || s.threads[i].MIn?)
  {
    i := SomeCounted(s.threads, ReadLocks);
  }

  /**
    The drain cannot get stuck: as long as something is left to do, some thread
    involved has an enabled step, which by DrainDecreases brings the end nearer.
   */
  lemma {:induction false} DrainAdvances(s: State) returns (i: nat, t: State)
    requires Inv(s) && s.active && Remaining(s) > 0
    ensures i < |s.threads| && Rank(s.threads[i]) > 0 && Step(s, i, t)
    ensures Remaining(t) < Remaining(s)
  {
    i := SomeCounted(s.threads, Rank);
    if s.threads[i] == R3 && s.readers > 0 {
      i := WaitedFor(s);
    }
    if s.threads[i] == R3 {
      CountAtLeast(s.threads, ReadLocks, i);
    }
    t := NextStep(s, i);
    DrainDecreases(s, i, t);
  }

  /** When nothing is left, the restore that raised `active` holds the lock alone. */
  lemma {:induction false} DrainedIsIn(s: State) returns (i: nat)
    requires Inv(s) && s.active && Remaining(s) == 0
    ensures i < |s.threads| && s.threads[i] == RIn && s.readers == 0
  {
    i := s.begin;
    CountAtLeast(s.threads, Rank, i);
  }

  /** The run goes on by steps of the other threads or this one, from s, without lowering `active`. */
  ghost predicate Drains(run: seq<State>) {
    && run != [] && (forall k | 0 < k < |run| :: Follows(run[k - 1], run[k]))
    && forall k | 0 <= k < |run| :: run[k].active
  }

  /** From every state with a restore under way there is a run on which it gets in, without anybody else getting in first. */
  lemma {:induction false} DrainCompletes(s: State) returns (run: seq<State>, i: nat)
    requires Inv(s) && s.active
    ensures Drains(run) && run[0] == s
    ensures
      var t := run[|run| - 1];
      i < |t.threads| && t.threads[i] == RIn && t.readers == 0 && t.exclusive
    decreases Remaining(s)
  {
    if Remaining(s) == 0 {
      run := [s];
      i := DrainedIsIn(s);
    } else {
      var j, t := DrainAdvances(s);
      StepKeepsInv(s, j, t);
      StaysActive(s, j, t);
      var rest;
      rest, i := DrainCompletes(t);
      run := [s] + rest;
      assert Follows(s, t);
      forall k | 0 < k < |run|
        ensures Follows(run[k - 1], run[k])
      {
        if k > 1 {
          assert Follows(rest[k - 2], rest[k - 1]);
        }
      }
    }
  }

  lemma {:induction false} StaysActive(s: State, i: nat, t: State)
    requires Inv(s) && s.active && i < |s.threads| && Rank(s.threads[i]) > 0 && Step(s, i, t)
    ensures t.active
  {
  }

  // ---------------------------------------------------------------- admission

  /** From s on, thread i takes one step after the other, the others standing still. */
  ghost predicate Goes(s: State, i: nat, run: seq<State>) {
    && run != [] && run[0] == s && i < |s.threads|
    && (forall k | 0 <= k < |run| :: |run[k].threads| == |s.threads|)
    && forall k | 0 < k < |run| :: Step(run[k - 1], i, run[k])
  }

  lemma {:induction false} Twice(threads: seq<Pc>, i: nat, a: Pc, b: Pc)
    requires i < |threads|
    ensures threads[i := a][i := b] == threads[i := b] && threads[i := threads[i]] == threads
  {
  }

  lemma {:induction false} GoesOn(s: State, i: nat, run: seq<State>, t: State)
    requires Goes(s, i, run) && Step(run[|run| - 1], i, t) && |t.threads| == |s.threads|
    ensures Goes(s, i, run + [t])
  {
  }

  /** Without a restore, a mutation is admitted, however many others are, and leaves nothing behind. */
  lemma {:induction false} MutationGetsIn(s: State, i: nat) returns (run: seq<State>)
    requires Inv(s) && i < |s.threads| && s.threads[i] == Idle && !s.active && !s.announced
    ensures Goes(s, i, run) && |run| == 5 && run[3].threads[i] == MIn && run[4] == s
  {
    var a := s.(threads := s.threads[i := M1]);
    var b := s.(threads := s.threads[i := M2], readers := s.readers + 1);
    var c := s.(threads := s.threads[i := MIn], readers := s.readers + 1);
    Twice(s.threads, i, M1, M2);
    Twice(s.threads, i, M2, MIn);
    Twice(s.threads, i, MIn, Idle);
    run := [s, a, b, c, s];
  }

  /** With `begin` free a lifecycle is admitted, whatever mutations are, ... */
  lemma {:induction false} LifecycleGetsIn(s: State, i: nat) returns (run: seq<State>)
    requires Inv(s) && i < |s.threads| && s.threads[i] == Idle && s.begin == FREE
    ensures Goes(s, i, run) && |run| == 6
    ensures run[5] == s.(threads := s.threads[i := LIn], begin := i, readers := s.readers + 1, lifecycle := true)
  {
    var a := s.(threads := s.threads[i := L1], begin := i);
    var b := s.(threads := s.threads[i := L2], begin := i);
    var c := s.(threads := s.threads[i := L3], begin := i, readers := s.readers + 1);
    var d := s.(threads := s.threads[i := L4], begin := i, readers := s.readers + 1);
    var e := s.(threads := s.threads[i := LIn], begin := i, readers := s.readers + 1, lifecycle := true);
    Twice(s.threads, i, L1, L2);
    Twice(s.threads, i, L2, L3);
    Twice(s.threads, i, L3, L4);
    Twice(s.threads, i, L4, LIn);
    run := [s, a, b, c];
    GoesOn(s, i, run, d);
    run := run + [d];
    GoesOn(s, i, run, e);
    run := run + [e];
  }

  /** ... and when it is released nothing is left behind. */
  lemma {:induction false} LifecycleGetsOut(s: State, i: nat) returns (run: seq<State>)
    requires Inv(s) && i < |s.threads| && s.threads[i] == Idle && s.begin == FREE
    ensures
      var in_ := s.(threads := s.threads[i := LIn], begin := i, readers := s.readers + 1, lifecycle := true);
      Goes(in_, i, run) && |run| == 4 && run[3] == s
  {
    var in_ := s.(threads := s.threads[i := LIn], begin := i, readers := s.readers + 1, lifecycle := true);
    var f := s.(threads := s.threads[i := LOut1], begin := i, readers := s.readers + 1);
    var g := s.(threads := s.threads[i := LOut2], begin := i);
    Twice(s.threads, i, LIn, LOut1);
    Twice(s.threads, i, LOut1, LOut2);
    Twice(s.threads, i, LOut2, Idle);
    run := [in_, f, g, s];
  }

  /** With `begin` free and nobody admitted a restore gets in at once, ... */
  lemma {:induction false} RestoreGetsIn(s: State, i: nat) returns (run: seq<State>)
    requires Inv(s) && i < |s.threads| && s.threads[i] == Idle && s.begin == FREE && s.readers == 0
    ensures Goes(s, i, run) && |run| == 5
    ensures run[4] == s.(threads := s.threads[i := RIn], begin := i, active := true, announced := true, exclusive := true)
  {
    var a := s.(threads := s.threads[i := R1], begin := i);
    var b := s.(threads := s.threads[i := R2], begin := i, active := true);
    var c := s.(threads := s.threads[i := R3], begin := i, active := true, announced := true);
    var d := s.(threads := s.threads[i := RIn], begin := i, active := true, announced := true, exclusive := true);
    Twice(s.threads, i, R1, R2);
    Twice(s.threads, i, R2, R3);
    Twice(s.threads, i, R3, RIn);
    run := [s, a, b];
    GoesOn(s, i, run, c);
    run := run + [c];
    GoesOn(s, i, run, d);
    run := run + [d];
  }

  /** ... and when it is released nothing is left behind. */
  lemma {:induction false} RestoreGetsOut(s: State, i: nat) returns (run: seq<State>)
    requires Inv(s) && i < |s.threads| && s.threads[i] == Idle && s.begin == FREE
    ensures
      var in_ := s.(threads := s.threads[i := RIn], begin := i, active := true, announced := true, exclusive := true);
      Goes(in_, i, run) && |run| == 4 && run[3] == s
  {
    var in_ := s.(threads := s.threads[i := RIn], begin := i, active := true, announced := true, exclusive := true);
    var e := s.(threads := s.threads[i := ROut1], begin := i, announced := true, exclusive := true);
    var f := s.(threads := s.threads[i := ROut2], begin := i);
    Twice(s.threads, i, RIn, ROut1);
    Twice(s.threads, i, ROut1, ROut2);
    Twice(s.threads, i, ROut2, Idle);
    run := [in_, e, f, s];
  }

  // ---------------------------------------------------------------- waiting

  /** The locks that are taken together, in the order of their ranks. */
  datatype Lock = Begin | RestoreMu | Mu | SnapshotMu | CoreLock | ReservedMu

  /** What a thread does next: wait for a lock, try one without waiting, or wait for the HTTP requests to end. */
  datatype Act = Take(lock: Lock) | Try(lock: Lock) | Join

  /** A kind of thread: what it does in order, and whether it is an HTTP request. */
  datatype Path = Path(acts: seq<Act>, request: bool)

  /** web/service/portable_backup.go:336-360; the core's start in it also syncs the reserved ports. */
  const IMPORT := Path([Take(RestoreMu), Try(Begin), Take(Mu), Take(SnapshotMu), Take(CoreLock), Take(ReservedMu)], true)

  /** main.go:125-167: a reload stops the core, waits for the server to shut down, and starts the core. */
  const RELOAD_STOP := Path([Try(Begin), Try(Mu), Take(CoreLock)], false)
  const RELOAD_JOIN := Path([Try(Begin), Try(Mu), Join], false)
  const RELOAD_START := Path([Try(Begin), Try(Mu), Take(CoreLock), Take(ReservedMu)], false)

  /** database/restore_barrier.go:79-84: a restore outside an HTTP request may wait for its turn. */
  const WAITING_RESTORE := Path([Take(Begin), Take(Mu)], false)

  /** Mutations and jobs, as requests or not, and backups without admission. */
  predicate IsWork(p: Path) {
    p.acts in {[Try(Mu), Take(SnapshotMu)], [Try(Mu), Take(CoreLock), Take(ReservedMu)], [Try(Mu), Take(ReservedMu)],
               [Take(SnapshotMu)], [Take(CoreLock), Take(ReservedMu)], [Take(ReservedMu)]}
  }

  predicate IsPath(p: Path) {
    p == IMPORT || p == RELOAD_STOP || p == RELOAD_JOIN || p == RELOAD_START || p == WAITING_RESTORE || IsWork(p)
  }

  /** A thread that has done the first `done` acts of its path. */
  datatype Walker = Walker(path: Path, done: nat)

  predicate OnPath(w: Walker) {
    IsPath(w.path) && w.done <= |w.path.acts|
  }

  predicate Holds(w: Walker, l: Lock)
    requires w.done <= |w.path.acts|
  {
    exists k :: 0 <= k < w.done && (w.path.acts[k] == Take(l) || w.path.acts[k] == Try(l))
  }

  /** Thread w cannot go on before thread v has: v holds the lock w waits for, or is a request w waits for. */
  predicate WaitsFor(w: Walker, v: Walker)
    requires w.done <= |w.path.acts| && v.done <= |v.path.acts|
  {
    w.done < |w.path.acts| &&
    match w.path.acts[w.done]
    case Take(l) => Holds(v, l)
    case Try(_) => false
    case Join => v.path.request
  }

  function LockRank(l: Lock): (n: nat) {
    match l case Begin => 0 case RestoreMu => 2 case Mu => 3 case SnapshotMu => 4 case CoreLock => 5 case ReservedMu => 6
  }

  /** How late in the order of waits a thread is; one that does not wait is last. */
  function WaitRank(w: Walker): (n: nat)
    requires w.done <= |w.path.acts|
  {
    if w.done == |w.path.acts| then 7
    else match w.path.acts[w.done]
         case Take(l) => LockRank(l)
         case Try(_) => 7
         case Join => 1
  }

  /** What a thread holds, it has in front of its later waits; a reload that joins holds only Begin and Mu. */
  lemma {:induction false} HeldRank(v: Walker, l: Lock)
    requires OnPath(v) && Holds(v, l)
    ensures LockRank(l) < WaitRank(v) || (l == Mu && v == Walker(RELOAD_JOIN, 2))
  {
    if v.path == IMPORT {
      ImportRank(v, l);
    } else if IsWork(v.path) {
      WorkRank(v, l);
    } else {
      ReloadRank(v, l);
    }
  }

  lemma {:induction false} ImportRank(v: Walker, l: Lock)
    requires v.path == IMPORT && v.done <= 6 && Holds(v, l)
    ensures LockRank(l) < WaitRank(v)
  {
    var k :| 0 <= k < v.done && (v.path.acts[k] == Take(l) || v.path.acts[k] == Try(l));
  }

  lemma {:induction false} WorkRank(v: Walker, l: Lock)
    requires IsWork(v.path) && v.done <= |v.path.acts| && Holds(v, l)
    ensures LockRank(l) < WaitRank(v)
  {
    var k :| 0 <= k < v.done && (v.path.acts[k] == Take(l) || v.path.acts[k] == Try(l));
  }

  lemma {:induction false} ReloadRank(v: Walker, l: Lock)
    requires v.path == RELOAD_STOP || v.path == RELOAD_JOIN || v.path == RELOAD_START || v.path == WAITING_RESTORE
    requires v.done <= |v.path.acts| && Holds(v, l)
    ensures LockRank(l) < WaitRank(v) || (l == Mu && v == Walker(RELOAD_JOIN, 2))
  {
    var k :| 0 <= k < v.done && (v.path.acts[k] == Take(l) || v.path.acts[k] == Try(l));
  }

  lemma {:induction false} RequestRank(v: Walker)
    requires OnPath(v) && v.path.request
    ensures WaitRank(v) > 1
  {
  }

  lemma {:induction false} MuWaiterHoldsBegin(w: Walker)
    requires OnPath(w) && w.done < |w.path.acts| && w.path.acts[w.done] == Take(Mu)
    ensures Holds(w, Begin)
  {
    if w.path == IMPORT {
      assert w.path.acts[1] == Try(Begin);
    } else {
      assert w.path.acts[0] == Take(Begin);
    }
  }

  lemma {:induction false} JoinerHoldsBegin()
    ensures Holds(Walker(RELOAD_JOIN, 2), Begin)
  {
    assert RELOAD_JOIN.acts[0] == Try(Begin);
  }

  /** Every wait is for a thread that is later in the order, because `begin` has one holder. */
  lemma {:induction false} WaitAscends(w: Walker, v: Walker)
    requires OnPath(w) && OnPath(v) && WaitsFor(w, v) && !(Holds(w, Begin) && Holds(v, Begin))
    ensures WaitRank(w) < WaitRank(v)
  {
    match w.path.acts[w.done]
    case Take(l) =>
      HeldRank(v, l);
      if l == Mu {
        MuWaiterHoldsBegin(w);
        JoinerHoldsBegin();
      }
    case Join =>
      RequestRank(v);
  }

  lemma {:induction false} NoSelfWait(w: Walker)
    requires OnPath(w)
    ensures !WaitsFor(w, w)
  {
    if WaitsFor(w, w) && w.path.acts[w.done].Take? {
      HeldRank(w, w.path.acts[w.done].lock);
    }
  }

  /** Threads of which each waits for the next; at most one of them holds `begin`. */
  predicate Chain(ws: seq<Walker>) {
    && (forall i | 0 <= i < |ws| :: OnPath(ws[i]))
    && (forall i, j | 0 <= i < j < |ws| :: !(Holds(ws[i], Begin) && Holds(ws[j], Begin)))
    && (forall i | 0 < i < |ws| :: WaitsFor(ws[i - 1], ws[i]))
  }

  lemma {:induction false} ChainAscends(ws: seq<Walker>, n: nat)
    requires Chain(ws) && n < |ws|
    ensures WaitRank(ws[0]) + n <= WaitRank(ws[n])
  {
    if n > 0 {
      ChainAscends(ws, n - 1);
      WaitAscends(ws[n - 1], ws[n]);
    }
  }

  /**
    No threads wait for each other in a circle, also counting that a reload waits for
    the HTTP requests, the import among them, to end.
   */
  lemma {:induction false} NoWaitCycle(ws: seq<Walker>)
    requires Chain(ws) && ws != []
    ensures !WaitsFor(ws[|ws| - 1], ws[0])
  {
    var n := |ws| - 1;
    if n == 0 {
      NoSelfWait(ws[0]);
    } else if WaitsFor(ws[n], ws[0]) {
      ChainAscends(ws, n);
      WaitAscends(ws[n], ws[0]);
    }
  }

  /** What TryBeginRestore is for: an import that waited for `begin` would wait for a reload that waits for it. */
  lemma {:induction false} WaitingImportDeadlocks()
    ensures
      var blocking := Path([Take(RestoreMu), Take(Begin), Take(Mu), Take(SnapshotMu), Take(CoreLock)], true);
      var import_, reload := Walker(blocking, 1), Walker(RELOAD_JOIN, 2);
      WaitsFor(import_, reload) && WaitsFor(reload, import_) && !Holds(import_, Begin)
  {
    JoinerHoldsBegin();
  }
}
