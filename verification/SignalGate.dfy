/**
  The reload signals that a restore refuses (restore_signal_gate.go) and the loop that
  serves them (main.go): a refused reload is retried by one timer until it is admitted.
 */
module SignalGate {

  datatype Timer = NoTimer | Timer(id: nat)

  /** The runtime's timers: the ones started and neither stopped nor received from. */
  class Clock {
    var live: set<nat>
    var next: nat

    constructor ()
      ensures live == {} && next == 0
    {
      live := {};
      next := 0;
    }
  }

  /** The gate of one signal kind; `ready` and `cancel` are set and cleared together. */
  class RestoreSignalGate {
    const clock: Clock
    var ready: Timer

    constructor (clock: Clock)
      ensures this.clock == clock && ready == NoTimer
    {
      this.clock := clock;
      ready := NoTimer;
    }

    function Armed(): (ids: set<nat>)
      reads this
    {
      if ready.NoTimer? then {} else {ready.id}
    }

    method Clear()
      modifies this, clock
      ensures ready == NoTimer && clock.next == old(clock.next)
      ensures clock.live == old(clock.live) - old(Armed())
    {
      if ready.Timer? {
        clock.live := clock.live - {ready.id};
      }
      ready := NoTimer;
    }

    /** `admit` answered `admitted`; `reloads` is called exactly when it did. */
    method Run(admitted: bool, reloads: nat) returns (ok: bool, done: nat)
      modifies this, clock
      ensures ok == admitted && done == reloads + (if admitted then 1 else 0)
      ensures clock.next >= old(clock.next)
      ensures admitted ==> ready == NoTimer && clock.live == old(clock.live) - old(Armed())
      ensures !admitted && old(ready).Timer? ==> ready == old(ready) && clock.live == old(clock.live)
      ensures !admitted && old(ready).NoTimer? ==>
                && ready == Timer(old(clock.next)) && clock.live == old(clock.live) + Armed()
                && clock.next > old(clock.next)
    {
      if !admitted {
        if ready.NoTimer? {
          ready := Timer(clock.next);
          clock.live := clock.live + {clock.next};
          clock.next := clock.next + 1;
        }
        return false, reloads;
      }
      Clear();
      return true, reloads + 1;
    }
  }

  // ---------------------------------------------------------------- what should be pending

  datatype Kind = Panel | Core

  /** One turn of the loop: a signal from the system or a retry timer, and whether it was admitted. */
  datatype Event =
    | Signal(kind: Kind, admitted: bool)
    | Retry(kind: Kind, admitted: bool)

  /** The latest request of this kind was refused. */
  predicate Pending(events: seq<Event>, kind: Kind) {
    events != [] &&
    var last := events[|events| - 1];
    if last.kind == kind then !last.admitted else Pending(events[..|events| - 1], kind)
  }

  /** Only the timer of a pending kind can fire: the other channel is nil. */
  predicate Possible(events: seq<Event>) {
    events == [] ||
    var before := events[..|events| - 1];
    var last := events[|events| - 1];
    Possible(before) && (last.Retry? ==> Pending(before, last.kind))
  }

  function Admissions(events: seq<Event>, kind: Kind): (n: nat) {
    if events == [] then 0 else
      var last := events[|events| - 1];
      Admissions(events[..|events| - 1], kind) + if last.kind == kind && last.admitted then 1 else 0
  }

  /** No refused reload is forgotten: it stays pending until one of its kind is admitted. */
  lemma {:induction false} RefusedStaysPending(events: seq<Event>, k: nat)
    requires k < |events| && !events[k].admitted
    requires forall j | k < j < |events| :: events[j].kind == events[k].kind ==> !events[j].admitted
    ensures Pending(events, events[k].kind)
  {
    var n := |events| - 1;
    if k < n && events[n].kind != events[k].kind {
      assert events[..n][k] == events[k];
      RefusedStaysPending(events[..n], k);
    }
  }

  /** And nothing is retried without a refusal: some earlier request was refused and none admitted since. */
  lemma {:induction false} PendingWasRefused(events: seq<Event>, kind: Kind) returns (k: nat)
    requires Pending(events, kind)
    ensures k < |events| && events[k].kind == kind && !events[k].admitted
    ensures forall j | k < j < |events| :: events[j].kind != kind
  {
    k := |events| - 1;
    if events[k].kind != kind {
      k := PendingWasRefused(events[..k], kind);
    }
  }

  lemma {:induction false} PossiblePrefix(events: seq<Event>, n: nat)
    requires Possible(events) && n <= |events|
    ensures Possible(events[..n])
    decreases |events|
  {
    var m := |events| - 1;
    if n <= m {
      PossiblePrefix(events[..m], n);
      assert events[..m][..n] == events[..n];
    } else {
      assert events[..n] == events;
    }
  }

  // ---------------------------------------------------------------- the signal loop

  class SignalLoop {
    const clock: Clock
    const panel: RestoreSignalGate
    const core: RestoreSignalGate
    var panelReloads: nat
    var coreReloads: nat

    constructor ()
      ensures fresh(clock) && fresh(panel) && fresh(core) && Valid()
      ensures Serves([])
    {
      var c := new Clock();
      clock := c;
      panel := new RestoreSignalGate(c);
      core := new RestoreSignalGate(c);
      panelReloads, coreReloads := 0, 0;
    }

    /** The live timers are the ones the gates hold, and the two gates hold different ones. */
    ghost predicate Valid()
      reads this, clock, panel, core
    {
      && panel != core && panel.clock == clock && core.clock == clock
      && clock.live == panel.Armed() + core.Armed()
      && panel.Armed() !! core.Armed()
      && forall id | id in clock.live :: id < clock.next
    }

    function Gate(kind: Kind): (gate: RestoreSignalGate) {
      if kind == Panel then panel else core
    }

    function Reloads(kind: Kind): (n: nat)
      reads this
    {
      if kind == Panel then panelReloads else coreReloads
    }

    /** After these events a kind has an armed retry iff it is pending, and was reloaded once per admission. */
    ghost predicate Serves(events: seq<Event>)
      reads this, clock, panel, core
    {
      forall kind ::
        && (Gate(kind).ready.Timer? <==> Pending(events, kind))
        && Reloads(kind) == Admissions(events, kind)
    }

    /** One turn: receive from `sigCh` or from a ready timer, then run the gate of that kind. */
    method Turn(ghost events: seq<Event>, event: Event)
      requires Valid() && Serves(events)
      requires event.Retry? ==> Pending(events, event.kind)
      modifies this, clock, panel, core
      ensures Valid() && Serves(events + [event])
    {
      assert (events + [event])[..|events|] == events;
      if event.Retry? {
        Gate(event.kind).Clear();
      }
      var ok, done := Gate(event.kind).Run(event.admitted, Reloads(event.kind));
      if event.kind == Panel {
        panelReloads := done;
      } else {
        coreReloads := done;
      }
    }

    /** Any run of the loop keeps exactly one retry armed for each pending kind. */
    method Serve(events: seq<Event>)
      requires Valid() && Serves([]) && Possible(events)
      modifies this, clock, panel, core
      ensures Valid() && Serves(events)
    {
      var n := 0;
      while n < |events|
        invariant 0 <= n <= |events| && Valid() && Serves(events[..n])
      {
        PossiblePrefix(events, n + 1);
        assert events[..n + 1][..n] == events[..n];
        Turn(events[..n], events[n]);
        assert events[..n] + [events[n]] == events[..n + 1];
        n := n + 1;
      }
      assert events[..n] == events;
    }

    /** As many timers run as there are kinds pending. */
    lemma {:induction false} OneTimerEach(events: seq<Event>)
      requires Valid() && Serves(events)
      ensures |clock.live| == (if Pending(events, Panel) then 1 else 0) + (if Pending(events, Core) then 1 else 0)
    {
      assert Gate(Panel) == panel && Gate(Core) == core;
      assert |clock.live| == |panel.Armed()| + |core.Armed()|;
    }

    /** The deferred clears leave no timer behind. */
    method Shutdown()
      requires Valid()
      modifies clock, panel, core
      ensures Valid() && clock.live == {}
    {
      core.Clear();
      panel.Clear();
    }
  }
}
