/**
  Feature dependencies of a core instance (core/core/xray.go): callbacks wait for the
  features they need, and the outcome does not depend on the order of the calls.
 */
module FeatureResolution {
  import opened Collections

  /** The types a callback needs, and which callback it is. */
  datatype Resolution = Resolution(deps: seq<int>, callback: int)

  /** A call made before the instance is started. */
  datatype Call =
    | Require(resolution: Resolution, optional: bool)
    | Add(feature: int)

  predicate AllIn(deps: seq<int>, features: seq<int>) {
    deps == [] || (deps[0] in features && AllIn(deps[1..], features))
  }

  predicate Met(r: Resolution, features: seq<int>) {
    AllIn(r.deps, features)
  }

  lemma {:induction false} AllInIff(deps: seq<int>, features: seq<int>)
    ensures AllIn(deps, features) <==> forall d | d in deps :: d in features
  {
    if deps != [] {
      AllInIff(deps[1..], features);
      assert forall d :: d in deps <==> d == deps[0] || d in deps[1..];
    }
  }

  lemma {:induction false} AllInMore(deps: seq<int>, features: seq<int>, f: int)
    requires AllIn(deps, features)
    ensures AllIn(deps, features + [f])
  {
    if deps != [] {
      AllInMore(deps[1..], features, f);
    }
  }

  // ---------------------------------------------------------------- what the calls amount to

  function Features(calls: seq<Call>): (fs: seq<int>) {
    if calls == [] then [] else
      var last := calls[|calls| - 1];
      Features(calls[..|calls| - 1]) + if last.Add? then [last.feature] else []
  }

  function Required(calls: seq<Call>, optional: bool): (rs: seq<Resolution>) {
    if calls == [] then [] else
      var last := calls[|calls| - 1];
      Required(calls[..|calls| - 1], optional) +
      if last.Require? && last.optional == optional then [last.resolution] else []
  }

  /** The resolutions that are met, or the ones that are not, in order. */
  function Select(rs: seq<Resolution>, features: seq<int>, met: bool): (chosen: seq<Resolution>) {
    if rs == [] then [] else
      (if Met(rs[0], features) == met then [rs[0]] else []) + Select(rs[1..], features, met)
  }

  /** The callbacks that still wait for a feature. */
  function Waiting(calls: seq<Call>, optional: bool): (rs: seq<Resolution>) {
    Select(Required(calls, optional), Features(calls), false)
  }

  function Ready(calls: seq<Call>, optional: bool): (rs: seq<Resolution>) {
    Select(Required(calls, optional), Features(calls), true)
  }

  /** The callbacks that should have been called. */
  function Due(calls: seq<Call>): (fired: multiset<Resolution>) {
    multiset(Ready(calls, false)) + multiset(Ready(calls, true))
  }

  lemma {:induction false} SelectAppend(a: seq<Resolution>, b: seq<Resolution>, features: seq<int>, met: bool)
    ensures Select(a + b, features, met) == Select(a, features, met) + Select(b, features, met)
  {
    if a == [] {
      assert a + b == b;
    } else {
      SelectAppend(a[1..], b, features, met);
      assert (a + b)[1..] == a[1..] + b && (a + b)[0] == a[0];
      var own := if Met(a[0], features) == met then [a[0]] else [];
      Assoc(own, Select(a[1..], features, met), Select(b, features, met));
    }
  }

  lemma {:induction false} SelectOne(r: Resolution, features: seq<int>, met: bool)
    ensures Select([r], features, met) == if Met(r, features) == met then [r] else []
  {
    assert [r][1..] == [];
  }

  /** One more feature: what waits is what still waits of what waited before, and the rest becomes due. */
  lemma {:induction false} OneMoreFeature(rs: seq<Resolution>, features: seq<int>, f: int)
    ensures Select(rs, features + [f], false) == Select(Select(rs, features, false), features + [f], false)
    ensures multiset(Select(rs, features + [f], true)) ==
            multiset(Select(rs, features, true)) + multiset(Select(Select(rs, features, false), features + [f], true))
  {
    if rs != [] {
      var more := features + [f];
      OneMoreFeature(rs[1..], features, f);
      var own := if Met(rs[0], features) then [] else [rs[0]];
      SelectAppend(own, Select(rs[1..], features, false), more, false);
      SelectAppend(own, Select(rs[1..], features, false), more, true);
      SelectOne(rs[0], more, false);
      SelectOne(rs[0], more, true);
      if Met(rs[0], features) {
        AllInMore(rs[0].deps, features, f);
      }
    }
  }

  // ---------------------------------------------------------------- the order of the calls does not matter

  lemma {:induction false} SelectCount(rs: seq<Resolution>, features: seq<int>, met: bool, r: Resolution)
    ensures multiset(Select(rs, features, met))[r] == if Met(r, features) == met then multiset(rs)[r] else 0
  {
    if rs != [] {
      SelectCount(rs[1..], features, met, r);
      assert rs == [rs[0]] + rs[1..];
    }
  }

  lemma {:induction false} RequiredCount(calls: seq<Call>, optional: bool, r: Resolution)
    ensures multiset(Required(calls, optional))[r] == multiset(calls)[Require(r, optional)]
  {
    if calls != [] {
      var n := |calls| - 1;
      RequiredCount(calls[..n], optional, r);
      assert calls == calls[..n] + [calls[n]];
    }
  }

  lemma {:induction false} FeaturesAre(calls: seq<Call>, f: int)
    ensures f in Features(calls) <==> Add(f) in calls
  {
    if calls != [] {
      var n := |calls| - 1;
      FeaturesAre(calls[..n], f);
      assert calls == calls[..n] + [calls[n]];
    }
  }

  /** How often each callback is due: once for each time it was required, if all it needs was added. */
  lemma {:induction false} DueCount(calls: seq<Call>, r: Resolution)
    ensures Due(calls)[r] == if forall d | d in r.deps :: Add(d) in calls
                             then multiset(calls)[Require(r, false)] + multiset(calls)[Require(r, true)] else 0
  {
    SelectCount(Required(calls, false), Features(calls), true, r);
    SelectCount(Required(calls, true), Features(calls), true, r);
    RequiredCount(calls, false, r);
    RequiredCount(calls, true, r);
    AllInIff(r.deps, Features(calls));
    forall d ensures d in Features(calls) <==> Add(d) in calls {
      FeaturesAre(calls, d);
    }
  }

  lemma {:induction false} SameCalls(a: seq<Call>, b: seq<Call>)
    requires multiset(a) == multiset(b)
    ensures forall c :: c in a <==> c in b
  {
    forall c ensures c in a <==> c in b {
      assert c in multiset(a) <==> c in multiset(b);
    }
  }

  /** Confluence: two orders of the same calls make the same callbacks due. */
  lemma {:induction false} Confluence(a: seq<Call>, b: seq<Call>)
    requires multiset(a) == multiset(b)
    ensures Due(a) == Due(b)
  {
    SameCalls(a, b);
    forall r ensures Due(a)[r] == Due(b)[r] {
      DueCount(a, r);
      DueCount(b, r);
    }
  }

  /** A required callback that waits for a feature nobody added. */
  predicate Unmet(calls: seq<Call>, c: Call) {
    c.Require? && !c.optional && !forall d | d in c.resolution.deps :: Add(d) in calls
  }

  lemma {:induction false} WaitingIff(calls: seq<Call>)
    ensures Waiting(calls, false) != [] <==> exists c :: c in calls && Unmet(calls, c)
  {
    var waiting := Waiting(calls, false);
    forall d ensures d in Features(calls) <==> Add(d) in calls {
      FeaturesAre(calls, d);
    }
    forall r ensures r in waiting <==> Require(r, false) in calls && Unmet(calls, Require(r, false)) {
      SelectCount(Required(calls, false), Features(calls), false, r);
      RequiredCount(calls, false, r);
      AllInIff(r.deps, Features(calls));
      assert r in waiting <==> multiset(waiting)[r] > 0;
      assert Require(r, false) in calls <==> multiset(calls)[Require(r, false)] > 0;
    }
    if waiting != [] {
      assert waiting[0] in waiting;
      assert Unmet(calls, Require(waiting[0], false));
    }
    if c :| c in calls && Unmet(calls, c) {
      assert c == Require(c.resolution, false);
      assert c.resolution in waiting;
    }
  }

  /** The value of an instance's fields. */
  datatype Fields = Fields(features: seq<int>, pending: seq<Resolution>, optional: seq<Resolution>, fired: seq<Resolution>)

  /** The fields say exactly what the calls so far amount to. */
  predicate Agrees(calls: seq<Call>, v: Fields) {
    && v.features == Features(calls)
    && v.pending == Waiting(calls, false)
    && v.optional == Waiting(calls, true)
    && multiset(v.fired) == Due(calls)
  }

  // ---------------------------------------------------------------- the instance

  /** The search repeated for every resolution: lines 297-303, 334-340 and 352-358. */
  method FoundAll(features: seq<int>, deps: seq<int>) returns (all: bool)
    ensures all == AllIn(deps, features)
  {
    var rest := deps;
    all := true;
    while rest != [] && all
      invariant AllIn(deps, features) == (all && AllIn(rest, features))
      decreases |rest|
    {
      all := rest[0] in features;
      rest := rest[1..];
    }
  }

  method Split(features: seq<int>, rs: seq<Resolution>) returns (available: seq<Resolution>, pending: seq<Resolution>)
    ensures available == Select(rs, features, true) && pending == Select(rs, features, false)
  {
    available, pending := [], [];
    var i := 0;
    while i < |rs|
      invariant 0 <= i <= |rs|
      invariant available == Select(rs[..i], features, true) && pending == Select(rs[..i], features, false)
    {
      var foundAll := FoundAll(features, rs[i].deps);
      assert rs[..i + 1] == rs[..i] + [rs[i]];
      SelectAppend(rs[..i], [rs[i]], features, true);
      SelectAppend(rs[..i], [rs[i]], features, false);
      SelectOne(rs[i], features, true);
      SelectOne(rs[i], features, false);
      if foundAll {
        available := available + [rs[i]];
      } else {
        pending := pending + [rs[i]];
      }
      i := i + 1;
    }
    assert rs[..i] == rs;
  }

  /** The fields after one more feature: what became available is called, the rest keeps waiting. */
  function Added(v: Fields, feature: int): (w: Fields) {
    var more := v.features + [feature];
    Fields(more, Select(v.pending, more, false), Select(v.optional, more, false),
           v.fired + Select(v.pending, more, true) + Select(v.optional, more, true))
  }

  /** Lines 328-371, on the value of the fields. */
  method WithFeature(v: Fields, feature: int, ghost calls: seq<Call>) returns (w: Fields)
    requires Agrees(calls, v)
    ensures Agrees(calls + [Add(feature)], w)
  {
    AddAgrees(calls, v, feature);
    var features := v.features + [feature];
    var available, pending := Split(features, v.pending);
    var availableOptional, pendingOptional := Split(features, v.optional);
    w := Fields(features, pending, pendingOptional, v.fired + available + availableOptional);
    assert w == Added(v, feature);
  }

  class Instance {
    var features: seq<int>
    var pendingResolutions: seq<Resolution>
    var pendingOptionalResolutions: seq<Resolution>
    var running: bool
    /** The callbacks called so far. */
    var fired: seq<Resolution>

    constructor ()
      ensures Reflects([]) && !running
    {
      features, pendingResolutions, pendingOptionalResolutions, fired := [], [], [], [];
      running := false;
    }

    function Value(): (v: Fields)
      reads this
    {
      Fields(features, pendingResolutions, pendingOptionalResolutions, fired)
    }

    ghost predicate Reflects(calls: seq<Call>)
      reads this
    {
      Agrees(calls, Value())
    }

    method RequireFeatures(r: Resolution, optional: bool, ghost calls: seq<Call>)
      requires Reflects(calls)
      modifies this`features, this`pendingResolutions, this`pendingOptionalResolutions, this`fired
      ensures Reflects(calls + [Require(r, optional)])
    {
      RequireAgrees(calls, Value(), r, optional);
      var foundAll := FoundAll(features, r.deps);
      if foundAll {
        fired := fired + [r];
      } else if optional {
        pendingOptionalResolutions := pendingOptionalResolutions + [r];
      } else {
        pendingResolutions := pendingResolutions + [r];
      }
    }

    /** Once the instance runs a feature is only started, not registered. */
    method AddFeature(feature: int, ghost calls: seq<Call>)
      requires Reflects(calls)
      modifies this`features, this`pendingResolutions, this`pendingOptionalResolutions, this`fired
      ensures if running then Reflects(calls) else Reflects(calls + [Add(feature)])
    {
      if running {
        return;
      }
      Register(feature, calls);
    }

    method Register(feature: int, ghost calls: seq<Call>)
      requires Reflects(calls)
      modifies this`features, this`pendingResolutions, this`pendingOptionalResolutions, this`fired
      ensures Reflects(calls + [Add(feature)])
    {
      var v := WithFeature(Value(), feature, calls);
      features, pendingResolutions, pendingOptionalResolutions, fired := v.features, v.pending, v.optional, v.fired;
      assert Value() == v;
    }

    /** The check of lines 235-240: initialisation is refused iff a required callback is unmet. */
    method Unresolved(ghost calls: seq<Call>) returns (refused: bool)
      requires Reflects(calls)
      ensures refused <==> exists c :: c in calls && Unmet(calls, c)
    {
      WaitingIff(calls);
      refused := pendingResolutions != [];
    }

    method Perform(call: Call, ghost calls: seq<Call>)
      requires Reflects(calls) && !running
      modifies this`features, this`pendingResolutions, this`pendingOptionalResolutions, this`fired
      ensures Reflects(calls + [call])
    {
      match call
      case Add(feature) => AddFeature(feature, calls);
      case Require(r, optional) => RequireFeatures(r, optional, calls);
    }

    /** Any sequence of calls before Start, after the ones already made. */
    method Apply(calls: seq<Call>, ghost done: seq<Call>)
      requires Reflects(done) && !running
      modifies this`features, this`pendingResolutions, this`pendingOptionalResolutions, this`fired
      ensures Reflects(done + calls)
      decreases |calls|
    {
      MoveOver(done, calls);
      if calls != [] {
        Perform(calls[0], done);
        Apply(calls[1..], done + [calls[0]]);
      }
    }
  }

  lemma {:induction false} MoveOver(done: seq<Call>, calls: seq<Call>)
    ensures done + calls == if calls == [] then done else done + [calls[0]] + calls[1..]
  {
  }

  lemma {:induction false} RequiredNext(calls: seq<Call>, c: Call, o: bool)
    ensures Features(calls + [c]) == if c.Add? then Features(calls) + [c.feature] else Features(calls)
    ensures Required(calls + [c], o) ==
            if c.Require? && c.optional == o then Required(calls, o) + [c.resolution] else Required(calls, o)
  {
    assert (calls + [c])[..|calls|] == calls;
  }

  /** What one more required callback changes. */
  lemma {:induction false} Waits(calls: seq<Call>, r: Resolution, optional: bool, o: bool)
    ensures
      var now, met := calls + [Require(r, optional)], Met(r, Features(calls));
      && Features(now) == Features(calls)
      && Waiting(now, o) == (if o == optional && !met then Waiting(calls, o) + [r] else Waiting(calls, o))
      && Ready(now, o) == (if o == optional && met then Ready(calls, o) + [r] else Ready(calls, o))
  {
    RequiredNext(calls, Require(r, optional), o);
    if o == optional {
      SelectAppend(Required(calls, o), [r], Features(calls), false);
      SelectAppend(Required(calls, o), [r], Features(calls), true);
      SelectOne(r, Features(calls), false);
      SelectOne(r, Features(calls), true);
    }
  }

  lemma {:induction false} DueNext(calls: seq<Call>, r: Resolution, optional: bool)
    ensures Due(calls + [Require(r, optional)]) ==
            if Met(r, Features(calls)) then Due(calls) + multiset{r} else Due(calls)
  {
    Waits(calls, r, optional, false);
    Waits(calls, r, optional, true);
    BagOf(Ready(calls, optional), [r]);
  }

  lemma {:induction false} BagOf(a: seq<Resolution>, b: seq<Resolution>)
    ensures multiset(a + b) == multiset(a) + multiset(b)
  {
  }

  /** What one more feature changes. */
  lemma {:induction false} Arrives(calls: seq<Call>, f: int, o: bool)
    ensures
      var now, more := calls + [Add(f)], Features(calls) + [f];
      && Features(now) == more
      && Waiting(now, o) == Select(Waiting(calls, o), more, false)
      && multiset(Ready(now, o)) == multiset(Ready(calls, o)) + multiset(Select(Waiting(calls, o), more, true))
  {
    RequiredNext(calls, Add(f), o);
    OneMoreFeature(Required(calls, o), Features(calls), f);
  }

  lemma {:induction false} RequireAgrees(calls: seq<Call>, v: Fields, r: Resolution, optional: bool)
    requires Agrees(calls, v)
    ensures Agrees(calls + [Require(r, optional)],
                   if Met(r, v.features) then v.(fired := v.fired + [r])
                   else if optional then v.(optional := v.optional + [r])
                   else v.(pending := v.pending + [r]))
  {
    Waits(calls, r, optional, false);
    Waits(calls, r, optional, true);
    DueNext(calls, r, optional);
    BagOf(v.fired, [r]);
  }

  lemma {:induction false} AddAgrees(calls: seq<Call>, v: Fields, f: int)
    requires Agrees(calls, v)
    ensures Agrees(calls + [Add(f)], Added(v, f))
  {
    Arrives(calls, f, false);
    Arrives(calls, f, true);
    var more := v.features + [f];
    BagOf(v.fired, Select(v.pending, more, true));
    BagOf(v.fired + Select(v.pending, more, true), Select(v.optional, more, true));
  }
}
