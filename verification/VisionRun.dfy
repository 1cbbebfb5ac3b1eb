/**
  Whole runs of the Vision objects: a writer that is given any calls, a reader that gets
  its bytes in any buffers, each with the sniffer of its own end, which the other
  direction's traffic passes too.
 */
module VisionRun {
  import opened Bytes
  import opened Collections
  import opened VisionFrame
  import opened VisionTls
  import opened VisionState
  import R = VisionReader
  import W = VisionWriter
  import E = VisionEndToEnd

  /** What happens at a reader's end: buffers arrive for it, or traffic of the other direction passes the sniffer. */
  datatype Step = Arrive(mb: seq<seq<byte>>, stale: int -> int) | Other(mb: seq<seq<byte>>, stale: int -> int)

  predicate SizedSteps(steps: seq<Step>) {
    steps == [] || ((steps[0].Arrive? ==> W.Buffers(steps[0].mb, SIZE)) && SizedSteps(steps[1..]))
  }

  /** What a read shows to the sniffer. */
  function ShownBy(uuid: seq<byte>, k: R.Link, filtering: bool, mb: seq<seq<byte>>): (r: seq<seq<byte>>)
    requires k.parser.Valid()
  {
    if Flatten(mb) == [] || k.direct then []
    else if k.within || filtering then UnpadBuffers(uuid, k.parser, mb)
    else mb
  }

  /** The reads of a run, each with whether the sniffer was still counting when it was made. */
  function Trace(uuid: seq<byte>, k: R.Link, s: Sniffer, steps: seq<Step>): (calls: seq<R.Read>)
    requires k.parser.Valid()
    decreases |steps|
  {
    if steps == [] then []
    else
      match steps[0]
      case Other(mb, stale) => Trace(uuid, k, Filter(s, mb, stale), steps[1..])
      case Arrive(mb, stale) =>
        var f := s.packets > 0;
        [R.Read(mb, f)] +
        Trace(uuid, R.ReadStep(uuid, k, f, mb).link, Filter(s, ShownBy(uuid, k, f, mb), stale), steps[1..])
  }

  /** A sniffer that has stopped counting does not start again, so no read of a run filters after one that did not. */
  lemma {:induction false} TraceStops(uuid: seq<byte>, k: R.Link, s: Sniffer, steps: seq<Step>)
    requires k.parser.Valid() && Consistent(s)
    ensures R.FilterStops(Trace(uuid, k, s, steps))
    ensures s.packets <= 0 ==> R.AllOff(Trace(uuid, k, s, steps))
    decreases |steps|
  {
    if steps != [] {
      match steps[0]
      case Other(mb, stale) =>
        FilterKeeps(s, mb, stale);
        TraceStops(uuid, k, Filter(s, mb, stale), steps[1..]);
      case Arrive(mb, stale) =>
        var f := s.packets > 0;
        var shown := ShownBy(uuid, k, f, mb);
        FilterKeeps(s, shown, stale);
        var l := R.ReadStep(uuid, k, f, mb).link;
        TraceStops(uuid, l, Filter(s, shown, stale), steps[1..]);
        assert Trace(uuid, k, s, steps)[1..] == Trace(uuid, l, Filter(s, shown, stale), steps[1..]);
    }
  }

  /** A sender after one event. */
  function Happened(seed: W.Seed, u: W.Sender, e: W.Event): (v: W.Sender)
    requires W.Safe(seed) && (e.Write? ==> W.Sized(e.m))
  {
    match e
    case Write(m, noise, stale) => W.Written(seed, u, m, noise, stale)
    case Sniff(mb, stale) => u.(sniffer := Filter(u.sniffer, mb, stale))
  }

  function Given(e: W.Event): (s: seq<byte>) {
    if e.Write? then W.Plain(e.m) else []
  }

  /** One more event of a run. */
  lemma {:induction false} RunNext(seed: W.Seed, es: seq<W.Event>, n: nat)
    requires W.Safe(seed) && W.SizedEvents(es) && n < |es|
    ensures W.SizedEvents(es[..n]) && W.SizedEvents(es[..n + 1]) && (es[n].Write? ==> W.Sized(es[n].m))
    ensures W.After(seed, W.NEW_SENDER, es[..n + 1]) == Happened(seed, W.After(seed, W.NEW_SENDER, es[..n]), es[n])
    ensures W.Input(es[..n + 1]) == W.Input(es[..n]) + Given(es[n])
  {
    var now := es[..n + 1];
    assert now[..n] == es[..n] && now[n] == es[n];
  }

  /** A writer over a whole run: calls, and traffic of the other direction that passes its sniffer. */
  method WriteRun(w: VisionWriter, es: seq<W.Event>)
    requires w.Valid() && w.Abs() == W.NEW_SENDER && w.input == [] && W.SizedEvents(es)
    modifies w, w.state
    ensures w.Valid() && w.input == W.Input(es)
    ensures w.Abs() == W.After(w.seed, W.NEW_SENDER, es)
  {
    ghost var u, input := w.Abs(), w.input;
    for n := 0 to |es|
      invariant w.Valid() && w.Abs() == u && w.input == input
      invariant u == W.After(w.seed, W.NEW_SENDER, es[..n]) && input == W.Input(es[..n])
    {
      RunNext(w.seed, es, n);
      WriteNext(w, es[n]);
      u, input := Happened(w.seed, u, es[n]), input + Given(es[n]);
    }
    assert es[..|es|] == es;
  }

  method WriteNext(w: VisionWriter, e: W.Event)
    requires w.Valid() && (e.Write? ==> W.Sized(e.m))
    modifies w, w.state
    ensures w.Valid() && w.Abs() == old(Happened(w.seed, w.Abs(), e)) && w.input == old(w.input) + Given(e)
  {
    match e
    case Write(m, noise, stale) => w.WriteMultiBuffer(m, noise, stale);
    case Sniff(mb, stale) => Sniffed(w, mb, stale);
  }

  /** Traffic passes a sniffer that may have stopped. */
  method Passed(state: TrafficState, mb: seq<seq<byte>>, stale: int -> int)
    requires state.Valid()
    modifies state`sniffer
    ensures state.Valid() && state.sniffer == old(Filter(state.sniffer, mb, stale))
  {
    FilterKeeps(state.sniffer, mb, stale);
    if state.sniffer.packets > 0 {
      state.sniffer := XtlsFilterTls(state.sniffer, mb, stale);
    }
  }

  /** Traffic of the other direction: only the sniffer notices. */
  method Sniffed(w: VisionWriter, mb: seq<seq<byte>>, stale: int -> int)
    requires w.Valid()
    modifies w.state`sniffer
    ensures w.Valid() && w.Abs() == old(w.Abs().(sniffer := Filter(w.state.sniffer, mb, stale)))
  {
    Passed(w.state, mb, stale);
  }

  // ---------------------------------------------------------------- the reader

  /** The bytes of a run, with what was read ahead put in where the reader switched to direct copy. */
  function Inserted(out: seq<byte>, n: nat, ahead: seq<byte>): (r: seq<byte>) {
    if n <= |out| then out[..n] + ahead + out[n..] else out
  }

  lemma {:induction false} InsertedMore(out: seq<byte>, n: nat, ahead: seq<byte>, more: seq<byte>)
    requires n <= |out|
    ensures Inserted(out, n, ahead) + more == Inserted(out + more, n, ahead)
  {
    assert (out + more)[..n] == out[..n] && (out + more)[n..] == out[n..] + more;
  }

  lemma {:induction false} InsertedNow(out: seq<byte>, more: seq<byte>, ahead: seq<byte>)
    ensures out + (more + ahead) == Inserted(out + more, |out + more|, ahead)
  {
  }

  lemma {:induction false} InsertedNothing(out: seq<byte>, n: nat)
    ensures Inserted(out, n, []) == out
  {
  }

  /** What is done and what is left of a run together are the run. */
  ghost predicate Together(whole: R.Delivered, done: seq<byte>, rest: R.Delivered) {
    whole == R.Delivered(rest.link, done + rest.out)
  }

  /** One read of a run. */
  lemma {:induction false} ReadNext(uuid: seq<byte>, k: R.Link, s: Sniffer, steps: seq<Step>, whole: R.Delivered, done: seq<byte>)
    requires k.parser.Valid() && steps != [] && steps[0].Arrive?
    requires Together(whole, done, R.ReadAll(uuid, k, Trace(uuid, k, s, steps)))
    ensures
      var mb, f := steps[0].mb, s.packets > 0;
      var d := R.ReadStep(uuid, k, f, mb);
      Together(whole, done + d.out,
               R.ReadAll(uuid, d.link, Trace(uuid, d.link, Filter(s, ShownBy(uuid, k, f, mb), steps[0].stale), steps[1..])))
  {
    var mb, f := steps[0].mb, s.packets > 0;
    var d := R.ReadStep(uuid, k, f, mb);
    var later := Trace(uuid, d.link, Filter(s, ShownBy(uuid, k, f, mb), steps[0].stale), steps[1..]);
    var calls := Trace(uuid, k, s, steps);
    assert calls[0] == R.Read(mb, f) && calls[1..] == later;
    Assoc(done, d.out, R.ReadAll(uuid, d.link, later).out);
  }

  /** What has been delivered so far, and what is still read ahead. */
  ghost predicate Collected(k0: R.Link, k: R.Link, ahead: seq<seq<byte>>, left: seq<seq<byte>>,
                            done: seq<byte>, out: seq<byte>, n: nat) {
    var switched := k.direct && !k0.direct;
    && (k0.direct ==> k.direct) && n <= |done|
    && left == (if switched then [] else ahead)
    && out == Inserted(done, n, if switched then Flatten(ahead) else [])
  }

  lemma {:induction false} CollectedNext(k0: R.Link, k: R.Link, d: R.Delivered, ahead: seq<seq<byte>>, left: seq<seq<byte>>, left': seq<seq<byte>>,
                                         done: seq<byte>, out: seq<byte>, n: nat, b: seq<byte>)
    requires Collected(k0, k, ahead, left, done, out, n) && (k.direct ==> d.link.direct)
    requires
      var now := d.link.direct && !k.direct;
      b == d.out + (if now then Flatten(left) else []) && left' == if now then [] else left
    ensures Collected(k0, d.link, ahead, left', done + d.out, out + b, if d.link.direct && !k.direct then |done + d.out| else n)
  {
    if d.link.direct && !k.direct {
      InsertedNothing(done, n);
      InsertedNow(done, d.out, Flatten(ahead));
    } else {
      assert d.out + [] == d.out;
      InsertedMore(done, n, if k.direct && !k0.direct then Flatten(ahead) else [], d.out);
    }
  }

  /**
    A reader over a whole run delivers what its reads deliver, and on the switch to direct
    copy also what had been read ahead.
   */
  method ReadRun(r: VisionReader, steps: seq<Step>) returns (out: seq<byte>, ghost n: nat)
    requires r.state.Valid() && SizedSteps(steps)
    modifies r`readAhead, r.state
    ensures r.state.Valid()
    ensures
      var k := old(r.state.Reader(r.isUplink));
      var d := R.ReadAll(r.state.userUUID, k, Trace(r.state.userUUID, k, old(r.state.sniffer), steps));
      && r.state.Reader(r.isUplink) == d.link && n <= |d.out|
      && out == Inserted(d.out, n, if d.link.direct && !k.direct then Flatten(old(r.readAhead)) else [])
  {
    ghost var uuid, k0, ahead := r.state.userUUID, r.state.Reader(r.isUplink), r.readAhead;
    ghost var whole := R.ReadAll(uuid, k0, Trace(uuid, k0, r.state.sniffer, steps));
    ghost var done: seq<byte>, k := [], k0;
    var rest := steps;
    out, n := [], 0;
    while rest != []
      invariant r.state.Valid() && SizedSteps(rest) && k == r.state.Reader(r.isUplink)
      invariant Together(whole, done, R.ReadAll(uuid, k, Trace(uuid, k, r.state.sniffer, rest)))
      invariant Collected(k0, k, ahead, r.readAhead, done, out, n)
      decreases |rest|
    {
      match rest[0] {
        case Other(mb, stale) =>
          Passed(r.state, mb, stale);
        case Arrive(mb, stale) =>
          ghost var left := r.readAhead;
          ghost var d := R.ReadStep(uuid, k, r.state.sniffer.packets > 0, mb);
          ReadNext(uuid, k, r.state.sniffer, rest, whole, done);
          var buffer := r.ReadMultiBuffer(mb, stale);
          CollectedNext(k0, k, d, ahead, left, r.readAhead, done, out, n, Flatten(buffer));
          out := out + Flatten(buffer);
          n := if d.link.direct && !k.direct then |done + d.out| else n;
          done, k := done + d.out, d.link;
      }
      rest := rest[1..];
    }
    assert done + [] == done;
  }

  // ---------------------------------------------------------------- both ends

  /** A new reader at its end of the connection. */
  ghost predicate NewReader(r: VisionReader)
    reads r, r.state
  {
    r.state.Valid() && r.state.Reader(r.isUplink) == R.FRESH && r.state.sniffer == NEW_SNIFFER
  }

  ghost predicate NewWriter(w: VisionWriter)
    reads w, w.state
  {
    w.Valid() && w.Abs() == W.NEW_SENDER && w.input == []
  }

  /**
    A writer object and a reader object, each with its own state, over whole runs that end
    with an End block: if the framed bytes arrive, in whatever buffers, the reader returns
    exactly what was written if and only if no read loses framing.
   */
  method Session(w: VisionWriter, es: seq<W.Event>, r: VisionReader, steps: seq<Step>) returns (out: seq<byte>)
    requires NewWriter(w) && NewReader(r) && w.state != r.state && w.state.userUUID == r.state.userUUID
    requires W.SizedEvents(es) && SizedSteps(steps)
    requires
      var uuid, u := r.state.userUUID, W.After(w.seed, W.NEW_SENDER, es);
      var calls := Trace(uuid, R.FRESH, NEW_SNIFFER, steps);
      && E.Ended(u, END) && AllFit(u.blocks) && E.Deliverable(uuid, u, calls) && R.Data(calls) == W.Framed(uuid, u)
    modifies w, w.state, r`readAhead, r.state
    ensures
      var u, calls := W.After(w.seed, W.NEW_SENDER, es), Trace(r.state.userUUID, R.FRESH, NEW_SNIFFER, steps);
      && Terminated(u.blocks) && w.framed == R.Data(calls) && w.input == W.Input(es)
      && (out == W.Input(es) <==> !R.LosesFraming(u.blocks, E.FirstCut(calls), calls[1..]))
  {
    ghost var uuid, seed := r.state.userUUID, w.seed;
    ghost var calls := Trace(uuid, R.FRESH, NEW_SNIFFER, steps);
    TraceStops(uuid, R.FRESH, NEW_SNIFFER, steps);
    E.EndToEnd(seed, uuid, es, calls);
    WriteRun(w, es);
    ghost var n;
    out, n := ReadRun(r, steps);
    InsertedNothing(R.ReadAll(uuid, R.FRESH, calls).out, n);
  }

  /**
    The same for runs that end with a Direct block, any part of whose framed bytes has
    arrived: the reader object switches to direct copy exactly when all of them have,
    provided no read stopped blind; and then what it unpadded (the output without what had
    been read ahead), followed by what the writer sent on the raw connection, is what was
    written.
   */
  method DirectSession(w: VisionWriter, es: seq<W.Event>, r: VisionReader, steps: seq<Step>, ghost later: seq<byte>)
    returns (out: seq<byte>, direct: bool, ghost unpadded: seq<byte>, ghost n: nat)
    requires NewWriter(w) && NewReader(r) && w.state != r.state && w.state.userUUID == r.state.userUUID
    requires W.SizedEvents(es) && SizedSteps(steps)
    requires
      var uuid, u := r.state.userUUID, W.After(w.seed, W.NEW_SENDER, es);
      var calls := Trace(uuid, R.FRESH, NEW_SNIFFER, steps);
      && E.Ended(u, DIRECT) && AllFit(u.blocks) && E.Deliverable(uuid, u, calls)
      && R.Data(calls) + later == W.Framed(uuid, u)
    modifies w, w.state, r`readAhead, r.state
    ensures
      var u, calls := W.After(w.seed, W.NEW_SENDER, es), Trace(r.state.userUUID, R.FRESH, NEW_SNIFFER, steps);
      && Terminated(u.blocks)
      && (direct <==> later == [] || R.StopsBlind(u.blocks, E.FirstCut(calls), calls[1..]))
      && out == Inserted(unpadded, n, if direct then Flatten(old(r.readAhead)) else [])
      && (!R.StopsBlind(u.blocks, E.FirstCut(calls), calls[1..]) ==>
            && unpadded <= W.Input(es)
            && (later == [] ==> unpadded + w.raw == W.Input(es)))
  {
    ghost var uuid, seed := r.state.userUUID, w.seed;
    ghost var calls := Trace(uuid, R.FRESH, NEW_SNIFFER, steps);
    E.EndToEndDirect(seed, uuid, es, calls, later);
    WriteRun(w, es);
    out, n := ReadRun(r, steps);
    unpadded := R.ReadAll(uuid, R.FRESH, calls).out;
    direct := r.state.Reader(r.isUplink).direct;
  }
}
