/**
  Vision from one end to the other: whatever a writer was given, and however its
  framed bytes are cut on the way, what does the reader deliver?
 */
module VisionEndToEnd {
  import opened Bytes
  import opened VisionFrame
  import R = VisionReader
  import W = VisionWriter
  import H = VisionHello
  import T = VisionTls

  /** What the reader needs of the cuts, apart from those in the last header. */
  ghost predicate Deliverable(uuid: seq<byte>, w: W.Sender, calls: seq<R.Read>)
    requires AllFit(w.blocks)
  {
    && calls != [] && calls[0].mb != [] && |calls[0].mb[0]| >= 21
    && R.CleanBuffers(uuid, |EncodeAll(w.blocks)|, |calls[0].mb[0]| - 16, calls[0].mb[1..])
    && R.CleanReads(uuid, |EncodeAll(w.blocks)|, |Flatten(calls[0].mb)| - 16, calls[1..])
  }

  /** Offset at which the first read stops. */
  function FirstCut(calls: seq<R.Read>): (x: int)
    requires calls != []
  {
    |Flatten(calls[0].mb)| - 16
  }

  ghost predicate Ended(w: W.Sender, command: byte) {
    !w.padding && w.blocks != [] && Last(w.blocks).command == command
  }

  /**
    Every run of a writer that ended with an End block, every re-chunking of its framed
    bytes: the reader returns exactly the bytes that were written, in order, if and
    only if no read that stops blind in the last block's header is followed by one made
    after the sniffer stopped counting.
   */
  lemma {:induction false} EndToEnd(seed: W.Seed, uuid: seq<byte>, es: seq<W.Event>, calls: seq<R.Read>)
    requires |uuid| == 16 && W.Safe(seed) && W.SizedEvents(es)
    requires
      var w := W.After(seed, W.NEW_SENDER, es);
      && Ended(w, END) && AllFit(w.blocks) && Deliverable(uuid, w, calls)
      && R.Data(calls) == W.Framed(uuid, w) && R.FilterStops(calls)
    ensures
      var w := W.After(seed, W.NEW_SENDER, es);
      && Terminated(w.blocks)
      && (R.ReadAll(uuid, R.FRESH, calls).out == W.Input(es)
          <==> !R.LosesFraming(w.blocks, FirstCut(calls), calls[1..]))
      && !R.ReadAll(uuid, R.FRESH, calls).link.direct
  {
    var w := W.After(seed, W.NEW_SENDER, es);
    W.WriterRun(seed, es);
    assert w.raw == [] && Contents(w.blocks) + w.tail + [] == Contents(w.blocks) + w.tail;
    R.EndStream(uuid, w.blocks, w.tail, calls);
    var got := R.ReadAll(uuid, R.FRESH, calls).out;
    if R.LosesFraming(w.blocks, FirstCut(calls), calls[1..]) {
      assert got != W.Input(es);
    } else {
      assert got == W.Input(es);
    }
  }

  /**
    A run that ended with a Direct block: the reader switches to direct copy exactly
    when the last block is used up, provided no read stopped blind; and then what it
    delivered, followed by what the writer sent on the raw connection, is all that was
    written.
   */
  lemma {:induction false} EndToEndDirect(seed: W.Seed, uuid: seq<byte>, es: seq<W.Event>, calls: seq<R.Read>, later: seq<byte>)
    requires |uuid| == 16 && W.Safe(seed) && W.SizedEvents(es)
    requires
      var w := W.After(seed, W.NEW_SENDER, es);
      && Ended(w, DIRECT) && AllFit(w.blocks) && Deliverable(uuid, w, calls)
      && R.Data(calls) + later == W.Framed(uuid, w)
    ensures
      var w, d := W.After(seed, W.NEW_SENDER, es), R.ReadAll(uuid, R.FRESH, calls);
      && Terminated(w.blocks)
      && (d.link.direct <==> later == [] || R.StopsBlind(w.blocks, FirstCut(calls), calls[1..]))
      && (!R.StopsBlind(w.blocks, FirstCut(calls), calls[1..]) ==>
            && d.out <= W.Input(es)
            && (later == [] ==> d.out + w.raw == W.Input(es)))
  {
    var w := W.After(seed, W.NEW_SENDER, es);
    W.WriterRun(seed, es);
    DirectDelivered(uuid, w, W.Input(es), calls, later);
  }

  /** The same of any sender that its invariant holds of. */
  lemma {:induction false} DirectDelivered(uuid: seq<byte>, w: W.Sender, input: seq<byte>, calls: seq<R.Read>, later: seq<byte>)
    requires |uuid| == 16 && W.SenderInv(w, input)
    requires Ended(w, DIRECT) && AllFit(w.blocks) && Deliverable(uuid, w, calls)
    requires R.Data(calls) + later == W.Framed(uuid, w)
    ensures
      var d := R.ReadAll(uuid, R.FRESH, calls);
      && Terminated(w.blocks)
      && (d.link.direct <==> later == [] || R.StopsBlind(w.blocks, FirstCut(calls), calls[1..]))
      && (!R.StopsBlind(w.blocks, FirstCut(calls), calls[1..]) ==>
            && d.out <= input
            && (later == [] ==> d.out + w.raw == input))
  {
    DirectSender(uuid, w, input);
    R.DirectStream(uuid, w.blocks, calls, later);
    AsPrefix(R.ReadAll(uuid, R.FRESH, calls).out, Contents(w.blocks), w.raw);
  }

  /** What the invariant of a writer that ended with a Direct block says. */
  lemma {:induction false} DirectSender(uuid: seq<byte>, w: W.Sender, input: seq<byte>)
    requires W.SenderInv(w, input) && Ended(w, DIRECT) && AllFit(w.blocks)
    ensures Terminated(w.blocks) && W.Framed(uuid, w) == uuid + EncodeAll(w.blocks) && Contents(w.blocks) + w.raw == input
  {
    assert Contents(w.blocks) + [] + w.raw == Contents(w.blocks) + w.raw;
  }

  lemma {:induction false} AsPrefix(a: seq<byte>, b: seq<byte>, c: seq<byte>)
    ensures a <= b ==> a <= b + c
  {
  }

  // ---------------------------------------------------------------- when a writer goes direct

  /**
    A ServerHello seen whole while padding goes on, and then a call with complete records:
    padding ends with that call, and it ends in Direct, with the raw connection next,
    exactly if the hello says TLS 1.3 with one of the four suites or that was known before.
   */
  lemma {:induction false} HelloThenRecords(seed: W.Seed, w: W.Sender, input: seq<byte>, h: H.ServerHello, more: seq<byte>,
                                            mb: seq<seq<byte>>, noise: int -> nat, stale: int -> int, later: int -> int)
    requires W.Safe(seed) && W.SenderInv(w, input) && w.padding && w.sniffer.packets > 0
    requires H.WellFormed(h) && 30 <= |h.sessionId| + |h.extensions|
    requires W.Buffers(mb, SIZE) && W.RecordBatch(mb) && exists j :: 0 <= j < |W.Reshaped(mb)| && W.StartsRecord(W.Reshaped(mb)[j])
    ensures
      var u := w.(sniffer := T.Filter(w.sniffer, [H.Wire(h) + more], stale));
      var v := W.Written(seed, u, W.Buffered(mb), noise, later);
      && !v.padding && v.blocks != [] && Last(v.blocks).command in {END, DIRECT}
      && (v.armed <==> Last(v.blocks).command == DIRECT)
      && (v.armed <==> w.sniffer.enableXtls || (H.SaysTls13(H.Wire(h)) && H.Direct(h.suite)))
  {
    var s := T.Filter(w.sniffer, [H.Wire(h) + more], stale);
    H.WholeHello(w.sniffer, h, more, [H.Wire(h) + more], 0, stale);
    T.FilterKeeps(w.sniffer, [H.Wire(h) + more], stale);
    var u := w.(sniffer := s);
    T.FilterKeeps(s, mb, later);
    W.WriteDecides(seed, u, input, mb, noise, later);
    W.WrittenKeeps(seed, u, input, W.Buffered(mb), noise, later);
  }

  // ---------------------------------------------------------------- when cuts are harmless

  /** No read stops inside the last block's five-byte header. */
  predicate OutsideHeader(bs: seq<Block>, x: int, calls: seq<R.Read>)
    requires AllFit(bs) && Terminated(bs)
    decreases |calls|
  {
    && (x <= R.LastStart(bs) || x >= R.LastStart(bs) + 5)
    && (calls == [] || OutsideHeader(bs, x + |Flatten(calls[0].mb)|, calls[1..]))
  }

  /** Such reads neither lose framing nor switch early. */
  lemma {:induction false} OutsideHeaderIsSafe(bs: seq<Block>, x: int, calls: seq<R.Read>)
    requires AllFit(bs) && Terminated(bs) && OutsideHeader(bs, x, calls)
    ensures !R.LosesFraming(bs, x, calls) && !R.StopsBlind(bs, x, calls)
    decreases |calls|
  {
    if calls != [] {
      OutsideHeaderIsSafe(bs, x + |Flatten(calls[0].mb)|, calls[1..]);
    }
  }

  // ---------------------------------------------------------------- when they are not

  /**
    A cut that does harm: two blocks, the second an End block; the first read stops
    after that block's command byte and the second is made with the sniffer off. The
    reader then takes the rest of the header for data.
   */
  lemma {:induction false} BlindReadCorrupts(uuid: seq<byte>)
    requires |uuid| == 16
    ensures
      var bs := [Block(CONTINUE, [7], []), Block(END, [9], [])];
      var calls := [R.Read([uuid + [0, 0, 1, 0, 0, 7, 1]], true), R.Read([[0, 1, 0, 0, 9]], false)];
      && AllFit(bs) && Terminated(bs)
      && R.Data(calls) == uuid + EncodeAll(bs)
      && R.ReadAll(uuid, R.FRESH, calls).out != Contents(bs)
  {
    var first: seq<byte>, second: seq<byte> := uuid + [0, 0, 1, 0, 0, 7, 1], [0, 1, 0, 0, 9];
    var bs := [Block(CONTINUE, [7], []), Block(END, [9], [])];
    var calls := [R.Read([first], true), R.Read([second], false)];
    ExampleBlocks(END);
    ExampleReads(uuid, first, second);
    assert R.Data(calls) == first + second == uuid + EncodeAll(bs) + [];
    R.EndStream(uuid, bs, [], calls);
    assert Contents(bs) + [] == Contents(bs);
    assert calls[1..] == [R.Read([second], false)];
    assert R.LosesFraming(bs, 7, calls[1..]);
  }

  lemma {:induction false} ExampleBlocks(command: byte)
    requires command != CONTINUE
    ensures
      var bs := [Block(CONTINUE, [7], []), Block(command, [9], [])];
      && AllFit(bs) && Terminated(bs) && Last(bs) == Block(command, [9], [])
      && EncodeAll(bs) == [0, 0, 1, 0, 0, 7, command, 0, 1, 0, 0, 9] && Contents(bs) == [7, 9]
  {
    var b0, b1 := Block(CONTINUE, [7], []), Block(command, [9], []);
    assert [b0, b1][1..] == [b1] && [b1][1..] == [];
    assert AllFit([b1]) && Terminated([b1]);
    assert Encode(b0) == [0, 0, 1, 0, 0, 7] && Encode(b1) == [command, 0, 1, 0, 0, 9];
    assert EncodeAll([b1]) == Encode(b1) + [];
    assert Contents([b1]) == b1.content + Contents([b1][1..]);
  }

  lemma {:induction false} ExampleReads(uuid: seq<byte>, first: seq<byte>, second: seq<byte>)
    requires |uuid| == 16 && |first| == 23 && |second| == 5
    ensures
      var calls := [R.Read([first], true), R.Read([second], false)];
      && R.Data(calls) == first + second && R.FilterStops(calls)
      && Flatten(calls[0].mb) == first && Flatten(calls[1].mb) == second
      && R.CleanBuffers(uuid, 12, 7, calls[0].mb[1..]) && R.CleanReads(uuid, 12, 7, calls[1..])
  {
    var r0, r1 := R.Read([first], true), R.Read([second], false);
    assert [r0, r1][1..] == [r1] && [r1][1..] == [];
    assert [first][1..] == [] && [second][1..] == [];
    assert Flatten([first]) == first + [] && Flatten([second]) == second + [];
    assert R.Data([r1]) == second + [] && R.FilterStops([r1]) && R.AllOff([r1]);
    assert R.CleanBuffers(uuid, 12, 7, [second]) && R.CleanReads(uuid, 12, 7, [r1]);
  }

  /**
    The same cut of a stream that ends with a Direct block: the reader switches to direct
    copy after the command byte, with the rest of the block still to come.
   */
  lemma {:induction false} BlindReadSwitches(uuid: seq<byte>)
    requires |uuid| == 16
    ensures
      var bs := [Block(CONTINUE, [7], []), Block(DIRECT, [9], [])];
      var calls := [R.Read([uuid + [0, 0, 1, 0, 0, 7, 2]], true)];
      && AllFit(bs) && Terminated(bs)
      && R.Data(calls) + [0, 1, 0, 0, 9] == uuid + EncodeAll(bs)
      && R.ReadAll(uuid, R.FRESH, calls).link.direct
  {
    var first: seq<byte>, later: seq<byte> := uuid + [0, 0, 1, 0, 0, 7, 2], [0, 1, 0, 0, 9];
    var bs := [Block(CONTINUE, [7], []), Block(DIRECT, [9], [])];
    var calls := [R.Read([first], true)];
    ExampleBlocks(DIRECT);
    assert calls[1..] == [] && [first][1..] == [] && Flatten([first]) == first + [];
    assert R.Data(calls) == first + [];
    assert first + later == uuid + EncodeAll(bs);
    R.DirectStream(uuid, bs, calls, later);
    assert R.Blind(bs, 7);
  }

  // ---------------------------------------------------------------- a peer that does not speak Vision

  predicate NeverStarts(uuid: seq<byte>, mb: seq<seq<byte>>) {
    mb == [] || (!R.Starts(uuid, mb[0]) && NeverStarts(uuid, mb[1..]))
  }

  lemma {:induction false} PlainBuffers(uuid: seq<byte>, mb: seq<seq<byte>>)
    requires NeverStarts(uuid, mb)
    ensures R.UnpadAll(uuid, R.FRESH.parser, mb) == Parsed(R.FRESH.parser, Flatten(mb))
  {
    if mb != [] {
      PlainBuffers(uuid, mb[1..]);
    }
  }

  /** If no buffer ever starts with the UUID, the reader delivers every byte as it came. */
  lemma {:induction false} PlainStream(uuid: seq<byte>, calls: seq<R.Read>)
    requires forall i | 0 <= i < |calls| :: NeverStarts(uuid, calls[i].mb)
    ensures R.ReadAll(uuid, R.FRESH, calls) == R.Delivered(R.FRESH, R.Data(calls))
  {
    if calls != [] {
      PlainBuffers(uuid, calls[0].mb);
      PlainStream(uuid, calls[1..]);
    }
  }

  /**
    The first buffer has to hold the UUID and a header: if it is shorter and no later
    buffer starts with the UUID, the UUID and all headers and paddings are delivered as
    data, so the output is not what was written.
   */
  lemma {:induction false} ShortStart(uuid: seq<byte>, bs: seq<Block>, tail: seq<byte>, calls: seq<R.Read>)
    requires |uuid| == 16 && AllFit(bs) && R.Data(calls) == uuid + EncodeAll(bs) + tail
    requires calls != [] && calls[0].mb != [] && |calls[0].mb[0]| < 21 && NeverStarts(uuid, calls[0].mb[1..])
    requires forall i | 0 < i < |calls| :: NeverStarts(uuid, calls[i].mb)
    ensures R.ReadAll(uuid, R.FRESH, calls).out == uuid + EncodeAll(bs) + tail
    ensures R.ReadAll(uuid, R.FRESH, calls).out != Contents(bs) + tail
  {
    PlainStream(uuid, calls);
    ContentsAreShorter(bs);
  }

  lemma {:induction false} ContentsAreShorter(bs: seq<Block>)
    requires AllFit(bs)
    ensures |Contents(bs)| <= |EncodeAll(bs)|
  {
    if bs != [] {
      ContentsAreShorter(bs[1..]);
    }
  }
}
