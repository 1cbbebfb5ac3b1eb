/**
  Vision as objects: TrafficState with the state of both links, the reader and the
  writer that share it, and their methods proved against VisionReader and VisionWriter.
 */
module VisionState {
  import opened Bytes
  import opened Collections
  import opened VisionFrame
  import opened VisionTls
  import R = VisionReader
  import W = VisionWriter

  /** InboundState and OutboundState, which have the same fields. */
  datatype LinkState = LinkState(reader: R.Link, isPadding: bool, writerDirectCopy: bool)

  /** Both links, with another parser on the one a reader works on. */
  function Put(inbound: LinkState, outbound: LinkState, isUplink: bool, p: Parser): (LinkState, LinkState) {
    if isUplink then (inbound.(reader := inbound.reader.(parser := p)), outbound)
    else (inbound, outbound.(reader := outbound.reader.(parser := p)))
  }

  lemma {:induction false} PutTwice(inbound: LinkState, outbound: LinkState, isUplink: bool, p: Parser, q: Parser)
    ensures
      var (i, o) := Put(inbound, outbound, isUplink, p);
      Put(i, o, isUplink, q) == Put(inbound, outbound, isUplink, q)
  {
  }


  class TrafficState {
    const userUUID: seq<byte>
    var sniffer: Sniffer
    var inbound: LinkState
    var outbound: LinkState

    /** core/proxy/proxy.go:142-172 */
    constructor (userUUID: seq<byte>)
      ensures this.userUUID == userUUID && sniffer == NEW_SNIFFER
      ensures inbound == outbound == LinkState(R.FRESH, true, false)
    {
      this.userUUID := userUUID;
      sniffer := NEW_SNIFFER;
      inbound, outbound := LinkState(R.FRESH, true, false), LinkState(R.FRESH, true, false);
    }

    ghost predicate Valid()
      reads this
    {
      inbound.reader.parser.Valid() && outbound.reader.parser.Valid() && Consistent(sniffer)
    }

    /** The link a reader works on: uplink data is read on the inbound side. */
    function Reader(isUplink: bool): R.Link
      reads this
    {
      if isUplink then inbound.reader else outbound.reader
    }

    /** The two links with one reader's parser replaced. */
    function WithParser(isUplink: bool, p: Parser): (LinkState, LinkState)
      reads this
    {
      Put(inbound, outbound, isUplink, p)
    }

    /** The link a writer works on: uplink data is written on the outbound side. */
    function Writer(isUplink: bool): LinkState
      reads this
    {
      if isUplink then outbound else inbound
    }

    method SetReader(isUplink: bool, k: R.Link)
      modifies this`inbound, this`outbound
      ensures inbound == old(if isUplink then inbound.(reader := k) else inbound)
      ensures outbound == old(if isUplink then outbound else outbound.(reader := k))
    {
      if isUplink {
        inbound := inbound.(reader := k);
      } else {
        outbound := outbound.(reader := k);
      }
    }

    method SetWriter(isUplink: bool, isPadding: bool, direct: bool)
      modifies this`inbound, this`outbound
      ensures outbound == old(if isUplink then outbound.(isPadding := isPadding, writerDirectCopy := direct) else outbound)
      ensures inbound == old(if isUplink then inbound else inbound.(isPadding := isPadding, writerDirectCopy := direct))
    {
      if isUplink {
        outbound := outbound.(isPadding := isPadding, writerDirectCopy := direct);
      } else {
        inbound := inbound.(isPadding := isPadding, writerDirectCopy := direct);
      }
    }
  }

  // ---------------------------------------------------------------- unpadding

  /** One pass of the header switch, lines 566-579. */
  method ReadHeaderByte(p: Parser, data: byte) returns (q: Parser)
    requires p.InHeader()
    ensures q == HeaderByte(p, data)
  {
    match p.command {
      case 5 => q := p.(current := data);
      case 4 => q := p.(content := U16(data, 0));
      case 3 => q := p.(content := p.content + data);
      case 2 => q := p.(padding := U16(data, 0));
      case _ => q := p.(padding := p.padding + data);
    }
    q := q.(command := p.command - 1);
  }

  /** One iteration of the loop, lines 561-598: a header byte, a run of content or a run of padding. */
  method Take(p: Parser, b: seq<byte>) returns (q: Parser, rest: seq<byte>, content: seq<byte>)
    requires p.InBlock() && b != []
    ensures |rest| < |b| && |content| + |rest| <= |b| && Settle(q).Valid()
    ensures Parse(p, b) == Parsed(Parse(Settle(q), rest).parser, content + Parse(Settle(q), rest).out)
  {
    content := [];
    if p.command > 0 {
      q := ReadHeaderByte(p, b[0]);
      rest := b[1..];
      assert b == [b[0]] + rest;
      ParseTwo(p, b[0], rest);
    } else if p.content > 0 {
      var len := if |b| < p.content then |b| else p.content;
      content, rest := b[..len], b[len..];
      q := p.(content := p.content - len);
      TakeContent(p, b, len);
    } else {
      var len := if |b| < p.padding then |b| else p.padding;
      rest := b[len..];
      q := p.(padding := p.padding - len);
      TakePadding(p, b, len);
    }
    assert [] + Parse(Settle(q), rest).out == Parse(Settle(q), rest).out;
  }

  /**
    core/proxy/proxy.go:535-616 on one buffer. Every iteration uses at least one byte,
    because the parser is inside a block whenever the loop is entered.
   */
  method Unpadding(uuid: seq<byte>, parser: Parser, b: seq<byte>) returns (p: Parser, newbuffer: seq<byte>)
    requires parser.Valid() && |b| <= SIZE
    ensures Parsed(p, newbuffer) == R.Unpad(uuid, parser, b)
  {
    p := parser;
    var rest := b;
    if p.command == -1 && p.content == -1 && p.padding == -1 {
      if |b| >= 21 && b[..16] == uuid {
        rest := rest[16..];
        p := p.(command := 5);
      } else {
        return p, b;
      }
    }
    newbuffer := [];
    ghost var want := Parse(p, rest);
    assert R.Unpad(uuid, parser, b) == want;
    while |rest| > 0
      invariant p.InBlock() && |newbuffer| + |rest| <= SIZE
      invariant want == Parsed(Parse(p, rest).parser, newbuffer + Parse(p, rest).out)
      decreases |rest|
    {
      ghost var before := newbuffer;
      var content;
      p, rest, content := Take(p, rest);
      newbuffer := W.BufferWrite(newbuffer, content);
      Assoc(before, content, Parse(Settle(p), rest).out);
      if p.command <= 0 && p.content <= 0 && p.padding <= 0 {
        if p.current == 0 {
          p := p.(command := 5);
        } else {
          p := Parser(-1, -1, -1, p.current);
          if |rest| > 0 {
            newbuffer := W.BufferWrite(newbuffer, rest);
          }
          return;
        }
      }
    }
    assert Parse(p, rest) == Parsed(p, []);
  }

  lemma {:induction false} TakeContent(p: Parser, all: seq<byte>, len: int)
    requires p.InBody() && 0 < len <= |all| && len <= p.content
    ensures
      var q := Settle(p.(content := p.content - len));
      && q.Valid()
      && Parse(p, all) == Parsed(Parse(q, all[len..]).parser, all[..len] + Parse(q, all[len..]).out)
  {
    assert all == all[..len] + all[len..];
    ParseContent(p, all[..len]);
    ParseSplit(p, all[..len], all[len..]);
  }

  lemma {:induction false} TakePadding(p: Parser, all: seq<byte>, len: int)
    requires p.InBody() && p.content == 0 && 0 < len <= |all| && len <= p.padding
    ensures
      var q := Settle(p.(padding := p.padding - len));
      q.Valid() && Parse(p, all) == Parse(q, all[len..])
  {
    assert all == all[..len] + all[len..];
    ParsePadding(p, all[..len]);
    ParseSplit(p, all[..len], all[len..]);
    var out := Parse(Settle(p.(padding := p.padding - len)), all[len..]).out;
    assert [] + out == out;
  }

  /** XtlsUnpadding on the reader's link. */
  method XtlsUnpadding(b: seq<byte>, s: TrafficState, isUplink: bool) returns (newbuffer: seq<byte>)
    requires s.Valid() && |b| <= SIZE
    modifies s`inbound, s`outbound
    ensures
      var r := old(R.Unpad(s.userUUID, s.Reader(isUplink).parser, b));
      newbuffer == r.out && (s.inbound, s.outbound) == old(s.WithParser(isUplink, r.parser))
  {
    var k := s.Reader(isUplink);
    var p;
    p, newbuffer := Unpadding(s.userUUID, k.parser, b);
    s.SetReader(isUplink, k.(parser := p));
  }

  // ---------------------------------------------------------------- the reader

  /** The non-empty buffers that unpadding a list of buffers leaves. */
  function UnpadBuffers(uuid: seq<byte>, p: Parser, mb: seq<seq<byte>>): (r: seq<seq<byte>>)
    requires p.Valid()
    decreases |mb|
  {
    if mb == [] then []
    else
      var r := R.Unpad(uuid, p, mb[0]);
      (if r.out == [] then [] else [r.out]) + UnpadBuffers(uuid, r.parser, mb[1..])
  }

  lemma {:induction false} UnpadBuffersFlatten(uuid: seq<byte>, p: Parser, mb: seq<seq<byte>>)
    requires p.Valid()
    ensures Flatten(UnpadBuffers(uuid, p, mb)) == R.UnpadAll(uuid, p, mb).out
    decreases |mb|
  {
    if mb != [] {
      var r := R.Unpad(uuid, p, mb[0]);
      UnpadBuffersFlatten(uuid, r.parser, mb[1..]);
      if r.out != [] {
        FlattenAppend([r.out], UnpadBuffers(uuid, r.parser, mb[1..]));
        assert Flatten([r.out]) == r.out;
      } else {
        assert [] + UnpadBuffers(uuid, r.parser, mb[1..]) == UnpadBuffers(uuid, r.parser, mb[1..]);
      }
    }
  }

  lemma {:induction false} Keep(mb2: seq<seq<byte>>, b: seq<byte>, later: seq<seq<byte>>)
    ensures mb2 + ((if b == [] then [] else [b]) + later) == (if b == [] then mb2 else mb2 + [b]) + later
  {
    Assoc(mb2, [b], later);
  }

  class VisionReader {
    const state: TrafficState
    const isUplink: bool
    /** What the TLS-like connection had read ahead (input, then rawInput). */
    var readAhead: seq<seq<byte>>

    constructor (state: TrafficState, isUplink: bool, readAhead: seq<seq<byte>>)
      ensures this.state == state && this.isUplink == isUplink && this.readAhead == readAhead
    {
      this.state, this.isUplink, this.readAhead := state, isUplink, readAhead;
    }

    /** Whether this call goes through XtlsUnpadding. */
    predicate Active(mb: seq<seq<byte>>)
      reads this, state
    {
      var k := state.Reader(isUplink);
      Flatten(mb) != [] && !k.direct && (k.within || state.sniffer.packets > 0)
    }

    /** What the sniffer is shown: the buffers as they leave this reader. */
    function Shown(mb: seq<seq<byte>>): seq<seq<byte>>
      reads this, state
      requires state.Valid()
    {
      var k := state.Reader(isUplink);
      if Flatten(mb) == [] || k.direct then []
      else if Active(mb) then UnpadBuffers(state.userUUID, k.parser, mb)
      else mb
    }

    /**
      core/proxy/proxy.go:203-285, on the buffers the inner reader returned. On the
      switch to direct copy the bytes already read ahead follow the unpadded ones.
     */
    method ReadMultiBuffer(mb: seq<seq<byte>>, stale: int -> int) returns (buffer: seq<seq<byte>>)
      requires state.Valid() && W.Buffers(mb, SIZE)
      modifies this`readAhead, state
      ensures state.Valid()
      ensures
        var r := old(R.ReadStep(state.userUUID, state.Reader(isUplink), state.sniffer.packets > 0, mb));
        var flips := r.link.direct && !old(state.Reader(isUplink).direct);
        && state.Reader(isUplink) == r.link
        && Flatten(buffer) == r.out + (if flips then Flatten(old(readAhead)) else [])
        && readAhead == (if flips then [] else old(readAhead))
      ensures state.sniffer == old(Filter(state.sniffer, Shown(mb), stale))
      ensures state.inbound == old(state.inbound).(reader := state.inbound.reader)
      ensures state.outbound == old(state.outbound).(reader := state.outbound.reader)
      ensures state.Reader(!isUplink) == old(state.Reader(!isUplink))
    {
      var k := state.Reader(isUplink);
      buffer := mb;
      if Flatten(mb) == [] || k.direct {
        return;
      }
      FilterKeeps(state.sniffer, Shown(mb), stale);
      if k.within || state.sniffer.packets > 0 {
        k, buffer := UnpadAndDecide(mb);
      }
      assert R.Delivered(k, Flatten(buffer)) == old(R.ReadStep(state.userUUID, state.Reader(isUplink), state.sniffer.packets > 0, mb));
      assert buffer == old(Shown(mb));
      if state.sniffer.packets > 0 {
        state.sniffer := XtlsFilterTls(state.sniffer, buffer, stale);
      }
      if k.direct {
        FlattenAppend(buffer, readAhead);
        buffer := buffer + readAhead;
        readAhead := [];
      }
    }

    /** Lines 236-253. */
    method UnpadAndDecide(mb: seq<seq<byte>>) returns (k: R.Link, buffer: seq<seq<byte>>)
      requires state.Valid() && W.Buffers(mb, SIZE)
      modifies state`inbound, state`outbound
      ensures state.Valid() && state.Reader(isUplink) == k && state.Reader(!isUplink) == old(state.Reader(!isUplink))
      ensures
        var l := old(state.Reader(isUplink));
        var r := R.UnpadAll(state.userUUID, l.parser, mb);
        && k == R.Decide(l, r.parser) && Flatten(buffer) == r.out
        && buffer == UnpadBuffers(state.userUUID, l.parser, mb)
      ensures state.inbound == old(state.inbound).(reader := state.inbound.reader)
      ensures state.outbound == old(state.outbound).(reader := state.outbound.reader)
    {
      k := state.Reader(isUplink);
      buffer := UnpadEach(mb);
      k := Decided(k, state.Reader(isUplink).parser);
      state.SetReader(isUplink, k);
    }

    /** Lines 236-243. */
    method UnpadEach(mb: seq<seq<byte>>) returns (mb2: seq<seq<byte>>)
      requires state.Valid() && W.Buffers(mb, SIZE)
      modifies state`inbound, state`outbound
      ensures
        var p := old(state.Reader(isUplink).parser);
        var r := R.UnpadAll(state.userUUID, p, mb);
        && (state.inbound, state.outbound) == old(state.WithParser(isUplink, r.parser))
        && mb2 == UnpadBuffers(state.userUUID, p, mb)
        && Flatten(mb2) == r.out
    {
      ghost var uuid, p0 := state.userUUID, state.Reader(isUplink).parser;
      ghost var in0, out0 := state.inbound, state.outbound;
      UnpadBuffersFlatten(uuid, p0, mb);
      mb2 := [];
      var rest := mb;
      ghost var p := p0;
      while rest != []
        invariant p.Valid() && W.Buffers(rest, SIZE)
        invariant (state.inbound, state.outbound) == Put(in0, out0, isUplink, p)
        invariant UnpadBuffers(uuid, p0, mb) == mb2 + UnpadBuffers(uuid, p, rest)
        invariant R.UnpadAll(uuid, p0, mb).parser == R.UnpadAll(uuid, p, rest).parser
        decreases |rest|
      {
        var newbuffer := XtlsUnpadding(rest[0], state, isUplink);
        PutTwice(in0, out0, isUplink, p, R.Unpad(uuid, p, rest[0]).parser);
        p := R.Unpad(uuid, p, rest[0]).parser;
        rest := rest[1..];
        Keep(mb2, newbuffer, UnpadBuffers(uuid, p, rest));
        if |newbuffer| > 0 {
          mb2 := mb2 + [newbuffer];
        }
      }
      assert mb2 + [] == mb2;
    }

    /** Lines 244-253. */
    static method Decided(k: R.Link, p: Parser) returns (l: R.Link)
      requires p.Valid()
      ensures l == R.Decide(k, p)
    {
      l := k.(parser := p);
      if p.content > 0 || p.padding > 0 || p.current == 0 {
        l := l.(within := true);
      } else if p.current == 1 {
        l := l.(within := false);
      } else if p.current == 2 {
        l := l.(within := false, direct := true);
      }
    }
  }

  // ---------------------------------------------------------------- the writer

  class VisionWriter {
    const state: TrafficState
    const isUplink: bool
    const seed: W.Seed
    var writeOnceUserUUID: seq<byte>
    /** Whether w.Writer has been replaced by the raw connection. */
    var direct: bool
    /** What went out on the framed and on the raw connection. */
    var framed: seq<byte>
    var raw: seq<byte>
    ghost var blocks: seq<Block>
    ghost var tail: seq<byte>
    ghost var input: seq<byte>

    ghost function Abs(): W.Sender
      reads this, state
    {
      var k := state.Writer(isUplink);
      W.Sender(k.isPadding, k.writerDirectCopy, direct, state.sniffer, blocks, tail, raw)
    }

    ghost predicate Valid()
      reads this, state
    {
      && state.Valid() && W.Safe(seed) && |state.userUUID| == 16
      && Wired(state.userUUID, Abs(), input, framed, writeOnceUserUUID)
    }

    /** core/proxy/proxy.go:304-320 */
    constructor (state: TrafficState, isUplink: bool, testseed: seq<W.uint32>)
      requires state.Valid() && W.Safe(W.SeedOf(testseed)) && |state.userUUID| == 16
      requires state.Writer(isUplink).isPadding && !state.Writer(isUplink).writerDirectCopy
      ensures this.state == state && this.isUplink == isUplink && this.seed == W.SeedOf(testseed)
      ensures Valid() && Abs() == W.NEW_SENDER.(sniffer := state.sniffer) && framed == [] && input == []
    {
      this.state, this.isUplink, this.seed := state, isUplink, W.SeedOf(testseed);
      writeOnceUserUUID := state.userUUID;
      direct, framed, raw := false, [], [];
      blocks, tail, input := [], [], [];
    }

    /** core/proxy/proxy.go:322-404 */
    method WriteMultiBuffer(m: W.MultiBuffer, noise: int -> nat, stale: int -> int)
      requires Valid() && W.Sized(m)
      modifies this, state
      ensures Valid()
      ensures Abs() == old(W.Written(seed, Abs(), m, noise, stale))
      ensures input == old(input) + W.Plain(m)
      ensures state.Reader(true) == old(state.Reader(true)) && state.Reader(false) == old(state.Reader(false))
    {
      ghost var w, wire, once := Abs(), framed, writeOnceUserUUID;
      Prepare(m, stale);
      Emit(m, noise);
      WiredNext(state.userUUID, seed, w, m, noise, stale, input, wire, once, framed, writeOnceUserUUID);
      input := input + W.Plain(m);
    }

    /** Lines 356-395: as blocks while padding, as it is otherwise. */
    method Emit(m: W.MultiBuffer, noise: int -> nat)
      requires W.Safe(seed) && |state.userUUID| == 16 && W.Sized(m)
      requires writeOnceUserUUID == [] || writeOnceUserUUID == state.userUUID
      requires state.Writer(isUplink).isPadding ==> !direct
      modifies this`writeOnceUserUUID, this`framed, this`raw, this`blocks, this`tail, state`inbound, state`outbound
      ensures Abs() == old(W.Emitting(seed, Abs(), m, noise))
      ensures OnWire(seed, old(Abs()), m, noise, old(framed), old(writeOnceUserUUID), framed, writeOnceUserUUID)
      ensures state.inbound.reader == old(state.inbound.reader) && state.outbound.reader == old(state.outbound.reader)
    {
      if state.Writer(isUplink).isPadding {
        WritePadded(m, noise, W.Emitting(seed, Abs(), m, noise));
      } else {
        SendPlain(W.Plain(m));
      }
    }

    /** A call made while padding: its buffers go out as blocks, on the framed connection. */
    method WritePadded(m: W.MultiBuffer, noise: int -> nat, ghost u: W.Sender)
      requires W.Safe(seed) && |state.userUUID| == 16 && W.Sized(m) && !direct
      requires writeOnceUserUUID == [] || writeOnceUserUUID == state.userUUID
      requires
        var e, v := W.EmitCall(seed, Abs(), m, noise), Abs();
        u == v.(padding := e.padding, armed := e.armed, blocks := v.blocks + e.blocks, tail := v.tail + e.tail)
      modifies this`writeOnceUserUUID, this`framed, this`raw, this`blocks, this`tail, state`inbound, state`outbound
      ensures Abs() == u
      ensures
        var e := W.EmitCall(seed, old(Abs()), m, noise);
        && AllFit(e.blocks)
        && framed == old(framed) + (Sent(old(writeOnceUserUUID), e.blocks) + e.tail)
        && writeOnceUserUUID == if e.blocks == [] then old(writeOnceUserUUID) else []
      ensures state.inbound.reader == old(state.inbound.reader) && state.outbound.reader == old(state.outbound.reader)
    {
      ghost var e := W.EmitCall(seed, Abs(), m, noise);
      var out, isPadding, armed := Pad(m, noise, Abs());
      Send(out, e.blocks, e.tail);
      state.SetWriter(isUplink, isPadding, armed);
    }

    /** Data that goes out as it is. */
    method SendPlain(out: seq<byte>)
      modifies this`framed, this`raw, this`blocks, this`tail
      ensures blocks == old(blocks)
      ensures if direct then raw == old(raw) + out && framed == old(framed) && tail == old(tail)
              else raw == old(raw) && framed == old(framed) + out && tail == old(tail) + out
    {
      assert blocks + [] == blocks;
      Send(out, [], out);
    }

    /** Line 395: to whichever connection is the writer now. */
    method Send(out: seq<byte>, ghost bs: seq<Block>, ghost rest: seq<byte>)
      modifies this`framed, this`raw, this`blocks, this`tail
      ensures direct ==> raw == old(raw) + out && framed == old(framed) && blocks == old(blocks) && tail == old(tail)
      ensures !direct ==> raw == old(raw) && framed == old(framed) + out && blocks == old(blocks) + bs && tail == old(tail) + rest
    {
      if direct {
        raw := raw + out;
      } else {
        framed := framed + out;
        blocks, tail := blocks + bs, tail + rest;
      }
    }

    /** Lines 334-354: take the armed switch to the raw connection, and show the sniffer the data. */
    method Prepare(m: W.MultiBuffer, stale: int -> int)
      requires state.Valid()
      modifies this`direct, state
      ensures state.Valid() && Abs() == old(W.Prepared(Abs(), m, stale))
      ensures state.Reader(true) == old(state.Reader(true)) && state.Reader(false) == old(state.Reader(false))
    {
      FilterKeeps(state.sniffer, if m.NilBuffer? then [] else m.mb, stale);
      var k := state.Writer(isUplink);
      if k.writerDirectCopy {
        direct := true;
        state.SetWriter(isUplink, k.isPadding, false);
      }
      if state.sniffer.packets > 0 {
        state.sniffer := XtlsFilterTls(state.sniffer, if m.NilBuffer? then [] else m.mb, stale);
      }
    }

    /** Lines 356-394: the bytes that replace the call's buffers, with the UUID if it is still to be written. */
    method Pad(m: W.MultiBuffer, noise: int -> nat, ghost v: W.Sender) returns (out: seq<byte>, isPadding: bool, armed: bool)
      requires W.Safe(seed) && |state.userUUID| == 16 && W.Sized(m)
      requires writeOnceUserUUID == [] || writeOnceUserUUID == state.userUUID
      requires v.sniffer == state.sniffer
      modifies this`writeOnceUserUUID
      ensures
        var e := W.EmitCall(seed, v, m, noise);
        && AllFit(e.blocks)
        && isPadding == e.padding && armed == e.armed
        && out == Sent(old(writeOnceUserUUID), e.blocks) + e.tail
        && writeOnceUserUUID == if e.blocks == [] then old(writeOnceUserUUID) else []
    {
      match m {
        case NilBuffer =>
          out, writeOnceUserUUID := W.XtlsPadding([], CONTINUE, writeOnceUserUUID, true, seed, noise(0));
          isPadding, armed := true, false;
          ghost var b := W.Padded(seed, [], CONTINUE, true, noise(0));
          assert EncodeAll([b]) == Encode(b) + [] == Encode(b);
          assert out + [] == out;
        case Buffered(mb) =>
          var complete := IsCompleteRecord(mb);
          W.ReshapedFits(mb);
          var mb2 := W.ReshapeMultiBuffer(mb);
          out, writeOnceUserUUID, isPadding, armed := PadAll(seed, state.sniffer, writeOnceUserUUID, mb2, complete, noise);
      }
    }

    /** The branches of lines 364-390 for one buffer. */
    static method Decided(s: Sniffer, complete: bool, b: seq<byte>, last: bool, k: W.Mode) returns (c: W.Choice)
      ensures c == W.Choose(s, complete, b, last, k)
    {
      var next := k;
      var command := CONTINUE;
      if s.tls && |b| >= 6 && b[..3] == APPLICATION_DATA && complete {
        if s.enableXtls {
          next := next.(armed := true);
        }
        if last {
          command := END;
          if s.enableXtls {
            command := DIRECT;
          }
        }
        return W.Choice(command, true, next.(padding := false, long := false), false);
      } else if !s.tls12 && s.packets <= 1 {
        return W.Choice(END, k.long, next.(padding := false), true);
      }
      if last && !k.padding {
        command := END;
        if s.enableXtls {
          command := DIRECT;
        }
      }
      return W.Choice(command, k.long, next, false);
    }

    /** The loop of lines 363-392. */
    static method PadAll(seed: W.Seed, s: Sniffer, uuid: seq<byte>, mb: seq<seq<byte>>, complete: bool, noise: int -> nat)
      returns (out: seq<byte>, uuid': seq<byte>, isPadding: bool, armed: bool)
      requires W.Safe(seed) && |uuid| <= 16 && W.Buffers(mb, SIZE - 21)
      ensures
        var e := W.PadFrom(W.Batch(seed, s, complete, noise), mb, 0, W.Mode(true, false, s.tls));
        && AllFit(e.blocks)
        && isPadding == e.padding && armed == e.armed
        && out == Total(uuid, e)
        && uuid' == if e.blocks == [] then uuid else []
    {
      var rest, i, k, stop := mb, 0, W.Mode(true, false, s.tls), false;
      ghost var c := W.Batch(seed, s, complete, noise);
      ghost var e := W.PadFrom(c, mb, 0, k);
      PadFits(c, mb, 0, k);
      out, uuid' := [], uuid;
      while rest != [] && !stop
        invariant i == |mb| - |rest| >= 0 && (stop ==> i > 0) && uuid' == (if i == 0 then uuid else [])
        invariant PadState(c, uuid, e, out, uuid', rest, i, k, stop)
        decreases |rest|
      {
        var d, buffer := PadOne(seed, s, uuid', rest, complete, noise, i, k);
        PadStep(c, uuid, e, out, uuid', rest, i, k, d, buffer);
        out, uuid', rest, i, k, stop := out + buffer, [], rest[1..], i + 1, d.next, d.stop;
      }
      TotalNone(uuid', PadRest(c, rest, i, k, stop));
      out := out + Flatten(rest);
      isPadding, armed := k.padding, k.armed;
    }

    /** One iteration: decide, and pad the first of the buffers that remain, the i-th of all. */
    static method PadOne(seed: W.Seed, s: Sniffer, uuid: seq<byte>, mb: seq<seq<byte>>, complete: bool, noise: int -> nat, i: int, k: W.Mode)
      returns (d: W.Choice, buffer: seq<byte>)
      requires W.Safe(seed) && |uuid| <= 16 && mb != [] && W.Buffers(mb, SIZE - 21)
      requires AllFit(W.PadFrom(W.Batch(seed, s, complete, noise), mb, i, k).blocks)
      ensures |buffer| <= SIZE
      ensures
        var c := W.Batch(seed, s, complete, noise);
        var e, rest := W.PadFrom(c, mb, i, k), PadRest(c, mb[1..], i + 1, d.next, d.stop);
        && e.padding == rest.padding && e.armed == rest.armed && e.blocks != []
        && AllFit(rest.blocks)
        && Total(uuid, e) == buffer + Total([], rest)
    {
      d := Decided(s, complete, mb[0], |mb| == 1, k);
      ghost var c := W.Batch(seed, s, complete, noise);
      SentFirst(uuid, W.Padded(seed, mb[0], d.command, d.long, noise(i)), PadRest(c, mb[1..], i + 1, d.next, d.stop));
      var cleared;
      buffer, cleared := W.XtlsPadding(mb[0], d.command, uuid, d.long, seed, noise(i));
    }
  }

  /** All bytes of a call's output. */
  ghost function Total(uuid: seq<byte>, e: W.Emitted): (s: seq<byte>) {
    if AllFit(e.blocks) then Sent(uuid, e.blocks) + e.tail else []
  }

  /** What the padding loop still has to do completes what it has done to the batch's result e. */
  ghost predicate PadState(c: W.Batch, uuid: seq<byte>, e: W.Emitted, out: seq<byte>, uuid': seq<byte>,
                           rest: seq<seq<byte>>, i: int, k: W.Mode, stop: bool) {
    && W.Safe(c.seed) && W.Buffers(rest, SIZE - 21)
    && var r := PadRest(c, rest, i, k, stop);
       && AllFit(r.blocks) && Total(uuid, e) == out + Total(uuid', r)
       && e.padding == r.padding && e.armed == r.armed
  }

  lemma {:induction false} PadStep(c: W.Batch, uuid: seq<byte>, e: W.Emitted, out: seq<byte>, uuid': seq<byte>,
                                   rest: seq<seq<byte>>, i: int, k: W.Mode, d: W.Choice, buffer: seq<byte>)
    requires rest != [] && PadState(c, uuid, e, out, uuid', rest, i, k, false)
    requires
      var now, later := W.PadFrom(c, rest, i, k), PadRest(c, rest[1..], i + 1, d.next, d.stop);
      && now.padding == later.padding && now.armed == later.armed
      && AllFit(later.blocks) && Total(uuid', now) == buffer + Total([], later)
    ensures PadState(c, uuid, e, out + buffer, [], rest[1..], i + 1, d.next, d.stop)
  {
    Assoc(out, buffer, Total([], PadRest(c, rest[1..], i + 1, d.next, d.stop)));
  }

  lemma {:induction false} PadFits(c: W.Batch, mb: seq<seq<byte>>, i: int, k: W.Mode)
    requires W.Safe(c.seed) && W.Buffers(mb, SIZE - 21)
    ensures AllFit(W.PadFrom(c, mb, i, k).blocks)
    ensures W.PadFrom(c, mb, i, k).blocks == [] <==> mb == []
  {
    W.PadFromConserves(c, mb, i, k);
    W.BoundedFit(W.PadFrom(c, mb, i, k).blocks);
  }

  lemma {:induction false} TotalNone(uuid: seq<byte>, e: W.Emitted)
    requires e.blocks == []
    ensures Total(uuid, e) == e.tail
  {
  }

  lemma {:induction false} SentFirst(uuid: seq<byte>, b: Block, rest: W.Emitted)
    requires AllFit(W.Prepend(b, rest).blocks)
    ensures Fits(b) && AllFit(rest.blocks)
    ensures Total(uuid, W.Prepend(b, rest)) == uuid + Encode(b) + Total([], rest)
  {
    var bs := [b] + rest.blocks;
    assert bs[0] == b && bs[1..] == rest.blocks;
    assert [] + EncodeAll(rest.blocks) == EncodeAll(rest.blocks) == Sent([], rest.blocks);
    Assoc(uuid, Encode(b), EncodeAll(rest.blocks));
    Assoc(uuid + Encode(b), EncodeAll(rest.blocks), rest.tail);
  }

  /** What is still to come before the i-th buffer, which after a stop is the raw rest. */
  function PadRest(c: W.Batch, rest: seq<seq<byte>>, i: int, k: W.Mode, stop: bool): (e: W.Emitted)
    requires W.Safe(c.seed) && W.Buffers(rest, SIZE - 21)
  {
    if stop then W.Emitted([], Flatten(rest), k.padding, k.armed) else W.PadFrom(c, rest, i, k)
  }

  /** Blocks as they go out: the UUID, if it is still to be written, before the first. */
  function Sent(uuid: seq<byte>, bs: seq<Block>): (s: seq<byte>)
    requires AllFit(bs)
  {
    if bs == [] then [] else uuid + EncodeAll(bs)
  }

  /** The framed connection and the pending UUID of a writer in this state. */
  ghost predicate Wired(uuid: seq<byte>, w: W.Sender, input: seq<byte>, framed: seq<byte>, once: seq<byte>) {
    && W.SenderInv(w, input) && AllFit(w.blocks)
    && framed == W.Framed(uuid, w) && once == if w.blocks == [] then uuid else []
  }

  /** What a call of a writer in state v puts on the framed connection. */
  ghost predicate OnWire(seed: W.Seed, v: W.Sender, m: W.MultiBuffer, noise: int -> nat,
                         framed: seq<byte>, once: seq<byte>, framed': seq<byte>, once': seq<byte>)
    requires W.Safe(seed) && W.Sized(m)
  {
    if v.padding then
      var e := W.EmitCall(seed, v, m, noise);
      && AllFit(e.blocks)
      && framed' == framed + (Sent(once, e.blocks) + e.tail)
      && once' == if e.blocks == [] then once else []
    else
      framed' == (if v.direct then framed else framed + W.Plain(m)) && once' == once
  }

  /** One call keeps the connection and the writer's state in agreement. */
  lemma {:induction false} WiredNext(uuid: seq<byte>, seed: W.Seed, w: W.Sender, m: W.MultiBuffer, noise: int -> nat, stale: int -> int,
                                     input: seq<byte>, framed: seq<byte>, once: seq<byte>, framed': seq<byte>, once': seq<byte>)
    requires W.Safe(seed) && W.Sized(m) && Wired(uuid, w, input, framed, once)
    requires OnWire(seed, W.Prepared(w, m, stale), m, noise, framed, once, framed', once')
    ensures Wired(uuid, W.Written(seed, w, m, noise, stale), input + W.Plain(m), framed', once')
  {
    W.WrittenKeeps(seed, w, input, m, noise, stale);
    W.BoundedFit(W.Written(seed, w, m, noise, stale).blocks);
    FramedWritten(uuid, seed, w, m, noise, stale);
  }

  /** What a call adds to the framed connection. */
  lemma {:induction false} FramedWritten(uuid: seq<byte>, seed: W.Seed, w: W.Sender, m: W.MultiBuffer, noise: int -> nat, stale: int -> int)
    requires W.Safe(seed) && W.Sized(m) && AllFit(w.blocks)
    requires w.padding ==> w.tail == [] && !w.direct && !w.armed
    requires AllFit(W.Written(seed, w, m, noise, stale).blocks)
    ensures
      var v, u := W.Prepared(w, m, stale), W.Written(seed, w, m, noise, stale);
      var e := W.EmitCall(seed, v, m, noise);
      && (w.padding ==>
            && AllFit(e.blocks)
            && W.Framed(uuid, u) == W.Framed(uuid, w) + (Sent(if w.blocks == [] then uuid else [], e.blocks) + e.tail))
      && (!w.padding && v.direct ==> W.Framed(uuid, u) == W.Framed(uuid, w))
      && (!w.padding && !v.direct ==> W.Framed(uuid, u) == W.Framed(uuid, w) + W.Plain(m))
  {
    var v := W.Prepared(w, m, stale);
    if w.padding {
      var e := W.EmitCall(seed, v, m, noise);
      AllFitSuffix(w.blocks, e.blocks);
      FramedGrows(uuid, v, e);
    } else if !v.direct {
      Assoc(Sent(uuid, w.blocks), w.tail, W.Plain(m));
    }
  }

  lemma {:induction false} AllFitSuffix(a: seq<Block>, b: seq<Block>)
    requires AllFit(a + b)
    ensures AllFit(b)
  {
    if a == [] {
      assert a + b == b;
    } else {
      assert (a + b)[1..] == a[1..] + b;
      AllFitSuffix(a[1..], b);
    }
  }

  lemma {:induction false} FramedGrows(uuid: seq<byte>, v: W.Sender, e: W.Emitted)
    requires AllFit(v.blocks) && AllFit(e.blocks) && AllFit(v.blocks + e.blocks) && v.tail == []
    ensures
      W.Framed(uuid, v.(blocks := v.blocks + e.blocks, tail := v.tail + e.tail))
      == W.Framed(uuid, v) + (Sent(if v.blocks == [] then uuid else [], e.blocks) + e.tail)
  {
    var sent := Sent(if v.blocks == [] then uuid else [], e.blocks);
    SentAppend(uuid, v.blocks, e.blocks);
    assert v.tail + e.tail == e.tail && Sent(uuid, v.blocks) + [] == Sent(uuid, v.blocks);
    Assoc(Sent(uuid, v.blocks), sent, e.tail);
  }

  lemma {:induction false} SentAppend(uuid: seq<byte>, a: seq<Block>, b: seq<Block>)
    requires AllFit(a) && AllFit(b) && AllFit(a + b)
    ensures Sent(uuid, a + b) == Sent(uuid, a) + Sent(if a == [] then uuid else [], b)
  {
    EncodeAllAppend(a, b);
    if b == [] {
      assert a + b == a;
      assert Sent(uuid, a) + [] == Sent(uuid, a);
    } else if a == [] {
      assert a + b == b;
      assert [] + Sent(uuid, b) == Sent(uuid, b);
    } else {
      assert [] + EncodeAll(b) == EncodeAll(b);
      Assoc(uuid, EncodeAll(a), EncodeAll(b));
    }
  }
}
