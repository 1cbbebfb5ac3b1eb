/**
  The receiving side of Vision: XtlsUnpadding over one buffer, the flag decisions of
  VisionReader.ReadMultiBuffer, and what they add up to over any sequence of calls.

  Offsets count the bytes of a framed stream after its 16-byte UUID.
 */
module VisionReader {
  import opened Bytes
  import opened Collections
  import opened VisionFrame

  // ---------------------------------------------------------------- one buffer

  /** core/proxy/proxy.go:552: the buffer looks like the start of a framed stream. */
  predicate Starts(uuid: seq<byte>, b: seq<byte>) {
    |b| >= 21 && b[..16] == uuid
  }

  /** XtlsUnpadding on one buffer. */
  function Unpad(uuid: seq<byte>, p: Parser, b: seq<byte>): (r: Parsed)
    requires p.Valid()
    ensures r.parser.Valid()
    ensures |r.out| <= |b|
  {
    if p.Initial() && Starts(uuid, b) then Parse(AtBlock(p.current), b[16..]) else Parse(p, b)
  }

  function UnpadAll(uuid: seq<byte>, p: Parser, mb: seq<seq<byte>>): (r: Parsed)
    requires p.Valid()
    ensures r.parser.Valid()
    decreases |mb|
  {
    if mb == [] then Parsed(p, [])
    else
      var first := Unpad(uuid, p, mb[0]);
      var rest := UnpadAll(uuid, first.parser, mb[1..]);
      Parsed(rest.parser, first.out + rest.out)
  }

  // ---------------------------------------------------------------- one read

  /** The reader's part of a link: parser, WithinPaddingBuffers, ReaderDirectCopy. */
  datatype Link = Link(parser: Parser, within: bool, direct: bool)

  const FRESH: Link := Link(AfterLast(CONTINUE), true, false)

  /** core/proxy/proxy.go:244-253 */
  function Decide(k: Link, p: Parser): (l: Link) {
    if p.content > 0 || p.padding > 0 || p.current == CONTINUE then Link(p, true, k.direct)
    else if p.current == END then Link(p, false, k.direct)
    else if p.current == DIRECT then Link(p, false, true)
    else Link(p, k.within, k.direct)
  }

  datatype Delivered = Delivered(link: Link, out: seq<byte>)

  /**
    ReadMultiBuffer on what the inner reader returned; `filtering` is
    NumberOfPacketToFilter > 0 on entry.
   */
  function ReadStep(uuid: seq<byte>, k: Link, filtering: bool, mb: seq<seq<byte>>): (r: Delivered)
    requires k.parser.Valid()
    ensures r.link.parser.Valid()
  {
    if Flatten(mb) == [] then Delivered(k, [])
    else if k.direct then Delivered(k, Flatten(mb))
    else if k.within || filtering then
      var r := UnpadAll(uuid, k.parser, mb);
      Delivered(Decide(k, r.parser), r.out)
    else Delivered(k, Flatten(mb))
  }

  // ---------------------------------------------------------------- a run of reads

  /**
    One call: the buffers that arrived, and whether the sniffer was still counting
    packets. The sniffer is shared with the other direction, so `filtering` is left
    free except that it never comes back once it is off.
   */
  datatype Read = Read(mb: seq<seq<byte>>, filtering: bool)

  function Data(calls: seq<Read>): (s: seq<byte>) {
    if calls == [] then [] else Flatten(calls[0].mb) + Data(calls[1..])
  }

  predicate AllOff(calls: seq<Read>) {
    calls == [] || (!calls[0].filtering && AllOff(calls[1..]))
  }

  predicate FilterStops(calls: seq<Read>) {
    calls == [] || ((!calls[0].filtering ==> AllOff(calls[1..])) && FilterStops(calls[1..]))
  }

  function ReadAll(uuid: seq<byte>, k: Link, calls: seq<Read>): (r: Delivered)
    requires k.parser.Valid()
    ensures r.link.parser.Valid()
    decreases |calls|
  {
    if calls == [] then Delivered(k, [])
    else
      var first := ReadStep(uuid, k, calls[0].filtering, calls[0].mb);
      var rest := ReadAll(uuid, first.link, calls[1..]);
      Delivered(rest.link, first.out + rest.out)
  }

  /**
    No buffer that begins after framing has ended (offset `framed`) looks like the
    start of a new framed stream.
   */
  predicate CleanBuffers(uuid: seq<byte>, framed: int, x: int, mb: seq<seq<byte>>)
    decreases |mb|
  {
    mb == [] ||
    ((x >= framed ==> !Starts(uuid, mb[0])) && CleanBuffers(uuid, framed, x + |mb[0]|, mb[1..]))
  }

  predicate CleanReads(uuid: seq<byte>, framed: int, x: int, calls: seq<Read>)
    decreases |calls|
  {
    calls == [] ||
    (CleanBuffers(uuid, framed, x, calls[0].mb) && CleanReads(uuid, framed, x + |Flatten(calls[0].mb)|, calls[1..]))
  }

  /**
    Cutting a read after k bytes of the block b leaves its lengths looking like zero:
    only the command has been seen, or the length bytes seen so far are all zero.
   */
  predicate BlindCut(b: Block, k: int) {
    || k == 1
    || (k == 2 && |b.content| < 256)
    || (k == 3 && |b.content| == 0)
    || (k == 4 && |b.content| == 0 && |b.padding| < 256)
  }

  function LastStart(bs: seq<Block>): (x: int)
    requires AllFit(bs) && Terminated(bs)
  {
    |EncodeAll(bs)| - 5 - |Last(bs).content| - |Last(bs).padding|
  }

  /** A read that stops at offset x stops inside the last block's header, with its lengths still zero. */
  predicate Blind(bs: seq<Block>, x: int)
    requires AllFit(bs) && Terminated(bs)
  {
    BlindCut(Last(bs), x - LastStart(bs))
  }

  /** Some read that stops blind is followed by a non-empty one made after the sniffer stopped. */
  predicate LosesFraming(bs: seq<Block>, x: int, calls: seq<Read>)
    requires AllFit(bs) && Terminated(bs)
    decreases |calls|
  {
    && calls != []
    && ((Flatten(calls[0].mb) != [] && !calls[0].filtering && Blind(bs, x))
        || LosesFraming(bs, x + |Flatten(calls[0].mb)|, calls[1..]))
  }

  /** Some read stops blind, at x or at a later cut. */
  predicate StopsBlind(bs: seq<Block>, x: int, calls: seq<Read>)
    requires AllFit(bs) && Terminated(bs)
    decreases |calls|
  {
    Blind(bs, x) || (calls != [] && StopsBlind(bs, x + |Flatten(calls[0].mb)|, calls[1..]))
  }

  // ---------------------------------------------------------------- the parser at an offset

  function ParserAt(data: seq<byte>, x: int): (p: Parser)
    requires 0 <= x <= |data|
  {
    Parse(AtBlock(CONTINUE), data[..x]).parser
  }

  /** One more header byte, not the last. */
  lemma {:induction false} HeaderStep(p: Parser, h: seq<byte>, k: int)
    requires p.InHeader() && 0 < k <= |h|
    requires Parse(p, h[..k - 1]).parser.InHeader() && Parse(p, h[..k - 1]).parser.command > 1
    ensures Parse(p, h[..k]).parser == HeaderByte(Parse(p, h[..k - 1]).parser, h[k - 1])
  {
    assert h[..k] == h[..k - 1] + [h[k - 1]];
    ParseSplit(p, h[..k - 1], [h[k - 1]]);
    assert [h[k - 1]] == [h[k - 1]] + [];
    ParseTwo(Parse(p, h[..k - 1]).parser, h[k - 1], []);
  }

  /** Inside a header: what the parser knows after k bytes of it. */
  lemma {:induction false} HeaderPrefix(p: Parser, b: Block, k: int)
    requires p.InHeader() && p.command == 5 && Fits(b) && 1 <= k <= 4
    ensures
      var q := Parse(p, Header(b)[..k]).parser;
      && q.InHeader() && q.command == 5 - k
      && q.current == b.command
      && q.content == (if k == 1 then p.content else if k == 2 then U16(High(|b.content|), 0) else |b.content|)
      && q.padding == (if k == 4 then U16(High(|b.padding|), 0) else p.padding)
  {
    var h := Header(b);
    U16OfHalves(|b.content|);
    if k == 1 {
      assert Parse(p, h[..0]).parser == p;
    } else {
      HeaderPrefix(p, b, k - 1);
    }
    HeaderStep(p, h, k);
  }

  /** After the header and j bytes of the content, with more of the block to come. */
  lemma {:induction false} ContentPrefix(p: Parser, b: Block, j: int)
    requires p.InHeader() && p.command == 5 && Fits(b) && 0 <= j <= |b.content| && j < |b.content| + |b.padding|
    ensures
      var q := Parse(p, Header(b) + b.content[..j]).parser;
      q.InBody() && q.current == b.command
  {
    ParseHeaderOf(p, b);
    ParseSplit(p, Header(b), b.content[..j]);
    if j > 0 {
      ParseContent(Parser(0, |b.content|, |b.padding|, b.command), b.content[..j]);
    }
  }

  /** After the content and j bytes of the padding, with more of it to come. */
  lemma {:induction false} PaddingPrefix(p: Parser, b: Block, j: int)
    requires p.InHeader() && p.command == 5 && Fits(b) && 0 < j < |b.padding|
    ensures
      var q := Parse(p, Header(b) + b.content + b.padding[..j]).parser;
      q.InBody() && q.current == b.command
  {
    ParseHeaderAndContent(p, b);
    ParseSplit(p, Header(b) + b.content, b.padding[..j]);
    ParsePadding(Parser(0, 0, |b.padding|, b.command), b.padding[..j]);
  }

  lemma {:induction false} CutBlock(h: seq<byte>, c: seq<byte>, d: seq<byte>, k: int)
    requires |h| <= k <= |h + c + d|
    ensures k <= |h| + |c| ==> (h + c + d)[..k] == h + c[..k - |h|]
    ensures k > |h| + |c| ==> (h + c + d)[..k] == h + c + d[..k - |h| - |c|]
  {
  }

  /** Past the header: content and padding still to come. */
  lemma {:induction false} BodyPrefix(p: Parser, b: Block, k: int)
    requires p.InHeader() && p.command == 5 && Fits(b) && 5 <= k < |Encode(b)|
    ensures
      var q := Parse(p, Encode(b)[..k]).parser;
      q.InBody() && q.current == b.command
  {
    var c := |b.content|;
    CutBlock(Header(b), b.content, b.padding, k);
    if k <= 5 + c {
      ContentPrefix(p, b, k - 5);
    } else {
      PaddingPrefix(p, b, k - 5 - c);
    }
  }

  /** After k bytes of a block, fewer than all of them. */
  lemma {:induction false} BlockPrefix(p: Parser, b: Block, k: int)
    requires p.InHeader() && p.command == 5 && Fits(b) && 1 <= k < |Encode(b)|
    ensures
      var q := Parse(p, Encode(b)[..k]).parser;
      && q.InBlock() && q.current == b.command
      && (q.content > 0 || q.padding > 0 <==> !BlindCut(b, k))
  {
    if k <= 4 {
      assert Encode(b)[..k] == Header(b)[..k];
      HeaderPrefix(p, b, k);
    } else {
      BodyPrefix(p, b, k);
    }
  }

  /** Among Continue blocks the parser is inside framing and its command is Continue. */
  lemma {:induction false} OpenPrefix(p: Parser, bs: seq<Block>, x: int)
    requires p.InHeader() && p.command == 5 && p.current == CONTINUE
    requires AllFit(bs) && Open(bs) && 0 <= x <= |EncodeAll(bs)|
    ensures
      var q := Parse(p, EncodeAll(bs)[..x]).parser;
      q.InBlock() && q.current == CONTINUE
    decreases |bs|
  {
    if bs != [] && x > 0 {
      var e := Encode(bs[0]);
      if x < |e| {
        assert EncodeAll(bs)[..x] == e[..x];
        BlockPrefix(p, bs[0], x);
      } else {
        ParseBlock(p, bs[0]);
        assert EncodeAll(bs)[..x] == e + EncodeAll(bs[1..])[..x - |e|];
        ParseSplit(p, e, EncodeAll(bs[1..])[..x - |e|]);
        OpenPrefix(Settle(Parser(0, 0, 0, CONTINUE)), bs[1..], x - |e|);
      }
    }
  }

  /** In the last block: at its k-th byte. */
  lemma {:induction false} LastPrefix(init: seq<Block>, b: Block, k: int)
    requires AllFit(init) && Open(init) && Fits(b) && 1 <= k < |Encode(b)|
    ensures
      var q := Parse(AtBlock(CONTINUE), EncodeAll(init) + Encode(b)[..k]).parser;
      && q.InBlock() && q.current == b.command
      && (q.content > 0 || q.padding > 0 <==> !BlindCut(b, k))
  {
    var p := AtBlock(CONTINUE);
    ParseSplit(p, EncodeAll(init), Encode(b)[..k]);
    ParseOpen(p, init);
    BlockPrefix(Parse(p, EncodeAll(init)).parser, b, k);
  }

  lemma {:induction false} PositionPast(bs: seq<Block>, tail: seq<byte>, x: int)
    requires AllFit(bs) && Terminated(bs) && |EncodeAll(bs)| <= x <= |EncodeAll(bs)| + |tail|
    ensures ParserAt(EncodeAll(bs) + tail, x) == AfterLast(Last(bs).command)
  {
    var framed := EncodeAll(bs);
    assert (framed + tail)[..x] == framed + tail[..x - |framed|];
    ParseTerminated(AtBlock(CONTINUE), bs, tail[..x - |framed|]);
  }

  lemma {:induction false} PositionInside(init: seq<Block>, b: Block, tail: seq<byte>, x: int)
    requires AllFit(init) && Open(init) && Fits(b) && b.command != CONTINUE
    requires 0 <= x < |EncodeAll(init) + Encode(b)|
    ensures
      var q := ParserAt(EncodeAll(init) + Encode(b) + tail, x);
      && q.InBlock()
      && (if q.current == CONTINUE then x <= |EncodeAll(init)|
          else q.current == b.command && (q.content > 0 || q.padding > 0 <==> !BlindCut(b, x - |EncodeAll(init)|)))
  {
    var start, data := EncodeAll(init), EncodeAll(init) + Encode(b) + tail;
    if x <= |start| {
      assert data[..x] == start[..x];
      OpenPrefix(AtBlock(CONTINUE), init, x);
    } else {
      assert data[..x] == start + Encode(b)[..x - |start|];
      LastPrefix(init, b, x - |start|);
    }
  }

  /** Where the parser stands at every offset of a terminated stream. */
  lemma {:induction false} Position(bs: seq<Block>, tail: seq<byte>, x: int)
    requires AllFit(bs) && Terminated(bs) && 0 <= x <= |EncodeAll(bs)| + |tail|
    ensures
      var q := ParserAt(EncodeAll(bs) + tail, x);
      var last := Last(bs).command;
      && (x >= |EncodeAll(bs)| ==> q == AfterLast(last))
      && (x < |EncodeAll(bs)| ==>
            && q.InBlock()
            && (if q.current == CONTINUE then !Blind(bs, x)
                else q.current == last && (q.content > 0 || q.padding > 0 <==> !Blind(bs, x))))
  {
    if x >= |EncodeAll(bs)| {
      PositionPast(bs, tail, x);
    } else {
      Unsnoc(bs);
      PositionInside(bs[..|bs| - 1], Last(bs), tail, x);
    }
  }

  lemma {:induction false} Advance(data: seq<byte>, x: int, chunk: seq<byte>)
    requires 0 <= x <= x + |chunk| <= |data| && data[x..x + |chunk|] == chunk
    ensures ParserAt(data, x + |chunk|) == Parse(ParserAt(data, x), chunk).parser
  {
    assert data[..x + |chunk|] == data[..x] + chunk;
    ParseSplit(AtBlock(CONTINUE), data[..x], chunk);
  }

  // ---------------------------------------------------------------- chunk invariance

  /**
    Chunk-invariant unpadding: from any offset of a terminated stream, any buffers
    that carry the next bytes produce what one pass over those bytes would.
   */
  lemma {:induction false} UnpadAllIsParse(uuid: seq<byte>, bs: seq<Block>, tail: seq<byte>, x: int, mb: seq<seq<byte>>)
    requires AllFit(bs) && Terminated(bs)
    requires 0 <= x <= |EncodeAll(bs) + tail| && Flatten(mb) <= (EncodeAll(bs) + tail)[x..]
    requires CleanBuffers(uuid, |EncodeAll(bs)|, x, mb)
    ensures
      var p := ParserAt(EncodeAll(bs) + tail, x);
      UnpadAll(uuid, p, mb) == Parse(p, Flatten(mb))
    decreases |mb|
  {
    var data := EncodeAll(bs) + tail;
    var p := ParserAt(data, x);
    if mb != [] {
      Position(bs, tail, x);
      var b, rest := mb[0], Flatten(mb[1..]);
      SplitAt(data, x, b, rest);
      Advance(data, x, b);
      UnpadAllIsParse(uuid, bs, tail, x + |b|, mb[1..]);
      ParseSplit(p, b, rest);
    }
  }

  /**
    XtlsUnpadding, whole stream: whatever the block lengths, the padding, the raw tail
    and the split into buffers (the first of at least 21 bytes, none after the end
    looking like a new start), the outputs are the contents followed by the tail.
   */
  lemma {:induction false} UnpadRoundTrip(uuid: seq<byte>, bs: seq<Block>, tail: seq<byte>, mb: seq<seq<byte>>)
    requires |uuid| == 16 && AllFit(bs) && Terminated(bs)
    requires Flatten(mb) == uuid + EncodeAll(bs) + tail
    requires mb != [] && |mb[0]| >= 21
    requires CleanBuffers(uuid, |EncodeAll(bs)|, |mb[0]| - 16, mb[1..])
    ensures UnpadAll(uuid, FRESH.parser, mb)
         == Parsed(AfterLast(Last(bs).command), Contents(bs) + tail)
  {
    var data := EncodeAll(bs) + tail;
    assert data + [] == data;
    FirstBuffer(uuid, bs, tail, mb, []);
    ParseTerminated(AtBlock(CONTINUE), bs, tail);
  }

  /** The first buffers of a stream, up to any point of it. */
  lemma {:induction false} FirstBuffer(uuid: seq<byte>, bs: seq<Block>, tail: seq<byte>, mb: seq<seq<byte>>, later: seq<byte>)
    requires |uuid| == 16 && AllFit(bs) && Terminated(bs)
    requires Flatten(mb) + later == uuid + EncodeAll(bs) + tail
    requires mb != [] && |mb[0]| >= 21
    requires CleanBuffers(uuid, |EncodeAll(bs)|, |mb[0]| - 16, mb[1..])
    ensures |Flatten(mb)| >= 21
    ensures Flatten(mb)[16..] == (EncodeAll(bs) + tail)[..|Flatten(mb)| - 16]
    ensures later == (EncodeAll(bs) + tail)[|Flatten(mb)| - 16..]
    ensures UnpadAll(uuid, FRESH.parser, mb) == Parse(AtBlock(CONTINUE), Flatten(mb)[16..])
  {
    var data := EncodeAll(bs) + tail;
    var b, rest := mb[0], Flatten(mb[1..]);
    Assoc(uuid, EncodeAll(bs), tail);
    SplitFront(uuid, data, b, rest, later);
    FirstUnpad(uuid, bs, tail, mb);
  }

  lemma {:induction false} FirstUnpad(uuid: seq<byte>, bs: seq<Block>, tail: seq<byte>, mb: seq<seq<byte>>)
    requires AllFit(bs) && Terminated(bs) && mb != [] && Starts(uuid, mb[0])
    requires
      var data, x := EncodeAll(bs) + tail, |mb[0]| - 16;
      && x <= |data| && mb[0][16..] == data[..x] && Flatten(mb[1..]) <= data[x..]
      && CleanBuffers(uuid, |EncodeAll(bs)|, x, mb[1..])
    ensures UnpadAll(uuid, FRESH.parser, mb) == Parse(AtBlock(CONTINUE), mb[0][16..] + Flatten(mb[1..]))
  {
    UnpadAllIsParse(uuid, bs, tail, |mb[0]| - 16, mb[1..]);
    assert Unpad(uuid, FRESH.parser, mb[0]) == Parse(AtBlock(CONTINUE), mb[0][16..]);
    ParseSplit(AtBlock(CONTINUE), mb[0][16..], Flatten(mb[1..]));
  }

  lemma {:induction false} SplitFront(uuid: seq<byte>, data: seq<byte>, b: seq<byte>, rest: seq<byte>, later: seq<byte>)
    requires |uuid| == 16 && |b| >= 21 && b + rest + later == uuid + data
    ensures b[..16] == uuid && b[16..] == data[..|b| - 16]
    ensures rest <= data[|b| - 16..]
    ensures (b + rest)[16..] == b[16..] + rest == data[..|b + rest| - 16]
    ensures later == data[|b + rest| - 16..]
  {
    var whole := uuid + data;
    assert b == whole[..|b|];
    assert rest == whole[|b|..|b| + |rest|];
    assert later == whole[|b| + |rest|..];
    assert whole[16..] == data;
    assert b[16..] == whole[16..|b|];
    assert rest == data[|b| - 16..][..|rest|];
  }

  lemma {:induction false} SplitAt(data: seq<byte>, x: int, chunk: seq<byte>, rest: seq<byte>)
    requires 0 <= x <= |data| && chunk + rest <= data[x..]
    ensures x + |chunk| <= |data|
    ensures chunk <= data[x..] && chunk == data[x..x + |chunk|]
    ensures rest <= data[x + |chunk|..]
    ensures chunk + rest == data[x..] ==> rest == data[x + |chunk|..]
  {
    var d := data[x..];
    assert chunk == (chunk + rest)[..|chunk|] == d[..|chunk|];
    assert rest == (chunk + rest)[|chunk|..] == d[|chunk|..|chunk| + |rest|];
    assert d[|chunk|..] == data[x + |chunk|..];
  }

  // ---------------------------------------------------------------- runs of reads

  /** The link agrees with the parser at offset x of the stream. */
  ghost predicate Synced(bs: seq<Block>, tail: seq<byte>, x: int, k: Link)
    requires AllFit(bs) && Terminated(bs) && 0 <= x <= |EncodeAll(bs) + tail|
  {
    && k.parser == ParserAt(EncodeAll(bs) + tail, x)
    && k.within == (x < |EncodeAll(bs)| && !Blind(bs, x))
    && k.direct == (!k.within && Last(bs).command == DIRECT)
  }

  /**
    The decision of lines 244-253 after a read that stops at offset x: padding is
    taken to go on exactly when it does, except at a blind cut; direct copy is
    switched on exactly at the end of a Direct stream, or at a blind cut of it.
   */
  lemma {:induction false} DecideAt(bs: seq<Block>, tail: seq<byte>, x: int, k: Link)
    requires AllFit(bs) && Terminated(bs) && 0 <= x <= |EncodeAll(bs) + tail|
    requires Last(bs).command in {END, DIRECT} && !k.direct
    ensures Synced(bs, tail, x, Decide(k, ParserAt(EncodeAll(bs) + tail, x)))
  {
    Position(bs, tail, x);
  }

  /** A read that goes through XtlsUnpadding keeps the link in step. */
  lemma {:induction false} ActiveRead(uuid: seq<byte>, bs: seq<Block>, tail: seq<byte>, x: int, k: Link, r: Read, d: Delivered, y: int)
    requires AllFit(bs) && Terminated(bs) && Last(bs).command in {END, DIRECT}
    requires 0 <= x <= |EncodeAll(bs) + tail| && Flatten(r.mb) <= (EncodeAll(bs) + tail)[x..]
    requires Synced(bs, tail, x, k) && !k.direct && (k.within || r.filtering)
    requires CleanBuffers(uuid, |EncodeAll(bs)|, x, r.mb)
    requires d == ReadStep(uuid, k, r.filtering, r.mb) && y == x + |Flatten(r.mb)|
    ensures y <= |EncodeAll(bs) + tail| && Synced(bs, tail, y, d.link)
    ensures Parsed(d.link.parser, d.out) == Parse(k.parser, Flatten(r.mb))
  {
    var data, chunk := EncodeAll(bs) + tail, Flatten(r.mb);
    if chunk != [] {
      UnpaddedRead(uuid, bs, tail, x, k, r);
      assert chunk == data[x..][..|chunk|] == data[x..y];
      Advance(data, x, chunk);
      DecideAt(bs, tail, y, k);
    }
  }

  lemma {:induction false} UnpaddedRead(uuid: seq<byte>, bs: seq<Block>, tail: seq<byte>, x: int, k: Link, r: Read)
    requires AllFit(bs) && Terminated(bs) && 0 <= x <= |EncodeAll(bs) + tail|
    requires Flatten(r.mb) <= (EncodeAll(bs) + tail)[x..] && Flatten(r.mb) != []
    requires Synced(bs, tail, x, k) && !k.direct && (k.within || r.filtering)
    requires CleanBuffers(uuid, |EncodeAll(bs)|, x, r.mb)
    ensures
      var p := Parse(k.parser, Flatten(r.mb));
      ReadStep(uuid, k, r.filtering, r.mb) == Delivered(Decide(k, p.parser), p.out)
  {
    UnpadAllIsParse(uuid, bs, tail, x, r.mb);
  }

  /** The first read of a stream, whose first buffer carries the UUID and a whole header. */
  lemma {:induction false} FirstRead(uuid: seq<byte>, bs: seq<Block>, tail: seq<byte>, r: Read, later: seq<byte>)
    requires |uuid| == 16 && AllFit(bs) && Terminated(bs) && Last(bs).command in {END, DIRECT}
    requires Flatten(r.mb) + later == uuid + EncodeAll(bs) + tail
    requires r.mb != [] && |r.mb[0]| >= 21
    requires CleanBuffers(uuid, |EncodeAll(bs)|, |r.mb[0]| - 16, r.mb[1..])
    ensures
      var d, x := ReadStep(uuid, FRESH, r.filtering, r.mb), |Flatten(r.mb)| - 16;
      && 5 <= x <= |EncodeAll(bs) + tail|
      && Synced(bs, tail, x, d.link)
      && d.out == Parse(AtBlock(CONTINUE), (EncodeAll(bs) + tail)[..x]).out
      && later == (EncodeAll(bs) + tail)[x..]
  {
    var data, x := EncodeAll(bs) + tail, |Flatten(r.mb)| - 16;
    FirstBuffer(uuid, bs, tail, r.mb, later);
    DecideAt(bs, tail, x, FRESH);
  }

  /** Once calls pass straight through, everything comes out as it arrived. */
  lemma {:induction false} PassThrough(uuid: seq<byte>, k: Link, calls: seq<Read>)
    requires k.parser.Valid() && !k.direct && !k.within
    requires AllOff(calls)
    ensures ReadAll(uuid, k, calls) == Delivered(k, Data(calls))
    decreases |calls|
  {
    if calls != [] {
      PassThrough(uuid, k, calls[1..]);
    }
  }

  /** What was delivered against what was sent: more bytes once framing is lost, the same otherwise. */
  predicate Verdict(lost: bool, got: seq<byte>, want: seq<byte>) {
    if lost then |got| > |want| else got == want
  }

  /** From any point inside a stream that ends with an End block, to its end. */
  lemma {:induction false} RestOfEndStream(uuid: seq<byte>, bs: seq<Block>, tail: seq<byte>, x: int, k: Link, calls: seq<Read>)
    requires AllFit(bs) && Terminated(bs) && Last(bs).command == END
    requires 0 <= x <= |EncodeAll(bs) + tail| && Data(calls) == (EncodeAll(bs) + tail)[x..]
    requires Synced(bs, tail, x, k) && FilterStops(calls)
    requires CleanReads(uuid, |EncodeAll(bs)|, x, calls)
    ensures Verdict(LosesFraming(bs, x, calls), ReadAll(uuid, k, calls).out, Parse(k.parser, Data(calls)).out)
    ensures !ReadAll(uuid, k, calls).link.direct
    decreases |calls|, 1
  {
    if calls == [] {
      assert Parse(k.parser, []).out == [];
    } else if !k.within && !calls[0].filtering && Flatten(calls[0].mb) != [] && Blind(bs, x) {
      LostFraming(uuid, bs, tail, x, k, calls);
    } else {
      NextOfEndStream(uuid, bs, tail, x, k, calls);
    }
  }

  /** One read that keeps the link in step, and the rest after it. */
  lemma {:induction false} NextOfEndStream(uuid: seq<byte>, bs: seq<Block>, tail: seq<byte>, x: int, k: Link, calls: seq<Read>)
    requires AllFit(bs) && Terminated(bs) && Last(bs).command == END
    requires 0 <= x <= |EncodeAll(bs) + tail| && Data(calls) == (EncodeAll(bs) + tail)[x..]
    requires Synced(bs, tail, x, k) && FilterStops(calls) && calls != []
    requires k.within || calls[0].filtering || Flatten(calls[0].mb) == [] || !Blind(bs, x)
    requires CleanReads(uuid, |EncodeAll(bs)|, x, calls)
    ensures Verdict(LosesFraming(bs, x, calls), ReadAll(uuid, k, calls).out, Parse(k.parser, Data(calls)).out)
    ensures !ReadAll(uuid, k, calls).link.direct
    decreases |calls|, 0
  {
    var y := x + |Flatten(calls[0].mb)|;
    var d := ReadStep(uuid, k, calls[0].filtering, calls[0].mb);
    SplitAt(EncodeAll(bs) + tail, x, Flatten(calls[0].mb), Data(calls[1..]));
    InStep(uuid, bs, tail, x, k, calls[0], d, y);
    RestOfEndStream(uuid, bs, tail, y, d.link, calls[1..]);
    NotLostHere(bs, tail, x, k, calls);
    ReadsTogether(uuid, k, calls, d, LosesFraming(bs, x, calls));
  }

  /** The verdict on the later calls is the verdict on all of them. */
  lemma {:induction false} ReadsTogether(uuid: seq<byte>, k: Link, calls: seq<Read>, d: Delivered, lost: bool)
    requires calls != [] && k.parser.Valid() && d == ReadStep(uuid, k, calls[0].filtering, calls[0].mb)
    requires Parsed(d.link.parser, d.out) == Parse(k.parser, Flatten(calls[0].mb))
    requires Verdict(lost, ReadAll(uuid, d.link, calls[1..]).out, Parse(d.link.parser, Data(calls[1..])).out)
    ensures Verdict(lost, ReadAll(uuid, k, calls).out, Parse(k.parser, Data(calls)).out)
  {
    VerdictAfter(lost, k.parser, Flatten(calls[0].mb), Data(calls[1..]), ReadAll(uuid, d.link, calls[1..]).out);
  }

  /** A link in step that goes on unpadding is not at a blind cut of its own making. */
  lemma {:induction false} NotLostHere(bs: seq<Block>, tail: seq<byte>, x: int, k: Link, calls: seq<Read>)
    requires AllFit(bs) && Terminated(bs) && 0 <= x <= |EncodeAll(bs) + tail|
    requires Synced(bs, tail, x, k) && calls != []
    requires k.within || calls[0].filtering || Flatten(calls[0].mb) == [] || !Blind(bs, x)
    ensures LosesFraming(bs, x, calls) == LosesFraming(bs, x + |Flatten(calls[0].mb)|, calls[1..])
  {
    Position(bs, tail, x);
  }

  lemma {:induction false} VerdictAfter(lost: bool, p: Parser, chunk: seq<byte>, rest: seq<byte>, got: seq<byte>)
    requires p.Valid() && Verdict(lost, got, Parse(Parse(p, chunk).parser, rest).out)
    ensures Verdict(lost, Parse(p, chunk).out + got, Parse(p, chunk + rest).out)
  {
    ParseSplit(p, chunk, rest);
  }

  /** Every other read keeps the link in step. */
  lemma {:induction false} InStep(uuid: seq<byte>, bs: seq<Block>, tail: seq<byte>, x: int, k: Link, r: Read, d: Delivered, y: int)
    requires AllFit(bs) && Terminated(bs) && Last(bs).command == END
    requires 0 <= x <= |EncodeAll(bs) + tail| && Flatten(r.mb) <= (EncodeAll(bs) + tail)[x..]
    requires Synced(bs, tail, x, k) && CleanBuffers(uuid, |EncodeAll(bs)|, x, r.mb)
    requires k.within || r.filtering || Flatten(r.mb) == [] || !Blind(bs, x)
    requires d == ReadStep(uuid, k, r.filtering, r.mb) && y == x + |Flatten(r.mb)|
    ensures y <= |EncodeAll(bs) + tail| && Synced(bs, tail, y, d.link)
    ensures Parsed(d.link.parser, d.out) == Parse(k.parser, Flatten(r.mb))
  {
    if k.within || r.filtering {
      ActiveRead(uuid, bs, tail, x, k, r, d, y);
    } else if Flatten(r.mb) != [] {
      Position(bs, tail, x);
      Position(bs, tail, y);
    }
  }

  lemma {:induction false} LostFraming(uuid: seq<byte>, bs: seq<Block>, tail: seq<byte>, x: int, k: Link, calls: seq<Read>)
    requires AllFit(bs) && Terminated(bs) && Last(bs).command == END
    requires 0 <= x <= |EncodeAll(bs) + tail|
    requires Synced(bs, tail, x, k) && FilterStops(calls)
    requires calls != [] && !calls[0].filtering && Flatten(calls[0].mb) != [] && Blind(bs, x) && !k.within
    ensures |ReadAll(uuid, k, calls).out| > |Parse(k.parser, Data(calls)).out|
    ensures !ReadAll(uuid, k, calls).link.direct
  {
    PassThrough(uuid, k, calls);
    FirstByteVanishes(bs, tail, x, Data(calls));
  }

  /** At a blind cut the next byte belongs to a header, so it is not output. */
  lemma {:induction false} FirstByteVanishes(bs: seq<Block>, tail: seq<byte>, x: int, rest: seq<byte>)
    requires AllFit(bs) && Terminated(bs) && 0 <= x <= |EncodeAll(bs) + tail|
    requires Blind(bs, x) && rest != []
    ensures |Parse(ParserAt(EncodeAll(bs) + tail, x), rest).out| < |rest|
  {
    var p := ParserAt(EncodeAll(bs) + tail, x);
    BlindIsInside(bs, x);
    Position(bs, tail, x);
    assert Parse(p, rest).out == Emit(p, rest[0]) + Parse(Next(p, rest[0]), rest[1..]).out;
  }

  lemma {:induction false} BlindIsInside(bs: seq<Block>, x: int)
    requires AllFit(bs) && Terminated(bs) && Blind(bs, x)
    ensures x < |EncodeAll(bs)|
  {
    Unsnoc(bs);
  }

  /**
    A stream that ends with an End block, whole runs: the reader delivers exactly the
    contents and the raw tail if and only if no read that stops blind in the last
    header is followed by one made after the sniffer stopped counting.
   */
  lemma {:induction false} EndStream(uuid: seq<byte>, bs: seq<Block>, tail: seq<byte>, calls: seq<Read>)
    requires |uuid| == 16 && AllFit(bs) && Terminated(bs) && Last(bs).command == END
    requires Data(calls) == uuid + EncodeAll(bs) + tail
    requires calls != [] && calls[0].mb != [] && |calls[0].mb[0]| >= 21
    requires FilterStops(calls)
    requires CleanBuffers(uuid, |EncodeAll(bs)|, |calls[0].mb[0]| - 16, calls[0].mb[1..])
    requires CleanReads(uuid, |EncodeAll(bs)|, |Flatten(calls[0].mb)| - 16, calls[1..])
    ensures ReadAll(uuid, FRESH, calls).out == Contents(bs) + tail
       <==> !LosesFraming(bs, |Flatten(calls[0].mb)| - 16, calls[1..])
    ensures !ReadAll(uuid, FRESH, calls).link.direct
  {
    var x := |Flatten(calls[0].mb)| - 16;
    FirstRead(uuid, bs, tail, calls[0], Data(calls[1..]));
    EndAfter(uuid, bs, tail, x, ReadStep(uuid, FRESH, calls[0].filtering, calls[0].mb), calls[1..]);
  }

  /** The calls after the first one. */
  lemma {:induction false} EndAfter(uuid: seq<byte>, bs: seq<Block>, tail: seq<byte>, x: int, first: Delivered, calls: seq<Read>)
    requires AllFit(bs) && Terminated(bs) && Last(bs).command == END && 0 <= x <= |EncodeAll(bs) + tail|
    requires Synced(bs, tail, x, first.link) && FilterStops(calls)
    requires first.out == Parse(AtBlock(CONTINUE), (EncodeAll(bs) + tail)[..x]).out
    requires Data(calls) == (EncodeAll(bs) + tail)[x..] && CleanReads(uuid, |EncodeAll(bs)|, x, calls)
    ensures
      var d := ReadAll(uuid, first.link, calls);
      (first.out + d.out == Contents(bs) + tail <==> !LosesFraming(bs, x, calls)) && !d.link.direct
  {
    RestOfEndStream(uuid, bs, tail, x, first.link, calls);
    WholeStream(bs, tail, x);
    SameStart(first.out, ReadAll(uuid, first.link, calls).out, Parse(first.link.parser, Data(calls)).out);
  }

  lemma {:induction false} SameStart(a: seq<byte>, b: seq<byte>, c: seq<byte>)
    ensures a + b == a + c <==> b == c
  {
    if a + b == a + c {
      assert b == (a + b)[|a|..] && c == (a + c)[|a|..];
    }
  }

  /** The output of the whole stream, cut at any offset. */
  lemma {:induction false} WholeStream(bs: seq<Block>, tail: seq<byte>, x: int)
    requires AllFit(bs) && Terminated(bs) && 0 <= x <= |EncodeAll(bs) + tail|
    ensures
      var data, p := EncodeAll(bs) + tail, AtBlock(CONTINUE);
      Contents(bs) + tail == Parse(p, data[..x]).out + Parse(ParserAt(data, x), data[x..]).out
  {
    var data := EncodeAll(bs) + tail;
    assert data == data[..x] + data[x..];
    ParseSplit(AtBlock(CONTINUE), data[..x], data[x..]);
    ParseTerminated(AtBlock(CONTINUE), bs, tail);
  }

  /** From any point inside a stream that ends with a Direct block. */
  lemma {:induction false} RestOfDirectStream(uuid: seq<byte>, bs: seq<Block>, x: int, k: Link, calls: seq<Read>)
    requires AllFit(bs) && Terminated(bs) && Last(bs).command == DIRECT
    requires 0 <= x <= |EncodeAll(bs)| && Data(calls) <= EncodeAll(bs)[x..]
    requires Synced(bs, [], x, k)
    requires CleanReads(uuid, |EncodeAll(bs)|, x, calls)
    ensures DirectVerdict(bs, x, k.parser, calls, ReadAll(uuid, k, calls))
    decreases |calls|, 1
  {
    WithoutTail(EncodeAll(bs));
    Position(bs, [], x);
    if !k.within {
      DirectStays(uuid, k, calls);
    } else if calls != [] {
      NextOfDirectStream(uuid, bs, x, k, calls);
    }
  }

  /** Direct copy is on exactly at the end or after a blind cut; until one, the output is that of one pass. */
  ghost predicate DirectVerdict(bs: seq<Block>, x: int, p: Parser, calls: seq<Read>, d: Delivered)
    requires AllFit(bs) && Terminated(bs) && p.Valid()
  {
    && (d.link.direct <==> x + |Data(calls)| == |EncodeAll(bs)| || StopsBlind(bs, x, calls))
    && (!StopsBlind(bs, x, calls) ==> d.out == Parse(p, Data(calls)).out)
  }

  lemma {:induction false} WithoutTail(data: seq<byte>)
    ensures data + [] == data
  {
  }

  lemma {:induction false} NextOfDirectStream(uuid: seq<byte>, bs: seq<Block>, x: int, k: Link, calls: seq<Read>)
    requires AllFit(bs) && Terminated(bs) && Last(bs).command == DIRECT
    requires 0 <= x <= |EncodeAll(bs)| && Data(calls) <= EncodeAll(bs)[x..]
    requires Synced(bs, [], x, k) && k.within && !Blind(bs, x) && calls != []
    requires CleanReads(uuid, |EncodeAll(bs)|, x, calls)
    ensures DirectVerdict(bs, x, k.parser, calls, ReadAll(uuid, k, calls))
    decreases |calls|, 0
  {
    var y := x + |Flatten(calls[0].mb)|;
    var d := ReadStep(uuid, k, calls[0].filtering, calls[0].mb);
    NextData(uuid, EncodeAll(bs), x, calls, y);
    DirectRead(uuid, bs, x, k, calls[0], d, y);
    RestOfDirectStream(uuid, bs, y, d.link, calls[1..]);
    DirectTogether(uuid, bs, x, k, calls, d, y);
  }

  lemma {:induction false} NextData(uuid: seq<byte>, data: seq<byte>, x: int, calls: seq<Read>, y: int)
    requires 0 <= x <= |data| && calls != [] && Data(calls) <= data[x..] && y == x + |Flatten(calls[0].mb)|
    requires CleanReads(uuid, |data|, x, calls)
    ensures y <= |data| && Flatten(calls[0].mb) <= data[x..] && Data(calls[1..]) <= data[y..]
    ensures CleanBuffers(uuid, |data|, x, calls[0].mb) && CleanReads(uuid, |data|, y, calls[1..])
  {
    SplitAt(data, x, Flatten(calls[0].mb), Data(calls[1..]));
  }

  /** A read inside the framed part keeps the link in step. */
  lemma {:induction false} DirectRead(uuid: seq<byte>, bs: seq<Block>, x: int, k: Link, r: Read, d: Delivered, y: int)
    requires AllFit(bs) && Terminated(bs) && Last(bs).command == DIRECT
    requires 0 <= x <= |EncodeAll(bs)| && Flatten(r.mb) <= EncodeAll(bs)[x..]
    requires Synced(bs, [], x, k) && k.within && CleanBuffers(uuid, |EncodeAll(bs)|, x, r.mb)
    requires d == ReadStep(uuid, k, r.filtering, r.mb) && y == x + |Flatten(r.mb)|
    ensures y <= |EncodeAll(bs)| && Synced(bs, [], y, d.link)
    ensures Parsed(d.link.parser, d.out) == Parse(k.parser, Flatten(r.mb))
  {
    WithoutTail(EncodeAll(bs));
    ActiveRead(uuid, bs, [], x, k, r, d, y);
  }

  /** The verdict on the later calls is the verdict on all of them. */
  lemma {:induction false} DirectTogether(uuid: seq<byte>, bs: seq<Block>, x: int, k: Link, calls: seq<Read>, d: Delivered, y: int)
    requires AllFit(bs) && Terminated(bs) && !Blind(bs, x)
    requires calls != [] && k.parser.Valid() && d == ReadStep(uuid, k, calls[0].filtering, calls[0].mb)
    requires Parsed(d.link.parser, d.out) == Parse(k.parser, Flatten(calls[0].mb))
    requires y == x + |Flatten(calls[0].mb)|
    requires DirectVerdict(bs, y, d.link.parser, calls[1..], ReadAll(uuid, d.link, calls[1..]))
    ensures DirectVerdict(bs, x, k.parser, calls, ReadAll(uuid, k, calls))
  {
    ParseSplit(k.parser, Flatten(calls[0].mb), Data(calls[1..]));
  }

  lemma {:induction false} DirectStays(uuid: seq<byte>, k: Link, calls: seq<Read>)
    requires k.parser.Valid() && k.direct
    ensures ReadAll(uuid, k, calls) == Delivered(k, Data(calls))
    decreases |calls|
  {
    if calls != [] {
      DirectStays(uuid, k, calls[1..]);
    }
  }

  /**
    A stream that ends with a Direct block, any number of calls into it: direct copy is
    on if and only if the last block has been used up or some read stopped blind; as
    long as none did, the output is what one pass over the bytes gives, so at the end
    it is exactly the contents.
   */
  lemma {:induction false} DirectStream(uuid: seq<byte>, bs: seq<Block>, calls: seq<Read>, later: seq<byte>)
    requires |uuid| == 16 && AllFit(bs) && Terminated(bs) && Last(bs).command == DIRECT
    requires Data(calls) + later == uuid + EncodeAll(bs)
    requires calls != [] && calls[0].mb != [] && |calls[0].mb[0]| >= 21
    requires CleanBuffers(uuid, |EncodeAll(bs)|, |calls[0].mb[0]| - 16, calls[0].mb[1..])
    requires CleanReads(uuid, |EncodeAll(bs)|, |Flatten(calls[0].mb)| - 16, calls[1..])
    ensures
      var d, x := ReadAll(uuid, FRESH, calls), |Flatten(calls[0].mb)| - 16;
      && (d.link.direct <==> later == [] || StopsBlind(bs, x, calls[1..]))
      && (!StopsBlind(bs, x, calls[1..]) ==>
            && d.out <= Contents(bs)
            && (later == [] ==> d.out == Contents(bs)))
  {
    var x := |Flatten(calls[0].mb)| - 16;
    var d := ReadStep(uuid, FRESH, calls[0].filtering, calls[0].mb);
    DirectFirst(uuid, bs, calls, later, d, x);
    DirectAfter(uuid, bs, x, d, calls[1..], later);
  }

  /** The calls after the first one. */
  lemma {:induction false} DirectAfter(uuid: seq<byte>, bs: seq<Block>, x: int, first: Delivered, calls: seq<Read>, later: seq<byte>)
    requires AllFit(bs) && Terminated(bs) && Last(bs).command == DIRECT && 0 <= x <= |EncodeAll(bs)|
    requires Synced(bs, [], x, first.link) && first.link.parser == ParserAt(EncodeAll(bs), x)
    requires first.out == Parse(AtBlock(CONTINUE), EncodeAll(bs)[..x]).out
    requires Data(calls) + later == EncodeAll(bs)[x..] && CleanReads(uuid, |EncodeAll(bs)|, x, calls)
    ensures
      var d := ReadAll(uuid, first.link, calls);
      && (d.link.direct <==> later == [] || StopsBlind(bs, x, calls))
      && (!StopsBlind(bs, x, calls) ==>
            && first.out + d.out <= Contents(bs)
            && (later == [] ==> first.out + d.out == Contents(bs)))
  {
    DirectRest(bs, x, Data(calls), later);
    RestOfDirectStream(uuid, bs, x, first.link, calls);
  }

  lemma {:induction false} DirectFirst(uuid: seq<byte>, bs: seq<Block>, calls: seq<Read>, later: seq<byte>, d: Delivered, x: int)
    requires |uuid| == 16 && AllFit(bs) && Terminated(bs) && Last(bs).command == DIRECT
    requires Data(calls) + later == uuid + EncodeAll(bs)
    requires calls != [] && calls[0].mb != [] && |calls[0].mb[0]| >= 21
    requires CleanBuffers(uuid, |EncodeAll(bs)|, |calls[0].mb[0]| - 16, calls[0].mb[1..])
    requires d == ReadStep(uuid, FRESH, calls[0].filtering, calls[0].mb) && x == |Flatten(calls[0].mb)| - 16
    ensures 5 <= x <= |EncodeAll(bs)| && Synced(bs, [], x, d.link)
    ensures d.link.parser == ParserAt(EncodeAll(bs), x)
    ensures d.out == Parse(AtBlock(CONTINUE), EncodeAll(bs)[..x]).out
    ensures Data(calls[1..]) + later == EncodeAll(bs)[x..]
  {
    assert EncodeAll(bs) + [] == EncodeAll(bs);
    Assoc(Flatten(calls[0].mb), Data(calls[1..]), later);
    Assoc(uuid, EncodeAll(bs), []);
    FirstRead(uuid, bs, [], calls[0], Data(calls[1..]) + later);
  }

  lemma {:induction false} DirectRest(bs: seq<Block>, x: int, rest: seq<byte>, later: seq<byte>)
    requires AllFit(bs) && Terminated(bs) && 0 <= x <= |EncodeAll(bs)|
    requires rest + later == EncodeAll(bs)[x..]
    ensures rest <= EncodeAll(bs)[x..]
    ensures x + |rest| == |EncodeAll(bs)| <==> later == []
    ensures
      var data, p := EncodeAll(bs), AtBlock(CONTINUE);
      var out := Parse(p, data[..x]).out + Parse(ParserAt(data, x), rest).out;
      out <= Contents(bs) && (later == [] ==> out == Contents(bs))
  {
    DirectOutput(bs, x, rest, later);
  }

  lemma {:induction false} DirectOutput(bs: seq<Block>, x: int, rest: seq<byte>, later: seq<byte>)
    requires AllFit(bs) && Terminated(bs) && 0 <= x <= |EncodeAll(bs)|
    requires rest + later == EncodeAll(bs)[x..]
    ensures
      var data, p := EncodeAll(bs), AtBlock(CONTINUE);
      var out := Parse(p, data[..x]).out + Parse(ParserAt(data, x), rest).out;
      out <= Contents(bs) && (later == [] ==> out == Contents(bs))
  {
    var data, p := EncodeAll(bs), AtBlock(CONTINUE);
    var y := x + |rest|;
    SplitAt(data, x, rest, later);
    assert data[..y] == data[..x] + rest;
    ParseSplit(p, data[..x], rest);
    assert data + [] == data && Contents(bs) + [] == Contents(bs);
    WholeStream(bs, [], y);
    assert later == [] ==> data[y..] == [];
  }
}
