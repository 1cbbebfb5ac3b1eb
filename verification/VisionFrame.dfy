/**
  The Vision wire format and its parser, one byte at a time.

  A framed stream is the 16-byte user UUID followed by blocks
  `[command, length16, padding16][content][padding]`. Commands are 0 (Continue) up to
  the block that ends framing (1, End, or 2, Direct); what follows it is raw.
 */
module VisionFrame {
  import opened Bytes
  import opened Collections

  const CONTINUE: byte := 0
  const END: byte := 1
  const DIRECT: byte := 2

  datatype Block = Block(command: byte, content: seq<byte>, padding: seq<byte>)

  predicate Fits(b: Block) {
    |b.content| < 65536 && |b.padding| < 65536
  }

  predicate AllFit(bs: seq<Block>) {
    bs == [] || (Fits(bs[0]) && AllFit(bs[1..]))
  }

  function Header(b: Block): (s: seq<byte>)
    requires Fits(b)
    ensures |s| == 5
  {
    [b.command, High(|b.content|), Low(|b.content|), High(|b.padding|), Low(|b.padding|)]
  }

  function Encode(b: Block): (s: seq<byte>)
    requires Fits(b)
  {
    Header(b) + b.content + b.padding
  }

  function EncodeAll(bs: seq<Block>): (s: seq<byte>)
    requires AllFit(bs)
  {
    if bs == [] then [] else Encode(bs[0]) + EncodeAll(bs[1..])
  }

  function Contents(bs: seq<Block>): (s: seq<byte>) {
    if bs == [] then [] else bs[0].content + Contents(bs[1..])
  }

  /** Every block so far says that another one follows. */
  predicate Open(bs: seq<Block>) {
    bs == [] || (bs[0].command == CONTINUE && Open(bs[1..]))
  }

  /** Continue blocks and then exactly one block that ends framing. */
  predicate Terminated(bs: seq<Block>) {
    && bs != []
    && if |bs| == 1 then bs[0].command != CONTINUE
       else bs[0].command == CONTINUE && Terminated(bs[1..])
  }

  function Last(bs: seq<Block>): (b: Block)
    requires bs != []
  {
    bs[|bs| - 1]
  }

  lemma {:induction false} EncodeAllAppend(a: seq<Block>, b: seq<Block>)
    requires AllFit(a) && AllFit(b)
    ensures AllFit(a + b)
    ensures EncodeAll(a + b) == EncodeAll(a) + EncodeAll(b)
  {
    if a == [] {
      assert a + b == b;
    } else {
      EncodeAllAppend(a[1..], b);
      Assoc(Encode(a[0]), EncodeAll(a[1..]), EncodeAll(b));
      assert (a + b)[1..] == a[1..] + b;
    }
  }

  lemma {:induction false} ContentsAppend(a: seq<Block>, b: seq<Block>)
    ensures Contents(a + b) == Contents(a) + Contents(b)
  {
    if a == [] {
      assert a + b == b;
    } else {
      ContentsAppend(a[1..], b);
      Assoc(a[0].content, Contents(a[1..]), Contents(b));
      assert (a + b)[1..] == a[1..] + b;
    }
  }

  lemma {:induction false} OpenAppend(a: seq<Block>, b: seq<Block>)
    requires Open(a)
    ensures Open(b) ==> Open(a + b)
    ensures Terminated(b) ==> Terminated(a + b) && Last(a + b) == Last(b)
  {
    if a == [] {
      assert a + b == b;
    } else {
      OpenAppend(a[1..], b);
      assert (a + b)[1..] == a[1..] + b;
    }
  }

  /** A terminated list is Continue blocks and a last one. */
  lemma {:induction false} Unsnoc(bs: seq<Block>)
    requires AllFit(bs) && Terminated(bs)
    ensures
      var init := bs[..|bs| - 1];
      && AllFit(init) && Open(init) && Fits(Last(bs)) && Last(bs).command != CONTINUE
      && EncodeAll(bs) == EncodeAll(init) + Encode(Last(bs))
  {
    var init := bs[..|bs| - 1];
    if |bs| == 1 {
      assert EncodeAll(bs[1..]) == [];
    } else {
      Unsnoc(bs[1..]);
      assert init[0] == bs[0] && init[1..] == bs[1..][..|bs| - 2];
    }
  }

  /**
    The part of a link's state that XtlsUnpadding keeps between buffers:
    RemainingCommand, RemainingContent, RemainingPadding and CurrentCommand.
   */
  datatype Parser = Parser(command: int, content: int, padding: int, current: byte) {

    /** Before the first block, and again after the one that ended framing. */
    predicate Initial() {
      command == -1 && content == -1 && padding == -1
    }

    predicate InHeader() {
      && 1 <= command <= 5
      && (command >= 4 ==> -1 <= content <= 0)
      && (command <= 3 ==> 0 <= content < 65536)
      && (command == 3 ==> content % 256 == 0)
      && (command >= 2 ==> -1 <= padding <= 0)
      && (command == 1 ==> 0 <= padding < 65536 && padding % 256 == 0)
    }

    predicate InBody() {
      command == 0 && content >= 0 && padding >= 0 && content + padding > 0
    }

    predicate InBlock() {
      InHeader() || InBody()
    }

    predicate Valid() {
      Initial() || InBlock()
    }
  }

  /** Where parsing of a block starts; `current` is overwritten by its first byte. */
  function AtBlock(current: byte): (p: Parser) {
    Parser(5, -1, -1, current)
  }

  function AfterLast(current: byte): (p: Parser) {
    Parser(-1, -1, -1, current)
  }

  /** core/proxy/proxy.go:599-610: what happens once a block is used up. */
  function Settle(p: Parser): (q: Parser) {
    if p.command <= 0 && p.content <= 0 && p.padding <= 0 then
      if p.current == CONTINUE then p.(command := 5) else AfterLast(p.current)
    else
      p
  }

  function HeaderByte(p: Parser, b: byte): (q: Parser)
    requires p.InHeader()
  {
    var q := match p.command
      case 5 => p.(current := b)
      case 4 => p.(content := U16(b, 0))
      case 3 => p.(content := p.content + b)
      case 2 => p.(padding := U16(b, 0))
      case _ => p.(padding := p.padding + b);
    q.(command := p.command - 1)
  }

  /** The parser after one byte of a block. */
  function Next(p: Parser, b: byte): (q: Parser)
    requires p.InBlock()
    ensures q.Valid()
  {
    if p.command > 0 then Settle(HeaderByte(p, b))
    else if p.content > 0 then Settle(p.(content := p.content - 1))
    else Settle(p.(padding := p.padding - 1))
  }

  /** What that byte contributes to the output. */
  function Emit(p: Parser, b: byte): (s: seq<byte>) {
    if p.command <= 0 && p.content > 0 then [b] else []
  }

  datatype Parsed = Parsed(parser: Parser, out: seq<byte>)

  /** The reference parser: byte after byte, everything after the last block is raw. */
  function Parse(p: Parser, data: seq<byte>): (r: Parsed)
    requires p.Valid()
    ensures r.parser.Valid()
    ensures |r.out| <= |data|
    decreases |data|
  {
    if data == [] || p.Initial() then Parsed(p, data)
    else
      var rest := Parse(Next(p, data[0]), data[1..]);
      Parsed(rest.parser, Emit(p, data[0]) + rest.out)
  }

  /** Cutting the data anywhere changes nothing. */
  lemma {:induction false} ParseSplit(p: Parser, a: seq<byte>, b: seq<byte>)
    requires p.Valid()
    ensures
      var first := Parse(p, a);
      var second := Parse(first.parser, b);
      Parse(p, a + b) == Parsed(second.parser, first.out + second.out)
    decreases |a|
  {
    if a == [] {
      assert a + b == b;
      assert [] + Parse(p, b).out == Parse(p, b).out;
    } else if p.Initial() {
      assert Parse(p, a + b) == Parsed(p, a + b);
    } else {
      assert (a + b)[0] == a[0];
      assert (a + b)[1..] == a[1..] + b;
      var q := Next(p, a[0]);
      ParseSplit(q, a[1..], b);
      var first := Parse(q, a[1..]);
      var second := Parse(first.parser, b);
      assert Parse(p, a) == Parsed(first.parser, Emit(p, a[0]) + first.out);
      assert Emit(p, a[0]) + first.out + second.out == Emit(p, a[0]) + (first.out + second.out);
    }
  }

  /** The header, byte by byte. */
  lemma {:induction false} ParseHeader(p: Parser, h: seq<byte>)
    requires p.InHeader() && p.command == 5 && |h| == 5
    ensures Parse(p, h) == Parsed(Settle(Parser(0, U16(h[1], h[2]), U16(h[3], h[4]), h[0])), [])
  {
    var p3 := Parser(2, U16(h[1], h[2]), p.padding, h[0]);
    assert h == [h[0], h[1], h[2]] + [h[3], h[4]];
    ParseCommandAndLength(p, h[0], h[1], h[2]);
    ParsePaddingLength(p3, h[3], h[4]);
    ParseSplit(p, [h[0], h[1], h[2]], [h[3], h[4]]);
  }

  lemma {:induction false} ParseCommandAndLength(p: Parser, c: byte, hi: byte, lo: byte)
    requires p.InHeader() && p.command == 5
    ensures Parse(p, [c, hi, lo]) == Parsed(Parser(2, U16(hi, lo), p.padding, c), [])
  {
    var p1 := p.(command := 4, current := c);
    var p2 := p1.(command := 3, content := U16(hi, 0));
    assert [c, hi, lo] == [c] + ([hi] + ([lo] + []));
    ParseTwo(p2, lo, []);
    ParseTwo(p1, hi, [lo] + []);
    ParseTwo(p, c, [hi] + ([lo] + []));
  }

  lemma {:induction false} ParsePaddingLength(p: Parser, hi: byte, lo: byte)
    requires p.InHeader() && p.command == 2
    ensures Parse(p, [hi, lo]) == Parsed(Settle(p.(command := 0, padding := U16(hi, lo))), [])
  {
    var p1 := p.(command := 1, padding := U16(hi, 0));
    assert [hi, lo] == [hi] + ([lo] + []);
    ParseTwo(p1, lo, []);
    ParseTwo(p, hi, [lo] + []);
  }

  /** One unfolding of Parse inside a header. */
  lemma {:induction false} ParseTwo(p: Parser, b: byte, rest: seq<byte>)
    requires p.InHeader()
    ensures Parse(p, [b] + rest) == Parse(Next(p, b), rest)
  {
    assert ([b] + rest)[0] == b && ([b] + rest)[1..] == rest;
    assert [] + Parse(Next(p, b), rest).out == Parse(Next(p, b), rest).out;
  }

  /** A run of content bytes comes out as it is (the ReadBytes step of the loop). */
  lemma {:induction false} ParseContent(p: Parser, data: seq<byte>)
    requires p.InBody() && 0 < |data| <= p.content
    ensures Parse(p, data) == Parsed(Settle(p.(content := p.content - |data|)), data)
    decreases |data|
  {
    var q := Next(p, data[0]);
    assert data == [data[0]] + data[1..];
    if |data| == 1 {
      assert Parse(q, []) == Parsed(q, []);
    } else {
      assert q == p.(content := p.content - 1);
      ParseContent(q, data[1..]);
    }
  }

  /** A run of padding bytes vanishes (the Advance step of the loop). */
  lemma {:induction false} ParsePadding(p: Parser, data: seq<byte>)
    requires p.InBody() && p.content == 0 && 0 < |data| <= p.padding
    ensures Parse(p, data) == Parsed(Settle(p.(padding := p.padding - |data|)), [])
    decreases |data|
  {
    var q := Next(p, data[0]);
    if |data| == 1 {
      assert Parse(q, []) == Parsed(q, []);
    } else {
      assert q == p.(padding := p.padding - 1);
      ParsePadding(q, data[1..]);
    }
  }

  lemma {:induction false} ParseAllContent(body: Parser, content: seq<byte>)
    requires body.command == 0 && body.content == |content| && body.padding >= 0
    ensures Settle(body).Valid()
    ensures content != [] || body.padding > 0 ==>
      Parse(Settle(body), content) == Parsed(Settle(body.(content := 0)), content)
  {
    if content != [] {
      ParseContent(body, content);
    }
  }

  lemma {:induction false} ParseAllPadding(body: Parser, padding: seq<byte>)
    requires body.command == 0 && body.content == 0 && body.padding == |padding|
    ensures Settle(body).Valid()
    ensures padding != [] ==> Parse(Settle(body), padding) == Parsed(Settle(body.(padding := 0)), [])
  {
    if padding != [] {
      ParsePadding(body, padding);
    }
  }

  lemma {:induction false} ParseHeaderOf(p: Parser, b: Block)
    requires p.InHeader() && p.command == 5 && Fits(b)
    ensures Parse(p, Header(b)) == Parsed(Settle(Parser(0, |b.content|, |b.padding|, b.command)), [])
  {
    U16OfHalves(|b.content|);
    U16OfHalves(|b.padding|);
    ParseHeader(p, Header(b));
  }

  lemma {:induction false} ParseHeaderAndContent(p: Parser, b: Block)
    requires p.InHeader() && p.command == 5 && Fits(b)
    ensures Parse(p, Header(b) + b.content)
         == Parsed(Settle(Parser(0, 0, |b.padding|, b.command)), b.content)
  {
    var h := Header(b);
    var body := Parser(0, |b.content|, |b.padding|, b.command);
    ParseHeaderOf(p, b);
    if b.content == [] {
      assert h + b.content == h;
    } else {
      ParseSplit(p, h, b.content);
      ParseAllContent(body, b.content);
      assert [] + b.content == b.content;
    }
  }

  /** The parser reads back one block. */
  lemma {:induction false} ParseBlock(p: Parser, b: Block)
    requires p.InHeader() && p.command == 5 && Fits(b)
    ensures Parse(p, Encode(b)) == Parsed(Settle(Parser(0, 0, 0, b.command)), b.content)
  {
    var front := Header(b) + b.content;
    var body := Parser(0, 0, |b.padding|, b.command);
    ParseHeaderAndContent(p, b);
    if b.padding == [] {
      assert Encode(b) == front;
    } else {
      ParseSplit(p, front, b.padding);
      ParseAllPadding(body, b.padding);
      assert b.content + [] == b.content;
    }
  }

  /** Continue blocks leave the parser at the next header, having produced their contents. */
  lemma {:induction false} ParseOpen(p: Parser, bs: seq<Block>)
    requires p.InHeader() && p.command == 5 && AllFit(bs) && Open(bs)
    ensures
      var r := Parse(p, EncodeAll(bs));
      r.parser.InHeader() && r.parser.command == 5 && r.out == Contents(bs)
    decreases |bs|
  {
    if bs != [] {
      var q := Settle(Parser(0, 0, 0, CONTINUE));
      ParseBlock(p, bs[0]);
      ParseSplit(p, Encode(bs[0]), EncodeAll(bs[1..]));
      ParseOpen(q, bs[1..]);
    }
  }

  /**
    Round trip: the parser turns the encoding of a terminated block list followed by
    a raw tail into the contents followed by that tail, and is back in its initial state.
   */
  lemma {:induction false} ParseTerminated(p: Parser, bs: seq<Block>, tail: seq<byte>)
    requires p.InHeader() && p.command == 5 && AllFit(bs) && Terminated(bs)
    ensures Parse(p, EncodeAll(bs) + tail) == Parsed(AfterLast(Last(bs).command), Contents(bs) + tail)
    decreases |bs|
  {
    var rest := EncodeAll(bs[1..]) + tail;
    Assoc(Encode(bs[0]), EncodeAll(bs[1..]), tail);
    Assoc(bs[0].content, Contents(bs[1..]), tail);
    ParseBlock(p, bs[0]);
    ParseSplit(p, Encode(bs[0]), rest);
    if |bs| == 1 {
      assert bs[1..] == [];
      OnlyTail(tail);
    } else {
      ParseTerminated(Settle(Parser(0, 0, 0, CONTINUE)), bs[1..], tail);
    }
  }

  lemma {:induction false} OnlyTail(tail: seq<byte>)
    ensures EncodeAll([]) + tail == tail && Contents([]) + tail == tail
  {
  }
}
