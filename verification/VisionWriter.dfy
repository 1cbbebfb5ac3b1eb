/**
  The sending side of Vision: reshaping buffers, padding them into blocks, and the
  decisions of VisionWriter.WriteMultiBuffer, over one call and over whole runs.
 */
module VisionWriter {
  import opened Bytes
  import opened Collections
  import opened VisionFrame
  import opened VisionTls

  // ---------------------------------------------------------------- reshaping

  /** bytes.LastIndex of the application_data prefix, -1 when it does not occur. */
  function LastRecordStart(b: seq<byte>, n: int): (i: int)
    requires 0 <= n <= |b|
    ensures -1 <= i <= n
    ensures i >= 0 ==> OccursAt(b, APPLICATION_DATA, i)
    ensures forall j | i < j <= n :: 0 <= j && !OccursAt(b, APPLICATION_DATA, j)
    decreases n
  {
    if OccursAt(b, APPLICATION_DATA, n) then n
    else if n == 0 then -1
    else LastRecordStart(b, n - 1)
  }

  function SplitPoint(b: seq<byte>): (i: int)
    ensures 21 <= i <= SIZE - 21
  {
    var i := LastRecordStart(b, |b|);
    if i < 21 || i > SIZE - 21 then SIZE / 2 else i
  }

  function Pieces(b: seq<byte>): (r: seq<seq<byte>>) {
    if |b| >= SIZE - 21 then [b[..SplitPoint(b)], b[SplitPoint(b)..]] else [b]
  }

  /** 17 03 03 stands here. */
  predicate RecordAt(b: seq<byte>, i: int) {
    0 <= i && i + 3 <= |b| && b[i] == 0x17 && b[i + 1] == 0x03 && b[i + 2] == 0x03
  }

  lemma {:induction false} OccursIffRecordAt(b: seq<byte>, i: int)
    requires 0 <= i <= |b|
    ensures OccursAt(b, APPLICATION_DATA, i) <==> RecordAt(b, i)
  {
    if i + 3 <= |b| {
      assert b[i..][..3] == [b[i], b[i + 1], b[i + 2]];
    }
  }

  /**
    Only a buffer without room for UUID and header is cut, and it is cut where its last
    record starts, or in the middle if that is too near to an end.
   */
  lemma {:induction false} PiecesCut(b: seq<byte>, i: int)
    requires (i == -1 || RecordAt(b, i)) && forall j | i < j :: !RecordAt(b, j)
    ensures |b| < SIZE - 21 ==> Pieces(b) == [b]
    ensures |b| >= SIZE - 21 ==>
              var at := if 21 <= i <= SIZE - 21 then i else 4096;
              Pieces(b) == [b[..at], b[at..]]
  {
    var k := LastRecordStart(b, |b|);
    if k >= 0 {
      OccursIffRecordAt(b, k);
    }
    if i >= 0 {
      OccursIffRecordAt(b, i);
    }
  }

  function Reshaped(mb: seq<seq<byte>>): (r: seq<seq<byte>>) {
    if mb == [] then [] else Pieces(mb[0]) + Reshaped(mb[1..])
  }

  predicate Buffers(mb: seq<seq<byte>>, size: int) {
    mb == [] || (|mb[0]| <= size && Buffers(mb[1..], size))
  }

  lemma {:induction false} BuffersAppend(a: seq<seq<byte>>, b: seq<seq<byte>>, size: int)
    requires Buffers(a, size) && Buffers(b, size)
    ensures Buffers(a + b, size)
  {
    if a == [] {
      assert a + b == b;
    } else {
      BuffersAppend(a[1..], b, size);
      assert (a + b)[1..] == a[1..] + b;
    }
  }

  /** Reshaping moves no byte and leaves room for the UUID and a header in every buffer. */
  lemma {:induction false} ReshapedFits(mb: seq<seq<byte>>)
    requires Buffers(mb, SIZE)
    ensures Flatten(Reshaped(mb)) == Flatten(mb)
    ensures Buffers(Reshaped(mb), SIZE - 21)
    ensures Reshaped(mb) == [] <==> mb == []
  {
    if mb != [] {
      ReshapedFits(mb[1..]);
      PiecesFit(mb[0]);
      FlattenAppend(Pieces(mb[0]), Reshaped(mb[1..]));
      BuffersAppend(Pieces(mb[0]), Reshaped(mb[1..]), SIZE - 21);
    }
  }

  lemma {:induction false} PiecesFit(b: seq<byte>)
    requires |b| <= SIZE
    ensures Flatten(Pieces(b)) == b && Buffers(Pieces(b), SIZE - 21)
  {
    var r := Pieces(b);
    if |r| == 2 {
      assert Flatten(r[1..]) == r[1] && Buffers(r[1..], SIZE - 21);
    }
  }

  /** core/proxy/proxy.go:461-493 */
  method ReshapeMultiBuffer(mb: seq<seq<byte>>) returns (mb2: seq<seq<byte>>)
    requires Buffers(mb, SIZE)
    ensures mb2 == Reshaped(mb)
    ensures Flatten(mb2) == Flatten(mb) && Buffers(mb2, SIZE - 21)
  {
    ReshapedFits(mb);
    var needReshape := 0;
    for i := 0 to |mb|
      invariant needReshape >= 0
      invariant needReshape == 0 <==> forall j | 0 <= j < i :: |mb[j]| < SIZE - 21
    {
      if |mb[i]| >= SIZE - 21 {
        needReshape := needReshape + 1;
      }
    }
    if needReshape == 0 {
      ReshapedSame(mb);
      return mb;
    }
    mb2 := [];
    for i := 0 to |mb|
      invariant Reshaped(mb) == mb2 + Reshaped(mb[i..])
    {
      ghost var before := mb2;
      if |mb[i]| >= SIZE - 21 {
        var index := SplitPoint(mb[i]);
        mb2 := mb2 + [mb[i][..index], mb[i][index..]];
      } else {
        mb2 := mb2 + [mb[i]];
      }
      ReshapedStep(mb, i);
      Assoc(before, Pieces(mb[i]), Reshaped(mb[i + 1..]));
    }
    assert mb[|mb|..] == [];
  }

  lemma {:induction false} ReshapedStep(mb: seq<seq<byte>>, i: nat)
    requires i < |mb|
    ensures Reshaped(mb[i..]) == Pieces(mb[i]) + Reshaped(mb[i + 1..])
  {
    assert mb[i..][0] == mb[i] && mb[i..][1..] == mb[i + 1..];
  }

  lemma {:induction false} ReshapedSame(mb: seq<seq<byte>>)
    requires forall j | 0 <= j < |mb| :: |mb[j]| < SIZE - 21
    ensures Reshaped(mb) == mb
  {
    if mb != [] {
      ReshapedSame(mb[1..]);
      assert mb == [mb[0]] + mb[1..];
    }
  }

  // ---------------------------------------------------------------- padding

  type uint32 = x: int | 0 <= x < 0x1_0000_0000

  /** testseed: threshold and range of long padding, its base, range of short padding. */
  datatype Seed = Seed(threshold: uint32, longRange: uint32, base: uint32, shortRange: uint32)

  const DEFAULT_SEED := Seed(900, 500, 900, 256)

  /** core/proxy/proxy.go:307-309: a list that is too short is replaced by the default one. */
  function SeedOf(testseed: seq<uint32>): (seed: Seed)
    ensures |testseed| >= 4 ==> [seed.threshold, seed.longRange, seed.base, seed.shortRange] == testseed[..4]
    ensures |testseed| < 4 ==> seed == Seed(900, 500, 900, 256)
  {
    if |testseed| < 4 then DEFAULT_SEED else Seed(testseed[0], testseed[1], testseed[2], testseed[3])
  }

  const HALF: int := 0x8000_0000

  /** The int32 of a number that is at most one turn out of range. */
  function Int32(x: int): (y: int)
    ensures -0x1_8000_0000 <= x < 0x1_8000_0000 ==> -0x8000_0000 <= y < 0x8000_0000 && (y - x) % 0x1_0000_0000 == 0
  {
    if x >= HALF then x - 0x1_0000_0000 else if x < -HALF then x + 0x1_0000_0000 else x
  }

  /** rand.Int needs a positive range; that of long padding is used only below a positive threshold. */
  predicate Drawable(seed: Seed) {
    seed.shortRange > 0 && (Int32(seed.threshold) > 0 ==> seed.longRange > 0)
  }

  /** The range that the random source is asked for. */
  function DrawRange(seed: Seed, n: nat, long: bool): (r: int) {
    if n < Int32(seed.threshold) && long then seed.longRange else seed.shortRange
  }

  /** Exactly then no draw is ever asked for from an empty range. */
  lemma {:induction false} DrawableIff(seed: Seed)
    ensures Drawable(seed) <==> forall n: nat, long: bool | n <= SIZE - 21 :: DrawRange(seed, n, long) > 0
  {
    if !Drawable(seed) {
      assert DrawRange(seed, 0, seed.shortRange > 0) <= 0;
    }
  }

  /**
    The padding length for a content of n bytes; `noise` is whatever the random
    source returned, reduced to the range it was asked for. All arithmetic is that of
    int32.
   */
  function PaddingLen(seed: Seed, n: nat, long: bool, noise: nat): (p: int)
    requires Drawable(seed)
  {
    var draw := Int32(noise % DrawRange(seed, n, long));
    var p: int := if n < Int32(seed.threshold) && long then Int32(draw + Int32(seed.base) - n) else draw;
    if p > SIZE - 21 - n then SIZE - 21 - n else p
  }

  /**
    Short padding stays within int32; and long padding, if it is ever used, is measured
    from a base that no short content exceeds and stays within int32.
   */
  predicate Safe(seed: Seed) {
    && Drawable(seed) && seed.shortRange <= HALF
    && (Int32(seed.threshold) <= 0 || LongSafe(Int32(seed.threshold), seed.longRange, Int32(seed.base)))
  }

  predicate LongSafe(threshold: int, range: int, base: int) {
    0 <= base && range + base <= HALF && (threshold <= base + 1 || SIZE - 21 <= base)
  }

  /** A seed never asks for a negative padding length if and only if it is safe. */
  lemma {:induction false} PaddingNeverNegative(seed: Seed)
    requires Drawable(seed)
    ensures Safe(seed) <==>
      forall n: nat, long: bool, noise: nat | n <= SIZE - 21 :: PaddingLen(seed, n, long, noise) >= 0
    ensures Safe(DEFAULT_SEED)
  {
    if Safe(seed) {
      forall n: nat, long: bool, noise: nat | n <= SIZE - 21 ensures PaddingLen(seed, n, long, noise) >= 0 {
        PaddingInRange(seed, n, long, noise);
      }
    } else {
      var n, long, noise := UnsafeDraw(seed);
      assert PaddingLen(seed, n, long, noise) < 0;
    }
  }

  /** A content and a draw that an unsafe seed answers with a negative length. */
  lemma {:induction false} UnsafeDraw(seed: Seed) returns (n: nat, long: bool, noise: nat)
    requires Drawable(seed) && !Safe(seed)
    ensures n <= SIZE - 21 && PaddingLen(seed, n, long, noise) < 0
  {
    var base := Int32(seed.base);
    if seed.shortRange > HALF {
      n, long, noise := 0, false, HALF;
      Below(HALF, seed.shortRange);
    } else if base < 0 {
      n, long, noise := 0, true, 0;
      Below(0, seed.longRange);
    } else if seed.longRange + base > HALF {
      n, long, noise := 0, true, HALF - base;
      Below(HALF - base, seed.longRange);
    } else {
      n, long, noise := base + 1, true, 0;
      Below(0, seed.longRange);
    }
  }

  lemma {:induction false} Below(x: int, m: int)
    requires 0 <= x < m
    ensures x % m == x
  {
  }

  /** A seed whose base is too low for its threshold, and a content for which it asks for a negative length. */
  lemma {:induction false} NegativePadding()
    ensures
      var seed := Seed(900, 500, 100, 256);
      Drawable(seed) && PaddingLen(seed, 500, true, 0) == -400
  {
  }

  /** Ranges beyond int32: a short and a long draw that wrap around. */
  lemma {:induction false} WrappedPadding()
    ensures
      var short, long := Seed(900, 500, 900, 0xFFFF_FFFF), Seed(900, 4_000_000_000, 900, 256);
      && Drawable(short) && PaddingLen(short, 1000, true, HALF) == -HALF
      && Drawable(long) && PaddingLen(long, 0, true, HALF - 900) == -HALF
  {
    Below(HALF, 0xFFFF_FFFF);
    Below(HALF - 900, 4_000_000_000);
  }

  lemma {:induction false} PaddingInRange(seed: Seed, n: nat, long: bool, noise: nat)
    requires Safe(seed) && n <= SIZE - 21
    ensures 0 <= PaddingLen(seed, n, long, noise) <= SIZE - 21 - n
  {
  }

  /**
    Long padding brings a short content into the range that the seed asks for, short
    padding stays below its own range, and both leave room for UUID and header.
   */
  lemma {:induction false} PaddingTotals(seed: Seed, n: nat, long: bool, noise: nat)
    requires Safe(seed) && n <= SIZE - 21
    ensures
      var total := n + PaddingLen(seed, n, long, noise);
      && n <= total <= SIZE - 21
      && (long && n < Int32(seed.threshold) ==> total < seed.base + seed.longRange && (seed.base <= total || total == SIZE - 21))
      && (!long || n >= Int32(seed.threshold) ==> total < n + seed.shortRange)
  {
  }

  function Zeros(n: nat): (s: seq<byte>)
    ensures |s| == n
  {
    seq(n, _ => 0)
  }

  /** The block that XtlsPadding makes of a content. */
  function Padded(seed: Seed, content: seq<byte>, command: byte, long: bool, noise: nat): (b: Block)
    requires Safe(seed) && |content| <= SIZE - 21
    ensures Fits(b) && b.content == content && b.command == command
    ensures 21 + |b.content| + |b.padding| <= SIZE
  {
    PaddingInRange(seed, |content|, long, noise);
    Block(command, content, Zeros(PaddingLen(seed, |content|, long, noise)))
  }

  /** buf.Buffer.Write: what does not fit is dropped. */
  function BufferWrite(b: seq<byte>, data: seq<byte>): (c: seq<byte>)
    requires |b| <= SIZE
    ensures |c| <= SIZE
  {
    b + (if |data| <= SIZE - |b| then data else data[..SIZE - |b|])
  }

  lemma {:induction false} WriteFits(b: seq<byte>, data: seq<byte>)
    requires |b| + |data| <= SIZE
    ensures BufferWrite(b, data) == b + data && [] + data == data
  {
  }

  /**
    core/proxy/proxy.go:496-532; a nil buffer is an empty content, and the caller's
    UUID is cleared once it has been written.
   */
  method XtlsPadding(content: seq<byte>, command: byte, userUUID: seq<byte>, long: bool, seed: Seed, noise: nat)
    returns (newbuffer: seq<byte>, userUUID': seq<byte>)
    requires Safe(seed) && |content| <= SIZE - 21 && |userUUID| <= 16
    ensures newbuffer == userUUID + Encode(Padded(seed, content, command, long, noise))
    ensures |newbuffer| <= SIZE && userUUID' == []
  {
    var contentLen := |content|;
    var paddingLen := PaddingLen(seed, contentLen, long, noise);
    PaddingInRange(seed, contentLen, long, noise);
    ghost var b := Padded(seed, content, command, long, noise);
    var header: seq<byte> := [command, Low(contentLen / 256), Low(contentLen), Low(paddingLen / 256), Low(paddingLen)];
    HeaderBytes(b, contentLen, paddingLen);
    newbuffer := WriteAll(userUUID, header, content);
    userUUID' := [];
    newbuffer := newbuffer + Zeros(paddingLen);
    Assoc(userUUID, header + content, Zeros(paddingLen));
  }

  /** The three writes of lines 520-525, which together fit the buffer. */
  method WriteAll(userUUID: seq<byte>, header: seq<byte>, content: seq<byte>) returns (newbuffer: seq<byte>)
    requires |userUUID| + |header| + |content| <= SIZE
    ensures newbuffer == userUUID + (header + content)
  {
    WriteFits([], userUUID);
    newbuffer := BufferWrite([], userUUID);
    WriteFits(userUUID, header);
    newbuffer := BufferWrite(newbuffer, header);
    WriteFits(userUUID + header, content);
    newbuffer := BufferWrite(newbuffer, content);
    Assoc(userUUID, header, content);
  }

  /** Both lengths survive the 16-bit header. */
  lemma {:induction false} HeaderBytes(b: Block, contentLen: int, paddingLen: int)
    requires Fits(b) && contentLen == |b.content| && paddingLen == |b.padding|
    ensures [b.command, Low(contentLen / 256), Low(contentLen), Low(paddingLen / 256), Low(paddingLen)] == Header(b)
  {
    LowOfHigh(contentLen);
    LowOfHigh(paddingLen);
  }

  lemma {:induction false} LowOfHigh(n: int)
    requires 0 <= n < 65536
    ensures Low(n / 256) == High(n)
  {
  }

  // ---------------------------------------------------------------- one call

  /** What one WriteMultiBuffer call turned its buffers into. */
  datatype Emitted = Emitted(blocks: seq<Block>, tail: seq<byte>, padding: bool, armed: bool)

  function Prepend(b: Block, e: Emitted): (f: Emitted) {
    e.(blocks := [b] + e.blocks)
  }

  /** core/proxy/proxy.go:364: this buffer starts with an application_data record of a complete batch. */
  predicate EndsHere(s: Sniffer, complete: bool, b: seq<byte>) {
    s.tls && |b| >= 6 && b[..3] == APPLICATION_DATA && complete
  }

  /** core/proxy/proxy.go:379: not TLS 1.2 or later, and the filter is about to give up. */
  predicate GivesUp(s: Sniffer) {
    !s.tls12 && s.packets <= 1
  }

  function LastCommand(s: Sniffer): (c: byte) {
    if s.enableXtls then DIRECT else END
  }

  /** What the loop of lines 363-392 looks at besides the buffers. */
  datatype Batch = Batch(seed: Seed, sniffer: Sniffer, complete: bool, noise: int -> nat)

  /** The loop's variables: IsPadding, WriterDirectCopy and longPadding. */
  datatype Mode = Mode(padding: bool, armed: bool, long: bool)

  /** What one iteration decides: the block's command and padding kind, and the new variables. */
  datatype Choice = Choice(command: byte, long: bool, next: Mode, stop: bool)

  function Choose(s: Sniffer, complete: bool, b: seq<byte>, last: bool, k: Mode): (c: Choice) {
    if EndsHere(s, complete, b) then
      Choice(if last then LastCommand(s) else CONTINUE, true, Mode(false, k.armed || s.enableXtls, false), false)
    else if GivesUp(s) then
      Choice(END, k.long, k.(padding := false), true)
    else
      Choice(if last && !k.padding then LastCommand(s) else CONTINUE, k.long, k, false)
  }

  /** That loop, from the i-th reshaped buffer on (`mb` holds it and the later ones). */
  function PadFrom(c: Batch, mb: seq<seq<byte>>, i: int, k: Mode): (e: Emitted)
    requires Safe(c.seed) && Buffers(mb, SIZE - 21)
    decreases |mb|
  {
    if mb == [] then Emitted([], [], k.padding, k.armed)
    else
      var d := Choose(c.sniffer, c.complete, mb[0], |mb| == 1, k);
      Prepend(Padded(c.seed, mb[0], d.command, d.long, c.noise(i)),
              if d.stop then Emitted([], Flatten(mb[1..]), d.next.padding, d.next.armed)
              else PadFrom(c, mb[1..], i + 1, d.next))
  }

  predicate AllBounded(bs: seq<Block>) {
    bs == [] || (21 + |bs[0].content| + |bs[0].padding| <= SIZE && AllBounded(bs[1..]))
  }

  lemma {:induction false} AllBoundedAppend(a: seq<Block>, b: seq<Block>)
    requires AllBounded(a) && AllBounded(b)
    ensures AllBounded(a + b)
  {
    if a == [] {
      assert a + b == b;
    } else {
      AllBoundedAppend(a[1..], b);
      assert (a + b)[1..] == a[1..] + b;
    }
  }

  lemma {:induction false} BoundedFit(bs: seq<Block>)
    requires AllBounded(bs)
    ensures AllFit(bs)
  {
    if bs != [] {
      BoundedFit(bs[1..]);
    }
  }

  /** No byte is lost, reordered or duplicated by padding. */
  lemma {:induction false} PadFromConserves(c: Batch, mb: seq<seq<byte>>, i: int, k: Mode)
    requires Safe(c.seed) && Buffers(mb, SIZE - 21)
    ensures
      var e := PadFrom(c, mb, i, k);
      AllBounded(e.blocks) && Contents(e.blocks) + e.tail == Flatten(mb)
    decreases |mb|
  {
    if mb != [] {
      var d := Choose(c.sniffer, c.complete, mb[0], |mb| == 1, k);
      if !d.stop {
        PadFromConserves(c, mb[1..], i + 1, d.next);
        var e := PadFrom(c, mb[1..], i + 1, d.next);
        Assoc(mb[0], Contents(e.blocks), e.tail);
      }
    }
  }

  ghost predicate Ending(s: Sniffer, e: Emitted) {
    && Terminated(e.blocks) && !e.padding && e.armed == s.enableXtls
    && Last(e.blocks).command == LastCommand(s)
    && (s.enableXtls ==> e.tail == [])
  }

  lemma {:induction false} PrependEnding(s: Sniffer, b: Block, e: Emitted)
    requires Ending(s, e) && b.command == CONTINUE
    ensures Ending(s, Prepend(b, e))
  {
    var bs := [b] + e.blocks;
    assert bs[1..] == e.blocks;
  }

  /** Once padding is to end in this call, exactly its last block says so. */
  lemma {:induction false} PadFromEnding(c: Batch, mb: seq<seq<byte>>, i: int, k: Mode)
    requires Safe(c.seed) && Buffers(mb, SIZE - 21) && mb != [] && Consistent(c.sniffer)
    requires !k.padding && k.armed == c.sniffer.enableXtls
    ensures Ending(c.sniffer, PadFrom(c, mb, i, k))
    decreases |mb|
  {
    var d := Choose(c.sniffer, c.complete, mb[0], |mb| == 1, k);
    if |mb| > 1 && !d.stop {
      PadFromEnding(c, mb[1..], i + 1, d.next);
      PrependEnding(c.sniffer, Padded(c.seed, mb[0], d.command, d.long, c.noise(i)), PadFrom(c, mb[1..], i + 1, d.next));
    }
  }

  /** The discipline of one call made while padding. */
  ghost predicate Disciplined(e: Emitted) {
    if e.padding then
      Open(e.blocks) && e.tail == [] && !e.armed
    else
      && Terminated(e.blocks)
      && var last := Last(e.blocks).command;
      && last in {END, DIRECT}
      && (e.armed <==> last == DIRECT)
      && (last == DIRECT ==> e.tail == [])
  }

  lemma {:induction false} PadFromDisciplined(c: Batch, mb: seq<seq<byte>>, i: int, k: Mode)
    requires Safe(c.seed) && Buffers(mb, SIZE - 21) && Consistent(c.sniffer)
    requires k.padding && !k.armed
    ensures Disciplined(PadFrom(c, mb, i, k))
    decreases |mb|
  {
    if mb != [] {
      var d := Choose(c.sniffer, c.complete, mb[0], |mb| == 1, k);
      if EndsHere(c.sniffer, c.complete, mb[0]) {
        PadFromEnding(c, mb, i, k.(padding := false, armed := c.sniffer.enableXtls));
      } else if !d.stop {
        PadFromDisciplined(c, mb[1..], i + 1, k);
      }
    }
  }

  // ---------------------------------------------------------------- what a call decides, from its bytes

  /** The bytes of the call are complete application_data records, end to end. */
  ghost predicate RecordBatch(mb: seq<seq<byte>>) {
    exists ps :: Payloads(ps) && RecordStream(ps) == Flatten(mb)
  }

  predicate StartsRecord(b: seq<byte>) {
    |b| >= 6 && b[0] == 0x17 && b[1] == 0x03 && b[2] == 0x03
  }

  lemma {:induction false} EndsHereIff(s: Sniffer, mb: seq<seq<byte>>, b: seq<byte>)
    ensures EndsHere(s, Records(Flatten(mb)), b) <==> s.tls && RecordBatch(mb) && StartsRecord(b)
  {
    CompleteIffRecordStream(Flatten(mb));
    if |b| >= 6 {
      assert b[..3] == [b[0], b[1], b[2]];
    }
  }

  ghost predicate AnyEnds(c: Batch, mb: seq<seq<byte>>) {
    exists j :: 0 <= j < |mb| && EndsHere(c.sniffer, c.complete, mb[j])
  }

  lemma {:induction false} AnyEndsNext(c: Batch, mb: seq<seq<byte>>)
    requires mb != []
    ensures AnyEnds(c, mb) <==> EndsHere(c.sniffer, c.complete, mb[0]) || AnyEnds(c, mb[1..])
  {
    if j :| 0 <= j < |mb| && EndsHere(c.sniffer, c.complete, mb[j]) {
      assert j > 0 ==> mb[1..][j - 1] == mb[j];
    }
    if j :| 0 <= j < |mb[1..]| && EndsHere(c.sniffer, c.complete, mb[1..][j]) {
      assert mb[j + 1] == mb[1..][j];
    }
  }

  lemma {:induction false} PadFromDecides(c: Batch, mb: seq<seq<byte>>, i: int, k: Mode)
    requires Safe(c.seed) && Buffers(mb, SIZE - 21)
    ensures PadFrom(c, mb, i, k).padding == (k.padding && !AnyEnds(c, mb) && !(mb != [] && GivesUp(c.sniffer)))
    ensures Consistent(c.sniffer) ==> PadFrom(c, mb, i, k).armed == (k.armed || (c.sniffer.enableXtls && AnyEnds(c, mb)))
    decreases |mb|
  {
    if mb != [] {
      AnyEndsNext(c, mb);
      var d := Choose(c.sniffer, c.complete, mb[0], |mb| == 1, k);
      if !d.stop {
        PadFromDecides(c, mb[1..], i + 1, d.next);
      }
    }
  }

  lemma {:induction false} OpenLast(bs: seq<Block>)
    requires Open(bs) && bs != []
    ensures Last(bs).command == CONTINUE
  {
    if |bs| > 1 {
      OpenLast(bs[1..]);
    }
  }

  /** This buffer of the call gets long padding: it ends the padding, or the call is TLS and none before it did. */
  ghost predicate LongAt(c: Batch, mb: seq<seq<byte>>, long: bool, j: nat)
    requires j < |mb|
  {
    EndsHere(c.sniffer, c.complete, mb[j]) || (long && forall l | 0 <= l < j :: !EndsHere(c.sniffer, c.complete, mb[l]))
  }

  /** The blocks of a call: one for each buffer, up to the one at which the filter gives up, and the rest unpadded. */
  ghost predicate Blocks(c: Batch, mb: seq<seq<byte>>, i: int, long: bool, e: Emitted)
    requires Safe(c.seed) && Buffers(mb, SIZE - 21)
  {
    var n := |e.blocks|;
    && n <= |mb| && e.tail == Flatten(mb[n..])
    && (forall j | 0 <= j < n :: BlockAt(c, mb, i, long, j, e.blocks[j]))
    && (n < |mb| ==> n > 0 && GivesUp(c.sniffer))
    && (GivesUp(c.sniffer) ==>
          && (forall j | 0 <= j < n - 1 :: EndsHere(c.sniffer, c.complete, mb[j]))
          && (n < |mb| ==> !EndsHere(c.sniffer, c.complete, mb[n - 1])))
  }

  ghost predicate BlockAt(c: Batch, mb: seq<seq<byte>>, i: int, long: bool, j: nat, b: Block)
    requires Safe(c.seed) && Buffers(mb, SIZE - 21) && j < |mb|
  {
    && b.content == mb[j]
    && |b.padding| == PaddingLen(c.seed, |mb[j]|, LongAt(c, mb, long, j), c.noise(i + j))
    && forall l | 0 <= l < |b.padding| :: b.padding[l] == 0
  }

  lemma {:induction false} PadFromBlocks(c: Batch, mb: seq<seq<byte>>, i: int, k: Mode)
    requires Safe(c.seed) && Buffers(mb, SIZE - 21)
    ensures Blocks(c, mb, i, k.long, PadFrom(c, mb, i, k))
    decreases |mb|
  {
    if mb != [] {
      var d := Choose(c.sniffer, c.complete, mb[0], |mb| == 1, k);
      var e := PadFrom(c, mb, i, k);
      if d.stop {
        assert BlockAt(c, mb, i, k.long, 0, e.blocks[0]);
      } else {
        PadFromBlocks(c, mb[1..], i + 1, d.next);
        BlocksPrepend(c, mb, i, k.long, e, PadFrom(c, mb[1..], i + 1, d.next), d.next.long);
      }
    }
  }

  lemma {:induction false} BlocksPrepend(c: Batch, mb: seq<seq<byte>>, i: int, long: bool, e: Emitted, f: Emitted, next: bool)
    requires Safe(c.seed) && Buffers(mb, SIZE - 21) && mb != []
    requires next == (long && !EndsHere(c.sniffer, c.complete, mb[0]))
    requires GivesUp(c.sniffer) ==> EndsHere(c.sniffer, c.complete, mb[0])
    requires e.blocks != [] && e.blocks[1..] == f.blocks && e.tail == f.tail
    requires BlockAt(c, mb, i, long, 0, e.blocks[0])
    requires Blocks(c, mb[1..], i + 1, next, f)
    ensures Blocks(c, mb, i, long, e)
  {
    var rest := mb[1..];
    forall j | 0 < j < |e.blocks|
      ensures BlockAt(c, mb, i, long, j, e.blocks[j])
    {
      assert rest[j - 1] == mb[j] && f.blocks[j - 1] == e.blocks[j];
      assert BlockAt(c, rest, i + 1, next, j - 1, f.blocks[j - 1]);
      LongAtNext(c, mb, long, j);
    }
    assert rest[|f.blocks|..] == mb[|e.blocks|..];
    assert forall j | 0 < j < |mb| :: mb[j] == rest[j - 1];
  }

  lemma {:induction false} LongAtNext(c: Batch, mb: seq<seq<byte>>, long: bool, j: nat)
    requires 0 < j < |mb|
    ensures LongAt(c, mb, long, j) <==> LongAt(c, mb[1..], long && !EndsHere(c.sniffer, c.complete, mb[0]), j - 1)
  {
    var rest := mb[1..];
    assert forall l | 0 <= l < |rest| :: rest[l] == mb[l + 1];
    if long && forall l | 0 <= l < j - 1 :: !EndsHere(c.sniffer, c.complete, rest[l]) {
      forall l | 0 < l < j
        ensures !EndsHere(c.sniffer, c.complete, mb[l])
      {
        assert mb[l] == rest[l - 1];
      }
    }
  }

  // ---------------------------------------------------------------- runs

  /**
    What is handed to WriteMultiBuffer: the single nil buffer that hides the request
    header, or ordinary buffers.
   */
  datatype MultiBuffer = NilBuffer | Buffered(mb: seq<seq<byte>>)

  function Plain(m: MultiBuffer): (s: seq<byte>) {
    match m case NilBuffer => [] case Buffered(mb) => Flatten(mb)
  }

  predicate Sized(m: MultiBuffer) {
    m.Buffered? ==> Buffers(m.mb, SIZE)
  }

  /**
    A sender: IsPadding, WriterDirectCopy, whether the writer was already replaced by
    the raw connection, the shared sniffer; and all it has sent: blocks, then bytes on
    the framed connection, then bytes on the raw one.
   */
  datatype Sender = Sender(padding: bool, armed: bool, direct: bool, sniffer: Sniffer,
                           blocks: seq<Block>, tail: seq<byte>, raw: seq<byte>)

  const NEW_SENDER := Sender(true, false, false, NEW_SNIFFER, [], [], [])

  /** The bytes on the framed connection: the UUID goes out with the first block only. */
  function Framed(uuid: seq<byte>, w: Sender): (s: seq<byte>)
    requires AllFit(w.blocks)
  {
    (if w.blocks == [] then [] else uuid + EncodeAll(w.blocks)) + w.tail
  }

  /** core/proxy/proxy.go:334-354 */
  function Prepared(w: Sender, m: MultiBuffer, stale: int -> int): (v: Sender) {
    w.(direct := w.direct || w.armed, armed := false,
       sniffer := Filter(w.sniffer, if m.NilBuffer? then [] else m.mb, stale))
  }

  function EmitCall(seed: Seed, w: Sender, m: MultiBuffer, noise: int -> nat): (e: Emitted)
    requires Safe(seed) && Sized(m)
  {
    match m
    case NilBuffer => Emitted([Padded(seed, [], CONTINUE, true, noise(0))], [], true, false)
    case Buffered(mb) =>
      ReshapedFits(mb);
      PadFrom(Batch(seed, w.sniffer, Records(Flatten(mb)), noise), Reshaped(mb), 0, Mode(true, false, w.sniffer.tls))
  }

  /** The call's records are complete, the connection speaks TLS, and one of the buffers starts a record. */
  ghost predicate Finishes(s: Sniffer, mb: seq<seq<byte>>) {
    s.tls && RecordBatch(mb) && exists j :: 0 <= j < |Reshaped(mb)| && StartsRecord(Reshaped(mb)[j])
  }

  /**
    When padding ends, from the bytes of the call and what the sniffer knows: with complete
    records, or when there is no TLS 1.2 and the filter is about to give up. The last
    block says Direct exactly in the first case with direct copy enabled, and that arms it.
   */
  lemma {:induction false} PaddingEnds(seed: Seed, w: Sender, mb: seq<seq<byte>>, noise: int -> nat)
    requires Safe(seed) && Buffers(mb, SIZE) && Consistent(w.sniffer)
    ensures
      var e, s := EmitCall(seed, w, Buffered(mb), noise), w.sniffer;
      && (!e.padding <==> Finishes(s, mb) || (mb != [] && !s.tls12 && s.packets <= 1))
      && (e.blocks != [] && Last(e.blocks).command == DIRECT <==> Finishes(s, mb) && s.enableXtls)
      && (e.armed <==> Finishes(s, mb) && s.enableXtls)
  {
    ReshapedFits(mb);
    var c, r := Batch(seed, w.sniffer, Records(Flatten(mb)), noise), Reshaped(mb);
    var k := Mode(true, false, w.sniffer.tls);
    forall j | 0 <= j < |r|
      ensures EndsHere(c.sniffer, c.complete, r[j]) <==> c.sniffer.tls && RecordBatch(mb) && StartsRecord(r[j])
    {
      EndsHereIff(c.sniffer, mb, r[j]);
    }
    assert AnyEnds(c, r) <==> Finishes(c.sniffer, mb);
    PadFromDecides(c, r, 0, k);
    PadFromDisciplined(c, r, 0, k);
    var e := PadFrom(c, r, 0, k);
    if e.padding && e.blocks != [] {
      OpenLast(e.blocks);
    }
  }

  /**
    What a call sends: one block for each reshaped buffer, with padding of the length drawn
    for it, long or short, all zeros; if the filter gives up, only up to the first buffer
    that does not end the padding itself, and everything after that as it is.
   */
  lemma {:induction false} CallBlocks(seed: Seed, w: Sender, mb: seq<seq<byte>>, noise: int -> nat)
    requires Safe(seed) && Buffers(mb, SIZE)
    ensures Buffers(Reshaped(mb), SIZE - 21)
    ensures
      Blocks(Batch(seed, w.sniffer, Records(Flatten(mb)), noise), Reshaped(mb), 0, w.sniffer.tls, EmitCall(seed, w, Buffered(mb), noise))
  {
    ReshapedFits(mb);
    PadFromBlocks(Batch(seed, w.sniffer, Records(Flatten(mb)), noise), Reshaped(mb), 0, Mode(true, false, w.sniffer.tls));
  }

  /** One WriteMultiBuffer call. */
  function Written(seed: Seed, w: Sender, m: MultiBuffer, noise: int -> nat, stale: int -> int): (v: Sender)
    requires Safe(seed) && Sized(m)
  {
    Emitting(seed, Prepared(w, m, stale), m, noise)
  }

  /** Lines 356-395, after the sniffer has seen the data. */
  function Emitting(seed: Seed, v: Sender, m: MultiBuffer, noise: int -> nat): (u: Sender)
    requires Safe(seed) && Sized(m)
  {
    if v.padding then
      var e := EmitCall(seed, v, m, noise);
      var u := v.(padding := e.padding, armed := e.armed, blocks := v.blocks + e.blocks);
      if v.direct then u.(raw := u.raw + e.tail) else u.(tail := u.tail + e.tail)
    else if v.direct then v.(raw := v.raw + Plain(m))
    else v.(tail := v.tail + Plain(m))
  }

  /** The nil buffer that hides the request header: one empty Continue block with long padding, and padding goes on. */
  lemma {:induction false} NilCall(seed: Seed, w: Sender, noise: int -> nat)
    requires Safe(seed)
    ensures
      var e := EmitCall(seed, w, NilBuffer, noise);
      && |e.blocks| == 1 && e.blocks[0].command == CONTINUE && e.blocks[0].content == []
      && e.tail == [] && e.padding && !e.armed
      && (0 < Int32(seed.threshold) ==>
            var n := |e.blocks[0].padding|;
            n < seed.base + seed.longRange && (seed.base <= n || n == SIZE - 21))
  {
    PaddingTotals(seed, 0, true, noise(0));
  }

  /** When padding ends in a whole call, whose own buffers the sniffer has seen first. */
  lemma {:induction false} WriteDecides(seed: Seed, w: Sender, input: seq<byte>, mb: seq<seq<byte>>, noise: int -> nat, stale: int -> int)
    requires Safe(seed) && Buffers(mb, SIZE) && SenderInv(w, input) && w.padding
    ensures
      var s, v := Filter(w.sniffer, mb, stale), Written(seed, w, Buffered(mb), noise, stale);
      && v.sniffer == s && !v.direct
      && (!v.padding <==> Finishes(s, mb) || (mb != [] && !s.tls12 && s.packets <= 1))
      && (v.blocks != [] && Last(v.blocks).command == DIRECT <==> Finishes(s, mb) && s.enableXtls)
      && (v.armed <==> Finishes(s, mb) && s.enableXtls)
  {
    FilterKeeps(w.sniffer, mb, stale);
    var u := Prepared(w, Buffered(mb), stale);
    PaddingEnds(seed, u, mb, noise);
    var e := EmitCall(seed, u, Buffered(mb), noise);
    if e.blocks == [] {
      assert w.blocks + e.blocks == w.blocks;
      if w.blocks != [] {
        OpenLast(w.blocks);
      }
    }
  }

  /** A call of this writer, or traffic of the other direction passing the shared sniffer. */
  datatype Event =
    | Write(m: MultiBuffer, noise: int -> nat, stale: int -> int)
    | Sniff(mb: seq<seq<byte>>, stale: int -> int)

  ghost predicate SizedEvents(es: seq<Event>) {
    forall i | 0 <= i < |es| :: es[i].Write? ==> Sized(es[i].m)
  }

  ghost function After(seed: Seed, w: Sender, es: seq<Event>): (v: Sender)
    requires Safe(seed) && SizedEvents(es)
  {
    if es == [] then w
    else
      var u := After(seed, w, es[..|es| - 1]);
      match es[|es| - 1]
      case Write(m, noise, stale) => Written(seed, u, m, noise, stale)
      case Sniff(mb, stale) => u.(sniffer := Filter(u.sniffer, mb, stale))
  }

  ghost function Input(es: seq<Event>): (s: seq<byte>) {
    if es == [] then []
    else
      Input(es[..|es| - 1]) + (if es[|es| - 1].Write? then Plain(es[|es| - 1].m) else [])
  }

  /** What holds after every run of a writer. */
  ghost predicate SenderInv(w: Sender, input: seq<byte>) {
    && Consistent(w.sniffer)
    && AllBounded(w.blocks)
    && Contents(w.blocks) + w.tail + w.raw == input
    && (w.padding ==> Open(w.blocks) && w.tail == [] && w.raw == [] && !w.armed && !w.direct)
    && (!w.padding ==>
          && Terminated(w.blocks)
          && var last := Last(w.blocks).command;
          && last in {END, DIRECT}
          && (w.armed || w.direct <==> last == DIRECT)
          && (last == DIRECT ==> w.tail == [])
          && (w.raw != [] ==> w.direct))
  }

  lemma {:induction false} EmitDisciplined(seed: Seed, w: Sender, m: MultiBuffer, noise: int -> nat)
    requires Safe(seed) && Sized(m) && Consistent(w.sniffer)
    ensures
      var e := EmitCall(seed, w, m, noise);
      && Disciplined(e) && AllBounded(e.blocks)
      && Contents(e.blocks) + e.tail == Plain(m)
  {
    match m
    case NilBuffer =>
      assert Contents(EmitCall(seed, w, m, noise).blocks) == [];
    case Buffered(mb) =>
      ReshapedFits(mb);
      var c := Batch(seed, w.sniffer, Records(Flatten(mb)), noise);
      PadFromDisciplined(c, Reshaped(mb), 0, Mode(true, false, w.sniffer.tls));
      PadFromConserves(c, Reshaped(mb), 0, Mode(true, false, w.sniffer.tls));
  }

  lemma {:induction false} WrittenKeeps(seed: Seed, w: Sender, input: seq<byte>, m: MultiBuffer, noise: int -> nat, stale: int -> int)
    requires Safe(seed) && Sized(m) && SenderInv(w, input)
    ensures SenderInv(Written(seed, w, m, noise, stale), input + Plain(m))
  {
    FilterKeeps(w.sniffer, if m.NilBuffer? then [] else m.mb, stale);
    var v := Prepared(w, m, stale);
    if v.padding {
      WrittenWhilePadding(seed, v, input, m, noise);
    } else {
      WrittenAfterPadding(v, input, Plain(m));
    }
  }

  /** After the last block everything goes out as it is, on the connection in use. */
  lemma {:induction false} WrittenAfterPadding(v: Sender, input: seq<byte>, more: seq<byte>)
    requires SenderInv(v, input) && !v.padding && !v.armed
    ensures SenderInv(if v.direct then v.(raw := v.raw + more) else v.(tail := v.tail + more), input + more)
  {
    var c := Contents(v.blocks);
    Assoc(c + v.tail, v.raw, more);
    Assoc(c, v.tail, more);
    assert !v.direct ==> v.raw == [] && c + v.tail + [] == c + v.tail && c + (v.tail + more) + [] == c + (v.tail + more);
  }

  lemma {:induction false} WrittenWhilePadding(seed: Seed, v: Sender, input: seq<byte>, m: MultiBuffer, noise: int -> nat)
    requires Safe(seed) && Sized(m) && SenderInv(v, input) && v.padding
    ensures
      var e := EmitCall(seed, v, m, noise);
      SenderInv(v.(padding := e.padding, armed := e.armed, blocks := v.blocks + e.blocks, tail := v.tail + e.tail), input + Plain(m))
  {
    EmitDisciplined(seed, v, m, noise);
    SenderAppend(v, input, EmitCall(seed, v, m, noise), Plain(m));
  }

  lemma {:induction false} SenderAppend(v: Sender, input: seq<byte>, e: Emitted, more: seq<byte>)
    requires SenderInv(v, input) && v.padding
    requires Disciplined(e) && AllBounded(e.blocks) && Contents(e.blocks) + e.tail == more
    ensures SenderInv(v.(padding := e.padding, armed := e.armed, blocks := v.blocks + e.blocks, tail := v.tail + e.tail), input + more)
  {
    OpenAppend(v.blocks, e.blocks);
    ContentsAppend(v.blocks, e.blocks);
    AllBoundedAppend(v.blocks, e.blocks);
    assert v.tail + e.tail == e.tail && v.raw == [];
    assert Contents(v.blocks) + [] + [] == Contents(v.blocks) == input;
    Assoc(Contents(v.blocks), Contents(e.blocks), e.tail);
    assert (input + more) + [] == input + more;
  }

  /**
    Writer discipline over whole runs: whatever is written and whatever the other
    direction shows the sniffer, the framed connection carries Continue blocks, at most
    one End or Direct block after them, and after that only raw bytes; direct copy is
    armed or on exactly when that block was Direct; and every byte written is there,
    in order.
   */
  lemma {:induction false} WriterRun(seed: Seed, es: seq<Event>)
    requires Safe(seed) && SizedEvents(es)
    ensures SenderInv(After(seed, NEW_SENDER, es), Input(es))
    decreases |es|
  {
    if es != [] {
      var init, e := es[..|es| - 1], es[|es| - 1];
      WriterRun(seed, init);
      var u := After(seed, NEW_SENDER, init);
      match e
      case Write(m, noise, stale) =>
        WrittenKeeps(seed, u, Input(init), m, noise, stale);
      case Sniff(mb, stale) =>
        FilterKeeps(u.sniffer, mb, stale);
        assert Input(init) + [] == Input(init);
    }
  }
}
