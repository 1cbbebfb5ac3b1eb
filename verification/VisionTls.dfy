/**
  What Vision looks for in the traffic it carries: complete application_data records
  (section 5.2 of RFC 8446), and the hello messages that XtlsFilterTls recognises.
 */
module VisionTls {
  import opened Bytes

  const APPLICATION_DATA: seq<byte> := [0x17, 0x03, 0x03]
  const SERVER_HANDSHAKE: seq<byte> := [0x16, 0x03, 0x03]
  const CLIENT_HANDSHAKE: seq<byte> := [0x16, 0x03]
  const TLS13_SUPPORTED_VERSIONS: seq<byte> := [0x00, 0x2b, 0x00, 0x02, 0x03, 0x04]
  const CLIENT_HELLO: byte := 1
  const SERVER_HELLO: byte := 2

  // ---------------------------------------------------------------- records

  predicate Payload(p: seq<byte>) {
    0 < |p| < 65536
  }

  predicate Payloads(ps: seq<seq<byte>>) {
    forall i | 0 <= i < |ps| :: Payload(ps[i])
  }

  /** One application_data record: type, legacy version, length, payload. */
  function Record(p: seq<byte>): (s: seq<byte>)
    requires Payload(p)
  {
    APPLICATION_DATA + [High(|p|), Low(|p|)] + p
  }

  function RecordStream(ps: seq<seq<byte>>): (s: seq<byte>)
    requires Payloads(ps)
  {
    if ps == [] then [] else Record(ps[0]) + RecordStream(ps[1..])
  }

  /** The same thing read from the left. */
  predicate Records(b: seq<byte>)
    decreases |b|
  {
    b == [] ||
    (&& |b| >= 5 && b[0] == 0x17 && b[1] == 0x03 && b[2] == 0x03
     && var n := U16(b[3], b[4]);
     && 0 < n <= |b| - 5
     && Records(b[5 + n..]))
  }

  /** A stream of records is recognised ... */
  lemma {:induction false} RecordStreamIsRecords(ps: seq<seq<byte>>)
    requires Payloads(ps)
    ensures Records(RecordStream(ps))
    decreases |ps|
  {
    if ps != [] {
      RecordStreamIsRecords(ps[1..]);
      var r, b := Record(ps[0]), RecordStream(ps);
      U16OfHalves(|ps[0]|);
      assert |r| == 5 + |ps[0]|;
      assert b[..5] == r[..5] == APPLICATION_DATA + [High(|ps[0]|), Low(|ps[0]|)];
      assert b[|r|..] == RecordStream(ps[1..]);
    }
  }

  /** ... and nothing else is. */
  lemma {:induction false} RecordsAreRecordStream(b: seq<byte>) returns (ps: seq<seq<byte>>)
    requires Records(b)
    ensures Payloads(ps) && RecordStream(ps) == b
    decreases |b|
  {
    if b == [] {
      ps := [];
    } else {
      var n := U16(b[3], b[4]);
      var rest := RecordsAreRecordStream(b[5 + n..]);
      ps := [b[5..5 + n]] + rest;
      assert ps[1..] == rest;
      FirstRecord(b, n);
      assert b == b[..5 + n] + b[5 + n..];
    }
  }

  lemma {:induction false} FirstRecord(b: seq<byte>, n: int)
    requires |b| >= 5 && b[0] == 0x17 && b[1] == 0x03 && b[2] == 0x03
    requires n == U16(b[3], b[4]) && 0 < n <= |b| - 5
    ensures Record(b[5..5 + n]) == b[..5 + n]
  {
    assert High(n) == b[3] && Low(n) == b[4];
    assert b[..5 + n] == b[..5] + b[5..5 + n];
    assert b[..5] == APPLICATION_DATA + [b[3], b[4]];
  }

  /** IsCompleteRecord's loop accepts exactly the concatenations of complete, non-empty records. */
  lemma {:induction false} CompleteIffRecordStream(b: seq<byte>)
    ensures Records(b) <==> exists ps :: Payloads(ps) && RecordStream(ps) == b
  {
    if Records(b) {
      var ps := RecordsAreRecordStream(b);
    }
    forall ps | Payloads(ps) && RecordStream(ps) == b
      ensures Records(b)
    {
      RecordStreamIsRecords(ps);
    }
  }

  /** One unfolding of Records, at an offset. */
  lemma {:induction false} RecordsAt(b: seq<byte>, s: int)
    requires 0 <= s <= |b|
    ensures Records(b[s..]) <==>
      (s == |b| ||
       (&& s + 5 <= |b| && b[s] == 0x17 && b[s + 1] == 0x03 && b[s + 2] == 0x03
        && var n := U16(b[s + 3], b[s + 4]);
        && 0 < n <= |b| - s - 5
        && Records(b[s + 5 + n..])))
  {
    var r := b[s..];
    if s + 5 <= |b| {
      var n := U16(b[s + 3], b[s + 4]);
      assert r[3] == b[s + 3] && r[4] == b[s + 4];
      if n <= |b| - s - 5 {
        assert r[5 + n..] == b[s + 5 + n..];
      }
    }
  }

  /** The switch over the bytes of a record header, lines 422-439. */
  method RecordHeaderByte(headerLen: int, recordLen: int, data: byte) returns (ok: bool, length: int)
    requires 1 <= headerLen <= 5
    ensures ok <==> (headerLen == 5 ==> data == 0x17) && (headerLen == 4 || headerLen == 3 ==> data == 0x03)
    ensures length == if headerLen > 2 then recordLen else if headerLen == 2 then U16(data, 0) else recordLen + data
  {
    ok, length := true, recordLen;
    match headerLen {
      case 5 => ok := data == 0x17;
      case 4 => ok := data == 0x03;
      case 3 => ok := data == 0x03;
      case 2 => length := U16(data, 0);
      case _ => length := recordLen + data;
    }
  }

  /** What the counters say of the record that begins at `start`: its first 5 - headerLen bytes are as they should be. */
  predicate InRecord(b: seq<byte>, start: int, headerLen: int, recordLen: int) {
    && 0 <= headerLen <= 5 && 0 <= start && start + 5 - headerLen <= |b|
    && (headerLen <= 4 ==> b[start] == 0x17)
    && (headerLen <= 3 ==> b[start + 1] == 0x03)
    && (headerLen <= 2 ==> b[start + 2] == 0x03)
    && recordLen == (if headerLen >= 2 then 0 else if headerLen == 1 then U16(b[start + 3], 0) else U16(b[start + 3], b[start + 4]))
  }

  lemma {:induction false} HeaderNext(b: seq<byte>, start: int, headerLen: int, recordLen: int, ok: bool, length: int)
    requires InRecord(b, start, headerLen, recordLen) && headerLen > 0 && start + 5 - headerLen < |b|
    requires
      var data := b[start + 5 - headerLen];
      && (ok <==> (headerLen == 5 ==> data == 0x17) && (headerLen == 4 || headerLen == 3 ==> data == 0x03))
      && length == if headerLen > 2 then recordLen else if headerLen == 2 then U16(data, 0) else recordLen + data
    ensures if ok then InRecord(b, start, headerLen - 1, length) else !Records(b[start..])
  {
    if !ok {
      RecordsAt(b, start);
    }
  }

  lemma {:induction false} RecordNext(b: seq<byte>, start: int, recordLen: int)
    requires InRecord(b, start, 0, recordLen)
    ensures Records(b[start..]) <==> 0 < recordLen <= |b| - start - 5 && Records(b[start + 5 + recordLen..])
  {
    RecordsAt(b, start);
  }

  lemma {:induction false} AtEnd(b: seq<byte>, start: int, headerLen: int, recordLen: int)
    requires InRecord(b, start, headerLen, recordLen) && start + 5 - headerLen == |b|
    ensures Records(b[start..]) <==> headerLen == 5 && recordLen == 0
  {
    RecordsAt(b, start);
  }

  /** core/proxy/proxy.go:407-458 */
  method IsCompleteRecord(mb: seq<seq<byte>>) returns (complete: bool)
    ensures complete == Records(Flatten(mb))
  {
    var b := Flatten(mb);
    var headerLen, recordLen, i := 5, 0, 0;
    ghost var start := 0;
    assert b[0..] == b;
    while i < |b|
      invariant 0 <= i <= |b| && start == i - (5 - headerLen)
      invariant InRecord(b, start, headerLen, recordLen) && Records(b) == Records(b[start..])
      decreases |b| - i, headerLen
    {
      if headerLen > 0 {
        var ok, length := RecordHeaderByte(headerLen, recordLen, b[i]);
        HeaderNext(b, start, headerLen, recordLen, ok, length);
        if !ok {
          return false;
        }
        i, headerLen, recordLen := i + 1, headerLen - 1, length;
      } else {
        RecordNext(b, start, recordLen);
        if recordLen == 0 || |b| - i < recordLen {
          return false;
        }
        i := i + recordLen;
        recordLen, headerLen, start := 0, 5, i;
      }
    }
    AtEnd(b, start, headerLen, recordLen);
    return headerLen == 5 && recordLen == 0;
  }

  // ---------------------------------------------------------------- sniffing hellos

  /**
    The part of TrafficState that XtlsFilterTls keeps: NumberOfPacketToFilter,
    EnableXtls, IsTLS12orAbove, IsTLS, Cipher and RemainingServerHello.
   */
  datatype Sniffer = Sniffer(packets: int, enableXtls: bool, tls12: bool, tls: bool, cipher: int, hello: int)

  const NEW_SNIFFER := Sniffer(8, false, false, false, 0, -1)

  predicate Contains(b: seq<byte>, pattern: seq<byte>) {
    exists i | 0 <= i <= |b| :: OccursAt(b, pattern, i)
  }

  predicate OccursAt(b: seq<byte>, pattern: seq<byte>, i: int)
    requires 0 <= i <= |b|
  {
    pattern <= b[i..]
  }

  /** The suites of Tls13CipherSuiteDic other than TLS_AES_128_CCM_8_SHA256. */
  predicate DirectCipher(cipher: int) {
    0x1301 <= cipher <= 0x1304
  }

  /**
    The two bytes after the session id. They may lie past the end of the buffer, in
    memory whose content (`stale`) is not known.
   */
  function CipherSuite(b: seq<byte>, stale: int): (c: int)
    requires |b| >= 79
  {
    var at := 44 + (b[43] as int);
    if at + 2 <= |b| then U16(b[at], b[at + 1]) else stale
  }

  /** core/proxy/proxy.go:624-642 */
  function Recognise(s: Sniffer, b: seq<byte>, stale: int): (t: Sniffer) {
    var t := s.(packets := s.packets - 1);
    if |b| >= 6 && b[..3] == SERVER_HANDSHAKE && b[5] == SERVER_HELLO then
      var hello := U16(b[3], b[4]) + 5;
      t.(hello := hello, tls12 := true, tls := true,
         cipher := if |b| >= 79 && hello >= 79 then CipherSuite(b, stale) else s.cipher)
    else if |b| >= 6 && b[..2] == CLIENT_HANDSHAKE && b[5] == CLIENT_HELLO then
      t.(tls := true)
    else t
  }

  datatype Sniffed = Sniffed(sniffer: Sniffer, done: bool)

  /** core/proxy/proxy.go:643-668 */
  function InServerHello(t: Sniffer, b: seq<byte>): (r: Sniffed) {
    if t.hello <= 0 then Sniffed(t, false)
    else
      var seen := if t.hello > |b| then |b| else t.hello;
      var u := t.(hello := t.hello - |b|);
      if Contains(b[..seen], TLS13_SUPPORTED_VERSIONS) then
        Sniffed(u.(enableXtls := u.enableXtls || DirectCipher(u.cipher), packets := 0), true)
      else if u.hello <= 0 then Sniffed(u.(packets := 0), true)
      else Sniffed(u, false)
  }

  /** XtlsFilterTls from buffer i on. */
  function FilterFrom(s: Sniffer, mb: seq<seq<byte>>, i: nat, stale: int -> int): (t: Sniffer)
    requires i <= |mb|
    decreases |mb| - i
  {
    if i == |mb| then s
    else
      var r := InServerHello(Recognise(s, mb[i], stale(i)), mb[i]);
      if r.done then r.sniffer else FilterFrom(r.sniffer, mb, i + 1, stale)
  }

  /** XtlsFilterTls, when it is called at all: only while packets are still to be filtered. */
  function Filter(s: Sniffer, mb: seq<seq<byte>>, stale: int -> int): (t: Sniffer) {
    if s.packets > 0 then FilterFrom(s, mb, 0, stale) else s
  }

  method XtlsFilterTls(s: Sniffer, mb: seq<seq<byte>>, stale: int -> int) returns (t: Sniffer)
    ensures t == FilterFrom(s, mb, 0, stale)
  {
    t := s;
    for i := 0 to |mb|
      invariant FilterFrom(s, mb, 0, stale) == FilterFrom(t, mb, i, stale)
    {
      var r := InServerHello(Recognise(t, mb[i], stale(i)), mb[i]);
      t := r.sniffer;
      if r.done {
        return;
      }
    }
  }

  /** Direct copy is only ever enabled on a connection known to speak TLS 1.2 or later. */
  predicate Consistent(s: Sniffer) {
    (s.enableXtls ==> s.tls12) && (s.hello > 0 ==> s.tls12) && (s.tls12 ==> s.tls)
  }

  lemma {:induction false} FilterFromKeeps(s: Sniffer, mb: seq<seq<byte>>, i: nat, stale: int -> int)
    requires i <= |mb| && Consistent(s)
    ensures Consistent(FilterFrom(s, mb, i, stale))
    ensures s.tls12 ==> FilterFrom(s, mb, i, stale).tls12
    ensures s.enableXtls ==> FilterFrom(s, mb, i, stale).enableXtls
    ensures s.packets <= 0 ==> FilterFrom(s, mb, i, stale).packets <= 0
    decreases |mb| - i
  {
    if i < |mb| {
      var t := Recognise(s, mb[i], stale(i));
      assert Consistent(t) && t.packets == s.packets - 1;
      var r := InServerHello(t, mb[i]);
      assert Consistent(r.sniffer);
      if !r.done {
        FilterFromKeeps(r.sniffer, mb, i + 1, stale);
      }
    }
  }

  /** The sniffer over any call: it stays consistent, its findings are never withdrawn, and once it has stopped nothing is looked at. */
  lemma {:induction false} FilterKeeps(s: Sniffer, mb: seq<seq<byte>>, stale: int -> int)
    requires Consistent(s)
    ensures
      var t := Filter(s, mb, stale);
      && Consistent(t)
      && (s.tls12 ==> t.tls12) && (s.enableXtls ==> t.enableXtls)
      && (s.packets <= 0 ==> t == s)
  {
    if s.packets > 0 {
      FilterFromKeeps(s, mb, 0, stale);
    }
  }
}
