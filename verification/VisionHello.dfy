/**
  What the sniffer of VisionTls concludes from hello messages (core/proxy/proxy.go:619-670),
  stated on the messages themselves (section 4.1 of RFC 8446): a ServerHello as it goes
  over the wire, whole in one buffer or cut over several, a ClientHello, and anything else.
 */
module VisionHello {
  import opened Bytes
  import opened Collections
  import opened VisionTls

  // ---------------------------------------------------------------- the message

  /** `extensions` is the whole block of extensions, without its length. */
  datatype ServerHello = ServerHello(random: seq<byte>, sessionId: seq<byte>, suite: int, extensions: seq<byte>)

  predicate WellFormed(h: ServerHello) {
    && |h.random| == 32 && |h.sessionId| < 256 && 0 <= h.suite < 65536
    && 44 + |h.sessionId| + |h.extensions| < 65536
  }

  /** What comes before the suite: record header, handshake type and length, version, random and session id. */
  function Head(h: ServerHello): (s: seq<byte>)
    requires WellFormed(h)
    ensures |s| == 44 + |h.sessionId|
  {
    var n := 44 + |h.sessionId| + |h.extensions|;
    [0x16, 0x03, 0x03, High(n), Low(n), 0x02, 0, High(n - 4), Low(n - 4), 0x03, 0x03] + h.random + [|h.sessionId|] + h.sessionId
  }

  /** The record that carries it. */
  function Wire(h: ServerHello): (s: seq<byte>)
    requires WellFormed(h)
    ensures |s| == 49 + |h.sessionId| + |h.extensions|
  {
    Head(h) + [High(h.suite), Low(h.suite), 0, High(|h.extensions|), Low(|h.extensions|)] + h.extensions
  }

  /** supported_versions with the one version TLS 1.3. */
  predicate SaysTls13(s: seq<byte>) {
    Contains(s, [0x00, 0x2b, 0x00, 0x02, 0x03, 0x04])
  }

  /** The suites of TLS 1.3 (appendix B.4) whose records can be copied directly. */
  predicate Direct(suite: int) {
    suite in {0x1301, 0x1302, 0x1303, 0x1304}
  }

  predicate LooksLikeServerHello(b: seq<byte>) {
    |b| >= 6 && b[0] == 0x16 && b[1] == 0x03 && b[2] == 0x03 && b[5] == 0x02
  }

  predicate LooksLikeClientHello(b: seq<byte>) {
    |b| >= 6 && b[0] == 0x16 && b[1] == 0x03 && b[5] == 0x01
  }

  /** The extension is seen wherever it is among the extensions. */
  lemma {:induction false} ExtensionIsSeen(h: ServerHello)
    requires WellFormed(h) && SaysTls13(h.extensions)
    ensures SaysTls13(Wire(h))
  {
    var pattern := [0x00, 0x2b, 0x00, 0x02, 0x03, 0x04];
    var i :| 0 <= i <= |h.extensions| && OccursAt(h.extensions, pattern, i);
    var b, k := Wire(h), 49 + |h.sessionId| + i;
    assert b[k..] == h.extensions[i..];
    assert OccursAt(b, pattern, k);
  }

  // ---------------------------------------------------------------- one buffer

  /** What the buffer does to a sniffer: one iteration of the loop. */
  function OneBuffer(s: Sniffer, b: seq<byte>, stale: int): (r: Sniffed) {
    InServerHello(Recognise(s, b, stale), b)
  }

  /** Outside a ServerHello: a ClientHello says that this is TLS, and nothing else does anything but count. */
  lemma {:induction false} OtherBuffer(s: Sniffer, b: seq<byte>, stale: int)
    requires !LooksLikeServerHello(b) && s.hello <= 0
    ensures OneBuffer(s, b, stale) == Sniffed(s.(packets := s.packets - 1, tls := s.tls || LooksLikeClientHello(b)), false)
  {
    if |b| >= 6 {
      assert b[..3] == [b[0], b[1], b[2]] && b[..2] == [b[0], b[1]];
    }
  }

  lemma {:induction false} WireAt(h: ServerHello)
    requires WellFormed(h)
    ensures
      var w, at := Wire(h), 44 + |h.sessionId|;
      && LooksLikeServerHello(w) && U16(w[3], w[4]) + 5 == |w|
      && w[43] == |h.sessionId| && U16(w[at], w[at + 1]) == h.suite
  {
    U16OfHalves(44 + |h.sessionId| + |h.extensions|);
    U16OfHalves(h.suite);
  }

  /** A buffer that starts with the first part of a ServerHello, or with all of it and more. */
  predicate Starts(h: ServerHello, b: seq<byte>) {
    WellFormed(h) && 6 <= |b| && (b <= Wire(h) || Wire(h) <= b)
  }

  /** The suite is in the buffer, and the sniffer looks for it there. */
  predicate ShowsSuite(h: ServerHello, b: seq<byte>) {
    79 <= |b| && 46 + |h.sessionId| <= |b| && 30 <= |h.sessionId| + |h.extensions|
  }

  lemma {:induction false} HelloStarts(s: Sniffer, h: ServerHello, b: seq<byte>, stale: int)
    requires Starts(h, b)
    ensures
      var t := Recognise(s, b, stale);
      && t == s.(packets := s.packets - 1, hello := |Wire(h)|, tls12 := true, tls := true, cipher := t.cipher)
      && (ShowsSuite(h, b) ==> t.cipher == h.suite)
      && (|b| < 79 || |h.sessionId| + |h.extensions| < 30 ==> t.cipher == s.cipher)
  {
    WireAt(h);
    var w := Wire(h);
    assert forall k | 0 <= k < |b| && k < |w| :: b[k] == w[k];
    assert b[..3] == [0x16, 0x03, 0x03];
  }

  /** The part of the buffer that belongs to a hello of which n bytes are still to come. */
  function Window(b: seq<byte>, n: nat): (w: seq<byte>) {
    if n < |b| then b[..n] else b
  }

  /** A buffer inside a ServerHello: found, or over without it, or more is to come. */
  lemma {:induction false} InsideHello(t: Sniffer, b: seq<byte>)
    requires t.hello > 0
    ensures
      var r, seen := InServerHello(t, b), SaysTls13(Window(b, t.hello));
      && r.done == (seen || t.hello <= |b|)
      && r.sniffer == t.(hello := t.hello - |b|,
                         packets := if r.done then 0 else t.packets,
                         enableXtls := t.enableXtls || (seen && Direct(t.cipher)))
  {
    assert b[..|b|] == b;
  }

  // ---------------------------------------------------------------- a hello in one buffer

  /**
    The buffers of a call from one on that starts with a whole ServerHello: the sniffer
    stops, knows TLS 1.2 or later, and enables direct copy iff the hello says TLS 1.3 and
    its suite is one of the four.
   */
  lemma {:induction false} WholeHello(s: Sniffer, h: ServerHello, more: seq<byte>, mb: seq<seq<byte>>, i: nat, stale: int -> int)
    requires WellFormed(h) && i < |mb| && mb[i] == Wire(h) + more
    ensures
      var t := FilterFrom(s, mb, i, stale);
      && t.tls12 && t.tls && t.packets == 0
      && (!SaysTls13(Wire(h)) ==> t.enableXtls == s.enableXtls)
      && (30 <= |h.sessionId| + |h.extensions| ==> (t.enableXtls <==> s.enableXtls || (SaysTls13(Wire(h)) && Direct(h.suite))))
      && (|h.sessionId| + |h.extensions| < 30 ==>
            (t.enableXtls <==> s.enableXtls || (SaysTls13(Wire(h)) && Direct(s.cipher))))
  {
    var b := mb[i];
    assert Wire(h) <= b && b[..|Wire(h)|] == Wire(h);
    HelloStarts(s, h, b, stale(i));
    InsideHello(Recognise(s, b, stale(i)), b);
  }

  // ---------------------------------------------------------------- a hello in several buffers

  predicate NonEmpty(pieces: seq<seq<byte>>) {
    forall j | 0 <= j < |pieces| :: pieces[j] != []
  }

  /** From buffer i on, the buffers are these pieces, the last one with more bytes after it. */
  predicate Carries(mb: seq<seq<byte>>, i: nat, pieces: seq<seq<byte>>, more: seq<byte>) {
    && pieces != [] && NonEmpty(pieces) && i + |pieces| <= |mb|
    && (forall j | 0 <= j < |pieces| - 1 :: mb[i + j] == pieces[j])
    && mb[i + |pieces| - 1] == pieces[|pieces| - 1] + more
  }

  predicate NoOtherHello(mb: seq<seq<byte>>, i: nat) {
    forall j | i <= j < |mb| :: !LooksLikeServerHello(mb[j])
  }

  predicate AnySaysTls13(pieces: seq<seq<byte>>) {
    exists j :: 0 <= j < |pieces| && SaysTls13(pieces[j])
  }

  lemma {:induction false} AnyNext(pieces: seq<seq<byte>>)
    requires pieces != []
    ensures AnySaysTls13(pieces) <==> SaysTls13(pieces[0]) || AnySaysTls13(pieces[1..])
  {
    if j :| 0 <= j < |pieces| && SaysTls13(pieces[j]) {
      assert j > 0 ==> pieces[1..][j - 1] == pieces[j];
    }
    if j :| 0 <= j < |pieces[1..]| && SaysTls13(pieces[1..][j]) {
      assert pieces[j + 1] == pieces[1..][j];
    }
  }

  lemma {:induction false} CarriesNext(mb: seq<seq<byte>>, i: nat, pieces: seq<seq<byte>>, more: seq<byte>)
    requires Carries(mb, i, pieces, more) && |pieces| > 1
    ensures mb[i] == pieces[0] && Carries(mb, i + 1, pieces[1..], more)
    ensures Flatten(pieces[1..]) != [] && |Flatten(pieces)| == |pieces[0]| + |Flatten(pieces[1..])|
  {
    assert pieces[1] != [];
    var rest := pieces[1..];
    assert rest[0] == pieces[1];
    forall j | 0 <= j < |rest| - 1
      ensures mb[i + 1 + j] == rest[j]
    {
      assert mb[i + (j + 1)] == pieces[j + 1];
    }
  }

  /** What a sniffer inside a hello concludes from the rest of it. */
  ghost predicate Concluded(t: Sniffer, pieces: seq<seq<byte>>, u: Sniffer) {
    u.tls12 && u.tls && u.packets == 0 && (u.enableXtls <==> t.enableXtls || (AnySaysTls13(pieces) && Direct(t.cipher)))
  }

  /** The first of these pieces, once its buffer has been recognised. */
  lemma {:induction false} PieceDecides(t: Sniffer, mb: seq<seq<byte>>, i: nat, pieces: seq<seq<byte>>, more: seq<byte>, stale: int -> int)
    requires t.hello == |Flatten(pieces)| > 0 && t.tls12 && t.tls && Carries(mb, i, pieces, more) && NoOtherHello(mb, i + 1)
    ensures
      var r := InServerHello(t, mb[i]);
      Concluded(t, pieces, if r.done then r.sniffer else FilterFrom(r.sniffer, mb, i + 1, stale))
    decreases |pieces|, 0
  {
    InsideHello(t, mb[i]);
    AnyNext(pieces);
    if |pieces| == 1 {
      assert Flatten(pieces) == pieces[0] + [] == pieces[0];
      assert mb[i][..|pieces[0]|] == pieces[0];
    } else {
      CarriesNext(mb, i, pieces, more);
      var r := InServerHello(t, mb[i]);
      if !r.done {
        PiecesDecide(r.sniffer, mb, i + 1, pieces[1..], more, stale);
      }
    }
  }

  lemma {:induction false} PiecesDecide(t: Sniffer, mb: seq<seq<byte>>, i: nat, pieces: seq<seq<byte>>, more: seq<byte>, stale: int -> int)
    requires t.hello == |Flatten(pieces)| > 0 && t.tls12 && t.tls && Carries(mb, i, pieces, more) && NoOtherHello(mb, i)
    ensures Concluded(t, pieces, FilterFrom(t, mb, i, stale))
    decreases |pieces|, 1
  {
    var b := mb[i];
    if |b| >= 6 {
      assert b[..3] == [b[0], b[1], b[2]];
    }
    var u := Recognise(t, b, stale(i));
    assert u == t.(packets := t.packets - 1);
    PieceDecides(u, mb, i, pieces, more, stale);
  }

  /**
    A ServerHello cut into any pieces, the first of which shows its suite: the sniffer
    stops with TLS 1.2 or later, and enables direct copy iff the suite is one of the four
    and one of the pieces says TLS 1.3. A cut through those six bytes hides them.
   */
  lemma {:induction false} CutHello(s: Sniffer, h: ServerHello, mb: seq<seq<byte>>, i: nat, pieces: seq<seq<byte>>, more: seq<byte>, stale: int -> int)
    requires WellFormed(h) && Carries(mb, i, pieces, more) && Flatten(pieces) == Wire(h)
    requires |pieces[0]| >= 6 && NoOtherHello(mb, i + 1)
    ensures
      var t := FilterFrom(s, mb, i, stale);
      && t.tls12 && t.tls && t.packets == 0
      && (!AnySaysTls13(pieces) ==> t.enableXtls == s.enableXtls)
      && (ShowsSuite(h, pieces[0]) ==> (t.enableXtls <==> s.enableXtls || (AnySaysTls13(pieces) && Direct(h.suite))))
  {
    var b := mb[i];
    assert pieces[0] <= Wire(h);
    assert |pieces| == 1 ==> Flatten(pieces) == pieces[0] + [] == pieces[0];
    HelloStarts(s, h, b, stale(i));
    PieceDecides(Recognise(s, b, stale(i)), mb, i, pieces, more, stale);
  }

  /** A hello with suite 0x1301 that says TLS 1.3, cut through those bytes: direct copy stays off. */
  lemma {:induction false} HiddenVersion(stale: int -> int)
    ensures
      var h := ServerHello(seq(32, _ => 0), seq(32, _ => 0), 0x1301, [0x00, 0x2b, 0x00, 0x02, 0x03, 0x04]);
      && WellFormed(h) && SaysTls13(Wire(h)) && Direct(h.suite)
      && FilterFrom(NEW_SNIFFER, [Wire(h)], 0, stale).enableXtls
      && !FilterFrom(NEW_SNIFFER, [Wire(h)[..84], Wire(h)[84..]], 0, stale).enableXtls
  {
    var h := ServerHello(seq(32, _ => 0), seq(32, _ => 0), 0x1301, [0x00, 0x2b, 0x00, 0x02, 0x03, 0x04]);
    var w := Wire(h);
    assert OccursAt(h.extensions, h.extensions, 0);
    ExtensionIsSeen(h);
    assert w + [] == w;
    WholeHello(NEW_SNIFFER, h, [], [w], 0, stale);
    var a, c := w[..84], w[84..];
    assert forall k | 0 <= k < 82 :: a[k] != 0x2b;
    forall i | 0 <= i <= |a|
      ensures !OccursAt(a, [0x00, 0x2b, 0x00, 0x02, 0x03, 0x04], i)
    {
      if i + 6 <= |a| {
        assert a[i..][1] == a[i + 1];
      }
    }
    var pieces := [a, c];
    assert pieces[1..] == [c] && Flatten([c]) == c + [] == c && a + c == w;
    AnyNext(pieces);
    AnyNext([c]);
    CutHello(NEW_SNIFFER, h, pieces, 0, pieces, [], stale);
  }

  // ---------------------------------------------------------------- several calls

  lemma {:induction false} FilterShift(s: Sniffer, a: seq<seq<byte>>, b: seq<seq<byte>>, j: nat, stale: int -> int)
    requires j <= |b|
    ensures FilterFrom(s, a + b, |a| + j, stale) == FilterFrom(s, b, j, k => stale(|a| + k))
    decreases |b| - j
  {
    if j < |b| {
      var r := OneBuffer(s, b[j], stale(|a| + j));
      FilterShift(r.sniffer, a, b, j + 1, stale);
    }
  }

  lemma {:induction false} FilterInTwo(s: Sniffer, a: seq<seq<byte>>, b: seq<seq<byte>>, i: nat, stale: int -> int)
    requires i <= |a| && s.packets > |a| - i
    ensures FilterFrom(s, a + b, i, stale) == Filter(FilterFrom(s, a, i, stale), b, k => stale(|a| + k))
    decreases |a| - i
  {
    if i == |a| {
      FilterShift(s, a, b, 0, stale);
    } else {
      var t := Recognise(s, a[i], stale(i));
      var r := InServerHello(t, a[i]);
      if t.hello > 0 {
        InsideHello(t, a[i]);
      }
      if !r.done {
        FilterInTwo(r.sniffer, a, b, i + 1, stale);
      }
    }
  }

  /** As long as the count allows, it does not matter which buffers come in which call. */
  lemma {:induction false} CallsAreOne(s: Sniffer, a: seq<seq<byte>>, b: seq<seq<byte>>, stale: int -> int)
    requires s.packets > |a|
    ensures Filter(Filter(s, a, stale), b, k => stale(|a| + k)) == Filter(s, a + b, stale)
  {
    FilterInTwo(s, a, b, 0, stale);
  }
}
