/**
  The wire grammar of a geosite list (web/service/geosite_normalize.go:62-133): trees
  that keep every byte, their printed form, and a simple recursive parser, proved to
  be each other's inverses.
 */
module GeositeWire {
  import opened Bytes
  import opened Collections

  const VARINT := 0
  const I64 := 1
  const LEN := 2
  const I32 := 5

  const MAX_LENGTH: int := 0x100_0000_0000
  const MAX_CODE: int := 0x1_0000

  // ---------------------------------------------------------------- trees

  /** A value with all its bytes; a number keeps its digits, since they need not be the shortest ones. */
  datatype Value =
    | Number(digits: seq<byte>)
    | Fixed(bytes: seq<byte>)
    | Chunk(size: seq<byte>, body: seq<byte>)

  datatype Field = Field(tag: seq<byte>, value: Value)

  /** One field of the list: an entry with its own fields, or anything else. */
  datatype Top =
    | Entry(tag: seq<byte>, size: seq<byte>, fields: seq<Field>)
    | Other(field: Field)

  /** Base-128 digits, the least significant first, without their continuation bits. */
  function NumberOf(v: seq<byte>): (n: nat) {
    if v == [] then 0 else v[0] % 128 + 128 * NumberOf(v[1..])
  }

  /** At most ten digits, the last without a continuation bit, and no bit beyond the 64th. */
  predicate IsVarint(v: seq<byte>) {
    && 1 <= |v| <= 10
    && (forall i | 0 <= i < |v| - 1 :: v[i] >= 128)
    && v[|v| - 1] < 128
    && (|v| == 10 ==> v[9] <= 1)
  }

  predicate IsValue(wt: int, x: Value) {
    match x
    case Number(digits) => wt == VARINT && IsVarint(digits)
    case Fixed(bytes) => (wt == I64 && |bytes| == 8) || (wt == I32 && |bytes| == 4)
    case Chunk(size, body) => wt == LEN && IsVarint(size) && NumberOf(size) == |body| <= MAX_LENGTH
  }

  predicate IsField(f: Field) {
    IsVarint(f.tag) && IsValue(NumberOf(f.tag) % 8, f.value)
  }

  /** Field number 1 with a length: an entry of the list, or the country code of an entry. */
  predicate IsOne(tag: seq<byte>) {
    NumberOf(tag) / 8 == 1 && NumberOf(tag) % 8 == LEN
  }

  predicate IsCode(f: Field) {
    IsOne(f.tag) && f.value.Chunk?
  }

  /** Fields of an entry: a country code is at most MAX_CODE bytes. */
  predicate AreFields(fs: seq<Field>) {
    fs == [] ||
    (IsField(fs[0]) && (IsCode(fs[0]) ==> |fs[0].value.body| <= MAX_CODE) && AreFields(fs[1..]))
  }

  predicate IsTop(t: Top) {
    match t
    case Entry(tag, size, fields) =>
      && IsOne(tag) && AreFields(fields)
      && IsField(Field(tag, Chunk(size, PrintFields(fields))))
    case Other(f) => !IsOne(f.tag) && IsField(f)
  }

  predicate IsList(list: seq<Top>) {
    list == [] || (IsTop(list[0]) && IsList(list[1..]))
  }

  // ---------------------------------------------------------------- printing

  function PrintValue(x: Value): (s: seq<byte>) {
    match x
    case Number(digits) => digits
    case Fixed(bytes) => bytes
    case Chunk(size, body) => size + body
  }

  function PrintField(f: Field): (s: seq<byte>) {
    f.tag + PrintValue(f.value)
  }

  function PrintFields(fs: seq<Field>): (s: seq<byte>) {
    if fs == [] then [] else PrintField(fs[0]) + PrintFields(fs[1..])
  }

  function PrintTop(t: Top): (s: seq<byte>) {
    match t
    case Entry(tag, size, fields) => PrintField(Field(tag, Chunk(size, PrintFields(fields))))
    case Other(f) => PrintField(f)
  }

  function PrintList(list: seq<Top>): (s: seq<byte>) {
    if list == [] then [] else PrintTop(list[0]) + PrintList(list[1..])
  }

  // ---------------------------------------------------------------- prefixes

  lemma {:induction false} Prefixes<T>(a: seq<T>, b: seq<T>, s: seq<T>)
    ensures a + b <= s <==> a <= s && b <= s[|a|..]
  {
    if a + b <= s {
      assert s[..|a|] == (a + b)[..|a|] == a;
      assert s[|a|..][..|b|] == s[|a|..|a| + |b|] == b;
    }
    if a <= s && b <= s[|a|..] {
      assert s[..|a| + |b|] == s[..|a|] + s[|a|..][..|b|];
    }
  }

  lemma {:induction false} SameLength<T>(a: seq<T>, b: seq<T>, s: seq<T>)
    requires a <= s && b <= s && |a| == |b|
    ensures a == b
  {
    assert a == s[..|a|] && b == s[..|b|];
  }

  // ---------------------------------------------------------------- the front of a byte string

  lemma {:induction false} NotLonger(v: seq<byte>, w: seq<byte>, s: seq<byte>)
    requires IsVarint(v) && v <= s && IsVarint(w) && w <= s
    ensures |w| <= |v|
  {
    var i := |v| - 1;
    assert s[i] == v[i];
    if i < |w| {
      assert s[i] == w[i];
    }
  }

  lemma {:induction false} OneVarint(v: seq<byte>, w: seq<byte>, s: seq<byte>)
    requires IsVarint(v) && v <= s && IsVarint(w) && w <= s
    ensures v == w
  {
    NotLonger(v, w, s);
    NotLonger(w, v, s);
    SameLength(v, w, s);
  }

  lemma {:induction false} OneValue(wt: int, x: Value, y: Value, s: seq<byte>)
    requires IsValue(wt, x) && PrintValue(x) <= s && IsValue(wt, y) && PrintValue(y) <= s
    ensures x == y
  {
    if x.Number? {
      OneVarint(x.digits, y.digits, s);
    } else if x.Fixed? {
      SameLength(x.bytes, y.bytes, s);
    } else {
      Prefixes(x.size, x.body, s);
      Prefixes(y.size, y.body, s);
      OneVarint(x.size, y.size, s);
      SameLength(x.body, y.body, s[|x.size|..]);
    }
  }

  lemma {:induction false} OneField(f: Field, g: Field, s: seq<byte>)
    requires IsField(f) && PrintField(f) <= s && IsField(g) && PrintField(g) <= s
    ensures f == g
  {
    Prefixes(f.tag, PrintValue(f.value), s);
    Prefixes(g.tag, PrintValue(g.value), s);
    OneVarint(f.tag, g.tag, s);
    OneValue(NumberOf(f.tag) % 8, f.value, g.value, s[|f.tag|..]);
  }

  /** The number, value or field that s begins with. */
  ghost function FrontVarint(s: seq<byte>): (r: Option<seq<byte>>) {
    if v: seq<byte> :| IsVarint(v) && v <= s then Some(v) else None
  }

  ghost function FrontValue(wt: int, s: seq<byte>): (r: Option<Value>) {
    if x: Value :| IsValue(wt, x) && PrintValue(x) <= s then Some(x) else None
  }

  ghost function FrontField(s: seq<byte>): (r: Option<Field>) {
    if f: Field :| IsField(f) && PrintField(f) <= s then Some(f) else None
  }

  lemma {:induction false} FrontVarintIff(s: seq<byte>, v: seq<byte>)
    ensures FrontVarint(s) == Some(v) <==> IsVarint(v) && v <= s
  {
    if IsVarint(v) && v <= s {
      OneVarint(v, FrontVarint(s).value, s);
    }
  }

  lemma {:induction false} FrontValueIff(wt: int, s: seq<byte>, x: Value)
    ensures FrontValue(wt, s) == Some(x) <==> IsValue(wt, x) && PrintValue(x) <= s
  {
    if IsValue(wt, x) && PrintValue(x) <= s {
      OneValue(wt, x, FrontValue(wt, s).value, s);
    }
  }

  lemma {:induction false} FrontFieldIff(s: seq<byte>, f: Field)
    ensures FrontField(s) == Some(f) <==> IsField(f) && PrintField(f) <= s
  {
    if IsField(f) && PrintField(f) <= s {
      OneField(f, FrontField(s).value, s);
    }
  }

  // ---------------------------------------------------------------- how a reader finds it

  lemma {:induction false} NumberAt(s: seq<byte>)
    ensures FrontValue(VARINT, s) == if FrontVarint(s).Some? then Some(Number(FrontVarint(s).value)) else None
  {
    if FrontVarint(s).Some? {
      FrontVarintIff(s, FrontVarint(s).value);
      FrontValueIff(VARINT, s, Number(FrontVarint(s).value));
    } else if FrontValue(VARINT, s).Some? {
      var x := FrontValue(VARINT, s).value;
      FrontValueIff(VARINT, s, x);
      FrontVarintIff(s, x.digits);
    }
  }

  lemma {:induction false} FixedAt(wt: int, s: seq<byte>)
    requires wt == I64 || wt == I32
    ensures
      var n := if wt == I64 then 8 else 4;
      FrontValue(wt, s) == if n <= |s| then Some(Fixed(s[..n])) else None
  {
    var n := if wt == I64 then 8 else 4;
    if FrontValue(wt, s).Some? {
      FrontValueIff(wt, s, FrontValue(wt, s).value);
    }
    if n <= |s| {
      FrontValueIff(wt, s, Fixed(s[..n]));
    }
  }

  lemma {:induction false} ChunkAt(s: seq<byte>)
    ensures
      match FrontVarint(s)
      case None => FrontValue(LEN, s) == None
      case Some(v) =>
        |v| <= |s| &&
        FrontValue(LEN, s) == if NumberOf(v) <= MAX_LENGTH && NumberOf(v) <= |s| - |v|
                              then Some(Chunk(v, s[|v|..][..NumberOf(v)])) else None
  {
    if FrontVarint(s).Some? {
      var v := FrontVarint(s).value;
      FrontVarintIff(s, v);
      if NumberOf(v) <= MAX_LENGTH && NumberOf(v) <= |s| - |v| {
        var body := s[|v|..][..NumberOf(v)];
        Prefixes(v, body, s);
        FrontValueIff(LEN, s, Chunk(v, body));
      }
    }
    if FrontValue(LEN, s).Some? {
      var x := FrontValue(LEN, s).value;
      FrontValueIff(LEN, s, x);
      Prefixes(x.size, x.body, s);
      FrontVarintIff(s, x.size);
    }
  }

  lemma {:induction false} FieldAt(s: seq<byte>)
    ensures
      match FrontVarint(s)
      case None => FrontField(s) == None
      case Some(tag) =>
        |tag| <= |s| &&
        FrontField(s) == match FrontValue(NumberOf(tag) % 8, s[|tag|..])
                         case None => None
                         case Some(x) => Some(Field(tag, x))
  {
    if FrontVarint(s).Some? {
      var tag := FrontVarint(s).value;
      FrontVarintIff(s, tag);
      var wt, rest := NumberOf(tag) % 8, s[|tag|..];
      if FrontValue(wt, rest).Some? {
        var x := FrontValue(wt, rest).value;
        FrontValueIff(wt, rest, x);
        Prefixes(tag, PrintValue(x), s);
        FrontFieldIff(s, Field(tag, x));
      }
    }
    if FrontField(s).Some? {
      var f := FrontField(s).value;
      FrontFieldIff(s, f);
      Prefixes(f.tag, PrintValue(f.value), s);
      FrontVarintIff(s, f.tag);
      FrontValueIff(NumberOf(f.tag) % 8, s[|f.tag|..], f.value);
    }
  }

  /** What a reader of the whole stream finds within the first p bytes is what a reader of only those finds. */
  lemma {:induction false} FieldWithin(s: seq<byte>, p: nat)
    requires p <= |s|
    ensures FrontField(s[..p]) ==
            if FrontField(s).Some? && |PrintField(FrontField(s).value)| <= p then FrontField(s) else None
  {
    if FrontField(s[..p]).Some? {
      var f := FrontField(s[..p]).value;
      FrontFieldIff(s[..p], f);
      FrontFieldIff(s, f);
    }
    if FrontField(s).Some? {
      var f := FrontField(s).value;
      FrontFieldIff(s, f);
      FrontFieldIff(s[..p], f);
    }
  }

  // ---------------------------------------------------------------- numbers

  function Power128(n: nat): (p: nat) {
    if n == 0 then 1 else 128 * Power128(n - 1)
  }

  lemma {:induction false} NumberSnoc(v: seq<byte>, b: byte)
    ensures NumberOf(v + [b]) == NumberOf(v) + Power128(|v|) * (b % 128)
  {
    if v == [] {
      assert v + [b] == [b] && [b][1..] == [];
    } else {
      NumberSnoc(v[1..], b);
      assert (v + [b])[1..] == v[1..] + [b];
      var p, q := Power128(|v| - 1), b % 128;
      assert 128 * (p * q) == 128 * p * q;
    }
  }

  lemma {:induction false} NumberBelow(v: seq<byte>)
    ensures NumberOf(v) < Power128(|v|)
  {
    if v != [] {
      NumberBelow(v[1..]);
    }
  }

  /** Every accepted number fits in 64 bits, so the reader's shifts lose nothing. */
  lemma {:induction false} VarintFits(v: seq<byte>)
    requires IsVarint(v)
    ensures NumberOf(v) < 0x1_0000_0000_0000_0000
  {
    var n := |v| - 1;
    var top: byte := v[n];
    assert v == v[..n] + [top];
    NumberSnoc(v[..n], top);
    NumberBelow(v[..n]);
    PowersBelow(n);
    assert top % 128 == top;
    Scales(Power128(n), top, if n == 9 then 1 else 127);
  }

  /** The shortest digits of a number, each but the last with its continuation bit. */
  function Digits(n: nat): (v: seq<byte>) {
    if n < 128 then [n] else [128 + n % 128] + Digits(n / 128)
  }

  /** With k digits, the last of which is below `top`. */
  lemma {:induction false} DigitsWithin(n: nat, k: nat, top: nat, bound: nat)
    requires k >= 1 && 1 <= top <= 128 && bound == top * Power128(k - 1) && n < bound
    ensures
      var v := Digits(n);
      && 1 <= |v| <= k && NumberOf(v) == n
      && (forall i | 0 <= i < |v| - 1 :: v[i] >= 128)
      && v[|v| - 1] < 128 && (|v| == k ==> v[|v| - 1] < top)
    decreases k
  {
    if n < 128 {
      assert Digits(n)[1..] == [];
      assert NumberOf([]) == 0;
    } else {
      var part := top * Power128(k - 2);
      Narrower(top, Power128(k - 2), bound, n);
      DigitsWithin(n / 128, k - 1, top, part);
      var v := Digits(n);
      assert v[1..] == Digits(n / 128);
      assert forall i | 0 < i < |v| :: v[i] == v[1..][i - 1];
    }
  }

  lemma {:induction false} Narrower(top: nat, p: nat, bound: nat, n: nat)
    requires bound == top * (128 * p) && n < bound
    ensures n / 128 < top * p
  {
    assert bound == 128 * (top * p);
  }

  /** And every number of 64 bits is accepted. */
  lemma {:induction false} EveryNumberHasVarint(n: nat)
    requires n < 0x1_0000_0000_0000_0000
    ensures IsVarint(Digits(n)) && NumberOf(Digits(n)) == n
  {
    PowerNine();
    DigitsWithin(n, 10, 2, 0x1_0000_0000_0000_0000);
  }

  lemma {:induction false} PowerNine()
    ensures Power128(9) == 0x8000_0000_0000_0000
  {
    assert Power128(3) == 0x20_0000;
    assert Power128(6) == 0x400_0000_0000 by {
      assert Power128(4) == 128 * Power128(3);
    }
    assert Power128(7) == 128 * Power128(6);
    assert Power128(8) == 128 * Power128(7);
  }

  lemma {:induction false} Scales(p: nat, x: int, y: int)
    requires x <= y
    ensures p * x <= p * y
  {
  }

  lemma {:induction false} PowersBelow(n: nat)
    requires n <= 9
    ensures Power128(n) <= 0x8000_0000_0000_0000
    ensures n < 9 ==> Power128(n) <= 0x100_0000_0000_0000
  {
    assert Power128(3) == 0x20_0000;
    assert Power128(6) == 0x400_0000_0000 by {
      assert Power128(5) == 128 * Power128(4) && Power128(4) == 128 * Power128(3);
    }
    assert Power128(9) == 128 * Power128(8) && Power128(8) == 128 * Power128(7) && Power128(7) == 128 * Power128(6);
  }

  // ---------------------------------------------------------------- whole byte strings

  lemma {:induction false} FieldIsPrefix(f: Field, rest: seq<byte>)
    requires IsField(f)
    ensures FrontField(PrintField(f) + rest) == Some(f) && |PrintField(f)| > 0
  {
    FrontFieldIff(PrintField(f) + rest, f);
  }

  lemma {:induction false} OneFields(fs: seq<Field>, gs: seq<Field>)
    requires AreFields(fs) && AreFields(gs) && PrintFields(fs) == PrintFields(gs)
    ensures fs == gs
  {
    if fs != [] {
      FieldIsPrefix(fs[0], PrintFields(fs[1..]));
    }
    if gs != [] {
      FieldIsPrefix(gs[0], PrintFields(gs[1..]));
    }
    if fs != [] && gs != [] {
      var s, n := PrintFields(fs), |PrintField(fs[0])|;
      assert s[n..] == PrintFields(fs[1..]) && s[n..] == PrintFields(gs[1..]);
      OneFields(fs[1..], gs[1..]);
      assert fs == [fs[0]] + fs[1..] && gs == [gs[0]] + gs[1..];
    }
  }

  /** The field an element of the list is printed as. */
  function FieldOf(t: Top): (f: Field) {
    match t
    case Entry(tag, size, fields) => Field(tag, Chunk(size, PrintFields(fields)))
    case Other(f) => f
  }

  lemma {:induction false} OneTop(t: Top, u: Top)
    requires IsTop(t) && IsTop(u) && FieldOf(t) == FieldOf(u)
    ensures t == u
  {
    if t.Entry? {
      OneFields(t.fields, u.fields);
    }
  }

  lemma {:induction false} TopIsFront(list: seq<Top>)
    requires IsList(list) && list != []
    ensures
      var f := FieldOf(list[0]);
      && IsField(f) && PrintTop(list[0]) == PrintField(f) && 0 < |PrintField(f)| <= |PrintList(list)|
      && FrontField(PrintList(list)) == Some(f)
      && PrintList(list)[|PrintField(f)|..] == PrintList(list[1..])
  {
    FieldIsPrefix(FieldOf(list[0]), PrintList(list[1..]));
  }

  lemma {:induction false} EmptyList(list: seq<Top>)
    requires IsList(list)
    ensures PrintList(list) == [] <==> list == []
  {
    if list != [] {
      TopIsFront(list);
    }
  }

  lemma {:induction false} SameFront(list: seq<Top>, other: seq<Top>)
    requires IsList(list) && IsList(other) && PrintList(list) == PrintList(other) && list != [] && other != []
    ensures list[0] == other[0] && PrintList(list[1..]) == PrintList(other[1..])
  {
    TopIsFront(list);
    TopIsFront(other);
    OneTop(list[0], other[0]);
  }

  /** The grammar is unambiguous. */
  lemma {:induction false} OneList(list: seq<Top>, other: seq<Top>)
    requires IsList(list) && IsList(other) && PrintList(list) == PrintList(other)
    ensures list == other
  {
    EmptyList(list);
    EmptyList(other);
    if list != [] {
      SameFront(list, other);
      OneList(list[1..], other[1..]);
      assert list == [list[0]] + list[1..] && other == [other[0]] + other[1..];
    }
  }

  /** The fields, or the list, that a byte string is the printed form of. */
  ghost function FieldsOf(s: seq<byte>): (r: Option<seq<Field>>) {
    if fs: seq<Field> :| AreFields(fs) && PrintFields(fs) == s then Some(fs) else None
  }

  ghost function ListOf(s: seq<byte>): (r: Option<seq<Top>>) {
    if list: seq<Top> :| IsList(list) && PrintList(list) == s then Some(list) else None
  }

  lemma {:induction false} FieldsOfIff(s: seq<byte>, fs: seq<Field>)
    ensures FieldsOf(s) == Some(fs) <==> AreFields(fs) && PrintFields(fs) == s
  {
    if AreFields(fs) && PrintFields(fs) == s {
      OneFields(fs, FieldsOf(s).value);
    }
  }

  lemma {:induction false} ListOfIff(s: seq<byte>, list: seq<Top>)
    ensures ListOf(s) == Some(list) <==> IsList(list) && PrintList(list) == s
  {
    if IsList(list) && PrintList(list) == s {
      OneList(list, ListOf(s).value);
    }
  }

  predicate Acceptable(f: Field) {
    IsCode(f) ==> |f.value.body| <= MAX_CODE
  }

  /** The element of the list that a field is, if it is one. */
  ghost function TopOf(f: Field): (r: Option<Top>) {
    if !IsOne(f.tag) then Some(Other(f))
    else if !f.value.Chunk? || FieldsOf(f.value.body).None? then None
    else Some(Entry(f.tag, f.value.size, FieldsOf(f.value.body).value))
  }

  lemma {:induction false} TopOfIff(f: Field, t: Top)
    requires IsField(f)
    ensures TopOf(f) == Some(t) <==> IsTop(t) && FieldOf(t) == f
  {
    if t.Entry? {
      FieldsOfIff(PrintFields(t.fields), t.fields);
    }
  }
}
