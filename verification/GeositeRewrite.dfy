/**
  What rewriting the codes in place does to the list (web/service/geosite_normalize.go:26-53):
  the new bytes are the printed form of the same list with its codes in upper case.
 */
module GeositeRewrite {
  import opened Bytes
  import opened Collections
  import opened GeositeWire
  import opened GeositeNormalize

  // ---------------------------------------------------------------- upper case

  function UpperByte(b: byte): (c: byte) {
    if IsLower(b) then b - ('a' as int - 'A' as int) else b
  }

  function Upper(s: seq<byte>): (r: seq<byte>)
    ensures |r| == |s|
  {
    if s == [] then [] else [UpperByte(s[0])] + Upper(s[1..])
  }

  method AsciiUpper(b: seq<byte>) returns (r: seq<byte>)
    ensures r == Upper(b) && AllCapitalised(b, r)
  {
    UpperCapitalises(b);
    r := [];
    var rest := b;
    while rest != []
      invariant Upper(b) == r + Upper(rest)
      decreases |rest|
    {
      Assoc(r, [UpperByte(rest[0])], Upper(rest[1..]));
      r := r + [UpperByte(rest[0])];
      rest := rest[1..];
    }
  }

  lemma {:induction false} UpperAt(s: seq<byte>, i: nat)
    requires i < |s|
    ensures Upper(s)[i] == UpperByte(s[i])
  {
    if i > 0 {
      UpperAt(s[1..], i - 1);
    }
  }

  lemma {:induction false} UpperHasNoLower(s: seq<byte>)
    ensures !HasLower(Upper(s))
  {
    if s != [] {
      UpperHasNoLower(s[1..]);
      assert Upper(s)[1..] == Upper(s[1..]);
    }
  }

  lemma {:induction false} UpperOfNoLower(s: seq<byte>)
    requires !HasLower(s)
    ensures Upper(s) == s
  {
    if s != [] {
      UpperOfNoLower(s[1..]);
    }
  }

  const LOWERCASE := "abcdefghijklmnopqrstuvwxyz"
  const CAPITALS := "ABCDEFGHIJKLMNOPQRSTUVWXYZ"

  /** The letter's capital if `was` is one of the 26 lowercase letters, and the same byte if it is not. */
  ghost predicate Capitalised(was: byte, now: byte) {
    if exists k :: 0 <= k < 26 && LOWERCASE[k] as int == was
    then exists k :: 0 <= k < 26 && LOWERCASE[k] as int == was && CAPITALS[k] as int == now
    else now == was
  }

  ghost predicate AllCapitalised(was: seq<byte>, now: seq<byte>) {
    |now| == |was| && forall i | 0 <= i < |was| :: Capitalised(was[i], now[i])
  }

  lemma {:induction false} Alphabet(k: nat)
    requires k < 26
    ensures LOWERCASE[k] as int == 97 + k && CAPITALS[k] as int == 65 + k
  {
  }

  lemma {:induction false} UpperByteCapitalises(b: byte)
    ensures Capitalised(b, UpperByte(b))
  {
    forall k | 0 <= k < 26
      ensures LOWERCASE[k] as int == 97 + k && CAPITALS[k] as int == 65 + k
    {
      Alphabet(k);
    }
    if 97 <= b < 123 {
      assert LOWERCASE[b - 97] as int == b && CAPITALS[b - 97] as int == b - 32;
    }
  }

  /** Upper exchanges every lowercase letter for its capital and nothing else. */
  lemma {:induction false} UpperCapitalises(s: seq<byte>)
    ensures AllCapitalised(s, Upper(s))
  {
    forall i | 0 <= i < |s|
      ensures Capitalised(s[i], Upper(s)[i])
    {
      UpperAt(s, i);
      UpperByteCapitalises(s[i]);
    }
  }

  function UpperField(f: Field): (g: Field) {
    if IsCode(f) then Field(f.tag, Chunk(f.value.size, Upper(f.value.body))) else f
  }

  function UpperFields(fs: seq<Field>): (gs: seq<Field>) {
    if fs == [] then [] else [UpperField(fs[0])] + UpperFields(fs[1..])
  }

  function UpperTop(t: Top): (u: Top) {
    if t.Entry? then Entry(t.tag, t.size, UpperFields(t.fields)) else t
  }

  function UpperList(list: seq<Top>): (r: seq<Top>) {
    if list == [] then [] else [UpperTop(list[0])] + UpperList(list[1..])
  }

  lemma {:induction false} UpperFieldsKeep(fs: seq<Field>)
    ensures |PrintFields(UpperFields(fs))| == |PrintFields(fs)|
    ensures AreFields(fs) ==> AreFields(UpperFields(fs))
  {
    if fs != [] {
      UpperFieldsKeep(fs[1..]);
      assert UpperFields(fs)[1..] == UpperFields(fs[1..]);
    }
  }

  lemma {:induction false} UpperTopKeeps(t: Top)
    ensures |PrintTop(UpperTop(t))| == |PrintTop(t)|
    ensures IsTop(t) ==> IsTop(UpperTop(t))
  {
    if t.Entry? {
      UpperFieldsKeep(t.fields);
    }
  }

  /** The list with its codes in upper case is well formed and as long as before. */
  lemma {:induction false} UpperListKeeps(list: seq<Top>)
    ensures |PrintList(UpperList(list))| == |PrintList(list)|
    ensures IsList(list) ==> IsList(UpperList(list))
  {
    if list != [] {
      UpperTopKeeps(list[0]);
      UpperListKeeps(list[1..]);
      assert UpperList(list)[1..] == UpperList(list[1..]);
    }
  }

  /** The tag of field number 1 with wire type 2 is the number 10: a code keeps everything but its lowercase letters. */
  ghost predicate Recoded(f: Field, g: Field) {
    if NumberOf(f.tag) == 10 && f.value.Chunk?
    then g.tag == f.tag && g.value.Chunk? && g.value.size == f.value.size && AllCapitalised(f.value.body, g.value.body)
    else g == f
  }

  ghost predicate RecodedTop(t: Top, u: Top) {
    match t
    case Entry(tag, size, fields) =>
      && NumberOf(tag) == 10
      && u.Entry? && u.tag == tag && u.size == size && |u.fields| == |fields|
      && forall i | 0 <= i < |fields| :: Recoded(fields[i], u.fields[i])
    case Other(f) => NumberOf(f.tag) != 10 && u == t
  }

  /** The same list, but for the lowercase letters of the codes of its entries. */
  ghost predicate RecodedList(list: seq<Top>, new_: seq<Top>) {
    |new_| == |list| && forall i | 0 <= i < |list| :: RecodedTop(list[i], new_[i])
  }

  lemma {:induction false} UpperFieldsRecode(fs: seq<Field>, i: nat)
    requires i < |fs|
    ensures |UpperFields(fs)| == |fs| && Recoded(fs[i], UpperFields(fs)[i])
    decreases |fs|
  {
    if i > 0 {
      UpperFieldsRecode(fs[1..], i - 1);
    } else {
      UpperFieldsLength(fs);
      if IsCode(fs[0]) {
        UpperCapitalises(fs[0].value.body);
      }
    }
  }

  lemma {:induction false} UpperFieldsLength(fs: seq<Field>)
    ensures |UpperFields(fs)| == |fs|
  {
    if fs != [] {
      UpperFieldsLength(fs[1..]);
    }
  }

  lemma {:induction false} UpperTopRecodes(t: Top)
    requires IsTop(t)
    ensures RecodedTop(t, UpperTop(t))
  {
    if t.Entry? {
      UpperFieldsLength(t.fields);
      forall i | 0 <= i < |t.fields|
        ensures Recoded(t.fields[i], UpperFields(t.fields)[i])
      {
        UpperFieldsRecode(t.fields, i);
      }
    }
  }

  /** The upper-case list is the old one with exactly the lowercase letters of its codes exchanged for their capitals. */
  lemma {:induction false} UpperListRecodes(list: seq<Top>)
    requires IsList(list)
    ensures RecodedList(list, UpperList(list))
  {
    if list != [] {
      UpperTopRecodes(list[0]);
      UpperListRecodes(list[1..]);
      var up := UpperList(list);
      assert up == [UpperTop(list[0])] + UpperList(list[1..]);
      forall i | 0 <= i < |list|
        ensures RecodedTop(list[i], up[i])
      {
        if i > 0 {
          assert list[i] == list[1..][i - 1] && up[i] == UpperList(list[1..])[i - 1];
        }
      }
    }
  }

  // ---------------------------------------------------------------- nothing left to do

  lemma {:induction false} UpperFieldHasNone(f: Field, at: nat)
    ensures OwnCodes(UpperField(f), at) == []
  {
    if IsCode(f) {
      UpperHasNoLower(f.value.body);
    }
  }

  lemma {:induction false} UpperFieldsHaveNone(fs: seq<Field>, at: nat)
    ensures FieldCodes(UpperFields(fs), at) == []
  {
    if fs != [] {
      UpperFieldHasNone(fs[0], at);
      UpperFieldsHaveNone(fs[1..], at + |PrintField(UpperField(fs[0]))|);
      assert UpperFields(fs)[1..] == UpperFields(fs[1..]);
    }
  }

  /** A second walk finds no code to rewrite. */
  lemma {:induction false} UpperListHasNone(list: seq<Top>, at: nat)
    ensures ListCodes(UpperList(list), at) == []
  {
    if list != [] {
      UpperTopHasNone(list[0], at);
      var up := UpperList(list);
      var next := at + |PrintTop(up[0])|;
      UpperListHasNone(list[1..], next);
      assert up[1..] == UpperList(list[1..]);
      ListCodesCons(up, at, next);
    }
  }

  lemma {:induction false} UpperTopHasNone(t: Top, at: nat)
    ensures TopCodes(UpperTop(t), at) == []
  {
    if t.Entry? {
      var here := at + |t.tag| + |t.size|;
      UpperFieldsHaveNone(t.fields, here);
      EntryCodes(UpperTop(t), at, here);
    }
  }

  // ---------------------------------------------------------------- writing at an offset

  /** The data with `b` written over it at `offset`; a write outside it does not occur. */
  function Overwrite(data: seq<byte>, offset: nat, b: seq<byte>): (r: seq<byte>)
    ensures |r| == |data|
  {
    if offset + |b| <= |data| then data[..offset] + b + data[offset + |b|..] else data
  }

  function Patch(data: seq<byte>, codes: seq<Code>): (r: seq<byte>)
    ensures |r| == |data|
    decreases |codes|
  {
    if codes == [] then data else Patch(Overwrite(data, codes[0].offset, Upper(codes[0].code)), codes[1..])
  }

  lemma {:induction false} PatchAppend(data: seq<byte>, a: seq<Code>, b: seq<Code>)
    ensures Patch(data, a + b) == Patch(Patch(data, a), b)
    decreases |a|
  {
    if a == [] {
      assert a + b == b;
    } else {
      PatchAppend(Overwrite(data, a[0].offset, Upper(a[0].code)), a[1..], b);
      assert (a + b)[1..] == a[1..] + b;
    }
  }

  lemma {:induction false} PatchStep(data: seq<byte>, codes: seq<Code>, k: nat)
    requires k < |codes|
    ensures Patch(data, codes[k..]) == Patch(Overwrite(data, codes[k].offset, Upper(codes[k].code)), codes[k + 1..])
  {
    assert codes[k..][1..] == codes[k + 1..];
  }

  lemma {:induction false} OverwriteMiddle(a: seq<byte>, b: seq<byte>, c: seq<byte>, new_: seq<byte>, offset: nat)
    requires offset == |a| && |new_| == |b|
    ensures Overwrite(a + b + c, offset, new_) == a + new_ + c
  {
    var data := a + b + c;
    assert data[..offset] == a;
    assert data[offset + |b|..] == c;
  }

  lemma {:induction false} Regroup(a: seq<byte>, b: seq<byte>, c: seq<byte>, d: seq<byte>, e: seq<byte>)
    ensures a + (b + (c + d)) + e == (a + b + c) + d + e
  {
    assert a + (b + (c + d)) == (a + b + c) + d;
  }

  lemma {:induction false} PatchOne(data: seq<byte>, c: Code)
    ensures Patch(data, [c]) == Overwrite(data, c.offset, Upper(c.code))
  {
    assert [c][1..] == [];
  }

  lemma {:induction false} PatchOwn(before: seq<byte>, f: Field, after: seq<byte>, at: nat)
    requires at == |before|
    ensures Patch(before + PrintField(f) + after, OwnCodes(f, at)) == before + PrintField(UpperField(f)) + after
  {
    if IsCode(f) {
      var tag, size, body := f.tag, f.value.size, f.value.body;
      if HasLower(body) {
        var offset := at + |tag| + |size|;
        Regroup(before, tag, size, body, after);
        Regroup(before, tag, size, Upper(body), after);
        OverwriteMiddle(before + tag + size, body, after, Upper(body), offset);
        PatchOne(before + PrintField(f) + after, Code(offset, body));
        assert OwnCodes(f, at) == [Code(offset, body)];
      } else {
        UpperOfNoLower(body);
      }
    }
  }

  lemma {:induction false} PatchFields(before: seq<byte>, fs: seq<Field>, after: seq<byte>, at: nat)
    requires at == |before|
    ensures Patch(before + PrintFields(fs) + after, FieldCodes(fs, at)) == before + PrintFields(UpperFields(fs)) + after
    decreases |fs|
  {
    if fs != [] {
      var f, rest := fs[0], fs[1..];
      var next := at + |PrintField(f)|;
      var head, up := PrintField(f), PrintField(UpperField(f));
      var tail, upTail := PrintFields(rest), PrintFields(UpperFields(rest));
      FieldCodesCons(fs, at, next);
      PatchAppend(before + (head + tail) + after, OwnCodes(f, at), FieldCodes(rest, next));
      Shift(before, head, tail, after);
      PatchOwn(before, f, tail + after, at);
      Shift(before, up, tail, after);
      PatchFields(before + up, rest, after, next);
      Assoc(before + up, tail, after);
      Shift(before, up, upTail, after);
      Assoc(before + up, upTail, after);
      assert UpperFields(fs)[1..] == UpperFields(rest);
    }
  }

  lemma {:induction false} Shift(a: seq<byte>, b: seq<byte>, c: seq<byte>, d: seq<byte>)
    ensures a + (b + c) + d == a + b + (c + d)
  {
  }

  lemma {:induction false} PatchTop(before: seq<byte>, t: Top, after: seq<byte>, at: nat)
    requires at == |before|
    ensures Patch(before + PrintTop(t) + after, TopCodes(t, at)) == before + PrintTop(UpperTop(t)) + after
  {
    if t.Entry? {
      var here := at + |t.tag| + |t.size|;
      EntryCodes(t, at, here);
      Regroup(before, t.tag, t.size, PrintFields(t.fields), after);
      Regroup(before, t.tag, t.size, PrintFields(UpperFields(t.fields)), after);
      PatchFields(before + t.tag + t.size, t.fields, after, here);
    }
  }

  lemma {:induction false} PatchTops(before: seq<byte>, list: seq<Top>, at: nat)
    requires at == |before|
    ensures Patch(before + PrintList(list), ListCodes(list, at)) == before + PrintList(UpperList(list))
    decreases |list|
  {
    if list != [] {
      var t, rest := list[0], list[1..];
      var next := at + |PrintTop(t)|;
      var up := PrintTop(UpperTop(t));
      ListCodesCons(list, at, next);
      UpperTopKeeps(t);
      PatchAppend(before + PrintList(list), TopCodes(t, at), ListCodes(rest, next));
      Assoc(before, PrintTop(t), PrintList(rest));
      PatchTop(before, t, PrintList(rest), at);
      PatchTops(before + up, rest, next);
      Assoc(before, up, PrintList(UpperList(rest)));
      assert UpperList(list)[1..] == UpperList(rest);
    }
  }

  /** Writing every code in upper case where it was gives the list with upper-case codes. */
  lemma {:induction false} PatchIsUpper(list: seq<Top>)
    ensures Patch(PrintList(list), ListCodes(list, 0)) == PrintList(UpperList(list))
  {
    PatchTops([], list, 0);
    AfterNothing(PrintList(list));
    AfterNothing(PrintList(UpperList(list)));
  }

  lemma {:induction false} AfterNothing(s: seq<byte>)
    ensures [] + s == s
  {
  }

  // ---------------------------------------------------------------- where the codes are

  /** The code's bytes are at its offset. */
  predicate Holds(data: seq<byte>, c: Code) {
    c.offset + |c.code| <= |data| && data[c.offset..c.offset + |c.code|] == c.code
  }

  predicate InPlace(data: seq<byte>, codes: seq<Code>) {
    codes == [] || (Holds(data, codes[0]) && InPlace(data, codes[1..]))
  }

  lemma {:induction false} InPlaceAppend(data: seq<byte>, a: seq<Code>, b: seq<Code>)
    requires InPlace(data, a) && InPlace(data, b)
    ensures InPlace(data, a + b)
    decreases |a|
  {
    if a == [] {
      assert a + b == b;
    } else {
      InPlaceAppend(data, a[1..], b);
      assert (a + b)[1..] == a[1..] + b;
    }
  }

  lemma {:induction false} MiddleHolds(a: seq<byte>, b: seq<byte>, c: seq<byte>, code: Code)
    requires code == Code(|a|, b)
    ensures Holds(a + b + c, code)
  {
    assert (a + b + c)[|a|..|a| + |b|] == b;
  }

  lemma {:induction false} OwnInPlace(before: seq<byte>, f: Field, after: seq<byte>, at: nat)
    requires at == |before|
    ensures InPlace(before + PrintField(f) + after, OwnCodes(f, at))
  {
    if IsCode(f) && HasLower(f.value.body) {
      var tag, size, body := f.tag, f.value.size, f.value.body;
      var code := Code(at + |tag| + |size|, body);
      Regroup(before, tag, size, body, after);
      MiddleHolds(before + tag + size, body, after, code);
      assert OwnCodes(f, at) == [code] && [code][1..] == [];
    }
  }

  lemma {:induction false} FieldsInPlace(before: seq<byte>, fs: seq<Field>, after: seq<byte>, at: nat)
    requires at == |before|
    ensures InPlace(before + PrintFields(fs) + after, FieldCodes(fs, at))
    decreases |fs|
  {
    if fs != [] {
      var head, tail := PrintField(fs[0]), PrintFields(fs[1..]);
      var next := at + |head|;
      Shift(before, head, tail, after);
      OwnInPlace(before, fs[0], tail + after, at);
      FieldsInPlace(before + head, fs[1..], after, next);
      Assoc(before + head, tail, after);
      FieldCodesCons(fs, at, next);
      InPlaceAppend(before + PrintFields(fs) + after, OwnCodes(fs[0], at), FieldCodes(fs[1..], next));
    }
  }

  lemma {:induction false} TopInPlace(before: seq<byte>, t: Top, after: seq<byte>, at: nat)
    requires at == |before|
    ensures InPlace(before + PrintTop(t) + after, TopCodes(t, at))
  {
    if t.Entry? {
      var here := at + |t.tag| + |t.size|;
      EntryCodes(t, at, here);
      Regroup(before, t.tag, t.size, PrintFields(t.fields), after);
      FieldsInPlace(before + t.tag + t.size, t.fields, after, here);
    }
  }

  lemma {:induction false} ListInPlace(before: seq<byte>, list: seq<Top>, at: nat)
    requires at == |before|
    ensures InPlace(before + PrintList(list), ListCodes(list, at))
    decreases |list|
  {
    if list != [] {
      var next := at + |PrintTop(list[0])|;
      Assoc(before, PrintTop(list[0]), PrintList(list[1..]));
      TopInPlace(before, list[0], PrintList(list[1..]), at);
      ListInPlace(before + PrintTop(list[0]), list[1..], next);
      ListCodesCons(list, at, next);
      InPlaceAppend(before + PrintList(list), TopCodes(list[0], at), ListCodes(list[1..], next));
    }
  }

  // ---------------------------------------------------------------- the file

  /** Position i is inside one of the codes. */
  predicate Covers(codes: seq<Code>, i: nat) {
    codes != [] && (codes[0].offset <= i < codes[0].offset + |codes[0].code| || Covers(codes[1..], i))
  }

  /** Every byte is the old one or, inside a code, its upper case. */
  ghost predicate Touched(was: seq<byte>, now: seq<byte>, codes: seq<Code>) {
    |now| == |was| &&
    forall i | 0 <= i < |was| :: now[i] == was[i] || (Capitalised(was[i], now[i]) && Covers(codes, i))
  }

  lemma {:induction false} CoversSuffix(codes: seq<Code>, k: nat, i: nat)
    requires k < |codes| && codes[k].offset <= i < codes[k].offset + |codes[k].code|
    ensures Covers(codes, i)
  {
    if k > 0 {
      CoversSuffix(codes[1..], k - 1, i);
    }
  }

  lemma {:induction false} InPlaceAt(data: seq<byte>, codes: seq<Code>, k: nat)
    requires InPlace(data, codes) && k < |codes|
    ensures Holds(data, codes[k])
  {
    if k > 0 {
      InPlaceAt(data, codes[1..], k - 1);
    }
  }

  /** However much of a code is written, only its letters change. */
  lemma {:induction false} WriteTouches(was: seq<byte>, now: seq<byte>, codes: seq<Code>, k: nat, n: nat)
    requires Touched(was, now, codes) && InPlace(was, codes) && k < |codes| && n <= |codes[k].code|
    ensures Touched(was, Overwrite(now, codes[k].offset, Upper(codes[k].code)[..n]), codes)
  {
    var c := codes[k];
    InPlaceAt(was, codes, k);
    var new_ := Overwrite(now, c.offset, Upper(c.code)[..n]);
    forall i | 0 <= i < |was|
      ensures new_[i] == was[i] || (Capitalised(was[i], new_[i]) && Covers(codes, i))
    {
      if c.offset <= i < c.offset + n {
        UpperByteCapitalises(was[i]);
        UpperAt(c.code, i - c.offset);
        assert was[i] == was[c.offset..c.offset + |c.code|][i - c.offset];
        CoversSuffix(codes, k, i);
      } else {
        assert new_[i] == now[i];
      }
    }
  }

  /** How a write ends: completely, or with an error after some of its bytes. */
  datatype WriteAnswer = Written | Failed(n: nat)

  /** The opened file, and how often it was written. */
  class GeositeFile {
    var data: seq<byte>
    var writes: nat

    constructor (data: seq<byte>)
      ensures this.data == data && writes == 0
    {
      this.data := data;
      writes := 0;
    }

    method WriteAt(b: seq<byte>, offset: nat, answer: WriteAnswer) returns (ok: bool, ghost n: nat)
      modifies this
      ensures ok == answer.Written? && n <= |b| && (ok ==> n == |b|)
      ensures data == Overwrite(old(data), offset, b[..n]) && writes == old(writes) + 1
    {
      ok := answer.Written?;
      var part := if ok || answer.n > |b| then b else b[..answer.n];
      n := |part|;
      assert part == b[..n];
      data := Overwrite(data, offset, part);
      writes := writes + 1;
    }

    /**
      NormalizeGeositeCountryCodes; `answers` says how each write ends and `synced` how the
      sync does. A malformed file is left alone; the run is complete exactly if nothing
      fails, and leaves the list with upper-case codes; a run broken off has changed only
      letters inside codes; and with no code to change nothing is written.
     */
    method Normalize(answers: int -> WriteAnswer, synced: bool) returns (r: Result<bool>)
      modifies this
      ensures r.Err? <==> ListOf(old(data)).None?
      ensures r.Err? ==> data == old(data) && writes == old(writes)
      ensures ListOf(old(data)).Some? ==>
                var list := ListOf(old(data)).value;
                var codes := ListCodes(list, 0);
                && (r == Ok(true) <==> codes == [] || (synced && forall k | 0 <= k < |codes| :: answers(k).Written?))
                && (r == Ok(true) ==> data == PrintList(UpperList(list)))
                && (r == Ok(true) ==> ListOf(data).Some? && RecodedList(list, ListOf(data).value))
                && Touched(old(data), data, codes)
                && (codes == [] ==> data == old(data) && writes == old(writes))
    {
      var found := WalkList(data);
      if found.Err? {
        return Err(found.error);
      }
      ghost var list := ListOf(data).value;
      ListOfIff(data, list);
      PatchIsUpper(list);
      UpperListRecodes(list);
      NormalizedIsStable(data, list);
      ListInPlace([], list, 0);
      AfterNothing(data);
      if found.value.codes == [] {
        return Ok(true);
      }
      var done := WriteCodes(found.value.codes, answers);
      return Ok(done && synced);
    }

    /** The write of one code. */
    method WriteCode(ghost was: seq<byte>, codes: seq<Code>, k: nat, answer: WriteAnswer) returns (ok: bool)
      requires k < |codes| && InPlace(was, codes) && Touched(was, data, codes)
      modifies this
      ensures ok == answer.Written? && Touched(was, data, codes)
      ensures ok ==> data == Overwrite(old(data), codes[k].offset, Upper(codes[k].code))
    {
      var up := AsciiUpper(codes[k].code);
      ghost var n;
      ok, n := WriteAt(up, codes[k].offset, answer);
      WriteTouches(was, old(data), codes, k, n);
      assert ok ==> up[..n] == up;
    }

    /** The loop of lines 42-46. */
    method WriteCodes(codes: seq<Code>, answers: int -> WriteAnswer) returns (ok: bool)
      requires InPlace(data, codes)
      modifies this
      ensures ok <==> forall k | 0 <= k < |codes| :: answers(k).Written?
      ensures ok ==> data == Patch(old(data), codes)
      ensures Touched(old(data), data, codes)
    {
      var k := 0;
      while k < |codes|
        invariant 0 <= k <= |codes| && forall j | 0 <= j < k :: answers(j).Written?
        invariant Patch(data, codes[k..]) == Patch(old(data), codes)
        invariant Touched(old(data), data, codes)
      {
        PatchStep(data, codes, k);
        var written := WriteCode(old(data), codes, k, answers(k));
        if !written {
          return false;
        }
        k := k + 1;
      }
      return true;
    }
  }

  /** What a complete run leaves is again a list, and a second run writes nothing. */
  lemma {:induction false} NormalizedIsStable(file: seq<byte>, list: seq<Top>)
    requires IsList(list) && PrintList(list) == file
    ensures ListOf(PrintList(UpperList(list))) == Some(UpperList(list))
    ensures |PrintList(UpperList(list))| == |file|
    ensures ListCodes(UpperList(list), 0) == []
    ensures UpperList(UpperList(list)) == UpperList(list)
  {
    UpperListKeeps(list);
    ListOfIff(PrintList(UpperList(list)), UpperList(list));
    UpperListHasNone(list, 0);
    UpperListTwice(list);
  }

  lemma {:induction false} UpperFieldsTwice(fs: seq<Field>)
    ensures UpperFields(UpperFields(fs)) == UpperFields(fs)
  {
    if fs != [] {
      UpperFieldsTwice(fs[1..]);
      assert UpperFields(fs)[1..] == UpperFields(fs[1..]);
      if IsCode(fs[0]) {
        UpperHasNoLower(fs[0].value.body);
        UpperOfNoLower(Upper(fs[0].value.body));
      }
    }
  }

  lemma {:induction false} UpperListTwice(list: seq<Top>)
    ensures UpperList(UpperList(list)) == UpperList(list)
  {
    if list != [] {
      UpperListTwice(list[1..]);
      assert UpperList(list)[1..] == UpperList(list[1..]);
      if list[0].Entry? {
        UpperFieldsTwice(list[0].fields);
      }
    }
  }
}
