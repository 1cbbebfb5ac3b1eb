/**
  The stream walker and the in-place rewrite of web/service/geosite_normalize.go,
  proved against the grammar of GeositeWire.
 */
module GeositeNormalize {
  import opened Bytes
  import opened Collections
  import opened GeositeWire

  datatype WireError = Eof | UnexpectedEof | Overflow | BadLength | BadType | PastEnd

  datatype Result<T> = Ok(value: T) | Err(error: WireError)

  function Unexpected(e: WireError): (r: WireError) {
    if e.Eof? then UnexpectedEof else e
  }

  /** Ten continued digits, an end after i of them, or a tenth digit above 1: there is no number. */
  lemma {:induction false} NoVarint(s: seq<byte>, i: nat)
    requires i <= |s| && forall j | 0 <= j < i :: s[j] >= 128
    requires i == |s| || i == 10 || (i == 9 && s[9] > 1)
    ensures FrontVarint(s) == None
  {
    if FrontVarint(s).Some? {
      var v := FrontVarint(s).value;
      FrontVarintIff(s, v);
      LastDigit(s, v);
    }
  }

  lemma {:induction false} LastDigit(s: seq<byte>, v: seq<byte>)
    requires v <= s && v != []
    ensures s[|v| - 1] == v[|v| - 1]
  {
  }

  const STEP: int := 0x4000_0000

  // ---------------------------------------------------------------- the reader

  /** Reads wire data and counts the bytes used; `tagStart` is where the last number began. */
  class WireReader {
    const file: seq<byte>
    var n: nat
    var tagStart: nat

    constructor (file: seq<byte>)
      ensures this.file == file && n == 0 && Valid()
    {
      this.file := file;
      n, tagStart := 0, 0;
    }

    predicate Valid()
      reads this
    {
      n <= |file|
    }

    function Rest(): (s: seq<byte>)
      requires Valid()
      reads this
    {
      file[n..]
    }

    method ReadByte() returns (r: Result<byte>)
      requires Valid()
      modifies this`n
      ensures Valid()
      ensures old(n) == |file| ==> r == Err(Eof) && n == old(n)
      ensures old(n) < |file| ==> r == Ok(file[old(n)]) && n == old(n) + 1
    {
      if n == |file| {
        return Err(Eof);
      }
      r := Ok(file[n]);
      n := n + 1;
    }

    /** encoding/binary's ReadUvarint followed by the end-of-file correction of lines 150-157. */
    method Uvarint() returns (r: Result<nat>)
      requires Valid()
      modifies this
      ensures Valid() && tagStart == old(n) <= n
      ensures
        match FrontVarint(old(Rest()))
        case Some(v) => r == Ok(NumberOf(v)) && n == old(n) + |v|
        case None => r.Err? && (r.error.Eof? <==> tagStart == |file|)
    {
      tagStart := n;
      ghost var s := Rest();
      var x, i, scale := 0, 0, 1;
      while i < 10
        invariant 0 <= i <= 10 && n == tagStart + i <= |file| && tagStart == old(n)
        invariant x == NumberOf(s[..i]) && scale == Power128(i)
        invariant forall j | 0 <= j < i :: s[j] >= 128
      {
        var b := ReadByte();
        if b.Err? {
          NoVarint(s, i);
          return Err(if n != tagStart then UnexpectedEof else Eof);
        }
        ghost var digit := s[i];
        assert s[..i + 1] == s[..i] + [digit];
        NumberSnoc(s[..i], digit);
        if b.value < 128 && i == 9 && b.value > 1 {
          NoVarint(s, i);
          return Err(Overflow);
        }
        x := x + scale * (b.value % 128);
        if b.value < 128 {
          FrontVarintIff(s, s[..i + 1]);
          return Ok(x);
        }
        i := i + 1;
        scale := 128 * scale;
      }
      NoVarint(s, i);
      return Err(Overflow);
    }

    method Bytes(k: nat) returns (r: Result<seq<byte>>)
      requires Valid()
      modifies this`n
      ensures Valid() && n >= old(n)
      ensures r.Ok? <==> k <= |old(Rest())|
      ensures r.Ok? ==> r.value == old(Rest())[..k] && n == old(n) + k
    {
      if n + k > |file| {
        n := |file|;
        return Err(UnexpectedEof);
      }
      r := Ok(file[n..][..k]);
      n := n + k;
    }

    method Discard(k: nat) returns (r: Result<()>)
      requires Valid()
      modifies this`n
      ensures Valid() && n >= old(n)
      ensures r.Ok? <==> old(n) + k <= |file|
      ensures r.Ok? ==> n == old(n) + k
    {
      var left := k;
      while left > 0
        invariant 0 <= left <= k && Valid() && n + left == old(n) + k
      {
        var step := if left > STEP then STEP else left;
        if n + step > |file| {
          n := |file|;
          return Err(UnexpectedEof);
        }
        n := n + step;
        left := left - step;
      }
      return Ok(());
    }

    /** Passes over one value of wire type wt, which must end by `end` (-1: anywhere). */
    method Skip(wt: int, end: int) returns (r: Result<()>)
      requires Valid() && -1 <= end
      modifies this
      ensures Valid() && n >= old(n)
      ensures
        match FrontValue(wt, old(Rest()))
        case Some(x) => (r.Ok? <==> end == -1 || old(n) + |PrintValue(x)| <= end) && (r.Ok? ==> n == old(n) + |PrintValue(x)|)
        case None => r.Err?
    {
      r := SkipValue(wt, end);
      if r.Ok? && 0 <= end < n {
        r := Err(PastEnd);
      }
    }

    method SkipValue(wt: int, end: int) returns (r: Result<()>)
      requires Valid() && -1 <= end
      modifies this
      ensures Valid() && n >= old(n)
      ensures
        match FrontValue(wt, old(Rest()))
        case Some(x) =>
          && (r.Ok? ==> n == old(n) + |PrintValue(x)|)
          && (r.Err? ==> end != -1 && old(n) + |PrintValue(x)| > end)
        case None => r.Err?
    {
      ghost var s := Rest();
      if wt == VARINT {
        NumberAt(s);
        var v := Uvarint();
        return if v.Err? then Err(Unexpected(v.error)) else Ok(());
      } else if wt == I64 {
        FixedAt(wt, s);
        r := Discard(8);
      } else if wt == I32 {
        FixedAt(wt, s);
        r := Discard(4);
      } else if wt == LEN {
        ChunkAt(s);
        var v := Uvarint();
        if v.Err? {
          return Err(Unexpected(v.error));
        }
        if v.value > MAX_LENGTH || (end >= 0 && n + v.value > end) {
          return Err(BadLength);
        }
        r := Discard(v.value);
      } else {
        return Err(BadType);
      }
    }
  }

  // ---------------------------------------------------------------- what the walk should find

  predicate IsLower(b: byte) {
    'a' as int <= b <= 'z' as int
  }

  predicate HasLower(s: seq<byte>) {
    s != [] && (IsLower(s[0]) || HasLower(s[1..]))
  }

  /** A country code and where its bytes start in the file. */
  datatype Code = Code(offset: nat, code: seq<byte>)

  /** The code to rewrite in a field that starts at `at`, if any. */
  function OwnCodes(f: Field, at: nat): (codes: seq<Code>) {
    if IsOne(f.tag) then ValueCodes(f.value, at + |f.tag|) else []
  }

  function FieldCodes(fs: seq<Field>, at: nat): (codes: seq<Code>) {
    if fs == [] then [] else OwnCodes(fs[0], at) + FieldCodes(fs[1..], at + |PrintField(fs[0])|)
  }

  function TopCodes(t: Top, at: nat): (codes: seq<Code>) {
    if t.Entry? then FieldCodes(t.fields, at + |t.tag| + |t.size|) else []
  }

  function ListCodes(list: seq<Top>, at: nat): (codes: seq<Code>) {
    if list == [] then [] else TopCodes(list[0], at) + ListCodes(list[1..], at + |PrintTop(list[0])|)
  }

  function Entries(list: seq<Top>): (n: nat) {
    if list == [] then 0 else (if list[0].Entry? then 1 else 0) + Entries(list[1..])
  }

  lemma {:induction false} FieldCodesCons(fs: seq<Field>, at: nat, next: nat)
    requires fs != [] && next == at + |PrintField(fs[0])|
    ensures FieldCodes(fs, at) == OwnCodes(fs[0], at) + FieldCodes(fs[1..], next)
  {
  }

  lemma {:induction false} FieldsSnoc(fs: seq<Field>, f: Field)
    requires AreFields(fs) && IsField(f) && Acceptable(f)
    ensures AreFields(fs + [f])
    ensures PrintFields(fs + [f]) == PrintFields(fs) + PrintField(f)
  {
    if fs == [] {
      assert fs + [f] == [f] && [f][1..] == [];
    } else {
      FieldsSnoc(fs[1..], f);
      assert (fs + [f])[1..] == fs[1..] + [f];
      Assoc(PrintField(fs[0]), PrintFields(fs[1..]), PrintField(f));
    }
  }

  lemma {:induction false} FieldCodesSnoc(fs: seq<Field>, f: Field, at: nat, here: nat)
    requires here == at + |PrintFields(fs)|
    ensures FieldCodes(fs + [f], at) == FieldCodes(fs, at) + OwnCodes(f, here)
  {
    if fs == [] {
      assert fs + [f] == [f] && [f][1..] == [];
    } else {
      var next := at + |PrintField(fs[0])|;
      FieldCodesSnoc(fs[1..], f, next, here);
      var all := fs + [f];
      assert all[1..] == fs[1..] + [f] && all[0] == fs[0];
      FieldCodesCons(fs, at, next);
      FieldCodesCons(all, at, next);
      Assoc(OwnCodes(fs[0], at), FieldCodes(fs[1..], next), OwnCodes(f, here));
    }
  }

  /** When the entry's bytes are fields, the field the whole stream shows next is the first of them. */
  lemma {:induction false} EntryHead(file: seq<byte>, n: nat, end: nat, fs: seq<Field>)
    requires n < end <= |file| && AreFields(fs) && PrintFields(fs) == file[n..end]
    ensures fs != [] && FrontField(file[n..]) == Some(fs[0])
    ensures Acceptable(fs[0]) && n + |PrintField(fs[0])| <= end
  {
    var s, p := file[n..], end - n;
    assert s[..p] == file[n..end];
    EmptyFields(fs);
    FieldIsPrefix(fs[0], PrintFields(fs[1..]));
    FieldWithin(s, p);
  }

  lemma {:induction false} EmptyFields(fs: seq<Field>)
    ensures PrintFields(fs) != [] ==> fs != [] && PrintFields(fs) == PrintField(fs[0]) + PrintFields(fs[1..])
  {
  }

  lemma {:induction false} DropHead(file: seq<byte>, n: nat, end: nat, head: seq<byte>, rest: seq<byte>, next: nat)
    requires n <= end <= |file| && file[n..end] == head + rest && next == n + |head|
    ensures next <= end && rest == file[next..end]
  {
    assert file[n..end][|head|..] == rest;
  }

  lemma {:induction false} EntryTail(file: seq<byte>, n: nat, end: nat, fs: seq<Field>, next: nat)
    requires n < end <= |file| && AreFields(fs) && PrintFields(fs) == file[n..end]
    requires fs != [] && next == n + |PrintField(fs[0])| <= end
    ensures AreFields(fs[1..]) && PrintFields(fs[1..]) == file[next..end]
  {
    DropHead(file, n, end, PrintField(fs[0]), PrintFields(fs[1..]), next);
  }

  // ---------------------------------------------------------------- the walker

  /** The code to rewrite in a value that starts at `at`. */
  function ValueCodes(x: Value, at: nat): (codes: seq<Code>) {
    if x.Chunk? && HasLower(x.body) then [Code(at + |x.size|, x.body)] else []
  }

  lemma {:induction false} ValueIsCode(x: Value, at: nat, here: nat)
    requires x.Chunk? && here == at + |x.size|
    ensures ValueCodes(x, at) == if HasLower(x.body) then [Code(here, x.body)] else []
  {
  }

  /** The country code of an entry, lines 108-123. */
  method WalkCode(r: WireReader, end: nat) returns (res: Result<seq<Code>>)
    requires r.Valid()
    modifies r
    ensures r.Valid() && r.n >= old(r.n)
    ensures
      match FrontValue(LEN, old(r.Rest()))
      case None => res.Err?
      case Some(x) =>
        && x.Chunk?
        && (res.Ok? <==> |x.body| <= MAX_CODE && old(r.n) + |PrintValue(x)| <= end)
        && (res.Ok? ==> r.n == old(r.n) + |PrintValue(x)| && res.value == ValueCodes(x, old(r.n)))
  {
    ghost var s, start := r.Rest(), r.n;
    ChunkAt(s);
    var n := r.Uvarint();
    if n.Err? {
      return Err(n.error);
    }
    ghost var rest := s[|FrontVarint(s).value|..];
    assert r.Rest() == rest;
    if n.value > MAX_CODE || r.n + n.value > end {
      return Err(BadLength);
    }
    var at := r.n;
    var code := r.Bytes(n.value);
    if code.Err? {
      return Err(code.error);
    }
    ghost var x := Chunk(FrontVarint(s).value, code.value);
    assert FrontValue(LEN, s) == Some(x);
    ValueIsCode(x, start, at);
    return Ok(if HasLower(code.value) then [Code(at, code.value)] else []);
  }

  lemma {:induction false} OwnIsValue(f: Field, at: nat, here: nat)
    requires IsOne(f.tag) && here == at + |f.tag|
    ensures OwnCodes(f, at) == ValueCodes(f.value, here)
  {
  }

  /** One field of an entry, lines 103-127. */
  method WalkField(r: WireReader, end: nat) returns (res: Result<seq<Code>>)
    requires r.Valid()
    modifies r
    ensures r.Valid() && r.n >= old(r.n)
    ensures
      match FrontField(old(r.Rest()))
      case None => res.Err?
      case Some(f) =>
        && (res.Ok? <==> Acceptable(f) && old(r.n) + |PrintField(f)| <= end)
        && (res.Ok? ==> r.n == old(r.n) + |PrintField(f)| && res.value == OwnCodes(f, old(r.n)))
  {
    ghost var s := r.Rest();
    FieldAt(s);
    var ftag := r.Uvarint();
    if ftag.Err? {
      return Err(ftag.error);
    }
    ghost var tag := FrontVarint(s).value;
    assert r.Rest() == s[|tag|..];
    if ftag.value / 8 == 1 && ftag.value % 8 == LEN {
      ghost var at := r.n;
      res := WalkCode(r, end);
      if res.Ok? {
        OwnIsValue(FrontField(s).value, old(r.n), at);
      }
    } else {
      var skipped := r.Skip(ftag.value % 8, end);
      res := if skipped.Err? then Err(skipped.error) else Ok([]);
    }
  }

  /**
    The fields of an entry that should end at `end`, lines 102-131. Success leaves the
    reader exactly at `end`, so the comparison of line 129 never fails.
   */
  method WalkEntry(r: WireReader, end: nat) returns (res: Result<seq<Code>>)
    requires r.Valid() && r.n <= end
    modifies r
    ensures r.Valid() && r.n >= old(r.n)
    ensures end > |r.file| ==> res.Err?
    ensures end <= |r.file| ==>
              match FieldsOf(r.file[old(r.n)..end])
              case None => res.Err?
              case Some(fs) => res == Ok(FieldCodes(fs, old(r.n))) && r.n == end
  {
    var codes := [];
    ghost var start := r.n;
    ghost var fs: seq<Field> := [];
    ghost var fits := end <= |r.file| && FieldsOf(r.file[start..end]).Some?;
    ghost var left: seq<Field> := if fits then FieldsOf(r.file[start..end]).value else [];
    while r.n < end
      invariant r.Valid() && start <= r.n <= end
      invariant AreFields(fs) && PrintFields(fs) == r.file[start..r.n]
      invariant codes == FieldCodes(fs, start)
      invariant fits ==> AreFields(left) && PrintFields(left) == r.file[r.n..end]
      decreases end - r.n
    {
      ghost var n := r.n;
      ghost var front := FrontField(r.Rest());
      if fits {
        EntryHead(r.file, n, end, left);
      }
      var own := WalkField(r, end);
      if own.Err? {
        return Err(own.error);
      }
      Advance(r.file, start, n, front.value, r.n);
      FieldsSnoc(fs, front.value);
      FieldCodesSnoc(fs, front.value, start, n);
      codes := codes + own.value;
      fs := fs + [front.value];
      if fits {
        EntryTail(r.file, n, end, left, r.n);
        left := left[1..];
      }
    }
    if end <= |r.file| {
      FieldsOfIff(r.file[start..end], fs);
    }
    return Ok(codes);
  }

  lemma {:induction false} Advance(file: seq<byte>, start: nat, n: nat, f: Field, next: nat)
    requires start <= n <= |file| && FrontField(file[n..]) == Some(f) && next == n + |PrintField(f)|
    ensures IsField(f) && n < next <= |file|
    ensures file[start..n] + PrintField(f) == file[start..next]
  {
    FrontFieldIff(file[n..], f);
    Slices(file, start, n, next, PrintField(f));
  }

  lemma {:induction false} Slices(file: seq<byte>, start: nat, n: nat, next: nat, p: seq<byte>)
    requires start <= n <= |file| && p <= file[n..] && next == n + |p|
    ensures next <= |file| && file[start..n] + p == file[start..next]
  {
    assert p == file[n..][..|p|] == file[n..next];
  }

  lemma {:induction false} ListSnoc(list: seq<Top>, t: Top)
    requires IsList(list) && IsTop(t)
    ensures IsList(list + [t])
    ensures PrintList(list + [t]) == PrintList(list) + PrintTop(t)
    ensures Entries(list + [t]) == Entries(list) + if t.Entry? then 1 else 0
  {
    if list == [] {
      assert list + [t] == [t] && [t][1..] == [];
    } else {
      ListSnoc(list[1..], t);
      assert (list + [t])[1..] == list[1..] + [t];
      Assoc(PrintTop(list[0]), PrintList(list[1..]), PrintTop(t));
    }
  }

  lemma {:induction false} ListCodesCons(list: seq<Top>, at: nat, next: nat)
    requires list != [] && next == at + |PrintTop(list[0])|
    ensures ListCodes(list, at) == TopCodes(list[0], at) + ListCodes(list[1..], next)
  {
  }

  lemma {:induction false} ListCodesSnoc(list: seq<Top>, t: Top, at: nat, here: nat)
    requires here == at + |PrintList(list)|
    ensures ListCodes(list + [t], at) == ListCodes(list, at) + TopCodes(t, here)
  {
    if list == [] {
      assert list + [t] == [t] && [t][1..] == [];
    } else {
      var next := at + |PrintTop(list[0])|;
      ListCodesSnoc(list[1..], t, next, here);
      var all := list + [t];
      assert all[1..] == list[1..] + [t] && all[0] == list[0];
      ListCodesCons(list, at, next);
      ListCodesCons(all, at, next);
      Assoc(TopCodes(list[0], at), ListCodes(list[1..], next), TopCodes(t, here));
    }
  }

  lemma {:induction false} EntryCodes(t: Top, at: nat, here: nat)
    requires t.Entry? && here == at + |t.tag| + |t.size|
    ensures TopCodes(t, at) == FieldCodes(t.fields, here)
  {
  }

  /** The value of a field of the list whose tag, starting at `at`, has been read; lines 87-131. */
  method WalkTop(r: WireReader, tag: nat, ghost digits: seq<byte>, ghost at: nat) returns (res: Result<seq<Code>>)
    requires r.Valid() && tag == NumberOf(digits) && r.n == at + |digits|
    modifies r
    ensures r.Valid() && r.n >= old(r.n)
    ensures
      match FrontValue(tag % 8, old(r.Rest()))
      case None => res.Err?
      case Some(x) =>
        match TopOf(Field(digits, x))
        case None => res.Err?
        case Some(t) => res == Ok(TopCodes(t, at)) && r.n == old(r.n) + |PrintValue(x)|
  {
    if tag / 8 != 1 || tag % 8 != LEN {
      var skipped := r.Skip(tag % 8, -1);
      return if skipped.Err? then Err(skipped.error) else Ok([]);
    }
    ghost var s := r.Rest();
    ChunkAt(s);
    var size := r.Uvarint();
    if size.Err? {
      return Err(size.error);
    }
    if size.value > MAX_LENGTH {
      return Err(BadLength);
    }
    ghost var v, start := FrontVarint(s).value, r.n;
    var end := r.n + size.value;
    res := WalkEntry(r, end);
    if end <= |r.file| {
      assert s[|v|..][..size.value] == r.file[start..end];
      if FieldsOf(r.file[start..end]).Some? {
        EntryCodes(Entry(digits, v, FieldsOf(r.file[start..end]).value), at, start);
      }
    }
  }

  /** The field the stream shows next is the first element of the list that the rest of the file prints. */
  lemma {:induction false} ListHead(file: seq<byte>, n: nat, list: seq<Top>)
    requires n < |file| && IsList(list) && PrintList(list) == file[n..]
    ensures list != [] && FrontField(file[n..]) == Some(FieldOf(list[0]))
    ensures TopOf(FieldOf(list[0])) == Some(list[0])
  {
    TopIsFront(list);
    TopOfIff(FieldOf(list[0]), list[0]);
  }

  lemma {:induction false} ListTail(file: seq<byte>, n: nat, list: seq<Top>, next: nat)
    requires n < |file| && IsList(list) && PrintList(list) == file[n..]
    requires list != [] && next == n + |PrintTop(list[0])|
    ensures next <= |file| && IsList(list[1..]) && PrintList(list[1..]) == file[next..]
  {
    DropHead(file, n, |file|, PrintTop(list[0]), PrintList(list[1..]), next);
  }

  datatype Found = Found(codes: seq<Code>, entries: nat)

  /** What the walk of a list has found. */
  ghost predicate Finds(list: seq<Top>, read: seq<byte>, codes: seq<Code>, entries: nat) {
    IsList(list) && PrintList(list) == read && codes == ListCodes(list, 0) && entries == Entries(list)
  }

  lemma {:induction false} FindsNext(list: seq<Top>, file: seq<byte>, n: nat, next: nat, f: Field, t: Top, found: Found)
    requires n <= |file| && Finds(list, file[..n], found.codes, found.entries)
    requires FrontField(file[n..]) == Some(f) && TopOf(f) == Some(t) && next == n + |PrintField(f)|
    ensures n < next <= |file| && PrintTop(t) == PrintField(f)
    ensures Finds(list + [t], file[..next], found.codes + TopCodes(t, n), found.entries + if t.Entry? then 1 else 0)
  {
    Advance(file, 0, n, f, next);
    TopOfIff(f, t);
    ListSnoc(list, t);
    ListCodesSnoc(list, t, 0, n);
    assert file[0..n] == file[..n] && file[0..next] == file[..next];
  }

  datatype Next = End | Failed(error: WireError) | Step(codes: seq<Code>, entries: nat)

  /** One turn of the outer loop, lines 80-131. */
  method WalkNext(r: WireReader) returns (next: Next)
    requires r.Valid()
    modifies r
    ensures r.Valid()
    ensures next.End? <==> old(r.Rest()) == []
    ensures
      match FrontField(old(r.Rest()))
      case None => !next.Step?
      case Some(f) =>
        match TopOf(f)
        case None => !next.Step?
        case Some(t) =>
          && next == Step(TopCodes(t, old(r.n)), if t.Entry? then 1 else 0)
          && r.n == old(r.n) + |PrintField(f)|
  {
    ghost var n, s := r.n, r.Rest();
    FieldAt(s);
    FieldIsSome(s);
    var tag := r.Uvarint();
    if tag.Err? {
      return if tag.error.Eof? && r.n == r.tagStart then End else Failed(tag.error);
    }
    ghost var digits := FrontVarint(s).value;
    FrontVarintIff(s, digits);
    assert r.Rest() == s[|digits|..];
    var own := WalkTop(r, tag.value, digits, n);
    if own.Err? {
      return Failed(own.error);
    }
    return Step(own.value, if tag.value / 8 == 1 && tag.value % 8 == LEN then 1 else 0);
  }

  lemma {:induction false} FieldIsSome(s: seq<byte>)
    ensures FrontField(s).Some? ==> s != []
  {
    if FrontField(s).Some? {
      FrontFieldIff(s, FrontField(s).value);
    }
  }

  method WalkList(file: seq<byte>) returns (res: Result<Found>)
    ensures
      match ListOf(file)
      case None => res.Err?
      case Some(list) => res == Ok(Found(ListCodes(list, 0), Entries(list)))
  {
    var r := new WireReader(file);
    var codes, entries := [], 0;
    ghost var list: seq<Top> := [];
    ghost var left := ListOf(file);
    assert file[..0] == [] && file[0..] == file;
    while true
      invariant r.Valid() && r.file == file && Finds(list, file[..r.n], codes, entries)
      invariant left.Some? ==> IsList(left.value) && PrintList(left.value) == file[r.n..]
      invariant left.None? ==> ListOf(file).None?
      decreases |file| - r.n
    {
      ghost var n := r.n;
      ghost var front := FrontField(r.Rest());
      if left.Some? && n < |file| {
        ListHead(file, n, left.value);
      }
      var next := WalkNext(r);
      match next {
        case End =>
          assert file[..n] == file;
          ListOfIff(file, list);
          return Ok(Found(codes, entries));
        case Failed(error) =>
          return Err(error);
        case Step(own, one) =>
          ghost var t := TopOf(front.value).value;
          FindsNext(list, file, n, r.n, front.value, t, Found(codes, entries));
          if left.Some? {
            ListTail(file, n, left.value, r.n);
            left := Some(left.value[1..]);
          }
          list := list + [t];
          codes := codes + own;
          entries := entries + one;
      }
    }
  }

  /**
    The whole walk: a file is accepted exactly when the grammar has a list for it, and
    then the codes with a lowercase letter and the number of entries are that list's.
   */
  method LowercaseGeositeCodes(file: seq<byte>) returns (res: Result<Found>)
    ensures res.Ok? <==> exists list :: IsList(list) && PrintList(list) == file
    ensures forall list :: IsList(list) && PrintList(list) == file ==>
                             res == Ok(Found(ListCodes(list, 0), Entries(list)))
  {
    res := WalkList(file);
    forall list | IsList(list) && PrintList(list) == file ensures ListOf(file) == Some(list) {
      ListOfIff(file, list);
    }
    if res.Ok? {
      ListOfIff(file, ListOf(file).value);
    }
  }
}
