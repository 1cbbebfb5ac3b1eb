/**
  The references of a whole panel database and the installation of its assets
  (web/service/portable_backup_assets.go:162-299): after it, every reference resolves
  to the bytes of the asset it named before, each asset at a path of its own.
 */
module BackupAssets {
  import opened Bytes
  import opened BackupReferences
  import opened BackupWalk
  import opened BackupImage
  import BackupPaths
  import opened Collections
  import opened Strings

  /** util/backup/bundle.go:22 */
  const MAX_ASSETS: int := 256

  /** A stored value: a protocol document, a setting that names a file, or anything else. */
  datatype Row =
    | Document(json: Json, openvpn: bool)
    | File(name: string)
    | Kept(text: string)

  function RowSlots(row: Row): (slots: seq<Slot>) {
    match row
    case Document(json, openvpn) => Slots(json, openvpn, Plain)
    case File(name) => SlotOf(Str(name))
    case Kept(_) => []
  }

  function RowMapped(row: Row, f: string -> string): (r: Row) {
    match row
    case Document(json, openvpn) => Document(Mapped(json, openvpn, Plain, f), openvpn)
    case File(name) => File(Renamed(Str(name), f).s)
    case Kept(_) => row
  }

  function PanelSlots(rows: seq<Row>): (slots: seq<Slot>) {
    if rows == [] then [] else RowSlots(rows[0]) + PanelSlots(rows[1..])
  }

  function PanelMapped(rows: seq<Row>, f: string -> string): (r: seq<Row>) {
    if rows == [] then [] else [RowMapped(rows[0], f)] + PanelMapped(rows[1..], f)
  }

  lemma {:induction false} RowImage(row: Row, f: string -> string)
    requires Tidy(RowSlots(row), f)
    ensures RowSlots(RowMapped(row, f)) == Image(RowSlots(row), f)
  {
    match row
    case Document(json, openvpn) => SlotsOfMapped(json, openvpn, Plain, f);
    case File(name) => RenamedSlot(Str(name), f);
    case Kept(_) =>
  }

  /** Rewriting is a homomorphism on the whole database: collecting afterwards gives the new names. */
  lemma {:induction false} PanelImage(rows: seq<Row>, f: string -> string)
    requires Tidy(PanelSlots(rows), f)
    ensures PanelSlots(PanelMapped(rows, f)) == Image(PanelSlots(rows), f)
  {
    if rows != [] {
      TidyParts(RowSlots(rows[0]), PanelSlots(rows[1..]), f);
      RowImage(rows[0], f);
      PanelImage(rows[1..], f);
      ImageAppend(RowSlots(rows[0]), PanelSlots(rows[1..]), f);
      assert PanelMapped(rows, f)[1..] == PanelMapped(rows[1..], f);
    }
  }

  // ---------------------------------------------------------------- names

  function Names(slots: seq<Slot>): (names: set<string>) {
    if slots == [] then {}
    else (if slots[0].Ref? then {slots[0].name} else {}) + Names(slots[1..])
  }

  lemma {:induction false} NamesIff(slots: seq<Slot>, s: string)
    ensures s in Names(slots) <==> Ref(s) in slots
  {
    if slots != [] {
      NamesIff(slots[1..], s);
      assert slots == [slots[0]] + slots[1..];
    }
  }

  /** The row names this file: its document does at one of the places that do, or it is a setting that does. */
  ghost predicate NamedIn(row: Row, s: string) {
    match row
    case Document(json, openvpn) =>
      exists q: BackupPaths.Path :: BackupPaths.Bears(json, openvpn, q) && BackupPaths.At(json, q) == Some(Str(s))
    case File(name) => name == s
    case Kept(_) => false
  }

  ghost predicate NamedByPanel(rows: seq<Row>, s: string) {
    exists i :: 0 <= i < |rows| && NamedIn(rows[i], s)
  }

  lemma {:induction false} NamedIffSlot(rows: seq<Row>, s: string)
    ensures Ref(s) in PanelSlots(rows) <==> s != "" && Usable(s) && NamedByPanel(rows, s)
  {
    if rows != [] {
      var rest := rows[1..];
      NamedIffSlot(rest, s);
      if rows[0].Document? {
        BackupPaths.ReferenceIff(rows[0].json, rows[0].openvpn, s);
      }
      if i :| 0 <= i < |rows| && NamedIn(rows[i], s) {
        assert i > 0 ==> rest[i - 1] == rows[i];
      }
      if j :| 0 <= j < |rest| && NamedIn(rest[j], s) {
        assert rows[j + 1] == rest[j];
      }
    }
  }

  predicate Distinct<T(==)>(s: seq<T>) {
    forall i, j | 0 <= i < j < |s| :: s[i] != s[j]
  }

  function Members(s: seq<string>): (r: set<string>) {
    if s == [] then {} else {s[0]} + Members(s[1..])
  }

  lemma {:induction false} MembersIff(s: seq<string>, x: string)
    ensures x in Members(s) <==> x in s
  {
    if s != [] {
      MembersIff(s[1..], x);
    }
  }

  lemma {:induction false} MembersSnoc(s: seq<string>, x: string)
    ensures Members(s + [x]) == Members(s) + {x}
  {
    if s == [] {
      assert s + [x] == [x] && [x][1..] == [];
    } else {
      MembersSnoc(s[1..], x);
      assert (s + [x])[1..] == s[1..] + [x];
    }
  }

  // ---------------------------------------------------------------- collecting

  /**
    panelBackupReferences: the distinct references of the database. It fails exactly on a
    bad reference or on more than MAX_ASSETS of them.
   */
  method CollectReferences(rows: seq<Row>) returns (refs: Option<seq<string>>)
    ensures refs.Some? <==> Bad !in PanelSlots(rows) && |Names(PanelSlots(rows))| <= MAX_ASSETS
    ensures refs.Some? ==> Distinct(refs.value) && Members(refs.value) == Names(PanelSlots(rows))
    ensures refs.Some? ==> |refs.value| == |Names(PanelSlots(rows))|
    ensures refs.Some? ==> forall s :: s in refs.value <==> s != "" && Usable(s) && NamedByPanel(rows, s)
  {
    var slots := PanelSlots(rows);
    var found: seq<string>, rest := [], slots;
    while rest != []
      invariant Collected(slots, rest, found) && |found| <= MAX_ASSETS
      decreases |rest|
    {
      if rest[0].Bad? {
        BadIn(rest);
        return None;
      }
      var name := rest[0].name;
      CollectNext(slots, rest, found);
      if name !in found {
        found := found + [name];
        if |found| > MAX_ASSETS {
          Larger(Members(found), Names(slots));
          return None;
        }
      }
      rest := rest[1..];
    }
    forall s
      ensures s in found <==> s != "" && Usable(s) && NamedByPanel(rows, s)
    {
      NamedIffSlot(rows, s);
      NamesIff(slots, s);
      MembersIff(found, s);
    }
    return Some(found);
  }

  /** The distinct names found so far, with those still to be found, are all the names. */
  ghost predicate Collected(slots: seq<Slot>, rest: seq<Slot>, found: seq<string>) {
    && Distinct(found) && |found| == |Members(found)|
    && Members(found) + Names(rest) == Names(slots)
    && (Bad in slots <==> Bad in rest)
  }

  lemma {:induction false} CollectNext(slots: seq<Slot>, rest: seq<Slot>, found: seq<string>)
    requires rest != [] && rest[0].Ref? && Collected(slots, rest, found)
    ensures
      var name := rest[0].name;
      Collected(slots, rest[1..], if name in found then found else found + [name])
  {
    var name := rest[0].name;
    BadIn(rest);
    MembersIff(found, name);
    MembersSnoc(found, name);
  }

  lemma {:induction false} BadIn(slots: seq<Slot>)
    requires slots != []
    ensures Bad in slots <==> slots[0].Bad? || Bad in slots[1..]
  {
    assert slots == [slots[0]] + slots[1..];
  }

  // ---------------------------------------------------------------- rewriting the database

  /** A reference that `replace` has no name for. */
  predicate Refused(slots: seq<Slot>, names: set<string>) {
    exists t | t in slots :: t.Bad? || t.name !in names
  }

  lemma {:induction false} SameRefusal(a: seq<Slot>, b: seq<Slot>, names: set<string>)
    requires multiset(a) == multiset(b)
    ensures Refused(a, names) == Refused(b, names)
  {
    forall t ensures t in a <==> t in b {
      assert t in multiset(a) <==> t in multiset(b);
    }
  }

  lemma {:induction false} RefusedAppend(a: seq<Slot>, b: seq<Slot>, names: set<string>)
    ensures Refused(a + b, names) == (Refused(a, names) || Refused(b, names))
  {
    if Refused(a, names) {
      var t :| t in a && (t.Bad? || t.name !in names);
      assert t in a + b;
    }
    if Refused(b, names) {
      var t :| t in b && (t.Bad? || t.name !in names);
      assert t in a + b;
    }
  }

  /**
    rewriteBackupReferences on a document: refused iff some slot is, and `changed` is set
    iff the document it returns is another one.
   */
  method RewriteReferences(json: Json, openvpn: bool, f: string -> string, names: set<string>)
    returns (refused: bool, output: Json, changed: bool)
    ensures refused == Refused(Slots(json, openvpn, Plain), names)
    ensures output == Mapped(json, openvpn, Plain, f) && (changed <==> output != json)
    ensures forall path :: BackupPaths.RenamedAt(json, openvpn, f, output, path)
  {
    forall path
      ensures BackupPaths.RenamedAt(json, openvpn, f, Mapped(json, openvpn, Plain, f), path)
    {
      BackupPaths.MappedRenames(json, openvpn, f, path);
    }
    WalkVisitsOnce(json, openvpn, f);
    ChangedIff(json, openvpn, f);
    var visited := WalkSlots(json, openvpn, f);
    SameRefusal(visited, Slots(json, openvpn, Plain), names);
    SameKeeping(visited, Slots(json, openvpn, Plain), f);
    refused := AnyRefused(visited, names);
    output := Walk(json, openvpn, f);
    changed := AnyRenamed(visited, f);
  }

  method AnyRenamed(slots: seq<Slot>, f: string -> string) returns (renamed: bool)
    ensures renamed <==> !Keeps(slots, f)
  {
    for i := 0 to |slots|
      invariant forall k | 0 <= k < i :: slots[k].Ref? ==> f(slots[k].name) == slots[k].name
    {
      if slots[i].Ref? && f(slots[i].name) != slots[i].name {
        return true;
      }
    }
    return false;
  }

  lemma {:induction false} SameKeeping(a: seq<Slot>, b: seq<Slot>, f: string -> string)
    requires multiset(a) == multiset(b)
    ensures Keeps(a, f) == Keeps(b, f)
  {
    KeptInOther(a, b, f);
    KeptInOther(b, a, f);
  }

  lemma {:induction false} KeptInOther(a: seq<Slot>, b: seq<Slot>, f: string -> string)
    requires multiset(a) == multiset(b)
    ensures Keeps(a, f) ==> Keeps(b, f)
  {
    if Keeps(a, f) {
      forall k | 0 <= k < |b| ensures b[k].Ref? ==> f(b[k].name) == b[k].name {
        assert b[k] in multiset(b) && b[k] in multiset(a) && b[k] in a;
      }
    }
  }

  /** One stored value. */
  method VisitRow(row: Row, f: string -> string, names: set<string>) returns (r: Option<Row>)
    ensures r == if Refused(RowSlots(row), names) then None else Some(RowMapped(row, f))
  {
    match row
    case Document(json, openvpn) =>
      var refused, output, changed := RewriteReferences(json, openvpn, f, names);
      r := if refused then None else if changed then Some(Document(output, openvpn)) else Some(row);
    case File(name) =>
      var refused := AnyRefused(SlotOf(Str(name)), names);
      r := if refused then None else Some(File(Renamed(Str(name), f).s));
    case Kept(_) =>
      r := Some(row);
  }

  method AnyRefused(slots: seq<Slot>, names: set<string>) returns (refused: bool)
    ensures refused == Refused(slots, names)
  {
    for i := 0 to |slots|
      invariant forall t | t in slots[..i] :: !t.Bad? && t.name in names
    {
      if slots[i].Bad? || slots[i].name !in names {
        return true;
      }
      assert slots[..i + 1] == slots[..i] + [slots[i]];
    }
    assert slots[..|slots|] == slots;
    return false;
  }

  /** visitPanelBackupReferences inside the restore's transaction: all rows or none. */
  method VisitPanel(rows: seq<Row>, f: string -> string, names: set<string>) returns (r: Option<seq<Row>>)
    ensures r == if Refused(PanelSlots(rows), names) then None else Some(PanelMapped(rows, f))
  {
    var done: seq<Row>, rest := [], rows;
    while rest != []
      invariant Refused(PanelSlots(rows), names) == Refused(PanelSlots(rest), names)
      invariant PanelMapped(rows, f) == done + PanelMapped(rest, f)
      decreases |rest|
    {
      RefusedAppend(RowSlots(rest[0]), PanelSlots(rest[1..]), names);
      var own := VisitRow(rest[0], f, names);
      if own.None? {
        return None;
      }
      assert done + [own.value] + PanelMapped(rest[1..], f) == done + ([own.value] + PanelMapped(rest[1..], f));
      done, rest := done + [own.value], rest[1..];
    }
    assert done + PanelMapped(rest, f) == done && PanelSlots(rest) == [];
    return Some(done);
  }

  // ---------------------------------------------------------------- paths

  /** "asset-%03d.pem" in the managed directory. */
  function AssetPath(dir: string, i: nat): (path: string) {
    dir + ("/asset-" + (Pad(i) + ".pem"))
  }

  lemma {:induction false} PathsDiffer(dir: string, i: nat, j: nat)
    ensures AssetPath(dir, i) == AssetPath(dir, j) ==> i == j
  {
    if AssetPath(dir, i) == AssetPath(dir, j) {
      var a := dir + "/asset-";
      assert a + (Pad(i) + ".pem") == AssetPath(dir, i) && a + (Pad(j) + ".pem") == AssetPath(dir, j);
      SameMiddle(a, Pad(i), Pad(j), ".pem");
      PadIsNumber(i);
      PadIsNumber(j);
    }
  }

  lemma {:induction false} PathIsUsable(dir: string, i: nat)
    requires Usable(dir)
    ensures Usable(AssetPath(dir, i)) && AssetPath(dir, i) != ""
  {
    forall c | c in AssetPath(dir, i) ensures c != '\0' && c != '\r' && c != '\n' {
      assert c in dir || c in "/asset-" || c in "00" || c in Itoa(i) || c in ".pem";
    }
  }

  // ---------------------------------------------------------------- installing

  datatype Asset = Asset(reference: string, data: seq<byte>)

  datatype Installed = Installed(rows: seq<Row>, files: map<string, seq<byte>>)

  /** The assets are exactly the files the database names, one each. */
  predicate Matches(assets: seq<Asset>, names: set<string>) {
    && |assets| == |names|
    && (forall i, j | 0 <= i < j < |assets| :: assets[i].reference != assets[j].reference)
    && forall s | s in names :: exists i :: 0 <= i < |assets| && assets[i].reference == s
  }

  predicate HasAsset(assets: seq<Asset>, s: string, data: seq<byte>) {
    exists i :: 0 <= i < |assets| && assets[i] == Asset(s, data)
  }

  /** Lines 250-256. */
  method IndexAssets(assets: seq<Asset>) returns (r: Option<map<string, seq<byte>>>)
    ensures r.Some? <==> forall i, j | 0 <= i < j < |assets| :: assets[i].reference != assets[j].reference
    ensures r.Some? ==> forall s :: s in r.value <==> exists i :: 0 <= i < |assets| && assets[i].reference == s
    ensures r.Some? ==> forall s | s in r.value :: HasAsset(assets, s, r.value[s])
  {
    var m: map<string, seq<byte>> := map[];
    for k := 0 to |assets|
      invariant forall i, j | 0 <= i < j < k :: assets[i].reference != assets[j].reference
      invariant forall s :: s in m <==> exists i :: 0 <= i < k && assets[i].reference == s
      invariant forall s | s in m :: HasAsset(assets, s, m[s])
    {
      var asset := assets[k];
      if asset.reference in m {
        return None;
      }
      assert asset == Asset(asset.reference, asset.data) && HasAsset(assets, asset.reference, asset.data);
      m := m[asset.reference := asset.data];
    }
    return Some(m);
  }

  /** The i-th key is mapped to the i-th value. */
  function Zip<T>(keys: seq<string>, values: seq<T>): (m: map<string, T>)
    requires |keys| == |values|
  {
    if keys == [] then map[] else
      var n := |keys| - 1;
      Zip(keys[..n], values[..n])[keys[n] := values[n]]
  }

  lemma {:induction false} ZipKeys<T>(keys: seq<string>, values: seq<T>)
    requires |keys| == |values|
    ensures forall s :: s in Zip(keys, values) <==> s in keys
  {
    if keys != [] {
      var n := |keys| - 1;
      ZipKeys(keys[..n], values[..n]);
      assert keys == keys[..n] + [keys[n]];
    }
  }

  lemma {:induction false} ZipAt<T>(keys: seq<string>, values: seq<T>, i: nat)
    requires |keys| == |values| && i < |keys| && Distinct(keys)
    ensures keys[i] in Zip(keys, values) && Zip(keys, values)[keys[i]] == values[i]
  {
    var n := |keys| - 1;
    if i < n {
      ZipAt(keys[..n], values[..n], i);
      assert keys[..n][i] == keys[i];
    }
  }

  lemma {:induction false} ZipCount<T>(keys: seq<string>, values: seq<T>)
    requires |keys| == |values| && Distinct(keys)
    ensures |Zip(keys, values)| == |keys|
  {
    if keys != [] {
      var n := |keys| - 1;
      ZipCount(keys[..n], values[..n]);
      ZipKeys(keys[..n], values[..n]);
    }
  }

  /** The destinations of lines 276-277: all different, and usable as references. */
  method Destinations(dir: string, n: nat) returns (paths: seq<string>)
    ensures |paths| == n && Distinct(paths)
    ensures forall i | 0 <= i < n :: paths[i] == AssetPath(dir, i)
  {
    paths := [];
    for k := 0 to n
      invariant |paths| == k && forall i | 0 <= i < k :: paths[i] == AssetPath(dir, i)
    {
      paths := paths + [AssetPath(dir, k)];
    }
    forall i, j | 0 <= i < j < n ensures paths[i] != paths[j] {
      PathsDiffer(dir, i, j);
    }
  }

  /** What is to be written at each destination. */
  function Contents(refs: seq<string>, data: map<string, seq<byte>>): (r: seq<seq<byte>>)
    requires forall s | s in refs :: s in data
    ensures |r| == |refs|
  {
    seq(|refs|, i requires 0 <= i < |refs| => assert refs[i] in refs; data[refs[i]])
  }

  /** The loop of lines 276-282. */
  method WriteAssets(refs: seq<string>, data: map<string, seq<byte>>, paths: seq<string>)
    returns (rewrites: map<string, string>, files: map<string, seq<byte>>)
    requires |paths| == |refs| && forall s | s in refs :: s in data
    ensures rewrites == Zip(refs, paths) && files == Zip(paths, Contents(refs, data))
  {
    rewrites, files := map[], map[];
    ghost var contents := Contents(refs, data);
    for k := 0 to |refs|
      invariant rewrites == Zip(refs[..k], paths[..k]) && files == Zip(paths[..k], contents[..k])
    {
      assert refs[..k + 1][..k] == refs[..k] && paths[..k + 1][..k] == paths[..k] && contents[..k + 1][..k] == contents[..k];
      assert contents[k] == data[refs[k]];
      rewrites := rewrites[refs[k] := paths[k]];
      files := files[paths[k] := data[refs[k]]];
    }
    assert refs[..|refs|] == refs && paths[..|refs|] == paths && contents[..|refs|] == contents;
  }

  /** Slot by slot, the new reference is a file with the bytes of the asset the old one named; distinct assets stay distinct. */
  ghost predicate Resolves(before: seq<Slot>, after: seq<Slot>, files: map<string, seq<byte>>, assets: seq<Asset>) {
    && |after| == |before|
    && (forall k | 0 <= k < |before| :: before[k].Ref? && after[k].Ref? && after[k].name in files
                                         && HasAsset(assets, before[k].name, files[after[k].name]))
    && forall j, k | 0 <= j < |before| && 0 <= k < |before| ::
         before[j].name == before[k].name <==> after[j].name == after[k].name
  }

  /** The renaming that the rewrites make. */
  function Renaming(rewrites: map<string, string>): (f: string -> string) {
    s => if s in rewrites then rewrites[s] else s
  }

  /** Every slot is one of the references. */
  predicate AllAmong(slots: seq<Slot>, refs: seq<string>) {
    forall k | 0 <= k < |slots| :: slots[k].Ref? && slots[k].name in refs
  }

  lemma {:induction false} AllFound(slots: seq<Slot>, refs: seq<string>)
    requires Bad !in slots && Members(refs) == Names(slots)
    ensures AllAmong(slots, refs)
  {
    forall k | 0 <= k < |slots| ensures slots[k].Ref? && slots[k].name in refs {
      assert slots[k] in slots;
      NamesIff(slots, slots[k].name);
      MembersIff(refs, slots[k].name);
    }
  }

  lemma {:induction false} RenamedOne(refs: seq<string>, paths: seq<string>, s: string) returns (i: nat)
    requires |refs| == |paths| && Distinct(refs) && s in refs
    ensures i < |refs| && refs[i] == s && Renaming(Zip(refs, paths))(s) == paths[i]
  {
    i :| i < |refs| && refs[i] == s;
    ZipAt(refs, paths, i);
  }

  lemma {:induction false} RenamedTidily(slots: seq<Slot>, refs: seq<string>, paths: seq<string>, dir: string)
    requires |refs| == |paths| && Distinct(refs) && AllAmong(slots, refs) && Usable(dir)
    requires forall i | 0 <= i < |paths| :: paths[i] == AssetPath(dir, i)
    ensures Tidy(slots, Renaming(Zip(refs, paths)))
  {
    var f := Renaming(Zip(refs, paths));
    forall k | 0 <= k < |slots| ensures slots[k].Ref? ==> f(slots[k].name) != "" && Usable(f(slots[k].name)) {
      var i := RenamedOne(refs, paths, slots[k].name);
      PathIsUsable(dir, i);
    }
  }

  lemma {:induction false} ImageResolves(slots: seq<Slot>, refs: seq<string>, paths: seq<string>,
                                         data: map<string, seq<byte>>, assets: seq<Asset>)
    requires |refs| == |paths| && Distinct(refs) && Distinct(paths) && AllAmong(slots, refs)
    requires forall s | s in refs :: s in data
    requires forall s | s in data :: HasAsset(assets, s, data[s])
    ensures Resolves(slots, Image(slots, Renaming(Zip(refs, paths))), Zip(paths, Contents(refs, data)), assets)
  {
    var f, files := Renaming(Zip(refs, paths)), Zip(paths, Contents(refs, data));
    var after := Image(slots, f);
    forall k | 0 <= k < |slots|
      ensures slots[k].Ref? && after[k].Ref? && after[k].name in files
      ensures HasAsset(assets, slots[k].name, files[after[k].name])
    {
      var i := RenamedOne(refs, paths, slots[k].name);
      ZipAt(paths, Contents(refs, data), i);
      assert refs[i] in refs;
    }
    forall j, k | 0 <= j < |slots| && 0 <= k < |slots|
      ensures slots[j].name == slots[k].name <==> after[j].name == after[k].name
    {
      RenamedApart(refs, paths, slots[j].name, slots[k].name);
    }
  }

  lemma {:induction false} RenamedApart(refs: seq<string>, paths: seq<string>, s: string, t: string)
    requires |refs| == |paths| && Distinct(refs) && Distinct(paths) && s in refs && t in refs
    ensures s == t <==> Renaming(Zip(refs, paths))(s) == Renaming(Zip(refs, paths))(t)
  {
    var a := RenamedOne(refs, paths, s);
    var b := RenamedOne(refs, paths, t);
  }

  lemma {:induction false} NotRefused(slots: seq<Slot>, refs: seq<string>, paths: seq<string>)
    requires |refs| == |paths| && AllAmong(slots, refs)
    ensures !Refused(slots, Zip(refs, paths).Keys)
  {
    ZipKeys(refs, paths);
  }

  /** When installing succeeds: usable references, few enough, and exactly the assets they name. */
  predicate Installable(rows: seq<Row>, assets: seq<Asset>) {
    var slots := PanelSlots(rows);
    Bad !in slots && |Names(slots)| <= MAX_ASSETS && Matches(assets, Names(slots))
  }

  method AllPresent(refs: seq<string>, data: map<string, seq<byte>>) returns (all: bool)
    ensures all <==> forall s | s in refs :: s in data
  {
    for k := 0 to |refs|
      invariant forall s | s in refs[..k] :: s in data
    {
      if refs[k] !in data {
        return false;
      }
      assert refs[..k + 1] == refs[..k] + [refs[k]];
    }
    assert refs[..|refs|] == refs;
    return true;
  }

  /** The checks of lines 243-261. */
  method CheckAssets(rows: seq<Row>, assets: seq<Asset>) returns (refs: seq<string>, data: map<string, seq<byte>>, ok: bool)
    ensures ok <==> Installable(rows, assets)
    ensures ok ==> Distinct(refs) && |refs| == |assets| && AllAmong(PanelSlots(rows), refs)
    ensures ok ==> (forall s | s in refs :: s in data) && forall s | s in data :: HasAsset(assets, s, data[s])
  {
    refs, data, ok := [], map[], false;
    var collected := CollectReferences(rows);
    if collected.None? || |collected.value| != |assets| {
      return;
    }
    var index := IndexAssets(assets);
    if index.None? {
      return;
    }
    refs, data := collected.value, index.value;
    forall s ensures s in refs <==> s in Names(PanelSlots(rows)) {
      MembersIff(refs, s);
    }
    AllFound(PanelSlots(rows), refs);
    ok := AllPresent(refs, data);
  }

  /**
    installBackupAssets, apart from failing writes. Everything the database refers to
    afterwards is a file of its own with the right bytes.
   */
  method InstallAssets(rows: seq<Row>, assets: seq<Asset>, dir: string) returns (r: Option<Installed>)
    ensures r.Some? <==> Installable(rows, assets)
    ensures r.Some? ==> |r.value.files| == |assets|
    ensures r.Some? && Usable(dir) ==>
              Resolves(PanelSlots(rows), PanelSlots(r.value.rows), r.value.files, assets)
  {
    var refs, data, ok := CheckAssets(rows, assets);
    if !ok {
      return None;
    }
    if refs == [] {
      assert PanelSlots(rows) == [];
      return Some(Installed(rows, map[]));
    }
    var paths := Destinations(dir, |refs|);
    var rewrites, files := WriteAssets(refs, data, paths);
    var renamed := VisitPanel(rows, Renaming(rewrites), rewrites.Keys);
    NotRefused(PanelSlots(rows), refs, paths);
    ZipCount(paths, Contents(refs, data));
    if Usable(dir) {
      RenamedTidily(PanelSlots(rows), refs, paths, dir);
      PanelImage(rows, Renaming(rewrites));
      ImageResolves(PanelSlots(rows), refs, paths, data, assets);
    }
    return Some(Installed(renamed.value, files));
  }
}
