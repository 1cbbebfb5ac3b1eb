/**
  The portable backup archive (util/backup/bundle.go): what an archive has to contain to
  stand for a database and its assets, that Decode accepts exactly such archives, and
  that Encode writes one. The zip container is its list of members; the digest and the
  JSON codec of the manifest are parameters.
 */
module BackupBundle {
  import opened Bytes
  import opened Collections
  import opened Strings
  import opened BackupReferences
  import opened BackupAssets

  const MAX_DATABASE: int := 0x800_0000
  const MAX_ASSET: int := 0x40_0000
  const MAX_TOTAL: int := 0xC00_0000
  const MAX_MANIFEST: int := 0x4_0000

  const FORMAT: string := "x-ui-portable-backup"
  const MANIFEST: string := "manifest.json"
  const DATABASE: string := "database.db"

  /** "assets/%03d.bin" */
  function AssetName(i: nat): (name: string) {
    "assets/" + (Pad(i) + ".bin")
  }

  datatype Entry = Entry(reference: string, name: string, sha256: string, size: int)

  datatype Manifest = Manifest(format: string, version: int, databaseSha256: string, assets: seq<Entry>)

  /** A member of the archive; data is None when it cannot be read completely. */
  datatype Member = Member(name: string, regular: bool, size: nat, data: Option<seq<byte>>)

  datatype Bundle = Bundle(database: seq<byte>, assets: seq<Asset>)

  type Digest = seq<byte> -> string

  type Unmarshal = seq<byte> -> Option<Manifest>

  // ---------------------------------------------------------------- what an archive stands for

  predicate WellFormed(members: seq<Member>) {
    && (forall i, j | 0 <= i < j < |members| :: members[i].name != members[j].name)
    && (forall i | 0 <= i < |members| :: members[i].regular && members[i].size <= MAX_DATABASE)
    && Total(members) <= MAX_TOTAL
  }

  function Total(members: seq<Member>): (n: nat) {
    if members == [] then 0 else Total(members[..|members| - 1]) + members[|members| - 1].size
  }

  /** A complete member of that name and content. */
  function Whole(name: string, data: seq<byte>): (m: Member) {
    Member(name, true, |data|, Some(data))
  }

  predicate Has(members: seq<Member>, name: string, data: seq<byte>) {
    exists k :: 0 <= k < |members| && members[k] == Whole(name, data)
  }

  function EntriesOf(assets: seq<Asset>, digest: Digest): (entries: seq<Entry>)
    ensures |entries| == |assets|
  {
    seq(|assets|, i requires 0 <= i < |assets| =>
                    Entry(assets[i].reference, AssetName(i), digest(assets[i].data), |assets[i].data|))
  }

  function ManifestOf(b: Bundle, digest: Digest): (m: Manifest) {
    Manifest(FORMAT, 1, digest(b.database), EntriesOf(b.assets, digest))
  }

  predicate AssetsOk(assets: seq<Asset>) {
    && (forall i | 0 <= i < |assets| ::
          assets[i].reference != "" && Usable(assets[i].reference) && |assets[i].data| <= MAX_ASSET)
    && forall i, j | 0 <= i < j < |assets| :: assets[i].reference != assets[j].reference
  }

  predicate HasAssets(members: seq<Member>, assets: seq<Asset>) {
    forall i | 0 <= i < |assets| :: Has(members, AssetName(i), assets[i].data)
  }

  /** The archive stands for this bundle. */
  ghost predicate Represents(members: seq<Member>, b: Bundle, digest: Digest, unmarshal: Unmarshal) {
    && WellFormed(members)
    && |members| == |b.assets| + 2 && |b.assets| <= MAX_ASSETS && AssetsOk(b.assets)
    && (exists meta :: Has(members, MANIFEST, meta) && |meta| <= MAX_MANIFEST && unmarshal(meta) == Some(ManifestOf(b, digest)))
    && Has(members, DATABASE, b.database)
    && HasAssets(members, b.assets)
  }

  // ---------------------------------------------------------------- reading a member

  function Find(members: seq<Member>, name: string): (m: Option<Member>) {
    if members == [] then None
    else if members[0].name == name then Some(members[0])
    else Find(members[1..], name)
  }

  function Read(members: seq<Member>, name: string, limit: nat): (data: Option<seq<byte>>) {
    match Find(members, name)
    case None => None
    case Some(m) =>
      if m.size > limit || m.data.None? || |m.data.value| > limit || |m.data.value| != m.size then None else m.data
  }

  lemma {:induction false} FindIff(members: seq<Member>, name: string, k: nat)
    requires WellFormed(members) && k < |members| && members[k].name == name
    ensures Find(members, name) == Some(members[k])
    decreases |members|
  {
    if k > 0 {
      FoundLater(members, name, 0, k);
    }
  }

  lemma {:induction false} FoundLater(members: seq<Member>, name: string, from: nat, k: nat)
    requires from <= k < |members| && members[k].name == name
    requires forall i | from <= i < k :: members[i].name != name
    ensures Find(members[from..], name) == Some(members[k])
    decreases k - from
  {
    assert members[from..][0] == members[from];
    if from < k {
      assert members[from..][1..] == members[from + 1..];
      FoundLater(members, name, from + 1, k);
    }
  }

  lemma {:induction false} FindIsMember(members: seq<Member>, name: string) returns (k: nat)
    requires Find(members, name).Some?
    ensures k < |members| && members[k] == Find(members, name).value && members[k].name == name
  {
    if members[0].name == name {
      k := 0;
    } else {
      k := FindIsMember(members[1..], name);
      k := k + 1;
    }
  }

  /** Reading gives the bytes of the complete member of that name, within the limit. */
  lemma {:induction false} ReadIff(members: seq<Member>, name: string, limit: nat, data: seq<byte>)
    requires WellFormed(members)
    ensures Read(members, name, limit) == Some(data) <==> Has(members, name, data) && |data| <= limit
  {
    if Read(members, name, limit) == Some(data) {
      var k := FindIsMember(members, name);
      assert members[k] == Whole(name, data);
    }
    if Has(members, name, data) && |data| <= limit {
      var k: nat :| 0 <= k < |members| && members[k] == Whole(name, data);
      FindIff(members, name, k);
    }
  }

  lemma {:induction false} HasWithin(members: seq<Member>, name: string, data: seq<byte>)
    requires WellFormed(members) && Has(members, name, data)
    ensures |data| <= MAX_DATABASE
  {
  }

  /** What Decode reads from an archive that stands for b. */
  lemma {:induction false} ReadsBack(members: seq<Member>, b: Bundle, digest: Digest, unmarshal: Unmarshal)
    requires Represents(members, b, digest, unmarshal)
    ensures Read(members, MANIFEST, MAX_MANIFEST).Some?
    ensures unmarshal(Read(members, MANIFEST, MAX_MANIFEST).value) == Some(ManifestOf(b, digest))
    ensures Read(members, DATABASE, MAX_DATABASE) == Some(b.database)
    ensures forall i | 0 <= i < |b.assets| :: Read(members, AssetName(i), MAX_ASSET) == Some(b.assets[i].data)
  {
    var meta :| Has(members, MANIFEST, meta) && |meta| <= MAX_MANIFEST && unmarshal(meta) == Some(ManifestOf(b, digest));
    ReadIff(members, MANIFEST, MAX_MANIFEST, meta);
    HasWithin(members, DATABASE, b.database);
    ReadIff(members, DATABASE, MAX_DATABASE, b.database);
    forall i | 0 <= i < |b.assets| ensures Read(members, AssetName(i), MAX_ASSET) == Some(b.assets[i].data) {
      ReadIff(members, AssetName(i), MAX_ASSET, b.assets[i].data);
    }
  }

  /** An archive stands for at most one bundle. */
  lemma {:induction false} OneBundle(members: seq<Member>, a: Bundle, b: Bundle, digest: Digest, unmarshal: Unmarshal)
    requires Represents(members, a, digest, unmarshal) && Represents(members, b, digest, unmarshal)
    ensures a == b
  {
    ReadsBack(members, a, digest, unmarshal);
    ReadsBack(members, b, digest, unmarshal);
    var ea, eb := EntriesOf(a.assets, digest), EntriesOf(b.assets, digest);
    forall i | 0 <= i < |a.assets| ensures a.assets[i] == b.assets[i] {
      assert ea[i].reference == a.assets[i].reference && eb[i].reference == b.assets[i].reference;
    }
    assert a.assets == b.assets;
  }

  /** What the manifest of an accepted archive says, and the limits that it keeps. */
  lemma {:induction false} AcceptedManifest(members: seq<Member>, b: Bundle, digest: Digest, unmarshal: Unmarshal) returns (m: Manifest)
    requires Represents(members, b, digest, unmarshal)
    ensures exists meta :: Has(members, "manifest.json", meta) && |meta| <= 256 * 1024 && unmarshal(meta) == Some(m)
    ensures m.format == "x-ui-portable-backup" && m.version == 1 && m.databaseSha256 == digest(b.database)
    ensures |m.assets| == |b.assets| <= 256
    ensures forall i | 0 <= i < |b.assets| ::
              && m.assets[i].reference == b.assets[i].reference && m.assets[i].sha256 == digest(b.assets[i].data)
              && m.assets[i].size == |b.assets[i].data| <= 4 * 1024 * 1024
              && m.assets[i].name == "assets/" + (Pad(i) + ".bin")
    ensures |b.database| <= 128 * 1024 * 1024 && Total(members) <= 192 * 1024 * 1024
  {
    var meta :| Has(members, MANIFEST, meta) && |meta| <= MAX_MANIFEST && unmarshal(meta) == Some(ManifestOf(b, digest));
    m := ManifestOf(b, digest);
    HasWithin(members, DATABASE, b.database);
  }

  /** The size of an archive is that of its members together. */
  lemma {:induction false} TotalAppend(members: seq<Member>, m: Member)
    ensures Total([]) == 0 && Total(members + [m]) == Total(members) + m.size
  {
    assert (members + [m])[..|members|] == members;
  }

  // ---------------------------------------------------------------- the members by counting

  function AssetNames(n: nat): (names: set<string>) {
    if n == 0 then {} else AssetNames(n - 1) + {AssetName(n - 1)}
  }

  lemma {:induction false} NamesDiffer(i: nat, j: nat)
    ensures AssetName(i) == AssetName(j) ==> i == j
    ensures AssetName(i) != MANIFEST && AssetName(i) != DATABASE && MANIFEST != DATABASE
  {
    assert AssetName(i)[0] == 'a' && MANIFEST[0] == 'm' && DATABASE[0] == 'd';
    if AssetName(i) == AssetName(j) {
      SameMiddle("assets/", Pad(i), Pad(j), ".bin");
      PadIsNumber(i);
      PadIsNumber(j);
    }
  }

  lemma {:induction false} AssetNamesIff(n: nat, name: string)
    ensures name in AssetNames(n) <==> exists i: nat :: i < n && name == AssetName(i)
  {
    if n > 0 {
      AssetNamesIff(n - 1, name);
    }
  }

  lemma {:induction false} AssetNamesCount(n: nat)
    ensures |AssetNames(n)| == n && MANIFEST !in AssetNames(n) && DATABASE !in AssetNames(n)
  {
    if n > 0 {
      AssetNamesCount(n - 1);
      AssetNamesIff(n - 1, AssetName(n - 1));
      NamesDiffer(n - 1, 0);
      forall i: nat | i < n - 1 ensures AssetName(i) != AssetName(n - 1) {
        NamesDiffer(i, n - 1);
      }
    }
  }

  function MemberNames(members: seq<Member>): (names: set<string>)
    ensures |names| <= |members|
  {
    if members == [] then {} else MemberNames(members[1..]) + {members[0].name}
  }

  lemma {:induction false} MemberNamesIff(members: seq<Member>, k: nat)
    requires k < |members|
    ensures members[k].name in MemberNames(members)
  {
    if k > 0 {
      MemberNamesIff(members[1..], k - 1);
    }
  }

  lemma {:induction false} HasIsNamed(members: seq<Member>, name: string, data: seq<byte>)
    requires Has(members, name, data)
    ensures name in MemberNames(members)
  {
    var k: nat :| 0 <= k < |members| && members[k] == Whole(name, data);
    MemberNamesIff(members, k);
  }

  function Listed(n: nat): (names: set<string>) {
    {MANIFEST, DATABASE} + AssetNames(n)
  }

  lemma {:induction false} ListedCount(n: nat)
    ensures |Listed(n)| == n + 2
  {
    AssetNamesCount(n);
    NamesDiffer(0, 0);
    var two := {MANIFEST, DATABASE};
    assert |two| == 2 && two !! AssetNames(n);
  }

  lemma {:induction false} ListedArePresent(members: seq<Member>, b: Bundle, digest: Digest, unmarshal: Unmarshal)
    requires Represents(members, b, digest, unmarshal)
    ensures Listed(|b.assets|) <= MemberNames(members)
  {
    var n := |b.assets|;
    var meta :| Has(members, MANIFEST, meta);
    HasIsNamed(members, MANIFEST, meta);
    HasIsNamed(members, DATABASE, b.database);
    forall name | name in AssetNames(n) ensures name in MemberNames(members) {
      AssetNamesIff(n, name);
      var i: nat :| i < n && name == AssetName(i);
      HasIsNamed(members, name, b.assets[i].data);
    }
  }

  /** An accepted archive has the manifest, the database and assets 0 to n-1, and nothing else. */
  lemma {:induction false} ExactMembers(members: seq<Member>, b: Bundle, digest: Digest, unmarshal: Unmarshal)
    requires Represents(members, b, digest, unmarshal)
    ensures MemberNames(members) == Listed(|b.assets|)
  {
    ListedArePresent(members, b, digest, unmarshal);
    ListedCount(|b.assets|);
    Larger(Listed(|b.assets|), MemberNames(members));
    SameSize(Listed(|b.assets|), MemberNames(members));
  }

  /** The archive with other bytes in its k-th member. */
  function Tampered(members: seq<Member>, k: nat, data: seq<byte>): (r: seq<Member>)
    requires k < |members|
  {
    members[k := Whole(members[k].name, data)]
  }

  /** Every member other than k is read as before. */
  lemma {:induction false} ReadsElsewhere(members: seq<Member>, k: nat, data: seq<byte>, name: string, limit: nat)
    requires k < |members| && WellFormed(members) && WellFormed(Tampered(members, k, data)) && name != members[k].name
    requires Read(members, name, limit).Some?
    ensures Read(Tampered(members, k, data), name, limit) == Read(members, name, limit)
  {
    var now := Tampered(members, k, data);
    var i := FindIsMember(members, name);
    assert now[i] == members[i];
    FindIff(now, name, i);
  }

  /** Which part of the bundle a member is: the database (-1) or an asset. */
  lemma {:induction false} PartOf(members: seq<Member>, b: Bundle, k: nat, digest: Digest, unmarshal: Unmarshal) returns (i: int)
    requires Represents(members, b, digest, unmarshal) && k < |members| && members[k].name != MANIFEST
    ensures -1 <= i < |b.assets|
    ensures i == -1 ==> members[k].name == DATABASE && members[k].data == Some(b.database)
    ensures i >= 0 ==> members[k].name == AssetName(i) && members[k].data == Some(b.assets[i].data)
  {
    var name := members[k].name;
    ReadsBack(members, b, digest, unmarshal);
    FindIff(members, name, k);
    ExactMembers(members, b, digest, unmarshal);
    MemberNamesIff(members, k);
    i := -1;
    if name != DATABASE {
      AssetNamesIff(|b.assets|, name);
      i :| 0 <= i < |b.assets| && name == AssetName(i);
    }
  }

  /** Two archives that differ in the bytes of one member both stand for bundles only if the digests agree. */
  lemma {:induction false} SameDigest(members: seq<Member>, k: nat, data: seq<byte>, b: Bundle, c: Bundle, digest: Digest, unmarshal: Unmarshal)
    requires k < |members| && members[k].name != MANIFEST
    requires Represents(members, b, digest, unmarshal) && Represents(Tampered(members, k, data), c, digest, unmarshal)
    ensures members[k].data.Some? && digest(data) == digest(members[k].data.value)
  {
    SameManifest(members, k, data, b, c, digest, unmarshal);
    var i := PartOf(members, b, k, digest, unmarshal);
    var j := PartOf(Tampered(members, k, data), c, k, digest, unmarshal);
    if i >= 0 && j >= 0 {
      NamesDiffer(i, j);
      assert EntriesOf(b.assets, digest)[i] == EntriesOf(c.assets, digest)[i];
    } else {
      NamesDiffer(if i >= 0 then i else 0, if j >= 0 then j else 0);
    }
  }

  lemma {:induction false} SameManifest(members: seq<Member>, k: nat, data: seq<byte>, b: Bundle, c: Bundle, digest: Digest, unmarshal: Unmarshal)
    requires k < |members| && members[k].name != MANIFEST
    requires Represents(members, b, digest, unmarshal) && Represents(Tampered(members, k, data), c, digest, unmarshal)
    ensures ManifestOf(b, digest) == ManifestOf(c, digest)
  {
    ReadsBack(members, b, digest, unmarshal);
    ReadsBack(Tampered(members, k, data), c, digest, unmarshal);
    ReadsElsewhere(members, k, data, MANIFEST, MAX_MANIFEST);
  }

  /** An archive whose database or asset was exchanged for bytes of another digest stands for nothing. */
  lemma {:induction false} TamperedIsRefused(members: seq<Member>, k: nat, data: seq<byte>, b: Bundle, digest: Digest, unmarshal: Unmarshal)
    requires Represents(members, b, digest, unmarshal)
    requires k < |members| && members[k].name != MANIFEST && members[k].data.Some? && digest(data) != digest(members[k].data.value)
    ensures forall c :: !Represents(Tampered(members, k, data), c, digest, unmarshal)
  {
    forall c
      ensures !Represents(Tampered(members, k, data), c, digest, unmarshal)
    {
      if Represents(Tampered(members, k, data), c, digest, unmarshal) {
        SameDigest(members, k, data, b, c, digest, unmarshal);
      }
    }
  }

  // ---------------------------------------------------------------- Decode

  lemma {:induction false} TotalPrefix(members: seq<Member>, k: nat)
    requires k <= |members|
    ensures Total(members[..k]) <= Total(members)
    decreases |members|
  {
    if k < |members| {
      var n := |members| - 1;
      TotalPrefix(members[..n], k);
      assert members[..n][..k] == members[..k];
    } else {
      assert members[..k] == members;
    }
  }

  /** Lines 150-161. */
  method CheckMembers(members: seq<Member>) returns (ok: bool)
    ensures ok <==> WellFormed(members)
  {
    var names: set<string>, expanded := {}, 0;
    for k := 0 to |members|
      invariant forall i, j | 0 <= i < j < k :: members[i].name != members[j].name
      invariant forall i | 0 <= i < k :: members[i].regular && members[i].size <= MAX_DATABASE
      invariant forall name :: name in names <==> exists i :: 0 <= i < k && members[i].name == name
      invariant expanded == Total(members[..k]) <= MAX_TOTAL
    {
      var m := members[k];
      assert members[..k + 1][..k] == members[..k];
      TotalPrefix(members, k + 1);
      expanded := expanded + m.size;
      if m.name in names || !m.regular || m.size > MAX_DATABASE || expanded > MAX_TOTAL {
        return false;
      }
      names := names + {m.name};
    }
    assert members[..|members|] == members;
    return true;
  }

  /** The assets read so far match the entries and the members. */
  ghost predicate Matching(members: seq<Member>, entries: seq<Entry>, assets: seq<Asset>, digest: Digest) {
    && |assets| <= |entries| && AssetsOk(assets) && HasAssets(members, assets)
    && forall i | 0 <= i < |assets| ::
         entries[i] == Entry(assets[i].reference, AssetName(i), digest(assets[i].data), |assets[i].data|)
  }

  lemma {:induction false} MatchingNext(members: seq<Member>, entries: seq<Entry>, assets: seq<Asset>, a: Asset, digest: Digest)
    requires Matching(members, entries, assets, digest) && |assets| < |entries|
    requires entries[|assets|] == Entry(a.reference, AssetName(|assets|), digest(a.data), |a.data|)
    requires a.reference != "" && Usable(a.reference) && |a.data| <= MAX_ASSET
    requires forall i | 0 <= i < |assets| :: assets[i].reference != a.reference
    requires Has(members, AssetName(|assets|), a.data)
    ensures Matching(members, entries, assets + [a], digest)
  {
  }

  /** Lines 198-209: the assets, or None if an entry or its member is not as it should be. */
  method ReadAssets(members: seq<Member>, entries: seq<Entry>, digest: Digest) returns (r: Option<seq<Asset>>)
    requires WellFormed(members)
    ensures r.Some? ==> |r.value| == |entries| && Matching(members, entries, r.value, digest)
    ensures r.None? ==> forall assets :: |assets| == |entries| ==> !Matching(members, entries, assets, digest)
  {
    var assets: seq<Asset>, refs: set<string> := [], {};
    for i := 0 to |entries|
      invariant |assets| == i && Matching(members, entries, assets, digest)
      invariant forall s :: s in refs <==> exists j :: 0 <= j < i && assets[j].reference == s
    {
      var e := entries[i];
      var data := Read(members, AssetName(i), MAX_ASSET);
      if e.name != AssetName(i) || e.reference == "" || e.reference in refs || !Usable(e.reference) || e.size < 0 || e.size > MAX_ASSET
         || data.None? || |data.value| != e.size || digest(data.value) != e.sha256 {
        forall other: seq<Asset> | |other| == |entries| && Matching(members, entries, other, digest) ensures false {
          EntryRefused(members, entries, assets, other, i, digest);
        }
        return None;
      }
      ReadIff(members, AssetName(i), MAX_ASSET, data.value);
      MatchingNext(members, entries, assets, Asset(e.reference, data.value), digest);
      assets, refs := assets + [Asset(e.reference, data.value)], refs + {e.reference};
    }
    return Some(assets);
  }

  /** An entry that can be read into an asset passes every check. */
  lemma {:induction false} EntryRefused(members: seq<Member>, entries: seq<Entry>, assets: seq<Asset>, other: seq<Asset>, i: nat, digest: Digest)
    requires WellFormed(members) && i < |entries| == |other|
    requires Matching(members, entries, assets, digest) && |assets| == i && Matching(members, entries, other, digest)
    ensures entries[i].name == AssetName(i) && entries[i].reference != "" && Usable(entries[i].reference)
    ensures 0 <= entries[i].size <= MAX_ASSET && forall j | 0 <= j < i :: assets[j].reference != entries[i].reference
    ensures Read(members, AssetName(i), MAX_ASSET) == Some(other[i].data)
    ensures |other[i].data| == entries[i].size && digest(other[i].data) == entries[i].sha256
  {
    ReadIff(members, AssetName(i), MAX_ASSET, other[i].data);
    forall j | 0 <= j < i ensures assets[j].reference != entries[i].reference {
      assert entries[j].reference == assets[j].reference == other[j].reference;
    }
  }

  lemma {:induction false} MatchingEntries(members: seq<Member>, b: Bundle, entries: seq<Entry>, digest: Digest)
    requires |entries| == |b.assets|
    ensures entries == EntriesOf(b.assets, digest) && AssetsOk(b.assets) && HasAssets(members, b.assets) <==>
            Matching(members, entries, b.assets, digest)
  {
    var own := EntriesOf(b.assets, digest);
    if Matching(members, entries, b.assets, digest) {
      forall i | 0 <= i < |entries| ensures entries[i] == own[i] {
      }
    }
  }

  /** Decode accepts exactly the archives, within the upload limit, that stand for a bundle, and returns it. */
  method Decode(size: int, members: seq<Member>, digest: Digest, unmarshal: Unmarshal) returns (r: Option<Bundle>)
    ensures r.Some? ==> 0 < size <= MAX_TOTAL && Represents(members, r.value, digest, unmarshal)
    ensures r.None? && 0 < size <= MAX_TOTAL ==> !exists b :: Represents(members, b, digest, unmarshal)
  {
    forall b: Bundle | Represents(members, b, digest, unmarshal)
      ensures Read(members, MANIFEST, MAX_MANIFEST).Some?
      ensures unmarshal(Read(members, MANIFEST, MAX_MANIFEST).value) == Some(ManifestOf(b, digest))
      ensures Read(members, DATABASE, MAX_DATABASE) == Some(b.database)
    {
      ReadsBack(members, b, digest, unmarshal);
    }
    if size <= 0 || size > MAX_TOTAL || |members| < 2 || |members| > MAX_ASSETS + 2 {
      return None;
    }
    var ok := CheckMembers(members);
    if !ok {
      return None;
    }
    var meta := Read(members, MANIFEST, MAX_MANIFEST);
    if meta.None? || unmarshal(meta.value).None? {
      return None;
    }
    r := DecodeListed(members, meta.value, unmarshal(meta.value).value, digest, unmarshal);
  }

  /** Lines 185-210, for a manifest that was read. */
  method DecodeListed(members: seq<Member>, meta: seq<byte>, manifest: Manifest, digest: Digest, unmarshal: Unmarshal)
    returns (r: Option<Bundle>)
    requires WellFormed(members) && Read(members, MANIFEST, MAX_MANIFEST) == Some(meta) && unmarshal(meta) == Some(manifest)
    ensures r.Some? ==> Represents(members, r.value, digest, unmarshal)
    ensures r.None? ==> !exists b :: Represents(members, b, digest, unmarshal)
  {
    forall b: Bundle | Represents(members, b, digest, unmarshal)
      ensures manifest == ManifestOf(b, digest) && Read(members, DATABASE, MAX_DATABASE) == Some(b.database)
      ensures |b.assets| == |manifest.assets| && Matching(members, manifest.assets, b.assets, digest)
    {
      ReadsBack(members, b, digest, unmarshal);
      MatchingEntries(members, b, manifest.assets, digest);
    }
    if manifest.format != FORMAT || manifest.version != 1 || |manifest.assets| > MAX_ASSETS || |members| != |manifest.assets| + 2 {
      return None;
    }
    var db := Read(members, DATABASE, MAX_DATABASE);
    if db.None? || digest(db.value) != manifest.databaseSha256 {
      return None;
    }
    var assets := ReadAssets(members, manifest.assets, digest);
    if assets.None? {
      return None;
    }
    var b := Bundle(db.value, assets.value);
    MatchingEntries(members, b, manifest.assets, digest);
    ReadIff(members, MANIFEST, MAX_MANIFEST, meta);
    ReadIff(members, DATABASE, MAX_DATABASE, db.value);
    return Some(b);
  }

  // ---------------------------------------------------------------- Encode

  /** The members that Encode writes for a bundle. */
  function Written(b: Bundle, meta: seq<byte>): (members: seq<Member>) {
    [Whole(MANIFEST, meta), Whole(DATABASE, b.database)] + AssetMembers(b.assets)
  }

  function AssetMembers(assets: seq<Asset>): (members: seq<Member>)
    ensures |members| == |assets|
  {
    seq(|assets|, i requires 0 <= i < |assets| => Whole(AssetName(i), assets[i].data))
  }

  function NthName(i: nat): (name: string) {
    if i == 0 then MANIFEST else if i == 1 then DATABASE else AssetName(i - 2)
  }

  lemma {:induction false} WrittenName(b: Bundle, meta: seq<byte>, i: nat)
    requires i < |Written(b, meta)|
    ensures Written(b, meta)[i].name == NthName(i)
  {
    if i >= 2 {
      assert Written(b, meta)[i] == AssetMembers(b.assets)[i - 2];
    }
  }

  lemma {:induction false} NthNamesDiffer(i: nat, j: nat)
    requires i < j
    ensures NthName(i) != NthName(j)
  {
    NamesDiffer(if i >= 2 then i - 2 else 0, if j >= 2 then j - 2 else 0);
    NamesDiffer(if j >= 2 then j - 2 else 0, 0);
  }

  /** What Encode writes stands for the bundle, if it fits the limits that only Decode checks. */
  lemma {:induction false} WrittenRepresents(b: Bundle, meta: seq<byte>, digest: Digest, unmarshal: Unmarshal)
    requires |b.assets| <= MAX_ASSETS && AssetsOk(b.assets) && |b.database| <= MAX_DATABASE
    requires |meta| <= MAX_MANIFEST && unmarshal(meta) == Some(ManifestOf(b, digest))
    requires Total(Written(b, meta)) <= MAX_TOTAL
    ensures Represents(Written(b, meta), b, digest, unmarshal)
  {
    var members := Written(b, meta);
    forall i, j | 0 <= i < j < |members| ensures members[i].name != members[j].name {
      WrittenName(b, meta, i);
      WrittenName(b, meta, j);
      NthNamesDiffer(i, j);
    }
    assert members[0] == Whole(MANIFEST, meta) && members[1] == Whole(DATABASE, b.database);
    forall i | 0 <= i < |b.assets| ensures Has(members, AssetName(i), b.assets[i].data) {
      assert members[i + 2] == Whole(AssetName(i), b.assets[i].data);
    }
  }

  /** The first occurrences, in order: what the loop of lines 83-86 does not skip. */
  function Fresh(refs: seq<string>, seen: set<string>): (r: seq<string>)
    decreases |refs|
  {
    if refs == [] then []
    else if refs[0] in seen then Fresh(refs[1..], seen)
    else [refs[0]] + Fresh(refs[1..], seen + {refs[0]})
  }

  function Load(names: seq<string>, read: string -> Option<seq<byte>>): (assets: Option<seq<Asset>>) {
    if names == [] then Some([])
    else if names[0] == "" || !Usable(names[0]) || read(names[0]).None? || Load(names[1..], read).None? then None
    else Some([Asset(names[0], read(names[0]).value)] + Load(names[1..], read).value)
  }

  function DataSize(assets: seq<Asset>): (n: nat) {
    if assets == [] then 0 else |assets[0].data| + DataSize(assets[1..])
  }

  lemma {:induction false} FreshIsNew(refs: seq<string>, seen: set<string>)
    ensures Distinct(Fresh(refs, seen)) && forall s | s in Fresh(refs, seen) :: s !in seen && s in refs
    ensures forall s | s in refs :: s in seen || s in Fresh(refs, seen)
    decreases |refs|
  {
    if refs != [] {
      var now := if refs[0] in seen then seen else seen + {refs[0]};
      FreshIsNew(refs[1..], now);
      var rest := Fresh(refs[1..], now);
      forall i | 0 <= i < |rest| ensures rest[i] != refs[0] || refs[0] in seen {
        assert rest[i] in rest;
      }
    }
  }

  lemma {:induction false} LoadedAre(names: seq<string>, read: string -> Option<seq<byte>>, i: nat)
    requires Load(names, read).Some?
    ensures |Load(names, read).value| == |names|
    ensures i < |names| ==>
              var a := Load(names, read).value[i];
              a.reference == names[i] && names[i] != "" && Usable(names[i]) && read(names[i]) == Some(a.data)
  {
    if names != [] {
      LoadedAre(names[1..], read, if i > 0 then i - 1 else 0);
    }
  }

  /** The assets of distinct readable references are as the manifest wants them. */
  lemma {:induction false} LoadedOk(names: seq<string>, read: string -> Option<seq<byte>>)
    requires Distinct(names) && Load(names, read).Some?
    requires forall s :: read(s).Some? ==> |read(s).value| <= MAX_ASSET
    ensures AssetsOk(Load(names, read).value)
  {
    var assets := Load(names, read).value;
    LoadedAre(names, read, 0);
    forall i | 0 <= i < |assets| ensures assets[i].reference == names[i] && names[i] != "" && Usable(names[i]) && |assets[i].data| <= MAX_ASSET {
      LoadedAre(names, read, i);
    }
  }

  /** When Encode succeeds. */
  predicate Encodable(database: seq<byte>, references: seq<string>, read: string -> Option<seq<byte>>) {
    && 0 < |database| <= MAX_DATABASE
    && |Fresh(Sorted(references), {})| <= MAX_ASSETS
    && AssetsOf(references, read).Some?
    && |database| + DataSize(AssetsOf(references, read).value) <= MAX_TOTAL
  }

  function Prepend(assets: seq<Asset>, rest: Option<seq<Asset>>): (r: Option<seq<Asset>>) {
    if rest.None? then None else Some(assets + rest.value)
  }

  lemma {:induction false} PrependOne(assets: seq<Asset>, a: Asset, rest: Option<seq<Asset>>)
    ensures Prepend(assets, Prepend([a], rest)) == Prepend(assets + [a], rest)
  {
    if rest.Some? {
      Assoc(assets, [a], rest.value);
    }
  }

  lemma {:induction false} DataSizeAppend(a: seq<Asset>, b: seq<Asset>)
    ensures DataSize(a + b) == DataSize(a) + DataSize(b)
  {
    if a == [] {
      assert a + b == b;
    } else {
      DataSizeAppend(a[1..], b);
      assert (a + b)[1..] == a[1..] + b;
    }
  }

  /** The loop of lines 83-103: the assets of the distinct references, within the limits. */
  method LoadAssets(refs: seq<string>, read: string -> Option<seq<byte>>, base: nat) returns (r: Option<seq<Asset>>)
    requires base <= MAX_TOTAL
    ensures
      var names := Fresh(refs, {});
      r == if |names| <= MAX_ASSETS && Load(names, read).Some? && base + DataSize(Load(names, read).value) <= MAX_TOTAL
           then Load(names, read) else None
  {
    var assets: seq<Asset>, seen: set<string>, rest, total := [], {}, refs, base;
    ghost var names := Fresh(refs, {});
    assert Prepend([], Load(names, read)) == Load(names, read) by {
      if Load(names, read).Some? {
        assert [] + Load(names, read).value == Load(names, read).value;
      }
    }
    while rest != []
      invariant Load(names, read) == Prepend(assets, Load(Fresh(rest, seen), read))
      invariant |names| == |assets| + |Fresh(rest, seen)| && |seen| == |assets| <= MAX_ASSETS
      invariant total == base + DataSize(assets) <= MAX_TOTAL
      decreases |rest|
    {
      var ref := rest[0];
      if ref !in seen {
        ghost var after := Load(Fresh(rest[1..], seen + {ref}), read);
        FreshStep(rest, seen, read);
        if ref == "" || !Usable(ref) || |seen| + 1 > MAX_ASSETS || read(ref).None? {
          return None;
        }
        var a := Asset(ref, read(ref).value);
        PrependOne(assets, a, after);
        DataSizeAppend(assets, [a]);
        assert DataSize([a]) == |a.data|;
        total := total + |a.data|;
        if total > MAX_TOTAL {
          if after.Some? {
            DataSizeAppend(assets + [a], after.value);
          }
          return None;
        }
        seen, assets := seen + {ref}, assets + [a];
      }
      rest := rest[1..];
    }
    assert assets + [] == assets;
    return Some(assets);
  }

  lemma {:induction false} FreshStep(refs: seq<string>, seen: set<string>, read: string -> Option<seq<byte>>)
    requires refs != [] && refs[0] !in seen
    ensures
      var rest := Fresh(refs[1..], seen + {refs[0]});
      && |Fresh(refs, seen)| == 1 + |rest|
      && Load(Fresh(refs, seen), read) ==
         if refs[0] == "" || !Usable(refs[0]) || read(refs[0]).None? then None
         else Prepend([Asset(refs[0], read(refs[0]).value)], Load(rest, read))
  {
    var rest := Fresh(refs[1..], seen + {refs[0]});
    assert ([refs[0]] + rest)[1..] == rest;
  }

  /** The assets that go into the archive: of the distinct references, in ascending order. */
  function AssetsOf(references: seq<string>, read: string -> Option<seq<byte>>): (assets: Option<seq<Asset>>) {
    Load(Fresh(Sorted(references), {}), read)
  }

  lemma {:induction false} FreshOrder(refs: seq<string>, seen: set<string>, i: nat, j: nat)
    requires Ascends(refs) && i < j < |Fresh(refs, seen)|
    ensures AtMost(Fresh(refs, seen)[i], Fresh(refs, seen)[j])
    decreases |refs|
  {
    if refs[0] in seen {
      FreshOrder(refs[1..], seen, i, j);
    } else {
      var now := seen + {refs[0]};
      var rest := Fresh(refs[1..], now);
      if i > 0 {
        FreshOrder(refs[1..], now, i - 1, j - 1);
      } else {
        FreshIsNew(refs[1..], now);
        assert rest[j - 1] in refs[1..];
      }
    }
  }

  /** Each reference has exactly one asset, with the bytes read for it, and the assets are in ascending order. */
  lemma {:induction false} AssetsAreSorted(references: seq<string>, read: string -> Option<seq<byte>>)
    requires AssetsOf(references, read).Some?
    ensures
      var assets := AssetsOf(references, read).value;
      && (forall i, j | 0 <= i < j < |assets| :: Precedes(assets[i].reference, assets[j].reference))
      && (forall s :: s in references <==> exists i :: 0 <= i < |assets| && assets[i].reference == s)
      && (forall i | 0 <= i < |assets| :: read(assets[i].reference) == Some(assets[i].data))
  {
    var refs := Sorted(references);
    var names, assets := Fresh(refs, {}), AssetsOf(references, read).value;
    SortedAscends(references);
    SortedBag(references);
    FreshIsNew(refs, {});
    LoadedAre(names, read, 0);
    forall i | 0 <= i < |assets| ensures assets[i].reference == names[i] && read(assets[i].reference) == Some(assets[i].data) {
      LoadedAre(names, read, i);
    }
    forall i, j | 0 <= i < j < |assets| ensures Precedes(assets[i].reference, assets[j].reference) {
      FreshOrder(refs, {}, i, j);
    }
    forall s ensures s in references <==> s in names {
      assert s in references <==> s in multiset(references);
      assert s in refs <==> s in multiset(refs);
    }
    forall s ensures s in names <==> exists i :: 0 <= i < |assets| && assets[i].reference == s {
    }
  }

  method Encode(database: seq<byte>, references: seq<string>, read: string -> Option<seq<byte>>,
                digest: Digest, marshal: Manifest -> seq<byte>) returns (r: Option<seq<Member>>)
    ensures r.Some? <==> Encodable(database, references, read)
    ensures r.Some? ==>
              var b := Bundle(database, AssetsOf(references, read).value);
              r.value == Written(b, marshal(ManifestOf(b, digest)))
  {
    if |database| == 0 || |database| > MAX_DATABASE {
      return None;
    }
    var assets := LoadAssets(Sorted(references), read, |database|);
    if assets.None? {
      return None;
    }
    var b := Bundle(database, assets.value);
    return Some(Written(b, marshal(ManifestOf(b, digest))));
  }

  /**
    The round trip: decoding what was encoded gives the database and, for the distinct
    references in ascending order, the bytes that were read for them.
   */
  method RoundTrip(database: seq<byte>, references: seq<string>, read: string -> Option<seq<byte>>, size: int,
                   digest: Digest, marshal: Manifest -> seq<byte>, unmarshal: Unmarshal) returns (decoded: Option<Bundle>)
    requires forall s :: read(s).Some? ==> |read(s).value| <= MAX_ASSET
    requires Encodable(database, references, read) && 0 < size <= MAX_TOTAL
    requires
      var b := Bundle(database, AssetsOf(references, read).value);
      var meta := marshal(ManifestOf(b, digest));
      && unmarshal(meta) == Some(ManifestOf(b, digest))
      && |meta| <= MAX_MANIFEST && Total(Written(b, meta)) <= MAX_TOTAL
    ensures decoded == Some(Bundle(database, AssetsOf(references, read).value))
  {
    var members := Encode(database, references, read, digest, marshal);
    decoded := Decode(size, members.value, digest, unmarshal);
    ghost var b := Bundle(database, AssetsOf(references, read).value);
    ghost var names := Fresh(Sorted(references), {});
    FreshIsNew(Sorted(references), {});
    LoadedOk(names, read);
    LoadedAre(names, read, 0);
    WrittenRepresents(b, marshal(ManifestOf(b, digest)), digest, unmarshal);
    OneBundle(members.value, decoded.value, b, digest, unmarshal);
  }
}
