/**
  The projection of stored listener settings into what the core may see
  (web/service/native_core_inbound.go): which accounts stay, with which fields, and for
  ShadowTLS v1 and v2, whose inner accounts are bound to outer records, which inner
  accounts stay.
 */
module NativeProjection {

  import opened Collections

  /** The values of a stored account's fields. */
  datatype Value = Str(s: string) | Int(n: int) | Bool(b: bool) | Null | Other(text: string)

  type Client = map<string, Value>

  /** A row of a stored account list. */
  datatype Row = Object(client: Client) | NullRow | NotObject

  datatype Protocol =
    | Orbit | Dnstt | OpenVpn | AnyTls | ShadowTls | Mieru
    | Vmess | Trojan | Shadowsocks | Vless | Ordinary(name: string)

  predicate IsNative(p: Protocol) {
    p.Orbit? || p.Dnstt? || p.OpenVpn? || p.AnyTls? || p.ShadowTls? || p.Mieru?
  }

  /** A traffic record of the panel. */
  datatype Stat = Stat(email: string, enable: bool, expiry: int)

  // ---------------------------------------------------------------- fields

  /** json.Unmarshal into a string, errors ignored. */
  function Text(c: Client, key: string): (s: string) {
    if key in c && c[key].Str? then c[key].s else ""
  }

  /** coreClientFieldAllowed. */
  predicate FieldAllowed(p: Protocol, field: string) {
    match p
    case Orbit => field in {"email", "level", "key", "expiresAt"}
    case Dnstt => field in {"email", "level", "id", "username", "password"}
    case OpenVpn => field in {"email", "level", "commonName", "username", "password", "clientProof"}
    case AnyTls => field in {"email", "level", "password", "uuidHashMiddle"}
    case ShadowTls => field in {"email", "level", "password", "requireUuidSessionId"}
    case Mieru => field in {"email", "level", "username", "password", "uuidMetadataTrailer"}
    case Vmess => field in {"rawUuidAuth", "level"} + ORDINARY
    case Trojan => field in {"uuidHashPrefix", "level"} + ORDINARY
    case Shadowsocks => field in {"uuidIdentityKeys", "level"} + ORDINARY
    case Vless => field in {"level"} + ORDINARY
    case Ordinary(_) => field in ORDINARY
  }

  const ORDINARY: set<string> := {"email", "id", "password", "flow", "method", "auth"}

  function Seconds(millis: int): (s: int) {
    if millis >= 0 then millis / 1000 else -(-millis / 1000)
  }

  const INT64: int := 0x8000_0000_0000_0000

  /** json.Unmarshal into an int64; a null leaves it zero, and a larger number is an error. */
  function Number(c: Client, key: string): (n: Option<int>) {
    if key !in c || c[key].Null? then Some(0)
    else if c[key].Int? && -INT64 <= c[key].n < INT64 then Some(c[key].n)
    else None
  }

  predicate Unset(c: Client, key: string) {
    key !in c || c[key] == Null
  }

  predicate IsInt64(v: Value) {
    v.Int? && -0x8000_0000_0000_0000 <= v.n < 0x8000_0000_0000_0000
  }

  predicate Unreadable(c: Client, key: string) {
    !Unset(c, key) && !IsInt64(c[key])
  }

  // ---------------------------------------------------------------- one account

  datatype Verdict = Keep | Skip | Fault

  /** The traffic record that counts is the last one of that email. */
  function StatActive(stats: seq<Stat>, email: string, now: int): (active: Option<bool>) {
    if stats == [] then None
    else
      var last := stats[|stats| - 1];
      if last.email == email then Some(last.enable && (last.expiry <= 0 || last.expiry > now))
      else StatActive(stats[..|stats| - 1], email, now)
  }

  function Judge(p: Protocol, row: Row, stats: seq<Stat>, now: int): (v: Verdict) {
    if !row.Object? then if IsNative(p) then Fault else Skip
    else
      var c := row.client;
      if StatActive(stats, Text(c, "email"), now) == Some(false) then Skip
      else if "enable" in c && !c["enable"].Null? && !c["enable"].Bool? then Fault
      else if "enable" in c && c["enable"] == Bool(false) then Skip
      else if Number(c, "expiryTime").None? then Fault
      else if 0 < Number(c, "expiryTime").value <= now then Skip
      else if !p.Orbit? then Keep
      else if Number(c, "expiresAt").None? then Fault
      else if 0 < Number(c, "expiresAt").value <= Seconds(now) then Skip
      else Keep
  }

  /** Time only takes accounts away, and never makes an account faulty. */
  lemma {:induction false} JudgeOverTime(p: Protocol, row: Row, stats: seq<Stat>, now: int, later: int)
    requires now <= later
    ensures Judge(p, row, stats, later) == Keep ==> Judge(p, row, stats, now) == Keep
    ensures Judge(p, row, stats, later) == Fault ==> Judge(p, row, stats, now) == Fault
  {
    if row.Object? {
      StatOverTime(stats, Text(row.client, "email"), now, later);
    }
  }

  lemma {:induction false} StatOverTime(stats: seq<Stat>, email: string, now: int, later: int)
    requires now <= later
    ensures StatActive(stats, email, now) == Some(false) ==> StatActive(stats, email, later) == Some(false)
  {
    if stats != [] && stats[|stats| - 1].email != email {
      StatOverTime(stats[..|stats| - 1], email, now, later);
    }
  }

  /** What the core sees of an account that stays. */
  function Projected(p: Protocol, c: Client): (r: Client) {
    var allowed := map k | k in c && FieldAllowed(p, k) :: c[k];
    var expiry := Number(c, "expiryTime");
    var timed := if p.Orbit? && expiry.Some? && expiry.value > 0 && !EarlierStands(c, expiry.value)
                 then allowed["expiresAt" := Int(Seconds(expiry.value))] else allowed;
    if "flow" in timed && timed["flow"] == Str("xtls-rprx-vision-udp443") then timed["flow" := Str("xtls-rprx-vision")] else timed
  }

  predicate EarlierStands(c: Client, expiry: int) {
    Number(c, "expiresAt").Some? && 0 < Number(c, "expiresAt").value <= Seconds(expiry)
  }

  /** Exactly the allow-listed fields, with the stored values but for the two fields that are adjusted. */
  lemma {:induction false} ProjectedFields(p: Protocol, c: Client, field: string)
    ensures field in Projected(p, c) <==> FieldAllowed(p, field) && (field in c || (field == "expiresAt" && Ends(p, c)))
    ensures field in Projected(p, c) && field != "expiresAt" && field != "flow" ==> Projected(p, c)[field] == c[field]
    ensures "flow" in Projected(p, c) ==>
              Projected(p, c)["flow"] == if c["flow"] == Str("xtls-rprx-vision-udp443") then Str("xtls-rprx-vision") else c["flow"]
  {
  }

  /** What the panel keeps about a client for itself, and the secrets of exports (database/model/model.go:136-163). */
  const BOOKKEEPING: set<string> := {"limitIp", "totalGB", "expiryTime", "enable", "tgId", "subId", "comment", "reset",
    "created_at", "updated_at", "certificate", "privateKey", "tlsCryptV2", "innerUsername"}

  /** None of it reaches the core in any protocol, ... */
  lemma {:induction false} BookkeepingStays(p: Protocol, c: Client, field: string)
    requires field in BOOKKEEPING
    ensures field !in Projected(p, c)
  {
    BookkeepingRefused(p, field);
    ProjectedFields(p, c, field);
  }

  lemma {:induction false} BookkeepingRefused(p: Protocol, field: string)
    requires field in BOOKKEEPING
    ensures !FieldAllowed(p, field)
  {
  }

  /** ... while the account's email and credential do. */
  lemma {:induction false} CredentialsReach(p: Protocol, c: Client)
    ensures "email" in c ==> "email" in Projected(p, c)
    ensures "password" in c && !p.Orbit? ==> "password" in Projected(p, c)
    ensures "id" in c && (p.Dnstt? || !IsNative(p)) ==> "id" in Projected(p, c)
    ensures "key" in c && p.Orbit? ==> "key" in Projected(p, c)
  {
    ProjectedFields(p, c, "email");
    ProjectedFields(p, c, "password");
    ProjectedFields(p, c, "id");
    ProjectedFields(p, c, "key");
  }

  /** An Orbit account that the panel itself lets expire. */
  predicate Ends(p: Protocol, c: Client) {
    p.Orbit? && "expiryTime" in c && c["expiryTime"].Int? && 0 < c["expiryTime"].n < INT64
  }

  /**
    The second at which the core ends such an account: the last one within the panel's
    own time, given in milliseconds, or the account's explicit one if that is earlier.
   */
  lemma {:induction false} ProjectedExpiry(p: Protocol, c: Client)
    requires Ends(p, c) && !Unreadable(c, "expiresAt")
    ensures "expiresAt" in Projected(p, c) && Projected(p, c)["expiresAt"].Int?
    ensures
      var end, millis := Projected(p, c)["expiresAt"].n, c["expiryTime"].n;
      && 1000 * end <= millis
      && ("expiresAt" in c && c["expiresAt"].Int? && c["expiresAt"].n > 0 ==> end <= c["expiresAt"].n)
      && (1000 * (end + 1) > millis || c == c["expiresAt" := Int(end)])
  {
  }

  lemma {:induction false} ProjectedText(p: Protocol, c: Client)
    ensures FieldAllowed(p, "email") && Text(Projected(p, c), "email") == Text(c, "email")
  {
  }

  // ---------------------------------------------------------------- a list of accounts

  /** The stored accounts that stay, in order. */
  function Kept(p: Protocol, rows: seq<Row>, stats: seq<Stat>, now: int): (r: seq<Client>) {
    if rows == [] then [] else
      (if Judge(p, rows[0], stats, now) == Keep then [rows[0].client] else []) + Kept(p, rows[1..], stats, now)
  }

  predicate AnyFault(p: Protocol, rows: seq<Row>, stats: seq<Stat>, now: int) {
    rows != [] && (Judge(p, rows[0], stats, now) == Fault || AnyFault(p, rows[1..], stats, now))
  }

  function ProjectedAll(p: Protocol, clients: seq<Client>): (r: seq<Client>) {
    if clients == [] then [] else [Projected(p, clients[0])] + ProjectedAll(p, clients[1..])
  }

  /** projectCoreClients on an array. */
  method ProjectCoreClients(p: Protocol, rows: seq<Row>, stats: seq<Stat>, now: int) returns (r: Option<seq<Client>>)
    ensures r == if AnyFault(p, rows, stats, now) then None else Some(ProjectedAll(p, Kept(p, rows, stats, now)))
  {
    var done: seq<Client>, rest := [], rows;
    while rest != []
      invariant AnyFault(p, rows, stats, now) == AnyFault(p, rest, stats, now)
      invariant ProjectedAll(p, Kept(p, rows, stats, now)) == done + ProjectedAll(p, Kept(p, rest, stats, now))
      decreases |rest|
    {
      var verdict := Judge(p, rest[0], stats, now);
      if verdict == Fault {
        return None;
      }
      KeptStep(p, rest, stats, now);
      if verdict == Keep {
        var own := Projected(p, rest[0].client);
        Assoc(done, [own], ProjectedAll(p, Kept(p, rest[1..], stats, now)));
        done := done + [own];
      }
      rest := rest[1..];
    }
    assert done + ProjectedAll(p, Kept(p, rest, stats, now)) == done;
    return Some(done);
  }

  lemma {:induction false} KeptStep(p: Protocol, rows: seq<Row>, stats: seq<Stat>, now: int)
    requires rows != []
    ensures ProjectedAll(p, Kept(p, rows, stats, now)) ==
            if Judge(p, rows[0], stats, now) == Keep
            then [Projected(p, rows[0].client)] + ProjectedAll(p, Kept(p, rows[1..], stats, now))
            else ProjectedAll(p, Kept(p, rows[1..], stats, now))
  {
    var rest := Kept(p, rows[1..], stats, now);
    if Judge(p, rows[0], stats, now) == Keep {
      assert ([rows[0].client] + rest)[1..] == rest;
    } else {
      assert [] + rest == rest;
    }
  }

  lemma {:induction false} KeptIff(p: Protocol, rows: seq<Row>, stats: seq<Stat>, now: int, c: Client)
    ensures c in Kept(p, rows, stats, now) <==> exists i :: 0 <= i < |rows| && rows[i] == Object(c) && Judge(p, rows[i], stats, now) == Keep
  {
    if rows != [] {
      KeptIff(p, rows[1..], stats, now, c);
      if i :| 0 <= i < |rows| && rows[i] == Object(c) && Judge(p, rows[i], stats, now) == Keep {
        if i > 0 {
          assert rows[1..][i - 1] == rows[i];
        }
      }
      if j :| 0 <= j < |rows[1..]| && rows[1..][j] == Object(c) && Judge(p, rows[1..][j], stats, now) == Keep {
        assert rows[j + 1] == rows[1..][j];
      }
    }
  }

  /** A list is refused iff one of its rows is faulty. */
  lemma {:induction false} AnyFaultIff(p: Protocol, rows: seq<Row>, stats: seq<Stat>, now: int)
    ensures AnyFault(p, rows, stats, now) <==> exists i :: 0 <= i < |rows| && Judge(p, rows[i], stats, now) == Fault
  {
    if rows != [] {
      AnyFaultIff(p, rows[1..], stats, now);
      if i :| 0 <= i < |rows| && Judge(p, rows[i], stats, now) == Fault {
        assert i > 0 ==> rows[1..][i - 1] == rows[i];
      }
      if j :| 0 <= j < |rows[1..]| && Judge(p, rows[1..][j], stats, now) == Fault {
        assert rows[j + 1] == rows[1..][j];
      }
    }
  }

  /** The accounts that stay only become fewer as time goes on, and what projects now still does later. */
  lemma {:induction false} KeptOverTime(p: Protocol, rows: seq<Row>, stats: seq<Stat>, now: int, later: int)
    requires now <= later
    ensures forall c | c in Kept(p, rows, stats, later) :: c in Kept(p, rows, stats, now)
    ensures AnyFault(p, rows, stats, later) ==> AnyFault(p, rows, stats, now)
  {
    if rows != [] {
      JudgeOverTime(p, rows[0], stats, now, later);
      KeptOverTime(p, rows[1..], stats, now, later);
    }
  }

  // ---------------------------------------------------------------- ShadowTLS documents

  /** A stored account list. */
  datatype Accounts = Missing | Malformed | NullList | List(rows: seq<Row>)

  datatype InnerProtocol = InnerVless | InnerShadowsocks | InnerSocks | InnerOther

  datatype InnerSettings = Blank | Broken | Settings(accounts: Accounts, ss2022: bool)

  datatype Inner = NoInner | BadInner | Inner(protocol: InnerProtocol, settings: InnerSettings)

  datatype Document = Document(clients: Accounts, version: int, inner: Inner)

  datatype Error = Invalid | NoActiveClients

  datatype Result<T> = Ok(value: T) | Err(error: Error)

  /** The outer list that the core gets, and the inner one; None where the stored one stays as it is. */
  datatype Output = Output(outer: Option<seq<Client>>, inner: Option<seq<Client>>)

  /** nativeUsesOuterClients for ShadowTLS. */
  predicate OuterAuth(version: int) {
    version == 0 || version == 3
  }

  function CoreProtocol(p: InnerProtocol): (r: Protocol) {
    if p.InnerVless? then Vless else Shadowsocks
  }

  // ---------------------------------------------------------------- bindings

  /** The emails of these accounts. */
  function Emails(clients: seq<Client>): (r: set<string>) {
    if clients == [] then {} else
      (if Text(clients[0], "email") != "" then {Text(clients[0], "email")} else {}) + Emails(clients[1..])
  }

  lemma {:induction false} EmailsIff(clients: seq<Client>, e: string)
    ensures e in Emails(clients) <==> e != "" && exists c | c in clients :: Text(c, "email") == e
  {
    if clients != [] {
      EmailsIff(clients[1..], e);
      assert clients == [clients[0]] + clients[1..];
    }
  }

  lemma {:induction false} EmailsProjected(p: Protocol, clients: seq<Client>)
    ensures Emails(ProjectedAll(p, clients)) == Emails(clients)
  {
    if clients != [] {
      ProjectedText(p, clients[0]);
      EmailsProjected(p, clients[1..]);
      assert ProjectedAll(p, clients)[1..] == ProjectedAll(p, clients[1..]);
    }
  }

  function RowText(row: Row, key: string): (s: string) {
    if row.Object? then Text(row.client, key) else ""
  }

  /** The inner usernames of the panel's records whose email is among these; lines 80-89. */
  function Usernames(rows: seq<Row>, emails: set<string>): (r: set<string>) {
    if rows == [] then {} else
      (if RowText(rows[0], "email") in emails && RowText(rows[0], "innerUsername") != ""
       then {RowText(rows[0], "innerUsername")} else {}) + Usernames(rows[1..], emails)
  }

  lemma {:induction false} UsernamesIff(rows: seq<Row>, emails: set<string>, u: string)
    ensures u in Usernames(rows, emails) <==>
            u != "" && exists j :: 0 <= j < |rows| && RowText(rows[j], "innerUsername") == u && RowText(rows[j], "email") in emails
  {
    if rows != [] {
      UsernamesIff(rows[1..], emails, u);
      if j :| 0 <= j < |rows| && RowText(rows[j], "innerUsername") == u && RowText(rows[j], "email") in emails {
        if j > 0 {
          assert rows[1..][j - 1] == rows[j];
        }
      }
      if k :| 0 <= k < |rows[1..]| && RowText(rows[1..][k], "innerUsername") == u && RowText(rows[1..][k], "email") in emails {
        assert rows[k + 1] == rows[1..][k];
      }
    }
  }

  /** The accounts whose identity is among the allowed ones. */
  function Bound(clients: seq<Client>, key: string, allowed: set<string>): (r: seq<Client>) {
    if clients == [] then [] else
      (if Text(clients[0], key) != "" && Text(clients[0], key) in allowed then [clients[0]] else []) + Bound(clients[1..], key, allowed)
  }

  lemma {:induction false} BoundIff(clients: seq<Client>, key: string, allowed: set<string>, c: Client)
    ensures c in Bound(clients, key, allowed) <==> c in clients && Text(c, key) != "" && Text(c, key) in allowed
  {
    if clients != [] {
      BoundIff(clients[1..], key, allowed, c);
      assert clients == [clients[0]] + clients[1..];
    }
  }

  /** Binding by email and projecting can be done in either order. */
  lemma {:induction false} BoundProjected(p: Protocol, clients: seq<Client>, allowed: set<string>)
    ensures Bound(ProjectedAll(p, clients), "email", allowed) == ProjectedAll(p, Bound(clients, "email", allowed))
  {
    if clients != [] {
      ProjectedText(p, clients[0]);
      BoundProjected(p, clients[1..], allowed);
      assert ProjectedAll(p, clients)[1..] == ProjectedAll(p, clients[1..]);
      var own := Text(clients[0], "email");
      var rest := Bound(clients[1..], "email", allowed);
      if own != "" && own in allowed {
        assert ([clients[0]] + rest)[1..] == rest;
      } else {
        assert [] + rest == rest;
      }
    }
  }

  /** json.Unmarshal into a list of objects: a null row is an empty object, anything else is refused. */
  function Objects(rows: seq<Row>): (r: Option<seq<Client>>) {
    if rows == [] then Some([])
    else if rows[0].NotObject? || Objects(rows[1..]).None? then None
    else Some([if rows[0].Object? then rows[0].client else map[]] + Objects(rows[1..]).value)
  }

  function Identities(clients: seq<Client>, key: string): (r: set<string>) {
    if clients == [] then {} else
      (if Text(clients[0], key) != "" then {Text(clients[0], key)} else {}) + Identities(clients[1..], key)
  }

  /** validateShadowTLSInnerBindings: every allowed identity has a stored account, and there is one. */
  method ValidateBindings(settings: InnerSettings, key: string, allowed: set<string>) returns (ok: bool)
    ensures ok <==> BindingsValid(settings, key, allowed)
  {
    if !settings.Settings? || settings.accounts.Missing? || settings.accounts.Malformed? {
      return false;
    }
    var rows := if settings.accounts.List? then settings.accounts.rows else [];
    var accounts := Objects(rows);
    if accounts.None? {
      return false;
    }
    var matched: set<string>, rest := {}, accounts.value;
    while rest != []
      invariant matched + (Identities(rest, key) * allowed) == Identities(accounts.value, key) * allowed
      decreases |rest|
    {
      var id := Text(rest[0], key);
      if id != "" && id in allowed {
        matched := matched + {id};
      }
      rest := rest[1..];
    }
    SameSize(matched, allowed);
    return |allowed| != 0 && |matched| == |allowed|;
  }

  ghost predicate BindingsValid(settings: InnerSettings, key: string, allowed: set<string>) {
    && settings.Settings? && (settings.accounts.NullList? || settings.accounts.List?)
    && var accounts := Objects(if settings.accounts.List? then settings.accounts.rows else []);
       accounts.Some? && allowed != {} && allowed <= Identities(accounts.value, key)
  }

  method BindAccounts(clients: seq<Client>, key: string, allowed: set<string>) returns (r: Result<seq<Client>>)
    ensures r == if Bound(clients, key, allowed) == [] then Err(NoActiveClients) else Ok(Bound(clients, key, allowed))
  {
    var active: seq<Client>, rest := [], clients;
    while rest != []
      invariant Bound(clients, key, allowed) == active + Bound(rest, key, allowed)
      decreases |rest|
    {
      var id := Text(rest[0], key);
      if id != "" && id in allowed {
        Assoc(active, [rest[0]], Bound(rest[1..], key, allowed));
        active := active + [rest[0]];
      } else {
        assert Bound(rest, key, allowed) == Bound(rest[1..], key, allowed);
      }
      rest := rest[1..];
    }
    assert active + Bound(rest, key, allowed) == active;
    return if active == [] then Err(NoActiveClients) else Ok(active);
  }

  // ---------------------------------------------------------------- the projection

  /** The emails of the outer records that are active. */
  function ActiveEmails(outer: seq<Row>, stats: seq<Stat>, now: int): (r: set<string>) {
    Emails(Kept(ShadowTls, outer, stats, now))
  }

  /** The stored inner accounts that may stay: active themselves, and bound to an active outer record. */
  function InnerKept(p: Protocol, inner: seq<Row>, outer: seq<Row>, stats: seq<Stat>, now: int): (r: seq<Client>) {
    Bound(Kept(p, inner, stats, now), "email", ActiveEmails(outer, stats, now))
  }

  /** The same for SOCKS, whose accounts have no state of their own. */
  function SocksKept(inner: seq<Client>, outer: seq<Row>, stats: seq<Stat>, now: int): (r: seq<Client>) {
    Bound(inner, "user", Usernames(outer, ActiveEmails(outer, stats, now)))
  }

  /** Lines 98-124 when the outer records are bindings: an inner VLESS or Shadowsocks. */
  method ProjectBound(p: Protocol, settings: InnerSettings, emails: set<string>, stats: seq<Stat>, now: int)
    returns (r: Result<seq<Client>>)
    requires p.Vless? || p.Shadowsocks?
    ensures r.Ok? <==>
              && BindingsValid(settings, "email", emails) && settings.accounts.List?
              && !AnyFault(p, settings.accounts.rows, stats, now)
              && Bound(Kept(p, settings.accounts.rows, stats, now), "email", emails) != []
    ensures r.Ok? ==>
              r.value == ProjectedAll(p, Bound(Kept(p, settings.accounts.rows, stats, now), "email", emails))
  {
    var valid := ValidateBindings(settings, "email", emails);
    if !valid || !settings.accounts.List? {
      return Err(Invalid);
    }
    var clean := ProjectCoreClients(p, settings.accounts.rows, stats, now);
    if clean.None? {
      return Err(Invalid);
    }
    ghost var kept := Kept(p, settings.accounts.rows, stats, now);
    BoundProjected(p, kept, emails);
    r := BindAccounts(clean.value, "email", emails);
  }

  /** Lines 125-136: an inner SOCKS. */
  method ProjectSocks(settings: InnerSettings, users: set<string>) returns (r: Result<seq<Client>>)
    ensures r.Ok? <==>
              && BindingsValid(settings, "user", users) && settings.accounts.List?
              && Bound(Objects(settings.accounts.rows).value, "user", users) != []
    ensures r.Ok? ==> r.value == Bound(Objects(settings.accounts.rows).value, "user", users)
  {
    var valid := ValidateBindings(settings, "user", users);
    if !valid || !settings.accounts.List? {
      return Err(Invalid);
    }
    r := BindAccounts(Objects(settings.accounts.rows).value, "user", users);
  }

  /** Inner settings that are not bound: only a managed SS2022 list has to keep an account. */
  predicate UnboundReady(p: Protocol, settings: InnerSettings, stats: seq<Stat>, now: int) {
    match settings
    case Blank => true
    case Broken => false
    case Settings(accounts, ss2022) =>
      && !accounts.Malformed?
      && (accounts.List? ==>
            && !AnyFault(p, accounts.rows, stats, now)
            && (p.Shadowsocks? && ss2022 ==> Kept(p, accounts.rows, stats, now) != []))
  }

  /** The recursive call of line 112 on its own. */
  method ProjectUnbound(p: Protocol, settings: InnerSettings, stats: seq<Stat>, now: int)
    returns (r: Result<Option<seq<Client>>>)
    ensures r.Ok? <==> UnboundReady(p, settings, stats, now)
    ensures r.Ok? ==>
              r.value == if settings.Settings? && settings.accounts.List?
                         then Some(ProjectedAll(p, Kept(p, settings.accounts.rows, stats, now))) else None
  {
    if settings.Blank? {
      return Ok(None);
    }
    if settings.Broken? || settings.accounts.Malformed? {
      return Err(Invalid);
    }
    if !settings.accounts.List? {
      return Ok(None);
    }
    var clean := ProjectCoreClients(p, settings.accounts.rows, stats, now);
    if clean.None? {
      return Err(Invalid);
    }
    if p.Shadowsocks? && settings.ss2022 && clean.value == [] {
      return Err(NoActiveClients);
    }
    return Ok(clean);
  }

  /** The document has an outer list that only binds inner accounts: ShadowTLS v1 and v2. */
  predicate Binds(doc: Document) {
    doc.clients.List? && !OuterAuth(doc.version)
  }

  /** Where there is an outer list it has an active account, and no faulty one. */
  predicate OuterReady(doc: Document, stats: seq<Stat>, now: int) {
    match doc.clients
    case Missing => true
    case List(rows) => !AnyFault(ShadowTls, rows, stats, now) && Kept(ShadowTls, rows, stats, now) != []
    case _ => false
  }

  function OuterList(doc: Document, stats: seq<Stat>, now: int): (r: Option<seq<Client>>) {
    if doc.clients.List? && OuterAuth(doc.version)
    then Some(ProjectedAll(ShadowTls, Kept(ShadowTls, doc.clients.rows, stats, now))) else None
  }

  /** Where the outer list binds, every binding has its inner account, and some account stays. */
  ghost predicate InnerReady(doc: Document, stats: seq<Stat>, now: int) {
    match doc.inner
    case NoInner => true
    case BadInner => false
    case Inner(InnerOther, _) => true
    case Inner(InnerSocks, settings) =>
      Binds(doc) ==>
        var users := Usernames(doc.clients.rows, ActiveEmails(doc.clients.rows, stats, now));
        && BindingsValid(settings, "user", users) && settings.accounts.List?
        && SocksKept(Objects(settings.accounts.rows).value, doc.clients.rows, stats, now) != []
    case Inner(protocol, settings) =>
      var p := CoreProtocol(protocol);
      if Binds(doc) then
        && BindingsValid(settings, "email", ActiveEmails(doc.clients.rows, stats, now)) && settings.accounts.List?
        && !AnyFault(p, settings.accounts.rows, stats, now)
        && InnerKept(p, settings.accounts.rows, doc.clients.rows, stats, now) != []
      else UnboundReady(p, settings, stats, now)
  }

  /** The inner accounts the core gets; None where the stored inner settings stay as they are. */
  ghost function InnerList(doc: Document, stats: seq<Stat>, now: int): (r: Option<seq<Client>>) {
    if !doc.inner.Inner? || !doc.inner.settings.Settings? || !doc.inner.settings.accounts.List? then None
    else
      var rows := doc.inner.settings.accounts.rows;
      match doc.inner.protocol
      case InnerOther => None
      case InnerSocks =>
        if Binds(doc) && Objects(rows).Some? then Some(SocksKept(Objects(rows).value, doc.clients.rows, stats, now)) else None
      case protocol =>
        var p := CoreProtocol(protocol);
        Some(ProjectedAll(p, if Binds(doc) then InnerKept(p, rows, doc.clients.rows, stats, now) else Kept(p, rows, stats, now)))
  }

  /**
    coreInboundSettingsAt for ShadowTLS: when it succeeds, and what the core then gets. In
    v1 and v2 the outer list is dropped and exactly the bound inner accounts stay.
   */
  method CoreShadowTls(doc: Document, stats: seq<Stat>, now: int) returns (r: Result<Output>)
    ensures r.Ok? <==> OuterReady(doc, stats, now) && InnerReady(doc, stats, now)
    ensures r.Ok? ==> r.value == Output(OuterList(doc, stats, now), InnerList(doc, stats, now))
  {
    var outer: Option<seq<Client>> := None;
    var emails: Option<set<string>> := None;
    match doc.clients {
      case Malformed => return Err(Invalid);
      case NullList => return Err(NoActiveClients);
      case List(rows) =>
        var clients := ProjectCoreClients(ShadowTls, rows, stats, now);
        if clients.None? {
          return Err(Invalid);
        }
        if clients.value == [] {
          return Err(NoActiveClients);
        }
        if OuterAuth(doc.version) {
          outer := clients;
        } else {
          EmailsProjected(ShadowTls, Kept(ShadowTls, rows, stats, now));
          emails := Some(Emails(clients.value));
        }
      case Missing =>
    }
    var inner := ProjectInner(doc, emails, stats, now);
    return if inner.Err? then Err(inner.error) else Ok(Output(outer, inner.value));
  }

  /** Lines 98-138. */
  method ProjectInner(doc: Document, emails: Option<set<string>>, stats: seq<Stat>, now: int)
    returns (r: Result<Option<seq<Client>>>)
    requires emails == if Binds(doc) then Some(ActiveEmails(doc.clients.rows, stats, now)) else None
    ensures r.Ok? <==> InnerReady(doc, stats, now)
    ensures r.Ok? ==> r.value == InnerList(doc, stats, now)
  {
    if doc.inner.NoInner? {
      return Ok(None);
    }
    if doc.inner.BadInner? {
      return Err(Invalid);
    }
    var settings := doc.inner.settings;
    match doc.inner.protocol {
      case InnerOther => return Ok(None);
      case InnerSocks =>
        if emails.None? {
          return Ok(None);
        }
        var kept := ProjectSocks(settings, Usernames(doc.clients.rows, emails.value));
        return if kept.Err? then Err(kept.error) else Ok(Some(kept.value));
      case _ =>
        if emails.None? {
          r := ProjectUnbound(CoreProtocol(doc.inner.protocol), settings, stats, now);
        } else {
          var kept := ProjectBound(CoreProtocol(doc.inner.protocol), settings, emails.value, stats, now);
          r := if kept.Err? then Err(kept.error) else Ok(Some(kept.value));
        }
    }
  }

  /**
    No list that takes the place of authorization is empty: not the outer one, nor an
    inner one that is bound, nor one of a managed SS2022 server.
   */
  lemma {:induction false} NeverEmpty(doc: Document, stats: seq<Stat>, now: int)
    requires OuterReady(doc, stats, now) && InnerReady(doc, stats, now)
    ensures OuterList(doc, stats, now) != Some([])
    ensures Binds(doc) ==> InnerList(doc, stats, now) != Some([])
    ensures doc.inner.Inner? && doc.inner.protocol.InnerShadowsocks? && doc.inner.settings.Settings? && doc.inner.settings.ss2022 ==>
              InnerList(doc, stats, now) != Some([])
  {
  }

  // ---------------------------------------------------------------- what stays, and for how long

  predicate IsActive(p: Protocol, row: Row, stats: seq<Stat>, now: int) {
    Judge(p, row, stats, now) == Keep
  }

  /** The last traffic record of this email is disabled or has run out. */
  ghost predicate Barred(stats: seq<Stat>, email: string, now: int) {
    exists k :: 0 <= k < |stats| && LastOf(stats, email, k) && (!stats[k].enable || 0 < stats[k].expiry <= now)
  }

  ghost predicate LastOf(stats: seq<Stat>, email: string, k: int)
    requires 0 <= k < |stats|
  {
    stats[k].email == email && forall j | k < j < |stats| :: stats[j].email != email
  }

  predicate Enabled(c: Client) {
    Unset(c, "enable") || c["enable"] == Bool(true)
  }

  /** No time of that name, one that never comes, or one still to come; `unit` is its length in milliseconds. */
  predicate Unexpired(c: Client, key: string, unit: int, now: int) {
    Unset(c, key) || (IsInt64(c[key]) && (c[key].n <= 0 || unit * c[key].n > now))
  }

  lemma {:induction false} StatActiveIff(stats: seq<Stat>, email: string, now: int)
    ensures StatActive(stats, email, now) == Some(false) <==> Barred(stats, email, now)
  {
    if stats != [] {
      var n := |stats| - 1;
      var init := stats[..n];
      if stats[n].email == email {
        assert LastOf(stats, email, n);
      } else {
        StatActiveIff(init, email, now);
        forall k | 0 <= k < n
          ensures LastOf(init, email, k) <==> LastOf(stats, email, k)
        {
          assert forall j | k < j < n :: init[j] == stats[j];
        }
        if Barred(stats, email, now) {
          var k :| 0 <= k < |stats| && LastOf(stats, email, k) && (!stats[k].enable || 0 < stats[k].expiry <= now);
          assert LastOf(init, email, k) && init[k] == stats[k];
        }
        if Barred(init, email, now) {
          var k :| 0 <= k < n && LastOf(init, email, k) && (!init[k].enable || 0 < init[k].expiry <= now);
          assert LastOf(stats, email, k) && init[k] == stats[k];
        }
      }
    }
  }

  /** When an account stays: its record does not bar it, it is enabled, and no time of its own has passed. */
  lemma {:induction false} ActiveIff(p: Protocol, c: Client, stats: seq<Stat>, now: int)
    ensures IsActive(p, Object(c), stats, now) <==>
            && !Barred(stats, Text(c, "email"), now)
            && Enabled(c)
            && Unexpired(c, "expiryTime", 1, now)
            && (p.Orbit? ==> Unexpired(c, "expiresAt", 1000, now))
  {
    StatActiveIff(stats, Text(c, "email"), now);
    if Number(c, "expiresAt").Some? {
      SecondsPass(c, now);
    }
  }

  lemma {:induction false} SecondsPass(c: Client, now: int)
    requires Number(c, "expiresAt").Some?
    ensures 0 < Number(c, "expiresAt").value <= Seconds(now) <==> !Unexpired(c, "expiresAt", 1000, now)
  {
  }

  /** When the whole list is refused for it: an unreadable field that is looked at. */
  lemma {:induction false} FaultIff(p: Protocol, row: Row, stats: seq<Stat>, now: int)
    ensures Judge(p, row, stats, now) == Fault <==>
            if !row.Object? then p in {Orbit, Dnstt, OpenVpn, AnyTls, ShadowTls, Mieru}
            else
              var c := row.client;
              && !Barred(stats, Text(c, "email"), now)
              && ((!Unset(c, "enable") && !c["enable"].Bool?)
                  || (Enabled(c) && Unreadable(c, "expiryTime"))
                  || (p.Orbit? && Enabled(c) && Unexpired(c, "expiryTime", 1, now) && Unreadable(c, "expiresAt")))
  {
    if row.Object? {
      StatActiveIff(stats, Text(row.client, "email"), now);
    }
  }

  /** A disabled record added for an email removes the accounts of that email, and no others. */
  lemma {:induction false} DisabledRecordRemoves(p: Protocol, rows: seq<Row>, stats: seq<Stat>, r: Stat, now: int, c: Client)
    requires !r.enable
    ensures c in Kept(p, rows, stats + [r], now) <==> c in Kept(p, rows, stats, now) && Text(c, "email") != r.email
  {
    KeptIff(p, rows, stats, now, c);
    KeptIff(p, rows, stats + [r], now, c);
    assert (stats + [r])[..|stats|] == stats;
    assert StatActive(stats + [r], Text(c, "email"), now) ==
           if r.email == Text(c, "email") then Some(false) else StatActive(stats, Text(c, "email"), now);
    assert Text(c, "email") != r.email ==> Judge(p, Object(c), stats + [r], now) == Judge(p, Object(c), stats, now);
  }

  lemma {:induction false} ActiveEmailsIff(outer: seq<Row>, stats: seq<Stat>, now: int, e: string)
    ensures e in ActiveEmails(outer, stats, now) <==>
            e != "" && exists j :: 0 <= j < |outer| && IsActive(ShadowTls, outer[j], stats, now) && RowText(outer[j], "email") == e
  {
    var kept := Kept(ShadowTls, outer, stats, now);
    EmailsIff(kept, e);
    if c :| c in kept && Text(c, "email") == e {
      KeptIff(ShadowTls, outer, stats, now, c);
    }
    if j :| 0 <= j < |outer| && IsActive(ShadowTls, outer[j], stats, now) && RowText(outer[j], "email") == e {
      KeptIff(ShadowTls, outer, stats, now, outer[j].client);
      assert outer[j] == Object(outer[j].client);
    }
  }

  /** An inner account stays iff it is stored, active, and bound by its email to an active outer record. */
  lemma {:induction false} InnerKeptIff(p: Protocol, inner: seq<Row>, outer: seq<Row>, stats: seq<Stat>, now: int, c: Client)
    ensures c in InnerKept(p, inner, outer, stats, now) <==>
            && (exists i :: 0 <= i < |inner| && inner[i] == Object(c) && IsActive(p, inner[i], stats, now))
            && Text(c, "email") != ""
            && exists j :: 0 <= j < |outer| && IsActive(ShadowTls, outer[j], stats, now) && RowText(outer[j], "email") == Text(c, "email")
  {
    BoundIff(Kept(p, inner, stats, now), "email", ActiveEmails(outer, stats, now), c);
    KeptIff(p, inner, stats, now, c);
    ActiveEmailsIff(outer, stats, now, Text(c, "email"));
  }

  lemma {:induction false} ProjectedAllIff(p: Protocol, clients: seq<Client>, r: Client)
    ensures r in ProjectedAll(p, clients) <==> exists c :: c in clients && r == Projected(p, c)
  {
    if clients != [] {
      ProjectedAllIff(p, clients[1..], r);
      assert clients == [clients[0]] + clients[1..];
    }
  }

  /** The stored row is active, and this is its projection. */
  predicate Gives(p: Protocol, row: Row, stats: seq<Stat>, now: int, r: Client) {
    IsActive(p, row, stats, now) && row.Object? && r == Projected(p, row.client)
  }

  lemma {:induction false} KeptGives(p: Protocol, rows: seq<Row>, stats: seq<Stat>, now: int, r: Client)
    ensures r in ProjectedAll(p, Kept(p, rows, stats, now)) <==> exists i :: 0 <= i < |rows| && Gives(p, rows[i], stats, now, r)
  {
    var kept := Kept(p, rows, stats, now);
    ProjectedAllIff(p, kept, r);
    if c :| c in kept && r == Projected(p, c) {
      KeptIff(p, rows, stats, now, c);
    }
    if i :| 0 <= i < |rows| && Gives(p, rows[i], stats, now, r) {
      KeptIff(p, rows, stats, now, rows[i].client);
      assert rows[i] == Object(rows[i].client);
    }
  }

  /** The outer accounts go to the core in version 3 (or none given) only, and then exactly the active ones. */
  lemma {:induction false} OuterListIff(doc: Document, stats: seq<Stat>, now: int, r: Client)
    requires doc.clients.List?
    ensures OuterList(doc, stats, now).Some? <==> doc.version in {0, 3}
    ensures OuterList(doc, stats, now).Some? ==>
              (r in OuterList(doc, stats, now).value <==>
               exists j :: 0 <= j < |doc.clients.rows| && Gives(ShadowTls, doc.clients.rows[j], stats, now, r))
  {
    KeptGives(ShadowTls, doc.clients.rows, stats, now, r);
  }

  /** An active outer record has this email. */
  predicate EmailIsActive(outer: seq<Row>, stats: seq<Stat>, now: int, email: string) {
    email != "" && exists j :: 0 <= j < |outer| && IsActive(ShadowTls, outer[j], stats, now) && RowText(outer[j], "email") == email
  }

  /**
    The inner VLESS or Shadowsocks accounts that go to the core: the active ones, and in
    version 1 and 2, where the outer list authenticates nobody, only those bound by email
    to an active outer record.
   */
  lemma {:induction false} InnerListIff(doc: Document, stats: seq<Stat>, now: int, r: Client)
    requires doc.inner.Inner? && doc.inner.settings.Settings? && doc.inner.settings.accounts.List?
    requires doc.inner.protocol in {InnerVless, InnerShadowsocks}
    ensures
      var rows, p := doc.inner.settings.accounts.rows, if doc.inner.protocol == InnerVless then Vless else Shadowsocks;
      && InnerList(doc, stats, now).Some?
      && (r in InnerList(doc, stats, now).value <==>
          exists i :: 0 <= i < |rows| && Gives(p, rows[i], stats, now, r)
                      && (doc.clients.List? && doc.version !in {0, 3} ==>
                            EmailIsActive(doc.clients.rows, stats, now, RowText(rows[i], "email"))))
  {
    var rows, p := doc.inner.settings.accounts.rows, if doc.inner.protocol == InnerVless then Vless else Shadowsocks;
    if Binds(doc) {
      var outer := doc.clients.rows;
      var kept := InnerKept(p, rows, outer, stats, now);
      ProjectedAllIff(p, kept, r);
      if c :| c in kept && r == Projected(p, c) {
        InnerKeptIff(p, rows, outer, stats, now, c);
      }
      if i :| 0 <= i < |rows| && Gives(p, rows[i], stats, now, r) && EmailIsActive(outer, stats, now, RowText(rows[i], "email")) {
        InnerKeptIff(p, rows, outer, stats, now, rows[i].client);
        assert rows[i] == Object(rows[i].client);
      }
    } else {
      KeptGives(p, rows, stats, now, r);
    }
  }

  /** The inner accounts that stay only become fewer as the clock advances. */
  lemma {:induction false} InnerKeptOverTime(p: Protocol, inner: seq<Row>, outer: seq<Row>, stats: seq<Stat>, now: int, later: int, c: Client)
    requires now <= later && c in InnerKept(p, inner, outer, stats, later)
    ensures c in InnerKept(p, inner, outer, stats, now)
  {
    BoundIff(Kept(p, inner, stats, later), "email", ActiveEmails(outer, stats, later), c);
    BoundIff(Kept(p, inner, stats, now), "email", ActiveEmails(outer, stats, now), c);
    KeptOverTime(p, inner, stats, now, later);
    EmailsOverTime(outer, stats, now, later);
  }

  lemma {:induction false} EmailsOverTime(outer: seq<Row>, stats: seq<Stat>, now: int, later: int)
    requires now <= later
    ensures ActiveEmails(outer, stats, later) <= ActiveEmails(outer, stats, now)
  {
    KeptOverTime(ShadowTls, outer, stats, now, later);
    forall e | e in ActiveEmails(outer, stats, later) ensures e in ActiveEmails(outer, stats, now) {
      EmailsIff(Kept(ShadowTls, outer, stats, later), e);
      EmailsIff(Kept(ShadowTls, outer, stats, now), e);
    }
  }

  // ---------------------------------------------------------------- SOCKS accounts

  lemma {:induction false} SocksKeptIff(inner: seq<Client>, outer: seq<Row>, stats: seq<Stat>, now: int, c: Client)
    ensures c in SocksKept(inner, outer, stats, now) <==>
            && c in inner && Text(c, "user") != ""
            && exists j :: 0 <= j < |outer| && RowText(outer[j], "innerUsername") == Text(c, "user")
                           && RowText(outer[j], "email") in ActiveEmails(outer, stats, now)
  {
    BoundIff(inner, "user", Usernames(outer, ActiveEmails(outer, stats, now)), c);
    UsernamesIff(outer, ActiveEmails(outer, stats, now), Text(c, "user"));
  }

  /** And the SOCKS accounts that stay only become fewer as the clock advances. */
  lemma {:induction false} SocksKeptOverTime(inner: seq<Client>, outer: seq<Row>, stats: seq<Stat>, now: int, later: int, c: Client)
    requires now <= later && c in SocksKept(inner, outer, stats, later)
    ensures c in SocksKept(inner, outer, stats, now)
  {
    SocksKeptIff(inner, outer, stats, later, c);
    SocksKeptIff(inner, outer, stats, now, c);
    EmailsOverTime(outer, stats, now, later);
  }

  /** An active outer record names this user itself. */
  predicate NamedByActive(outer: seq<Row>, stats: seq<Stat>, now: int, user: string) {
    exists k :: 0 <= k < |outer| && IsActive(ShadowTls, outer[k], stats, now)
                && RowText(outer[k], "email") != "" && RowText(outer[k], "innerUsername") == user
  }

  lemma {:induction false} NamedStays(inner: seq<Client>, outer: seq<Row>, stats: seq<Stat>, now: int, c: Client)
    requires c in inner && Text(c, "user") != "" && NamedByActive(outer, stats, now, Text(c, "user"))
    ensures c in SocksKept(inner, outer, stats, now)
  {
    var k :| 0 <= k < |outer| && IsActive(ShadowTls, outer[k], stats, now)
             && RowText(outer[k], "email") != "" && RowText(outer[k], "innerUsername") == Text(c, "user");
    ActiveEmailsIff(outer, stats, now, RowText(outer[k], "email"));
    SocksKeptIff(inner, outer, stats, now, c);
  }

  /** No record that merely shares its email with an active one names a user of its own. */
  predicate NoBorrowedName(outer: seq<Row>, stats: seq<Stat>, now: int) {
    forall j | 0 <= j < |outer| && RowText(outer[j], "email") in ActiveEmails(outer, stats, now)
               && RowText(outer[j], "innerUsername") != "" ::
      NamedByActive(outer, stats, now, RowText(outer[j], "innerUsername"))
  }

  /** Exactly then every SOCKS account that stays is one an active record names. */
  lemma {:induction false} SocksExact(outer: seq<Row>, stats: seq<Stat>, now: int)
    ensures NoBorrowedName(outer, stats, now) <==>
            forall inner: seq<Client>, c: Client | c in SocksKept(inner, outer, stats, now) ::
              NamedByActive(outer, stats, now, Text(c, "user"))
  {
    if NoBorrowedName(outer, stats, now) {
      forall inner: seq<Client>, c: Client | c in SocksKept(inner, outer, stats, now)
        ensures NamedByActive(outer, stats, now, Text(c, "user"))
      {
        SocksKeptIff(inner, outer, stats, now, c);
      }
    } else {
      var j :| 0 <= j < |outer| && RowText(outer[j], "email") in ActiveEmails(outer, stats, now)
               && RowText(outer[j], "innerUsername") != ""
               && !NamedByActive(outer, stats, now, RowText(outer[j], "innerUsername"));
      var c: Client := map["user" := Str(RowText(outer[j], "innerUsername"))];
      SocksKeptIff([c], outer, stats, now, c);
      assert c in SocksKept([c], outer, stats, now);
    }
  }

  predicate DistinctEmails(outer: seq<Row>) {
    forall i, j | 0 <= i < |outer| && 0 <= j < |outer| && RowText(outer[i], "email") == RowText(outer[j], "email") :: i == j
  }

  lemma {:induction false} DistinctEmailsSuffice(outer: seq<Row>, stats: seq<Stat>, now: int)
    requires DistinctEmails(outer)
    ensures NoBorrowedName(outer, stats, now)
  {
    forall j | 0 <= j < |outer| && RowText(outer[j], "email") in ActiveEmails(outer, stats, now)
               && RowText(outer[j], "innerUsername") != ""
      ensures NamedByActive(outer, stats, now, RowText(outer[j], "innerUsername"))
    {
      ActiveEmailsIff(outer, stats, now, RowText(outer[j], "email"));
    }
  }

  /** A disabled record that shares its email with an active one keeps its SOCKS account alive. */
  lemma {:induction false} DisabledRecordKeepsAccount()
    ensures
      var on: Client := map["email" := Str("a"), "innerUsername" := Str("u")];
      var off: Client := map["email" := Str("a"), "innerUsername" := Str("v"), "enable" := Bool(false)];
      var outer, account: Client := [Object(on), Object(off)], map["user" := Str("v")];
      account in SocksKept([account], outer, [], 0) && !NamedByActive(outer, [], 0, "v")
  {
    var on: Client := map["email" := Str("a"), "innerUsername" := Str("u")];
    var off: Client := map["email" := Str("a"), "innerUsername" := Str("v"), "enable" := Bool(false)];
    var outer, account: Client := [Object(on), Object(off)], map["user" := Str("v")];
    assert IsActive(ShadowTls, outer[0], [], 0) && !IsActive(ShadowTls, outer[1], [], 0);
    assert RowText(outer[0], "email") == "a" && RowText(outer[1], "innerUsername") == "v";
    ActiveEmailsIff(outer, [], 0, "a");
    SocksKeptIff([account], outer, [], 0, account);
    assert RowText(outer[0], "innerUsername") == "u";
  }
}
