/**
  The managed inner account list of a ShadowTLS listener: appending accounts with new
  outer clients, renaming one with its outer client
  (web/service/native_client_append.go) and selecting one for export
  (util/native_client/export.go:67-96).
 */
module InnerAccounts {
  import opened NativeProjection
  import opened Collections
  import opened Strings

  function Id(row: Row, key: string): (s: string) {
    RowText(row, key)
  }

  /** Every row is an account with an identity of its own. */
  predicate Unambiguous(rows: seq<Row>, key: string) {
    && (forall i | 0 <= i < |rows| :: rows[i].Object? && Id(rows[i], key) != "")
    && forall i, j | 0 <= i < j < |rows| :: Id(rows[i], key) != Id(rows[j], key)
  }

  predicate HasId(rows: seq<Row>, key: string, id: string) {
    exists i :: 0 <= i < |rows| && Id(rows[i], key) == id
  }

  predicate Trimmed(s: string) {
    Trim(s) == s
  }

  /** No space at either end. */
  lemma {:induction false} TrimmedIff(s: string)
    ensures Trimmed(s) <==> s == "" || (!IsSpace(s[0]) && !IsSpace(s[|s| - 1]))
  {
    TrimRightEnds(TrimLeft(s));
  }

  // ---------------------------------------------------------------- the scans of appendNativeInnerClients

  /** What nativeInnerAppendCredential finds in a row: an error, nothing, or a credential. */
  type Credential = Client -> Option<string>

  predicate CredentialsRead(rows: seq<Row>, credential: Credential) {
    forall i | 0 <= i < |rows| :: rows[i].Object? && credential(rows[i].client).Some?
  }

  predicate HasCredential(rows: seq<Row>, credential: Credential, value: string) {
    value != "" && exists i :: 0 <= i < |rows| && rows[i].Object? && credential(rows[i].client) == Some(value)
  }

  /** Lines 74-93: the identities and credentials that are taken. */
  method ScanStored(rows: seq<Row>, key: string, credential: Credential)
    returns (ok: bool, existing: set<string>, credentials: set<string>)
    ensures ok <==> Unambiguous(rows, key) && CredentialsRead(rows, credential)
    ensures ok ==> forall id :: id in existing <==> HasId(rows, key, id)
    ensures ok ==> forall v :: v in credentials <==> HasCredential(rows, credential, v)
  {
    existing, credentials, ok := {}, {}, true;
    for k := 0 to |rows|
      invariant ok && Unambiguous(rows[..k], key) && CredentialsRead(rows[..k], credential)
      invariant forall id :: id in existing <==> HasId(rows[..k], key, id)
      invariant forall v :: v in credentials <==> HasCredential(rows[..k], credential, v)
    {
      var row := rows[k];
      ghost var before, now := rows[..k], rows[..k + 1];
      assert now == before + [row];
      HasIdSnoc(before, row, key);
      HasCredentialSnoc(before, row, credential);
      if !row.Object? || Id(row, key) == "" || Id(row, key) in existing || credential(row.client).None? {
        Refuses(rows, key, credential, k);
        ok := false;
        return;
      }
      UnambiguousSnoc(before, row, key);
      existing := existing + {Id(row, key)};
      if credential(row.client).value != "" {
        credentials := credentials + {credential(row.client).value};
      }
    }
    assert rows[..|rows|] == rows;
  }

  lemma {:induction false} HasIdSnoc(rows: seq<Row>, row: Row, key: string)
    ensures forall id :: HasId(rows + [row], key, id) <==> HasId(rows, key, id) || Id(row, key) == id
  {
    var now := rows + [row];
    forall id ensures HasId(now, key, id) <==> HasId(rows, key, id) || Id(row, key) == id {
      if i :| 0 <= i < |rows| && Id(rows[i], key) == id {
        assert now[i] == rows[i];
      }
      if Id(row, key) == id {
        assert now[|rows|] == row;
      }
    }
  }

  lemma {:induction false} HasCredentialSnoc(rows: seq<Row>, row: Row, credential: Credential)
    ensures forall v :: HasCredential(rows + [row], credential, v) <==>
                        HasCredential(rows, credential, v) || (v != "" && row.Object? && credential(row.client) == Some(v))
  {
    var now := rows + [row];
    forall v ensures HasCredential(now, credential, v) <==>
                     HasCredential(rows, credential, v) || (v != "" && row.Object? && credential(row.client) == Some(v)) {
      if i :| 0 <= i < |rows| && rows[i].Object? && credential(rows[i].client) == Some(v) {
        assert now[i] == rows[i];
      }
      assert now[|rows|] == row;
    }
  }

  lemma {:induction false} UnambiguousSnoc(rows: seq<Row>, row: Row, key: string)
    requires Unambiguous(rows, key) && row.Object? && Id(row, key) != "" && !HasId(rows, key, Id(row, key))
    ensures Unambiguous(rows + [row], key)
  {
  }

  lemma {:induction false} Refuses(rows: seq<Row>, key: string, credential: Credential, k: nat)
    requires k < |rows|
    requires !rows[k].Object? || Id(rows[k], key) == "" || HasId(rows[..k], key, Id(rows[k], key)) || credential(rows[k].client).None?
    ensures !(Unambiguous(rows, key) && CredentialsRead(rows, credential))
  {
    if HasId(rows[..k], key, Id(rows[k], key)) {
      var i :| 0 <= i < k && Id(rows[..k][i], key) == Id(rows[k], key);
      assert rows[i] == rows[..k][i];
    }
  }

  /** Lines 94-105: the new outer accounts name distinct, exact identities. */
  method ScanAdded(added: seq<string>) returns (ok: bool, wanted: set<string>)
    ensures ok <==> (forall i | 0 <= i < |added| :: added[i] != "" && Trimmed(added[i])) &&
                    (forall i, j | 0 <= i < j < |added| :: added[i] != added[j])
    ensures ok ==> forall id :: id in wanted <==> id in added
  {
    ok, wanted := true, {};
    for k := 0 to |added|
      invariant ok && forall i | 0 <= i < k :: added[i] != "" && Trimmed(added[i])
      invariant forall i, j | 0 <= i < j < k :: added[i] != added[j]
      invariant forall id :: id in wanted <==> id in added[..k]
    {
      if added[k] == "" || !Trimmed(added[k]) || added[k] in wanted {
        ok := false;
        return;
      }
      assert added[..k + 1] == added[..k] + [added[k]];
      wanted := wanted + {added[k]};
    }
    assert added[..|added|] == added;
  }

  /** A supplemental row of the request that may be appended after `taken`. */
  predicate Fits(row: Row, taken: seq<Row>, key: string, wanted: set<string>, allowed: set<string>, credential: Credential) {
    && row.Object? && Id(row, key) in wanted && !HasId(taken, key, Id(row, key))
    && (forall field | field in row.client :: field in allowed)
    && credential(row.client).Some? && !HasCredential(taken, credential, credential(row.client).value)
  }

  /** Each row fits after the stored ones and the ones before it. */
  predicate AllFit(rows: seq<Row>, incoming: seq<Row>, key: string, wanted: set<string>, allowed: set<string>, credential: Credential)
    decreases |incoming|
  {
    incoming == [] ||
    (Fits(incoming[0], rows, key, wanted, allowed, credential) &&
     AllFit(rows + [incoming[0]], incoming[1..], key, wanted, allowed, credential))
  }

  /** Lines 121-147. */
  method ScanIncoming(rows: seq<Row>, incoming: seq<Row>, key: string, wanted: set<string>, allowed: set<string>,
                      credential: Credential, existing: set<string>, credentials: set<string>)
    returns (ok: bool, seen: set<string>)
    requires forall id :: id in existing <==> HasId(rows, key, id)
    requires forall v :: v in credentials <==> HasCredential(rows, credential, v)
    ensures ok <==> AllFit(rows, incoming, key, wanted, allowed, credential)
    ensures ok ==> forall id :: id in existing + seen <==> HasId(rows + incoming, key, id)
  {
    ok, seen := true, {};
    var taken, rest, used := rows, incoming, credentials;
    while rest != []
      invariant ok && taken + rest == rows + incoming
      invariant AllFit(rows, incoming, key, wanted, allowed, credential) == AllFit(taken, rest, key, wanted, allowed, credential)
      invariant forall id :: id in existing + seen <==> HasId(taken, key, id)
      invariant forall v :: v in used <==> HasCredential(taken, credential, v)
      decreases |rest|
    {
      var row := rest[0];
      if !row.Object? || Id(row, key) !in wanted || Id(row, key) in seen || Id(row, key) in existing
         || (exists field | field in row.client :: field !in allowed)
         || credential(row.client).None? || credential(row.client).value in used {
        ok := false;
        return;
      }
      HasIdSnoc(taken, row, key);
      HasCredentialSnoc(taken, row, credential);
      if credential(row.client).value != "" {
        used := used + {credential(row.client).value};
      }
      seen := seen + {Id(row, key)};
      Assoc(taken, [row], rest[1..]);
      taken, rest := taken + [row], rest[1..];
    }
    assert taken == rows + incoming;
  }

  /** Rows that fit keep the list unambiguous. */
  lemma {:induction false} FittingIsUnambiguous(rows: seq<Row>, incoming: seq<Row>, key: string, wanted: set<string>,
                                                allowed: set<string>, credential: Credential)
    requires Unambiguous(rows, key) && "" !in wanted && AllFit(rows, incoming, key, wanted, allowed, credential)
    ensures Unambiguous(rows + incoming, key)
    decreases |incoming|
  {
    if incoming == [] {
      assert rows + incoming == rows;
    } else {
      UnambiguousSnoc(rows, incoming[0], key);
      FittingIsUnambiguous(rows + [incoming[0]], incoming[1..], key, wanted, allowed, credential);
      assert rows + incoming == rows + [incoming[0]] + incoming[1..];
    }
  }

  /** And no appended account shares its credential with another account. */
  lemma {:induction false} FittingHasOwnCredential(rows: seq<Row>, incoming: seq<Row>, key: string, wanted: set<string>,
                                                   allowed: set<string>, credential: Credential, i: nat, j: nat)
    requires AllFit(rows, incoming, key, wanted, allowed, credential)
    requires i < j && |rows| <= j < |rows + incoming|
    ensures !Shares(rows + incoming, credential, i, j)
    decreases |incoming|
  {
    var all := rows + incoming;
    if j == |rows| {
      assert all[j] == incoming[0] && all[i] == rows[i];
    } else {
      assert all == rows + [incoming[0]] + incoming[1..];
      FittingHasOwnCredential(rows + [incoming[0]], incoming[1..], key, wanted, allowed, credential, i, j);
    }
  }

  // ---------------------------------------------------------------- the listener

  /** The inner part of the request to add clients. */
  datatype Supplement = NotSupplied | WrongShape | Supplied(rows: seq<Row>)

  /** A row with another email. */
  function Renamed(row: Row, email: string): (r: Row) {
    if row.Object? then Object(row.client["email" := Str(email)]) else row
  }

  /** row["email"] == email */
  predicate EmailIs(row: Row, email: string) {
    row.Object? && "email" in row.client && row.client["email"] == Str(email)
  }

  datatype Edit = Adding(added: seq<string>, supplement: Supplement) | Renaming(oldEmail: string, newEmail: string)

  /** How accounts are bound: the identity field, the fields a new row may have, and its credential. */
  datatype Rules = Rules(binding: string, allowed: set<string>, credential: Credential)

  /** The inner account list, and the identities that the outer accounts are bound by. */
  datatype Lists = Lists(rows: seq<Row>, outer: set<string>)

  /** Every outer account is bound to exactly one inner row. */
  predicate AllBound(c: Rules, v: Lists) {
    Unambiguous(v.rows, c.binding) && forall id | id in v.outer :: HasId(v.rows, c.binding, id)
  }

  predicate DistinctExact(added: seq<string>) {
    && (forall i | 0 <= i < |added| :: added[i] != "" && Trimmed(added[i]))
    && forall i, j | 0 <= i < j < |added| :: added[i] != added[j]
  }

  function Members(added: seq<string>): (ids: set<string>) {
    set id | id in added
  }

  function Incoming(supplement: Supplement): (rows: seq<Row>) {
    if supplement.Supplied? then supplement.rows else []
  }

  /** When the accounts may be added. */
  predicate Appendable(c: Rules, rows: seq<Row>, added: seq<string>, supplement: Supplement) {
    && Unambiguous(rows, c.binding) && CredentialsRead(rows, c.credential) && DistinctExact(added)
    && !supplement.WrongShape? && supplement != Supplied([])
    && AllFit(rows, Incoming(supplement), c.binding, Members(added), c.allowed, c.credential)
    && forall id | id in added :: HasId(rows + Incoming(supplement), c.binding, id)
  }

  predicate OnlyEmail(rows: seq<Row>, email: string, k: int) {
    0 <= k < |rows| && forall i | 0 <= i < |rows| :: EmailIs(rows[i], email) <==> i == k
  }

  /** When an account may be renamed. */
  ghost predicate Renamable(rows: seq<Row>, oldEmail: string, newEmail: string) {
    && (forall i | 0 <= i < |rows| :: rows[i].Object? && !EmailIs(rows[i], newEmail))
    && exists k :: OnlyEmail(rows, oldEmail, k)
  }

  /** The rows with that email, renamed. */
  function RenamedAll(rows: seq<Row>, oldEmail: string, newEmail: string): (r: seq<Row>)
    ensures |r| == |rows|
  {
    seq(|rows|, i requires 0 <= i < |rows| => if EmailIs(rows[i], oldEmail) then Renamed(rows[i], newEmail) else rows[i])
  }

  /** What an edit leaves: a refused one leaves everything as it was, and accounts not bound by email have no email to change. */
  ghost function After(c: Rules, v: Lists, e: Edit): (w: Lists) {
    match e
    case Adding(added, supplement) =>
      if Appendable(c, v.rows, added, supplement)
      then Lists(v.rows + Incoming(supplement), v.outer + Members(added)) else v
    case Renaming(oldEmail, newEmail) =>
      if c.binding == "email" && oldEmail != newEmail && Renamable(v.rows, oldEmail, newEmail)
      then Lists(RenamedAll(v.rows, oldEmail, newEmail), v.outer - {oldEmail} + {newEmail}) else v
  }

  /** web/service/native_client_helpers.go:34-56: the panel refuses a client without an email before it renames anything. */
  predicate Validated(e: Edit) {
    e.Renaming? ==> e.newEmail != ""
  }

  /** What an edit leaves when it comes through the panel. */
  ghost function Handled(c: Rules, v: Lists, e: Edit): (w: Lists) {
    if Validated(e) then After(c, v, e) else v
  }

  ghost function HandledAll(c: Rules, v: Lists, edits: seq<Edit>): (w: Lists)
    decreases |edits|
  {
    if edits == [] then v else HandledAll(c, Handled(c, v, edits[0]), edits[1..])
  }

  // ---------------------------------------------------------------- what edits keep

  lemma {:induction false} AppendKeeps(c: Rules, v: Lists, added: seq<string>, supplement: Supplement)
    requires Appendable(c, v.rows, added, supplement)
    ensures
      var w := After(c, v, Adding(added, supplement));
      && v.rows <= w.rows && Unambiguous(w.rows, c.binding)
      && (forall k | |v.rows| <= k < |w.rows| :: Id(w.rows[k], c.binding) in added && OnlyFields(w.rows[k], c.allowed))
      && OwnCredentials(w.rows, |v.rows|, c.credential)
      && (AllBound(c, v) ==> AllBound(c, w))
      && forall id :: id in w.outer <==> id in v.outer || id in added
  {
    Appended(v.rows, Incoming(supplement), c.binding, Members(added), c.allowed, c.credential);
  }

  /** A rename keeps the bindings exactly when the new email is not empty, which is for the caller to see to. */
  lemma {:induction false} RenameKeepsIff(c: Rules, v: Lists, oldEmail: string, newEmail: string)
    requires c.binding == "email" && AllBound(c, v) && oldEmail != newEmail && Renamable(v.rows, oldEmail, newEmail)
    ensures AllBound(c, After(c, v, Renaming(oldEmail, newEmail))) <==> newEmail != ""
  {
    var rows, now := v.rows, RenamedAll(v.rows, oldEmail, newEmail);
    var k :| OnlyEmail(rows, oldEmail, k);
    assert Id(now[k], "email") == newEmail;
    if newEmail != "" {
      forall i | 0 <= i < |rows| && i != k ensures Id(now[i], "email") != newEmail && now[i] == rows[i] {
      }
      forall id | id in v.outer - {oldEmail} + {newEmail} ensures HasId(now, "email", id) {
        if id != newEmail {
          var i :| 0 <= i < |rows| && Id(rows[i], "email") == id;
          assert i != k;
          assert now[i] == rows[i];
        }
      }
    }
  }

  /** A rename gives the one row with the old email the new one, keeps its other fields and every other row, and the outer account follows. */
  lemma {:induction false} RenameMovesOne(c: Rules, v: Lists, oldEmail: string, newEmail: string, k: nat)
    requires c.binding == "email" && oldEmail != newEmail && Renamable(v.rows, oldEmail, newEmail) && OnlyEmail(v.rows, oldEmail, k)
    ensures
      var w := After(c, v, Renaming(oldEmail, newEmail));
      && |w.rows| == |v.rows| && (forall i | 0 <= i < |v.rows| && i != k :: w.rows[i] == v.rows[i])
      && w.rows[k].Object? && Text(w.rows[k].client, "email") == newEmail
      && w.rows[k].client - {"email"} == v.rows[k].client - {"email"}
      && forall id :: id in w.outer <==> id == newEmail || (id in v.outer && id != oldEmail)
  {
  }

  /** Without that check: a concrete list that a rename to the empty email leaves without a binding. */
  lemma {:induction false} RenameToNothing()
    ensures
      var row: Client := map["email" := Str("a")];
      var c, v := Rules("email", {}, _ => Some("")), Lists([Object(row)], {"a"});
      AllBound(c, v) && !AllBound(c, After(c, v, Renaming("a", "")))
  {
    var row: Client := map["email" := Str("a")];
    var c, v := Rules("email", {}, _ => Some("")), Lists([Object(row)], {"a"});
    assert Id(v.rows[0], "email") == "a" && HasId(v.rows, "email", "a");
    assert OnlyEmail(v.rows, "a", 0) && !EmailIs(v.rows[0], "");
    RenameKeepsIff(c, v, "a", "");
  }

  /** Every edit that the panel lets through keeps the bindings. */
  lemma {:induction false} EditKeepsBindings(c: Rules, v: Lists, e: Edit)
    requires AllBound(c, v)
    ensures AllBound(c, Handled(c, v, e))
  {
    match e
    case Adding(added, supplement) =>
      if Appendable(c, v.rows, added, supplement) {
        AppendKeeps(c, v, added, supplement);
      }
    case Renaming(oldEmail, newEmail) =>
      if Validated(e) && c.binding == "email" && oldEmail != newEmail && Renamable(v.rows, oldEmail, newEmail) {
        RenameKeepsIff(c, v, oldEmail, newEmail);
      }
  }

  /** Any sequence of edits made through the panel keeps every outer account bound to exactly one row. */
  lemma {:induction false} EditsKeepBindings(c: Rules, v: Lists, edits: seq<Edit>)
    requires AllBound(c, v)
    ensures AllBound(c, HandledAll(c, v, edits))
    decreases |edits|
  {
    if edits != [] {
      EditKeepsBindings(c, v, edits[0]);
      EditsKeepBindings(c, Handled(c, v, edits[0]), edits[1..]);
    }
  }

  /** The same account, up to its email. */
  predicate SameButEmail(a: Row, b: Row) {
    a == b || (a.Object? && b.Object? && a.client - {"email"} == b.client - {"email"})
  }

  /** Old rows keep their places and everything but their emails. */
  predicate InPlace(before: seq<Row>, after: seq<Row>) {
    |before| <= |after| && forall i | 0 <= i < |before| :: SameButEmail(before[i], after[i])
  }

  lemma {:induction false} EditKeepsRows(c: Rules, v: Lists, e: Edit)
    ensures InPlace(v.rows, Handled(c, v, e).rows)
  {
    var w := Handled(c, v, e);
    forall i | 0 <= i < |v.rows| ensures SameButEmail(v.rows[i], w.rows[i]) {
      if e.Renaming? && w != v && EmailIs(v.rows[i], e.oldEmail) {
        var a := v.rows[i].client;
        assert w.rows[i] == Object(a["email" := Str(e.newEmail)]);
        assert a - {"email"} == a["email" := Str(e.newEmail)] - {"email"};
      }
    }
  }

  /** Any sequence of edits keeps every old row in its place, up to its email. */
  lemma {:induction false} EditsKeepRows(c: Rules, v: Lists, edits: seq<Edit>)
    ensures InPlace(v.rows, HandledAll(c, v, edits).rows)
    decreases |edits|
  {
    if edits != [] {
      var w := Handled(c, v, edits[0]);
      EditKeepsRows(c, v, edits[0]);
      EditsKeepRows(c, w, edits[1..]);
      var u := HandledAll(c, v, edits);
      forall i | 0 <= i < |v.rows| ensures SameButEmail(v.rows[i], u.rows[i]) {
        assert SameButEmail(v.rows[i], w.rows[i]) && SameButEmail(w.rows[i], u.rows[i]);
      }
    }
  }

  /** A listener with a managed list of inner accounts. */
  class Listener {
    const binding: string
    const allowed: set<string>
    const credential: Credential
    var rows: seq<Row>
    var outer: set<string>

    constructor (binding: string, allowed: set<string>, credential: Credential, rows: seq<Row>, outer: set<string>)
      ensures this.binding == binding && this.allowed == allowed && this.credential == credential
      ensures this.rows == rows && this.outer == outer
    {
      this.binding, this.allowed, this.credential := binding, allowed, credential;
      this.rows, this.outer := rows, outer;
    }

    function Binding(): (c: Rules) {
      Rules(binding, allowed, credential)
    }

    function Value(): (v: Lists)
      reads this
    {
      Lists(rows, outer)
    }

    ghost predicate Valid()
      reads this
    {
      AllBound(Binding(), Value())
    }

    /**
      appendNativeInnerClients, together with the outer accounts it is called for. It
      succeeds exactly when the accounts may be added, and otherwise changes nothing.
     */
    method Append(added: seq<string>, supplement: Supplement) returns (ok: bool)
      modifies this
      ensures ok <==> Appendable(Binding(), old(rows), added, supplement)
      ensures Value() == After(Binding(), old(Value()), Adding(added, supplement))
      ensures old(Valid()) ==> Valid()
    {
      ok := false;
      var readable, existing, credentials := ScanStored(rows, binding, credential);
      var named, wanted := ScanAdded(added);
      if !readable || !named || supplement.WrongShape? || supplement == Supplied([]) {
        return;
      }
      assert wanted == Members(added);
      var incoming := Incoming(supplement);
      var fit, seen := ScanIncoming(rows, incoming, binding, wanted, allowed, credential, existing, credentials);
      if !fit || exists id | id in wanted :: id !in seen && id !in existing {
        return;
      }
      AppendKeeps(Binding(), Value(), added, supplement);
      ok := true;
      rows, outer := rows + incoming, outer + wanted;
    }

    /** renameNativeInnerClient with the rename of the outer account. */
    method Rename(oldEmail: string, newEmail: string) returns (ok: bool)
      modifies this
      ensures ok <==> oldEmail == newEmail || binding != "email" || Renamable(old(rows), oldEmail, newEmail)
      ensures Value() == After(Binding(), old(Value()), Renaming(oldEmail, newEmail))
      ensures old(Valid()) && newEmail != "" ==> Valid()
    {
      if oldEmail == newEmail || binding != "email" {
        return true;
      }
      ok := false;
      var selected := Selected(rows, oldEmail, newEmail);
      if selected < 0 {
        return;
      }
      ok := true;
      ghost var v := Value();
      if Valid() && newEmail != "" {
        RenameKeepsIff(Binding(), v, oldEmail, newEmail);
      }
      rows := rows[selected := Renamed(rows[selected], newEmail)];
      assert rows == RenamedAll(v.rows, oldEmail, newEmail);
      outer := outer - {oldEmail} + {newEmail};
    }

    /** web/service/inbound.go:942-1007: an update of a client is validated before its inner account is renamed. */
    method UpdateClient(oldEmail: string, newEmail: string) returns (ok: bool)
      modifies this
      ensures ok <==> newEmail != "" && (oldEmail == newEmail || binding != "email" || Renamable(old(rows), oldEmail, newEmail))
      ensures Value() == Handled(Binding(), old(Value()), Renaming(oldEmail, newEmail))
      ensures old(Valid()) ==> Valid()
    {
      if newEmail == "" {
        return false;
      }
      ok := Rename(oldEmail, newEmail);
    }

    /** Any sequence of edits made through the panel, failed ones included, leaves what their composition says. */
    method Edit(edits: seq<Edit>)
      modifies this
      ensures Value() == HandledAll(Binding(), old(Value()), edits)
      ensures InPlace(old(rows), rows)
      ensures old(Valid()) ==> Valid()
    {
      ghost var v := Value();
      EditsKeepRows(Binding(), v, edits);
      if Valid() {
        EditsKeepBindings(Binding(), v, edits);
      }
      var rest := edits;
      while rest != []
        invariant HandledAll(Binding(), v, edits) == HandledAll(Binding(), Value(), rest)
        decreases |rest|
      {
        match rest[0] {
          case Adding(added, supplement) =>
            var ok := Append(added, supplement);
          case Renaming(oldEmail, newEmail) =>
            var ok := UpdateClient(oldEmail, newEmail);
        }
        rest := rest[1..];
      }
    }

    /**
      exportSelectedClient at the time `now`: exactly one row of that identity, and that
      row enabled and not expired, or no export. A bound outer account is never ambiguous.
     */
    method Select(identity: string, now: int) returns (found: Option<Client>)
      ensures found.Some? <==> identity != "" && exists k :: OnlyOne(rows, binding, identity, k) && Exportable(rows[k], now)
      ensures found.Some? ==> exists k :: OnlyOne(rows, binding, identity, k) && rows[k] == Object(found.value)
      ensures Valid() && identity in outer ==> exists k :: OnlyOne(rows, binding, identity, k)
      ensures Valid() && identity in outer && (forall k | 0 <= k < |rows| :: Exportable(rows[k], now)) ==> found.Some?
    {
      found := None;
      if identity == "" {
        return;
      }
      var at := -1;
      for k := 0 to |rows|
        invariant -1 <= at < k
        invariant forall i | 0 <= i < k :: Id(rows[i], binding) == identity <==> i == at
      {
        if Id(rows[k], binding) == identity {
          if at >= 0 {
            Ambiguous(rows, binding, identity, at, k);
            return;
          }
          at := k;
        }
      }
      if at >= 0 {
        assert OnlyOne(rows, binding, identity, at);
        if Exportable(rows[at], now) {
          found := Some(rows[at].client);
        }
      }
    }
  }

  /** The row is not disabled and has not expired. */
  predicate Exportable(row: Row, now: int) {
    row.Object? ==>
      && !("enable" in row.client && row.client["enable"] == Bool(false))
      && !("expiryTime" in row.client && row.client["expiryTime"].Int? && 0 < row.client["expiryTime"].n <= now)
  }

  /** Row k, and no other, has this identity. */
  predicate OnlyOne(rows: seq<Row>, key: string, id: string, k: int) {
    && 0 <= k < |rows| && Id(rows[k], key) == id
    && forall i | 0 <= i < |rows| && i != k :: Id(rows[i], key) != id
  }

  /** The j-th account has its credential from account i. */
  predicate Shares(rows: seq<Row>, credential: Credential, i: int, j: int)
    requires 0 <= i < |rows| && 0 <= j < |rows|
  {
    && rows[i].Object? && rows[j].Object?
    && credential(rows[j].client) == credential(rows[i].client)
    && credential(rows[j].client) != Some("")
  }

  /** No account from position n on shares its credential with an earlier one. */
  predicate OwnCredentials(rows: seq<Row>, n: nat, credential: Credential) {
    forall i, j | 0 <= i < j < |rows| && j >= n :: !Shares(rows, credential, i, j)
  }

  /** The row is an account with fields of these names only. */
  predicate OnlyFields(row: Row, allowed: set<string>) {
    row.Object? && row.client.Keys <= allowed
  }

  /**
    What is exported is what the core accepts: a row whose fields can be read is exportable
    iff the projection keeps it, unless its traffic record bars it.
   */
  lemma {:induction false} ExportableIffActive(p: Protocol, c: Client, stats: seq<Stat>, now: int)
    requires !p.Orbit? && (Unset(c, "enable") || c["enable"].Bool?) && !Unreadable(c, "expiryTime")
    ensures IsActive(p, Object(c), stats, now) <==> Exportable(Object(c), now) && !Barred(stats, Text(c, "email"), now)
  {
    ActiveIff(p, c, stats, now);
  }

  lemma {:induction false} Ambiguous(rows: seq<Row>, key: string, id: string, i: int, j: int)
    requires 0 <= i < j < |rows| && Id(rows[i], key) == id && Id(rows[j], key) == id
    ensures forall k :: !OnlyOne(rows, key, id, k)
    ensures !Unambiguous(rows, key)
  {
  }

  lemma {:induction false} Appended(rows: seq<Row>, incoming: seq<Row>, key: string, wanted: set<string>,
                                    allowed: set<string>, credential: Credential)
    requires Unambiguous(rows, key) && "" !in wanted && AllFit(rows, incoming, key, wanted, allowed, credential)
    ensures Unambiguous(rows + incoming, key)
    ensures forall id :: HasId(rows, key, id) ==> HasId(rows + incoming, key, id)
    ensures forall k | |rows| <= k < |rows + incoming| ::
              Id((rows + incoming)[k], key) in wanted && OnlyFields((rows + incoming)[k], allowed)
    ensures OwnCredentials(rows + incoming, |rows|, credential)
  {
    var all := rows + incoming;
    FittingIsUnambiguous(rows, incoming, key, wanted, allowed, credential);
    forall id | HasId(rows, key, id) ensures HasId(all, key, id) {
      var i :| 0 <= i < |rows| && Id(rows[i], key) == id;
      assert all[i] == rows[i];
    }
    FittingIsWanted(rows, incoming, key, wanted, allowed, credential);
    forall k | |rows| <= k < |all| ensures Id(all[k], key) in wanted && OnlyFields(all[k], allowed) {
      assert all[k] == incoming[k - |rows|];
    }
    forall i, j | 0 <= i < j < |all| && j >= |rows| ensures !Shares(all, credential, i, j) {
      FittingHasOwnCredential(rows, incoming, key, wanted, allowed, credential, i, j);
    }
  }

  /** What each new row must be by itself. */
  predicate NewRow(row: Row, key: string, wanted: set<string>, allowed: set<string>, credential: Credential) {
    OnlyFields(row, allowed) && Id(row, key) in wanted && credential(row.client).Some?
  }

  predicate NewRows(incoming: seq<Row>, key: string, wanted: set<string>, allowed: set<string>, credential: Credential) {
    forall k | 0 <= k < |incoming| :: NewRow(incoming[k], key, wanted, allowed, credential)
  }

  /** The scan in one statement: proper rows, after which identities are still distinct and credentials new. */
  lemma {:induction false} AllFitIff(rows: seq<Row>, incoming: seq<Row>, key: string, wanted: set<string>,
                                     allowed: set<string>, credential: Credential)
    requires Unambiguous(rows, key) && "" !in wanted
    ensures AllFit(rows, incoming, key, wanted, allowed, credential) <==>
            && NewRows(incoming, key, wanted, allowed, credential)
            && Unambiguous(rows + incoming, key) && OwnCredentials(rows + incoming, |rows|, credential)
    decreases |incoming|
  {
    if AllFit(rows, incoming, key, wanted, allowed, credential) {
      Appended(rows, incoming, key, wanted, allowed, credential);
      FittingIsRead(rows, incoming, key, wanted, allowed, credential);
    }
    if NewRows(incoming, key, wanted, allowed, credential) && Unambiguous(rows + incoming, key)
       && OwnCredentials(rows + incoming, |rows|, credential) && incoming != [] {
      var all, row, rest := rows + incoming, incoming[0], incoming[1..];
      FirstFits(rows, incoming, key, wanted, allowed, credential);
      UnambiguousSnoc(rows, row, key);
      assert rows + [row] + rest == all;
      forall k | 0 <= k < |rest|
        ensures NewRow(rest[k], key, wanted, allowed, credential)
      {
        assert rest[k] == incoming[k + 1];
      }
      AllFitIff(rows + [row], rest, key, wanted, allowed, credential);
    }
  }

  lemma {:induction false} FirstFits(rows: seq<Row>, incoming: seq<Row>, key: string, wanted: set<string>,
                                     allowed: set<string>, credential: Credential)
    requires incoming != [] && NewRow(incoming[0], key, wanted, allowed, credential)
    requires Unambiguous(rows + incoming, key) && OwnCredentials(rows + incoming, |rows|, credential)
    ensures Fits(incoming[0], rows, key, wanted, allowed, credential)
  {
    var all, n := rows + incoming, |rows|;
    assert all[n] == incoming[0];
    forall i | 0 <= i < n
      ensures Id(rows[i], key) != Id(incoming[0], key)
      ensures rows[i].Object? && credential(rows[i].client) == credential(incoming[0].client) ==> credential(rows[i].client) == Some("")
    {
      assert all[i] == rows[i] && !Shares(all, credential, i, n);
    }
  }

  lemma {:induction false} FittingIsRead(rows: seq<Row>, incoming: seq<Row>, key: string, wanted: set<string>,
                                         allowed: set<string>, credential: Credential)
    requires AllFit(rows, incoming, key, wanted, allowed, credential)
    ensures NewRows(incoming, key, wanted, allowed, credential)
    decreases |incoming|
  {
    if incoming != [] {
      FittingIsRead(rows + [incoming[0]], incoming[1..], key, wanted, allowed, credential);
      forall k | 0 <= k < |incoming|
        ensures NewRow(incoming[k], key, wanted, allowed, credential)
      {
        if k > 0 {
          assert incoming[k] == incoming[1..][k - 1];
        }
      }
    }
  }

  /** No two are the same, and each is exact: not empty, with no space at either end. */
  predicate ExactNames(added: seq<string>) {
    && (forall i, j | 0 <= i < |added| && 0 <= j < |added| && added[i] == added[j] :: i == j)
    && forall i | 0 <= i < |added| :: added[i] != "" && !IsSpace(added[i][0]) && !IsSpace(added[i][|added[i]| - 1])
  }

  /**
    When accounts may be added: the stored list is unambiguous and readable, the new outer
    accounts have exact names of their own, new rows, if given at all, are at least one and
    proper, all identities are still distinct and all new credentials new, and every new
    outer account is bound.
   */
  lemma {:induction false} AppendableIff(c: Rules, rows: seq<Row>, added: seq<string>, supplement: Supplement)
    ensures Appendable(c, rows, added, supplement) <==>
            && Unambiguous(rows, c.binding) && CredentialsRead(rows, c.credential) && ExactNames(added)
            && (supplement.NotSupplied? || (supplement.Supplied? && |supplement.rows| > 0))
            && var new_ := if supplement.Supplied? then supplement.rows else [];
            && NewRows(new_, c.binding, (set id | id in added), c.allowed, c.credential)
            && Unambiguous(rows + new_, c.binding) && OwnCredentials(rows + new_, |rows|, c.credential)
            && forall id | id in added :: HasId(rows + new_, c.binding, id)
  {
    ExactIff(added);
    if Unambiguous(rows, c.binding) && DistinctExact(added) {
      AllFitIff(rows, Incoming(supplement), c.binding, Members(added), c.allowed, c.credential);
    }
  }

  lemma {:induction false} ExactIff(added: seq<string>)
    ensures DistinctExact(added) <==> ExactNames(added)
  {
    forall i | 0 <= i < |added|
      ensures added[i] != "" ==> (Trimmed(added[i]) <==> !IsSpace(added[i][0]) && !IsSpace(added[i][|added[i]| - 1]))
    {
      TrimmedIff(added[i]);
    }
  }

  lemma {:induction false} FittingIsWanted(rows: seq<Row>, incoming: seq<Row>, key: string, wanted: set<string>,
                                           allowed: set<string>, credential: Credential)
    requires AllFit(rows, incoming, key, wanted, allowed, credential)
    ensures forall k | 0 <= k < |incoming| :: Id(incoming[k], key) in wanted && OnlyFields(incoming[k], allowed)
    decreases |incoming|
  {
    if incoming != [] {
      FittingIsWanted(rows + [incoming[0]], incoming[1..], key, wanted, allowed, credential);
      forall k | 0 <= k < |incoming| ensures Id(incoming[k], key) in wanted && OnlyFields(incoming[k], allowed) {
        if k > 0 {
          assert incoming[k] == incoming[1..][k - 1];
        }
      }
    }
  }

  /** Lines 237-255: the row to rename, or -1 where the call is refused. */
  method Selected(rows: seq<Row>, oldEmail: string, newEmail: string) returns (selected: int)
    requires oldEmail != newEmail
    ensures selected >= 0 ==> Renamable(rows, oldEmail, newEmail) && OnlyEmail(rows, oldEmail, selected)
    ensures selected < 0 ==> !Renamable(rows, oldEmail, newEmail)
  {
    selected := -1;
    for index := 0 to |rows|
      invariant -1 <= selected < index
      invariant forall i | 0 <= i < index :: rows[i].Object? && !EmailIs(rows[i], newEmail)
      invariant forall i | 0 <= i < index :: EmailIs(rows[i], oldEmail) <==> i == selected
    {
      if !rows[index].Object? || EmailIs(rows[index], newEmail) {
        return -1;
      }
      if EmailIs(rows[index], oldEmail) {
        if selected >= 0 {
          NotOnlyEmail(rows, oldEmail, selected, index);
          return -1;
        }
        selected := index;
      }
    }
    if selected >= 0 {
      assert OnlyEmail(rows, oldEmail, selected);
    } else {
      NoEmail(rows, oldEmail);
    }
  }

  lemma {:induction false} NotOnlyEmail(rows: seq<Row>, email: string, i: int, j: int)
    requires 0 <= i < j < |rows| && EmailIs(rows[i], email) && EmailIs(rows[j], email)
    ensures forall k :: !OnlyEmail(rows, email, k)
  {
  }

  lemma {:induction false} NoEmail(rows: seq<Row>, email: string)
    requires forall i | 0 <= i < |rows| :: !EmailIs(rows[i], email)
    ensures forall k :: !OnlyEmail(rows, email, k)
  {
    forall k ensures !OnlyEmail(rows, email, k) {
      if 0 <= k < |rows| {
        assert !EmailIs(rows[k], email);
      }
    }
  }
}
