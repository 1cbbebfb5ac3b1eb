/**
  When the projection of a ShadowTLS document succeeds (web/service/native_core_inbound.go:38-170),
  said about the stored rows themselves: which faults refuse it, which accounts must be
  active and which bindings must be there.
 */
module NativeReadiness {
  import opened Collections
  import opened NativeProjection

  predicate NoFault(p: Protocol, rows: seq<Row>, stats: seq<Stat>, now: int) {
    forall i | 0 <= i < |rows| :: Judge(p, rows[i], stats, now) != Fault
  }

  predicate SomeActive(p: Protocol, rows: seq<Row>, stats: seq<Stat>, now: int) {
    exists i :: 0 <= i < |rows| && IsActive(p, rows[i], stats, now)
  }

  predicate AllRows(rows: seq<Row>) {
    forall i | 0 <= i < |rows| :: !rows[i].NotObject?
  }

  predicate HasText(rows: seq<Row>, key: string, s: string) {
    s != "" && exists i :: 0 <= i < |rows| && RowText(rows[i], key) == s
  }

  lemma {:induction false} KeptSome(p: Protocol, rows: seq<Row>, stats: seq<Stat>, now: int)
    ensures Kept(p, rows, stats, now) != [] <==> SomeActive(p, rows, stats, now)
    ensures !AnyFault(p, rows, stats, now) <==> NoFault(p, rows, stats, now)
  {
    AnyFaultIff(p, rows, stats, now);
    var kept := Kept(p, rows, stats, now);
    if kept != [] {
      KeptIff(p, rows, stats, now, kept[0]);
    }
    if i :| 0 <= i < |rows| && IsActive(p, rows[i], stats, now) {
      KeptIff(p, rows, stats, now, rows[i].client);
      assert rows[i] == Object(rows[i].client);
    }
  }

  lemma {:induction false} IdentitiesIff(rows: seq<Row>, key: string, s: string)
    ensures Objects(rows).Some? <==> AllRows(rows)
    ensures Objects(rows).Some? ==> (s in Identities(Objects(rows).value, key) <==> HasText(rows, key, s))
  {
    if rows != [] {
      IdentitiesIff(rows[1..], key, s);
      forall i | 0 < i < |rows|
        ensures rows[i] == rows[1..][i - 1]
      {
      }
      if Objects(rows).Some? {
        var own := if rows[0].Object? then rows[0].client else map[];
        assert Objects(rows).value == [own] + Objects(rows[1..]).value;
        assert Objects(rows).value[1..] == Objects(rows[1..]).value;
        assert Text(own, key) == RowText(rows[0], key);
      }
      if HasText(rows[1..], key, s) {
        var j :| 0 <= j < |rows[1..]| && RowText(rows[1..][j], key) == s;
        assert RowText(rows[j + 1], key) == s;
      }
    }
  }

  /** Every name that is wanted has an account, and one is. */
  lemma {:induction false} BindingsValidIff(settings: InnerSettings, key: string, allowed: set<string>)
    ensures BindingsValid(settings, key, allowed) <==>
            && settings.Settings? && settings.accounts.List? && AllRows(settings.accounts.rows)
            && allowed != {} && forall s | s in allowed :: HasText(settings.accounts.rows, key, s)
  {
    if settings.Settings? && settings.accounts.List? {
      forall s
        ensures Objects(settings.accounts.rows).Some? <==> AllRows(settings.accounts.rows)
        ensures Objects(settings.accounts.rows).Some? ==>
                  (s in Identities(Objects(settings.accounts.rows).value, key) <==> HasText(settings.accounts.rows, key, s))
      {
        IdentitiesIff(settings.accounts.rows, key, s);
      }
    }
  }

  /** The outer list, where there is one, has an active account and no faulty one. */
  lemma {:induction false} OuterReadyIff(doc: Document, stats: seq<Stat>, now: int)
    ensures OuterReady(doc, stats, now) <==>
            || doc.clients.Missing?
            || (doc.clients.List? && NoFault(ShadowTls, doc.clients.rows, stats, now) && SomeActive(ShadowTls, doc.clients.rows, stats, now))
  {
    if doc.clients.List? {
      KeptSome(ShadowTls, doc.clients.rows, stats, now);
    }
  }

  /**
    An inner VLESS or Shadowsocks under version 1 or 2: every active outer email has a stored
    account, no account is faulty, and some account is active and bound.
   */
  lemma {:induction false} BoundReadyIff(doc: Document, stats: seq<Stat>, now: int)
    requires doc.inner.Inner? && doc.inner.protocol in {InnerVless, InnerShadowsocks}
    requires doc.clients.List? && doc.version !in {0, 3}
    ensures InnerReady(doc, stats, now) <==>
            var settings, outer := doc.inner.settings, doc.clients.rows;
            var p := if doc.inner.protocol == InnerVless then Vless else Shadowsocks;
            && settings.Settings? && settings.accounts.List? && AllRows(settings.accounts.rows)
            && NoFault(p, settings.accounts.rows, stats, now)
            && (forall e | EmailIsActive(outer, stats, now, e) :: HasText(settings.accounts.rows, "email", e))
            && exists i :: 0 <= i < |settings.accounts.rows| && IsActive(p, settings.accounts.rows[i], stats, now)
                           && EmailIsActive(outer, stats, now, RowText(settings.accounts.rows[i], "email"))
  {
    var settings, outer := doc.inner.settings, doc.clients.rows;
    var p := if doc.inner.protocol == InnerVless then Vless else Shadowsocks;
    var emails := ActiveEmails(outer, stats, now);
    forall e
      ensures e in emails <==> EmailIsActive(outer, stats, now, e)
    {
      ActiveEmailsIff(outer, stats, now, e);
    }
    BindingsValidIff(settings, "email", emails);
    if settings.Settings? && settings.accounts.List? {
      var rows := settings.accounts.rows;
      KeptSome(p, rows, stats, now);
      InnerKeptSome(p, rows, outer, stats, now);
    }
  }

  lemma {:induction false} InnerKeptSome(p: Protocol, rows: seq<Row>, outer: seq<Row>, stats: seq<Stat>, now: int)
    ensures InnerKept(p, rows, outer, stats, now) != [] <==>
            exists i :: 0 <= i < |rows| && IsActive(p, rows[i], stats, now) && EmailIsActive(outer, stats, now, RowText(rows[i], "email"))
  {
    var kept := InnerKept(p, rows, outer, stats, now);
    if kept != [] {
      InnerKeptIff(p, rows, outer, stats, now, kept[0]);
    }
    if i :| 0 <= i < |rows| && IsActive(p, rows[i], stats, now) && EmailIsActive(outer, stats, now, RowText(rows[i], "email")) {
      InnerKeptIff(p, rows, outer, stats, now, rows[i].client);
      assert rows[i] == Object(rows[i].client);
    }
  }

  /** One that is not bound: readable, and a managed SS2022 list has an active account. */
  lemma {:induction false} UnboundReadyIff(doc: Document, stats: seq<Stat>, now: int)
    requires doc.inner.Inner? && doc.inner.protocol in {InnerVless, InnerShadowsocks}
    requires !doc.clients.List? || doc.version in {0, 3}
    ensures InnerReady(doc, stats, now) <==>
            var settings, ss := doc.inner.settings, doc.inner.protocol == InnerShadowsocks;
            var p := if ss then Shadowsocks else Vless;
            || settings.Blank?
            || (&& settings.Settings? && !settings.accounts.Malformed?
                && (settings.accounts.List? ==>
                      && NoFault(p, settings.accounts.rows, stats, now)
                      && (ss && settings.ss2022 ==> SomeActive(p, settings.accounts.rows, stats, now))))
  {
    var settings := doc.inner.settings;
    if settings.Settings? && settings.accounts.List? {
      KeptSome(CoreProtocol(doc.inner.protocol), settings.accounts.rows, stats, now);
    }
  }

  /** An inner SOCKS under version 1 or 2: the active records name users, and each of those has an account. */
  lemma {:induction false} SocksReadyIff(doc: Document, stats: seq<Stat>, now: int)
    requires doc.inner.Inner? && doc.inner.protocol == InnerSocks && doc.clients.List? && doc.version !in {0, 3}
    ensures InnerReady(doc, stats, now) <==>
            var settings := doc.inner.settings;
            && settings.Settings? && settings.accounts.List? && AllRows(settings.accounts.rows)
            && (exists u :: NamedUser(doc.clients.rows, stats, now, u))
            && forall u | NamedUser(doc.clients.rows, stats, now, u) :: HasText(settings.accounts.rows, "user", u)
  {
    var settings, outer := doc.inner.settings, doc.clients.rows;
    var users := Usernames(outer, ActiveEmails(outer, stats, now));
    forall u
      ensures u in users <==> NamedUser(outer, stats, now, u)
    {
      NamedUserIff(outer, stats, now, u);
    }
    BindingsValidIff(settings, "user", users);
    if BindingsValid(settings, "user", users) {
      var u :| u in users;
      SocksKeptSome(settings.accounts.rows, users, u);
    }
  }

  /** A record whose email is an active one names this user. */
  predicate NamedUser(outer: seq<Row>, stats: seq<Stat>, now: int, u: string) {
    u != "" && exists j :: 0 <= j < |outer| && RowText(outer[j], "innerUsername") == u
                           && EmailIsActive(outer, stats, now, RowText(outer[j], "email"))
  }

  lemma {:induction false} NamedUserIff(outer: seq<Row>, stats: seq<Stat>, now: int, u: string)
    ensures u in Usernames(outer, ActiveEmails(outer, stats, now)) <==> NamedUser(outer, stats, now, u)
  {
    UsernamesIff(outer, ActiveEmails(outer, stats, now), u);
    forall e
      ensures e in ActiveEmails(outer, stats, now) <==> EmailIsActive(outer, stats, now, e)
    {
      ActiveEmailsIff(outer, stats, now, e);
    }
  }

  lemma {:induction false} SocksKeptSome(rows: seq<Row>, users: set<string>, u: string)
    requires u in users && HasText(rows, "user", u) && Objects(rows).Some?
    ensures Bound(Objects(rows).value, "user", users) != []
  {
    IdentitiesIff(rows, "user", u);
    var c := HasIdentity(Objects(rows).value, "user", u);
    BoundIff(Objects(rows).value, "user", users, c);
  }

  lemma {:induction false} HasIdentity(clients: seq<Client>, key: string, s: string) returns (c: Client)
    requires s in Identities(clients, key)
    ensures c in clients && Text(c, key) == s && s != ""
  {
    c := clients[0];
    if Text(c, key) != s || s == "" {
      c := HasIdentity(clients[1..], key, s);
    }
  }
}
