/**
  The walk of web/service/portable_backup_assets.go:111-151 is the one-pass map, and it
  visits every file-bearing slot exactly once.
 */
module BackupWalk {
  import opened BackupReferences

  // ---------------------------------------------------------------- the walk is the map

  lemma {:induction false} OpenvpnKept(role: Role, fields: seq<Field>, around: bool, f: string -> string)
    ensures Openvpn(PreFields(role, fields, f), around) == Openvpn(fields, around)
  {
    if fields != [] {
      OpenvpnKept(role, fields[1..], around, f);
      assert PreFields(role, fields, f)[1..] == PreFields(role, fields[1..], f);
    }
  }

  /** What happens to one field's value before the walk descends into it, from above its object and from the object. */
  function Prepared(role: Role, key: Key, x: Json, openvpn: bool, f: string -> string): (w: Json)
    ensures Size(w) == Size(x)
  {
    if IsSlot(role, key) then Renamed(x, f) else Pre(ChildRole(role, key, openvpn), x, f)
  }

  function PreparedFields(role: Role, fields: seq<Field>, openvpn: bool, f: string -> string): (r: seq<Field>) {
    if fields == [] then [] else
      [Field(fields[0].key, Prepared(role, fields[0].key, fields[0].value, openvpn, f))] +
      PreparedFields(role, fields[1..], openvpn, f)
  }

  lemma {:induction false} PreparedTwice(role: Role, key: Key, x: Json, openvpn: bool, f: string -> string)
    ensures Pre(Below(key, openvpn), PreField(role, key, x, f), f) == Prepared(role, key, x, openvpn, f)
  {
    if IsSlot(role, key) || LeadsToCerts(role, key) {
      assert Below(key, openvpn) == Plain;
    } else {
      assert PreField(role, key, x, f) == x && ChildRole(role, key, openvpn) == Below(key, openvpn);
    }
  }

  lemma {:induction false} BothPreparations(role: Role, fields: seq<Field>, openvpn: bool, f: string -> string)
    ensures OwnFields(PreFields(role, fields, f), openvpn, f) == PreparedFields(role, fields, openvpn, f)
  {
    if fields != [] {
      BothPreparations(role, fields[1..], openvpn, f);
      PreparedTwice(role, fields[0].key, fields[0].value, openvpn, f);
      var pre := PreFields(role, fields, f);
      assert pre[1..] == PreFields(role, fields[1..], f);
    }
  }

  lemma {:induction false} WalkIsMapped(v: Json, openvpn: bool, role: Role, f: string -> string)
    ensures Walk(Pre(role, v, f), openvpn, f) == Mapped(v, openvpn, role, f)
    decreases Size(v), 0
  {
    match v
    case Arr(items) =>
      ItemsAreMapped(items, openvpn, role, f);
    case Obj(fields) =>
      var o := Openvpn(fields, openvpn);
      if role == Plain || role == Certs {
        PlainPreFields(role, fields, f);
      }
      assert Pre(role, v, f) == Obj(PreFields(role, fields, f));
      OpenvpnKept(role, fields, openvpn, f);
      BothPreparations(role, fields, o, f);
      FieldsAreMapped(fields, o, role, f);
    case _ =>
  }

  lemma {:induction false} PlainPreFields(role: Role, fields: seq<Field>, f: string -> string)
    requires role == Plain || role == Certs
    ensures PreFields(role, fields, f) == fields
  {
    if fields != [] {
      PlainPreFields(role, fields[1..], f);
      assert fields == [fields[0]] + fields[1..];
    }
  }

  /** The elements of an array that has the given role. */
  lemma {:induction false} ItemsAreMapped(items: seq<Json>, openvpn: bool, role: Role, f: string -> string)
    ensures WalkItems(if role == Certs then PreItems(items, f) else items, openvpn, f) ==
            MappedItems(items, openvpn, ItemRole(role), f)
    decreases ItemsSize(items), 0
  {
    if items != [] {
      WalkIsMapped(items[0], openvpn, ItemRole(role), f);
      ItemsAreMapped(items[1..], openvpn, role, f);
      assert PreItems(items, f)[1..] == PreItems(items[1..], f);
    }
  }

  lemma {:induction false} FieldsAreMapped(fields: seq<Field>, openvpn: bool, role: Role, f: string -> string)
    ensures WalkFields(PreparedFields(role, fields, openvpn, f), openvpn, f) == MappedFields(fields, openvpn, role, f)
    decreases FieldsSize(fields), 0
  {
    if fields != [] {
      var key, x := fields[0].key, fields[0].value;
      FieldIsMapped(key, x, openvpn, role, f);
      FieldsAreMapped(fields[1..], openvpn, role, f);
      assert PreparedFields(role, fields, openvpn, f)[1..] == PreparedFields(role, fields[1..], openvpn, f);
    }
  }

  lemma {:induction false} FieldIsMapped(key: Key, x: Json, openvpn: bool, role: Role, f: string -> string)
    ensures Walk(Prepared(role, key, x, openvpn, f), openvpn, f) == MappedField(key, x, openvpn, role, f)
    decreases Size(x), 1
  {
    if IsSlot(role, key) {
      WalkIsMapped(x, openvpn, Plain, f);
    } else {
      WalkIsMapped(x, openvpn, ChildRole(role, key, openvpn), f);
    }
  }

  // ---------------------------------------------------------------- every slot is visited once

  function Times(slots: seq<Slot>, t: Slot): (n: nat) {
    if slots == [] then 0 else (if slots[0] == t then 1 else 0) + Times(slots[1..], t)
  }

  lemma {:induction false} TimesAppend(a: seq<Slot>, b: seq<Slot>, t: Slot)
    ensures Times(a + b, t) == Times(a, t) + Times(b, t)
  {
    if a == [] {
      assert a + b == b;
    } else {
      TimesAppend(a[1..], b, t);
      assert (a + b)[1..] == a[1..] + b;
    }
  }

  lemma {:induction false} TimesInBag(slots: seq<Slot>, t: Slot)
    ensures Times(slots, t) == multiset(slots)[t]
  {
    if slots != [] {
      TimesInBag(slots[1..], t);
      assert slots == [slots[0]] + slots[1..];
    }
  }

  lemma {:induction false} PlainPreFieldsSlots(role: Role, fields: seq<Field>)
    requires role == Plain || role == Certs
    ensures PreFieldsSlots(role, fields) == []
  {
    if fields != [] {
      PlainPreFieldsSlots(role, fields[1..]);
    }
  }

  /** What the walk visits below a value, with what was visited from above, are its slots. */
  lemma {:induction false} VisitsValue(v: Json, openvpn: bool, role: Role, f: string -> string, t: Slot)
    ensures Times(PreSlots(role, v), t) + Times(WalkSlots(Pre(role, v, f), openvpn, f), t) ==
            Times(Slots(v, openvpn, role), t)
    decreases Size(v), 0
  {
    match v
    case Arr(items) =>
      VisitsItems(items, openvpn, role, f, t);
    case Obj(fields) =>
      VisitsObject(fields, openvpn, role, f, t);
      if role == Plain || role == Certs {
        PlainPreFields(role, fields, f);
        PlainPreFieldsSlots(role, fields);
      }
    case _ =>
  }

  lemma {:induction false} VisitsObject(fields: seq<Field>, openvpn: bool, role: Role, f: string -> string, t: Slot)
    ensures Times(PreFieldsSlots(role, fields), t) + Times(WalkSlots(Obj(PreFields(role, fields, f)), openvpn, f), t) ==
            Times(Slots(Obj(fields), openvpn, role), t)
    decreases FieldsSize(fields), 1
  {
    var o := Openvpn(fields, openvpn);
    OpenvpnKept(role, fields, openvpn, f);
    BothPreparations(role, fields, o, f);
    var pre, ready := PreFields(role, fields, f), PreparedFields(role, fields, o, f);
    VisitsBelow(pre, ready, openvpn, o, f, t);
    VisitsFields(fields, o, role, f, t);
  }

  lemma {:induction false} VisitsBelow(fields: seq<Field>, ready: seq<Field>, around: bool, o: bool, f: string -> string, t: Slot)
    requires o == Openvpn(fields, around) && ready == OwnFields(fields, o, f)
    ensures Times(WalkSlots(Obj(fields), around, f), t) == Times(OwnSlots(fields, o), t) + Times(WalkFieldsSlots(ready, o, f), t)
  {
    TimesAppend(OwnSlots(fields, o), WalkFieldsSlots(ready, o, f), t);
  }

  lemma {:induction false} VisitsItems(items: seq<Json>, openvpn: bool, role: Role, f: string -> string, t: Slot)
    ensures Times(if role == Certs then PreItemsSlots(items) else [], t) +
            Times(WalkItemsSlots(if role == Certs then PreItems(items, f) else items, openvpn, f), t) ==
            Times(ItemsSlots(items, openvpn, ItemRole(role)), t)
    decreases ItemsSize(items), 0
  {
    if items != [] {
      var pre := if role == Certs then PreItems(items, f) else items;
      VisitsValue(items[0], openvpn, ItemRole(role), f, t);
      VisitsItems(items[1..], openvpn, role, f, t);
      assert PreItems(items, f)[1..] == PreItems(items[1..], f);
      TimesAppend(PreSlots(Cert, items[0]), PreItemsSlots(items[1..]), t);
      TimesAppend(WalkSlots(pre[0], openvpn, f), WalkItemsSlots(pre[1..], openvpn, f), t);
      TimesAppend(Slots(items[0], openvpn, ItemRole(role)), ItemsSlots(items[1..], openvpn, ItemRole(role)), t);
    }
  }

  lemma {:induction false} VisitsFields(fields: seq<Field>, openvpn: bool, role: Role, f: string -> string, t: Slot)
    ensures Times(PreFieldsSlots(role, fields), t) + Times(OwnSlots(PreFields(role, fields, f), openvpn), t) +
            Times(WalkFieldsSlots(PreparedFields(role, fields, openvpn, f), openvpn, f), t) ==
            Times(FieldsSlots(fields, openvpn, role), t)
    decreases FieldsSize(fields), 0
  {
    if fields != [] {
      var key, x, rest := fields[0].key, fields[0].value, fields[1..];
      VisitsField(key, x, openvpn, role, f, t);
      VisitsFields(rest, openvpn, role, f, t);
      var pre, ready := PreFields(role, fields, f), PreparedFields(role, fields, openvpn, f);
      assert pre[1..] == PreFields(role, rest, f) && ready[1..] == PreparedFields(role, rest, openvpn, f);
      TimesAppend(PreFieldSlots(role, key, x), PreFieldsSlots(role, rest), t);
      TimesAppend(PreSlots(Below(key, openvpn), pre[0].value), OwnSlots(pre[1..], openvpn), t);
      TimesAppend(WalkSlots(ready[0].value, openvpn, f), WalkFieldsSlots(ready[1..], openvpn, f), t);
      TimesAppend(FieldSlots(key, x, openvpn, role), FieldsSlots(rest, openvpn, role), t);
    }
  }

  lemma {:induction false} VisitsField(key: Key, x: Json, openvpn: bool, role: Role, f: string -> string, t: Slot)
    ensures Times(PreFieldSlots(role, key, x), t) + Times(PreSlots(Below(key, openvpn), PreField(role, key, x, f)), t) +
            Times(WalkSlots(Prepared(role, key, x, openvpn, f), openvpn, f), t) ==
            Times(FieldSlots(key, x, openvpn, role), t)
    decreases Size(x), 2
  {
    if IsSlot(role, key) {
      VisitsSlot(key, x, openvpn, role, f, t);
    } else if LeadsToCerts(role, key) {
      VisitsCerts(key, x, openvpn, role, f, t);
    } else {
      VisitsChild(key, x, openvpn, role, f, t);
    }
  }

  lemma {:induction false} VisitsSlot(key: Key, x: Json, openvpn: bool, role: Role, f: string -> string, t: Slot)
    requires IsSlot(role, key)
    ensures Times(PreFieldSlots(role, key, x), t) + Times(PreSlots(Below(key, openvpn), PreField(role, key, x, f)), t) +
            Times(WalkSlots(Prepared(role, key, x, openvpn, f), openvpn, f), t) ==
            Times(FieldSlots(key, x, openvpn, role), t)
    decreases Size(x), 1
  {
    assert Below(key, openvpn) == Plain;
    TimesAppend(SlotOf(x), Slots(x, openvpn, Plain), t);
    if x.Str? {
      assert Slots(x, openvpn, Plain) == [] && WalkSlots(Renamed(x, f), openvpn, f) == [];
    } else {
      assert Renamed(x, f) == x;
      VisitsValue(x, openvpn, Plain, f, t);
    }
  }

  lemma {:induction false} VisitsCerts(key: Key, x: Json, openvpn: bool, role: Role, f: string -> string, t: Slot)
    requires LeadsToCerts(role, key)
    ensures Times(PreFieldSlots(role, key, x), t) + Times(PreSlots(Below(key, openvpn), PreField(role, key, x, f)), t) +
            Times(WalkSlots(Prepared(role, key, x, openvpn, f), openvpn, f), t) ==
            Times(FieldSlots(key, x, openvpn, role), t)
    decreases Size(x), 1
  {
    assert Below(key, openvpn) == Plain && ChildRole(role, key, openvpn) == Certs;
    VisitsValue(x, openvpn, Certs, f, t);
    assert Times(PreSlots(Plain, PreField(role, key, x, f)), t) == 0;
  }

  lemma {:induction false} VisitsChild(key: Key, x: Json, openvpn: bool, role: Role, f: string -> string, t: Slot)
    requires !IsSlot(role, key) && !LeadsToCerts(role, key)
    ensures Times(PreFieldSlots(role, key, x), t) + Times(PreSlots(Below(key, openvpn), PreField(role, key, x, f)), t) +
            Times(WalkSlots(Prepared(role, key, x, openvpn, f), openvpn, f), t) ==
            Times(FieldSlots(key, x, openvpn, role), t)
    decreases Size(x), 1
  {
    VisitsValue(x, openvpn, Below(key, openvpn), f, t);
  }

  /**
    The walk gives the one-pass map, and visits each file-bearing slot of the document
    exactly once.
   */
  lemma {:induction false} WalkVisitsOnce(v: Json, openvpn: bool, f: string -> string)
    ensures Walk(v, openvpn, f) == Mapped(v, openvpn, Plain, f)
    ensures multiset(WalkSlots(v, openvpn, f)) == multiset(Slots(v, openvpn, Plain))
  {
    WalkIsMapped(v, openvpn, Plain, f);
    forall t ensures multiset(WalkSlots(v, openvpn, f))[t] == multiset(Slots(v, openvpn, Plain))[t] {
      VisitsValue(v, openvpn, Plain, f, t);
      assert Times(PreSlots(Plain, v), t) == 0;
      TimesInBag(WalkSlots(v, openvpn, f), t);
      TimesInBag(Slots(v, openvpn, Plain), t);
    }
  }
}
