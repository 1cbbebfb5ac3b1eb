/**
  What rewriting does to the references of a document: collecting them afterwards gives
  their new names, and without new names nothing changes.
 */
module BackupImage {
  import opened BackupReferences

  // ---------------------------------------------------------------- collecting after rewriting

  function ImageOf(slot: Slot, f: string -> string): (r: Slot) {
    if slot.Ref? then Ref(f(slot.name)) else Bad
  }

  function Image(slots: seq<Slot>, f: string -> string): (r: seq<Slot>)
    ensures |r| == |slots| && forall k | 0 <= k < |r| :: r[k] == ImageOf(slots[k], f)
  {
    if slots == [] then [] else [ImageOf(slots[0], f)] + Image(slots[1..], f)
  }

  lemma {:induction false} ImageAppend(a: seq<Slot>, b: seq<Slot>, f: string -> string)
    ensures Image(a + b, f) == Image(a, f) + Image(b, f)
  {
  }

  /** The new names of these references are references again. */
  predicate Tidy(slots: seq<Slot>, f: string -> string) {
    forall k | 0 <= k < |slots| :: slots[k].Ref? ==> f(slots[k].name) != "" && Usable(f(slots[k].name))
  }

  lemma {:induction false} TidyParts(a: seq<Slot>, b: seq<Slot>, f: string -> string)
    requires Tidy(a + b, f)
    ensures Tidy(a, f) && Tidy(b, f)
  {
    forall k | 0 <= k < |a| ensures a[k].Ref? ==> f(a[k].name) != "" && Usable(f(a[k].name)) {
      assert (a + b)[k] == a[k];
    }
    forall k | 0 <= k < |b| ensures b[k].Ref? ==> f(b[k].name) != "" && Usable(f(b[k].name)) {
      assert (a + b)[|a| + k] == b[k];
    }
  }

  lemma {:induction false} RenamedSlot(x: Json, f: string -> string)
    requires Tidy(SlotOf(x), f)
    ensures x.Str? ==> SlotOf(Renamed(x, f)) == Image(SlotOf(x), f)
  {
    if x.Str? && x.s != "" && Usable(x.s) {
      assert SlotOf(x)[0] == Ref(x.s);
    }
  }

  lemma {:induction false} MappedString(x: Json, openvpn: bool, role: Role, f: string -> string)
    ensures Mapped(x, openvpn, role, f).Str? == x.Str? && (x.Str? ==> Mapped(x, openvpn, role, f) == x)
  {
  }

  lemma {:induction false} OpenvpnMapped(fields: seq<Field>, around: bool, o: bool, role: Role, f: string -> string)
    ensures Openvpn(MappedFields(fields, o, role, f), around) == Openvpn(fields, around)
  {
    if fields != [] {
      MappedString(fields[0].value, o, ChildRole(role, fields[0].key, o), f);
      OpenvpnMapped(fields[1..], around, o, role, f);
      assert MappedFields(fields, o, role, f)[1..] == MappedFields(fields[1..], o, role, f);
    }
  }

  /** Collecting the slots of the rewritten document gives the new names, slot by slot. */
  lemma {:induction false} SlotsOfMapped(v: Json, openvpn: bool, role: Role, f: string -> string)
    requires Tidy(Slots(v, openvpn, role), f)
    ensures Slots(Mapped(v, openvpn, role, f), openvpn, role) == Image(Slots(v, openvpn, role), f)
    decreases Size(v), 0
  {
    match v
    case Arr(items) =>
      SlotsOfItems(items, openvpn, ItemRole(role), f);
    case Obj(fields) =>
      var o := Openvpn(fields, openvpn);
      OpenvpnMapped(fields, openvpn, o, role, f);
      SlotsOfFields(fields, o, role, f);
    case _ =>
  }

  lemma {:induction false} SlotsOfItems(items: seq<Json>, openvpn: bool, role: Role, f: string -> string)
    requires Tidy(ItemsSlots(items, openvpn, role), f)
    ensures ItemsSlots(MappedItems(items, openvpn, role, f), openvpn, role) == Image(ItemsSlots(items, openvpn, role), f)
    decreases ItemsSize(items), 0
  {
    if items != [] {
      var own, rest := Slots(items[0], openvpn, role), ItemsSlots(items[1..], openvpn, role);
      TidyParts(own, rest, f);
      SlotsOfMapped(items[0], openvpn, role, f);
      SlotsOfItems(items[1..], openvpn, role, f);
      ImageAppend(own, rest, f);
      assert MappedItems(items, openvpn, role, f)[1..] == MappedItems(items[1..], openvpn, role, f);
    }
  }

  lemma {:induction false} SlotsOfFields(fields: seq<Field>, openvpn: bool, role: Role, f: string -> string)
    requires Tidy(FieldsSlots(fields, openvpn, role), f)
    ensures FieldsSlots(MappedFields(fields, openvpn, role, f), openvpn, role) == Image(FieldsSlots(fields, openvpn, role), f)
    decreases FieldsSize(fields), 0
  {
    if fields != [] {
      var key, x := fields[0].key, fields[0].value;
      var own, rest := FieldSlots(key, x, openvpn, role), FieldsSlots(fields[1..], openvpn, role);
      TidyParts(own, rest, f);
      SlotsOfField(key, x, openvpn, role, f);
      SlotsOfFields(fields[1..], openvpn, role, f);
      ImageAppend(own, rest, f);
      assert MappedFields(fields, openvpn, role, f)[1..] == MappedFields(fields[1..], openvpn, role, f);
    }
  }

  lemma {:induction false} SlotsOfField(key: Key, x: Json, openvpn: bool, role: Role, f: string -> string)
    requires Tidy(FieldSlots(key, x, openvpn, role), f)
    ensures FieldSlots(key, MappedField(key, x, openvpn, role, f), openvpn, role) == Image(FieldSlots(key, x, openvpn, role), f)
    decreases Size(x), 1
  {
    if IsSlot(role, key) {
      TidyParts(SlotOf(x), Slots(x, openvpn, Plain), f);
      ImageAppend(SlotOf(x), Slots(x, openvpn, Plain), f);
      RenamedSlot(x, f);
      SlotsOfMapped(x, openvpn, Plain, f);
    } else {
      SlotsOfMapped(x, openvpn, ChildRole(role, key, openvpn), f);
    }
  }

  // ---------------------------------------------------------------- nothing to rewrite

  predicate Keeps(slots: seq<Slot>, f: string -> string) {
    forall k | 0 <= k < |slots| :: slots[k].Ref? ==> f(slots[k].name) == slots[k].name
  }

  lemma {:induction false} KeepsParts(a: seq<Slot>, b: seq<Slot>, f: string -> string)
    requires Keeps(a + b, f)
    ensures Keeps(a, f) && Keeps(b, f)
  {
    forall k | 0 <= k < |a| ensures a[k].Ref? ==> f(a[k].name) == a[k].name {
      assert (a + b)[k] == a[k];
    }
    forall k | 0 <= k < |b| ensures b[k].Ref? ==> f(b[k].name) == b[k].name {
      assert (a + b)[|a| + k] == b[k];
    }
  }

  /** When no reference gets another name, the document stays as it is: `changed` is false rightly. */
  lemma {:induction false} UnchangedDocument(v: Json, openvpn: bool, role: Role, f: string -> string)
    requires Keeps(Slots(v, openvpn, role), f)
    ensures Mapped(v, openvpn, role, f) == v
    decreases Size(v), 0
  {
    match v
    case Arr(items) =>
      UnchangedItems(items, openvpn, ItemRole(role), f);
    case Obj(fields) =>
      UnchangedFields(fields, Openvpn(fields, openvpn), role, f);
    case _ =>
  }

  lemma {:induction false} UnchangedItems(items: seq<Json>, openvpn: bool, role: Role, f: string -> string)
    requires Keeps(ItemsSlots(items, openvpn, role), f)
    ensures MappedItems(items, openvpn, role, f) == items
    decreases ItemsSize(items), 0
  {
    if items != [] {
      KeepsParts(Slots(items[0], openvpn, role), ItemsSlots(items[1..], openvpn, role), f);
      UnchangedDocument(items[0], openvpn, role, f);
      UnchangedItems(items[1..], openvpn, role, f);
    }
  }

  lemma {:induction false} UnchangedFields(fields: seq<Field>, openvpn: bool, role: Role, f: string -> string)
    requires Keeps(FieldsSlots(fields, openvpn, role), f)
    ensures MappedFields(fields, openvpn, role, f) == fields
    decreases FieldsSize(fields), 0
  {
    if fields != [] {
      var key, x := fields[0].key, fields[0].value;
      KeepsParts(FieldSlots(key, x, openvpn, role), FieldsSlots(fields[1..], openvpn, role), f);
      UnchangedFields(fields[1..], openvpn, role, f);
      UnchangedField(key, x, openvpn, role, f);
    }
  }

  lemma {:induction false} UnchangedField(key: Key, x: Json, openvpn: bool, role: Role, f: string -> string)
    requires Keeps(FieldSlots(key, x, openvpn, role), f)
    ensures MappedField(key, x, openvpn, role, f) == x
    decreases Size(x), 1
  {
    if IsSlot(role, key) {
      KeepsParts(SlotOf(x), Slots(x, openvpn, Plain), f);
      if x.Str? && x.s != "" && Usable(x.s) {
        assert SlotOf(x)[0] == Ref(x.s);
      }
      if !x.Str? {
        UnchangedDocument(x, openvpn, Plain, f);
      }
    } else {
      UnchangedDocument(x, openvpn, ChildRole(role, key, openvpn), f);
    }
  }

  // ---------------------------------------------------------------- the changed flag

  lemma {:induction false} KeepsJoined(a: seq<Slot>, b: seq<Slot>, f: string -> string)
    requires Keeps(a, f) && Keeps(b, f)
    ensures Keeps(a + b, f)
  {
  }

  /** A document that the rewriting leaves equal had no reference with another name. */
  lemma {:induction false} EqualDocument(v: Json, openvpn: bool, role: Role, f: string -> string)
    requires Mapped(v, openvpn, role, f) == v
    ensures Keeps(Slots(v, openvpn, role), f)
    decreases Size(v), 0
  {
    match v
    case Arr(items) =>
      EqualItems(items, openvpn, ItemRole(role), f);
    case Obj(fields) =>
      EqualFields(fields, Openvpn(fields, openvpn), role, f);
    case _ =>
  }

  lemma {:induction false} EqualItems(items: seq<Json>, openvpn: bool, role: Role, f: string -> string)
    requires MappedItems(items, openvpn, role, f) == items
    ensures Keeps(ItemsSlots(items, openvpn, role), f)
    decreases ItemsSize(items), 0
  {
    if items != [] {
      var mapped := MappedItems(items, openvpn, role, f);
      assert mapped[0] == items[0] && mapped[1..] == items[1..];
      EqualDocument(items[0], openvpn, role, f);
      EqualItems(items[1..], openvpn, role, f);
      KeepsJoined(Slots(items[0], openvpn, role), ItemsSlots(items[1..], openvpn, role), f);
    }
  }

  lemma {:induction false} EqualFields(fields: seq<Field>, openvpn: bool, role: Role, f: string -> string)
    requires MappedFields(fields, openvpn, role, f) == fields
    ensures Keeps(FieldsSlots(fields, openvpn, role), f)
    decreases FieldsSize(fields), 0
  {
    if fields != [] {
      var mapped, key, x := MappedFields(fields, openvpn, role, f), fields[0].key, fields[0].value;
      assert mapped[0] == fields[0] && mapped[1..] == fields[1..];
      EqualField(key, x, openvpn, role, f);
      EqualFields(fields[1..], openvpn, role, f);
      KeepsJoined(FieldSlots(key, x, openvpn, role), FieldsSlots(fields[1..], openvpn, role), f);
    }
  }

  lemma {:induction false} EqualField(key: Key, x: Json, openvpn: bool, role: Role, f: string -> string)
    requires MappedField(key, x, openvpn, role, f) == x
    ensures Keeps(FieldSlots(key, x, openvpn, role), f)
    decreases Size(x), 1
  {
    if IsSlot(role, key) {
      if !x.Str? {
        EqualDocument(x, openvpn, Plain, f);
      }
      KeepsJoined(SlotOf(x), Slots(x, openvpn, Plain), f);
    } else {
      EqualDocument(x, openvpn, ChildRole(role, key, openvpn), f);
    }
  }

  /** The document is unchanged exactly if no visited reference gets another name. */
  lemma {:induction false} ChangedIff(v: Json, openvpn: bool, f: string -> string)
    ensures Mapped(v, openvpn, Plain, f) == v <==> Keeps(Slots(v, openvpn, Plain), f)
  {
    if Mapped(v, openvpn, Plain, f) == v {
      EqualDocument(v, openvpn, Plain, f);
    }
    if Keeps(Slots(v, openvpn, Plain), f) {
      UnchangedDocument(v, openvpn, Plain, f);
    }
  }
}
