/**
  Which values of a protocol document name files, by where they stand in it
  (web/service/portable_backup_assets.go:111-151), without the roles of the one-pass map:
  the references collected are exactly the values at those places, and rewriting changes
  exactly those.
 */
module BackupPaths {
  import opened Collections
  import opened BackupReferences

  // ---------------------------------------------------------------- places

  datatype Step = Item(i: nat) | Member(i: nat, key: Key)

  type Path = seq<Step>

  function Child(v: Json, step: Step): (w: Option<Json>) {
    match step
    case Item(i) => if v.Arr? && i < |v.items| then Some(v.items[i]) else None
    case Member(i, key) => if v.Obj? && i < |v.fields| && v.fields[i].key == key then Some(v.fields[i].value) else None
  }

  /** The value that stands at a path. */
  function At(doc: Json, path: Path): (v: Option<Json>)
    decreases |path|
  {
    if path == [] then Some(doc)
    else
      var above := At(doc, path[..|path| - 1]);
      if above.None? then None else Child(above.value, path[|path| - 1])
  }

  /** The step that many places from the end goes to the field of that name. */
  predicate Names(path: Path, back: nat, key: Key) {
    0 < back <= |path| && path[|path| - back].Member? && path[|path| - back].key == key
  }

  /** tlsSettings, certificates, an index, and then certificateFile or keyFile. */
  predicate EndsInCertificate(path: Path) {
    && Names(path, 4, TlsSettings) && Names(path, 3, Certificates)
    && path[|path| - 2].Item? && (Names(path, 1, CertificateFile) || Names(path, 1, KeyFile))
  }

  /** clientProof, and then keyFile. */
  predicate EndsInProof(path: Path) {
    Names(path, 2, ClientProof) && Names(path, 1, KeyFile)
  }

  /** The object names this protocol: its (first) field of that name holds the string. */
  ghost predicate NamesProtocol(v: Json, name: string) {
    v.Obj? && exists i :: 0 <= i < |v.fields| && v.fields[i] == Field(Protocol, Str(name)) && NoneBefore(v.fields, i)
  }

  ghost predicate NoneBefore(fields: seq<Field>, i: int)
    requires 0 <= i <= |fields|
  {
    forall j | 0 <= j < i :: fields[j].key != Protocol
  }

  /** Outwards from the value at this path, the first object that names a protocol, or else the row, says OpenVPN. */
  ghost predicate InOpenvpn(doc: Json, row: bool, path: Path)
    decreases |path|
  {
    var v := At(doc, path);
    if v.Some? && exists name :: NamesProtocol(v.value, name) then
      NamesProtocol(v.value, "openvpn") || NamesProtocol(v.value, "ov")
    else if path == [] then row
    else InOpenvpn(doc, row, path[..|path| - 1])
  }

  /** The value at this path names a file. */
  ghost predicate Bears(doc: Json, row: bool, path: Path) {
    EndsInCertificate(path) || (EndsInProof(path) && InOpenvpn(doc, row, path[..|path| - 2]))
  }

  // ---------------------------------------------------------------- the walk's own flags at a path

  /** What the walk passes down to the value at a path ... */
  function FlagAbove(doc: Json, row: bool, path: Path): (b: bool)
    decreases |path|, 0
  {
    if path == [] then row else FlagAt(doc, row, path[..|path| - 1])
  }

  /** ... and what holds inside it. */
  function FlagAt(doc: Json, row: bool, path: Path): (b: bool)
    decreases |path|, 1
  {
    var v := At(doc, path);
    if v.Some? && v.value.Obj? then Openvpn(v.value.fields, FlagAbove(doc, row, path)) else FlagAbove(doc, row, path)
  }

  function RoleAt(doc: Json, row: bool, path: Path): (r: Role)
    decreases |path|
  {
    if path == [] then Plain
    else
      var init, last := path[..|path| - 1], path[|path| - 1];
      var role := RoleAt(doc, row, init);
      match last
      case Item(_) => ItemRole(role)
      case Member(_, key) => if IsSlot(role, key) then Plain else ChildRole(role, key, FlagAt(doc, row, init))
  }

  predicate SlotAt(doc: Json, row: bool, path: Path) {
    path != [] && path[|path| - 1].Member? && IsSlot(RoleAt(doc, row, path[..|path| - 1]), path[|path| - 1].key)
  }

  lemma {:induction false} OpenvpnNamed(fields: seq<Field>, around: bool, i: nat, name: string)
    requires i < |fields| && fields[i] == Field(Protocol, Str(name)) && NoneBefore(fields, i)
    ensures Openvpn(fields, around) == (name in {"openvpn", "ov"})
    decreases i
  {
    if i > 0 {
      assert fields[0].key != Protocol;
      OpenvpnNamed(fields[1..], around, i - 1, name);
    }
  }

  lemma {:induction false} OpenvpnUnnamed(fields: seq<Field>, around: bool)
    requires forall name :: !NamesProtocol(Obj(fields), name)
    ensures Openvpn(fields, around) == around
    decreases |fields|
  {
    if fields != [] {
      if fields[0].key == Protocol {
        if fields[0].value.Str? {
          assert NamesProtocol(Obj(fields), fields[0].value.s);
        }
      } else {
        forall name | NamesProtocol(Obj(fields[1..]), name)
          ensures NamesProtocol(Obj(fields), name)
        {
          NamesFurther(fields, name);
        }
        OpenvpnUnnamed(fields[1..], around);
      }
    }
  }

  lemma {:induction false} NamesFurther(fields: seq<Field>, name: string)
    requires fields != [] && fields[0].key != Protocol && NamesProtocol(Obj(fields[1..]), name)
    ensures NamesProtocol(Obj(fields), name)
  {
    var rest := fields[1..];
    var i :| 0 <= i < |rest| && rest[i] == Field(Protocol, Str(name)) && NoneBefore(rest, i);
    forall j | 0 < j < i + 1
      ensures fields[j].key != Protocol
    {
      assert rest[j - 1] == fields[j];
    }
    assert fields[i + 1] == Field(Protocol, Str(name)) && NoneBefore(fields, i + 1);
  }

  lemma {:induction false} NamesOne(v: Json, a: string, b: string)
    requires NamesProtocol(v, a) && NamesProtocol(v, b)
    ensures a == b
  {
    var i :| 0 <= i < |v.fields| && v.fields[i] == Field(Protocol, Str(a)) && NoneBefore(v.fields, i);
    var j :| 0 <= j < |v.fields| && v.fields[j] == Field(Protocol, Str(b)) && NoneBefore(v.fields, j);
    assert i == j;
  }

  lemma {:induction false} FlagIsNearest(doc: Json, row: bool, path: Path)
    requires At(doc, path).Some?
    ensures FlagAt(doc, row, path) <==> InOpenvpn(doc, row, path)
    decreases |path|
  {
    var v := At(doc, path).value;
    if path != [] {
      FlagIsNearest(doc, row, path[..|path| - 1]);
    }
    if name :| NamesProtocol(v, name) {
      var i :| 0 <= i < |v.fields| && v.fields[i] == Field(Protocol, Str(name)) && NoneBefore(v.fields, i);
      OpenvpnNamed(v.fields, FlagAbove(doc, row, path), i, name);
      if other :| NamesProtocol(v, other) && other in {"openvpn", "ov"} {
        NamesOne(v, name, other);
      }
    } else if v.Obj? {
      OpenvpnUnnamed(v.fields, FlagAbove(doc, row, path));
    }
  }

  // ---------------------------------------------------------------- roles are places

  lemma {:induction false} RoleIsPlace(doc: Json, row: bool, path: Path)
    requires At(doc, path).Some?
    ensures RoleAt(doc, row, path) == Tls <==> Names(path, 1, TlsSettings)
    ensures RoleAt(doc, row, path) == Certs <==> Names(path, 2, TlsSettings) && Names(path, 1, Certificates)
    ensures RoleAt(doc, row, path) == Cert <==>
              Names(path, 3, TlsSettings) && Names(path, 2, Certificates) && path[|path| - 1].Item?
    ensures RoleAt(doc, row, path) == Proof <==> Names(path, 1, ClientProof) && InOpenvpn(doc, row, path[..|path| - 1])
    decreases |path|
  {
    if path != [] {
      RoleIsPlace(doc, row, path[..|path| - 1]);
      FlagIsNearest(doc, row, path[..|path| - 1]);
    }
  }

  /** The slots of the one-pass map are exactly the places that name files. */
  lemma {:induction false} SlotIffBears(doc: Json, row: bool, path: Path)
    requires At(doc, path).Some?
    ensures SlotAt(doc, row, path) <==> Bears(doc, row, path)
  {
    if path != [] {
      var init := path[..|path| - 1];
      RoleIsPlace(doc, row, init);
      if init != [] {
        assert init[..|init| - 1] == path[..|path| - 2];
      }
    }
  }

  // ---------------------------------------------------------------- collecting

  lemma {:induction false} AtChild(doc: Json, path: Path, step: Step)
    ensures At(doc, path + [step]) == if At(doc, path).None? then None else Child(At(doc, path).value, step)
  {
    assert (path + [step])[..|path|] == path;
  }

  lemma {:induction false} InItems(items: seq<Json>, openvpn: bool, role: Role, x: Slot)
    ensures x in ItemsSlots(items, openvpn, role) <==> exists i :: 0 <= i < |items| && x in Slots(items[i], openvpn, role)
  {
    if items != [] {
      InItems(items[1..], openvpn, role, x);
      if i :| 0 <= i < |items| && x in Slots(items[i], openvpn, role) {
        assert i > 0 ==> items[1..][i - 1] == items[i];
      }
      if j :| 0 <= j < |items[1..]| && x in Slots(items[1..][j], openvpn, role) {
        assert items[j + 1] == items[1..][j];
      }
    }
  }

  lemma {:induction false} InFields(fields: seq<Field>, openvpn: bool, role: Role, x: Slot)
    ensures x in FieldsSlots(fields, openvpn, role) <==>
            exists i :: 0 <= i < |fields| && x in FieldSlots(fields[i].key, fields[i].value, openvpn, role)
  {
    if fields != [] {
      InFields(fields[1..], openvpn, role, x);
      if i :| 0 <= i < |fields| && x in FieldSlots(fields[i].key, fields[i].value, openvpn, role) {
        assert i > 0 ==> fields[1..][i - 1] == fields[i];
      }
      if j :| 0 <= j < |fields[1..]| && x in FieldSlots(fields[1..][j].key, fields[1..][j].value, openvpn, role) {
        assert fields[j + 1] == fields[1..][j];
      }
    }
  }

  lemma {:induction false} ItemSmaller(items: seq<Json>, i: nat)
    requires i < |items|
    ensures Size(items[i]) < ItemsSize(items)
  {
    if i > 0 {
      ItemSmaller(items[1..], i - 1);
    }
  }

  lemma {:induction false} FieldSmaller(fields: seq<Field>, i: nat)
    requires i < |fields|
    ensures Size(fields[i].value) < FieldsSize(fields)
  {
    if i > 0 {
      FieldSmaller(fields[1..], i - 1);
    }
  }

  /** The slots inside the value at a path. */
  function SlotsAt(doc: Json, row: bool, path: Path): (slots: seq<Slot>)
    requires At(doc, path).Some?
  {
    Slots(At(doc, path).value, FlagAbove(doc, row, path), RoleAt(doc, row, path))
  }

  /** What one child contributes: its own reference, if it is one, and those inside it. */
  lemma {:induction false} ChildSlots(doc: Json, row: bool, path: Path, step: Step, x: Slot)
    requires At(doc, path).Some? && Child(At(doc, path).value, step).Some?
    ensures At(doc, path + [step]) == Child(At(doc, path).value, step)
    ensures
      var v, w := At(doc, path).value, At(doc, path + [step]).value;
      var role, flag := RoleAt(doc, row, path), FlagAt(doc, row, path);
      && (step.Item? ==> SlotsAt(doc, row, path + [step]) == Slots(w, flag, ItemRole(role)))
      && (step.Member? ==>
            (x in FieldSlots(step.key, w, flag, role) <==>
             (SlotAt(doc, row, path + [step]) && x in SlotOf(w)) || x in SlotsAt(doc, row, path + [step])))
  {
    AtChild(doc, path, step);
    assert (path + [step])[..|path|] == path;
  }

  lemma {:induction false} FindSlot(doc: Json, row: bool, path: Path, x: Slot) returns (q: Path)
    requires At(doc, path).Some? && x in SlotsAt(doc, row, path)
    ensures At(doc, q).Some? && SlotAt(doc, row, q) && x in SlotOf(At(doc, q).value)
    decreases Size(At(doc, path).value)
  {
    var v, role, flag := At(doc, path).value, RoleAt(doc, row, path), FlagAt(doc, row, path);
    match v
    case Arr(items) =>
      InItems(items, flag, ItemRole(role), x);
      var i: nat :| i < |items| && x in Slots(items[i], flag, ItemRole(role));
      ChildSlots(doc, row, path, Item(i), x);
      ItemSmaller(items, i);
      q := FindSlot(doc, row, path + [Item(i)], x);
    case Obj(fields) =>
      InFields(fields, flag, role, x);
      var i: nat :| i < |fields| && x in FieldSlots(fields[i].key, fields[i].value, flag, role);
      var step := Member(i, fields[i].key);
      ChildSlots(doc, row, path, step, x);
      FieldSmaller(fields, i);
      if SlotAt(doc, row, path + [step]) && x in SlotOf(fields[i].value) {
        q := path + [step];
      } else {
        q := FindSlot(doc, row, path + [step], x);
      }
  }

  lemma {:induction false} SlotFound(doc: Json, row: bool, k: nat, q: Path, x: Slot)
    requires k < |q| && At(doc, q).Some? && SlotAt(doc, row, q) && x in SlotOf(At(doc, q).value)
    ensures At(doc, q[..k]).Some? && x in SlotsAt(doc, row, q[..k])
    decreases |q| - k
  {
    var path, step := q[..k], q[k];
    assert q[..k + 1] == path + [step];
    if k + 1 < |q| {
      SlotFound(doc, row, k + 1, q, x);
    } else {
      assert q[..k + 1] == q;
    }
    AtChild(doc, path, step);
    ChildSlots(doc, row, path, step, x);
    var v, role, flag := At(doc, path).value, RoleAt(doc, row, path), FlagAt(doc, row, path);
    match v
    case Arr(items) =>
      InItems(items, flag, ItemRole(role), x);
    case Obj(fields) =>
      InFields(fields, flag, role, x);
  }

  /** A slot is collected iff it is what some place that names a file holds. */
  lemma {:induction false} CollectedIff(doc: Json, row: bool, x: Slot)
    ensures x in Slots(doc, row, Plain) <==>
            exists q: Path :: Bears(doc, row, q) && At(doc, q).Some? && x in SlotOf(At(doc, q).value)
  {
    if x in Slots(doc, row, Plain) {
      var q := FindSlot(doc, row, [], x);
      SlotIffBears(doc, row, q);
    }
    if q: Path :| Bears(doc, row, q) && At(doc, q).Some? && x in SlotOf(At(doc, q).value) {
      SlotIffBears(doc, row, q);
      SlotFound(doc, row, 0, q, x);
    }
  }

  /** The references of a document: the non-empty usable strings at the places that name files. */
  lemma {:induction false} ReferenceIff(doc: Json, row: bool, s: string)
    ensures Ref(s) in Slots(doc, row, Plain) <==>
            s != "" && Usable(s) && exists q: Path :: Bears(doc, row, q) && At(doc, q) == Some(Str(s))
  {
    CollectedIff(doc, row, Ref(s));
  }

  /** What a document is refused for: a value there that is not a string, or not a usable one. */
  lemma {:induction false} BadIff(doc: Json, row: bool)
    ensures Bad in Slots(doc, row, Plain) <==>
            exists q: Path :: Bears(doc, row, q) && At(doc, q).Some? && Refusable(At(doc, q).value)
  {
    CollectedIff(doc, row, Bad);
    if q: Path :| Bears(doc, row, q) && At(doc, q).Some? && Refusable(At(doc, q).value) {
      assert Bad in SlotOf(At(doc, q).value);
    }
  }

  predicate Refusable(v: Json) {
    if v.Str? then '\0' in v.s || '\r' in v.s || '\n' in v.s else v != Null
  }

  // ---------------------------------------------------------------- rewriting

  lemma {:induction false} MappedItem(items: seq<Json>, openvpn: bool, role: Role, f: string -> string, i: nat)
    requires i < |items|
    ensures |MappedItems(items, openvpn, role, f)| == |items|
    ensures MappedItems(items, openvpn, role, f)[i] == Mapped(items[i], openvpn, role, f)
    decreases |items|
  {
    if i > 0 {
      MappedItem(items[1..], openvpn, role, f, i - 1);
    } else if |items| > 1 {
      MappedItem(items[1..], openvpn, role, f, 0);
    }
  }

  lemma {:induction false} MappedMember(fields: seq<Field>, openvpn: bool, role: Role, f: string -> string, i: nat)
    requires i < |fields|
    ensures |MappedFields(fields, openvpn, role, f)| == |fields|
    ensures MappedFields(fields, openvpn, role, f)[i] ==
            Field(fields[i].key, MappedField(fields[i].key, fields[i].value, openvpn, role, f))
    decreases |fields|
  {
    if i > 0 {
      MappedMember(fields[1..], openvpn, role, f, i - 1);
    } else if |fields| > 1 {
      MappedMember(fields[1..], openvpn, role, f, 0);
    }
  }

  /** The two values have children at the same steps. */
  ghost predicate SameShape(v: Json, w: Json) {
    match v
    case Arr(items) => w.Arr? && |w.items| == |items|
    case Obj(fields) => w.Obj? && |w.fields| == |fields| && forall i | 0 <= i < |fields| :: w.fields[i].key == fields[i].key
    case _ => !w.Arr? && !w.Obj?
  }

  lemma {:induction false} MappedShape(v: Json, openvpn: bool, role: Role, f: string -> string)
    ensures SameShape(v, Mapped(v, openvpn, role, f))
  {
    match v
    case Arr(items) =>
      if items != [] {
        MappedItem(items, openvpn, ItemRole(role), f, 0);
      }
    case Obj(fields) =>
      var o := Openvpn(fields, openvpn);
      forall i | 0 <= i < |fields|
        ensures |MappedFields(fields, o, role, f)| == |fields| && MappedFields(fields, o, role, f)[i].key == fields[i].key
      {
        MappedMember(fields, o, role, f, i);
      }
    case _ =>
  }

  /** What rewriting leaves at a place, given what stood there. */
  function Rewritten(doc: Json, row: bool, f: string -> string, path: Path): (w: Json)
    requires At(doc, path).Some?
  {
    var v := At(doc, path).value;
    if SlotAt(doc, row, path) && v.Str? then Renamed(v, f)
    else Mapped(v, FlagAbove(doc, row, path), RoleAt(doc, row, path), f)
  }

  lemma {:induction false} MappedChild(v: Json, openvpn: bool, role: Role, f: string -> string, step: Step)
    requires Child(v, step).Some?
    ensures
      var x, flag := Child(v, step).value, if v.Obj? then Openvpn(v.fields, openvpn) else openvpn;
      Child(Mapped(v, openvpn, role, f), step) ==
      Some(if step.Item? then Mapped(x, flag, ItemRole(role), f) else MappedField(step.key, x, flag, role, f))
  {
    match v
    case Arr(items) => MappedItem(items, openvpn, ItemRole(role), f, step.i);
    case Obj(fields) => MappedMember(fields, Openvpn(fields, openvpn), role, f, step.i);
  }

  lemma {:induction false} MappedAt(doc: Json, row: bool, f: string -> string, path: Path)
    requires At(doc, path).Some?
    ensures At(Mapped(doc, row, Plain, f), path) == Some(Rewritten(doc, row, f, path))
    decreases |path|
  {
    if path != [] {
      var init, step := path[..|path| - 1], path[|path| - 1];
      MappedAt(doc, row, f, init);
      assert At(doc, path) == Child(At(doc, init).value, step);
      assert At(Mapped(doc, row, Plain, f), path) == Child(Rewritten(doc, row, f, init), step);
      var v, role, flag := At(doc, init).value, RoleAt(doc, row, init), FlagAt(doc, row, init);
      MappedChild(v, FlagAbove(doc, row, init), role, f, step);
      var x := Child(v, step).value;
      assert !v.Str?;
      assert FlagAbove(doc, row, path) == flag;
      if step.Item? {
        assert Rewritten(doc, row, f, path) == Mapped(x, flag, ItemRole(role), f);
      } else {
        assert Rewritten(doc, row, f, path) == MappedField(step.key, x, flag, role, f);
      }
    }
  }

  lemma {:induction false} RewrittenShape(doc: Json, row: bool, f: string -> string, path: Path)
    requires At(doc, path).Some?
    ensures SameShape(At(doc, path).value, Rewritten(doc, row, f, path))
  {
    MappedShape(At(doc, path).value, FlagAbove(doc, row, path), RoleAt(doc, row, path), f);
  }

  /**
    `new_` is the document with the references at the places that name files renamed, as
    far as this place tells: no other string, no other value and no shape is changed.
   */
  ghost predicate RenamedAt(doc: Json, row: bool, f: string -> string, new_: Json, path: Path) {
    var v, w := At(doc, path), At(new_, path);
    && (v.Some? <==> w.Some?)
    && (v.Some? ==> SameShape(v.value, w.value))
    && (v.Some? && !v.value.Arr? && !v.value.Obj? ==>
          w.value == if Bears(doc, row, path) && v.value.Str? && v.value.s != "" && Usable(v.value.s)
                     then Str(f(v.value.s)) else v.value)
  }

  /** Rewriting gives exactly the references at the places that name files their new names. */
  lemma {:induction false} MappedRenames(doc: Json, row: bool, f: string -> string, path: Path)
    ensures RenamedAt(doc, row, f, Mapped(doc, row, Plain, f), path)
    decreases |path|
  {
    if At(doc, path).Some? {
      MappedAt(doc, row, f, path);
      RewrittenShape(doc, row, f, path);
      SlotIffBears(doc, row, path);
    } else {
      MappedRenames(doc, row, f, path[..|path| - 1]);
    }
  }
}
