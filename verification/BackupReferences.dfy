/**
  File references in the panel's protocol documents
  (web/service/portable_backup_assets.go:69-160). The source walks a document and, at
  each object, rewrites references that sit two or three levels further down before it
  descends. Here that walk is proved equal to a plain one-pass map over the document,
  in which the role of each object says which of its fields name files.
 */
module BackupReferences {

  /** The field names the walk looks at; every other name is kept as it is. */
  datatype Key = Protocol | TlsSettings | Certificates | CertificateFile | KeyFile | ClientProof | Named(name: string)

  datatype Json =
    | Null
    | Literal(text: string)
    | Str(s: string)
    | Arr(items: seq<Json>)
    | Obj(fields: seq<Field>)

  datatype Field = Field(key: Key, value: Json)

  /** What a file-bearing field holds: a reference, or something the walk refuses. */
  datatype Slot = Ref(name: string) | Bad

  predicate Usable(s: string) {
    forall c | c in s :: c != '\0' && c != '\r' && c != '\n'
  }

  /** fileRef, lines 86-110: absent, null and empty values are passed over. */
  function SlotOf(v: Json): (slots: seq<Slot>) {
    match v
    case Null => []
    case Str(s) => if s == "" then [] else if Usable(s) then [Ref(s)] else [Bad]
    case _ => [Bad]
  }

  function Renamed(v: Json, f: string -> string): (w: Json)
    ensures w.Str? == v.Str? && Size(w) == Size(v)
  {
    if v.Str? && v.s != "" && Usable(v.s) then Str(f(v.s)) else v
  }

  // ---------------------------------------------------------------- sizes

  function Size(v: Json): (n: nat)
    ensures n > 0
  {
    match v
    case Arr(items) => 1 + ItemsSize(items)
    case Obj(fields) => 1 + FieldsSize(fields)
    case _ => 1
  }

  function ItemsSize(items: seq<Json>): (n: nat) {
    if items == [] then 0 else 1 + Size(items[0]) + ItemsSize(items[1..])
  }

  function FieldsSize(fields: seq<Field>): (n: nat)
    ensures fields != [] ==> n > FieldSize(fields[0])
  {
    if fields == [] then 0 else 1 + FieldSize(fields[0]) + FieldsSize(fields[1..])
  }

  function FieldSize(field: Field): (n: nat) {
    Size(field.value)
  }

  // ---------------------------------------------------------------- the walk of the source

  /** What an object is to the object above it. */
  datatype Role = Plain | Tls | Certs | Cert | Proof

  predicate IsSlot(role: Role, key: Key) {
    (role == Cert && (key == CertificateFile || key == KeyFile)) || (role == Proof && key == KeyFile)
  }

  predicate LeadsToCerts(role: Role, key: Key) {
    role == Tls && key == Certificates
  }

  /** The references below a value that are rewritten from above it, lines 124-143. */
  function Pre(role: Role, v: Json, f: string -> string): (w: Json)
    ensures Size(w) == Size(v) && w.Obj? == v.Obj? && w.Arr? == v.Arr?
    decreases Size(v), 0
  {
    if role != Plain && role != Certs && v.Obj? then Obj(PreFields(role, v.fields, f))
    else if role == Certs && v.Arr? then Arr(PreItems(v.items, f))
    else v
  }

  function PreFields(role: Role, fields: seq<Field>, f: string -> string): (r: seq<Field>)
    ensures FieldsSize(r) == FieldsSize(fields) && |r| == |fields|
    decreases FieldsSize(fields), 0
  {
    if fields == [] then [] else
      [Field(fields[0].key, PreField(role, fields[0].key, fields[0].value, f))] + PreFields(role, fields[1..], f)
  }

  function PreField(role: Role, key: Key, x: Json, f: string -> string): (w: Json)
    ensures Size(w) == Size(x)
    decreases Size(x), 1
  {
    if IsSlot(role, key) then Renamed(x, f)
    else if LeadsToCerts(role, key) then Pre(Certs, x, f)
    else x
  }

  function PreItems(items: seq<Json>, f: string -> string): (r: seq<Json>)
    ensures ItemsSize(r) == ItemsSize(items)
    decreases ItemsSize(items), 0
  {
    if items == [] then [] else [Pre(Cert, items[0], f)] + PreItems(items[1..], f)
  }

  function PreSlots(role: Role, v: Json): (slots: seq<Slot>)
    decreases Size(v), 0
  {
    if role != Plain && role != Certs && v.Obj? then PreFieldsSlots(role, v.fields)
    else if role == Certs && v.Arr? then PreItemsSlots(v.items)
    else []
  }

  function PreFieldsSlots(role: Role, fields: seq<Field>): (slots: seq<Slot>)
    decreases FieldsSize(fields), 0
  {
    if fields == [] then [] else
      PreFieldSlots(role, fields[0].key, fields[0].value) + PreFieldsSlots(role, fields[1..])
  }

  function PreFieldSlots(role: Role, key: Key, x: Json): (slots: seq<Slot>)
    decreases Size(x), 1
  {
    if IsSlot(role, key) then SlotOf(x) else if LeadsToCerts(role, key) then PreSlots(Certs, x) else []
  }

  function PreItemsSlots(items: seq<Json>): (slots: seq<Slot>)
    decreases ItemsSize(items), 0
  {
    if items == [] then [] else PreSlots(Cert, items[0]) + PreItemsSlots(items[1..])
  }

  /** The role a child is rewritten in from its parent, before the walk descends. */
  function Below(key: Key, openvpn: bool): (role: Role) {
    if key == TlsSettings then Tls else if key == ClientProof && openvpn then Proof else Plain
  }

  function OwnFields(fields: seq<Field>, openvpn: bool, f: string -> string): (r: seq<Field>)
    ensures FieldsSize(r) == FieldsSize(fields)
  {
    if fields == [] then [] else
      [Field(fields[0].key, Pre(Below(fields[0].key, openvpn), fields[0].value, f))] + OwnFields(fields[1..], openvpn, f)
  }

  function OwnSlots(fields: seq<Field>, openvpn: bool): (slots: seq<Slot>) {
    if fields == [] then [] else
      PreSlots(Below(fields[0].key, openvpn), fields[0].value) + OwnSlots(fields[1..], openvpn)
  }

  /** A protocol named in the object itself takes over from the surrounding one. */
  function Openvpn(fields: seq<Field>, around: bool): (openvpn: bool) {
    if fields == [] then around
    else if fields[0].key == Protocol then
      if fields[0].value.Str? then fields[0].value.s == "openvpn" || fields[0].value.s == "ov" else around
    else Openvpn(fields[1..], around)
  }

  /** walk, lines 111-151. */
  function Walk(v: Json, openvpn: bool, f: string -> string): (w: Json)
    decreases Size(v), 0
  {
    match v
    case Arr(items) => Arr(WalkItems(items, openvpn, f))
    case Obj(fields) =>
      var o := Openvpn(fields, openvpn);
      Obj(WalkFields(OwnFields(fields, o, f), o, f))
    case _ => v
  }

  function WalkItems(items: seq<Json>, openvpn: bool, f: string -> string): (r: seq<Json>)
    decreases ItemsSize(items), 0
  {
    if items == [] then [] else [Walk(items[0], openvpn, f)] + WalkItems(items[1..], openvpn, f)
  }

  function WalkFields(fields: seq<Field>, openvpn: bool, f: string -> string): (r: seq<Field>)
    decreases FieldsSize(fields), 0
  {
    if fields == [] then [] else
      [Field(fields[0].key, Walk(fields[0].value, openvpn, f))] + WalkFields(fields[1..], openvpn, f)
  }

  /** The slots in the order the walk visits them. */
  function WalkSlots(v: Json, openvpn: bool, f: string -> string): (slots: seq<Slot>)
    decreases Size(v), 0
  {
    match v
    case Arr(items) => WalkItemsSlots(items, openvpn, f)
    case Obj(fields) =>
      var o := Openvpn(fields, openvpn);
      OwnSlots(fields, o) + WalkFieldsSlots(OwnFields(fields, o, f), o, f)
    case _ => []
  }

  function WalkItemsSlots(items: seq<Json>, openvpn: bool, f: string -> string): (slots: seq<Slot>)
    decreases ItemsSize(items), 0
  {
    if items == [] then [] else WalkSlots(items[0], openvpn, f) + WalkItemsSlots(items[1..], openvpn, f)
  }

  function WalkFieldsSlots(fields: seq<Field>, openvpn: bool, f: string -> string): (slots: seq<Slot>)
    decreases FieldsSize(fields), 0
  {
    if fields == [] then [] else
      WalkSlots(fields[0].value, openvpn, f) + WalkFieldsSlots(fields[1..], openvpn, f)
  }

  // ---------------------------------------------------------------- the one-pass map

  function ChildRole(role: Role, key: Key, openvpn: bool): (r: Role) {
    if LeadsToCerts(role, key) then Certs else Below(key, openvpn)
  }

  function ItemRole(role: Role): (r: Role) {
    if role == Certs then Cert else Plain
  }

  function Mapped(v: Json, openvpn: bool, role: Role, f: string -> string): (w: Json)
    decreases Size(v), 0
  {
    match v
    case Arr(items) => Arr(MappedItems(items, openvpn, ItemRole(role), f))
    case Obj(fields) => Obj(MappedFields(fields, Openvpn(fields, openvpn), role, f))
    case _ => v
  }

  function MappedItems(items: seq<Json>, openvpn: bool, role: Role, f: string -> string): (r: seq<Json>)
    decreases ItemsSize(items), 0
  {
    if items == [] then [] else [Mapped(items[0], openvpn, role, f)] + MappedItems(items[1..], openvpn, role, f)
  }

  function MappedFields(fields: seq<Field>, openvpn: bool, role: Role, f: string -> string): (r: seq<Field>)
    decreases FieldsSize(fields), 0
  {
    if fields == [] then [] else
      [Field(fields[0].key, MappedField(fields[0].key, fields[0].value, openvpn, role, f))] +
      MappedFields(fields[1..], openvpn, role, f)
  }

  function MappedField(key: Key, x: Json, openvpn: bool, role: Role, f: string -> string): (w: Json)
    decreases Size(x), 1
  {
    if IsSlot(role, key) then if x.Str? then Renamed(x, f) else Mapped(x, openvpn, Plain, f)
    else Mapped(x, openvpn, ChildRole(role, key, openvpn), f)
  }

  /** Every file-bearing slot, in document order. */
  function Slots(v: Json, openvpn: bool, role: Role): (slots: seq<Slot>)
    decreases Size(v), 0
  {
    match v
    case Arr(items) => ItemsSlots(items, openvpn, ItemRole(role))
    case Obj(fields) => FieldsSlots(fields, Openvpn(fields, openvpn), role)
    case _ => []
  }

  function ItemsSlots(items: seq<Json>, openvpn: bool, role: Role): (slots: seq<Slot>)
    decreases ItemsSize(items), 0
  {
    if items == [] then [] else Slots(items[0], openvpn, role) + ItemsSlots(items[1..], openvpn, role)
  }

  function FieldsSlots(fields: seq<Field>, openvpn: bool, role: Role): (slots: seq<Slot>)
    decreases FieldsSize(fields), 0
  {
    if fields == [] then [] else
      FieldSlots(fields[0].key, fields[0].value, openvpn, role) + FieldsSlots(fields[1..], openvpn, role)
  }

  function FieldSlots(key: Key, x: Json, openvpn: bool, role: Role): (slots: seq<Slot>)
    decreases Size(x), 1
  {
    if IsSlot(role, key) then SlotOf(x) + Slots(x, openvpn, Plain)
    else Slots(x, openvpn, ChildRole(role, key, openvpn))
  }
}
