/**
  nanopb messages: descriptor tables, the storage they describe, the bytes the
  encoder emits for a stored message, and the merge that the Protocol Buffers
  specification defines for two messages of one type.

  Storage is a sequence of cells, one for each place a field iterator can point
  at. The arms of a oneof share one cell, as they share one union in C.
 */
module PbMessage {
  import opened Bits
  import opened Options
  import opened PbWire

  /** PB_LTYPE_*, with the data_size of the types that have one. */
  datatype LType =
    | VarintT(size: nat)
    | UVarintT(size: nat)
    | SVarintT(size: nat)
    | Fixed32T
    | Fixed64T
    | BytesT(size: nat)
    | StringT(size: nat)
    | SubmsgT(fields: seq<Field>)
    | FixedBytesT(size: nat)

  /** PB_HTYPE_*. An optional field without a has_ flag is proto3 style. A repeated field
      without a count is a fixed-count array of max elements. */
  datatype Rule = Required | Optional(hasFlag: bool) | Repeated(counted: bool, max: nat) | OneOf

  /** pb_field_s. A data_offset of PB_SIZE_MAX joins a oneof arm to the arm before it. */
  datatype Field = Field(tag: nat, rule: Rule, ltype: LType, default: Option<Val>,
                         dataOffset: nat, sizeOffset: int, dataSize: nat)

  datatype Val = Num(n: int) | Blob(bytes: seq<Byte>) | Sub(cells: seq<Cell>)

  datatype Cell = Single(v: Val) | Has(has: bool, v: Val) | Many(items: seq<Val>) | Union(which: nat, v: Val)

  const BYTES_HEADER := 4    // offsetof(pb_bytes_array_t, bytes) with a 32-bit pb_size_t
  const SIZE_MAX := 0xFFFF_FFFF
  const MAX_REQUIRED := 64   // PB_MAX_REQUIRED_FIELDS

  // Wire types.
  const WT_VARINT := 0
  const WT_64BIT := 1
  const WT_STRING := 2
  const WT_32BIT := 5

  // ------------------------------------------------------------------- layout

  /** Position i continues the union of position i - 1. */
  predicate Joined(fs: seq<Field>, i: nat)
    requires i < |fs|
  {
    i > 0 && fs[i - 1].rule.OneOf? && fs[i].rule.OneOf? && fs[i].dataOffset == SIZE_MAX
  }

  /** The storage cell of field position i. */
  function CellIndex(fs: seq<Field>, i: nat): (c: nat)
    requires i < |fs|
    ensures c <= i
  {
    if i == 0 then 0 else CellIndex(fs, i - 1) + (if Joined(fs, i) then 0 else 1)
  }

  /** How many required fields stand before position i. */
  function RequiredIndex(fs: seq<Field>, i: nat): (n: nat)
    requires i <= |fs|
    ensures n <= i
  {
    if i == 0 then 0 else RequiredIndex(fs, i - 1) + (if fs[i - 1].rule.Required? then 1 else 0)
  }

  predicate Packable(l: LType) {
    l.VarintT? || l.UVarintT? || l.SVarintT? || l.Fixed32T? || l.Fixed64T?
  }

  function WireType(l: LType): nat {
    match l
    case VarintT(_) => WT_VARINT
    case UVarintT(_) => WT_VARINT
    case SVarintT(_) => WT_VARINT
    case Fixed32T => WT_32BIT
    case Fixed64T => WT_64BIT
    case _ => WT_STRING
  }

  /** A descriptor table the generator can produce: positive distinct tags that fit a
      varint32 key, no default value on a proto3 field, and no fixed-count array where
      pb_check_proto3_default_value would look for its count. */
  ghost predicate WellFormed(fs: seq<Field>) {
    && (forall i :: 0 <= i < |fs| ==> WellFormedField(fs[i]))
    && (forall i, j :: 0 <= i < j < |fs| ==> fs[i].tag != fs[j].tag)
  }

  ghost predicate WellFormedField(f: Field) {
    && 1 <= f.tag < 0x2000_0000
    && WellFormedType(f.ltype)
    && (f.rule == Optional(false) ==> f.default.None?)
    && (f.rule == Optional(false) && f.ltype.SubmsgT? ==> NoFixedCount(f.ltype.fields))
  }

  ghost predicate WellFormedType(l: LType) {
    l.SubmsgT? ==> WellFormed(l.fields)
  }

  /** No fixed-count array in the table or below an implicit-presence submessage of it. */
  ghost predicate NoFixedCount(fs: seq<Field>)
    decreases fs
  {
    forall i :: 0 <= i < |fs| ==> NoFixedCountField(fs[i])
  }

  ghost predicate NoFixedCountField(f: Field)
    decreases f
  {
    && (f.rule.Repeated? ==> f.rule.counted)
    && (f.rule == Optional(false) && f.ltype.SubmsgT? ==> NoFixedCount(f.ltype.fields))
  }

  // ----------------------------------------------------------------- defaults

  function ZeroVal(l: LType): Val
    decreases l
  {
    match l
    case SubmsgT(fs) => Sub(DefaultCells(fs))
    case BytesT(_) => Blob([])
    case StringT(_) => Blob([])
    case FixedBytesT(n) => Blob(seq(n, _ => 0))
    case _ => Num(0)
  }

  /** What pb_field_set_to_default stores. Storage it leaves alone (an inactive union, the
      elements of a fixed-count array) is taken as zero. */
  function DefaultCell(f: Field): Cell
    decreases f, 1
  {
    match f.rule
    case Required => Single(DefaultVal(f))
    case Optional(hasFlag) => if hasFlag then Has(false, DefaultVal(f)) else Single(DefaultVal(f))
    case Repeated(counted, max) => if counted then Many([]) else Many(seq(max, _ => ZeroVal(f.ltype)))
    case OneOf => Union(0, Num(0))
  }

  function DefaultVal(f: Field): Val
    decreases f, 0
  {
    if f.ltype.SubmsgT? || f.default.None? then ZeroVal(f.ltype) else f.default.value
  }

  /** pb_message_set_to_defaults: one default cell for each place in the table. */
  function DefaultCells(fs: seq<Field>): seq<Cell>
    decreases fs
  {
    if fs == [] then []
    else
      var n := |fs| - 1;
      DefaultCells(fs[..n]) + (if Joined(fs, n) then [] else [DefaultCell(fs[n])])
  }

  // ----------------------------------------------------------------- encoding

  predicate IntSize(size: nat) {
    size == 1 || size == 2 || size == 4 || size == 8
  }

  predicate InSigned(n: int, size: nat) {
    0 - Pow2(8 * size) <= 2 * n < Pow2(8 * size)
  }

  predicate InUnsigned(n: int, size: nat) {
    0 <= n < Pow2(8 * size)
  }

  function Unsigned64(n: int): nat {
    n % TWO_64
  }

  /** strnlen over a buffer of the given size. */
  function CString(b: seq<Byte>, size: nat): seq<Byte> {
    if b == [] || size == 0 || b[0] == 0 then [] else [b[0]] + CString(b[1..], size - 1)
  }

  function Delimited(b: seq<Byte>): seq<Byte> {
    Varint(|b|) + b
  }

  function TagBytes(tag: nat, wireType: nat): seq<Byte> {
    Varint(tag * 8 + wireType)
  }

  /** The bytes of one value; None where the encoder reports an error. */
  function EncVal(l: LType, v: Val): Option<seq<Byte>>
    decreases v, 0
  {
    match l
    case SubmsgT(fs) =>
      if !v.Sub? then None
      else
        var b := EncMsg(fs, v.cells);
        if b.None? then None else Some(Delimited(b.value))
    case BytesT(size) =>
      if v.Blob? && |v.bytes| + BYTES_HEADER <= size then Some(Delimited(v.bytes)) else None
    case StringT(size) => if v.Blob? then Some(Delimited(CString(v.bytes, size))) else None
    case FixedBytesT(size) => if v.Blob? && |v.bytes| == size then Some(Delimited(v.bytes)) else None
    case _ => if v.Num? then EncNum(l, v.n) else None
  }

  function EncNum(l: LType, n: int): Option<seq<Byte>>
    requires Packable(l)
  {
    match l
    case VarintT(size) => if IntSize(size) && InSigned(n, size) then Some(Varint(Unsigned64(n))) else None
    case UVarintT(size) => if IntSize(size) && InUnsigned(n, size) then Some(Varint(n)) else None
    case SVarintT(size) => if IntSize(size) && InSigned(n, size) then Some(Varint(ZigZag(n))) else None
    case Fixed32T => if InUnsigned(n, 4) then Some(LittleEndian(n, 4)) else None
    case Fixed64T => if InUnsigned(n, 8) then Some(LittleEndian(n, 8)) else None
  }

  /** The elements of a packed array. */
  function EncPacked(l: LType, items: seq<Val>): Option<seq<Byte>>
    decreases items, 1
  {
    if items == [] then Some([])
    else
      var first, others := EncVal(l, items[0]), EncPacked(l, items[1..]);
      if first.None? || others.None? then None else Some(first.value + others.value)
  }

  /** The elements of an unpacked array, a key before each. */
  function EncUnpacked(f: Field, items: seq<Val>): Option<seq<Byte>>
    decreases items, 1
  {
    if items == [] then Some([])
    else
      var first, others := EncVal(f.ltype, items[0]), EncUnpacked(f, items[1..]);
      if first.None? || others.None? then None
      else Some(TagBytes(f.tag, WireType(f.ltype)) + first.value + others.value)
  }

  /** encode_array. */
  function EncArray(f: Field, items: seq<Val>, max: nat): Option<seq<Byte>>
    decreases items, 2
  {
    if items == [] then Some([])
    else if |items| > max then None
    else if Packable(f.ltype) then
      var payload := EncPacked(f.ltype, items);
      if payload.None? then None else Some(TagBytes(f.tag, WT_STRING) + Delimited(payload.value))
    else EncUnpacked(f, items)
  }

  function EncTagged(f: Field, v: Val): Option<seq<Byte>>
    decreases v, 1
  {
    var b := EncVal(f.ltype, v);
    if b.None? then None else Some(TagBytes(f.tag, WireType(f.ltype)) + b.value)
  }

  /** encode_basic_field for the field and the cell it points at. */
  function EncField(f: Field, cell: Cell): Option<seq<Byte>>
    decreases cell, 0
  {
    match (f.rule, cell)
    case (Required, Single(v)) => EncTagged(f, v)
    case (Optional(true), Has(has, v)) => if has then EncTagged(f, v) else Some([])
    case (Optional(false), Single(v)) => if IsDefault(f, cell) then Some([]) else EncTagged(f, v)
    case (Repeated(counted, max), Many(items)) =>
      if counted || |items| == max then EncArray(f, items, max) else None
    case (OneOf, Union(which, v)) => if which == f.tag then EncTagged(f, v) else Some([])
    case _ => None
  }

  function EncAt(fs: seq<Field>, cells: seq<Cell>, i: nat): Option<seq<Byte>>
    requires i < |fs|
    decreases cells, 0
  {
    var c := CellIndex(fs, i);
    if c < |cells| then EncField(fs[i], cells[c]) else None
  }

  function EncFrom(fs: seq<Field>, cells: seq<Cell>, i: nat): Option<seq<Byte>>
    requires i <= |fs|
    decreases cells, 1, |fs| - i
  {
    if i == |fs| then Some([])
    else
      var first, others := EncAt(fs, cells, i), EncFrom(fs, cells, i + 1);
      if first.None? || others.None? then None else Some(first.value + others.value)
  }

  /** pb_encode: the fields in table order. */
  function EncMsg(fs: seq<Field>, cells: seq<Cell>): Option<seq<Byte>>
    decreases cells, 2
  {
    EncFrom(fs, cells, 0)
  }

  /** pb_check_proto3_default_value. */
  predicate IsDefault(f: Field, cell: Cell)
    decreases cell, 0
  {
    match (f.rule, cell)
    case (Required, _) => false
    case (Repeated(counted, _), Many(items)) => counted && items == []
    case (OneOf, Union(which, _)) => which == 0
    case (Optional(true), Has(has, _)) => !has
    case (Optional(false), Single(v)) => IsZero(f.ltype, v)
    case _ => false
  }

  predicate IsZero(l: LType, v: Val)
    decreases v, 0
  {
    match l
    case SubmsgT(fs) => v.Sub? && forall i :: 0 <= i < |fs| ==> AtDefault(fs, v.cells, i)
    case BytesT(_) => v == Blob([])
    case StringT(_) => v.Blob? && (v.bytes == [] || v.bytes[0] == 0)
    case FixedBytesT(size) => size == 0
    case _ => v == Num(0)
  }

  predicate AtDefault(fs: seq<Field>, cells: seq<Cell>, i: nat)
    requires i < |fs|
    decreases cells, 1
  {
    var c := CellIndex(fs, i);
    c < |cells| && IsDefault(fs[i], cells[c])
  }

  // -------------------------------------------------------------------- merge

  /** What receiving m on top of d leaves: the last scalar wins, submessages merge. */
  function MergeVal(l: LType, d: Val, m: Val): Val
    decreases m, 0
  {
    match l
    case SubmsgT(fs) =>
      if m.Sub? then Sub(MergeCells(fs, if d.Sub? then d.cells else DefaultCells(fs), m.cells)) else d
    case StringT(size) => if m.Blob? then Blob(CString(m.bytes, size)) else d
    case _ => m
  }

  /** New array elements start from the defaults. */
  function MergeItems(l: LType, items: seq<Val>): (r: seq<Val>)
    ensures |r| == |items|
    decreases items, 1
  {
    if items == [] then [] else [MergeVal(l, ZeroVal(l), items[0])] + MergeItems(l, items[1..])
  }

  function Stored(cell: Cell): Val {
    if cell.Many? then Num(0) else cell.v
  }

  function MergeCell(f: Field, d: Cell, m: Cell): Cell
    decreases m, 0
  {
    match (f.rule, m)
    case (Required, Single(v)) => Single(MergeVal(f.ltype, Stored(d), v))
    case (Optional(true), Has(has, v)) => if has then Has(true, MergeVal(f.ltype, Stored(d), v)) else d
    case (Optional(false), Single(v)) => if IsDefault(f, m) then d else Single(MergeVal(f.ltype, Stored(d), v))
    case (Repeated(counted, _), Many(items)) =>
      if counted then Many((if d.Many? then d.items else []) + MergeItems(f.ltype, items))
      else Many(MergeItems(f.ltype, items))
    case (OneOf, Union(which, v)) =>
      // A oneof is replaced, never merged.
      if which == f.tag then Union(which, MergeVal(f.ltype, ZeroVal(f.ltype), v)) else d
    case _ => d
  }

  function MergeAt(fs: seq<Field>, d: seq<Cell>, m: seq<Cell>, i: nat): (r: seq<Cell>)
    requires i < |fs|
    ensures |r| == |d|
    decreases m, 0
  {
    var c := CellIndex(fs, i);
    if c < |d| && c < |m| then d[c := MergeCell(fs[i], d[c], m[c])] else d
  }

  function MergeFrom(fs: seq<Field>, d: seq<Cell>, m: seq<Cell>, i: nat): (r: seq<Cell>)
    requires i <= |fs|
    ensures |r| == |d|
    decreases m, 1, |fs| - i
  {
    if i == |fs| then d else MergeFrom(fs, MergeAt(fs, d, m, i), m, i + 1)
  }

  /** The merge of two messages of one type. */
  function MergeCells(fs: seq<Field>, d: seq<Cell>, m: seq<Cell>): (r: seq<Cell>)
    ensures |r| == |d|
    decreases m, 2
  {
    MergeFrom(fs, d, m, 0)
  }
}
