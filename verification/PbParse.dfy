/**
  What pb_decode.c computes, as functions on the bytes left in a stream.
  A nested message is strictly shorter than the bytes it is read from, so the
  decoder terminates on every input, whatever the descriptors are.
 */
module PbParse {
  import opened Bits
  import opened Options
  import opened PbWire
  import opened PbMessage

  /** What pb_decode_noinit keeps between fields: the storage, the required fields seen,
      and the progress of the fixed-count array it is filling. */
  datatype State = State(cells: seq<Cell>, seen: set<nat>, fixedPos: Option<nat>, fixedCount: nat)

  datatype Key = Key(tag: nat, wireType: nat, rest: seq<Byte>) | EndOfMessage(after: seq<Byte>) | BadKey

  /** pb_decode_tag; a zero key ends the message. */
  function ReadKey(s: seq<Byte>): (k: Key)
    ensures k.Key? ==> |k.rest| < |s|
    ensures k.EndOfMessage? ==> |k.after| < |s|
  {
    match ReadVarint32(s)
    case Fail => BadKey
    case Ok(v, rest) => if v == 0 then EndOfMessage(rest) else Key(v / 8, v % 8, rest)
  }

  /** pb_skip_varint: any number of continuation bytes. */
  function SkipVarint(s: seq<Byte>): (r: Parsed<()>)
    ensures r.Ok? ==> |r.rest| < |s|
  {
    if s == [] then Fail else if s[0] >= 128 then SkipVarint(s[1..]) else Ok((), s[1..])
  }

  function SkipBytes(s: seq<Byte>, n: nat): (r: Parsed<()>)
    ensures r.Ok? ==> |r.rest| + n == |s|
  {
    if |s| < n then Fail else Ok((), s[n..])
  }

  /** pb_skip_field. */
  function SkipField(s: seq<Byte>, wireType: nat): (r: Parsed<()>)
    ensures r.Ok? ==> |r.rest| < |s|
  {
    if wireType == WT_VARINT then SkipVarint(s)
    else if wireType == WT_64BIT then SkipBytes(s, 8)
    else if wireType == WT_STRING then
      var d := ReadDelimited(s);
      if d.Ok? then Ok((), d.rest) else Fail
    else if wireType == WT_32BIT then SkipBytes(s, 4)
    else Fail
  }

  /** A length prefix and that many bytes: pb_make_string_substream and its close. */
  function ReadDelimited(s: seq<Byte>): (r: Parsed<seq<Byte>>)
    ensures r.Ok? ==> |r.value| + |r.rest| < |s|
  {
    match ReadVarint32(s)
    case Fail => Fail
    case Ok(n, rest) => if |rest| < n then Fail else Ok(rest[..n], rest[n..])
  }

  /** The position pb_field_iter_find stops at. */
  function Find(fs: seq<Field>, tag: nat): (r: Option<nat>)
    ensures r.Some? ==> r.value < |fs| && fs[r.value].tag == tag
    ensures r.None? ==> forall i :: 0 <= i < |fs| ==> fs[i].tag != tag
  {
    if fs == [] then None
    else
      var n := |fs| - 1;
      var earlier := Find(fs[..n], tag);
      if earlier.Some? then earlier else if fs[n].tag == tag then Some(n) else None
  }

  /** The int of the given width with the bits of v. */
  function ToSigned(v: nat, size: nat): int {
    var m := v % Pow2(8 * size);
    if 2 * m < Pow2(8 * size) then m else m - Pow2(8 * size)
  }

  /** The scalar field decoders, with their range checks. */
  function DecNum(l: LType, s: seq<Byte>): (r: Parsed<Val>)
    requires Packable(l)
    ensures r.Ok? ==> |r.rest| < |s|
  {
    match l
    case VarintT(size) =>
      var v := ReadVarint(s);
      if v.Fail? || !IntSize(size) then Fail
      else
        // Fields below 64 bits go through int32_t first.
        var n := if size == 8 then ToSigned(v.value, 8) else ToSigned(v.value, 4);
        if InSigned(n, size) then Ok(Num(n), v.rest) else Fail
    case UVarintT(size) =>
      var v := ReadVarint(s);
      if v.Fail? || !IntSize(size) || !InUnsigned(v.value, size) then Fail else Ok(Num(v.value), v.rest)
    case SVarintT(size) =>
      var v := ReadVarint(s);
      if v.Fail? || !IntSize(size) || !InSigned(UnZigZag(v.value), size) then Fail
      else Ok(Num(UnZigZag(v.value)), v.rest)
    case Fixed32T =>
      var v := ReadLittleEndian(s, 4);
      if v.Fail? then Fail else Ok(Num(v.value), v.rest)
    case Fixed64T =>
      var v := ReadLittleEndian(s, 8);
      if v.Fail? then Fail else Ok(Num(v.value), v.rest)
  }

  /** One value on top of the stored one. */
  function DecVal(l: LType, stored: Val, s: seq<Byte>): (r: Parsed<Val>)
    ensures r.Ok? ==> |r.rest| < |s|
    decreases |s|, 3
  {
    if Packable(l) then DecNum(l, s)
    else
      var d := ReadDelimited(s);
      match l
      case SubmsgT(fs) =>
        if d.Fail? then Fail
        else
          var r := DecMsg(fs, if stored.Sub? then stored.cells else DefaultCells(fs), d.value);
          if r.Fail? then Fail else Ok(Sub(r.value), d.rest)
      case BytesT(size) =>
        if d.Fail? || |d.value| + BYTES_HEADER > size then Fail else Ok(Blob(d.value), d.rest)
      case StringT(size) =>
        if d.Fail? || |d.value| + 1 > size then Fail else Ok(Blob(d.value), d.rest)
      case FixedBytesT(size) =>
        if d.Fail? then Fail
        else if d.value == [] then Ok(Blob(seq(size, _ => 0)), d.rest)
        else if |d.value| != size then Fail
        else Ok(Blob(d.value), d.rest)
  }

  /** Where the next element of an array goes. */
  function PutItem(counted: bool, items: seq<Val>, k: nat, v: Val): seq<Val> {
    if counted then items + [v] else if k < |items| then items[k := v] else items
  }

  /** The packed-array loop: from element k until the bytes or the array end. */
  function DecPacked(l: LType, counted: bool, max: nat, items: seq<Val>, k: nat, s: seq<Byte>): (r: Parsed<(seq<Val>, nat)>)
    ensures r.Ok? ==> |r.rest| <= |s|
    decreases |s|, 4
  {
    if s == [] || k >= max then Ok((items, k), s)
    else
      var v := DecVal(l, ZeroVal(l), s);
      if v.Fail? then Fail else DecPacked(l, counted, max, PutItem(counted, items, k, v.value), k + 1, v.rest)
  }

  /** The REPEATED case of decode_static_field. */
  function DecRepeated(l: LType, counted: bool, max: nat, items: seq<Val>, k: nat, wireType: nat, s: seq<Byte>)
      : (r: Parsed<(seq<Val>, nat)>)
    ensures r.Ok? ==> |r.rest| < |s|
    decreases |s|, 5
  {
    if wireType == WT_STRING && Packable(l) then
      var d := ReadDelimited(s);
      if d.Fail? then Fail
      else
        var p := DecPacked(l, counted, max, items, k, d.value);
        if p.Fail? || p.rest != [] then Fail else Ok(p.value, d.rest)
    else if k >= max then Fail
    else
      var v := DecVal(l, ZeroVal(l), s);
      if v.Fail? then Fail else Ok((PutItem(counted, items, k, v.value), k + 1), v.rest)
  }

  /** The bookkeeping pb_decode_noinit does before it decodes field i. */
  function Prepare(fs: seq<Field>, st: State, i: nat): (r: Option<State>)
    requires i < |fs|
    ensures r.Some? ==> r.value.cells == st.cells
  {
    var f := fs[i];
    if f.rule.Required? then
      Some(st.(seen := if RequiredIndex(fs, i) < MAX_REQUIRED then st.seen + {RequiredIndex(fs, i)} else st.seen))
    else if f.rule.Repeated? && !f.rule.counted && st.fixedPos != Some(i) then
      if FixedComplete(fs, st) then Some(st.(fixedPos := Some(i), fixedCount := 0)) else None
    else Some(st)
  }

  /** The fixed-count array last touched is full. */
  predicate FixedComplete(fs: seq<Field>, st: State) {
    st.fixedPos.Some? ==>
      && st.fixedPos.value < |fs|
      && fs[st.fixedPos.value].rule.Repeated?
      && st.fixedCount == fs[st.fixedPos.value].rule.max
  }

  /** decode_field on the cell of position i. */
  function DecCell(fs: seq<Field>, i: nat, cell: Cell, fixedCount: nat, wireType: nat, s: seq<Byte>): (r: Parsed<(Cell, nat)>)
    requires i < |fs|
    ensures r.Ok? ==> |r.rest| < |s|
    decreases |s|, 6
  {
    var f := fs[i];
    match f.rule
    case Required =>
      var v := DecVal(f.ltype, Stored(cell), s);
      if v.Fail? then Fail else Ok((Single(v.value), fixedCount), v.rest)
    case Optional(hasFlag) =>
      var v := DecVal(f.ltype, Stored(cell), s);
      if v.Fail? then Fail else Ok((if hasFlag then Has(true, v.value) else Single(v.value), fixedCount), v.rest)
    case Repeated(counted, max) =>
      var items := if cell.Many? then cell.items else [];
      var r := DecRepeated(f.ltype, counted, max, items, if counted then |items| else fixedCount, wireType, s);
      if r.Fail? then Fail else Ok((Many(r.value.0), if counted then fixedCount else r.value.1), r.rest)
    case OneOf =>
      // pb_release_union_field looks the old arm up; a submessage arm is cleared first.
      if !ReleasesCleanly(fs, cell) then Fail
      else
        var v := DecVal(f.ltype, if f.ltype.SubmsgT? then ZeroVal(f.ltype) else Stored(cell), s);
        if v.Fail? then Fail else Ok((Union(f.tag, v.value), fixedCount), v.rest)
  }

  predicate ReleasesCleanly(fs: seq<Field>, cell: Cell) {
    cell.Union? && cell.which != 0 ==> Find(fs, cell.which).Some?
  }

  function DecField(fs: seq<Field>, st: State, i: nat, wireType: nat, s: seq<Byte>): (r: Parsed<State>)
    requires i < |fs|
    ensures r.Ok? ==> |r.rest| < |s|
    decreases |s|, 7
  {
    var c, p := CellIndex(fs, i), Prepare(fs, st, i);
    if p.None? || c >= |st.cells| then Fail
    else
      var r := DecCell(fs, i, st.cells[c], p.value.fixedCount, wireType, s);
      if r.Fail? then Fail
      else Ok(p.value.(cells := st.cells[c := r.value.0], fixedCount := r.value.1), r.rest)
  }

  /** The while loop of pb_decode_noinit. */
  function DecLoop(fs: seq<Field>, st: State, s: seq<Byte>): (r: Parsed<State>)
    ensures r.Ok? ==> |r.rest| <= |s|
    decreases |s|, 1
  {
    if s == [] then Ok(st, [])
    else
      match ReadKey(s)
      case BadKey => Fail
      case EndOfMessage(after) => Ok(st, after)
      case Key(tag, wireType, rest) =>
        var f := Find(fs, tag);
        if f.Some? then
          var r := DecField(fs, st, f.value, wireType, rest);
          if r.Fail? then Fail else DecLoop(fs, r.value, r.rest)
        else if fs == [] && tag == 0 then
          // The iterator of an empty message points at the terminator, whose tag is 0
          // and whose data_size no decoder accepts.
          Fail
        else
          var r := SkipField(rest, wireType);
          if r.Fail? then Fail else DecLoop(fs, st, r.rest)
  }

  /** Each of the first 64 required fields was seen. */
  predicate AllRequiredSeen(fs: seq<Field>, seen: set<nat>) {
    forall k :: 0 <= k < RequiredIndex(fs, |fs|) && k < MAX_REQUIRED ==> k in seen
  }

  /** pb_decode_noinit: decode on top of what is stored. */
  function DecMsg(fs: seq<Field>, cells: seq<Cell>, s: seq<Byte>): (r: Parsed<seq<Cell>>)
    ensures r.Ok? ==> |r.rest| <= |s|
    decreases |s|, 2
  {
    var r := DecLoop(fs, State(cells, {}, None, 0), s);
    if r.Fail? || !FixedComplete(fs, r.value) || !AllRequiredSeen(fs, r.value.seen) then Fail
    else Ok(r.value.cells, r.rest)
  }

  /** pb_decode: decode on top of the defaults. */
  function Decode(fs: seq<Field>, s: seq<Byte>): Parsed<seq<Cell>> {
    DecMsg(fs, DefaultCells(fs), s)
  }
}
