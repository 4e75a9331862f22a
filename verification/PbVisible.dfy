/**
  The promises of the nanopb pair on whole messages. What a reader of the struct can
  see of a message is its data up to a false has_ flag, an inactive oneof arm and
  positions past a count; that much survives the round trip.
 */
module PbVisible {
  import opened Bits
  import opened Options
  import opened PbWire
  import opened PbMessage
  import opened PbParse
  import opened PbRoundTrip

  // ------------------------------------------------------------------ typed storage

  /** Visible data of the right C type and within its bounds. Hidden data is arbitrary. */
  ghost predicate TypedVal(l: LType, v: Val)
    decreases v, 0
  {
    match l
    case SubmsgT(fs) => v.Sub? && TypedMsg(fs, v.cells)
    case BytesT(size) => v.Blob? && |v.bytes| + BYTES_HEADER <= size
    case StringT(size) => v.Blob? && |CString(v.bytes, size)| < size
    case FixedBytesT(size) => v.Blob? && |v.bytes| == size
    case Fixed32T => v.Num? && InUnsigned(v.n, 4)
    case Fixed64T => v.Num? && InUnsigned(v.n, 8)
    case UVarintT(size) => v.Num? && IntSize(size) && InUnsigned(v.n, size)
    case _ => v.Num? && IntSize(l.size) && InSigned(v.n, l.size)
  }

  ghost predicate TypedItems(l: LType, items: seq<Val>)
    decreases items, 1
  {
    forall k :: 0 <= k < |items| ==> TypedVal(l, items[k])
  }

  ghost predicate TypedCell(f: Field, cell: Cell)
    decreases cell, 0
  {
    match f.rule
    case Required => cell.Single? && TypedVal(f.ltype, cell.v)
    case Optional(hasFlag) =>
      if hasFlag then cell.Has? && (cell.has ==> TypedVal(f.ltype, cell.v))
      else cell.Single? && TypedVal(f.ltype, cell.v)
    case Repeated(counted, max) =>
      cell.Many? && TypedItems(f.ltype, cell.items) && if counted then |cell.items| <= max else |cell.items| == max
    case OneOf => cell.Union? && (cell.which == f.tag ==> TypedVal(f.ltype, cell.v))
  }

  ghost predicate TypedAt(fs: seq<Field>, cells: seq<Cell>, i: nat)
    requires i < |fs|
    decreases cells, 0
  {
    CellIndex(fs, i) < |cells| && TypedCell(fs[i], cells[CellIndex(fs, i)])
  }

  ghost predicate TypedMsg(fs: seq<Field>, cells: seq<Cell>)
    decreases cells, 1
  {
    forall i :: 0 <= i < |fs| ==> TypedAt(fs, cells, i)
  }

  // ------------------------------------------------------------------- visible data

  ghost predicate SameVal(l: LType, a: Val, b: Val)
    decreases b, 0
  {
    match l
    case SubmsgT(fs) => a.Sub? && b.Sub? && SameMsg(fs, a.cells, b.cells)
    case StringT(size) => a.Blob? && b.Blob? && CString(a.bytes, size) == CString(b.bytes, size)
    case _ => a == b
  }

  ghost predicate SameItems(l: LType, a: seq<Val>, b: seq<Val>)
    decreases b, 1
  {
    |a| == |b| && forall k :: 0 <= k < |b| ==> SameVal(l, a[k], b[k])
  }

  ghost predicate SameCell(f: Field, a: Cell, b: Cell)
    decreases b, 0
  {
    match f.rule
    case Required => a.Single? && b.Single? && SameVal(f.ltype, a.v, b.v)
    case Optional(hasFlag) =>
      if hasFlag then a.Has? && b.Has? && a.has == b.has && (b.has ==> SameVal(f.ltype, a.v, b.v))
      else a.Single? && b.Single? && SameVal(f.ltype, a.v, b.v)
    case Repeated(_, _) => a.Many? && b.Many? && SameItems(f.ltype, a.items, b.items)
    case OneOf =>
      a.Union? && b.Union? && (a.which == f.tag <==> b.which == f.tag) && (b.which == f.tag ==> SameVal(f.ltype, a.v, b.v))
  }

  ghost predicate SameAt(fs: seq<Field>, a: seq<Cell>, b: seq<Cell>, i: nat)
    requires i < |fs|
    decreases b, 0
  {
    var c := CellIndex(fs, i);
    c < |a| && c < |b| && SameCell(fs[i], a[c], b[c])
  }

  /** Two structs of one message type that show the same message. */
  ghost predicate SameMsg(fs: seq<Field>, a: seq<Cell>, b: seq<Cell>)
    decreases b, 1
  {
    forall i :: 0 <= i < |fs| ==> SameAt(fs, a, b, i)
  }

  // ----------------------------------------------------------------------- defaults

  lemma {:induction false} CellIndexPrefix(fs: seq<Field>, n: nat, i: nat)
    requires i < n <= |fs|
    ensures CellIndex(fs[..n], i) == CellIndex(fs, i)
  {
    if i > 0 { CellIndexPrefix(fs, n, i - 1); }
  }

  /** Every position finds its field's default cell. */
  lemma {:induction false} DefaultAt(fs: seq<Field>, i: nat)
    requires i < |fs|
    ensures |DefaultCells(fs)| == CellIndex(fs, |fs| - 1) + 1
    ensures CellIndex(fs, i) < |DefaultCells(fs)| && DefaultCells(fs)[CellIndex(fs, i)] == DefaultCell(fs[i])
    decreases |fs|
  {
    hide DefaultCell;
    var n := |fs| - 1;
    var front := fs[..n];
    if n == 0 {
      assert DefaultCells(front) == [];
    } else {
      CellIndexPrefix(fs, n, n - 1);
      DefaultAt(front, if i < n then i else n - 1);
      if i < n { CellIndexPrefix(fs, n, i); }
      if i == n && Joined(fs, n) { OneOfDefault(fs[n], front[n - 1]); }
    }
  }

  lemma OneOfDefault(f: Field, g: Field)
    requires f.rule.OneOf? && g.rule.OneOf?
    ensures DefaultCell(f) == DefaultCell(g)
  {
  }

  // ------------------------------------------------------- typed messages are encoded

  lemma {:induction false} TypedEncVal(l: LType, v: Val)
    requires TypedVal(l, v)
    ensures EncVal(l, v).Some?
    decreases v, 2
  {
    hide Varint, Pow2, InSigned, InUnsigned;
    if l.SubmsgT? { TypedEncMsg(l.fields, v.cells); }
  }

  lemma {:induction false} TypedEncPacked(l: LType, items: seq<Val>)
    requires TypedItems(l, items)
    ensures EncPacked(l, items).Some?
    decreases items, 3
  {
    hide EncVal, TypedVal;
    if items != [] {
      TypedEncVal(l, items[0]);
      TypedEncPacked(l, items[1..]);
    }
  }

  lemma {:induction false} TypedEncUnpacked(f: Field, items: seq<Val>)
    requires TypedItems(f.ltype, items)
    ensures EncUnpacked(f, items).Some?
    decreases items, 3
  {
    hide EncVal, TypedVal, Varint;
    if items != [] {
      TypedEncVal(f.ltype, items[0]);
      TypedEncUnpacked(f, items[1..]);
    }
  }

  lemma {:induction false} TypedEncField(f: Field, cell: Cell)
    requires TypedCell(f, cell)
    ensures EncField(f, cell).Some?
    decreases cell, 3
  {
    hide EncVal, TypedVal, Varint, IsDefault, EncPacked, EncUnpacked, TypedItems;
    if f.rule.Repeated? {
      TypedEncPacked(f.ltype, cell.items);
      TypedEncUnpacked(f, cell.items);
    } else if Sends(f, cell) {
      TypedEncVal(f.ltype, cell.v);
    }
  }

  lemma {:induction false} TypedEncFrom(fs: seq<Field>, m: seq<Cell>, i: nat)
    requires i <= |fs| && forall j :: i <= j < |fs| ==> TypedAt(fs, m, j)
    ensures EncFrom(fs, m, i).Some?
    decreases m, 4, |fs| - i
  {
    hide EncField, TypedCell;
    if i < |fs| {
      assert TypedAt(fs, m, i);
      TypedEncField(fs[i], m[CellIndex(fs, i)]);
      TypedEncFrom(fs, m, i + 1);
    }
  }

  /** The encoder has no error to report on a typed message. */
  lemma {:induction false} TypedEncMsg(fs: seq<Field>, m: seq<Cell>)
    requires TypedMsg(fs, m)
    ensures EncMsg(fs, m).Some?
    decreases m, 5
  {
    TypedEncFrom(fs, m, 0);
  }

  // --------------------------------------------------------------- room in the defaults

  lemma {:induction false} FitsDefaultVal(l: LType, d: Val, v: Val)
    requires TypedVal(l, v) && (l.SubmsgT? ==> d == ZeroVal(l))
    ensures FitsVal(l, d, v)
    decreases v, 2
  {
    hide Pow2, InSigned, InUnsigned;
    if l.SubmsgT? { FitsDefaultMsg(l.fields, v.cells); }
  }

  lemma {:induction false} FitsDefaultMsg(fs: seq<Field>, m: seq<Cell>)
    requires TypedMsg(fs, m)
    ensures FitsMsg(fs, DefaultCells(fs), m)
    decreases m, 3
  {
    hide FitsVal, TypedVal;
    forall i | 0 <= i < |fs| ensures FitsAt(fs, DefaultCells(fs), m, i) {
      assert TypedAt(fs, m, i);
      DefaultAt(fs, i);
      FitsDefaultCell(fs, fs[i], m[CellIndex(fs, i)]);
    }
  }

  lemma BaseOfDefault(f: Field)
    requires f.ltype.SubmsgT? && !f.rule.Repeated?
    ensures Base(f, DefaultCell(f)) == ZeroVal(f.ltype)
  {
    assert DefaultVal(f) == ZeroVal(f.ltype);
  }

  lemma {:induction false} FitsDefaultCell(fs: seq<Field>, f: Field, cell: Cell)
    requires TypedCell(f, cell)
    ensures FitsCell(fs, f, DefaultCell(f), cell)
    decreases cell, 3
  {
    hide FitsVal, TypedVal, IsDefault;
    if f.rule.Repeated? {
      forall k | 0 <= k < |cell.items| ensures FitsVal(f.ltype, ZeroVal(f.ltype), cell.items[k]) {
        assert TypedVal(f.ltype, cell.items[k]);
        FitsDefaultVal(f.ltype, ZeroVal(f.ltype), cell.items[k]);
      }
    } else if Sends(f, cell) {
      if f.ltype.SubmsgT? { BaseOfDefault(f); }
      FitsDefaultVal(f.ltype, Base(f, DefaultCell(f)), cell.v);
    }
  }

  // ------------------------------------------------------------ merging into defaults

  lemma {:induction false} CStringIdempotent(b: seq<Byte>, size: nat)
    ensures CString(CString(b, size), size) == CString(b, size)
    decreases |b|
  {
    if b != [] && size > 0 && b[0] != 0 {
      CStringIdempotent(b[1..], size - 1);
      assert CString(b, size)[1..] == CString(b[1..], size - 1);
    }
  }

  lemma {:induction false} MergeShowsVal(l: LType, d: Val, v: Val)
    requires WellFormedType(l) && TypedVal(l, v) && (l.SubmsgT? ==> d == ZeroVal(l))
    ensures SameVal(l, MergeVal(l, d, v), v)
    decreases v, 2
  {
    hide Pow2, InSigned, InUnsigned, WellFormed, MergeCells;
    if l.SubmsgT? {
      MergeShowsMsg(l.fields, v.cells);
    } else if l.StringT? {
      CStringIdempotent(v.bytes, l.size);
    }
  }

  lemma {:induction false} MergeShowsItems(l: LType, items: seq<Val>)
    requires WellFormedType(l) && TypedItems(l, items)
    ensures SameItems(l, MergeItems(l, items), items)
    decreases items, 3
  {
    hide MergeVal, SameVal, TypedVal, WellFormedType, ZeroVal;
    if items != [] {
      assert TypedVal(l, items[0]);
      MergeShowsVal(l, ZeroVal(l), items[0]);
      MergeShowsItems(l, items[1..]);
      var merged := MergeItems(l, items);
      forall k | 0 <= k < |items| ensures SameVal(l, merged[k], items[k]) {
        if k > 0 {
          assert merged[k] == MergeItems(l, items[1..])[k - 1];
          assert items[k] == items[1..][k - 1];
        }
      }
    }
  }

  /** A proto3 value that is left out shows as the default. */
  lemma {:induction false} ZeroShows(l: LType, v: Val)
    requires WellFormedType(l) && TypedVal(l, v) && IsZero(l, v)
    requires l.SubmsgT? ==> NoFixedCount(l.fields)
    ensures SameVal(l, ZeroVal(l), v)
    decreases v, 2
  {
    hide Pow2, InSigned, InUnsigned;
    if l.SubmsgT? {
      var fs := l.fields;
      forall i | 0 <= i < |fs| ensures SameAt(fs, DefaultCells(fs), v.cells, i) {
        hide TypedCell, IsDefault, SameCell, WellFormedField, NoFixedCountField, DefaultCell;
        assert AtDefault(fs, v.cells, i) && TypedAt(fs, v.cells, i);
        assert WellFormedField(fs[i]) && NoFixedCountField(fs[i]);
        DefaultAt(fs, i);
        DefaultShows(fs[i], v.cells[CellIndex(fs, i)]);
      }
      assert SameMsg(fs, DefaultCells(fs), v.cells);
      assert ZeroVal(l) == Sub(DefaultCells(fs));
    } else if l.FixedBytesT? {
      assert v.bytes == [] && seq(l.size, _ => 0) == v.bytes;
    }
  }

  lemma {:induction false} DefaultShows(f: Field, cell: Cell)
    requires WellFormedField(f) && NoFixedCountField(f) && TypedCell(f, cell) && IsDefault(f, cell)
    ensures SameCell(f, DefaultCell(f), cell)
    decreases cell, 3
  {
    hide SameVal, TypedVal, IsZero, ZeroVal, WellFormedType;
    if f.rule == Optional(false) { ZeroShows(f.ltype, cell.v); }
  }

  /** While the walk stands at position i: earlier fields show as in m, later ones are untouched. */
  ghost predicate Shown(fs: seq<Field>, cur: seq<Cell>, m: seq<Cell>, i: nat, j: nat)
    requires j < |fs|
  {
    var c := CellIndex(fs, j);
    c < |cur| && c < |m|
    && if j < i then SameCell(fs[j], cur[c], m[c])
       else if fs[j].rule.OneOf? then cur[c].Union? && cur[c].which != fs[j].tag
       else cur[c] == DefaultCell(fs[j])
  }

  lemma {:induction false} ShowsCell(f: Field, d: Cell, cell: Cell)
    requires WellFormedField(f) && TypedCell(f, cell)
    requires if f.rule.OneOf? then d.Union? && d.which != f.tag else d == DefaultCell(f)
    ensures SameCell(f, MergeCell(f, d, cell), cell)
    decreases cell, 3
  {
    hide MergeVal, SameVal, TypedVal, IsZero, WellFormedType, ZeroVal, MergeItems, SameItems, TypedItems, NoFixedCount;
    if f.rule.Repeated? {
      MergeShowsItems(f.ltype, cell.items);
      assert [] + MergeItems(f.ltype, cell.items) == MergeItems(f.ltype, cell.items);
    } else if Sends(f, cell) {
      if f.ltype.SubmsgT? && !f.rule.OneOf? { BaseOfDefault(f); }
      MergeShowsVal(f.ltype, Base(f, d), cell.v);
    } else if f.rule == Optional(false) {
      ZeroShows(f.ltype, cell.v);
    }
  }

  /** Other arms of the same oneof are untouched or, when an arm becomes active, inactive. */
  lemma ShownStep(fs: seq<Field>, cur: seq<Cell>, m: seq<Cell>, i: nat, j: nat)
    requires WellFormed(fs) && i < |fs| && j < |fs| && i != j
    requires Shown(fs, cur, m, i, j) && Shown(fs, cur, m, i, i) && TypedAt(fs, m, i)
    ensures Shown(fs, MergeAt(fs, cur, m, i), m, i + 1, j)
  {
    hide SameVal, TypedVal, MergeVal, MergeItems, ZeroVal;
    if i < j { SharedCell(fs, i, j); } else { SharedCell(fs, j, i); }
    assert fs[i].tag != fs[j].tag;
  }

  lemma {:induction false} MergeShowsFrom(fs: seq<Field>, cur: seq<Cell>, m: seq<Cell>, i: nat)
    requires WellFormed(fs) && TypedMsg(fs, m) && i <= |fs|
    requires forall j :: 0 <= j < |fs| ==> Shown(fs, cur, m, i, j)
    ensures SameMsg(fs, MergeFrom(fs, cur, m, i), m)
    decreases m, 4, |fs| - i
  {
    hide WellFormed, TypedCell, MergeAt, SameCell, DefaultCell;
    if i == |fs| {
      forall j | 0 <= j < |fs| ensures SameAt(fs, cur, m, j) {
        assert Shown(fs, cur, m, i, j);
      }
    } else {
      var next, i' := MergeAt(fs, cur, m, i), i + 1;
      assert TypedAt(fs, m, i) && Shown(fs, cur, m, i, i);
      forall j | 0 <= j < |fs| ensures Shown(fs, next, m, i', j) {
        assert Shown(fs, cur, m, i, j);
        if j == i { ShownNow(fs, cur, m, i); } else { ShownStep(fs, cur, m, i, j); }
      }
      MergeShowsFrom(fs, next, m, i');
    }
  }

  lemma {:induction false} ShownNow(fs: seq<Field>, cur: seq<Cell>, m: seq<Cell>, i: nat)
    requires WellFormed(fs) && i < |fs| && Shown(fs, cur, m, i, i) && TypedAt(fs, m, i)
    ensures Shown(fs, MergeAt(fs, cur, m, i), m, i + 1, i)
    decreases m, 3
  {
    hide SameCell, TypedCell, MergeCell, DefaultCell, WellFormedField;
    var c := CellIndex(fs, i);
    assert WellFormedField(fs[i]);
    ShowsCell(fs[i], cur[c], m[c]);
  }

  lemma {:induction false} MergeShowsMsg(fs: seq<Field>, m: seq<Cell>)
    requires WellFormed(fs) && TypedMsg(fs, m)
    ensures SameMsg(fs, MergeCells(fs, DefaultCells(fs), m), m)
    decreases m, 5
  {
    hide SameCell, TypedCell;
    forall j | 0 <= j < |fs| ensures Shown(fs, DefaultCells(fs), m, 0, j) {
      assert TypedAt(fs, m, j) && WellFormedField(fs[j]);
      DefaultAt(fs, j);
    }
    MergeShowsFrom(fs, DefaultCells(fs), m, 0);
  }

  // ----------------------------------------------------------------- the theorems

  /** Round trip: decoding what was encoded succeeds, uses every byte, and shows the message. */
  lemma RoundTrip(fs: seq<Field>, m: seq<Cell>)
    requires WellFormed(fs) && TypedMsg(fs, m)
    ensures EncMsg(fs, m).Some?
    ensures ShortMsg(fs, m) ==>
              var r := Decode(fs, EncMsg(fs, m).value);
              r.Ok? && r.rest == [] && SameMsg(fs, r.value, m)
  {
    hide WellFormed, TypedMsg, EncMsg, DecMsg, FitsMsg, SameMsg, MergeCells, ShortMsg;
    TypedEncMsg(fs, m);
    if ShortMsg(fs, m) {
      FitsDefaultMsg(fs, m);
      DecEncMsg(fs, DefaultCells(fs), m);
      MergeShowsMsg(fs, m);
    }
  }

  // ------------------------------------------------------- concatenation is merge

  /** A field the descriptor does not know. */
  datatype Unknown = Unknown(tag: nat, wireType: nat, payload: seq<Byte>)

  ghost predicate IsUnknown(fs: seq<Field>, u: Unknown) {
    && 1 <= u.tag < 0x2000_0000
    && (forall i :: 0 <= i < |fs| ==> fs[i].tag != u.tag)
    && match u.wireType
       case 0 => IsVarint(u.payload)
       case 1 => |u.payload| == 8
       case 2 => exists b: seq<Byte> :: |b| < TWO_32 && u.payload == Delimited(b)
       case 5 => |u.payload| == 4
       case _ => false
  }

  function UnknownBytes(us: seq<Unknown>): seq<Byte> {
    if us == [] then [] else TagBytes(us[0].tag, us[0].wireType) + us[0].payload + UnknownBytes(us[1..])
  }

  lemma {:induction false} SkipWholeVarint(p: seq<Byte>, rest: seq<Byte>)
    requires IsVarint(p)
    ensures SkipVarint(p + rest) == Ok((), rest)
    decreases |p|
  {
    assert (p + rest)[1..] == p[1..] + rest;
    if |p| == 1 {
      assert p[1..] + rest == rest;
    } else {
      var t := p[1..];
      assert t[|t| - 1] == p[|p| - 1];
      assert forall i :: 0 <= i < |t| - 1 ==> t[i] == p[i + 1];
      SkipWholeVarint(t, rest);
    }
  }

  lemma SkipPayload(fs: seq<Field>, u: Unknown, rest: seq<Byte>)
    requires IsUnknown(fs, u)
    ensures SkipField(u.payload + rest, u.wireType) == Ok((), rest)
  {
    hide Varint, ReadVarint32, ReadDelimited, SkipVarint, IsVarint;
    var p := u.payload;
    assert (p + rest)[|p|..] == rest;
    if u.wireType == 0 {
      SkipWholeVarint(p, rest);
    } else if u.wireType == 2 {
      var b :| |b| < TWO_32 && p == Delimited(b);
      ReadDelimitedRoundTrip(b, rest);
    }
  }

  /** Unknown fields leave no trace. */
  lemma {:induction false} SkipUnknown(fs: seq<Field>, st: State, us: seq<Unknown>, rest: seq<Byte>)
    requires forall k :: 0 <= k < |us| ==> IsUnknown(fs, us[k])
    ensures DecLoop(fs, st, UnknownBytes(us) + rest) == DecLoop(fs, st, rest)
    decreases |us|
  {
    hide Varint, SkipField, ReadKey;
    if us == [] {
      assert UnknownBytes(us) + rest == rest;
    } else {
      var u, tail := us[0], UnknownBytes(us[1..]) + rest;
      assert IsUnknown(fs, u);
      assert UnknownBytes(us) + rest == TagBytes(u.tag, u.wireType) + (u.payload + tail);
      ReadKeyRoundTrip(u.tag, u.wireType, u.payload + tail);
      SkipPayload(fs, u, tail);
      SkipUnknown(fs, st, us[1..], rest);
    }
  }

  ghost predicate NoFixedArray(fs: seq<Field>) {
    forall i :: 0 <= i < |fs| && fs[i].rule.Repeated? ==> fs[i].rule.counted
  }

  lemma {:induction false} StepKeepsFixed(fs: seq<Field>, st: State, m: seq<Cell>, i: nat)
    requires NoFixedArray(fs) && i <= |fs| && st.fixedPos.None?
    ensures StepFrom(fs, st, m, i).fixedPos.None?
    decreases |fs| - i
  {
    hide MergeAt;
    if i < |fs| { StepKeepsFixed(fs, Step(fs, st, m, i), m, i + 1); }
  }

  /** Decoding two encodings in a row, with unknown fields between, merges the second
      message into what the first one left. */
  lemma ConcatenationMerges(fs: seq<Field>, d: seq<Cell>, a: seq<Cell>, us: seq<Unknown>, b: seq<Cell>)
    requires WellFormed(fs) && NoFixedArray(fs)
    requires forall k :: 0 <= k < |us| ==> IsUnknown(fs, us[k])
    requires FitsMsg(fs, d, a) && FitsMsg(fs, MergeCells(fs, d, a), b)
    requires EncMsg(fs, a).Some? && ShortMsg(fs, a)
    requires EncMsg(fs, b).Some? && ShortMsg(fs, b)
    ensures DecMsg(fs, d, EncMsg(fs, a).value + UnknownBytes(us) + EncMsg(fs, b).value)
         == Ok(MergeCells(fs, MergeCells(fs, d, a), b), [])
  {
    hide EncFrom, WellFormed, FitsAt, Varint, UnknownBytes, FitsMsg, IsUnknown;
    var x, u, y := EncMsg(fs, a).value, UnknownBytes(us), EncMsg(fs, b).value;
    var st0 := State(d, {}, None, 0);
    var st1 := StepFrom(fs, st0, a, 0);
    assert x + u + y == x + (u + (y + [])) by { assert y + [] == y; }
    FitsEverywhere(fs, d, a);
    DecEncFrom(fs, st0, a, 0, u + (y + []));
    StepFromFacts(fs, st0, a, 0);
    StepKeepsFixed(fs, st0, a, 0);
    SkipUnknown(fs, st1, us, y + []);
    FitsEverywhere(fs, st1.cells, b);
    DecEncFrom(fs, st1, b, 0, []);
    StepFromFacts(fs, st1, b, 0);
  }

  lemma FitsEverywhere(fs: seq<Field>, d: seq<Cell>, m: seq<Cell>)
    requires FitsMsg(fs, d, m)
    ensures forall j :: 0 <= j < |fs| ==> FitsAt(fs, d, m, j)
  {
    hide FitsAt;
  }

  /** Concatenation is merge: decoding enc(a), unknown fields, enc(b) gives the merge of b
      into a message that shows a. */
  lemma ConcatenationIsMerge(fs: seq<Field>, a: seq<Cell>, us: seq<Unknown>, b: seq<Cell>)
    requires WellFormed(fs) && NoFixedArray(fs) && TypedMsg(fs, a) && TypedMsg(fs, b)
    requires forall k :: 0 <= k < |us| ==> IsUnknown(fs, us[k])
    requires EncMsg(fs, a).Some? && ShortMsg(fs, a)
    requires EncMsg(fs, b).Some? && ShortMsg(fs, b)
    requires FitsMsg(fs, Decode(fs, EncMsg(fs, a).value).GetOr(a), b)
    ensures var a' := Decode(fs, EncMsg(fs, a).value);
            && a'.Ok? && SameMsg(fs, a'.value, a)
            && Decode(fs, EncMsg(fs, a).value + UnknownBytes(us) + EncMsg(fs, b).value)
               == Ok(MergeCells(fs, a'.value, b), [])
  {
    hide WellFormed, TypedMsg, EncMsg, DecMsg, FitsMsg, SameMsg, MergeCells, UnknownBytes, NoFixedArray, IsUnknown;
    FitsDefaultMsg(fs, a);
    DecEncMsg(fs, DefaultCells(fs), a);
    MergeShowsMsg(fs, a);
    ConcatenationMerges(fs, DefaultCells(fs), a, us, b);
  }

  // ------------------------------------------------------------- what a merge means

  /** Fields after i do not touch the cell of a field that is not in a oneof. */
  lemma {:induction false} MergeFromAt(fs: seq<Field>, d: seq<Cell>, m: seq<Cell>, i: nat, j: nat)
    requires i <= |fs| && j < |fs| && !fs[j].rule.OneOf? && CellIndex(fs, j) < |d| && CellIndex(fs, j) < |m|
    ensures MergeFrom(fs, d, m, i)[CellIndex(fs, j)]
         == if j < i then d[CellIndex(fs, j)] else MergeCell(fs[j], d[CellIndex(fs, j)], m[CellIndex(fs, j)])
    decreases |fs| - i
  {
    hide MergeCell;
    if i < |fs| {
      if i < j { SharedCell(fs, i, j); }
      if j < i { SharedCell(fs, j, i); }
      MergeFromAt(fs, MergeAt(fs, d, m, i), m, i + 1, j);
    }
  }

  /** Outside oneofs a merge works field by field. */
  lemma MergePointwise(fs: seq<Field>, d: seq<Cell>, m: seq<Cell>, j: nat)
    requires j < |fs| && !fs[j].rule.OneOf? && CellIndex(fs, j) < |d| && CellIndex(fs, j) < |m|
    ensures MergeCells(fs, d, m)[CellIndex(fs, j)] == MergeCell(fs[j], d[CellIndex(fs, j)], m[CellIndex(fs, j)])
  {
    MergeFromAt(fs, d, m, 0, j);
  }

  lemma MergeArm(f: Field, d: Cell, m: Cell)
    requires f.rule.OneOf? && m.Union?
    ensures MergeCell(f, d, m)
         == if m.which == f.tag then Union(f.tag, MergeVal(f.ltype, ZeroVal(f.ltype), m.v)) else d
  {
    hide MergeVal, ZeroVal;
  }

  /** One step of the walk seen from the cell of the oneof arm j. */
  lemma MergeAtArm(fs: seq<Field>, d: seq<Cell>, m: seq<Cell>, i: nat, j: nat)
    requires i < |fs| && j < |fs| && fs[j].rule.OneOf?
    requires CellIndex(fs, j) < |d| && CellIndex(fs, j) < |m| && m[CellIndex(fs, j)].Union?
    ensures var c := CellIndex(fs, j);
            MergeAt(fs, d, m, i)[c]
            == if CellIndex(fs, i) == c && fs[i].tag == m[c].which
               then Union(fs[i].tag, MergeVal(fs[i].ltype, ZeroVal(fs[i].ltype), m[c].v)) else d[c]
  {
    hide MergeVal, ZeroVal, MergeCell;
    if i < j { SharedCell(fs, i, j); }
    if j < i { SharedCell(fs, j, i); }
    if CellIndex(fs, i) == CellIndex(fs, j) { MergeArm(fs[i], d[CellIndex(fs, j)], m[CellIndex(fs, j)]); }
  }

  lemma {:induction false} MergeOneOfFrom(fs: seq<Field>, d: seq<Cell>, m: seq<Cell>, i: nat, j: nat)
    requires WellFormed(fs) && i <= |fs| && j < |fs| && fs[j].rule.OneOf?
    requires CellIndex(fs, j) < |d| && CellIndex(fs, j) < |m| && m[CellIndex(fs, j)].Union?
    requires m[CellIndex(fs, j)].which == fs[j].tag
    ensures MergeFrom(fs, d, m, i)[CellIndex(fs, j)]
         == if j < i then d[CellIndex(fs, j)]
            else Union(fs[j].tag, MergeVal(fs[j].ltype, ZeroVal(fs[j].ltype), m[CellIndex(fs, j)].v))
    decreases |fs| - i
  {
    hide MergeVal, ZeroVal, MergeAt, WellFormedField;
    if i < |fs| {
      MergeAtArm(fs, d, m, i, j);
      assert i != j ==> fs[i].tag != fs[j].tag;
      MergeOneOfFrom(fs, MergeAt(fs, d, m, i), m, i + 1, j);
    }
  }

  /** In a oneof the arm m has set replaces whatever d had. */
  lemma MergeReplacesOneOf(fs: seq<Field>, d: seq<Cell>, m: seq<Cell>, j: nat)
    requires WellFormed(fs) && j < |fs| && fs[j].rule.OneOf?
    requires CellIndex(fs, j) < |d| && CellIndex(fs, j) < |m| && m[CellIndex(fs, j)].Union?
    requires m[CellIndex(fs, j)].which == fs[j].tag
    ensures MergeCells(fs, d, m)[CellIndex(fs, j)]
         == Union(fs[j].tag, MergeVal(fs[j].ltype, ZeroVal(fs[j].ltype), m[CellIndex(fs, j)].v))
  {
    MergeOneOfFrom(fs, d, m, 0, j);
  }

  /** With no arm set in m, the oneof of d stays. */
  lemma {:induction false} MergeKeepsOneOf(fs: seq<Field>, d: seq<Cell>, m: seq<Cell>, i: nat, j: nat)
    requires i <= |fs| && j < |fs| && fs[j].rule.OneOf?
    requires CellIndex(fs, j) < |d| && CellIndex(fs, j) < |m| && m[CellIndex(fs, j)].Union?
    requires forall k :: 0 <= k < |fs| && CellIndex(fs, k) == CellIndex(fs, j) ==> fs[k].tag != m[CellIndex(fs, j)].which
    ensures MergeFrom(fs, d, m, i)[CellIndex(fs, j)] == d[CellIndex(fs, j)]
    decreases |fs| - i
  {
    hide MergeVal, ZeroVal, MergeAt;
    if i < |fs| {
      MergeAtArm(fs, d, m, i, j);
      MergeKeepsOneOf(fs, MergeAt(fs, d, m, i), m, i + 1, j);
    }
  }
}
