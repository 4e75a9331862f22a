/**
  The decoder undoes the encoder. Decoding the bytes of a message on top of any
  stored state leaves the merge of the two; the round trip and "concatenation is
  merge" both follow from that one fact.
 */
module PbRoundTrip {
  import opened Bits
  import opened Options
  import opened PbWire
  import opened PbMessage
  import opened PbParse

  // ------------------------------------------------------- what the storage needs

  /** The value m can be received on top of d: arrays have room, strings a terminator. */
  ghost predicate FitsVal(l: LType, d: Val, m: Val)
    decreases m, 0
  {
    match l
    case SubmsgT(fs) => m.Sub? ==> FitsMsg(fs, if d.Sub? then d.cells else DefaultCells(fs), m.cells)
    case StringT(size) => m.Blob? ==> |CString(m.bytes, size)| < size
    case _ => true
  }

  ghost predicate FitsCell(fs: seq<Field>, f: Field, d: Cell, m: Cell)
    decreases m, 0
  {
    match (f.rule, m)
    case (Required, Single(v)) => FitsVal(f.ltype, Stored(d), v)
    case (Optional(true), Has(has, v)) => has ==> FitsVal(f.ltype, Stored(d), v)
    case (Optional(false), Single(v)) => !IsDefault(f, m) ==> FitsVal(f.ltype, Stored(d), v)
    case (Repeated(counted, max), Many(items)) =>
      && d.Many?
      && (if counted then |d.items| + |items| <= max else |d.items| == max)
      && FitsItems(f.ltype, items)
    case (OneOf, Union(which, v)) =>
      which == f.tag ==> ReleasesCleanly(fs, d) && FitsVal(f.ltype, ZeroVal(f.ltype), v)
    case _ => true
  }

  ghost predicate FitsItems(l: LType, items: seq<Val>)
    decreases items, 1
  {
    forall k :: 0 <= k < |items| ==> FitsVal(l, ZeroVal(l), items[k])
  }

  ghost predicate FitsAt(fs: seq<Field>, d: seq<Cell>, m: seq<Cell>, i: nat)
    requires i < |fs|
    decreases m, 0
  {
    var c := CellIndex(fs, i);
    c < |d| && (c < |m| ==> FitsCell(fs, fs[i], d[c], m[c]))
  }

  /** The message m can be received on top of d. */
  ghost predicate FitsMsg(fs: seq<Field>, d: seq<Cell>, m: seq<Cell>)
    decreases m, 1
  {
    forall i :: 0 <= i < |fs| ==> FitsAt(fs, d, m, i)
  }

  // --------------------------------------------------------------------- scalars

  lemma PowBytes()
    ensures Pow2(8) == 256 && Pow2(16) == 0x1_0000 && Pow2(32) == TWO_32 && Pow2(64) == TWO_64
  {
    hide Pow2;
    Pow2Values();
    Pow2Add(8, 8);
  }

  lemma CastKeeps(n: int, p: nat)
    requires p >= 2 && p % 2 == 0
    ensures var m := n % p; (if 2 * m < p then m else m - p) == n <==> 0 - p <= 2 * n < p
  {
    if 0 <= 2 * n < p { ModUnique(n, p, 0, n); }
    if 0 - p <= 2 * n < 0 { ModUnique(n, p, -1, n + p); }
  }

  /** A cast to a narrower int keeps the value exactly if it is in range. */
  lemma ClampSigned(n: int, size: nat)
    requires IntSize(size) && -0x8000_0000_0000_0000 <= n < 0x8000_0000_0000_0000
    ensures ToSigned(n % TWO_64, size) == n <==> InSigned(n, size)
  {
    hide Pow2;
    var p := Pow2(8 * size);
    assert p % 2 == 0 && p >= 2 by { EvenPower(8 * size); }
    assert (n % TWO_64) % p == n % p by { ModOfMod(n, size); }
    CastKeeps(n, p);
  }

  lemma EvenPower(n: nat)
    requires n >= 1
    ensures Pow2(n) % 2 == 0 && Pow2(n) >= 2
  {
  }

  lemma ModOfMod(n: int, size: nat)
    requires IntSize(size)
    ensures (n % TWO_64) % Pow2(8 * size) == n % Pow2(8 * size)
  {
    hide Pow2;
    var p, c := Pow2(8 * size), Pow2(64 - 8 * size);
    assert c * p == TWO_64 by { Pow2Add(64 - 8 * size, 8 * size); Pow2Values(); }
    var q, r := n / TWO_64, n % TWO_64;
    assert n == q * TWO_64 + r;
    MulAssoc(q, c, p);
    MulDistribute(q * c, r / p, p);
    ModUnique(n, p, q * c + r / p, r % p);
  }

  /** Sign extension to 64 bits and the casts back are inverse on the field's range. */
  lemma SignedRoundTrip(n: int, size: nat)
    requires IntSize(size) && InSigned(n, size)
    ensures ToSigned(Unsigned64(n), if size == 8 then 8 else 4) == n
  {
    hide Pow2;
    var wide := if size == 8 then 8 else 4;
    Pow2Monotone(8 * size, 8 * wide);
    assert Pow2(8 * wide) <= TWO_64 by { PowBytes(); }
    ClampSigned(n, wide);
  }

  lemma RangesFit(n: int, size: nat)
    requires IntSize(size)
    ensures InUnsigned(n, size) ==> 0 <= n < TWO_64
    ensures InSigned(n, size) ==> ZigZag(n) < TWO_64 && UnZigZag(ZigZag(n)) == n
  {
    hide Pow2;
    PowBytes();
  }

  lemma DecEncNum(l: LType, n: int, rest: seq<Byte>)
    requires Packable(l) && EncNum(l, n).Some?
    ensures DecNum(l, EncNum(l, n).value + rest) == Ok(Num(n), rest)
  {
    hide Pow2, Varint, ReadVarint, LittleEndian, ReadLittleEndian, InSigned, InUnsigned, ToSigned, ZigZag, UnZigZag;
    match l
    case VarintT(size) =>
      SignedRoundTrip(n, size);
      VarintRoundTrip(Unsigned64(n), rest);
    case UVarintT(size) =>
      RangesFit(n, size);
      VarintRoundTrip(n, rest);
    case SVarintT(size) =>
      RangesFit(n, size);
      VarintRoundTrip(ZigZag(n), rest);
    case Fixed32T =>
      FixedRoundTrip(n, 4, rest);
    case Fixed64T =>
      FixedRoundTrip(n, 8, rest);
  }

  lemma FixedRoundTrip(n: int, size: nat, rest: seq<Byte>)
    requires InUnsigned(n, size)
    ensures 0 <= n && ReadLittleEndian(LittleEndian(n, size) + rest, size) == Ok(n, rest)
  {
    LittleEndianRoundTrip(n, size, rest);
  }

  lemma ReadDelimitedRoundTrip(b: seq<Byte>, rest: seq<Byte>)
    requires |b| < TWO_32
    ensures ReadDelimited(Delimited(b) + rest) == Ok(b, rest)
  {
    hide Varint, ReadVarint32;
    assert Delimited(b) + rest == Varint(|b|) + (b + rest);
    Varint32RoundTrip(|b|, b + rest);
    assert (b + rest)[..|b|] == b && (b + rest)[|b|..] == rest;
  }

  lemma ReadKeyRoundTrip(tag: nat, wireType: nat, rest: seq<Byte>)
    requires 1 <= tag < 0x2000_0000 && wireType < 8
    ensures ReadKey(TagBytes(tag, wireType) + rest) == Key(tag, wireType, rest)
  {
    hide Varint, ReadVarint32;
    Varint32RoundTrip(tag * 8 + wireType, rest);
  }

  lemma {:induction false} FindOwnTag(fs: seq<Field>, i: nat)
    requires i < |fs| && forall a, b :: 0 <= a < b < |fs| ==> fs[a].tag != fs[b].tag
    ensures Find(fs, fs[i].tag) == Some(i)
  {
    var n := |fs| - 1;
    var front := fs[..n];
    if i < n {
      assert forall a, b :: 0 <= a < b < |front| ==> front[a].tag != front[b].tag;
      FindOwnTag(front, i);
      assert front[i] == fs[i];
    } else {
      var earlier := Find(front, fs[i].tag);
      assert forall a :: 0 <= a < |front| ==> front[a].tag != fs[i].tag;
    }
  }

  // ------------------------------------------------------------------ lengths

  /** The bytes of a value that a length stands in front of. */
  function Payload(l: LType, v: Val): seq<Byte> {
    match l
    case SubmsgT(fs) => if v.Sub? && EncMsg(fs, v.cells).Some? then EncMsg(fs, v.cells).value else []
    case StringT(size) => if v.Blob? then CString(v.bytes, size) else []
    case BytesT(_) => if v.Blob? then v.bytes else []
    case FixedBytesT(_) => if v.Blob? then v.bytes else []
    case _ => []
  }

  /** The length fits the 32 bits in which it is read. */
  predicate ShortVal(l: LType, v: Val) {
    |Payload(l, v)| < TWO_32
  }

  predicate ShortItems(l: LType, items: seq<Val>) {
    if Packable(l) then EncPacked(l, items).Some? ==> |EncPacked(l, items).value| < TWO_32
    else forall k :: 0 <= k < |items| ==> ShortVal(l, items[k])
  }

  predicate ShortField(f: Field, cell: Cell) {
    if f.rule.Repeated? then cell.Many? ==> ShortItems(f.ltype, cell.items) else Sends(f, cell) ==> ShortVal(f.ltype, cell.v)
  }

  predicate ShortAt(fs: seq<Field>, m: seq<Cell>, i: nat)
    requires i < |fs|
  {
    CellIndex(fs, i) < |m| ==> ShortField(fs[i], m[CellIndex(fs, i)])
  }

  /** Every length in the encoding of m fits 32 bits. Those inside a submessage do if its own does. */
  predicate ShortMsg(fs: seq<Field>, m: seq<Cell>) {
    forall i :: 0 <= i < |fs| ==> ShortAt(fs, m, i)
  }

  /** An encoding below 2^32 bytes has no longer length in it. */
  lemma SmallIsShort(fs: seq<Field>, m: seq<Cell>)
    requires EncMsg(fs, m).Some? && |EncMsg(fs, m).value| < TWO_32
    ensures ShortMsg(fs, m)
  {
    hide EncAt, ShortAt, EncFrom;
    forall i | 0 <= i < |fs| ensures ShortAt(fs, m, i) {
      PartOf(fs, m, 0, i);
      SmallField(fs, m, i);
    }
  }

  lemma {:induction false} PartOf(fs: seq<Field>, m: seq<Cell>, i: nat, j: nat)
    requires i <= j < |fs| && EncFrom(fs, m, i).Some?
    ensures EncAt(fs, m, j).Some? && |EncAt(fs, m, j).value| <= |EncFrom(fs, m, i).value|
    decreases j - i
  {
    hide EncAt;
    if i < j { PartOf(fs, m, i + 1, j); }
  }

  lemma SmallField(fs: seq<Field>, m: seq<Cell>, i: nat)
    requires i < |fs| && EncAt(fs, m, i).Some? && |EncAt(fs, m, i).value| < TWO_32
    ensures ShortAt(fs, m, i)
  {
    hide EncArray, EncTagged, ShortItems, ShortVal, IsDefault;
    var f, c := fs[i], CellIndex(fs, i);
    if f.rule.Repeated? && m[c].Many? {
      SmallArray(f, m[c].items);
    } else if Sends(f, m[c]) {
      TaggedParts(f, m[c].v);
      SmallVal(f.ltype, m[c].v);
    }
  }

  lemma SmallArray(f: Field, items: seq<Val>)
    requires f.rule.Repeated?
    requires EncArray(f, items, f.rule.max).Some? && |EncArray(f, items, f.rule.max).value| < TWO_32
    ensures ShortItems(f.ltype, items)
  {
    hide EncVal, EncPacked, EncUnpacked, ShortVal, Varint;
    if items == [] {
      assert EncPacked(f.ltype, []) == Some([]) by { NonePacked(f.ltype); }
    } else if Packable(f.ltype) {
      var payload := EncPacked(f.ltype, items).value;
      assert |payload| <= |Delimited(payload)|;
    } else {
      forall k | 0 <= k < |items| ensures ShortVal(f.ltype, items[k]) {
        ItemOf(f, items, k);
        SmallVal(f.ltype, items[k]);
      }
    }
  }

  lemma NonePacked(l: LType)
    ensures EncPacked(l, []) == Some([])
  {
  }

  lemma {:induction false} ItemOf(f: Field, items: seq<Val>, k: nat)
    requires EncUnpacked(f, items).Some? && k < |items|
    ensures EncVal(f.ltype, items[k]).Some? && |EncVal(f.ltype, items[k]).value| <= |EncUnpacked(f, items).value|
    decreases k
  {
    hide EncVal, Varint;
    if k > 0 { ItemOf(f, items[1..], k - 1); }
  }

  lemma SmallVal(l: LType, v: Val)
    requires EncVal(l, v).Some? && |EncVal(l, v).value| < TWO_32
    ensures ShortVal(l, v)
  {
    hide EncMsg, EncNum, Varint;
    assert !Packable(l) ==> EncVal(l, v) == Some(Delimited(Payload(l, v)));
  }

  // ------------------------------------------------------------------ one element

  /** The loop of pb_decode_noinit on a key of this message. */
  lemma LoopOnKey(fs: seq<Field>, st: State, i: nat, wireType: nat, body: seq<Byte>)
    requires WellFormed(fs) && i < |fs| && wireType < 8
    ensures DecLoop(fs, st, TagBytes(fs[i].tag, wireType) + body)
         == var r := DecField(fs, st, i, wireType, body);
            if r.Fail? then Fail else DecLoop(fs, r.value, r.rest)
  {
    hide Varint, DecField;
    assert WellFormedField(fs[i]);
    ReadKeyRoundTrip(fs[i].tag, wireType, body);
    FindOwnTag(fs, i);
  }

  /** Values other than submessages do not depend on what was stored. */
  lemma DecEncLeaf(l: LType, d: Val, v: Val, rest: seq<Byte>)
    requires !l.SubmsgT? && EncVal(l, v).Some? && ShortVal(l, v) && FitsVal(l, d, v)
    ensures DecVal(l, d, EncVal(l, v).value + rest) == Ok(MergeVal(l, d, v), rest)
  {
    hide Varint, ReadVarint32, DecNum, EncNum, ReadDelimited;
    if Packable(l) {
      DecEncNum(l, v.n, rest);
    } else {
      var b := if l.StringT? then CString(v.bytes, l.size) else v.bytes;
      assert EncVal(l, v) == Some(Delimited(b));
      ReadDelimitedRoundTrip(b, rest);
      if l.FixedBytesT? && b == [] { assert seq(l.size, _ => 0) == []; }
    }
  }

  // --------------------------------------------------------------------- arrays

  function PutItems(counted: bool, items: seq<Val>, k: nat, vs: seq<Val>): seq<Val>
    decreases |vs|
  {
    if vs == [] then items else PutItems(counted, PutItem(counted, items, k, vs[0]), k + 1, vs[1..])
  }

  lemma {:induction false} PutCounted(items: seq<Val>, k: nat, vs: seq<Val>)
    ensures PutItems(true, items, k, vs) == items + vs
    decreases |vs|
  {
    if vs == [] {
      assert items + vs == items;
    } else {
      PutCounted(items + [vs[0]], k + 1, vs[1..]);
      assert items + [vs[0]] + vs[1..] == items + vs;
    }
  }

  lemma {:induction false} PutFixed(items: seq<Val>, k: nat, vs: seq<Val>)
    requires k + |vs| == |items|
    ensures PutItems(false, items, k, vs) == items[..k] + vs
    decreases |vs|
  {
    if vs == [] {
      assert items[..k] + vs == items;
    } else {
      var items' := items[k := vs[0]];
      PutFixed(items', k + 1, vs[1..]);
      assert items'[..k + 1] + vs[1..] == items[..k] + vs;
    }
  }

  lemma {:induction false} DecEncPacked(l: LType, counted: bool, max: nat, items: seq<Val>, k: nat, vs: seq<Val>)
    requires Packable(l) && k + |vs| <= max && EncPacked(l, vs).Some?
    ensures DecPacked(l, counted, max, items, k, EncPacked(l, vs).value)
         == Ok((PutItems(counted, items, k, MergeItems(l, vs)), k + |vs|), [])
    decreases |vs|
  {
    if vs != [] {
      hide EncVal, DecVal, MergeVal, ZeroVal, PutItem, PutItems, ShortVal, FitsVal;
      var first, others := EncVal(l, vs[0]).value, EncPacked(l, vs[1..]).value;
      assert EncPacked(l, vs).value == first + others;
      LeafFacts(l, vs[0]);
      PackableIsShort(l, vs[0]);
      DecEncLeaf(l, ZeroVal(l), vs[0], others);
      var v := MergeVal(l, ZeroVal(l), vs[0]);
      assert MergeItems(l, vs) == [v] + MergeItems(l, vs[1..]);
      PutItemsCons(counted, items, k, v, MergeItems(l, vs[1..]));
      DecEncPacked(l, counted, max, PutItem(counted, items, k, v), k + 1, vs[1..]);
    }
  }

  lemma PutItemsCons(counted: bool, items: seq<Val>, k: nat, v: Val, vs: seq<Val>)
    ensures PutItems(counted, items, k, [v] + vs) == PutItems(counted, PutItem(counted, items, k, v), k + 1, vs)
  {
    assert ([v] + vs)[1..] == vs;
  }

  lemma PackableIsShort(l: LType, v: Val)
    requires Packable(l)
    ensures ShortVal(l, v)
  {
  }

  lemma LeafFacts(l: LType, v: Val)
    requires !l.SubmsgT? && !l.StringT?
    ensures forall d :: FitsVal(l, d, v)
  {
  }

  /** The state of an array under construction: element k goes in next. */
  function Filling(st: State, i: nat, c: nat, counted: bool, items: seq<Val>, k: nat): State
    requires c < |st.cells|
  {
    var st' := st.(cells := st.cells[c := Many(items)]);
    if counted then st' else st'.(fixedPos := Some(i), fixedCount := k)
  }

  /** The loop may begin or go on filling the array at position i with element k. */
  ghost predicate CanFill(fs: seq<Field>, st: State, i: nat, items: seq<Val>, k: nat)
    requires i < |fs|
  {
    var c := CellIndex(fs, i);
    && c < |st.cells|
    && st.cells[c] == Many(items)
    && fs[i].rule.Repeated?
    && if fs[i].rule.counted then k == |items|
       else (st.fixedPos == Some(i) && st.fixedCount == k) || (st.fixedPos != Some(i) && FixedComplete(fs, st) && k == 0)
  }

  /** Receiving one repeated entry: packed or single, as DecRepeated decides. */
  lemma FieldOnArray(fs: seq<Field>, st: State, i: nat, items: seq<Val>, k: nat, wireType: nat, body: seq<Byte>)
    requires i < |fs| && CanFill(fs, st, i, items, k)
    ensures var f := fs[i];
            DecField(fs, st, i, wireType, body)
            == var r := DecRepeated(f.ltype, f.rule.counted, f.rule.max, items, k, wireType, body);
               if r.Fail? then Fail
               else Ok(Filling(st, i, CellIndex(fs, i), f.rule.counted, r.value.0, r.value.1), r.rest)
  {
    hide DecRepeated;
  }

  /** One key of an array field: the loop goes on with the array that much fuller. */
  lemma LoopOnArray(fs: seq<Field>, st: State, i: nat, items: seq<Val>, k: nat, wireType: nat, body: seq<Byte>)
    requires WellFormed(fs) && i < |fs| && wireType < 8 && CanFill(fs, st, i, items, k)
    ensures var f := fs[i];
            DecLoop(fs, st, TagBytes(f.tag, wireType) + body)
            == var r := DecRepeated(f.ltype, f.rule.counted, f.rule.max, items, k, wireType, body);
               if r.Fail? then Fail
               else DecLoop(fs, Filling(st, i, CellIndex(fs, i), f.rule.counted, r.value.0, r.value.1), r.rest)
  {
    hide DecRepeated, DecLoop, DecField;
    LoopOnKey(fs, st, i, wireType, body);
    FieldOnArray(fs, st, i, items, k, wireType, body);
  }

  // ------------------------------------------------------------ cells and positions

  /** Two positions share a cell only inside one oneof. */
  lemma {:induction false} SharedCell(fs: seq<Field>, i: nat, j: nat)
    requires i < j < |fs|
    ensures CellIndex(fs, i) <= CellIndex(fs, j)
    ensures CellIndex(fs, i) == CellIndex(fs, j) ==> fs[i].rule.OneOf? && fs[j].rule.OneOf?
    decreases j
  {
    if i < j - 1 { SharedCell(fs, i, j - 1); }
  }

  /** Merging field i leaves room for the later fields. */
  lemma FitsStep(fs: seq<Field>, d: seq<Cell>, m: seq<Cell>, i: nat, j: nat)
    requires WellFormed(fs) && i < j < |fs| && FitsAt(fs, d, m, j)
    ensures FitsAt(fs, MergeAt(fs, d, m, i), m, j)
  {
    hide FitsVal, MergeVal, FitsItems;
    SharedCell(fs, i, j);
    assert fs[i].tag != fs[j].tag;
  }

  // ------------------------------------------------------------ the field in turn

  /** The state after the encoding of field i has been received. */
  function Step(fs: seq<Field>, st: State, m: seq<Cell>, i: nat): (r: State)
    requires i < |fs|
  {
    var f, cells := fs[i], MergeAt(fs, st.cells, m, i);
    if f.rule.Required? && RequiredIndex(fs, i) < MAX_REQUIRED then
      st.(cells := cells, seen := st.seen + {RequiredIndex(fs, i)})
    else if f.rule.Repeated? && !f.rule.counted && f.rule.max > 0 then
      st.(cells := cells, fixedPos := Some(i), fixedCount := f.rule.max)
    else st.(cells := cells)
  }

  function StepFrom(fs: seq<Field>, st: State, m: seq<Cell>, i: nat): (r: State)
    requires i <= |fs|
    decreases |fs| - i
  {
    if i == |fs| then st else StepFrom(fs, Step(fs, st, m, i), m, i + 1)
  }

  /** No fixed-count array at or after position i has been started, and the last one is full. */
  ghost predicate FixedBefore(fs: seq<Field>, st: State, i: nat) {
    FixedComplete(fs, st) && (st.fixedPos.Some? ==> st.fixedPos.value < i)
  }

  /** What a singular field stores. */
  function SingularCell(f: Field, v: Val): Cell {
    match f.rule
    case OneOf => Union(f.tag, v)
    case Optional(true) => Has(true, v)
    case _ => Single(v)
  }

  function Base(f: Field, d: Cell): Val {
    if f.rule.OneOf? then ZeroVal(f.ltype) else Stored(d)
  }

  lemma FieldOnSingular(fs: seq<Field>, st: State, i: nat, wireType: nat, body: seq<Byte>, v: Val, rest: seq<Byte>)
    requires i < |fs| && CellIndex(fs, i) < |st.cells| && !fs[i].rule.Repeated?
    requires var d := st.cells[CellIndex(fs, i)];
             && (fs[i].rule.OneOf? ==> ReleasesCleanly(fs, d))
             && DecVal(fs[i].ltype, Base(fs[i], d), body) == Ok(v, rest)
             && (!fs[i].ltype.SubmsgT? ==> DecVal(fs[i].ltype, Stored(d), body) == Ok(v, rest))
    ensures Prepare(fs, st, i).Some?
    ensures DecField(fs, st, i, wireType, body)
         == Ok(Prepare(fs, st, i).value.(cells := st.cells[CellIndex(fs, i) := SingularCell(fs[i], v)]), rest)
  {
    hide DecVal, ReleasesCleanly, ZeroVal;
  }

  /** A singular field, given its value on the wire. */
  lemma DecEncSingular(fs: seq<Field>, st: State, i: nat, v: Val, rest: seq<Byte>)
    requires WellFormed(fs) && i < |fs| && CellIndex(fs, i) < |st.cells| && !fs[i].rule.Repeated?
    requires EncVal(fs[i].ltype, v).Some?
    requires var f, d := fs[i], st.cells[CellIndex(fs, i)];
             var b, merged := EncVal(f.ltype, v).value, MergeVal(f.ltype, Base(f, d), v);
             && (f.rule.OneOf? ==> ReleasesCleanly(fs, d))
             && DecVal(f.ltype, Base(f, d), b + rest) == Ok(merged, rest)
             && (!f.ltype.SubmsgT? ==> DecVal(f.ltype, Stored(d), b + rest) == Ok(merged, rest))
    ensures var c, f := CellIndex(fs, i), fs[i];
            var cell := SingularCell(f, MergeVal(f.ltype, Base(f, st.cells[c]), v));
            Prepare(fs, st, i).Some?
            && DecLoop(fs, st, EncTagged(f, v).value + rest)
               == DecLoop(fs, Prepare(fs, st, i).value.(cells := st.cells[c := cell]), rest)
  {
    hide DecVal, EncVal, MergeVal, DecLoop, DecField, Varint, ReleasesCleanly, Prepare, SingularCell, Base, WellFormed;
    var f, d := fs[i], st.cells[CellIndex(fs, i)];
    var b := EncVal(f.ltype, v).value;
    assert EncTagged(f, v).value + rest == TagBytes(f.tag, WireType(f.ltype)) + (b + rest);
    LoopOnKey(fs, st, i, WireType(f.ltype), b + rest);
    FieldOnSingular(fs, st, i, WireType(f.ltype), b + rest, MergeVal(f.ltype, Base(f, d), v), rest);
  }

  /** The value of a leaf does not depend on the stored one. */
  lemma DecEncLeafAnywhere(l: LType, d: Val, d': Val, v: Val, rest: seq<Byte>)
    requires !l.SubmsgT? && EncVal(l, v).Some? && ShortVal(l, v) && FitsVal(l, d, v)
    ensures DecVal(l, d', EncVal(l, v).value + rest) == Ok(MergeVal(l, d, v), rest)
  {
    hide EncVal, DecVal, DecNum, EncNum, ReadDelimited;
    assert FitsVal(l, d', v);
    DecEncLeaf(l, d', v, rest);
    LeafMerge(l, d, d', v);
  }

  lemma LeafMerge(l: LType, d: Val, d': Val, v: Val)
    requires !l.SubmsgT? && EncVal(l, v).Some?
    ensures MergeVal(l, d, v) == MergeVal(l, d', v)
  {
  }

  /** One value of any type. */
  lemma {:induction false} DecEncVal(l: LType, d: Val, v: Val, rest: seq<Byte>)
    requires WellFormedType(l) && EncVal(l, v).Some? && ShortVal(l, v) && FitsVal(l, d, v)
    ensures DecVal(l, d, EncVal(l, v).value + rest) == Ok(MergeVal(l, d, v), rest)
    decreases v, 5
  {
    if l.SubmsgT? {
      hide DecMsg, EncMsg, MergeCells, ReadDelimited, Varint, FitsMsg, WellFormed, DefaultCells, ShortMsg;
      var cells := if d.Sub? then d.cells else DefaultCells(l.fields);
      var b := EncMsg(l.fields, v.cells).value;
      ReadDelimitedRoundTrip(b, rest);
      SmallIsShort(l.fields, v.cells);
      DecEncMsg(l.fields, cells, v.cells);
    } else {
      DecEncLeaf(l, d, v, rest);
    }
  }

  /** The single entries of an unpacked array. */
  lemma {:induction false} DecEncUnpacked(fs: seq<Field>, st: State, i: nat, items: seq<Val>, k: nat, vs: seq<Val>, rest: seq<Byte>)
    requires WellFormed(fs) && i < |fs| && CanFill(fs, st, i, items, k)
    requires !Packable(fs[i].ltype) && vs != [] && k + |vs| <= fs[i].rule.max
    requires EncUnpacked(fs[i], vs).Some? && ShortItems(fs[i].ltype, vs)
    requires FitsItems(fs[i].ltype, vs)
    requires !fs[i].rule.counted ==> |items| == fs[i].rule.max
    ensures var f := fs[i];
            var all := PutItems(f.rule.counted, items, k, MergeItems(f.ltype, vs));
            DecLoop(fs, st, EncUnpacked(f, vs).value + rest)
            == DecLoop(fs, Filling(st, i, CellIndex(fs, i), f.rule.counted, all, k + |vs|), rest)
    decreases vs, 4
  {
    hide EncVal, DecVal, MergeVal, DecLoop, FitsVal, Varint, ReadDelimited, WellFormed, ShortVal;
    var f := fs[i];
    var l, counted := f.ltype, f.rule.counted;
    assert WellFormedType(l) by { FieldType(fs, i); }
    var b, others := EncVal(l, vs[0]).value, EncUnpacked(f, vs[1..]).value;
    var tail := others + rest;
    assert EncUnpacked(f, vs).value + rest == TagBytes(f.tag, WireType(l)) + (b + tail);
    DecEncVal(l, ZeroVal(l), vs[0], tail);
    LoopOnArray(fs, st, i, items, k, WireType(l), b + tail);
    var v := MergeVal(l, ZeroVal(l), vs[0]);
    var items' := PutItem(counted, items, k, v);
    assert MergeItems(l, vs) == [v] + MergeItems(l, vs[1..]);
    assert ([v] + MergeItems(l, vs[1..]))[1..] == MergeItems(l, vs[1..]);
    var st' := Filling(st, i, CellIndex(fs, i), counted, items', k + 1);
    if vs[1..] == [] {
      assert others + rest == rest;
    } else {
      DecEncUnpacked(fs, st', i, items', k + 1, vs[1..], rest);
      var all := PutItems(counted, items, k, MergeItems(l, vs));
      assert st'.cells[CellIndex(fs, i) := Many(all)] == st.cells[CellIndex(fs, i) := Many(all)];
    }
  }

  lemma FieldType(fs: seq<Field>, i: nat)
    requires WellFormed(fs) && i < |fs|
    ensures WellFormedType(fs[i].ltype)
  {
    assert WellFormedField(fs[i]);
  }

  /** A whole array, packed or not. */
  lemma {:induction false} DecEncArray(fs: seq<Field>, st: State, i: nat, items: seq<Val>, vs: seq<Val>, rest: seq<Byte>)
    requires WellFormed(fs) && i < |fs| && vs != []
    requires CanFill(fs, st, i, items, if fs[i].rule.Repeated? && fs[i].rule.counted then |items| else 0)
    requires if fs[i].rule.counted then |items| + |vs| <= fs[i].rule.max else |items| == |vs| == fs[i].rule.max
    requires EncArray(fs[i], vs, fs[i].rule.max).Some? && ShortItems(fs[i].ltype, vs)
    requires FitsItems(fs[i].ltype, vs)
    ensures var f := fs[i];
            var all := (if f.rule.counted then items else []) + MergeItems(f.ltype, vs);
            DecLoop(fs, st, EncArray(f, vs, f.rule.max).value + rest)
            == DecLoop(fs, Filling(st, i, CellIndex(fs, i), f.rule.counted, all, f.rule.max), rest)
    decreases vs, 5
  {
    hide EncVal, DecVal, MergeVal, DecLoop, FitsVal, Varint, WellFormed, EncPacked, EncUnpacked, DecPacked,
      MergeItems, ReadDelimited, ShortVal;
    var f := fs[i];
    var l, counted, max := f.ltype, f.rule.counted, f.rule.max;
    var k := if counted then |items| else 0;
    var new_ := MergeItems(l, vs);
    if counted { PutCounted(items, k, new_); } else { PutFixed(items, k, new_); }
    var all := PutItems(counted, items, k, new_);
    assert !counted ==> items[..k] + new_ == new_;
    assert !counted ==> [] + new_ == new_;
    if Packable(l) {
      var payload := EncPacked(l, vs).value;
      assert EncArray(f, vs, max).value + rest == TagBytes(f.tag, WT_STRING) + (Delimited(payload) + rest);
      ReadDelimitedRoundTrip(payload, rest);
      DecEncPacked(l, counted, max, items, k, vs);
      LoopOnArray(fs, st, i, items, k, WT_STRING, Delimited(payload) + rest);
    } else {
      DecEncUnpacked(fs, st, i, items, k, vs, rest);
    }
  }

  /** A singular field that is on the wire. */
  lemma {:induction false} DecEncSent(fs: seq<Field>, st: State, i: nat, cell: Cell, rest: seq<Byte>)
    requires WellFormed(fs) && i < |fs| && CellIndex(fs, i) < |st.cells| && Sends(fs[i], cell)
    requires FitsCell(fs, fs[i], st.cells[CellIndex(fs, i)], cell)
    requires EncTagged(fs[i], cell.v).Some? && ShortVal(fs[i].ltype, cell.v)
    ensures var c := CellIndex(fs, i);
            Prepare(fs, st, i).Some?
            && DecLoop(fs, st, EncTagged(fs[i], cell.v).value + rest)
               == DecLoop(fs, Prepare(fs, st, i).value.(cells := st.cells[c := MergeCell(fs[i], st.cells[c], cell)]), rest)
    decreases cell, 6
  {
    hide EncVal, DecVal, MergeVal, DecLoop, FitsVal, Varint, WellFormed, EncTagged, IsDefault, ReleasesCleanly,
      Prepare, ZeroVal;
    var f, d := fs[i], st.cells[CellIndex(fs, i)];
    var l, base := f.ltype, Base(f, d);
    assert WellFormedType(l) by { FieldType(fs, i); }
    TaggedParts(f, cell.v);
    DecEncVal(l, base, cell.v, rest);
    if !l.SubmsgT? { DecEncLeafAnywhere(l, base, Stored(d), cell.v, rest); }
    DecEncSingular(fs, st, i, cell.v, rest);
    assert MergeCell(f, d, cell) == SingularCell(f, MergeVal(l, base, cell.v));
  }

  /** The bytes of field i take the loop to the merged state. */
  lemma {:induction false} DecEncAt(fs: seq<Field>, st: State, m: seq<Cell>, i: nat, rest: seq<Byte>)
    requires WellFormed(fs) && i < |fs| && FitsAt(fs, st.cells, m, i) && FixedBefore(fs, st, i)
    requires EncAt(fs, m, i).Some? && ShortAt(fs, m, i)
    ensures DecLoop(fs, st, EncAt(fs, m, i).value + rest) == DecLoop(fs, Step(fs, st, m, i), rest)
    decreases m, 2
  {
    hide EncVal, DecVal, MergeVal, DecLoop, FitsVal, Varint, WellFormed, EncArray, MergeItems, EncTagged, IsDefault, ShortVal, ShortItems;
    var f, c := fs[i], CellIndex(fs, i);
    var d, cell := st.cells[c], m[c];
    assert WellFormedType(f.ltype) by { FieldType(fs, i); }
    if EncAt(fs, m, i).value == [] {
      assert EncAt(fs, m, i).value + rest == rest;
    }
    if f.rule.Repeated? {
      var vs := cell.items;
      if vs == [] {
        EmptyArray(fs, st, m, i);
      } else {
        DecEncArray(fs, st, i, d.items, vs, rest);
        assert [] + MergeItems(f.ltype, vs) == MergeItems(f.ltype, vs);
        assert d.Many? && cell == Many(vs);
        assert EncAt(fs, m, i) == EncArray(f, vs, f.rule.max);
        var all := (if f.rule.counted then d.items else []) + MergeItems(f.ltype, vs);
        assert MergeCell(f, d, cell) == Many(all);
        assert Step(fs, st, m, i) == Filling(st, i, c, f.rule.counted, all, f.rule.max);
      }
    } else if Sends(f, cell) {
      assert EncAt(fs, m, i) == EncTagged(f, cell.v);
      DecEncSent(fs, st, i, cell, rest);
    } else {
      assert EncAt(fs, m, i) == Some([]);
      assert MergeCell(f, d, cell) == d;
      assert st.cells[c := d] == st.cells;
      assert Step(fs, st, m, i) == st;
    }
  }

  /** The singular field is on the wire. */
  predicate Sends(f: Field, cell: Cell) {
    match (f.rule, cell)
    case (Required, Single(_)) => true
    case (Optional(true), Has(has, _)) => has
    case (Optional(false), Single(_)) => !IsDefault(f, cell)
    case (OneOf, Union(which, _)) => which == f.tag
    case _ => false
  }

  lemma TaggedParts(f: Field, v: Val)
    requires EncTagged(f, v).Some?
    ensures EncVal(f.ltype, v).Some? && |EncVal(f.ltype, v).value| <= |EncTagged(f, v).value|
    ensures EncTagged(f, v).value != []
  {
    hide EncVal, Varint;
  }

  lemma EmptyArray(fs: seq<Field>, st: State, m: seq<Cell>, i: nat)
    requires i < |fs| && fs[i].rule.Repeated? && CellIndex(fs, i) < |m| && m[CellIndex(fs, i)] == Many([])
    requires FitsAt(fs, st.cells, m, i) && EncAt(fs, m, i).Some?
    ensures EncAt(fs, m, i) == Some([]) && Step(fs, st, m, i) == st
  {
    var c := CellIndex(fs, i);
    assert st.cells[c].items + [] == st.cells[c].items;
    assert !fs[i].rule.counted ==> st.cells[c] == Many([]);
    assert MergeCell(fs[i], st.cells[c], m[c]) == st.cells[c];
    assert st.cells[c := st.cells[c]] == st.cells;
  }

  /** The bytes of the fields from i on. */
  lemma {:induction false} DecEncFrom(fs: seq<Field>, st: State, m: seq<Cell>, i: nat, rest: seq<Byte>)
    requires WellFormed(fs) && i <= |fs| && FixedBefore(fs, st, i)
    requires forall j :: i <= j < |fs| ==> FitsAt(fs, st.cells, m, j)
    requires EncFrom(fs, m, i).Some? && ShortMsg(fs, m)
    ensures DecLoop(fs, st, EncFrom(fs, m, i).value + rest) == DecLoop(fs, StepFrom(fs, st, m, i), rest)
    decreases m, 3, |fs| - i
  {
    hide DecLoop, EncAt, WellFormed, FitsAt, MergeAt, ShortAt;
    if i == |fs| {
      assert EncFrom(fs, m, i).value + rest == rest;
    } else {
      var first, others := EncAt(fs, m, i).value, EncFrom(fs, m, i + 1).value;
      assert EncFrom(fs, m, i).value + rest == first + (others + rest);
      DecEncAt(fs, st, m, i, others + rest);
      forall j | i + 1 <= j < |fs| ensures FitsAt(fs, Step(fs, st, m, i).cells, m, j) {
        FitsStep(fs, st.cells, m, i, j);
      }
      DecEncFrom(fs, Step(fs, st, m, i), m, i + 1, rest);
    }
  }

  /** What the walk over the fields leaves: the merge, every required field seen, arrays full. */
  lemma {:induction false} StepFromFacts(fs: seq<Field>, st: State, m: seq<Cell>, i: nat)
    requires i <= |fs| && FixedBefore(fs, st, i)
    ensures var st' := StepFrom(fs, st, m, i);
            && st'.cells == MergeFrom(fs, st.cells, m, i)
            && FixedComplete(fs, st')
            && st.seen <= st'.seen
            && forall k :: RequiredIndex(fs, i) <= k < RequiredIndex(fs, |fs|) && k < MAX_REQUIRED ==> k in st'.seen
    decreases |fs| - i
  {
    hide MergeAt;
    if i < |fs| { StepFromFacts(fs, Step(fs, st, m, i), m, i + 1); }
  }

  /** Decoding the bytes of m on top of d is merging m into d. */
  lemma {:induction false} DecEncMsg(fs: seq<Field>, d: seq<Cell>, m: seq<Cell>)
    requires WellFormed(fs) && FitsMsg(fs, d, m)
    requires EncMsg(fs, m).Some? && ShortMsg(fs, m)
    ensures DecMsg(fs, d, EncMsg(fs, m).value) == Ok(MergeCells(fs, d, m), [])
    decreases m, 4
  {
    hide EncFrom, WellFormed, FitsAt, ShortMsg;
    var st := State(d, {}, None, 0);
    var b := EncMsg(fs, m).value;
    assert b + [] == b;
    DecEncFrom(fs, st, m, 0, []);
    StepFromFacts(fs, st, m, 0);
  }
}
