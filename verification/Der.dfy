/**
  The part of crypto/bytestring that sessions use: DER elements with minimal lengths of at
  most four bytes, unsigned integers, booleans and octet strings (sections 8.1 to 8.3 and
  10.1 of X.690). Tags of more than one byte are read but never written.
 */
module Der {
  import opened Bits
  import opened Options

  /** A value read and the bytes after it. */
  datatype Read<+T> = Read(value: T, rest: seq<Byte>)

  /** The class and constructed bits, and the tag number. */
  datatype Tag = Tag(bits: nat, number: nat)

  datatype Element = Element(tag: Tag, body: seq<Byte>)

  const BOOLEAN: Byte := 0x01
  const INTEGER: Byte := 0x02
  const OCTET_STRING: Byte := 0x04
  const SEQUENCE: Byte := 0x30
  const CONTEXT: Byte := 0xA0   // CBS_ASN1_CONSTRUCTED | CBS_ASN1_CONTEXT_SPECIFIC

  const LENGTH_LIMIT := 0xFFFF_FFFF   // the length one past what CBB_flush encodes
  const TAG_NUMBERS := 0x2000_0000    // CBS_ASN1_TAG_NUMBER_MASK + 1
  const TWO_57 := 0x200_0000_0000_0000
  const TWO_56 := 0x100_0000_0000_0000
  const TWO_64 := 0x1_0000_0000_0000_0000

  // ------------------------------------------------------------------ writing

  /** The length bytes CBB_flush writes. */
  function Length(n: nat): seq<Byte> {
    if n <= 0x7F then [n]
    else if n <= 0xFF then [0x81, n]
    else if n <= 0xFFFF then [0x82, n / 0x100, n % 0x100]
    else if n <= 0xFF_FFFF then [0x83, n / 0x1_0000, n / 0x100 % 0x100, n % 0x100]
    else [0x84, n / 0x100_0000 % 0x100, n / 0x1_0000 % 0x100, n / 0x100 % 0x100, n % 0x100]
  }

  /** CBB_add_asn1 with its contents. */
  function Tlv(tag: Byte, body: seq<Byte>): (s: seq<Byte>)
    ensures |s| > |body| && s[0] == tag
  {
    [tag] + Length(|body|) + body
  }

  function Digits(v: nat): (s: seq<Byte>)
    ensures s != []
  {
    if v < 256 then [v] else Digits(v / 256) + [v % 256]
  }

  /** The body CBB_add_asn1_uint64 writes: no leading zero but one that keeps it positive. */
  function UintBody(v: nat): seq<Byte> {
    if Digits(v)[0] >= 128 then [0] + Digits(v) else Digits(v)
  }

  function Uint(v: nat): seq<Byte> {
    Tlv(INTEGER, UintBody(v))
  }

  function Octets(b: seq<Byte>): seq<Byte> {
    Tlv(OCTET_STRING, b)
  }

  function Bool(b: bool): seq<Byte> {
    Tlv(BOOLEAN, [if b then 0xFF else 0])
  }

  /** An explicitly tagged optional element. */
  function Optional(tag: Byte, present: bool, body: seq<Byte>): seq<Byte> {
    if present then Tlv(tag, body) else []
  }

  /** An optional octet string in its explicit tag. */
  function OptOctets(tag: Byte, b: Option<seq<Byte>>): seq<Byte> {
    Optional(tag, b.Some?, if b.Some? then Octets(b.value) else [])
  }

  function OptUint(tag: Byte, v: nat, default: nat): seq<Byte> {
    Optional(tag, v != default, Uint(v))
  }

  function OptBool(tag: Byte, v: bool, default: bool): seq<Byte> {
    Optional(tag, v != default, Bool(v))
  }

  // ------------------------------------------------------------------ reading

  /** The length of a DER element; only the shortest form is accepted. */
  function GetLength(s: seq<Byte>): Option<Read<nat>> {
    if s == [] then None
    else if s[0] < 128 then Some(Read(s[0], s[1..]))
    else
      var k := s[0] - 128;
      if k == 0 || k > 4 || |s| <= k then None
      else
        var n := BigEndian(s[1..1 + k]);
        if n < 128 || n / (if k == 1 then 1 else if k == 2 then 0x100 else if k == 3 then 0x1_0000 else 0x100_0000) == 0
        then None
        else Some(Read(n, s[1 + k..]))
  }

  function BigEndian(s: seq<Byte>): nat {
    if s == [] then 0 else BigEndian(s[..|s| - 1]) * 256 + s[|s| - 1]
  }

  /** parse_base128_integer, with v read so far. */
  function Base128(s: seq<Byte>, v: nat): (r: Option<Read<nat>>)
    ensures r.Some? ==> |r.value.rest| < |s|
  {
    if s == [] || v / TWO_57 != 0 || (v == 0 && s[0] == 0x80) then None
    else
      var next := v * 128 + s[0] % 128;
      if s[0] < 128 then Some(Read(next, s[1..])) else Base128(s[1..], next)
  }

  /** parse_asn1_tag. */
  function GetTag(s: seq<Byte>): (r: Option<Read<Tag>>)
    ensures r.Some? ==> |r.value.rest| < |s|
  {
    if s == [] then None
    else if s[0] % 32 != 31 then Some(Read(LowTag(s[0]), s[1..]))
    else
      var number :- Base128(s[1..], 0);
      if number.value >= TAG_NUMBERS || number.value < 31 then None
      else Some(Read(Tag(s[0] / 32, number.value), number.rest))
  }

  /** A tag of one byte. */
  function LowTag(tag: Byte): Tag {
    Tag(tag / 32, tag % 32)
  }

  /** CBS_get_any_asn1. */
  function GetAny(s: seq<Byte>): (r: Option<Read<Element>>)
    ensures r.Some? ==> |r.value.value.body| + |r.value.rest| < |s|
  {
    var tag :- GetTag(s);
    var n := GetLength(tag.rest);
    if n.None? || |n.value.rest| < n.value.value then None
    else
      ShrinksBy(tag.rest);
      Some(Read(Element(tag.value, n.value.rest[..n.value.value]), n.value.rest[n.value.value..]))
  }

  lemma ShrinksBy(s: seq<Byte>)
    ensures GetLength(s).Some? ==> |GetLength(s).value.rest| < |s|
  {
  }

  /** CBS_get_asn1. */
  function GetAsn1(s: seq<Byte>, tag: Byte): (r: Option<Read<seq<Byte>>>)
    ensures r.Some? ==> |r.value.value| + |r.value.rest| < |s|
  {
    var e := GetAny(s);
    if e.None? || e.value.value.tag != LowTag(tag) then None else Some(Read(e.value.value.body, e.value.rest))
  }

  /** CBS_get_asn1_uint64. */
  function GetUint(s: seq<Byte>): Option<Read<nat>> {
    var e := GetAsn1(s, INTEGER);
    if e.None? then None
    else
      var b := e.value.value;
      if b == [] || b[0] >= 128 || (b[0] == 0 && |b| > 1 && b[1] < 128) then None
      else
        var v := Accumulate(b, 0);
        if v.None? then None else Some(Read(v.value, e.value.rest))
  }

  /** The loop that shifts the bytes in. */
  function Accumulate(b: seq<Byte>, acc: nat): Option<nat> {
    if b == [] then Some(acc)
    else if acc / TWO_56 != 0 then None
    else Accumulate(b[1..], acc * 256 + b[0])
  }

  /** CBS_peek_asn1_tag. */
  predicate Peek(s: seq<Byte>, tag: Byte) {
    GetTag(s).Some? && GetTag(s).value.value == LowTag(tag)
  }

  /** For a tag of one byte that byte decides. */
  lemma PeekIsFirstByte(s: seq<Byte>, tag: Byte)
    requires tag % 32 != 31
    ensures Peek(s, tag) <==> s != [] && s[0] == tag
  {
    if s != [] && s[0] / 32 == tag / 32 && s[0] % 32 == tag % 32 { assert s[0] == tag; }
  }

  /** CBS_get_optional_asn1. */
  function GetOptional(s: seq<Byte>, tag: Byte): Option<Read<Option<seq<Byte>>>> {
    if !Peek(s, tag) then Some(Read(None, s))
    else
      var e := GetAsn1(s, tag);
      if e.None? then None else Some(Read(Some(e.value.value), e.value.rest))
  }

  /** CBS_get_optional_asn1_octet_string. */
  function GetOptionalOctets(s: seq<Byte>, tag: Byte): Option<Read<Option<seq<Byte>>>> {
    var e := GetOptional(s, tag);
    if e.None? || e.value.value.None? then e
    else
      var b := GetAsn1(e.value.value.value, OCTET_STRING);
      if b.None? || b.value.rest != [] then None else Some(Read(Some(b.value.value), e.value.rest))
  }

  /** CBS_get_optional_asn1_uint64. */
  function GetOptionalUint(s: seq<Byte>, tag: Byte, default: nat): Option<Read<nat>> {
    var e := GetOptional(s, tag);
    if e.None? then None
    else if e.value.value.None? then Some(Read(default, e.value.rest))
    else
      var b := GetUint(e.value.value.value);
      if b.None? || b.value.rest != [] then None else Some(Read(b.value.value, e.value.rest))
  }

  /** CBS_get_optional_asn1_bool. */
  function GetOptionalBool(s: seq<Byte>, tag: Byte, default: bool): Option<Read<bool>> {
    var e := GetOptional(s, tag);
    if e.None? then None
    else if e.value.value.None? then Some(Read(default, e.value.rest))
    else
      var b := GetAsn1(e.value.value.value, BOOLEAN);
      if b.None? || b.value.rest != [] || |b.value.value| != 1 then None
      else if b.value.value[0] == 0 then Some(Read(false, e.value.rest))
      else if b.value.value[0] == 0xFF then Some(Read(true, e.value.rest))
      else None
  }

  // ------------------------------------------------------------------ round trips

  lemma LengthRoundTrip(n: nat, rest: seq<Byte>)
    requires n < LENGTH_LIMIT
    ensures GetLength(Length(n) + rest) == Some(Read(n, rest))
  {
    var s := Length(n) + rest;
    if n > 0x7F {
      var k := |Length(n)| - 1;
      assert s[1..1 + k] == Length(n)[1..] && s[1 + k..] == rest;
      BigEndianOfLength(n);
    } else {
      assert s[1..] == rest;
    }
  }

  lemma BigEndianOfLength(n: nat)
    requires 0x7F < n < LENGTH_LIMIT
    ensures BigEndian(Length(n)[1..]) == n
  {
    var d := Length(n)[1..];
    if n <= 0xFF {
      assert d == [n];
    } else if n <= 0xFFFF {
      assert d[..1] == [n / 0x100];
    } else if n <= 0xFF_FFFF {
      assert d[..2] == [n / 0x1_0000, n / 0x100 % 0x100] && d[..2][..1] == [n / 0x1_0000];
      assert n / 0x100 / 0x100 == n / 0x1_0000;
      assert BigEndian([n / 0x1_0000]) == n / 0x1_0000;
      assert BigEndian(d[..2]) == n / 0x100;
    } else {
      assert n / 0x100 / 0x100 == n / 0x1_0000 && n / 0x1_0000 / 0x100 == n / 0x100_0000;
      assert d[..3] == [n / 0x100_0000 % 0x100, n / 0x1_0000 % 0x100, n / 0x100 % 0x100];
      assert d[..3][..2] == [n / 0x100_0000 % 0x100, n / 0x1_0000 % 0x100];
      assert d[..3][..2][..1] == [n / 0x100_0000 % 0x100];
      assert BigEndian([n / 0x100_0000 % 0x100]) == n / 0x100_0000;
      assert BigEndian(d[..3][..2]) == n / 0x1_0000;
      assert BigEndian(d[..3]) == n / 0x100;
    }
  }

  lemma TlvRoundTrip(tag: Byte, body: seq<Byte>, rest: seq<Byte>)
    requires tag % 32 != 31 && |body| < LENGTH_LIMIT
    ensures GetAny(Tlv(tag, body) + rest) == Some(Read(Element(LowTag(tag), body), rest))
    ensures GetAsn1(Tlv(tag, body) + rest, tag) == Some(Read(body, rest))
  {
    hide GetLength, Length;
    var s := Tlv(tag, body) + rest;
    assert s[1..] == Length(|body|) + (body + rest);
    LengthRoundTrip(|body|, body + rest);
    assert (body + rest)[..|body|] == body && (body + rest)[|body|..] == rest;
  }

  lemma TlvAlone(tag: Byte, body: seq<Byte>)
    requires tag % 32 != 31 && |body| < LENGTH_LIMIT
    ensures GetAsn1(Tlv(tag, body), tag) == Some(Read(body, []))
  {
    TlvRoundTrip(tag, body, []);
    assert Tlv(tag, body) + [] == Tlv(tag, body);
  }

  lemma {:induction false} AccumulateAppend(b: seq<Byte>, x: Byte, acc: nat)
    ensures Accumulate(b + [x], acc) ==
      var r := Accumulate(b, acc);
      if r.None? || r.value / TWO_56 != 0 then None else Some(r.value * 256 + x)
    decreases |b|
  {
    if b == [] {
      assert (b + [x])[1..] == [];
    } else {
      assert (b + [x])[1..] == b[1..] + [x];
      if acc / TWO_56 == 0 { AccumulateAppend(b[1..], x, acc * 256 + b[0]); }
    }
  }

  lemma {:induction false} AccumulateDigits(v: nat)
    requires v < TWO_64
    ensures Accumulate(Digits(v), 0) == Some(v)
    ensures |Digits(v)| > 1 ==> Digits(v)[0] != 0
    decreases v
  {
    if v >= 256 {
      AccumulateDigits(v / 256);
      AccumulateAppend(Digits(v / 256), v % 256, 0);
      if |Digits(v / 256)| == 1 { assert Digits(v / 256) == [v / 256]; }
    } else {
      assert [v][1..] == [];
    }
  }

  lemma UintRoundTrip(v: nat, rest: seq<Byte>)
    requires v < TWO_64
    ensures GetUint(Uint(v) + rest) == Some(Read(v, rest)) && |Uint(v)| <= 16
  {
    hide Tlv, GetAsn1, Pow2;
    AccumulateDigits(v);
    Pow2Sixteen();
    Pow2Add(16, 16);
    Pow2Add(32, 32);
    DigitsLength(v, 8);
    assert ([0] + Digits(v))[1..] == Digits(v);
    TlvRoundTrip(INTEGER, UintBody(v), rest);
    ShortTlv(INTEGER, UintBody(v));
  }

  lemma Pow2Sixteen()
    ensures Pow2(8) == 256 && Pow2(16) == 0x1_0000
  {
    assert Pow2(8) == 256;
    hide Pow2;
    Pow2Add(8, 8);
  }

  lemma ShortTlv(tag: Byte, body: seq<Byte>)
    requires |body| <= 0x7F
    ensures |Tlv(tag, body)| == |body| + 2
  {
  }

  lemma {:induction false} DigitsLength(v: nat, n: nat)
    requires n >= 1 && v < Pow2(8 * n)
    ensures |Digits(v)| <= n
  {
    if v >= 256 {
      assert Pow2(8 * n) == 256 * Pow2(8 * (n - 1)) by { Pow2Add(8, 8 * (n - 1)); }
      DigitsLength(v / 256, n - 1);
    }
  }

  /** What follows an optional element begins with a larger tag. */
  predicate StartsAbove(s: seq<Byte>, tag: Byte) {
    s != [] ==> s[0] > tag
  }

  /** An optional element is found exactly if it was written, since what follows it has a
      larger tag; and what it begins has a tag larger than any smaller one. */
  lemma OptionalRoundTrip(tag: Byte, present: bool, body: seq<Byte>, rest: seq<Byte>, below: Byte)
    requires below < tag && tag % 32 != 31 && |body| < LENGTH_LIMIT && StartsAbove(rest, tag)
    ensures GetOptional(Optional(tag, present, body) + rest, tag) == Some(Read(if present then Some(body) else None, rest))
    ensures StartsAbove(Optional(tag, present, body) + rest, below)
  {
    hide GetAsn1, Tlv, Peek;
    PeekIsFirstByte(Optional(tag, present, body) + rest, tag);
    if present { TlvRoundTrip(tag, body, rest); } else { assert [] + rest == rest; }
  }

  lemma OptionalOctetsRoundTrip(tag: Byte, b: Option<seq<Byte>>, rest: seq<Byte>, below: Byte)
    requires below < tag && tag % 32 != 31 && StartsAbove(rest, tag)
    requires |OptOctets(tag, b) + rest| < LENGTH_LIMIT
    ensures GetOptionalOctets(OptOctets(tag, b) + rest, tag) == Some(Read(b, rest))
    ensures StartsAbove(OptOctets(tag, b) + rest, below)
  {
    hide GetAsn1, Tlv, GetOptional, StartsAbove;
    if b.Some? {
      TlvAlone(OCTET_STRING, b.value);
      OptionalRoundTrip(tag, true, Octets(b.value), rest, below);
    } else {
      OptionalRoundTrip(tag, false, [], rest, below);
    }
  }

  lemma OptionalUintRoundTrip(tag: Byte, v: nat, default: nat, rest: seq<Byte>, below: Byte)
    requires below < tag && tag % 32 != 31 && StartsAbove(rest, tag) && v < TWO_64
    ensures GetOptionalUint(OptUint(tag, v, default) + rest, tag, default) == Some(Read(v, rest))
    ensures StartsAbove(OptUint(tag, v, default) + rest, below)
  {
    hide GetAsn1, Tlv, GetOptional, GetUint, Uint, StartsAbove;
    UintRoundTrip(v, []);
    assert Uint(v) + [] == Uint(v);
    OptionalRoundTrip(tag, v != default, Uint(v), rest, below);
  }

  lemma OptionalBoolRoundTrip(tag: Byte, v: bool, default: bool, rest: seq<Byte>, below: Byte)
    requires below < tag && tag % 32 != 31 && StartsAbove(rest, tag)
    ensures GetOptionalBool(OptBool(tag, v, default) + rest, tag, default) == Some(Read(v, rest))
    ensures StartsAbove(OptBool(tag, v, default) + rest, below)
  {
    hide GetAsn1, Tlv, GetOptional, StartsAbove;
    TlvAlone(BOOLEAN, [if v then 0xFF else 0]);
    ShortTlv(BOOLEAN, [if v then 0xFF else 0]);
    OptionalRoundTrip(tag, v != default, Bool(v), rest, below);
  }

  /** One DER element and nothing more. */
  predicate IsElement(s: seq<Byte>) {
    GetAny(s).Some? && GetAny(s).value.rest == []
  }

  /** Reading an element looks at no byte behind it. */
  lemma GetAnyIsLocal(c: seq<Byte>, rest: seq<Byte>)
    ensures IsElement(c) ==> GetAny(c + rest).Some? && GetAny(c + rest).value.rest == rest
    ensures GetAny(c + rest).Some? && GetAny(c + rest).value.rest == rest ==> IsElement(c)
  {
    hide GetLength, GetTag;
    GetTagIsLocal(c, rest);
    if GetTag(c).Some? {
      var s := GetTag(c).value.rest;
      GetLengthIsLocal(s, rest);
      ShrinksBy(s);
      ShrinksBy(s + rest);
      if GetLength(s).Some? {
        var n := GetLength(s).value;
        assert IsElement(c) <==> |n.rest| == n.value;
        if |n.rest| == n.value { assert (n.rest + rest)[n.value..] == rest; }
      }
    } else if GetTag(c + rest).Some? {
      ShrinksBy(GetTag(c + rest).value.rest);
    }
  }

  lemma GetTagIsLocal(c: seq<Byte>, rest: seq<Byte>)
    ensures GetTag(c).Some? ==> GetTag(c + rest) == Some(Read(GetTag(c).value.value, GetTag(c).value.rest + rest))
    ensures GetTag(c + rest).Some? && |GetTag(c + rest).value.rest| >= |rest| ==> GetTag(c).Some?
  {
    hide Base128;
    if c != [] {
      assert (c + rest)[1..] == c[1..] + rest;
      Base128IsLocal(c[1..], rest, 0);
    }
  }

  lemma {:induction false} Base128IsLocal(c: seq<Byte>, rest: seq<Byte>, v: nat)
    ensures Base128(c, v).Some? ==> Base128(c + rest, v) == Some(Read(Base128(c, v).value.value, Base128(c, v).value.rest + rest))
    ensures Base128(c + rest, v).Some? && |Base128(c + rest, v).value.rest| >= |rest| ==> Base128(c, v).Some?
    decreases |c|
  {
    if c != [] {
      assert (c + rest)[1..] == c[1..] + rest;
      Base128IsLocal(c[1..], rest, v * 128 + c[0] % 128);
    }
  }

  /** What is left after an element is a suffix, and an element is not empty. */
  lemma GetAnySuffix(s: seq<Byte>)
    ensures GetAny(s).Some? ==> |GetAny(s).value.rest| < |s| && GetAny(s).value.rest == s[|s| - |GetAny(s).value.rest|..]
  {
    hide GetTag;
    GetTagSuffix(s);
    if GetAny(s).Some? {
      var t := GetTag(s).value.rest;
      var n := GetLength(t).value;
      assert n.rest == t[|t| - |n.rest|..];
    }
  }

  lemma GetTagSuffix(s: seq<Byte>)
    ensures GetTag(s).Some? ==> |GetTag(s).value.rest| < |s| && GetTag(s).value.rest == s[|s| - |GetTag(s).value.rest|..]
  {
    hide Base128;
    if s != [] { Base128Suffix(s[1..], 0); }
  }

  lemma {:induction false} Base128Suffix(s: seq<Byte>, v: nat)
    ensures Base128(s, v).Some? ==> Base128(s, v).value.rest == s[|s| - |Base128(s, v).value.rest|..]
    decreases |s|
  {
    if s != [] { Base128Suffix(s[1..], v * 128 + s[0] % 128); }
  }

  lemma GetLengthIsLocal(s: seq<Byte>, rest: seq<Byte>)
    ensures GetLength(s).Some? ==> GetLength(s + rest) == Some(Read(GetLength(s).value.value, GetLength(s).value.rest + rest))
    ensures GetLength(s + rest).Some? && |GetLength(s + rest).value.rest| >= |rest| ==> GetLength(s).Some?
  {
    if s != [] {
      if s[0] < 128 {
        assert (s + rest)[1..] == s[1..] + rest;
      } else {
        var k := s[0] - 128;
        if |s| > k {
          assert (s + rest)[1..1 + k] == s[1..1 + k] && (s + rest)[1 + k..] == s[1 + k..] + rest;
        }
      }
    }
  }

  lemma {:induction false} BigEndianBound(s: seq<Byte>)
    ensures BigEndian(s) < Pow2(8 * |s|)
  {
    if s != [] {
      BigEndianBound(s[..|s| - 1]);
      assert Pow2(8 * |s|) == 256 * Pow2(8 * (|s| - 1)) by { Pow2Add(8, 8 * (|s| - 1)); }
    }
  }

  /** What is read as a number fits 64 bits. */
  lemma {:induction false} AccumulateFits(b: seq<Byte>, acc: nat)
    requires acc < TWO_64
    ensures Accumulate(b, acc).Some? ==> Accumulate(b, acc).value < TWO_64
    decreases |b|
  {
    if b != [] && acc / TWO_56 == 0 { AccumulateFits(b[1..], acc * 256 + b[0]); }
  }

  lemma GetUintFits(s: seq<Byte>)
    ensures GetUint(s).Some? ==> GetUint(s).value.value < TWO_64
  {
    hide GetAsn1;
    var e := GetAsn1(s, INTEGER);
    if e.Some? { AccumulateFits(e.value.value, 0); }
  }
}
