/**
  How a server gets the premaster secret out of an RSA block (do_read_client_key_exchange
  of handshake_server.cc): branch-free loops over the block, proved against the parser that
  section 7.2.2 of RFC 3447 describes and the rule of section 7.4.7.1 of RFC 5246.
 */
module Pkcs1 {
  import opened Bits
  import opened Options
  import opened ConstantTime

  const PREMASTER_LENGTH := 48   // SSL_MAX_MASTER_KEY_LENGTH
  const OVERHEAD := 11           // the least padding
  const WIDTH := 64              // of crypto_word_t

  // ------------------------------------------------------------------ the standard

  /** The first index from k on that holds zero, or the length if none does. */
  function FirstZero(block: seq<Byte>, k: nat): (r: nat)
    requires k <= |block|
    ensures k <= r <= |block| && (r < |block| ==> block[r] == 0)
    ensures forall i :: k <= i < r ==> block[i] != 0
    decreases |block| - k
  {
    if k == |block| || block[k] == 0 then k else FirstZero(block, k + 1)
  }

  /** RFC 3447: 00 || 02 || PS || 00 || M, with at least eight bytes PS, none of them zero. */
  function Unpad(block: seq<Byte>): Option<seq<Byte>> {
    if |block| < OVERHEAD || block[0] != 0 || block[1] != 2 then None
    else
      var zero := FirstZero(block, 2);
      if zero == |block| || zero < 10 then None else Some(block[zero + 1..])
  }

  /** RFC 5246: a message that is no premaster of this version counts as none. */
  function Premaster(block: seq<Byte>, version: nat): Option<seq<Byte>> {
    var m := Unpad(block);
    if m.Some? && |m.value| == PREMASTER_LENGTH && m.value[0] == version / 256 % 256 && m.value[1] == version % 256
    then m else None
  }

  // ------------------------------------------------------------------ the code

  /** The tests of the code, all at fixed offsets. */
  predicate WellFormed(block: seq<Byte>, version: nat)
    requires |block| >= OVERHEAD + PREMASTER_LENGTH
  {
    var padding := |block| - PREMASTER_LENGTH;
    block[0] == 0 && block[1] == 2 && (forall i :: 2 <= i < padding - 1 ==> block[i] != 0) && block[padding - 1] == 0 &&
    block[padding] == version / 256 % 256 && block[padding + 1] == version % 256
  }

  /** They accept exactly the blocks that the standard does, with the same premaster. */
  lemma WellFormedIff(block: seq<Byte>, version: nat)
    requires |block| >= OVERHEAD + PREMASTER_LENGTH
    ensures WellFormed(block, version) <==> Premaster(block, version).Some?
    ensures WellFormed(block, version) ==> Premaster(block, version) == Some(block[|block| - PREMASTER_LENGTH..])
  {
    var padding := |block| - PREMASTER_LENGTH;
    var zero := FirstZero(block, 2);
    if WellFormed(block, version) { assert zero == padding - 1; }
  }

  /** The branch-free selection. Too short a block is an error that anyone may see; otherwise the
      random premaster is kept unless the block holds one. */
  method SelectPremaster(block: array<Byte>, premaster: array<Byte>, version: nat) returns (ok: bool)
    requires premaster.Length == PREMASTER_LENGTH && version < 0x1_0000 && block != premaster
    modifies premaster
    ensures ok <==> block.Length >= OVERHEAD + PREMASTER_LENGTH
    ensures premaster[..] ==
      if ok && Premaster(block[..], version).Some? then Premaster(block[..], version).value else old(premaster[..])
  {
    hide Select8, IsZero8, EqInt8, And, Mask8, Premaster;
    if block.Length < OVERHEAD + premaster.Length { return false; }
    var padding := block.Length - premaster.Length;
    var good := CheckBlock(block, padding, version);
    ghost var chosen := WellFormed(block[..], version);
    ghost var random := premaster[..];
    var i := 0;
    while i < premaster.Length
      modifies premaster
      invariant 0 <= i <= premaster.Length
      invariant forall k :: 0 <= k < i ==> premaster[k] == if chosen then block[padding + k] else random[k]
      invariant forall k :: i <= k < premaster.Length ==> premaster[k] == random[k]
    {
      Select8Chooses(WIDTH, chosen, block[padding + i], premaster[i]);
      premaster[i] := Select8(WIDTH, good, block[padding + i], premaster[i]);
      i := i + 1;
    }
    WellFormedIff(block[..], version);
    assert premaster[..] == if chosen then block[..][padding..] else random;
    return true;
  }

  /** The mask that says whether the block is well formed, without a branch on a byte of it. */
  method CheckBlock(block: array<Byte>, padding: nat, version: nat) returns (good: Byte)
    requires block.Length >= OVERHEAD + PREMASTER_LENGTH && padding == block.Length - PREMASTER_LENGTH && version < 0x1_0000
    ensures good == Mask8(WellFormed(block[..], version))
  {
    hide IsZero8, Eq8, EqInt8, And, Mask8, Word;
    BytesAreWords(WIDTH);
    good := MaskedAnd(EqInt8(WIDTH, block[0], 0), EqInt8(WIDTH, block[1], 2));
    EqInt8IsEqual(WIDTH, block[0], 0);
    EqInt8IsEqual(WIDTH, block[1], 2);
    MaskAnd(block[0] == 0, block[1] == 2);
    ghost var sofar := block[0] == 0 && block[1] == 2;
    var i := 2;
    while i < padding - 1
      invariant 2 <= i <= padding - 1
      invariant good == Mask8(sofar)
      invariant sofar <==> block[0] == 0 && block[1] == 2 && forall k :: 2 <= k < i ==> block[k] != 0
    {
      IsZero8IsZero(WIDTH, block[i]);
      MaskNot(block[i] == 0);
      MaskAnd(sofar, block[i] != 0);
      good := MaskedAnd(good, 0xFF - IsZero8(WIDTH, block[i]));
      sofar := sofar && block[i] != 0;
      i := i + 1;
    }
    IsZero8IsZero(WIDTH, block[padding - 1]);
    MaskAnd(sofar, block[padding - 1] == 0);
    good := MaskedAnd(good, IsZero8(WIDTH, block[padding - 1]));
    sofar := sofar && block[padding - 1] == 0;
    Eq8IsEqual(WIDTH, block[padding], version / 256 % 256);
    MaskAnd(sofar, block[padding] == version / 256 % 256);
    good := MaskedAnd(good, Eq8(WIDTH, block[padding], version / 256 % 256));
    sofar := sofar && block[padding] == version / 256 % 256;
    Eq8IsEqual(WIDTH, block[padding + 1], version % 256);
    MaskAnd(sofar, block[padding + 1] == version % 256);
    good := MaskedAnd(good, Eq8(WIDTH, block[padding + 1], version % 256));
  }

  /** The bitwise and of two bytes. */
  function MaskedAnd(a: Byte, b: Byte): Byte {
    AndBound(a, b);
    And(a, b)
  }
}
