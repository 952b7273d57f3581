/** Parameter sets of src/lms_params.c. The one-entry lookup caches there return what the tables return. */
module Params {
  import opened Words

  datatype HashAlg = Sha256 | Shake256 | Haraka

  datatype LmsParam = LmsParam(alg: HashAlg, height: nat)

  datatype OtsParam = OtsParam(alg: HashAlg, w: nat, p: nat, ls: nat)

  function HeightOf(k: nat): nat {
    5 * (k + 1)
  }

  /** lms_get_lms_param: 0x05..0x09 SHA-256, 0x15..0x19 SHAKE256, 0x25..0x29 Haraka, heights 5, 10, 15, 20, 25. */
  function LmsParamOf(lmsType: nat): (r: Option<LmsParam>)
    ensures r.Some? ==> r.value.height in {5, 10, 15, 20, 25}
  {
    if 0x05 <= lmsType <= 0x09 then Some(LmsParam(Sha256, HeightOf(lmsType - 0x05)))
    else if 0x15 <= lmsType <= 0x19 then Some(LmsParam(Shake256, HeightOf(lmsType - 0x15)))
    else if 0x25 <= lmsType <= 0x29 then Some(LmsParam(Haraka, HeightOf(lmsType - 0x25)))
    else None
  }

  predicate IsWidth(w: nat) {
    w in {1, 2, 4, 8}
  }

  /** Number of digits of a 32-byte hash. */
  function HashDigits(w: nat): nat {
    if w == 1 then 256 else if w == 2 then 128 else if w == 4 then 64 else 32
  }

  /** Number of digits, checksum included. */
  function DigitCount(w: nat): nat {
    if w == 1 then 265 else if w == 2 then 133 else if w == 4 then 67 else 34
  }

  /** Left shift that puts the checksum digits at the top of 16 bits. */
  function ChecksumShift(w: nat): nat {
    if w == 1 then 7 else if w == 2 then 6 else if w == 4 then 4 else 0
  }

  function OtsRow(alg: HashAlg, k: nat): (r: OtsParam)
    requires k < 4
  {
    var w := if k == 0 then 1 else if k == 1 then 2 else if k == 2 then 4 else 8;
    OtsParam(alg, w, DigitCount(w), ChecksumShift(w))
  }

  /** lms_get_lmots_param */
  function OtsParamOf(otsType: nat): (r: Option<OtsParam>)
    ensures r.Some? ==> IsWidth(r.value.w) && r.value.p == DigitCount(r.value.w) && r.value.ls == ChecksumShift(r.value.w)
  {
    if 0x01 <= otsType <= 0x04 then Some(OtsRow(Sha256, otsType - 0x01))
    else if 0x11 <= otsType <= 0x14 then Some(OtsRow(Shake256, otsType - 0x11))
    else if 0x21 <= otsType <= 0x24 then Some(OtsRow(Haraka, otsType - 0x21))
    else None
  }

  /** lms_get_private_hash_alg / lms_get_public_hash_alg: both types known and of the same hash. */
  predicate Compatible(lmsType: nat, otsType: nat) {
    && LmsParamOf(lmsType).Some? && OtsParamOf(otsType).Some?
    && LmsParamOf(lmsType).value.alg == OtsParamOf(otsType).value.alg
  }

  function OtsSignatureLen(otsType: nat): nat
    requires OtsParamOf(otsType).Some?
  {
    4 + 32 + OtsParamOf(otsType).value.p * 32
  }

  /** lms_signature_len: 0 for an unusable pair of types. */
  function SignatureLen(lmsType: nat, otsType: nat): nat {
    if Compatible(lmsType, otsType)
    then 4 + OtsSignatureLen(otsType) + 4 + LmsParamOf(lmsType).value.height * 32
    else 0
  }

  /** The tables of section 5.1 of RFC 8554 and their SHAKE256 and Haraka copies: which code has which row. */
  lemma HeightRows(lmsType: nat)
    ensures LmsParamOf(lmsType).Some? <==> 5 <= lmsType % 16 <= 9 && lmsType / 16 <= 2
    ensures LmsParamOf(lmsType).Some? ==>
              && LmsParamOf(lmsType).value.height == 5 * (lmsType % 16) - 20
              && LmsParamOf(lmsType).value.alg == [Sha256, Shake256, Haraka][lmsType / 16]
  {
  }

  /** The parameters of appendix B of RFC 8554: u digits of the hash, v of the checksum, v no larger than needed for
      the largest sum, and the shift that fills 16 bits. The code gives the width. */
  lemma OtsRows(otsType: nat)
    ensures OtsParamOf(otsType).Some? <==> 1 <= otsType % 16 <= 4 && otsType / 16 <= 2
    ensures OtsParamOf(otsType).Some? ==>
              var r := OtsParamOf(otsType).value;
              var u := HashDigits(r.w);
              var v := r.p - u;
              && r.alg == [Sha256, Shake256, Haraka][otsType / 16] && r.w == Pow2(otsType % 16 - 1)
              && u * r.w == 256 && v > 0 && Pow2((v - 1) * r.w) <= u * (Pow2(r.w) - 1) < Pow2(v * r.w)
              && r.ls == 16 - v * r.w
  {
    Powers();
    if OtsParamOf(otsType).Some? {
      var w := OtsParamOf(otsType).value.w;
      assert w == 1 ==> Pow2(8) <= 256 * (Pow2(1) - 1) < Pow2(9);
      assert w == 2 ==> Pow2(8) <= 128 * (Pow2(2) - 1) < Pow2(10);
      assert w == 4 ==> Pow2(8) <= 64 * (Pow2(4) - 1) < Pow2(12);
      assert w == 8 ==> Pow2(8) <= 32 * (Pow2(8) - 1) < Pow2(16);
    }
  }
}
