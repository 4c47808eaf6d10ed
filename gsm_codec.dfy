/**
 * Network identities and their on-card encodings, as the subscriber code uses
 * them from the GSM library: PLMN (MCC + MNC) as three BCD bytes
 * (osmo_plmn_to_bcd, osmo_plmn_from_bcd), the five-byte location area
 * identity (gsm48_decode_lai2, gsm48_generate_lai2), the six-byte routing
 * area identity (gsm48_parse_ra, gsm48_encode_ra), the IMSI syntax check
 * (osmo_imsi_str_valid) and the home-network test (gsm_match_mnc).
 * The layouts are those of section 10.5.1.3 of 3GPP TS 24.008.
 */
module GsmCodec {
  import opened ByteOrder

  /** A value that may be absent (a NULL pointer in the C code). */
  datatype Option<T> = None | Some(value: T)

  /** struct osmo_plmn_id; equality is osmo_plmn_cmp() == 0. */
  datatype Plmn = Plmn(mcc: nat, mnc: nat, mnc3: bool)

  /** struct osmo_location_area_id */
  datatype Lai = Lai(plmn: Plmn, lac: bv16)

  /** struct gprs_ra_id */
  datatype Rai = Rai(plmn: Plmn, lac: bv16, rac: bv8)

  /** What a zero-filled struct osmo_plmn_id holds: MCC 000, MNC 00. */
  const ZeroPlmn := Plmn(0, 0, false)

  /** The three bytes FF FF FF that mark an unused slot in a PLMN list file. */
  const FillerTriplet: seq<bv8> := [0xff, 0xff, 0xff]

  /** A PLMN whose digits fit the three-byte encoding. */
  predicate ValidPlmn(p: Plmn)
  {
    p.mcc <= 999 && p.mnc <= 999 && (!p.mnc3 ==> p.mnc <= 99)
  }

  function Lo(b: bv8): (r: nat)
    ensures r < 16
  {
    (b & 0xf) as nat
  }

  function Hi(b: bv8): (r: nat)
    ensures r < 16
  {
    (b >> 4) as nat
  }

  /** The byte with high nibble hi and low nibble lo. */
  function Pack(hi: nat, lo: nat): (r: bv8)
    requires hi < 16 && lo < 16
    ensures Hi(r) == hi && Lo(r) == lo
  {
    ((hi as bv8) << 4) | (lo as bv8)
  }

  /** osmo_plmn_to_bcd: MCC digits 2|1, then MNC3|MCC3 (F for a two-digit MNC), then the MNC. */
  function PlmnToBcd(p: Plmn): (r: seq<bv8>)
    ensures |r| == 3
    ensures r != FillerTriplet
  {
    var mcc0, mcc1, mcc2 := (p.mcc / 100) % 10, (p.mcc / 10) % 10, p.mcc % 10;
    var mnc0, mnc1, mnc2 := (p.mnc / 100) % 10, (p.mnc / 10) % 10, p.mnc % 10;
    if p.mnc > 99 || p.mnc3 then
      [Pack(mcc1, mcc0), Pack(mnc2, mcc2), Pack(mnc1, mnc0)]
    else
      [Pack(mcc1, mcc0), Pack(0xf, mcc2), Pack(mnc2, mnc1)]
  }

  /** osmo_plmn_from_bcd: an F in the high nibble of the second byte means a two-digit MNC. */
  function PlmnFromBcd(b: seq<bv8>): (p: Plmn)
    requires |b| == 3
    ensures p.mcc == Lo(b[0]) * 100 + Hi(b[0]) * 10 + Lo(b[1])
    ensures p.mnc3 <==> Hi(b[1]) != 0xf
  {
    var mcc := Lo(b[0]) * 100 + Hi(b[0]) * 10 + Lo(b[1]);
    if Hi(b[1]) == 0xf then Plmn(mcc, Lo(b[2]) * 10 + Hi(b[2]), false)
    else Plmn(mcc, Lo(b[2]) * 100 + Hi(b[2]) * 10 + Hi(b[1]), true)
  }

  lemma DecimalDigits(v: nat)
    requires v <= 999
    ensures v == ((v / 100) % 10) * 100 + ((v / 10) % 10) * 10 + v % 10
  {
  }

  /** Decoding an encoded PLMN gives it back. */
  lemma PlmnRoundTrip(p: Plmn)
    requires ValidPlmn(p)
    ensures PlmnFromBcd(PlmnToBcd(p)) == p
  {
    DecimalDigits(p.mcc);
    DecimalDigits(p.mnc);
  }

  /** gsm48_decode_lai2: PLMN digits, then the LAC in network order. */
  function DecodeLai(b: seq<bv8>): (l: Lai)
    requires |b| == 5
    ensures l.plmn == PlmnFromBcd(b[..3])
    ensures l.lac >> 8 == b[3] as bv16 && l.lac & 0xff == b[4] as bv16
  {
    Lai(PlmnFromBcd(b[..3]), BE16(b[3], b[4]))
  }

  /** gsm48_generate_lai2 */
  function GenerateLai(l: Lai): (r: seq<bv8>)
    ensures |r| == 5 && r[..3] == PlmnToBcd(l.plmn)
  {
    PlmnToBcd(l.plmn) + BytesBE16(l.lac)
  }

  lemma LaiRoundTrip(l: Lai)
    requires ValidPlmn(l.plmn)
    ensures DecodeLai(GenerateLai(l)) == l
  {
    PlmnRoundTrip(l.plmn);
    BE16Bytes(l.lac);
  }

  /** gsm48_parse_ra: PLMN digits, LAC in network order, RAC. */
  function ParseRa(b: seq<bv8>): (r: Rai)
    requires |b| == 6
    ensures r.plmn == PlmnFromBcd(b[..3]) && r.rac == b[5]
    ensures r.lac >> 8 == b[3] as bv16 && r.lac & 0xff == b[4] as bv16
  {
    Rai(PlmnFromBcd(b[..3]), BE16(b[3], b[4]), b[5])
  }

  /** gsm48_encode_ra */
  function EncodeRa(r: Rai): (b: seq<bv8>)
    ensures |b| == 6 && b[..3] == PlmnToBcd(r.plmn) && b[5] == r.rac
  {
    PlmnToBcd(r.plmn) + BytesBE16(r.lac) + [r.rac]
  }

  lemma RaRoundTrip(r: Rai)
    requires ValidPlmn(r.plmn)
    ensures ParseRa(EncodeRa(r)) == r
  {
    var b := EncodeRa(r);
    assert b[..3] == PlmnToBcd(r.plmn);
    PlmnRoundTrip(r.plmn);
    BE16Bytes(r.lac);
  }

  /** The decimal digit character of d. */
  function DigitChar(d: nat): (c: char)
    requires d < 10
    ensures '0' <= c <= '9'
  {
    ('0' as int + d) as char
  }

  predicate IsDigit(c: char)
  {
    '0' <= c <= '9'
  }

  /** osmo_imsi_str_valid: 6 to 15 decimal digits. */
  predicate ImsiStrValid(imsi: string)
  {
    6 <= |imsi| <= 15 && forall k :: 0 <= k < |imsi| ==> IsDigit(imsi[k])
  }

  /** The last n decimal digits of v, most significant first. */
  function DecimalString(v: nat, n: nat): (s: string)
    ensures |s| == n
    ensures forall k :: 0 <= k < n ==> IsDigit(s[k])
  {
    if n == 0 then "" else DecimalString(v / 10, n - 1) + [DigitChar(v % 10)]
  }

  /**
   * gsm_match_mnc: the IMSI starts with the network's MCC and MNC digits,
   * so the PLMN is the subscriber's home network.
   */
  predicate MatchesHome(p: Plmn, imsi: string)
  {
    var prefix := DecimalString(p.mcc, 3) + DecimalString(p.mnc, if p.mnc3 || p.mnc > 99 then 3 else 2);
    |prefix| <= |imsi| && imsi[..|prefix|] == prefix
  }
}
