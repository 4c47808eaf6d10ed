/**
 * The SIM files the subscriber reads at card insertion: the fixed file
 * table, and for each file the length check and the byte-to-value mapping
 * its decoder performs, together with the LOCI, LOCIGPRS and Kc images the
 * write-back functions build.  A decoder is given the payload of the
 * card's answer followed by the bytes that happen to follow it in the
 * message buffer (Backed); its length argument is the payload length
 * truncated to eight bits.
 */
module SimFiles {
  import opened ByteOrder
  import opened GsmCodec
  import Bcd
  import PlmnLists

  // errno values, as returned negated
  const EBUSY := 16
  const EINVAL := 22
  const ENOTSUP := 95

  datatype Result<T> = Ok(value: T) | Err(rc: int)

  /** Location update state; U0 is the zeroed value before anything is read. */
  datatype UState = U0Null | U1Updated | U2NotUpdated | U3RoamingNa

  /** GPRS update state; Gu0Null is the zeroed value. */
  datatype GuState = Gu0Null | Gu1Updated | Gu2NotUpdated | Gu3RoamingNa

  /** SIM job types. */
  datatype JobKind = ReadBinary | ReadRecord | UpdateBinary | RunGsmAlgo
    | Pin1Disable | Pin1Enable | Pin1Change | Pin1Unblock | Pin1Unlock

  /** Which decoder handles a file (the func pointer of the table). */
  datatype Decoder = IccidFile | ImsiFile | LociFile | LocigprsFile | KcFile | PlmnselFile
    | HpplmnFile | SpnFile | AccFile | FplmnFile | MsisdnFile | SmspFile

  /** struct subscr_sim_file; path lists the directory ids before the terminating 0. */
  datatype FileEntry = FileEntry(mandatory: bool, path: seq<bv16>, file: bv16, job: Option<JobKind>, decoder: Option<Decoder>)

  const DfGsm: bv16 := 0x7f20
  const DfTelecom: bv16 := 0x7f10

  /** subscr_sim_files[]: four mandatory files, eight optional ones, then the terminator. */
  const FileTable: seq<FileEntry> := [
    FileEntry(true,  [],          0x2fe2, Some(ReadBinary), Some(IccidFile)),
    FileEntry(true,  [DfGsm],     0x6f07, Some(ReadBinary), Some(ImsiFile)),
    FileEntry(true,  [DfGsm],     0x6f7e, Some(ReadBinary), Some(LociFile)),
    FileEntry(true,  [DfGsm],     0x6f53, Some(ReadBinary), Some(LocigprsFile)),
    FileEntry(false, [DfGsm],     0x6f20, Some(ReadBinary), Some(KcFile)),
    FileEntry(false, [DfGsm],     0x6f30, Some(ReadBinary), Some(PlmnselFile)),
    FileEntry(false, [DfGsm],     0x6f31, Some(ReadBinary), Some(HpplmnFile)),
    FileEntry(false, [DfGsm],     0x6f46, Some(ReadBinary), Some(SpnFile)),
    FileEntry(false, [DfGsm],     0x6f78, Some(ReadBinary), Some(AccFile)),
    FileEntry(false, [DfGsm],     0x6f7b, Some(ReadBinary), Some(FplmnFile)),
    FileEntry(false, [DfTelecom], 0x6f40, Some(ReadRecord), Some(MsisdnFile)),
    FileEntry(false, [DfTelecom], 0x6f42, Some(ReadRecord), Some(SmspFile)),
    FileEntry(false, [],          0,      None,             None)
  ]

  /** Index of the terminating entry. */
  const LastFileIndex := 12

  /** The table: 13 entries, only the last without a decoder, exactly the first four mandatory, no 0 inside a path. */
  lemma FileTableShape()
    ensures |FileTable| == LastFileIndex + 1
    ensures forall i :: 0 <= i < |FileTable| ==> (FileTable[i].decoder.None? <==> i == LastFileIndex)
    ensures forall i :: 0 <= i < |FileTable| ==> (FileTable[i].mandatory <==> i < 4)
    ensures forall i :: 0 <= i < |FileTable| ==> (FileTable[i].job.None? <==> i == LastFileIndex)
    ensures forall i, k :: 0 <= i < |FileTable| && 0 <= k < |FileTable[i].path| ==> FileTable[i].path[k] != 0
  {
  }

  /** Entry i of the table: only the terminator lacks a decoder and a job, only the first four are mandatory. */
  lemma FileEntryAt(i: nat)
    requires i <= LastFileIndex
    ensures FileTable[i].decoder.None? <==> i == LastFileIndex
    ensures FileTable[i].job.None? <==> i == LastFileIndex
    ensures FileTable[i].mandatory <==> i < 4
  {
    FileTableShape();
  }

  /** The decoder of each table entry reads the file the entry names. */
  lemma FileTableFiles()
    ensures FileTable[1].file == 0x6f07 && FileTable[1].decoder == Some(ImsiFile)
    ensures FileTable[9].file == 0x6f7b && FileTable[9].decoder == Some(FplmnFile)
    ensures forall i :: 4 <= i < 12 ==> !FileTable[i].mandatory && FileTable[i].decoder.Some?
  {
  }

  /** The payload is followed by at least 16 more bytes of buffer, which covers every over-read of the decoders. */
  predicate Backed(data: seq<bv8>, length: nat)
  {
    length + 16 <= |data|
  }

  // ---------------------------------------------------------------
  // EF IMSI (6F07)
  // ---------------------------------------------------------------

  /** The size of the IMSI buffer, OSMO_IMSI_BUF_SIZE: 15 digits, a spare, a NUL. */
  const ImsiBufSize := 17

  /** SIZE_MAX of a 64-bit host. */
  const SizeMax: nat := 0xffff_ffff_ffff_ffff

  /** strlen(imsi) - 1 computed on size_t: 0 wraps to SIZE_MAX. */
  function SizeMinusOne(n: nat): (r: nat)
    requires n <= SizeMax
    ensures n > 0 ==> r == n - 1
    ensures n == 0 ==> r == SizeMax
  {
    (n + SizeMax) % (SizeMax + 1)
  }

  /** The IMSI length check of subscr_sim_imsi: strlen >= 17, or strlen - 1 < 6 on size_t, is rejected. */
  predicate ImsiLengthRejected(n: nat)
    requires n <= Bcd.MaxDigits
  {
    n >= ImsiBufSize || SizeMinusOne(n) < 6
  }

  lemma ImsiLengthRejectedSpec(n: nat)
    requires n <= Bcd.MaxDigits
    ensures ImsiLengthRejected(n) <==> (1 <= n <= 6 || n >= 17)
  {
  }

  datatype ImsiOutcome = ImsiOutcome(buf: seq<char>, imsi: Result<string>)

  /**
   * subscr_sim_imsi: the first byte is the length of the rest, which is
   * BCD decoded into the static buffer; the first digit (the parity digit)
   * is skipped and the IMSI is the string that starts at result + 1.
   */
  function DecodeImsi(buf: seq<char>, data: seq<bv8>, length: nat): (o: ImsiOutcome)
    requires Bcd.WellFormedBuffer(buf) && Backed(data, length) && length < 256
    ensures Bcd.WellFormedBuffer(o.buf)
  {
    if length < 1 then ImsiOutcome(buf, Err(-EINVAL))
    else if data[0] as int + 1 < length then ImsiOutcome(buf, Err(-EINVAL))
    else
      Bcd.DecodeBcdShape(data[1..], data[0] as nat);
      ImsiOf(buf, Bcd.DecodeBcd(data[1..], data[0] as nat))
  }

  /** The IMSI check and copy of subscr_sim_imsi once the decode has left the digits s in the static buffer. */
  function ImsiOf(buf: seq<char>, s: string): (o: ImsiOutcome)
    requires Bcd.WellFormedBuffer(buf) && |s| <= Bcd.MaxDigits
    ensures Bcd.WellFormedBuffer(o.buf) && o.buf == Bcd.BcdWrite(buf, s)
  {
    var buf' := Bcd.BcdWrite(buf, s);
    if ImsiLengthRejected(|s|) then ImsiOutcome(buf', Err(-EINVAL))
    else ImsiOutcome(buf', Ok(Bcd.Strlcpy(Bcd.CString(buf', 1), ImsiBufSize)))
  }

  /** For a digit string without NUL, the IMSI is accepted exactly for 0 or 7 to 16 digits, and is then the digits after the first. */
  lemma {:induction false} ImsiOfDigits(buf: seq<char>, s: string)
    requires Bcd.WellFormedBuffer(buf) && |s| <= Bcd.MaxDigits && Bcd.Nul !in s
    ensures ImsiOf(buf, s).imsi.Ok? <==> (|s| == 0 || 7 <= |s| <= 16)
    ensures 7 <= |s| <= 16 ==> ImsiOf(buf, s).imsi == Ok(s[1..])
  {
    ImsiLengthRejectedSpec(|s|);
    if 7 <= |s| <= 16 {
      Bcd.CStringAfterDecode(buf, s);
    }
  }

  /**
   * When the card's IMSI has 7 to 16 digits (parity digit included), the
   * IMSI is the digits after the first one, and nothing else is checked.
   */
  lemma DecodeImsiDigits(buf: seq<char>, data: seq<bv8>, length: nat)
    requires Bcd.WellFormedBuffer(buf) && Backed(data, length) && length < 256
    requires 1 <= length <= data[0] as int + 1
    ensures var s := Bcd.DecodeBcd(data[1..], data[0] as nat);
      && (DecodeImsi(buf, data, length).imsi.Ok? <==> (|s| == 0 || 7 <= |s| <= 16))
      && (7 <= |s| <= 16 ==> DecodeImsi(buf, data, length).imsi == Ok(s[1..]))
  {
    var s := Bcd.DecodeBcd(data[1..], data[0] as nat);
    Bcd.DecodeBcdShape(data[1..], data[0] as nat);
    Bcd.DecodeBcdHasNoNul(data[1..], data[0] as nat);
    assert Bcd.Nul !in s by {
      forall k | 0 <= k < |s| ensures s[k] != Bcd.Nul { assert '0' <= s[k]; }
    }
    ImsiOfDigits(buf, s);
  }

  /**
   * The size_t wrap: an empty digit string passes the length check, and the
   * IMSI is then whatever an earlier decode left in the static buffer.
   */
  lemma DecodeImsiEmptyKeepsStaleBuffer(buf: seq<char>, data: seq<bv8>)
    requires Bcd.WellFormedBuffer(buf) && Backed(data, 1)
    requires data[0] == 0
    ensures DecodeImsi(buf, data, 1).imsi == Ok(Bcd.Strlcpy(Bcd.CString(buf, 1), ImsiBufSize))
  {
    assert Bcd.DecodeBcd(data[1..], 0) == [];
    Bcd.CStringAfterEmptyDecode(buf);
  }

  /** A length byte below the payload length minus one is refused (the guard of subscr_sim_imsi). */
  lemma DecodeImsiRejectsLengthByte(buf: seq<char>, data: seq<bv8>, length: nat)
    requires Bcd.WellFormedBuffer(buf) && Backed(data, length) && length < 256
    ensures length < 1 || data[0] as int + 1 < length ==> DecodeImsi(buf, data, length) == ImsiOutcome(buf, Err(-EINVAL))
  {
  }

  // ---------------------------------------------------------------
  // EF LOCI (6F7E)
  // ---------------------------------------------------------------

  /** Size of struct gsm1111_ef_loci: TMSI 4, LAI 5, TMSI time 1, update status 1. */
  const LociSize := 11

  // Location update status values of EF LOCI
  const LupdUpdated: bv8 := 0
  const LupdNotUpdated: bv8 := 1
  const LupdPlmnNotAllowed: bv8 := 2
  const LupdLaNotAllowed: bv8 := 3

  datatype LociContent = LociContent(tmsi: bv32, lai: Lai, ustate: UState)

  /** The U state for a status byte: only its low three bits count. */
  function UStateOfStatus(status: bv8): (u: UState)
    ensures u != U0Null
    ensures u == U1Updated <==> status & 7 == LupdUpdated
    ensures u == U3RoamingNa <==> (status & 7 == LupdPlmnNotAllowed || status & 7 == LupdLaNotAllowed)
  {
    var st := status & 7;
    if st == LupdUpdated then U1Updated
    else if st == LupdPlmnNotAllowed || st == LupdLaNotAllowed then U3RoamingNa
    else U2NotUpdated
  }

  /** The status byte written back for a U state. */
  function StatusOfUState(u: UState): (status: bv8)
    ensures status <= 3
  {
    match u
    case U1Updated => LupdUpdated
    case U3RoamingNa => LupdLaNotAllowed
    case _ => LupdNotUpdated
  }

  /** Writing then reading the status keeps U1, U2 and U3; U0 reads back as U2. */
  lemma UStateStatusRoundTrip(u: UState)
    ensures UStateOfStatus(StatusOfUState(u)) == if u == U0Null then U2NotUpdated else u
  {
  }

  /** subscr_sim_loci */
  function DecodeLoci(data: seq<bv8>, length: nat): (r: Result<LociContent>)
    requires Backed(data, length)
    ensures r.Err? <==> length < LociSize
    ensures r.Err? ==> r.rc == -EINVAL
    ensures r.Ok? ==> r.value.tmsi == BE32(data[..4]) && r.value.ustate == UStateOfStatus(data[10])
  {
    if length < LociSize then Err(-EINVAL)
    else
      NtohlOfLoadIsBE(data[..4]);
      Ok(LociContent(Ntohl(LoadLE32(data[..4])), DecodeLai(data[4..9]), UStateOfStatus(data[10])))
  }

  /** The 11 bytes gsm_subscr_write_loci_simcard sends: TMSI, LAI, TMSI time FF, status. */
  function LociImage(tmsi: bv32, lai: Lai, u: UState): (b: seq<bv8>)
    ensures |b| == LociSize
    ensures b[4..9] == GenerateLai(lai) && b[9] == 0xff && b[10] == StatusOfUState(u)
  {
    StoreLE32(Htonl(tmsi)) + GenerateLai(lai) + [0xff, StatusOfUState(u)]
  }

  /** The TMSI goes to the card most significant byte first. */
  lemma LociImageTmsiNetworkOrder(tmsi: bv32, lai: Lai, u: UState)
    ensures BE32(LociImage(tmsi, lai, u)[..4]) == tmsi
  {
    var b := LociImage(tmsi, lai, u);
    assert b[..4] == StoreLE32(Htonl(tmsi));
    StoreHtonlIsNetworkOrder(tmsi);
  }

  /** Reading back a written LOCI gives the TMSI, LAI and U state (U0 reads back as U2). */
  lemma LociRoundTrip(tmsi: bv32, lai: Lai, u: UState, slack: seq<bv8>)
    requires ValidPlmn(lai.plmn) && |slack| >= 16
    ensures DecodeLoci(LociImage(tmsi, lai, u) + slack, LociSize)
      == Ok(LociContent(tmsi, lai, if u == U0Null then U2NotUpdated else u))
  {
    var b := LociImage(tmsi, lai, u);
    var d := b + slack;
    assert d[..4] == b[..4] && d[4..9] == b[4..9] && d[10] == b[10];
    LociImageTmsiNetworkOrder(tmsi, lai, u);
    LaiRoundTrip(lai);
    UStateStatusRoundTrip(u);
  }

  // ---------------------------------------------------------------
  // EF LOCIGPRS (6F53)
  // ---------------------------------------------------------------

  /** Size of struct gsm1111_ef_locigprs: P-TMSI 4, signature 2 + 1, RAI 6, status 1. */
  const LocigprsSize := 14
  /** subscr_sim_locigprs only demands this many bytes. */
  const LocigprsMinLength := 11

  // Routing area update status values of EF LOCIGPRS
  const RauUpdated: bv8 := 0
  const RauNotUpdated: bv8 := 1
  const RauPlmnNotAllowed: bv8 := 2
  const RauRaNotAllowed: bv8 := 3

  datatype LocigprsContent = LocigprsContent(ptmsi: bv32, ptmsiSig: bv32, rai: Rai, guState: GuState)

  function GuStateOfStatus(status: bv8): (g: GuState)
    ensures g != Gu0Null
    ensures g == Gu1Updated <==> status & 7 == RauUpdated
    ensures g == Gu3RoamingNa <==> (status & 7 == RauPlmnNotAllowed || status & 7 == RauRaNotAllowed)
  {
    var st := status & 7;
    if st == RauUpdated then Gu1Updated
    else if st == RauPlmnNotAllowed || st == RauRaNotAllowed then Gu3RoamingNa
    else Gu2NotUpdated
  }

  function StatusOfGuState(g: GuState): (status: bv8)
    ensures status <= 3
  {
    match g
    case Gu1Updated => RauUpdated
    case Gu3RoamingNa => RauRaNotAllowed
    case _ => RauNotUpdated
  }

  lemma GuStateStatusRoundTrip(g: GuState)
    ensures GuStateOfStatus(StatusOfGuState(g)) == if g == Gu0Null then Gu2NotUpdated else g
  {
  }

  /** The signature as read: the 16-bit host-order high part shifted up by 8, or-ed with the low byte. */
  function SignatureOf(hi0: bv8, hi1: bv8, lo: bv8): (sig: bv32)
    ensures sig >> 24 == 0
  {
    ((LoadLE16(hi0, hi1) as bv32) << 8) | (lo as bv32)
  }

  /** subscr_sim_locigprs: like LOCI, but only 11 bytes are demanded of a 14-byte record. */
  function DecodeLocigprs(data: seq<bv8>, length: nat): (r: Result<LocigprsContent>)
    requires Backed(data, length)
    ensures r.Err? <==> length < LocigprsMinLength
    ensures r.Err? ==> r.rc == -EINVAL
    ensures r.Ok? ==>
      r.value.ptmsi == BE32(data[..4]) && r.value.rai == ParseRa(data[7..13]) && r.value.guState == GuStateOfStatus(data[13])
  {
    if length < LocigprsMinLength then Err(-EINVAL)
    else
      NtohlOfLoadIsBE(data[..4]);
      Ok(LocigprsContent(Ntohl(LoadLE32(data[..4])), SignatureOf(data[4], data[5], data[6]),
        ParseRa(data[7..13]), GuStateOfStatus(data[13])))
  }

  /**
   * The 14 bytes gsm_subscr_write_locigprs_simcard sends.  The signature
   * bytes are taken from htonl(ptmsi), not from the stored signature: the
   * 16-bit field gets (htonl(ptmsi) >> 8) truncated, the byte htonl(ptmsi) & 0xff.
   */
  function LocigprsImage(ptmsi: bv32, rai: Rai, g: GuState): (b: seq<bv8>)
    ensures |b| == LocigprsSize
    ensures b[7..13] == EncodeRa(rai) && b[13] == StatusOfGuState(g)
  {
    PtmsiFields(ptmsi) + EncodeRa(rai) + [StatusOfGuState(g)]
  }

  /** The first seven bytes of the written LOCIGPRS: P-TMSI, then the two signature fields. */
  function PtmsiFields(ptmsi: bv32): (b: seq<bv8>)
    ensures |b| == 7
  {
    FieldsOf(Htonl(ptmsi))
  }

  /** The seven bytes for n == htonl(ptmsi): n itself, (n >> 8) as a 16-bit field, n & 0xff. */
  function FieldsOf(n: bv32): (b: seq<bv8>)
    ensures |b| == 7
  {
    var tmsiField, sigHiField := StoreLE32(n), StoreLE16(((n >> 8) & 0xffff) as bv16);
    [tmsiField[0], tmsiField[1], tmsiField[2], tmsiField[3], sigHiField[0], sigHiField[1], (n & 0xff) as bv8]
  }

  /**
   * The signature a written LOCIGPRS reads back as.  Numbering the P-TMSI's
   * bytes from 0 (least significant) to 3, it is bytes 1, 2 and 3, with
   * byte 1 as its most significant byte: 0x11223344 reads back as 0x332211.
   */
  function WrittenSignature(ptmsi: bv32): bv32
  {
    (((ptmsi >> 8) & 0xff) << 16) | (((ptmsi >> 16) & 0xff) << 8) | ((ptmsi >> 24) & 0xff)
  }

  /**
   * Reading back a written LOCIGPRS gives the P-TMSI, the RAI and the GU
   * state, but a signature made of P-TMSI bytes, whatever the stored
   * signature was.
   */
  lemma LocigprsRoundTrip(ptmsi: bv32, rai: Rai, g: GuState, slack: seq<bv8>)
    requires ValidPlmn(rai.plmn) && |slack| >= 16
    ensures DecodeLocigprs(LocigprsImage(ptmsi, rai, g) + slack, LocigprsSize)
      == Ok(LocigprsContent(ptmsi, WrittenSignature(ptmsi), rai, if g == Gu0Null then Gu2NotUpdated else g))
  {
    var b := LocigprsImage(ptmsi, rai, g);
    var d := b + slack;
    assert d[..4] == b[..4] && d[4] == b[4] && d[5] == b[5] && d[6] == b[6];
    assert d[7..13] == b[7..13] && d[13] == b[13];
    LocigprsImageFields(ptmsi, rai, g);
    RaRoundTrip(rai);
    GuStateStatusRoundTrip(g);
  }

  /** The P-TMSI and signature fields of a written LOCIGPRS, as the decoder reads them. */
  lemma LocigprsImageFields(ptmsi: bv32, rai: Rai, g: GuState)
    ensures var b := LocigprsImage(ptmsi, rai, g);
      Ntohl(LoadLE32(b[..4])) == ptmsi && SignatureOf(b[4], b[5], b[6]) == WrittenSignature(ptmsi)
  {
    var b := LocigprsImage(ptmsi, rai, g);
    var f := PtmsiFields(ptmsi);
    assert b[..4] == f[..4] && b[4] == f[4] && b[5] == f[5] && b[6] == f[6];
    PtmsiFieldsRead(ptmsi);
  }

  lemma PtmsiFieldsRead(ptmsi: bv32)
    ensures var f := PtmsiFields(ptmsi);
      Ntohl(LoadLE32(f[..4])) == ptmsi && SignatureOf(f[4], f[5], f[6]) == WrittenSignature(ptmsi)
  {
    PtmsiFieldsPtmsi(ptmsi);
    PtmsiFieldsSignature(ptmsi);
  }

  lemma PtmsiFieldsPtmsi(ptmsi: bv32)
    ensures Ntohl(LoadLE32(PtmsiFields(ptmsi)[..4])) == ptmsi
  {
    assert PtmsiFields(ptmsi)[..4] == StoreLE32(Htonl(ptmsi));
    StoreLoadRoundTrip(ptmsi);
  }

  lemma PtmsiFieldsSignature(ptmsi: bv32)
    ensures var f := PtmsiFields(ptmsi);
      SignatureOf(f[4], f[5], f[6]) == WrittenSignature(ptmsi)
  {
    FieldsSignature(Htonl(ptmsi));
    HtonlLowBytes(ptmsi);
  }

  /** The signature fields of FieldsOf(n) read back as the low three bytes of n. */
  lemma FieldsSignature(n: bv32)
    ensures SignatureOf(FieldsOf(n)[4], FieldsOf(n)[5], FieldsOf(n)[6]) == n & 0x00ff_ffff
  {
    var x := ((n >> 8) & 0xffff) as bv16;
    assert FieldsOf(n)[4] == StoreLE16(x)[0] && FieldsOf(n)[5] == StoreLE16(x)[1];
    LoadStoreLE16(x);
    LowBytesOf(n);
  }

  lemma LoadStoreLE16(x: bv16)
    ensures LoadLE16(StoreLE16(x)[0], StoreLE16(x)[1]) == x
  {
  }

  lemma LowBytesOf(n: bv32)
    ensures (((((n >> 8) & 0xffff) as bv16) as bv32) << 8) | (((n & 0xff) as bv8) as bv32) == n & 0x00ff_ffff
  {
  }

  lemma HtonlLowBytes(p: bv32)
    ensures Htonl(p) & 0x00ff_ffff == WrittenSignature(p)
  {
  }

  /** An instance: P-TMSI 11223344 with signature ABCDEF is written so that it reads back with signature 332211. */
  lemma LocigprsSignatureExample(rai: Rai, g: GuState, slack: seq<bv8>)
    requires ValidPlmn(rai.plmn) && |slack| >= 16
    ensures DecodeLocigprs(LocigprsImage(0x1122_3344, rai, g) + slack, LocigprsSize).value.ptmsiSig == 0x33_2211
  {
    LocigprsRoundTrip(0x1122_3344, rai, g, slack);
  }

  // ---------------------------------------------------------------
  // EF Kc (6F20)
  // ---------------------------------------------------------------

  const KcSize := 9

  /** A cipher key Kc: always eight bytes (subscr->key[8]). */
  type Key = k: seq<bv8> | |k| == 8 witness [0, 0, 0, 0, 0, 0, 0, 0]

  datatype KcContent = KcContent(key: Key, keySeq: bv8)

  /** subscr_sim_kc: eight key bytes and the key sequence number in the low three bits of byte 8. */
  function DecodeKc(data: seq<bv8>, length: nat): (r: Result<KcContent>)
    requires Backed(data, length)
    ensures r.Err? <==> length < KcSize
    ensures r.Err? ==> r.rc == -EINVAL
    ensures r.Ok? ==> r.value.key == data[..8] && r.value.keySeq <= 7
  {
    if length < KcSize then Err(-EINVAL) else Ok(KcContent(data[..8], data[8] & 7))
  }

  /** The nine bytes subscr_sim_key_cb writes back: the key and the sequence number as stored. */
  function KcImage(key: Key, keySeq: bv8): (b: seq<bv8>)
    ensures |b| == KcSize && b[..8] == key && b[8] == keySeq
  {
    key + [keySeq]
  }

  lemma KcRoundTrip(key: Key, keySeq: bv8, slack: seq<bv8>)
    requires |slack| >= 16
    ensures DecodeKc(KcImage(key, keySeq) + slack, KcSize) == Ok(KcContent(key, keySeq & 7))
  {
    var d := KcImage(key, keySeq) + slack;
    assert d[..8] == key && d[8] == keySeq;
  }

  // ---------------------------------------------------------------
  // EF HPPLMN (6F31), EF SPN (6F46), EF ACC (6F78)
  // ---------------------------------------------------------------

  /** subscr_sim_hpplmn: the search interval in units of six minutes. */
  function DecodeHpplmn(data: seq<bv8>, length: nat): (r: Result<bv8>)
    requires Backed(data, length)
    ensures r.Err? <==> length < 1
    ensures r.Err? ==> r.rc == -EINVAL
    ensures r.Ok? ==> r.value == data[0]
  {
    if length < 1 then Err(-EINVAL) else Ok(data[0])
  }

  /** The service provider name field: 16 bytes after the display condition byte. */
  const SpnSize := 16

  /** The bytes up to the first FF, as characters. */
  function TakeUntilFf(b: seq<bv8>): (s: string)
    ensures |s| <= |b|
    ensures forall k :: 0 <= k < |s| ==> b[k] != 0xff && s[k] == b[k] as char
    ensures |s| < |b| ==> b[|s|] == 0xff
  {
    if b == [] || b[0] == 0xff then "" else [b[0] as char] + TakeUntilFf(b[1..])
  }

  /** A string that holds the bytes up to an FF (or all of them) is TakeUntilFf of them. */
  lemma {:induction false} TakeUntilFfUnique(b: seq<bv8>, s: string)
    requires |s| <= |b|
    requires forall k :: 0 <= k < |s| ==> b[k] != 0xff && s[k] == b[k] as char
    requires |s| < |b| ==> b[|s|] == 0xff
    ensures s == TakeUntilFf(b)
    decreases |b|
  {
    if s != [] {
      TakeUntilFfUnique(b[1..], s[1..]);
    }
  }

  /** subscr_sim_spn: UCS2 names (first name byte >= 0x80) and records shorter than 17 bytes are not supported. */
  function DecodeSpn(data: seq<bv8>, length: nat): (r: Result<string>)
    requires Backed(data, length)
    ensures r.Err? <==> (length < SpnSize + 1 || data[1] >= 0x80)
    ensures r.Err? ==> r.rc == -ENOTSUP
    ensures r.Ok? ==>
      |r.value| <= SpnSize && (forall k :: 0 <= k < |r.value| ==> data[k + 1] != 0xff && r.value[k] == data[k + 1] as char)
      && (|r.value| < SpnSize ==> data[|r.value| + 1] == 0xff)
  {
    if length < SpnSize + 1 || data[1] >= 0x80 then Err(-ENOTSUP)
    else Ok(TakeUntilFf(data[1..SpnSize + 1]))
  }

  /** subscr_sim_acc: the access class word. */
  function DecodeAcc(data: seq<bv8>, length: nat): (r: Result<bv16>)
    requires Backed(data, length)
    ensures r.Err? <==> length < 2
    ensures r.Err? ==> r.rc == -EINVAL
  {
    if length < 2 then Err(-EINVAL) else Ok(Ntohs(LoadLE16(data[0], data[1])))
  }

  /** The access class word is read big-endian: the first byte holds classes 15 to 8. */
  lemma DecodeAccBigEndian(data: seq<bv8>, length: nat)
    requires Backed(data, length) && length >= 2
    ensures DecodeAcc(data, length) == Ok(BE16(data[0], data[1]))
    ensures DecodeAcc(data, length).value >> 8 == data[0] as bv16
  {
    NtohsOfLoadIsBE(data[0], data[1]);
  }

  // ---------------------------------------------------------------
  // EF MSISDN (7F10/6F40) and EF SMSP (7F10/6F42)
  // ---------------------------------------------------------------

  /** The ADN trailer of a record: BCD length, TON/NPI, 10 number bytes, capability, extension. */
  const AdnSize := 14
  /** struct gsm1111_ef_smsp: indicators, TP-DA 12, TS-SCA 12, PID, DCS, VP. */
  const SmspSize := 28

  /** "+" for an international number, "0" for a national one, nothing otherwise. */
  function TonPrefix(tonNpi: bv8): (s: string)
    ensures |s| <= 1
    ensures (tonNpi & 0x70) >> 4 == 1 ==> s == "+"
    ensures (tonNpi & 0x70) >> 4 == 2 ==> s == "0"
    ensures (tonNpi & 0x70) >> 4 != 1 && (tonNpi & 0x70) >> 4 != 2 ==> s == ""
  {
    var ton := (tonNpi & 0x70) >> 4;
    if ton == 1 then "+" else if ton == 2 then "0" else ""
  }

  datatype MsisdnOutcome = MsisdnOutcome(buf: seq<char>, msisdn: Result<string>)

  /**
   * subscr_sim_msisdn: the ADN trailer is the last 14 bytes of the record;
   * a BCD length of 0 or 1 means no number; otherwise the number is the
   * type-of-number prefix followed by the BCD digits (decoded through the
   * static buffer).
   */
  function DecodeMsisdn(buf: seq<char>, data: seq<bv8>, length: nat): (o: MsisdnOutcome)
    requires Bcd.WellFormedBuffer(buf) && Backed(data, length)
    ensures Bcd.WellFormedBuffer(o.buf)
    ensures o.msisdn.Err? <==> length < AdnSize
    ensures o.msisdn.Err? ==> o.msisdn.rc == -EINVAL && o.buf == buf
  {
    if length < AdnSize then MsisdnOutcome(buf, Err(-EINVAL)) else MsisdnAt(buf, data, length - AdnSize)
  }

  /** The number in the ADN trailer starting at adn: empty for a length byte of 0 or 1, else TON prefix and digits. */
  function MsisdnAt(buf: seq<char>, data: seq<bv8>, adn: nat): (o: MsisdnOutcome)
    requires Bcd.WellFormedBuffer(buf) && adn + AdnSize + 16 <= |data|
    ensures Bcd.WellFormedBuffer(o.buf) && o.msisdn.Ok?
    ensures data[adn] <= 1 ==> o == MsisdnOutcome(buf, Ok(""))
    ensures data[adn] > 1 ==> var digits := Bcd.DecodeBcd(data[adn + 2..], (data[adn] - 1) as nat);
      o == MsisdnOutcome(Bcd.BcdWrite(buf, digits), Ok(TonPrefix(data[adn + 1]) + digits))
  {
    if data[adn] <= 1 then MsisdnOutcome(buf, Ok(""))
    else
      var number := data[adn + 2..];
      var s := Bcd.DecodeBcd(number, (data[adn] - 1) as nat);
      Bcd.DecodeBcdShape(number, (data[adn] - 1) as nat);
      MsisdnOutcome(Bcd.BcdWrite(buf, s), Ok(TonPrefix(data[adn + 1]) + s))
  }

  /** A number of n digits behind an international TON reads "+" and the digits. */
  lemma DecodeMsisdnInternational(buf: seq<char>, data: seq<bv8>, length: nat)
    requires Bcd.WellFormedBuffer(buf) && Backed(data, length) && length >= AdnSize
    requires data[length - AdnSize] >= 2 && (data[length - AdnSize + 1] & 0x70) >> 4 == 1
    ensures DecodeMsisdn(buf, data, length).msisdn
      == Ok("+" + Bcd.DecodeBcd(data[length - AdnSize + 2..], (data[length - AdnSize] - 1) as nat))
  {
  }

  /** The digit characters of gsm48_decode_bcd_number2: 0-9, then * # a b c. */
  function BcdNumberChar(n: bv8): (c: char)
    requires n < 15
  {
    if n < 10 then ('0' as int + n as int) as char
    else if n == 10 then '*' else if n == 11 then '#'
    else ('a' as int + (n - 12) as int) as char
  }

  /** The digits of BCD bytes, low nibble first, up to the first F nibble. */
  function BcdNumberDigits(b: seq<bv8>, i: nat): string
    decreases 2 * |b| - i
  {
    if i >= 2 * |b| then ""
    else
      var n := if i % 2 == 0 then b[i / 2] & 0xf else b[i / 2] >> 4;
      if n == 0xf then "" else [BcdNumberChar(n)] + BcdNumberDigits(b, i + 1)
  }

  /** gsm48_decode_bcd_number2 on a length-value field: the digits after the TON/NPI byte. */
  function BcdNumber(lv: seq<bv8>): (s: string)
    requires |lv| >= 2 && 1 + lv[0] as int <= |lv|
  {
    if lv[0] < 2 then "" else BcdNumberDigits(lv[2..1 + lv[0] as int], 0)
  }

  /**
   * subscr_sim_smsp: the SMSP structure is the last 28 bytes of the record;
   * the service centre address is taken only when its parameter is present
   * (indicator bit 1 clear) and its length is at most 11.
   */
  function DecodeSmsp(data: seq<bv8>, length: nat): (r: Result<string>)
    requires Backed(data, length)
    ensures r.Err? <==> length < SmspSize
    ensures r.Err? ==> r.rc == -EINVAL
    ensures r.Ok? && (data[length - SmspSize] & 0x02 != 0 || data[length - SmspSize + 13] > 11) ==> r.value == ""
    ensures r.Ok? && data[length - SmspSize] & 0x02 == 0 && data[length - SmspSize + 13] <= 11 ==>
      r.value == TonPrefix(data[length - SmspSize + 14]) + BcdNumber(data[length - SmspSize + 13..length - SmspSize + 25])
  {
    if length < SmspSize then Err(-EINVAL)
    else
      // par_ind is byte 0 of the SMSP structure, ts_sca bytes 13-24
      var parInd := data[length - SmspSize];
      var sca := data[length - SmspSize + 13..length - SmspSize + 25];
      if parInd & 0x02 == 0 && sca[0] <= 11 then Ok(TonPrefix(sca[1]) + BcdNumber(sca))
      else Ok("")
  }

  /**
   * A present service centre address of n >= 2 bytes behind an international
   * TON reads "+" and the digits of its n - 1 BCD bytes.
   */
  lemma DecodeSmspInternational(data: seq<bv8>, length: nat)
    requires Backed(data, length) && length >= SmspSize
    requires data[length - SmspSize] & 0x02 == 0
    requires 2 <= data[length - SmspSize + 13] as int <= 11 && (data[length - SmspSize + 14] & 0x70) >> 4 == 1
    ensures DecodeSmsp(data, length)
      == Ok("+" + BcdNumberDigits(data[length - SmspSize + 15..length - SmspSize + 14 + data[length - SmspSize + 13] as int], 0))
  {
    var b := length - SmspSize;
    var n := data[b + 13] as int;
    var sca := data[b + 13..b + 25];
    assert DecodeSmsp(data, length) == Ok(TonPrefix(data[b + 14]) + BcdNumber(sca));
    assert sca[0] as int == n;
    SliceOfSlice(data, b + 13, b + 25, 2, 1 + n);
  }

  /** A slice of a slice is a slice of the whole. */
  lemma SliceOfSlice(s: seq<bv8>, lo: nat, hi: nat, i: nat, j: nat)
    requires lo <= hi <= |s| && i <= j <= hi - lo
    ensures s[lo..hi][i..j] == s[lo + i..lo + j]
  {
    var inner, outer := s[lo..hi][i..j], s[lo + i..lo + j];
    forall k | 0 <= k < |inner|
      ensures inner[k] == outer[k]
    {
      assert inner[k] == s[lo..hi][i + k] == s[lo + i + k];
    }
  }

  // ---------------------------------------------------------------
  // Decoder results
  // ---------------------------------------------------------------

  /** The value subscr_sim_* returns for a file (0 on success). */
  function DecodeRc(d: Decoder, data: seq<bv8>, length: nat): (rc: int)
    requires Backed(data, length) && length < 256
    ensures rc <= 0
  {
    match d
    case IccidFile => 0
    case ImsiFile =>
      if length < 1 || data[0] as int + 1 < length then -EINVAL
      else
        Bcd.DecodeBcdShape(data[1..], data[0] as nat);
        if ImsiLengthRejected(|Bcd.DecodeBcd(data[1..], data[0] as nat)|) then -EINVAL else 0
    case LociFile => if DecodeLoci(data, length).Err? then -EINVAL else 0
    case LocigprsFile => if DecodeLocigprs(data, length).Err? then -EINVAL else 0
    case KcFile => if DecodeKc(data, length).Err? then -EINVAL else 0
    case PlmnselFile => 0
    case HpplmnFile => if DecodeHpplmn(data, length).Err? then -EINVAL else 0
    case SpnFile => if DecodeSpn(data, length).Err? then -ENOTSUP else 0
    case AccFile => if DecodeAcc(data, length).Err? then -EINVAL else 0
    case FplmnFile => 0
    case MsisdnFile => if length < AdnSize then -EINVAL else 0
    case SmspFile => if DecodeSmsp(data, length).Err? then -EINVAL else 0
  }

  /** The IMSI decoder's result agrees with DecodeImsi, whatever the buffer held. */
  lemma DecodeRcImsi(buf: seq<char>, data: seq<bv8>, length: nat)
    requires Bcd.WellFormedBuffer(buf) && Backed(data, length) && length < 256
    ensures DecodeRc(ImsiFile, data, length) == 0 <==> DecodeImsi(buf, data, length).imsi.Ok?
    ensures DecodeRc(ImsiFile, data, length) != 0 ==> DecodeRc(ImsiFile, data, length) == -EINVAL
  {
  }

  /** Which files can fail to decode: ICCID and the two PLMN lists never do. */
  lemma DecodeRcNeverFails(d: Decoder, data: seq<bv8>, length: nat)
    requires Backed(data, length) && length < 256
    requires d == IccidFile || d == PlmnselFile || d == FplmnFile
    ensures DecodeRc(d, data, length) == 0
  {
  }
}
