/**
 * The subscriber record and, as pure functions over it, the steps the
 * subscriber code takes: requesting the next SIM file, handling the card's
 * answer, inserting a card, the forbidden-PLMN list updates and the
 * write-backs they trigger.  The Subscriber class performs these steps in
 * place; the lemmas here state what the steps promise.
 */
module SubscriberSpec {
  import opened ByteOrder
  import opened GsmCodec
  import Bcd
  import opened PlmnLists
  import opened SimFiles

  newtype int8 = x: int | -128 <= x < 128

  /** enum gsm_sim_type */
  datatype SimType = SimNone | L1Phy | TestSim | SapSim

  /** GSM_SIM_IS_READER: a card behind a reader, local or over SAP. */
  predicate IsReader(t: SimType)
  {
    t == L1Phy || t == SapSim
  }

  /** GSM_RESERVED_TMSI: no TMSI allocated. */
  const ReservedTmsi: bv32 := 0xffff_ffff
  /** Key sequence number 7: no key. */
  const NoKeySeq: bv8 := 7
  /** The IMSI buffer size (OSMO_IMSI_BUF_SIZE). */
  const ImsiSize := 17

  /** The GPRS part of the record (subscr->gprs). */
  datatype Gprs = Gprs(ptmsi: bv32, ptmsiSig: bv32, rai: Rai, raiValid: bool, imsiAttached: bool, guState: GuState)

  /** The card fields: sim_valid, sim_type, sim_name, sim_file_index, sim_pin_required. */
  datatype SimState = SimState(valid: bool, simType: SimType, name: string, fileIndex: nat, pinRequired: bool)

  /** The strings read from the card: iccid, imsi, msisdn, sms_sca, sim_spn. */
  datatype Ids = Ids(iccid: string, imsi: string, msisdn: string, smsSca: string, spn: string)

  /** The circuit-switched location: tmsi, lai, ustate, imsi_attached, and the registered PLMN (plmn, plmn_valid). */
  datatype Location = Location(tmsi: bv32, lai: Lai, ustate: UState, imsiAttached: bool, plmn: Plmn, plmnValid: bool)

  /** The cipher key and its sequence number (key, key_seq). */
  datatype Cipher = Cipher(key: Key, keySeq: bv8)

  /** Access and network-selection settings: acc_class, acc_barr, t6m_hplmn, always_search_hplmn, any_timeout. */
  datatype Access = Access(accClass: bv16, accBarr: bool, t6mHplmn: bv8, alwaysSearchHplmn: bool, anyTimeout: int)

  /**
   * struct gsm_subscriber, without the SIM handles and the back pointer;
   * its fields are grouped as above, the two lists are plmn_list and plmn_na.
   */
  datatype Record = Record(sim: SimState, ids: Ids, loc: Location, cipher: Cipher, gprs: Gprs, access: Access,
    plmnList: seq<Plmn>, plmnNa: seq<PlmnNa>)

  /** The record after gsm_subscr_init: all zero, except the reserved TMSIs, key sequence 7 and the timer setting. */
  function InitialRecord(anyTimeout: int): (r: Record)
    ensures !r.sim.valid && r.sim.simType == SimNone && r.sim.fileIndex == 0
    ensures r.loc.tmsi == ReservedTmsi && r.gprs.ptmsi == ReservedTmsi && r.loc.lai.lac == 0
    ensures r.cipher.keySeq == NoKeySeq && r.plmnList == [] && r.plmnNa == [] && r.access.anyTimeout == anyTimeout
  {
    Record(SimState(false, SimNone, "", 0, false), Ids("", "", "", "", ""),
      Location(ReservedTmsi, Lai(ZeroPlmn, 0), U0Null, false, ZeroPlmn, false),
      Cipher([0, 0, 0, 0, 0, 0, 0, 0], NoKeySeq),
      Gprs(ReservedTmsi, 0, Rai(ZeroPlmn, 0, 0), false, false, Gu0Null),
      Access(0, false, 0, false, anyTimeout), [], [])
  }

  /** The three SIM handles opened at init: queries, updates, key generation. */
  datatype Handle = QueryHandle | UpdateHandle | KeyHandle

  /** A job handed to the SIM client (sim_job): its header fields and payload; header fields not set are 0. */
  datatype Job = Job(handle: Handle, kind: JobKind, path: seq<bv16>, file: bv16, recNo: bv8, recMode: bv8, data: seq<bv8>)

  /** Signals dispatched to the rest of the stack. */
  datatype Event = Attached | Detached | AuthResp(sres: seq<bv8>)

  /** Messages to the user (l23_vty_ms_notify); Clear is the call with NULL. */
  datatype Notice = Clear | PinPrompt(iccid: string, tries: bv8) | PinIsBlocked | PucPrompt(iccid: string, tries: bv8)
    | PucIsBlocked | SimFailed | DataInvalid | SapConnecting | SapConnectionError

  /** Calls into the SAP client. */
  datatype SapCall = SapOpen | SapClose | ApduResp(apdu: seq<bv8>)

  /** The cause byte of a SIM_JOB_ERROR answer. */
  datatype SimCause = Pin1Required | Pin1Blocked | PucBlocked | OtherCause(code: bv8)

  /** An answer on the query handle: an error with its cause and tries-left byte, or data. */
  datatype QueryResponse = ErrorResponse(cause: SimCause, tries: bv8) | DataResponse(payload: seq<bv8>)

  /** The test SIM settings (set->test_sim). */
  datatype TestCard = TestCard(imsi: string, imsiAttached: bool, barr: bool, rplmnValid: bool, rplmn: Plmn,
    lac: bv16, tmsi: bv32, alwaysSearchHplmn: bool,
    ptmsi: bv32, ptmsiSig: bv32, gprsAttached: bool, raiValid: bool, rai: Rai)

  /** The settings the subscriber code consults. */
  datatype Settings = Settings(simType: SimType, testSim: TestCard, anyTimeout: int)

  /** What the outside world sees of a step: jobs, signals, user messages and SAP calls, in order. */
  datatype Effects = Effects(jobs: seq<Job>, events: seq<Event>, notices: seq<Notice>, sapCalls: seq<SapCall>)

  const NoEffects := Effects([], [], [], [])

  function Then(a: Effects, b: Effects): Effects
  {
    Effects(a.jobs + b.jobs, a.events + b.events, a.notices + b.notices, a.sapCalls + b.sapCalls)
  }

  /** A step without a result: the new record and what it emitted. */
  datatype Transition = Transition(rec: Record, out: Effects)

  /** A step with a result code. */
  datatype Step = Step(rc: int, rec: Record, out: Effects)

  // ---------------------------------------------------------------
  // subscr_sim_request
  // ---------------------------------------------------------------

  /** The read job for table entry i: its job type, path and file, record 1 in absolute mode. */
  function ReadJob(i: nat): (j: Job)
    requires i < LastFileIndex
    ensures j.handle == QueryHandle && j.file == FileTable[i].file && j.path == FileTable[i].path
    ensures j.kind == ReadBinary || j.kind == ReadRecord
  {
    FileEntryAt(i);
    var sf := FileTable[i];
    Job(QueryHandle, sf.job.value, sf.path, sf.file, 1, 4, [])
  }

  /** A LAC other than 0000 and FFFE/FFFF names a location area the card was registered in. */
  predicate RegisteredLac(lac: bv16)
  {
    0 < lac < 0xfffe
  }

  /**
   * subscr_sim_request: at the terminator the reading is done (the
   * registered PLMN is taken from a valid LAI and Attached is signalled);
   * otherwise the current file is requested.
   */
  function RequestStep(r: Record): (t: Transition)
    requires r.sim.fileIndex <= LastFileIndex
    ensures t.rec.sim.fileIndex == r.sim.fileIndex
  {
    FileEntryAt(r.sim.fileIndex);
    if FileTable[r.sim.fileIndex].decoder.None? then
      var r' := if RegisteredLac(r.loc.lai.lac) then r.(loc := r.loc.(plmnValid := true, plmn := r.loc.lai.plmn)) else r;
      Transition(r', Effects([], [Attached], [], []))
    else
      Transition(r, Effects([ReadJob(r.sim.fileIndex)], [], [], []))
  }

  /** At the terminator: a valid LAI sets the registered PLMN, Attached is signalled in every case, and no job is sent. */
  lemma RequestAtTerminator(r: Record)
    requires r.sim.fileIndex == LastFileIndex
    ensures var t := RequestStep(r);
      && t.out == Effects([], [Attached], [], [])
      && (RegisteredLac(r.loc.lai.lac) ==> t.rec.loc.plmnValid && t.rec.loc.plmn == r.loc.lai.plmn)
      && (!RegisteredLac(r.loc.lai.lac) ==> t.rec == r)
      && t.rec == r.(loc := r.loc.(plmnValid := t.rec.loc.plmnValid, plmn := t.rec.loc.plmn))
  {
    FileEntryAt(r.sim.fileIndex);
  }

  /** Before the terminator: exactly one read job for the current entry, and nothing else changes. */
  lemma RequestAtFile(r: Record)
    requires r.sim.fileIndex < LastFileIndex
    ensures RequestStep(r) == Transition(r, Effects([ReadJob(r.sim.fileIndex)], [], [], []))
  {
    FileEntryAt(r.sim.fileIndex);
  }

  // ---------------------------------------------------------------
  // write-back
  // ---------------------------------------------------------------

  /** An UPDATE BINARY job on the update handle for a file under DF GSM. */
  function UpdateJob(file: bv16, data: seq<bv8>): (j: Job)
    ensures j.handle == UpdateHandle && j.kind == UpdateBinary && j.path == [DfGsm] && j.file == file && j.data == data
  {
    Job(UpdateHandle, UpdateBinary, [DfGsm], file, 0, 0, data)
  }

  /** The write-backs reach the card only for a valid card behind a reader. */
  predicate WritesToCard(r: Record)
  {
    r.sim.valid && IsReader(r.sim.simType)
  }

  /** subscr_write_plmn_na: the EF FPLMN update, if the card takes one. */
  function PlmnNaWrite(r: Record): (js: seq<Job>)
    ensures |js| <= 1
    ensures js != [] <==> WritesToCard(r)
  {
    if WritesToCard(r) then [UpdateJob(0x6f7b, FplmnImage(r.plmnNa))] else []
  }

  /** The FPLMN update carries 12 bytes to 7F20/6F7B: the last four forbidden PLMNs, then FF FF FF filler. */
  lemma PlmnNaWriteContent(r: Record)
    requires WritesToCard(r)
    requires forall i :: 0 <= i < |r.plmnNa| ==> ValidPlmn(r.plmnNa[i].plmn)
    ensures var j := PlmnNaWrite(r)[0];
      && j.path == [DfGsm] && j.file == 0x6f7b && |j.data| == 12
      && Triplets(j.data, 12) == Plmns(Window(r.plmnNa))
  {
    FplmnImageRoundTrip(r.plmnNa);
  }

  // ---------------------------------------------------------------
  // forbidden PLMNs
  // ---------------------------------------------------------------

  /** gsm_subscr_del_forbidden_plmn with a PLMN (Some) or NULL (None). */
  function DelStep(r: Record, plmn: Option<Plmn>): Step
  {
    var l := r.plmnNa;
    var deleted := if plmn.None? then l != [] else Contains(l, plmn.value);
    var r' := r.(plmnNa := if plmn.None? then [] else RemoveFirst(l, plmn.value));
    Step(-EINVAL, r', Effects(if deleted then PlmnNaWrite(r') else [], [], [], []))
  }

  /**
   * Deleting always answers -EINVAL; NULL empties the list, a PLMN loses
   * only its first entry; the card is updated only when something was
   * deleted; nothing else changes.
   */
  lemma DelStepSpec(r: Record, plmn: Option<Plmn>)
    ensures var s := DelStep(r, plmn);
      && s.rc == -EINVAL
      && s.rec == r.(plmnNa := s.rec.plmnNa)
      && (plmn.None? ==> s.rec.plmnNa == [])
      && (plmn.Some? && !Contains(r.plmnNa, plmn.value) ==> s.rec.plmnNa == r.plmnNa && s.out == NoEffects)
      && (plmn.Some? ==> |s.rec.plmnNa| == if Contains(r.plmnNa, plmn.value) then |r.plmnNa| - 1 else |r.plmnNa|)
      && s.out.events == [] && s.out.notices == [] && s.out.sapCalls == []
      && (s.out.jobs != [] <==> WritesToCard(r) && (if plmn.None? then r.plmnNa != [] else Contains(r.plmnNa, plmn.value)))
  {
    if plmn.Some? {
      if !Contains(r.plmnNa, plmn.value) {
        RemoveFirstAbsent(r.plmnNa, plmn.value);
      }
      RemoveFirstLength(r.plmnNa, plmn.value);
      CountZero(r.plmnNa, plmn.value);
    }
  }

  /** gsm_subscr_add_forbidden_plmn: delete, append at the tail, then update the card unless it is the home PLMN. */
  function AddStep(r: Record, plmn: Plmn, cause: bv8): Step
  {
    var d := DelStep(r, Some(plmn));
    var t := AppendStep(d.rec, plmn, cause);
    Step(t.rc, t.rec, Then(d.out, t.out))
  }

  /** The part of gsm_subscr_add_forbidden_plmn after the delete: append, then update the card unless it is the home PLMN. */
  function AppendStep(r: Record, plmn: Plmn, cause: bv8): Step
  {
    var r' := r.(plmnNa := r.plmnNa + [PlmnNa(plmn, StoredCause(cause))]);
    if r.sim.valid && MatchesHome(plmn, r.ids.imsi) then Step(-EINVAL, r', NoEffects)
    else Step(0, r', Effects(PlmnNaWrite(r'), [], [], []))
  }

  /**
   * Adding: the list becomes Add(list, plmn, cause) and nothing else in the
   * record changes; for the home PLMN of a valid card the answer is -EINVAL
   * and the new list is not written, otherwise the answer is 0 and the new
   * list is written last.
   */
  lemma AddStepSpec(r: Record, plmn: Plmn, cause: bv8)
    ensures var s := AddStep(r, plmn, cause);
      && s.rec == r.(plmnNa := Add(r.plmnNa, plmn, cause))
      && Contains(s.rec.plmnNa, plmn)
      && (r.sim.valid && MatchesHome(plmn, r.ids.imsi) ==> s.rc == -EINVAL && s.out == DelStep(r, Some(plmn)).out)
      && (!(r.sim.valid && MatchesHome(plmn, r.ids.imsi)) ==>
            s.rc == 0 && s.out.jobs == DelStep(r, Some(plmn)).out.jobs + PlmnNaWrite(s.rec))
      && s.out.events == [] && s.out.notices == [] && s.out.sapCalls == []
  {
    var l' := Add(r.plmnNa, plmn, cause);
    assert l'[|l'| - 1].plmn == plmn;
  }

  /** The entry is at the tail with its cause, listed once, and the list grows only when the PLMN was new. */
  lemma AddStepList(r: Record, plmn: Plmn, cause: bv8)
    requires NoDuplicates(r.plmnNa)
    ensures var l' := AddStep(r, plmn, cause).rec.plmnNa;
      && l'[|l'| - 1] == PlmnNa(plmn, StoredCause(cause))
      && Count(l', plmn) == 1
      && NoDuplicates(l')
      && |l'| == if Contains(r.plmnNa, plmn) then |r.plmnNa| else |r.plmnNa| + 1
  {
    NoDuplicatesCount(r.plmnNa, plmn);
    AddSpec(r.plmnNa, plmn, cause, plmn);
    AddKeepsNoDuplicates(r.plmnNa, plmn, cause);
  }

  /**
   * The home PLMN is kept off the card only by the add that inserts it: a
   * later add of another PLMN writes the whole tail, which holds it.
   */
  lemma HomePlmnWrittenByNextAdd(r: Record, home: Plmn, other: Plmn)
    requires WritesToCard(r) && MatchesHome(home, r.ids.imsi) && !MatchesHome(other, r.ids.imsi)
    requires r.plmnNa == [] && home != other
    ensures var s1 := AddStep(r, home, 0);
      var s2 := AddStep(s1.rec, other, 0);
      && s1.rc == -EINVAL && s1.out.jobs == []
      && s2.rc == 0 && s2.out.jobs == [UpdateJob(0x6f7b, FplmnImage([PlmnNa(home, -1), PlmnNa(other, -1)]))]
  {
    var s1 := AddStep(r, home, 0);
    assert s1.rec.plmnNa == [PlmnNa(home, -1)];
    assert !Contains(s1.rec.plmnNa, other);
    RemoveFirstAbsent(s1.rec.plmnNa, other);
  }

  // ---------------------------------------------------------------
  // decoding a file into the record
  // ---------------------------------------------------------------

  /** A decoder's effect: its result code, the new record and the static BCD buffer after it. */
  datatype Decoded = Decoded(rc: int, rec: Record, buf: seq<char>)

  /**
   * subscr_sim_* for decoder d on the payload data[..length]: each decoder
   * sets only the fields of its own file, through the static BCD buffer
   * where it decodes digits.
   */
  function ApplyDecode(r: Record, buf: seq<char>, d: Decoder, data: seq<bv8>, length: nat): (o: Decoded)
    requires Bcd.WellFormedBuffer(buf) && Backed(data, length) && length < 256
    ensures Bcd.WellFormedBuffer(o.buf)
    ensures o.rc == DecodeRc(d, data, length)
    ensures o.rc != 0 ==> o.rec == r
    ensures o.rec.sim.valid == r.sim.valid && o.rec.sim.simType == r.sim.simType && o.rec.sim.fileIndex == r.sim.fileIndex
    ensures o.rec.sim.pinRequired == r.sim.pinRequired
  {
    match d
    case IccidFile => ApplyIccid(r, buf, data, length)
    case ImsiFile => ApplyImsi(r, buf, data, length)
    case LociFile => ApplyLoci(r, buf, data, length)
    case LocigprsFile => ApplyLocigprs(r, buf, data, length)
    case KcFile => ApplyKc(r, buf, data, length)
    case PlmnselFile => Decoded(0, r.(plmnList := Triplets(data, length)), buf)
    case HpplmnFile => ApplyHpplmn(r, buf, data, length)
    case SpnFile => ApplySpn(r, buf, data, length)
    case AccFile => ApplyAcc(r, buf, data, length)
    case FplmnFile => Decoded(0, r.(plmnNa := Unknown(Triplets(data, length))), buf)
    case MsisdnFile => ApplyMsisdn(r, buf, data, length)
    case SmspFile => ApplySmsp(r, buf, data, length)
  }

  // One function per decoder, so that a proof about one file does not unfold the others.

  /** subscr_sim_iccid: the digits become the ICCID and the SIM's name. */
  function ApplyIccid(r: Record, buf: seq<char>, data: seq<bv8>, length: nat): Decoded
    requires Bcd.WellFormedBuffer(buf) && Backed(data, length) && length < 256
  {
    var iccid := Bcd.DecodeBcd(data, length);
    Decoded(0, r.(ids := r.ids.(iccid := iccid), sim := r.sim.(name := "sim-" + iccid)), Bcd.BcdWrite(buf, iccid))
  }

  function ApplyImsi(r: Record, buf: seq<char>, data: seq<bv8>, length: nat): Decoded
    requires Bcd.WellFormedBuffer(buf) && Backed(data, length) && length < 256
  {
    var o := DecodeImsi(buf, data, length);
    DecodeRcImsi(buf, data, length);
    if o.imsi.Err? then Decoded(o.imsi.rc, r, o.buf) else Decoded(0, r.(ids := r.ids.(imsi := o.imsi.value)), o.buf)
  }

  function ApplyLoci(r: Record, buf: seq<char>, data: seq<bv8>, length: nat): Decoded
    requires Backed(data, length)
  {
    var l := DecodeLoci(data, length);
    if l.Err? then Decoded(l.rc, r, buf)
    else Decoded(0, r.(loc := r.loc.(tmsi := l.value.tmsi, lai := l.value.lai, ustate := l.value.ustate)), buf)
  }

  function ApplyLocigprs(r: Record, buf: seq<char>, data: seq<bv8>, length: nat): Decoded
    requires Backed(data, length)
  {
    var l := DecodeLocigprs(data, length);
    if l.Err? then Decoded(l.rc, r, buf)
    else
      var g := r.gprs.(ptmsi := l.value.ptmsi, ptmsiSig := l.value.ptmsiSig, raiValid := true,
        rai := l.value.rai, guState := l.value.guState);
      Decoded(0, r.(gprs := g), buf)
  }

  function ApplyKc(r: Record, buf: seq<char>, data: seq<bv8>, length: nat): Decoded
    requires Backed(data, length)
  {
    var k := DecodeKc(data, length);
    if k.Err? then Decoded(k.rc, r, buf)
    else Decoded(0, r.(cipher := Cipher(k.value.key, k.value.keySeq)), buf)
  }

  function ApplyHpplmn(r: Record, buf: seq<char>, data: seq<bv8>, length: nat): Decoded
    requires Backed(data, length)
  {
    var h := DecodeHpplmn(data, length);
    if h.Err? then Decoded(h.rc, r, buf) else Decoded(0, r.(access := r.access.(t6mHplmn := h.value)), buf)
  }

  function ApplySpn(r: Record, buf: seq<char>, data: seq<bv8>, length: nat): Decoded
    requires Backed(data, length)
  {
    var n := DecodeSpn(data, length);
    if n.Err? then Decoded(n.rc, r, buf) else Decoded(0, r.(ids := r.ids.(spn := n.value)), buf)
  }

  function ApplyAcc(r: Record, buf: seq<char>, data: seq<bv8>, length: nat): Decoded
    requires Backed(data, length)
  {
    var a := DecodeAcc(data, length);
    if a.Err? then Decoded(a.rc, r, buf) else Decoded(0, r.(access := r.access.(accClass := a.value)), buf)
  }

  function ApplyMsisdn(r: Record, buf: seq<char>, data: seq<bv8>, length: nat): Decoded
    requires Bcd.WellFormedBuffer(buf) && Backed(data, length)
  {
    var o := DecodeMsisdn(buf, data, length);
    if o.msisdn.Err? then Decoded(o.msisdn.rc, r, o.buf) else Decoded(0, r.(ids := r.ids.(msisdn := o.msisdn.value)), o.buf)
  }

  /** With a full ADN trailer the MSISDN decoder is MsisdnAt on the trailer's offset. */
  lemma ApplyMsisdnAt(r: Record, buf: seq<char>, data: seq<bv8>, length: nat)
    requires Bcd.WellFormedBuffer(buf) && Backed(data, length) && length >= AdnSize
    ensures var o := MsisdnAt(buf, data, length - AdnSize);
      ApplyMsisdn(r, buf, data, length) == Decoded(0, r.(ids := r.ids.(msisdn := o.msisdn.value)), o.buf)
  {
  }

  function ApplySmsp(r: Record, buf: seq<char>, data: seq<bv8>, length: nat): Decoded
    requires Backed(data, length)
  {
    var m := DecodeSmsp(data, length);
    if m.Err? then Decoded(m.rc, r, buf) else Decoded(0, r.(ids := r.ids.(smsSca := m.value)), buf)
  }

  /** Forbidden PLMNs read from the card, which stores no cause: each gets cause -1. */
  function Unknown(ps: seq<Plmn>): (l: seq<PlmnNa>)
    ensures |l| == |ps|
    ensures forall k :: 0 <= k < |l| ==> l[k] == PlmnNa(ps[k], -1)
  {
    if ps == [] then [] else [PlmnNa(ps[0], -1)] + Unknown(ps[1..])
  }

  /**
   * One pass of the triplet loop of subscr_sim_fplmn: a triplet that is not
   * the filler becomes the next entry, with unknown cause.
   */
  lemma FplmnStep(d: seq<bv8>, n: nat, prefix: seq<PlmnNa>)
    requires 3 <= n <= |d| && !(d[0] == 0xff && d[1] == 0xff && d[2] == 0xff)
    ensures prefix + Unknown(Triplets(d, n)) == prefix + [PlmnNa(PlmnFromBcd(d[..3]), -1)] + Unknown(Triplets(d[3..], n - 3))
  {
    TripletsStep(d, n);
    var ps := Triplets(d, n);
    assert ps[1..] == Triplets(d[3..], n - 3);
    assert Unknown(ps) == [PlmnNa(ps[0], -1)] + Unknown(ps[1..]);
  }


  /** The PLMNs of the list read from the card are the triplets, in card order. */
  lemma {:induction false} UnknownPlmns(ps: seq<Plmn>)
    ensures Plmns(Unknown(ps)) == ps
  {
    var u := Unknown(ps);
    forall k | 0 <= k < |ps| ensures Plmns(u)[k] == ps[k] {
      assert u[k] == PlmnNa(ps[k], -1);
    }
  }

  /** EF FPLMN is decoded by replacing the forbidden list, nothing else. */
  lemma FplmnDecoded(r: Record, buf: seq<char>, data: seq<bv8>, length: nat)
    requires Bcd.WellFormedBuffer(buf) && Backed(data, length) && length < 256
    ensures ApplyDecode(r, buf, FplmnFile, data, length) == Decoded(0, r.(plmnNa := Unknown(Triplets(data, length))), buf)
  {
  }

  /** Reading EF FPLMN replaces the list by the card's PLMNs in card order, up to FF FF FF. */
  lemma FplmnReadReplacesList(r: Record, buf: seq<char>, l: seq<PlmnNa>, slack: seq<bv8>)
    requires Bcd.WellFormedBuffer(buf) && |slack| >= 16
    requires forall k :: 0 <= k < |l| ==> ValidPlmn(l[k].plmn)
    ensures var o := ApplyDecode(r, buf, FplmnFile, FplmnImage(l) + slack, 12);
      && o.rc == 0 && Plmns(o.rec.plmnNa) == Plmns(Window(l))
      && forall k :: 0 <= k < |o.rec.plmnNa| ==> o.rec.plmnNa[k].cause == -1
  {
    var d := FplmnImage(l) + slack;
    FplmnDecoded(r, buf, d, 12);
    TripletsPrefix(FplmnImage(l), slack, 12);
    FplmnImageRoundTrip(l);
    UnknownPlmns(Triplets(d, 12));
  }

  // ---------------------------------------------------------------
  // subscr_sim_query_cb
  // ---------------------------------------------------------------

  /** After an answer on the query handle: the record, the static buffer and what was emitted. */
  datatype Answer = Answer(rec: Record, buf: seq<char>, out: Effects)

  /** Move on to the next table entry and request it. */
  function Advance(r: Record, buf: seq<char>): (a: Answer)
    requires r.sim.fileIndex < LastFileIndex
    ensures a.rec.sim.fileIndex == r.sim.fileIndex + 1
  {
    var t := RequestStep(r.(sim := r.sim.(fileIndex := r.sim.fileIndex + 1)));
    Answer(t.rec, buf, t.out)
  }

  /**
   * subscr_sim_query_cb.  An error answer carries the SIM cause and the
   * tries-left byte; a data answer carries the file, followed in the
   * message buffer by at least 16 more bytes (slack), and its length is
   * truncated to 8 bits on the way to the decoder.
   */
  function QueryStep(r: Record, buf: seq<char>, resp: QueryResponse, slack: seq<bv8>): (a: Answer)
    requires r.sim.fileIndex <= LastFileIndex && Bcd.WellFormedBuffer(buf) && |slack| >= 16
    ensures a.rec.sim.fileIndex <= LastFileIndex && Bcd.WellFormedBuffer(a.buf)
    ensures a.rec.sim.simType == r.sim.simType
  {
    match resp
    case ErrorResponse(cause, tries) => QueryError(r, buf, cause, tries)
    case DataResponse(payload) =>
      if r.sim.pinRequired then
        var t := RequestStep(r.(sim := r.sim.(pinRequired := false)));
        Answer(t.rec, buf, t.out)
      else QueryData(r, buf, payload + slack, |payload| % 256)
  }

  /** The error branch of subscr_sim_query_cb. */
  function QueryError(r: Record, buf: seq<char>, cause: SimCause, tries: bv8): (a: Answer)
    requires r.sim.fileIndex <= LastFileIndex
    ensures a.rec.sim.fileIndex <= LastFileIndex && a.buf == buf && a.rec.sim.simType == r.sim.simType
  {
    FileEntryAt(r.sim.fileIndex);
    var sf := FileTable[r.sim.fileIndex];
    match cause
    case Pin1Required =>
      Answer(r.(sim := r.sim.(pinRequired := true)), buf, Effects([], [], [Clear, PinPrompt(r.ids.iccid, tries)], []))
    case Pin1Blocked =>
      var puc := if tries != 0 then [PucPrompt(r.ids.iccid, tries)] else [];
      Answer(r.(sim := r.sim.(pinRequired := true)), buf, Effects([], [], [Clear, PinIsBlocked] + puc, []))
    case PucBlocked =>
      Answer(r.(sim := r.sim.(pinRequired := true)), buf, Effects([], [], [Clear, PucIsBlocked], []))
    case OtherCause(_) =>
      if sf.decoder.Some? && !sf.mandatory then Advance(r, buf)
      else Answer(r.(sim := r.sim.(valid := false)), buf, Effects([], [Detached], [Clear, SimFailed], []))
  }

  /** The data branch of subscr_sim_query_cb once no PIN is pending: decode, then advance unless a mandatory file failed. */
  function QueryData(r: Record, buf: seq<char>, data: seq<bv8>, length: nat): (a: Answer)
    requires r.sim.fileIndex <= LastFileIndex && Bcd.WellFormedBuffer(buf) && Backed(data, length) && length < 256
    ensures a.rec.sim.fileIndex <= LastFileIndex && Bcd.WellFormedBuffer(a.buf) && a.rec.sim.simType == r.sim.simType
  {
    FileEntryAt(r.sim.fileIndex);
    var sf := FileTable[r.sim.fileIndex];
    if sf.decoder.None? then Answer(r, buf, NoEffects)
    else
      AfterDecode(ApplyDecode(r, buf, sf.decoder.value, data, length), sf.mandatory)
  }

  /** After the decoder: a mandatory file that failed stops the reading, anything else moves on. */
  function AfterDecode(o: Decoded, mandatory: bool): (a: Answer)
    requires o.rec.sim.fileIndex < LastFileIndex
    ensures a.rec.sim.fileIndex <= LastFileIndex
  {
    if o.rc != 0 && mandatory then Answer(o.rec, o.buf, Effects([], [], [Clear, DataInvalid], []))
    else Advance(o.rec, o.buf)
  }

  predicate IsPinCause(c: SimCause)
  {
    c == Pin1Required || c == Pin1Blocked || c == PucBlocked
  }

  /** PIN causes: the PIN is marked required, the cursor stays, nothing is requested and no signal is sent. */
  lemma QueryPinCause(r: Record, buf: seq<char>, cause: SimCause, tries: bv8, slack: seq<bv8>)
    requires r.sim.fileIndex <= LastFileIndex && Bcd.WellFormedBuffer(buf) && |slack| >= 16
    requires IsPinCause(cause)
    ensures var a := QueryStep(r, buf, ErrorResponse(cause, tries), slack);
      && a.rec == r.(sim := r.sim.(pinRequired := true)) && a.buf == buf
      && a.out.jobs == [] && a.out.events == [] && a.out.notices[0] == Clear
      && (cause == Pin1Blocked ==> (PucPrompt(r.ids.iccid, tries) in a.out.notices <==> tries != 0))
  {
  }

  /** Other causes on an optional file: that file is skipped, the card stays valid and the next entry is requested. */
  lemma QueryOtherCauseOptional(r: Record, buf: seq<char>, code: bv8, tries: bv8, slack: seq<bv8>)
    requires r.sim.fileIndex <= LastFileIndex && Bcd.WellFormedBuffer(buf) && |slack| >= 16
    requires 4 <= r.sim.fileIndex < LastFileIndex
    ensures var a := QueryStep(r, buf, ErrorResponse(OtherCause(code), tries), slack);
      && a.rec.sim.fileIndex == r.sim.fileIndex + 1 && a.rec.sim.valid == r.sim.valid
      && a == Advance(r, buf)
      && (r.sim.fileIndex + 1 < LastFileIndex ==> a.out.jobs == [ReadJob(r.sim.fileIndex + 1)] && a.out.events == [])
      && (r.sim.fileIndex + 1 == LastFileIndex ==> a.out.jobs == [] && a.out.events == [Attached])
  {
    FileEntryAt(r.sim.fileIndex);
    var r' := r.(sim := r.sim.(fileIndex := r.sim.fileIndex + 1));
    if r'.sim.fileIndex < LastFileIndex { RequestAtFile(r'); } else { RequestAtTerminator(r'); }
  }

  /**
   * Other causes on a mandatory file, or after the last file: the card is
   * invalidated, one Detached signal is sent, the cursor stays and nothing
   * is requested.
   */
  lemma QueryOtherCauseMandatory(r: Record, buf: seq<char>, code: bv8, tries: bv8, slack: seq<bv8>)
    requires r.sim.fileIndex <= LastFileIndex && Bcd.WellFormedBuffer(buf) && |slack| >= 16
    requires r.sim.fileIndex < 4 || r.sim.fileIndex == LastFileIndex
    ensures var a := QueryStep(r, buf, ErrorResponse(OtherCause(code), tries), slack);
      && a.rec == r.(sim := r.sim.(valid := false)) && a.out.events == [Detached] && a.out.jobs == []
      && a.out.notices == [Clear, SimFailed]
  {
    FileEntryAt(r.sim.fileIndex);
  }

  /** Data after a PIN prompt: the flag is cleared and the same entry is requested again, nothing is decoded. */
  lemma QueryDataAfterPin(r: Record, buf: seq<char>, payload: seq<bv8>, slack: seq<bv8>)
    requires r.sim.fileIndex <= LastFileIndex && Bcd.WellFormedBuffer(buf) && |slack| >= 16
    requires r.sim.pinRequired
    ensures var a := QueryStep(r, buf, DataResponse(payload), slack);
      && a.buf == buf && !a.rec.sim.pinRequired && a.rec.sim.fileIndex == r.sim.fileIndex
      && (r.sim.fileIndex < LastFileIndex ==>
            a.rec == r.(sim := r.sim.(pinRequired := false)) && a.out == Effects([ReadJob(r.sim.fileIndex)], [], [], []))
  {
    if r.sim.fileIndex < LastFileIndex { RequestAtFile(r.(sim := r.sim.(pinRequired := false))); }
  }

  /** Data for a mandatory file that does not decode: a notice, and the reading stops (no advance, no request). */
  lemma QueryDataInvalidMandatory(r: Record, buf: seq<char>, payload: seq<bv8>, slack: seq<bv8>)
    requires r.sim.fileIndex < 4 && Bcd.WellFormedBuffer(buf) && |slack| >= 16
    requires !r.sim.pinRequired
    requires DecodeRc(FileTable[r.sim.fileIndex].decoder.value, payload + slack, |payload| % 256) != 0
    ensures var a := QueryStep(r, buf, DataResponse(payload), slack);
      && a.rec == r && a.out == Effects([], [], [Clear, DataInvalid], [])
  {
    FileEntryAt(r.sim.fileIndex);
  }

  /**
   * Data that decodes, or data for an optional file: the decoded record,
   * with the cursor one further, and the next entry requested.
   */
  lemma QueryDataAdvances(r: Record, buf: seq<char>, payload: seq<bv8>, slack: seq<bv8>)
    requires r.sim.fileIndex < LastFileIndex && Bcd.WellFormedBuffer(buf) && |slack| >= 16
    requires !r.sim.pinRequired
    requires Decodes(r.sim.fileIndex, payload, slack)
    ensures var o := ApplyDecode(r, buf, FileTable[r.sim.fileIndex].decoder.value, payload + slack, |payload| % 256);
      var a := QueryStep(r, buf, DataResponse(payload), slack);
      && a == Advance(o.rec, o.buf)
      && a.rec.sim.fileIndex == r.sim.fileIndex + 1
      && a.rec.sim.valid == r.sim.valid
  {
    FileEntryAt(r.sim.fileIndex);
  }

  /** Data when the table is exhausted (a late answer to a PIN request) changes nothing. */
  lemma QueryDataAtTerminator(r: Record, buf: seq<char>, payload: seq<bv8>, slack: seq<bv8>)
    requires r.sim.fileIndex == LastFileIndex && Bcd.WellFormedBuffer(buf) && |slack| >= 16
    requires !r.sim.pinRequired
    ensures QueryStep(r, buf, DataResponse(payload), slack) == Answer(r, buf, NoEffects)
  {
    FileEntryAt(r.sim.fileIndex);
  }

  /** The answer for entry i passes: the entry is optional, or its payload decodes. */
  predicate Decodes(i: nat, payload: seq<bv8>, slack: seq<bv8>)
    requires i < LastFileIndex && |slack| >= 16
  {
    FileEntryAt(i);
    i >= 4 || DecodeRc(FileTable[i].decoder.value, payload + slack, |payload| % 256) == 0
  }

  /** An answer sequence in which every file decodes: the cursor makes one step per answer. */
  function ReadAll(r: Record, buf: seq<char>, files: seq<seq<bv8>>, slack: seq<bv8>): (a: Answer)
    requires r.sim.fileIndex <= LastFileIndex && Bcd.WellFormedBuffer(buf) && |slack| >= 16
    ensures a.rec.sim.fileIndex <= LastFileIndex && Bcd.WellFormedBuffer(a.buf)
    decreases |files|
  {
    if files == [] then Answer(r, buf, NoEffects)
    else
      var a := QueryStep(r, buf, DataResponse(files[0]), slack);
      var b := ReadAll(a.rec, a.buf, files[1..], slack);
      Answer(b.rec, b.buf, Then(a.out, b.out))
  }

  /** The answers after the first start one entry further on. */
  lemma DecodesRest(i: nat, j: nat, files: seq<seq<bv8>>, slack: seq<bv8>)
    requires j == i + 1 && i + |files| == LastFileIndex && |slack| >= 16 && files != []
    requires forall k :: 0 <= k < |files| ==> Decodes(i + k, files[k], slack)
    ensures forall k :: 0 <= k < |files[1..]| ==> Decodes(j + k, files[1..][k], slack)
  {
    forall k | 0 <= k < |files[1..]| ensures Decodes(j + k, files[1..][k], slack) {
      assert files[1..][k] == files[k + 1];
      assert Decodes(i + (k + 1), files[k + 1], slack);
    }
  }

  /**
   * Twelve answers that all decode, starting after insertion at entry 0
   * with no PIN pending, reach the terminator, keep the card valid, and the
   * last of them signals Attached.
   */
  lemma {:induction false} ReadAllReachesTerminator(r: Record, buf: seq<char>, files: seq<seq<bv8>>, slack: seq<bv8>)
    requires r.sim.fileIndex <= LastFileIndex && Bcd.WellFormedBuffer(buf) && |slack| >= 16
    requires !r.sim.pinRequired && |files| == LastFileIndex - r.sim.fileIndex
    requires forall k :: 0 <= k < |files| ==> Decodes(r.sim.fileIndex + k, files[k], slack)
    ensures var a := ReadAll(r, buf, files, slack);
      && a.rec.sim.fileIndex == LastFileIndex && a.rec.sim.valid == r.sim.valid && !a.rec.sim.pinRequired
      && (files != [] ==> Attached in a.out.events)
    decreases |files|
  {
    FileEntryAt(r.sim.fileIndex);
    if files != [] {
      QueryDataAdvances(r, buf, files[0], slack);
      var a := QueryStep(r, buf, DataResponse(files[0]), slack);
      assert a.rec.sim.fileIndex == r.sim.fileIndex + 1;
      DecodesRest(r.sim.fileIndex, a.rec.sim.fileIndex, files, slack);
      ReadAllReachesTerminator(a.rec, a.buf, files[1..], slack);
      if |files| == 1 {
        RequestAtTerminator(r.(sim := r.sim.(fileIndex := LastFileIndex)));
        assert Attached in a.out.events;
      }
    }
  }

  // ---------------------------------------------------------------
  // insert and remove
  // ---------------------------------------------------------------

  /** The record after gsm_subscr_insert_testcard accepted the test SIM settings. */
  function TestcardRecord(base: Record, tc: TestCard): (r: Record)
    ensures r.sim.simType == TestSim && r.access.accClass == 0xffff && r.access.t6mHplmn == 1
    ensures r.loc.lai == Lai(tc.rplmn, tc.lac) && r.loc.plmnValid == tc.rplmnValid && r.loc.plmn == tc.rplmn
    ensures r.loc.tmsi == tc.tmsi && r.gprs.ptmsi == tc.ptmsi && r.gprs.raiValid == tc.raiValid
    ensures |tc.imsi| < ImsiSize ==> r.ids.imsi == tc.imsi
  {
    var g := base.gprs.(ptmsi := tc.ptmsi, ptmsiSig := tc.ptmsiSig, imsiAttached := tc.gprsAttached,
      raiValid := tc.raiValid, rai := tc.rai);
    var loc := Location(tc.tmsi, Lai(tc.rplmn, tc.lac),
      if tc.gprsAttached && tc.raiValid then U1Updated else U2NotUpdated,
      tc.imsiAttached, tc.rplmn, tc.rplmnValid);
    base.(sim := base.sim.(simType := TestSim, name := "test"), ids := base.ids.(imsi := Bcd.Strlcpy(tc.imsi, ImsiSize)),
      loc := loc, gprs := g,
      access := base.access.(accBarr := tc.barr, accClass := 0xffff, alwaysSearchHplmn := tc.alwaysSearchHplmn, t6mHplmn := 1))
  }

  /**
   * gsm_subscr_insert.  sapOpenRc is what sap_open returns for a SAP
   * reader; the other backends do not consult it.
   */
  function InsertStep(r: Record, settings: Settings, sapOpenRc: int): (s: Step)
    ensures s.rec.sim.fileIndex == 0 || s.rec == r
  {
    if r.sim.valid then Step(-EBUSY, r, NoEffects)
    else StartCard(InitialRecord(settings.anyTimeout).(sim := SimState(true, SimNone, "", 0, false)), settings, sapOpenRc)
  }

  /** The backend part of gsm_subscr_insert, on the freshly reset record base. */
  function StartCard(base: Record, settings: Settings, sapOpenRc: int): (s: Step)
    requires base.sim.fileIndex == 0
    ensures s.rec.sim.fileIndex == 0
  {
    match settings.simType
    case L1Phy =>
      var t := RequestStep(base.(sim := base.sim.(simType := L1Phy, name := "sim", fileIndex := 0), loc := base.loc.(ustate := U2NotUpdated)));
      Step(0, t.rec, t.out)
    case TestSim =>
      if !ImsiStrValid(settings.testSim.imsi) then Step(-EINVAL, base.(sim := base.sim.(valid := false)), NoEffects)
      else Step(0, TestcardRecord(base, settings.testSim), Effects([], [Attached], [], []))
    case SapSim =>
      var b := base.(sim := base.sim.(simType := SapSim, name := "sap"));
      if sapOpenRc < 0 then
        Step(sapOpenRc, b.(sim := b.sim.(valid := false)), Effects([], [Detached], [Clear, SapConnecting, SapConnectionError], [SapOpen]))
      else Step(0, b, Effects([], [], [Clear, SapConnecting], [SapOpen]))
    case SimNone => Step(-EINVAL, base, NoEffects)
  }

  /** A second card cannot be inserted: -EBUSY, and nothing changes. */
  lemma InsertBusy(r: Record, settings: Settings, sapOpenRc: int)
    requires r.sim.valid
    ensures InsertStep(r, settings, sapOpenRc) == Step(-EBUSY, r, NoEffects)
  {
  }

  /**
   * Without a card, insertion first resets the record: both lists empty,
   * key sequence 7, and (except for the test SIM, which sets them) the
   * reserved TMSI and P-TMSI and LAC 0.
   */
  lemma InsertResets(r: Record, settings: Settings, sapOpenRc: int)
    requires !r.sim.valid
    ensures var s := InsertStep(r, settings, sapOpenRc);
      && s.rec.plmnList == [] && s.rec.plmnNa == [] && s.rec.cipher.keySeq == NoKeySeq
      && s.rec.access.anyTimeout == settings.anyTimeout && s.rec.sim.fileIndex == 0
      && (settings.simType != TestSim ==>
            s.rec.loc.tmsi == ReservedTmsi && s.rec.gprs.ptmsi == ReservedTmsi && s.rec.loc.lai.lac == 0)
  {
    FileTableShape();
  }

  /** A failing backend leaves no valid card; an unknown SIM type fails with the card marked valid. */
  lemma InsertFailure(r: Record, settings: Settings, sapOpenRc: int)
    requires !r.sim.valid
    ensures var s := InsertStep(r, settings, sapOpenRc);
      && (s.rc < 0 && settings.simType != SimNone ==> !s.rec.sim.valid)
      && (settings.simType == SimNone ==> s.rc == -EINVAL && s.rec.sim.valid)
      && (s.rc == 0 ==> s.rec.sim.valid && s.rec.sim.simType == settings.simType)
      && (settings.simType == TestSim ==> (s.rc == 0 <==> ImsiStrValid(settings.testSim.imsi)))
  {
    FileTableShape();
  }

  /** A card reader starts reading at the ICCID: one read of 2FE2 at the master file. */
  lemma InsertReaderRequestsIccid(r: Record, settings: Settings, sapOpenRc: int)
    requires !r.sim.valid && settings.simType == L1Phy
    ensures var s := InsertStep(r, settings, sapOpenRc);
      && s.rc == 0 && s.out.jobs == [ReadJob(0)] && s.out.jobs[0].file == 0x2fe2 && s.out.jobs[0].path == []
  {
    FileTableShape();
  }

  /**
   * The test SIM's U state follows the GPRS flags alone: the assignment
   * from the IMSI-attach and registered-PLMN flags is overwritten.
   */
  lemma InsertTestcardUState(r: Record, settings: Settings, sapOpenRc: int)
    requires !r.sim.valid && settings.simType == TestSim && ImsiStrValid(settings.testSim.imsi)
    ensures var s := InsertStep(r, settings, sapOpenRc);
      && s.rec.loc.ustate == (if settings.testSim.gprsAttached && settings.testSim.raiValid then U1Updated else U2NotUpdated)
      && s.rec.ids.imsi == settings.testSim.imsi
      && s.out == Effects([], [Attached], [], [])
  {
  }

  /** gsm_subscr_remove: Detached is signalled, the SAP link closed, and the record is left as it is. */
  function RemoveStep(r: Record): (s: Step)
    ensures s.rec == r
    ensures s.rc == 0 <==> r.sim.valid
    ensures s.rc != 0 ==> s.rc == -EINVAL && s.out == NoEffects
    ensures s.rc == 0 ==> s.out.events == [Detached] && (SapClose in s.out.sapCalls <==> r.sim.simType == SapSim)
  {
    if !r.sim.valid then Step(-EINVAL, r, NoEffects)
    else Step(0, r, Effects([], [Detached], [], if r.sim.simType == SapSim then [SapClose] else []))
  }

  /** Because removal keeps the card marked valid, a following insert is refused with -EBUSY. */
  lemma RemoveThenInsertBusy(r: Record, settings: Settings, sapOpenRc: int)
    requires r.sim.valid
    ensures InsertStep(RemoveStep(r).rec, settings, sapOpenRc).rc == -EBUSY
  {
  }

  // ---------------------------------------------------------------
  // PIN
  // ---------------------------------------------------------------

  /** The job gsm_subscr_sim_pin_simcard sends for a mode; None when no PIN is asked for. */
  function PinJobKind(mode: int8, pinRequired: bool): (k: Option<JobKind>)
    ensures k.None? <==> (mode !in {-1, 1, 2, 99} && !pinRequired)
    ensures k == Some(Pin1Disable) <==> mode == -1
    ensures k == Some(Pin1Enable) <==> mode == 1
    ensures k == Some(Pin1Change) <==> mode == 2
    ensures k == Some(Pin1Unblock) <==> mode == 99
    ensures k == Some(Pin1Unlock) <==> (mode !in {-1, 1, 2, 99} && pinRequired)
  {
    if mode == -1 then Some(Pin1Disable)
    else if mode == 1 then Some(Pin1Enable)
    else if mode == 2 then Some(Pin1Change)
    else if mode == 99 then Some(Pin1Unblock)
    else if pinRequired then Some(Pin1Unlock)
    else None
  }

  /** A C string: no NUL inside. */
  predicate CStr(s: seq<bv8>)
  {
    forall k :: 0 <= k < |s| ==> s[k] != 0
  }

  /** Both PINs, each with its terminating NUL. */
  function PinPayload(pin1: seq<bv8>, pin2: seq<bv8>): (b: seq<bv8>)
    requires CStr(pin1) && CStr(pin2)
    ensures |b| == |pin1| + |pin2| + 2
  {
    pin1 + [0] + pin2 + [0]
  }

  /** The card can split the payload back into the two PINs at its NULs. */
  lemma PinPayloadSplits(pin1: seq<bv8>, pin2: seq<bv8>)
    requires CStr(pin1) && CStr(pin2)
    ensures var b := PinPayload(pin1, pin2);
      && b[|pin1|] == 0 && b[..|pin1|] == pin1 && CStr(b[..|pin1|])
      && b[|b| - 1] == 0 && b[|pin1| + 1..|b| - 1] == pin2
  {
  }

  /** gsm_subscr_sim_pin: a real card gets the PIN job; no card, or the test SIM, answer 0 and send nothing. */
  function PinStep(r: Record, pin1: seq<bv8>, pin2: seq<bv8>, mode: int8): (s: Step)
    requires CStr(pin1) && CStr(pin2)
    ensures s.rc == 0 && s.rec == r
    ensures |s.out.jobs| <= 1 && s.out.events == []
    ensures s.out.jobs != [] <==> WritesToCard(r) && PinJobKind(mode, r.sim.pinRequired).Some?
    ensures s.out.jobs != [] ==>
      s.out.jobs[0].handle == QueryHandle && s.out.jobs[0].kind == PinJobKind(mode, r.sim.pinRequired).value && s.out.jobs[0].data == PinPayload(pin1, pin2)
  {
    if !WritesToCard(r) then Step(0, r, NoEffects)
    else
      var k := PinJobKind(mode, r.sim.pinRequired);
      if k.None? then Step(0, r, NoEffects)
      else Step(0, r, Effects([Job(QueryHandle, k.value, [], 0, 0, 0, PinPayload(pin1, pin2))], [], [], []))
  }

  // ---------------------------------------------------------------
  // authentication
  // ---------------------------------------------------------------

  /** The signed response sent when there is no card to ask. */
  const DummySres: seq<bv8> := [0x12, 0x34, 0x56, 0x78]

  /** What osmo_auth_gen_vec2 produced for the test SIM: its return value and the vector. */
  datatype AuthVector = AuthVector(ret: int, sres: seq<bv8>, kc: Key)

  /**
   * gsm_subscr_generate_kc: without a card the dummy response; the test
   * SIM computes the vector locally (auth); a reader is sent RUN GSM
   * ALGORITHM with the 16 random bytes.  The key sequence is stored in
   * the last two cases.
   */
  function GenerateKcStep(r: Record, keySeq: bv8, rand: seq<bv8>, noSim: bool, auth: AuthVector): (s: Step)
    requires |rand| == 16 && |auth.sres| == 4
    ensures s.rc <= 0 || s.rc == auth.ret
    ensures s.rec == r || s.rec.cipher.keySeq == keySeq
    ensures s.rec.sim.valid == r.sim.valid && s.rec.sim.fileIndex == r.sim.fileIndex
  {
    if noSim || r.sim.simType == SimNone || !r.sim.valid then
      Step(0, r, Effects([], [AuthResp(DummySres)], [], []))
    else if r.sim.simType == TestSim then
      if auth.ret < 0 then Step(auth.ret, r, NoEffects)
      else Step(0, r.(cipher := Cipher(auth.kc, keySeq)), Effects([], [AuthResp(auth.sres)], [], []))
    else
      Step(0, r.(cipher := r.cipher.(keySeq := keySeq)), Effects([Job(KeyHandle, RunGsmAlgo, [DfGsm], 0, 0, 0, rand)], [], [], []))
  }

  /** Exactly one of: a signed response now (dummy or test SIM), a key job, or a failed test-SIM computation. */
  lemma GenerateKcOutcomes(r: Record, keySeq: bv8, rand: seq<bv8>, noSim: bool, auth: AuthVector)
    requires |rand| == 16 && |auth.sres| == 4
    ensures var s := GenerateKcStep(r, keySeq, rand, noSim, auth);
      && ((noSim || !r.sim.valid || r.sim.simType == SimNone) ==> s.out.events == [AuthResp(DummySres)] && s.rec == r)
      && (!noSim && r.sim.valid && IsReader(r.sim.simType) ==>
            s.rec == r.(cipher := r.cipher.(keySeq := keySeq)) && s.out.events == [] && |s.out.jobs| == 1
            && s.out.jobs[0].data == rand && s.out.jobs[0].kind == RunGsmAlgo)
      && (!noSim && r.sim.valid && r.sim.simType == TestSim ==>
            (auth.ret < 0 ==> s == Step(auth.ret, r, NoEffects))
            && (auth.ret >= 0 ==> s.rec.cipher.key == auth.kc && s.out.events == [AuthResp(auth.sres)]))
  {
  }

  /** An answer on the key handle. */
  datatype KeyResponse = KeyError(cause: bv8) | KeyData(payload: seq<bv8>)

  /**
   * subscr_sim_key_cb: SRES in bytes 0-3 and Kc in bytes 4-11 of the
   * answer; the key is stored, written back to EF Kc with the stored key
   * sequence, and SRES signalled.  Errors and short answers do nothing.
   */
  function KeyStep(r: Record, resp: KeyResponse): (t: Transition)
    ensures resp.KeyError? || |resp.payload| < 12 ==> t == Transition(r, NoEffects)
    ensures resp.KeyData? && |resp.payload| >= 12 ==>
      && t.rec == r.(cipher := Cipher(resp.payload[4..12], r.cipher.keySeq))
      && t.out.jobs == [UpdateJob(0x6f20, KcImage(resp.payload[4..12], r.cipher.keySeq))]
      && t.out.events == [AuthResp(resp.payload[..4])]
      && t.out.notices == [] && t.out.sapCalls == []
  {
    match resp
    case KeyError(_) => Transition(r, NoEffects)
    case KeyData(payload) =>
      if |payload| < 12 then Transition(r, NoEffects)
      else
        var key := payload[4..12];
        Transition(r.(cipher := r.cipher.(key := key)), Effects([UpdateJob(0x6f20, KcImage(key, r.cipher.keySeq))], [AuthResp(payload[..4])], [], []))
  }

  /**
   * A card's answer after key generation: the Kc written back reads as the
   * new key with the sequence number stored by the request, and SRES is
   * the answer's first four bytes.
   */
  lemma GenerateThenKey(r: Record, keySeq: bv8, rand: seq<bv8>, auth: AuthVector, payload: seq<bv8>, slack: seq<bv8>)
    requires |rand| == 16 && |auth.sres| == 4 && |slack| >= 16
    requires r.sim.valid && IsReader(r.sim.simType) && |payload| >= 12 && keySeq <= 7
    ensures var g := GenerateKcStep(r, keySeq, rand, false, auth);
      var t := KeyStep(g.rec, KeyData(payload));
      && t.rec.cipher.key == payload[4..12] && t.rec.cipher.keySeq == keySeq
      && t.out.events == [AuthResp(payload[..4])]
      && |t.out.jobs| == 1 && t.out.jobs[0].file == 0x6f20
      && DecodeKc(t.out.jobs[0].data + slack, KcSize) == Ok(KcContent(payload[4..12], keySeq))
  {
    KcRoundTrip(payload[4..12], keySeq, slack);
    assert keySeq & 7 == keySeq;
  }

  /** gsm_subscr_get_key_seq: 7 (no key) when a new key is forced, else the stored sequence. */
  function KeySeqFor(r: Record, forceRekey: bool): (k: bv8)
    ensures forceRekey ==> k == NoKeySeq
    ensures !forceRekey ==> k == r.cipher.keySeq
  {
    if forceRekey then NoKeySeq else r.cipher.keySeq
  }

  /** After reading EF Kc the key sequence in use is a valid one (at most 7). */
  lemma KeySeqAfterKcRead(r: Record, buf: seq<char>, data: seq<bv8>, length: nat, forceRekey: bool)
    requires Bcd.WellFormedBuffer(buf) && Backed(data, length) && length < 256 && r.cipher.keySeq <= 7
    ensures KeySeqFor(ApplyDecode(r, buf, KcFile, data, length).rec, forceRekey) <= 7
  {
  }

  // ---------------------------------------------------------------
  // LOCI and LOCIGPRS write-back
  // ---------------------------------------------------------------

  /** gsm_subscr_write_loci: a reader gets an update of EF LOCI; the test SIM and no card get nothing. */
  function LociWrite(r: Record): (js: seq<Job>)
    ensures |js| <= 1 && (js != [] <==> WritesToCard(r))
    ensures js != [] ==> js[0] == UpdateJob(0x6f7e, LociImage(r.loc.tmsi, r.loc.lai, r.loc.ustate))
  {
    if WritesToCard(r) then [UpdateJob(0x6f7e, LociImage(r.loc.tmsi, r.loc.lai, r.loc.ustate))] else []
  }

  /** Reading back the written EF LOCI restores TMSI, LAI and U state (U0 reads as U2). */
  lemma LociWriteReadBack(r: Record, buf: seq<char>, slack: seq<bv8>)
    requires WritesToCard(r) && ValidPlmn(r.loc.lai.plmn) && |slack| >= 16 && Bcd.WellFormedBuffer(buf)
    ensures var o := ApplyDecode(r, buf, LociFile, LociWrite(r)[0].data + slack, LociSize);
      && o.rc == 0 && o.rec.loc.tmsi == r.loc.tmsi && o.rec.loc.lai == r.loc.lai
      && o.rec.loc.ustate == (if r.loc.ustate == U0Null then U2NotUpdated else r.loc.ustate)
  {
    LociRoundTrip(r.loc.tmsi, r.loc.lai, r.loc.ustate, slack);
  }

  /**
   * gsm_subscr_write_locigprs: a reader gets an update of EF LOCIGPRS; the
   * test SIM backend skips it as it is no reader.
   */
  function LocigprsWrite(r: Record): (js: seq<Job>)
    ensures |js| <= 1 && (js != [] <==> WritesToCard(r))
    ensures js != [] ==> js[0] == UpdateJob(0x6f53, LocigprsImage(r.gprs.ptmsi, r.gprs.rai, r.gprs.guState))
  {
    if WritesToCard(r) then [UpdateJob(0x6f53, LocigprsImage(r.gprs.ptmsi, r.gprs.rai, r.gprs.guState))] else []
  }

  /**
   * Reading back the written EF LOCIGPRS restores P-TMSI, RAI and GU
   * state, but the signature comes back as bytes of the P-TMSI.
   */
  lemma LocigprsWriteReadBack(r: Record, buf: seq<char>, slack: seq<bv8>)
    requires WritesToCard(r) && ValidPlmn(r.gprs.rai.plmn) && |slack| >= 16 && Bcd.WellFormedBuffer(buf)
    ensures var o := ApplyDecode(r, buf, LocigprsFile, LocigprsWrite(r)[0].data + slack, LocigprsSize);
      && o.rc == 0 && o.rec.gprs.ptmsi == r.gprs.ptmsi && o.rec.gprs.rai == r.gprs.rai
      && o.rec.gprs.ptmsiSig == WrittenSignature(r.gprs.ptmsi) && o.rec.gprs.raiValid
      && o.rec.gprs.guState == (if r.gprs.guState == Gu0Null then Gu2NotUpdated else r.gprs.guState)
  {
    LocigprsRoundTrip(r.gprs.ptmsi, r.gprs.rai, r.gprs.guState, slack);
  }

  // ---------------------------------------------------------------
  // SAP responses
  // ---------------------------------------------------------------

  datatype SapResult = SapOk | OtherResult(code: int)
  datatype SapMsgType = TransferApduResp | TransferAtrResp | OtherMsg(code: bv8)

  /**
   * gsm_subscr_sap_rsp_cb: APDU answers go to the SIM client (apduRc is
   * what it returns), an ATR starts reading the card, anything else is
   * ignored; an error result is ignored with 0.
   */
  function SapStep(r: Record, res: SapResult, msg: SapMsgType, param: Option<seq<bv8>>, apduRc: int): (s: Step)
    requires r.sim.fileIndex <= LastFileIndex
    ensures res != SapOk ==> s == Step(0, r, NoEffects)
    ensures res == SapOk && msg == TransferApduResp ==>
      s.rec == r && (if param.None? || param.value == [] then s == Step(-EINVAL, r, NoEffects)
      else s.rc == apduRc && s.out == Effects([], [], [], [ApduResp(param.value)]))
    ensures res == SapOk && msg.OtherMsg? ==> s == Step(-ENOTSUP, r, NoEffects)
    ensures res == SapOk && msg == TransferAtrResp ==> s.rc == 0 && s.out == RequestStep(r).out
  {
    if res != SapOk then Step(0, r, NoEffects)
    else
      match msg
      case TransferApduResp =>
        if param.None? || param.value == [] then Step(-EINVAL, r, NoEffects)
        else Step(apduRc, r, Effects([], [], [], [ApduResp(param.value)]))
      case TransferAtrResp =>
        var t := RequestStep(r);
        Step(0, t.rec, t.out)
      case OtherMsg(_) => Step(-ENOTSUP, r, NoEffects)
  }

  /** After a SAP insert the ATR starts reading the card at the ICCID. */
  lemma SapInsertThenAtr(r: Record, settings: Settings, sapOpenRc: int)
    requires !r.sim.valid && settings.simType == SapSim && sapOpenRc >= 0
    ensures var s := InsertStep(r, settings, sapOpenRc);
      && s.rc == 0 && s.out.sapCalls == [SapOpen]
      && SapStep(s.rec, SapOk, TransferAtrResp, None, 0).out.jobs == [ReadJob(0)]
  {
    FileTableShape();
  }
}
