/**
 * The subscriber of one mobile station as the C code keeps it: a record
 * whose fields are changed in place by the insert, remove and PIN calls,
 * by the answers of the SIM client to the reading of the card's files, by
 * the forbidden-PLMN list operations and by authentication.  Every method
 * is proved to perform the corresponding step of SubscriberSpec on the
 * record (Rec) and to append that step's effects to what was already
 * emitted (Out).
 */
module Subscriber {
  import opened ByteOrder
  import opened GsmCodec
  import Bcd
  import opened PlmnLists
  import opened SimFiles
  import opened SubscriberSpec

  class Subscriber {
    // struct gsm_subscriber, its fields grouped as in SubscriberSpec.Record
    /** sim_valid, sim_type, sim_name, sim_file_index, sim_pin_required */
    var sim: SimState
    /** iccid, imsi, msisdn, sms_sca, sim_spn */
    var ids: Ids
    /** tmsi, lai, ustate, imsi_attached, plmn, plmn_valid */
    var loc: Location
    /** key, key_seq */
    var cipher: Cipher
    var gprs: Gprs
    /** acc_class, acc_barr, t6m_hplmn, always_search_hplmn, any_timeout */
    var access: Access
    var plmnList: seq<Plmn>
    var plmnNa: seq<PlmnNa>

    /** Jobs handed to sim_job, signals dispatched, user notices and SAP client calls, oldest first. */
    var jobs: seq<Job>
    var events: seq<Event>
    var notices: seq<Notice>
    var sapCalls: seq<SapCall>

    /** The static result buffer of sim_decode_bcd. */
    const bcdResult: array<char>

    /** The record the fields hold. */
    function Rec(): Record
      reads this
    {
      Record(sim, ids, loc, cipher, gprs, access, plmnList, plmnNa)
    }

    /** Everything emitted so far. */
    ghost function Out(): Effects
      reads this
    {
      Effects(jobs, events, notices, sapCalls)
    }

    /** The BCD buffer ends in a NUL and the file cursor is within the table. */
    ghost predicate Valid()
      reads this, bcdResult
    {
      Bcd.WellFormedBuffer(bcdResult[..]) && sim.fileIndex <= LastFileIndex
    }

    constructor (anyTimeout: int)
      ensures Valid() && Rec() == InitialRecord(anyTimeout) && Out() == NoEffects
      ensures fresh(bcdResult) && bcdResult[..] == seq(Bcd.BufferSize, _ => Bcd.Nul)
    {
      bcdResult := new char[Bcd.BufferSize](_ => Bcd.Nul);
      jobs, events, notices, sapCalls := [], [], [], [];
      new;
      Init(anyTimeout);
    }

    // ---------------------------------------------------------------
    // transport: the SIM client, the signal bus, the user, the SAP client
    // ---------------------------------------------------------------

    /** sim_job */
    method SimJob(j: Job)
      modifies this`jobs
      ensures jobs == old(jobs) + [j]
    {
      jobs := jobs + [j];
    }

    /** osmo_signal_dispatch on SS_L23_SUBSCR */
    method Dispatch(e: Event)
      modifies this`events
      ensures events == old(events) + [e]
    {
      events := events + [e];
    }

    /** l23_vty_ms_notify */
    method Notify(n: Notice)
      modifies this`notices
      ensures notices == old(notices) + [n]
    {
      notices := notices + [n];
    }

    /** sap_open, sap_close, sim_apdu_resp */
    method CallSap(c: SapCall)
      modifies this`sapCalls
      ensures sapCalls == old(sapCalls) + [c]
    {
      sapCalls := sapCalls + [c];
    }

    // ---------------------------------------------------------------
    // init, exit, insert, remove
    // ---------------------------------------------------------------

    /** gsm_subscr_init */
    method Init(anyTimeout: int)
      requires Bcd.WellFormedBuffer(bcdResult[..])
      modifies this`sim, this`ids, this`loc, this`cipher, this`gprs, this`access, this`plmnList, this`plmnNa
      ensures Valid()
      ensures Rec() == InitialRecord(anyTimeout)
    {
      // memset to zero, except the reserved TMSIs and LAC 0 (invalid), key sequence 7 (no key) and the timer
      sim := SimState(false, SimNone, "", 0, false);
      ids := Ids("", "", "", "", "");
      loc := Location(ReservedTmsi, Lai(ZeroPlmn, 0x0000), U0Null, false, ZeroPlmn, false);
      cipher := Cipher([0, 0, 0, 0, 0, 0, 0, 0], NoKeySeq);
      gprs := Gprs(ReservedTmsi, 0, Rai(ZeroPlmn, 0, 0), false, false, Gu0Null);
      access := Access(0, false, 0, false, anyTimeout);
      plmnList, plmnNa := [], [];
    }

    /** gsm_subscr_exit: both lists are flushed, entry by entry. */
    method Exit()
      requires Valid()
      modifies this`plmnList, this`plmnNa
      ensures Valid()
      ensures plmnList == [] && plmnNa == []
    {
      while plmnList != []
        decreases |plmnList|
      {
        plmnList := plmnList[1..];
      }
      while plmnNa != []
        invariant plmnList == []
        decreases |plmnNa|
      {
        plmnNa := plmnNa[1..];
      }
    }

    /** gsm_subscr_insert */
    method Insert(settings: Settings, sapOpenRc: int) returns (rc: int)
      requires Valid()
      modifies this
      ensures Valid()
      ensures var s := InsertStep(old(Rec()), settings, sapOpenRc);
        rc == s.rc && Rec() == s.rec && Out() == Then(old(Out()), s.out)
    {
      if sim.valid {
        return -EBUSY;
      }
      Exit();
      Init(settings.anyTimeout);
      sim := sim.(valid := true);
      rc := StartCard(settings, sapOpenRc);
    }

    /** The reader-specific part of gsm_subscr_insert; a failing backend leaves the card invalid. */
    method StartCard(settings: Settings, sapOpenRc: int) returns (rc: int)
      requires sim.fileIndex == 0
      modifies this`sim, this`ids, this`loc, this`gprs, this`access, this`jobs, this`events, this`notices, this`sapCalls
      ensures var s := SubscriberSpec.StartCard(old(Rec()), settings, sapOpenRc);
        rc == s.rc && Rec() == s.rec && Out() == Then(old(Out()), s.out)
    {
      match settings.simType {
        case L1Phy =>
          rc := InsertSimcard();
        case TestSim =>
          rc := InsertTestcard(settings.testSim);
        case SapSim =>
          rc := InsertSapcard(sapOpenRc);
        case SimNone =>
          return -EINVAL;
      }
      if rc < 0 {
        sim := sim.(valid := false);
        return rc;
      }
    }

    /** gsm_subscr_insert_simcard: a reader starts reading at table entry 0. */
    method InsertSimcard() returns (rc: int)
      modifies this`sim, this`loc, this`jobs, this`events
      ensures var t := RequestStep(old(Rec()).(sim := old(Rec()).sim.(simType := L1Phy, name := "sim", fileIndex := 0),
          loc := old(Rec()).loc.(ustate := U2NotUpdated)));
        rc == 0 && Rec() == t.rec && Out() == Then(old(Out()), t.out)
    {
      sim := sim.(simType := L1Phy, name := "sim");
      loc := loc.(ustate := U2NotUpdated);
      // start with the first entry
      sim := sim.(fileIndex := 0);
      rc := Request();
    }

    /**
     * gsm_subscr_insert_testcard: the settings become the record.  The U
     * state is assigned twice, and the second assignment, from the GPRS
     * flags, is the one that stays.
     */
    method InsertTestcard(tc: TestCard) returns (rc: int)
      modifies this`sim, this`ids, this`loc, this`gprs, this`access, this`events
      ensures ImsiStrValid(tc.imsi) ==> rc == 0 && Rec() == TestcardRecord(old(Rec()), tc) && events == old(events) + [Attached]
      ensures !ImsiStrValid(tc.imsi) ==> rc == -EINVAL && Rec() == old(Rec()) && events == old(events)
    {
      if !ImsiStrValid(tc.imsi) {
        return -EINVAL;
      }
      var r := TestcardFields(Rec(), tc);
      sim, ids, loc, gprs, access := r.sim, r.ids, r.loc, r.gprs, r.access;
      Dispatch(Attached);
      rc := 0;
    }

    /** The field assignments of gsm_subscr_insert_testcard, in source order, on a copy of the record. */
    static method TestcardFields(base: Record, tc: TestCard) returns (r: Record)
      ensures r == TestcardRecord(base, tc)
    {
      var sim, ids, loc, gprs, access := base.sim, base.ids, base.loc, base.gprs, base.access;
      sim := sim.(simType := TestSim, name := "test");
      loc := loc.(imsiAttached := tc.imsiAttached);
      access := access.(accBarr := tc.barr, accClass := 0xffff);
      loc := loc.(plmnValid := tc.rplmnValid, plmn := tc.rplmn);
      loc := loc.(lai := Lai(tc.rplmn, tc.lac), tmsi := tc.tmsi);
      access := access.(alwaysSearchHplmn := tc.alwaysSearchHplmn, t6mHplmn := 1);
      ids := ids.(imsi := Bcd.Strlcpy(tc.imsi, ImsiSize));
      if loc.imsiAttached && loc.plmnValid {
        loc := loc.(ustate := U1Updated);
      } else {
        loc := loc.(ustate := U2NotUpdated);
      }
      gprs := gprs.(ptmsi := tc.ptmsi, ptmsiSig := tc.ptmsiSig, imsiAttached := tc.gprsAttached);
      gprs := gprs.(raiValid := tc.raiValid, rai := tc.rai);
      if gprs.imsiAttached && gprs.raiValid {
        loc := loc.(ustate := U1Updated);
      } else {
        loc := loc.(ustate := U2NotUpdated);
      }
      r := base.(sim := sim, ids := ids, loc := loc, gprs := gprs, access := access);
    }

    /** gsm_subscr_insert_sapcard: sapOpenRc is what sap_open returns. */
    method InsertSapcard(sapOpenRc: int) returns (rc: int)
      modifies this`sim, this`events, this`notices, this`sapCalls
      ensures var b := old(Rec()).(sim := old(Rec()).sim.(simType := SapSim, name := "sap"));
        && (sapOpenRc < 0 ==>
              rc == sapOpenRc && Rec() == b.(sim := b.sim.(valid := false))
              && Out() == Then(old(Out()), Effects([], [Detached], [Clear, SapConnecting, SapConnectionError], [SapOpen])))
        && (sapOpenRc >= 0 ==> rc == 0 && Rec() == b && Out() == Then(old(Out()), Effects([], [], [Clear, SapConnecting], [SapOpen])))
    {
      sim := sim.(simType := SapSim, name := "sap");
      Notify(Clear);
      Notify(SapConnecting);
      CallSap(SapOpen);
      if sapOpenRc < 0 {
        SapOpenFailed();
        return sapOpenRc;
      }
      rc := 0;
    }

    /** sap_open failed: tell the user and detach the card. */
    method SapOpenFailed()
      modifies this`sim, this`events, this`notices
      ensures sim == old(sim).(valid := false)
      ensures events == old(events) + [Detached] && notices == old(notices) + [SapConnectionError]
    {
      Notify(SapConnectionError);
      sim := sim.(valid := false);
      Dispatch(Detached);
    }

    /** gsm_subscr_remove: the card stays marked valid. */
    method Remove() returns (rc: int)
      requires Valid()
      modifies this`events, this`sapCalls
      ensures Valid()
      ensures var s := RemoveStep(Rec());
        rc == s.rc && Out() == Then(old(Out()), s.out)
    {
      if !sim.valid {
        return -EINVAL;
      }
      if sim.simType == SapSim {
        // gsm_subscr_remove_sapcard
        CallSap(SapClose);
      }
      Dispatch(Detached);
      rc := 0;
    }

    /** new_sim_ustate */
    method NewSimUState(state: UState)
      requires Valid()
      modifies this`loc
      ensures Valid()
      ensures loc == old(loc).(ustate := state)
    {
      loc := loc.(ustate := state);
    }

    // ---------------------------------------------------------------
    // reading the card
    // ---------------------------------------------------------------

    /** subscr_sim_request: the read job for the current entry, or, at the terminator, the end of the reading. */
    method Request() returns (rc: int)
      requires sim.fileIndex <= LastFileIndex
      modifies this`loc, this`jobs, this`events
      ensures var t := RequestStep(old(Rec()));
        rc == 0 && Rec() == t.rec && Out() == Then(old(Out()), t.out)
    {
      FileTableShape();
      var sf := FileTable[sim.fileIndex];
      if sf.decoder.None? {
        // the LAI names a location area: it gives the registered PLMN
        if loc.lai.lac > 0x0000 && loc.lai.lac < 0xfffe {
          loc := loc.(plmnValid := true, plmn := loc.lai.plmn);
        }
        Dispatch(Attached);
        return 0;
      }
      // the table's path is terminated by 0
      var tablePath := sf.path + [0];
      var path: seq<bv16> := [];
      var i := 0;
      while tablePath[i] != 0
        invariant 0 <= i <= |sf.path| && path == sf.path[..i]
        decreases |sf.path| - i
      {
        path := path + [tablePath[i]];
        i := i + 1;
      }
      assert path == sf.path;
      SimJob(Job(QueryHandle, sf.job.value, path, sf.file, 1, 0x04, []));
      rc := 0;
    }

    /**
     * sim_decode_bcd: up to 2 * length nibbles, low nibble first, each
     * stored as a digit character, until a nibble F or the 31st digit; then
     * the terminating NUL.
     */
    method DecodeBcd(data: seq<bv8>, length: nat) returns (digits: string)
      requires Bcd.WellFormedBuffer(bcdResult[..]) && Bcd.Readable(data, length)
      modifies bcdResult
      ensures bcdResult[..] == Bcd.BcdWrite(old(bcdResult[..]), Bcd.DecodeBcd(data, length))
      ensures digits == Bcd.DecodeBcd(data, length)
    {
      ghost var s := Bcd.DecodeBcd(data, length);
      Bcd.DecodeBcdShape(data, length);
      var i := 0;
      var j := 0;
      while i < 2 * length
        invariant j == i && i <= |s| && i < Bcd.MaxDigits
        invariant forall k :: 0 <= k < j ==> bcdResult[k] == s[k]
        invariant forall k :: j <= k < Bcd.BufferSize ==> bcdResult[k] == old(bcdResult[k])
      {
        var c: bv8 := if i % 2 == 1 then data[i / 2] >> 4 else data[i / 2] & 0xf;
        assert c == Bcd.Nibble(data, i);
        if c == 0xf {
          break;
        }
        // a digit follows, so the decode had not ended yet
        if i == |s| {
          assert false;
        }
        bcdResult[j] := Bcd.NibbleChar(c);
        j := j + 1;
        if j == Bcd.MaxDigits {
          break;
        }
        i := i + 1;
      }
      assert j == |s|;
      bcdResult[j] := Bcd.Nul;
      Bcd.WrittenBuffer(old(bcdResult[..]), bcdResult[..], s);
      // the string at the returned pointer
      Bcd.CStringOfDecode(old(bcdResult[..]), data, length);
      digits := Bcd.CString(bcdResult[..], 0);
    }

    // ---------------------------------------------------------------
    // the file decoders: each performs its part of ApplyDecode
    // ---------------------------------------------------------------

    /** subscr_sim_iccid */
    method SimIccid(data: seq<bv8>, length: nat) returns (rc: int)
      requires Bcd.WellFormedBuffer(bcdResult[..]) && Backed(data, length) && length < 256
      modifies this`ids, this`sim, bcdResult
      ensures var o := ApplyIccid(old(Rec()), old(bcdResult[..]), data, length);
        rc == o.rc && Rec() == o.rec && bcdResult[..] == o.buf
    {
      var iccid := DecodeBcd(data, length);
      ids := ids.(iccid := iccid);
      sim := sim.(name := "sim-" + iccid);
      rc := 0;
    }

    /** subscr_sim_imsi */
    method SimImsi(data: seq<bv8>, length: nat) returns (rc: int)
      requires Bcd.WellFormedBuffer(bcdResult[..]) && Backed(data, length) && length < 256
      modifies this`ids, bcdResult
      ensures var o := ApplyImsi(old(Rec()), old(bcdResult[..]), data, length);
        rc == o.rc && Rec() == o.rec && bcdResult[..] == o.buf
    {
      if length < 1 {
        return -EINVAL;
      }
      if data[0] as int + 1 < length {
        return -EINVAL;
      }
      var imsi := DecodeBcd(data[1..], data[0] as nat);
      // strlen(imsi)
      var n := |imsi|;
      if n >= ImsiBufSize || SizeMinusOne(n) < 6 {
        return -EINVAL;
      }
      // skip the parity digit
      ids := ids.(imsi := Bcd.Strlcpy(Bcd.CString(bcdResult[..], 1), ImsiBufSize));
      rc := 0;
    }

    /** subscr_sim_loci */
    method SimLoci(data: seq<bv8>, length: nat) returns (rc: int)
      requires Bcd.WellFormedBuffer(bcdResult[..]) && Backed(data, length) && length < 256
      modifies this`loc
      ensures var o := ApplyLoci(old(Rec()), bcdResult[..], data, length);
        rc == o.rc && Rec() == o.rec
    {
      if length < LociSize {
        return -EINVAL;
      }
      var status := data[10] & 0x07;
      var u;
      if status == LupdUpdated {
        u := U1Updated;
      } else if status == LupdPlmnNotAllowed || status == LupdLaNotAllowed {
        u := U3RoamingNa;
      } else {
        u := U2NotUpdated;
      }
      loc := loc.(tmsi := Ntohl(LoadLE32(data[..4])));
      loc := loc.(lai := DecodeLai(data[4..9]), ustate := u);
      rc := 0;
    }

    /** subscr_sim_locigprs */
    method SimLocigprs(data: seq<bv8>, length: nat) returns (rc: int)
      requires Bcd.WellFormedBuffer(bcdResult[..]) && Backed(data, length) && length < 256
      modifies this`gprs
      ensures var o := ApplyLocigprs(old(Rec()), bcdResult[..], data, length);
        rc == o.rc && Rec() == o.rec
    {
      if length < LocigprsMinLength {
        return -EINVAL;
      }
      var status := data[13] & 0x07;
      var gu;
      if status == RauUpdated {
        gu := Gu1Updated;
      } else if status == RauPlmnNotAllowed || status == RauRaNotAllowed {
        gu := Gu3RoamingNa;
      } else {
        gu := Gu2NotUpdated;
      }
      gprs := gprs.(ptmsi := Ntohl(LoadLE32(data[..4])));
      // sig_hi is loaded from host memory as a 16-bit word, sig_lo follows it
      gprs := gprs.(ptmsiSig := SignatureOf(data[4], data[5], data[6]));
      gprs := gprs.(raiValid := true, rai := ParseRa(data[7..13]), guState := gu);
      rc := 0;
    }

    /** subscr_sim_msisdn: the number is the TON prefix, then the BCD digits decoded into the static buffer. */
    method SimMsisdn(data: seq<bv8>, length: nat) returns (rc: int)
      requires Bcd.WellFormedBuffer(bcdResult[..]) && Backed(data, length) && length < 256
      modifies this`ids, bcdResult
      ensures var o := ApplyMsisdn(old(Rec()), old(bcdResult[..]), data, length);
        rc == o.rc && Rec() == o.rec && bcdResult[..] == o.buf
    {
      ghost var r0, b0 := Rec(), bcdResult[..];
      if length < AdnSize {
        return -EINVAL;
      }
      ApplyMsisdnAt(r0, b0, data, length);
      rc := MsisdnNumber(data, length - AdnSize);
    }

    /** The number in the ADN trailer at adn, its digits decoded into the static buffer. */
    method MsisdnNumber(data: seq<bv8>, adn: nat) returns (rc: int)
      requires Bcd.WellFormedBuffer(bcdResult[..]) && adn + AdnSize + 16 <= |data|
      modifies this`ids, bcdResult
      ensures var o := MsisdnAt(old(bcdResult[..]), data, adn);
        rc == 0 && bcdResult[..] == o.buf && Rec() == old(Rec()).(ids := old(ids).(msisdn := o.msisdn.value))
    {
      if data[adn] <= 1 {
        ids := ids.(msisdn := "");
        return 0;
      }
      var number := DecodeBcd(data[adn + 2..], (data[adn] - 1) as nat);
      // the TON prefix, then the digits
      ids := ids.(msisdn := TonPrefix(data[adn + 1]) + number);
      rc := 0;
    }

    /** subscr_sim_smsp: the service centre address, when the record gives one. */
    method SimSmsp(data: seq<bv8>, length: nat) returns (rc: int)
      requires Bcd.WellFormedBuffer(bcdResult[..]) && Backed(data, length) && length < 256
      modifies this`ids
      ensures var o := ApplySmsp(old(Rec()), bcdResult[..], data, length);
        rc == o.rc && Rec() == o.rec
    {
      if length < SmspSize {
        return -EINVAL;
      }
      // the SMSP structure ends the record: par_ind is its byte 0, ts_sca its bytes 13-24
      var parInd := data[length - SmspSize];
      ids := ids.(smsSca := "");
      var sca := data[length - SmspSize + 13..length - SmspSize + 25];
      if parInd & 0x02 == 0 && sca[0] <= 11 {
        if (sca[1] & 0x70) >> 4 == 1 {
          ids := ids.(smsSca := "+");
        }
        if (sca[1] & 0x70) >> 4 == 2 {
          ids := ids.(smsSca := "0");
        }
        ids := ids.(smsSca := ids.smsSca + BcdNumber(sca));
      }
      rc := 0;
    }

    /** subscr_sim_kc */
    method SimKc(data: seq<bv8>, length: nat) returns (rc: int)
      requires Bcd.WellFormedBuffer(bcdResult[..]) && Backed(data, length) && length < 256
      modifies this`cipher
      ensures var o := ApplyKc(old(Rec()), bcdResult[..], data, length);
        rc == o.rc && Rec() == o.rec
    {
      if length < KcSize {
        return -EINVAL;
      }
      cipher := cipher.(key := data[..8]);
      cipher := cipher.(keySeq := data[8] & 0x07);
      rc := 0;
    }

    /** subscr_sim_plmnsel, decoding each triplet with osmo_plmn_from_bcd. */
    method SimPlmnsel(data: seq<bv8>, length: nat) returns (rc: int)
      requires Bcd.WellFormedBuffer(bcdResult[..]) && Backed(data, length) && length < 256
      modifies this`plmnList
      ensures rc == 0 && Rec() == old(Rec()).(plmnList := Triplets(data, length))
    {
      FlushPlmnList();
      AddPlmnList(data, length);
      rc := 0;
    }

    /** The flush loop of subscr_sim_plmnsel: unlink entries until the list is empty. */
    method FlushPlmnList()
      modifies this`plmnList
      ensures plmnList == []
    {
      while plmnList != []
        decreases |plmnList|
      {
        plmnList := plmnList[1..];
      }
    }

    /** The triplet loop of subscr_sim_plmnsel: each PLMN before the end or the filler is appended. */
    method AddPlmnList(data: seq<bv8>, length: nat)
      requires length <= |data|
      modifies this`plmnList
      ensures plmnList == old(plmnList) + Triplets(data, length)
    {
      var d, n: nat := data, length;
      while n >= 3
        invariant n <= |d| && plmnList + Triplets(d, n) == old(plmnList) + Triplets(data, length)
        decreases n
      {
        // end of list inside the mandatory fields
        if d[0] == 0xff && d[1] == 0xff && d[2] == 0xff {
          assert d[..3] == FillerTriplet;
          assert Triplets(d, n) == [];
          break;
        }
        ghost var before := plmnList;
        TripletsStep(d, n);
        plmnList := plmnList + [PlmnFromBcd(d[..3])];
        assert plmnList + Triplets(d[3..], n - 3) == before + Triplets(d, n);
        d, n := d[3..], n - 3;
      }
    }

    /** subscr_sim_hpplmn */
    method SimHpplmn(data: seq<bv8>, length: nat) returns (rc: int)
      requires Bcd.WellFormedBuffer(bcdResult[..]) && Backed(data, length) && length < 256
      modifies this`access
      ensures var o := ApplyHpplmn(old(Rec()), bcdResult[..], data, length);
        rc == o.rc && Rec() == o.rec
    {
      if length < 1 {
        return -EINVAL;
      }
      // the search interval, in multiples of six minutes
      access := access.(t6mHplmn := data[0]);
      rc := 0;
    }

    /** subscr_sim_spn: up to 16 name bytes, stopping at FF. */
    method SimSpn(data: seq<bv8>, length: nat) returns (rc: int)
      requires Bcd.WellFormedBuffer(bcdResult[..]) && Backed(data, length) && length < 256
      modifies this`ids
      ensures var o := ApplySpn(old(Rec()), bcdResult[..], data, length);
        rc == o.rc && Rec() == o.rec
    {
      // UCS2 names are not supported
      if length < SpnSize + 1 || data[1] >= 0x80 {
        return -ENOTSUP;
      }
      var name := data[1..SpnSize + 1];
      var spn: string := "";
      var i := 0;
      while i < SpnSize
        invariant 0 <= i <= SpnSize && |spn| == i
        invariant forall k :: 0 <= k < i ==> name[k] != 0xff && spn[k] == name[k] as char
      {
        if name[i] == 0xff {
          break;
        }
        spn := spn + [name[i] as char];
        i := i + 1;
      }
      TakeUntilFfUnique(name, spn);
      ids := ids.(spn := spn);
      rc := 0;
    }

    /** subscr_sim_acc: the two bytes are copied into a 16-bit word and converted from network order. */
    method SimAcc(data: seq<bv8>, length: nat) returns (rc: int)
      requires Bcd.WellFormedBuffer(bcdResult[..]) && Backed(data, length) && length < 256
      modifies this`access
      ensures var o := ApplyAcc(old(Rec()), bcdResult[..], data, length);
        rc == o.rc && Rec() == o.rec
    {
      if length < 2 {
        return -EINVAL;
      }
      var ac := LoadLE16(data[0], data[1]);
      access := access.(accClass := Ntohs(ac));
      rc := 0;
    }

    /** subscr_sim_fplmn, decoding each triplet with osmo_plmn_from_bcd; the card stores no cause. */
    method SimFplmn(data: seq<bv8>, length: nat) returns (rc: int)
      requires Bcd.WellFormedBuffer(bcdResult[..]) && Backed(data, length) && length < 256
      modifies this`plmnNa
      ensures rc == 0 && Rec() == old(Rec()).(plmnNa := Unknown(Triplets(data, length)))
    {
      FlushPlmnNa();
      AddPlmnNa(data, length);
      rc := 0;
    }

    /** The flush loop of subscr_sim_fplmn. */
    method FlushPlmnNa()
      modifies this`plmnNa
      ensures plmnNa == []
    {
      while plmnNa != []
        decreases |plmnNa|
      {
        plmnNa := plmnNa[1..];
      }
    }

    /** The triplet loop of subscr_sim_fplmn: each PLMN before the end or the filler is appended with cause -1. */
    method AddPlmnNa(data: seq<bv8>, length: nat)
      requires length <= |data|
      modifies this`plmnNa
      ensures plmnNa == old(plmnNa) + Unknown(Triplets(data, length))
    {
      var d, n: nat := data, length;
      while n >= 3
        invariant n <= |d| && plmnNa + Unknown(Triplets(d, n)) == old(plmnNa) + Unknown(Triplets(data, length))
        decreases n
      {
        // end of list inside the mandatory fields
        if d[0] == 0xff && d[1] == 0xff && d[2] == 0xff {
          assert d[..3] == FillerTriplet;
          assert Unknown(Triplets(d, n)) == [];
          break;
        }
        ghost var before := plmnNa;
        FplmnStep(d, n, before);
        plmnNa := plmnNa + [PlmnNa(PlmnFromBcd(d[..3]), -1)];
        assert plmnNa + Unknown(Triplets(d[3..], n - 3)) == before + Unknown(Triplets(d, n));
        d, n := d[3..], n - 3;
      }
    }

    /** The decoder of a table entry (subscr_sim_files[].func). */
    method DecodeFile(dec: Decoder, data: seq<bv8>, length: nat) returns (rc: int)
      requires Valid() && Backed(data, length) && length < 256
      modifies this`sim, this`ids, this`loc, this`cipher, this`gprs, this`access, this`plmnList, this`plmnNa, bcdResult
      ensures Valid()
      ensures var o := ApplyDecode(old(Rec()), old(bcdResult[..]), dec, data, length);
        rc == o.rc && Rec() == o.rec && bcdResult[..] == o.buf
    {
      match dec
      case IccidFile => rc := SimIccid(data, length);
      case ImsiFile => rc := SimImsi(data, length);
      case LociFile => rc := SimLoci(data, length);
      case LocigprsFile => rc := SimLocigprs(data, length);
      case KcFile => rc := SimKc(data, length);
      case PlmnselFile => rc := SimPlmnsel(data, length);
      case HpplmnFile => rc := SimHpplmn(data, length);
      case SpnFile => rc := SimSpn(data, length);
      case AccFile => rc := SimAcc(data, length);
      case FplmnFile => rc := SimFplmn(data, length);
      case MsisdnFile => rc := SimMsisdn(data, length);
      case SmspFile => rc := SimSmsp(data, length);
    }

    /** The error branch of subscr_sim_query_cb: a PIN prompt, skipping an optional file, or giving up on the card. */
    method QueryErrorAnswer(cause: SimCause, tries: bv8)
      requires sim.fileIndex <= LastFileIndex
      modifies this`sim, this`loc, this`jobs, this`events, this`notices
      ensures var a := QueryError(old(Rec()), bcdResult[..], cause, tries);
        Rec() == a.rec && Out() == Then(old(Out()), a.out)
    {
      if IsPinCause(cause) {
        PinAnswer(cause, tries);
      } else {
        FailedAnswer(cause);
      }
    }

    /** A PIN cause: prompt for the PIN (or the PUC) and mark it required. */
    method PinAnswer(cause: SimCause, tries: bv8)
      requires sim.fileIndex <= LastFileIndex && IsPinCause(cause)
      modifies this`sim, this`notices
      ensures var a := QueryError(old(Rec()), bcdResult[..], cause, tries);
        Rec() == a.rec && Out() == Then(old(Out()), a.out)
    {
      match cause {
        case Pin1Required =>
          Notify(Clear);
          Notify(PinPrompt(ids.iccid, tries));
        case Pin1Blocked =>
          Notify(Clear);
          Notify(PinIsBlocked);
          if tries != 0 {
            Notify(PucPrompt(ids.iccid, tries));
          }
        case PucBlocked =>
          Notify(Clear);
          Notify(PucIsBlocked);
      }
      sim := sim.(pinRequired := true);
    }

    /** Any other cause: skip an optional file, or give up on the card. */
    method FailedAnswer(cause: SimCause)
      requires sim.fileIndex <= LastFileIndex && cause.OtherCause?
      modifies this`sim, this`loc, this`jobs, this`events, this`notices
      ensures var a := QueryError(old(Rec()), bcdResult[..], cause, 0);
        Rec() == a.rec && Out() == Then(old(Out()), a.out)
    {
      FileEntryAt(sim.fileIndex);
      var sf := FileTable[sim.fileIndex];
      if sf.decoder.Some? && !sf.mandatory {
        // ignore: go on with the next file
        Next();
      } else {
        GiveUp();
      }
    }

    /** Advance the cursor and request the next table entry. */
    method Next()
      requires sim.fileIndex < LastFileIndex
      modifies this`sim, this`loc, this`jobs, this`events
      ensures var a := Advance(old(Rec()), bcdResult[..]);
        Rec() == a.rec && Out() == Then(old(Out()), a.out)
    {
      sim := sim.(fileIndex := sim.fileIndex + 1);
      var rc := Request();
    }

    /** Tell the user the card failed and detach it. */
    method GiveUp()
      modifies this`sim, this`events, this`notices
      ensures Rec() == old(Rec()).(sim := old(sim).(valid := false))
      ensures Out() == Then(old(Out()), Effects([], [Detached], [Clear, SimFailed], []))
    {
      Notify(Clear);
      Notify(SimFailed);
      // detach the card
      sim := sim.(valid := false);
      Dispatch(Detached);
    }

    /** The data branch of subscr_sim_query_cb with no PIN pending: decode the current file, then trigger the next. */
    method QueryDataAnswer(data: seq<bv8>, length: nat)
      requires Valid() && Backed(data, length) && length < 256
      modifies this`sim, this`ids, this`loc, this`cipher, this`gprs, this`access, this`plmnList, this`plmnNa
      modifies bcdResult, this`jobs, this`events, this`notices
      ensures Valid()
      ensures var a := QueryData(old(Rec()), old(bcdResult[..]), data, length);
        Rec() == a.rec && bcdResult[..] == a.buf && Out() == Then(old(Out()), a.out)
    {
      FileEntryAt(sim.fileIndex);
      var sf := FileTable[sim.fileIndex];
      // done when nothing more is to be read
      if sf.decoder.None? {
        return;
      }
      var rc := DecodeFile(sf.decoder.value, data, length);
      Continue(rc, sf.mandatory);
    }

    /** After the decoder returned rc: a mandatory file that failed is reported and reading stops; otherwise the next file is requested. */
    method Continue(rc: int, mandatory: bool)
      requires sim.fileIndex < LastFileIndex
      modifies this`sim, this`loc, this`jobs, this`events, this`notices
      ensures var a := AfterDecode(Decoded(rc, old(Rec()), bcdResult[..]), mandatory);
        Rec() == a.rec && Out() == Then(old(Out()), a.out)
    {
      if rc != 0 && mandatory {
        Notify(Clear);
        Notify(DataInvalid);
      } else {
        // trigger the next file
        Next();
      }
    }

    /**
     * subscr_sim_query_cb: an answer on the query handle.  A data answer's
     * length reaches the decoder truncated to 8 bits; slack is what follows
     * the payload in the message buffer.
     */
    method QueryCallback(resp: QueryResponse, slack: seq<bv8>)
      requires Valid() && |slack| >= 16
      modifies this`sim, this`ids, this`loc, this`cipher, this`gprs, this`access, this`plmnList, this`plmnNa
      modifies bcdResult, this`jobs, this`events, this`notices
      ensures Valid()
      ensures var a := QueryStep(old(Rec()), old(bcdResult[..]), resp, slack);
        Rec() == a.rec && bcdResult[..] == a.buf && Out() == Then(old(Out()), a.out)
    {
      match resp
      case ErrorResponse(cause, tries) =>
        QueryErrorAnswer(cause, tries);
      case DataResponse(payload) =>
        if sim.pinRequired {
          // the PIN was accepted: request the same file again
          sim := sim.(pinRequired := false);
          var rc := Request();
        } else {
          QueryDataAnswer(payload + slack, |payload| % 256);
        }
    }

    // ---------------------------------------------------------------
    // PIN
    // ---------------------------------------------------------------

    /** gsm_subscr_sim_pin */
    method SimPin(pin1: seq<bv8>, pin2: seq<bv8>, mode: int8) returns (rc: int)
      requires Valid()
      requires CStr(pin1) && CStr(pin2)
      modifies this`jobs
      ensures Valid()
      ensures var s := PinStep(Rec(), pin1, pin2, mode);
        rc == s.rc && jobs == old(jobs) + s.out.jobs
    {
      // nothing without a valid card; the test SIM does not implement PINs
      if sim.simType == SimNone || !sim.valid || sim.simType == TestSim {
        return 0;
      }
      rc := PinSimcard(pin1, pin2, mode);
    }

    /** gsm_subscr_sim_pin_simcard: the job for the mode, carrying both PINs with their NULs. */
    method PinSimcard(pin1: seq<bv8>, pin2: seq<bv8>, mode: int8) returns (rc: int)
      requires CStr(pin1) && CStr(pin2)
      modifies this`jobs
      ensures var k := PinJobKind(mode, sim.pinRequired);
        && rc == 0
        && jobs == old(jobs) + if k.None? then [] else [Job(QueryHandle, k.value, [], 0, 0, 0, PinPayload(pin1, pin2))]
    {
      var job;
      if mode == -1 {
        job := Pin1Disable;
      } else if mode == 1 {
        job := Pin1Enable;
      } else if mode == 2 {
        job := Pin1Change;
      } else if mode == 99 {
        job := Pin1Unblock;
      } else {
        if !sim.pinRequired {
          // no PIN is asked for now
          return 0;
        }
        job := Pin1Unlock;
      }
      SimJob(Job(QueryHandle, job, [], 0, 0, 0, pin1 + [0] + pin2 + [0]));
      rc := 0;
    }

    // ---------------------------------------------------------------
    // authentication
    // ---------------------------------------------------------------

    /** gsm_subscr_generate_kc; auth is what osmo_auth_gen_vec2 computes for the test SIM. */
    method GenerateKc(keySeq: bv8, rand: seq<bv8>, noSim: bool, auth: AuthVector) returns (rc: int)
      requires Valid()
      requires |rand| == 16 && |auth.sres| == 4
      modifies this`cipher, this`jobs, this`events
      ensures Valid()
      ensures var s := GenerateKcStep(old(Rec()), keySeq, rand, noSim, auth);
        rc == s.rc && Rec() == s.rec && Out() == Then(old(Out()), s.out)
    {
      if noSim || sim.simType == SimNone || !sim.valid {
        // the dummy authentication response
        Dispatch(AuthResp([0x12, 0x34, 0x56, 0x78]));
        return 0;
      }
      if sim.simType == TestSim {
        rc := GenerateKcTestcard(keySeq, auth);
      } else {
        rc := GenerateKcSimcard(keySeq, rand);
      }
    }

    /** gsm_subscr_generate_kc_testcard: the vector is computed locally; a failure is passed on. */
    method GenerateKcTestcard(keySeq: bv8, auth: AuthVector) returns (rc: int)
      requires |auth.sres| == 4
      modifies this`cipher, this`events
      ensures auth.ret < 0 ==> rc == auth.ret && cipher == old(cipher) && events == old(events)
      ensures auth.ret >= 0 ==> rc == 0 && cipher == Cipher(auth.kc, keySeq) && events == old(events) + [AuthResp(auth.sres)]
    {
      if auth.ret < 0 {
        return auth.ret;
      }
      // store the sequence and the key
      cipher := cipher.(keySeq := keySeq);
      cipher := cipher.(key := auth.kc);
      Dispatch(AuthResp(auth.sres));
      rc := 0;
    }

    /** gsm_subscr_generate_kc_simcard: RUN GSM ALGORITHM with the random bytes, the sequence stored meanwhile. */
    method GenerateKcSimcard(keySeq: bv8, rand: seq<bv8>) returns (rc: int)
      requires |rand| == 16
      modifies this`cipher, this`jobs
      ensures rc == 0 && cipher == old(cipher).(keySeq := keySeq)
      ensures jobs == old(jobs) + [Job(KeyHandle, RunGsmAlgo, [DfGsm], 0, 0, 0, rand)]
    {
      cipher := cipher.(keySeq := keySeq);
      SimJob(Job(KeyHandle, RunGsmAlgo, [DfGsm], 0, 0, 0, rand));
      rc := 0;
    }

    /** subscr_sim_key_cb: store Kc, write it back to EF Kc with the stored sequence, signal SRES. */
    method KeyCallback(resp: KeyResponse)
      requires Valid()
      modifies this`cipher, this`jobs, this`events
      ensures Valid()
      ensures var t := KeyStep(old(Rec()), resp);
        Rec() == t.rec && Out() == Then(old(Out()), t.out)
    {
      if resp.KeyError? {
        return;
      }
      var payload := resp.payload;
      if |payload| < 12 {
        // too short an answer
        return;
      }
      cipher := cipher.(key := payload[4..12]);
      SimJob(UpdateJob(0x6f20, cipher.key + [cipher.keySeq]));
      Dispatch(AuthResp(payload[..4]));
    }

    /** gsm_subscr_get_key_seq */
    method GetKeySeq(forceRekey: bool) returns (k: int)
      ensures k == KeySeqFor(Rec(), forceRekey) as int
      ensures 0 <= k < 256
    {
      if forceRekey {
        return 7;
      }
      k := cipher.keySeq as int;
    }

    // ---------------------------------------------------------------
    // write-back
    // ---------------------------------------------------------------

    /** gsm_subscr_write_loci */
    method WriteLoci() returns (rc: int)
      requires Valid()
      modifies this`jobs
      ensures Valid()
      ensures rc == 0 && jobs == old(jobs) + LociWrite(Rec())
    {
      if sim.simType == SimNone || !sim.valid || sim.simType == TestSim {
        return 0;
      }
      rc := WriteLociSimcard();
    }

    /** gsm_subscr_write_loci_simcard: TMSI in network order, the LAI, TMSI time FF, the update status. */
    method WriteLociSimcard() returns (rc: int)
      modifies this`jobs
      ensures rc == 0 && jobs == old(jobs) + [UpdateJob(0x6f7e, LociImage(loc.tmsi, loc.lai, loc.ustate))]
    {
      var status: bv8;
      match loc.ustate {
        case U1Updated => status := LupdUpdated;
        case U3RoamingNa => status := LupdLaNotAllowed;
        case _ => status := LupdNotUpdated;
      }
      var data := StoreLE32(Htonl(loc.tmsi)) + GenerateLai(loc.lai) + [0xff, status];
      SimJob(UpdateJob(0x6f7e, data));
      rc := 0;
    }

    /** gsm_subscr_write_locigprs: a reader, or the test SIM backend, which writes only to a reader. */
    method WriteLocigprs() returns (rc: int)
      requires Valid()
      modifies this`jobs
      ensures Valid()
      ensures rc == 0 && jobs == old(jobs) + LocigprsWrite(Rec())
    {
      if sim.simType == SimNone || !sim.valid {
        return 0;
      }
      if sim.simType == TestSim {
        rc := WriteLocigprsTestcard();
      } else {
        rc := WriteLocigprsSimcard();
      }
    }

    /** gsm_subscr_write_locigprs_simcard: the signature bytes come from htonl(ptmsi). */
    method WriteLocigprsSimcard() returns (rc: int)
      modifies this`jobs
      ensures rc == 0 && jobs == old(jobs) + [UpdateJob(0x6f53, LocigprsImage(gprs.ptmsi, gprs.rai, gprs.guState))]
    {
      var status: bv8;
      match gprs.guState {
        case Gu1Updated => status := RauUpdated;
        case Gu3RoamingNa => status := RauRaNotAllowed;
        case _ => status := RauNotUpdated;
      }
      // P-TMSI, and the signature fields, all from htonl(ptmsi)
      var data := FieldsOf(Htonl(gprs.ptmsi)) + EncodeRa(gprs.rai) + [status];
      SimJob(UpdateJob(0x6f53, data));
      rc := 0;
    }

    /** gsm_subscr_write_locigprs_testcard: it writes only when its card is a reader, which the test SIM is not. */
    method WriteLocigprsTestcard() returns (rc: int)
      modifies this`jobs
      ensures rc == 0 && jobs == old(jobs) + LocigprsWrite(Rec())
    {
      if !IsReader(sim.simType) || !sim.valid {
        return 0;
      }
      rc := WriteLocigprsSimcard();
    }

    /** subscr_write_plmn_na */
    method WritePlmnNa() returns (rc: int)
      requires Valid()
      modifies this`jobs
      ensures Valid()
      ensures rc == 0 && jobs == old(jobs) + PlmnNaWrite(Rec())
    {
      if sim.simType == SimNone || !sim.valid || sim.simType == TestSim {
        return 0;
      }
      rc := WritePlmnNaSimcard();
    }

    /** subscr_write_plmn_na_simcard: the last four forbidden PLMNs into the 12 bytes of EF FPLMN. */
    method WritePlmnNaSimcard() returns (rc: int)
      modifies this`jobs
      ensures rc == 0 && jobs == old(jobs) + [UpdateJob(0x6f7b, FplmnImage(plmnNa))]
    {
      var data := FplmnUpdateData(plmnNa);
      SimJob(UpdateJob(0x6f7b, data));
      rc := 0;
    }

    // ---------------------------------------------------------------
    // forbidden PLMNs
    // ---------------------------------------------------------------

    /** gsm_subscr_del_forbidden_plmn; None stands for the NULL PLMN, which flushes the list. */
    method DelForbiddenPlmn(plmn: Option<Plmn>) returns (rc: int)
      requires Valid()
      modifies this`plmnNa, this`jobs
      ensures Valid()
      ensures var s := DelStep(old(Rec()), plmn);
        rc == s.rc && Rec() == s.rec && jobs == old(jobs) + s.out.jobs
    {
      var deleted;
      if plmn.None? {
        deleted := plmnNa != [];
        FlushPlmnNa();
      } else {
        deleted := RemovePlmnNa(plmn.value);
      }
      if deleted {
        // update the list on the card
        rc := WritePlmnNa();
      }
      rc := -EINVAL;
    }

    /** The search loop of gsm_subscr_del_forbidden_plmn: the first entry for p is unlinked. */
    method RemovePlmnNa(p: Plmn) returns (deleted: bool)
      modifies this`plmnNa
      ensures deleted == Contains(old(plmnNa), p) && plmnNa == RemoveFirst(old(plmnNa), p)
    {
      var i := 0;
      while i < |plmnNa|
        invariant 0 <= i <= |plmnNa| && plmnNa == old(plmnNa)
        invariant forall k :: 0 <= k < i ==> plmnNa[k].plmn != p
      {
        if plmnNa[i].plmn == p {
          RemoveFirstAt(plmnNa, p, i);
          plmnNa := plmnNa[..i] + plmnNa[i + 1..];
          return true;
        }
        i := i + 1;
      }
      RemoveFirstAbsent(plmnNa, p);
      return false;
    }

    /** gsm_subscr_add_forbidden_plmn: remove, append at the tail, update the card unless it is the home PLMN. */
    method AddForbiddenPlmn(plmn: Plmn, cause: bv8) returns (rc: int)
      requires Valid()
      modifies this`plmnNa, this`jobs
      ensures Valid()
      ensures var s := AddStep(old(Rec()), plmn, cause);
        rc == s.rc && Rec() == s.rec && jobs == old(jobs) + s.out.jobs
    {
      ghost var d := DelStep(Rec(), Some(plmn));
      ghost var before := jobs;
      rc := DelForbiddenPlmn(Some(plmn));
      ghost var t := AppendStep(d.rec, plmn, cause);
      ghost var between := jobs;
      rc := AppendForbiddenPlmn(plmn, cause);
      assert jobs == between + t.out.jobs && between == before + d.out.jobs;
      assert jobs == before + (d.out.jobs + t.out.jobs);
    }

    /** Append at the tail (cause 0 is stored as -1); update the card unless it is the home PLMN. */
    method AppendForbiddenPlmn(plmn: Plmn, cause: bv8) returns (rc: int)
      requires Valid()
      modifies this`plmnNa, this`jobs
      ensures Valid()
      ensures var s := AppendStep(old(Rec()), plmn, cause);
        rc == s.rc && Rec() == s.rec && jobs == old(jobs) + s.out.jobs
    {
      plmnNa := plmnNa + [PlmnNa(plmn, if cause != 0 then cause as int else -1)];
      // the home PLMN is not written to the card
      if sim.valid && MatchesHome(plmn, ids.imsi) {
        return -EINVAL;
      }
      rc := WritePlmnNa();
    }

    /** gsm_subscr_is_forbidden_plmn */
    method IsForbiddenPlmn(plmn: Plmn) returns (found: int)
      ensures found == 0 || found == 1
      ensures found == 1 <==> Contains(plmnNa, plmn)
    {
      var i := 0;
      while i < |plmnNa|
        invariant 0 <= i <= |plmnNa|
        invariant forall k :: 0 <= k < i ==> plmnNa[k].plmn != plmn
      {
        if plmnNa[i].plmn == plmn {
          return 1;
        }
        i := i + 1;
      }
      found := 0;
    }

    // ---------------------------------------------------------------
    // SAP
    // ---------------------------------------------------------------

    /**
     * gsm_subscr_sap_rsp_cb: param is the response parameter (None for a
     * NULL pointer), apduRc what sim_apdu_resp returns.
     */
    method SapRspCallback(res: SapResult, msg: SapMsgType, param: Option<seq<bv8>>, apduRc: int) returns (rc: int)
      requires Valid()
      modifies this`loc, this`jobs, this`events, this`sapCalls
      ensures Valid()
      ensures var s := SapStep(old(Rec()), res, msg, param, apduRc);
        rc == s.rc && Rec() == s.rec && Out() == Then(old(Out()), s.out)
    {
      // the parameter is not encoded in an error response
      if res != SapOk {
        return 0;
      }
      match msg
      case TransferApduResp =>
        if param.None? || |param.value| == 0 {
          return -EINVAL;
        }
        CallSap(ApduResp(param.value));
        rc := apduRc;
      case TransferAtrResp =>
        // the card is ready: read it
        rc := Request();
      case OtherMsg(_) =>
        rc := -ENOTSUP;
    }
  }
}
