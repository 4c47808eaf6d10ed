/**
 * The subscriber's two PLMN lists: the PLMN selector list read from
 * EF PLMNsel and the list of forbidden ("not allowed") PLMNs, which
 * the mobility management code extends and which is mirrored into the
 * card's four-slot EF FPLMN.
 */
module PlmnLists {
  import opened GsmCodec

  /** struct gsm_sub_plmn_na: a forbidden PLMN and the reject cause (-1 when none is known). */
  datatype PlmnNa = PlmnNa(plmn: Plmn, cause: int)

  /** The number of slots of EF FPLMN. */
  const FplmnSlots := 4

  /** The cause stored for a new entry: cause 0 is not allowed and becomes -1. */
  function StoredCause(cause: bv8): (c: int)
    ensures c != 0
    ensures cause != 0 ==> c == cause as int
  {
    if cause == 0 then -1 else cause as int
  }

  /** The list contains an entry for p: what gsm_subscr_is_forbidden_plmn reports. */
  predicate Contains(l: seq<PlmnNa>, p: Plmn)
  {
    exists i :: 0 <= i < |l| && l[i].plmn == p
  }

  /** Number of entries for p. */
  function Count(l: seq<PlmnNa>, p: Plmn): (n: nat)
    ensures n <= |l|
  {
    if l == [] then 0 else (if l[0].plmn == p then 1 else 0) + Count(l[1..], p)
  }

  /** No PLMN appears twice. */
  predicate NoDuplicates(l: seq<PlmnNa>)
  {
    forall i, j :: 0 <= i < j < |l| ==> l[i].plmn != l[j].plmn
  }

  /** The list without its first entry for p (the list itself when there is none). */
  function RemoveFirst(l: seq<PlmnNa>, p: Plmn): seq<PlmnNa>
  {
    if l == [] then []
    else if l[0].plmn == p then l[1..]
    else [l[0]] + RemoveFirst(l[1..], p)
  }

  /** The list after gsm_subscr_add_forbidden_plmn: any old entry for p removed, the new one at the tail. */
  function Add(l: seq<PlmnNa>, p: Plmn, cause: bv8): seq<PlmnNa>
  {
    RemoveFirst(l, p) + [PlmnNa(p, StoredCause(cause))]
  }

  lemma {:induction false} CountZero(l: seq<PlmnNa>, p: Plmn)
    ensures Count(l, p) == 0 <==> !Contains(l, p)
  {
    if l != [] {
      CountZero(l[1..], p);
      if l[0].plmn != p {
        if Contains(l, p) {
          var i :| 0 <= i < |l| && l[i].plmn == p;
          assert l[1..][i - 1].plmn == p;
        }
        if Contains(l[1..], p) {
          var i :| 0 <= i < |l[1..]| && l[1..][i].plmn == p;
          assert l[i + 1].plmn == p;
        }
      } else {
        assert l[0].plmn == p;
      }
    }
  }

  /** Without an entry for p, removing p changes nothing. */
  lemma {:induction false} RemoveFirstAbsent(l: seq<PlmnNa>, p: Plmn)
    requires !Contains(l, p)
    ensures RemoveFirst(l, p) == l
  {
    if l != [] {
      assert l[0].plmn != p;
      forall i | 0 <= i < |l| - 1 ensures l[1..][i].plmn != p {
        assert l[1..][i] == l[i + 1];
      }
      RemoveFirstAbsent(l[1..], p);
      assert [l[0]] + l[1..] == l;
    }
  }

  /**
   * With the first entry for p at position i, removing p takes out exactly
   * that entry and keeps the order of the others.
   */
  lemma {:induction false} RemoveFirstAt(l: seq<PlmnNa>, p: Plmn, i: nat)
    requires i < |l| && l[i].plmn == p
    requires forall j :: 0 <= j < i ==> l[j].plmn != p
    ensures RemoveFirst(l, p) == l[..i] + l[i + 1..]
  {
    if i == 0 {
      assert l[..0] + l[1..] == l[1..];
    } else {
      assert l[0].plmn != p;
      var t := l[1..];
      forall j | 0 <= j < i - 1 ensures t[j].plmn != p {
        assert t[j] == l[j + 1];
      }
      RemoveFirstAt(t, p, i - 1);
      assert [l[0]] + (t[..i - 1] + t[i..]) == l[..i] + l[i + 1..];
    }
  }

  /** Removing p lowers its count by one when present, and leaves every other PLMN's count alone. */
  lemma {:induction false} RemoveFirstCount(l: seq<PlmnNa>, p: Plmn, q: Plmn)
    ensures Count(RemoveFirst(l, p), q) ==
      if q == p && Count(l, p) > 0 then Count(l, q) - 1 else Count(l, q)
  {
    if l != [] {
      RemoveFirstCount(l[1..], p, q);
      if l[0].plmn != p {
        var r := [l[0]] + RemoveFirst(l[1..], p);
        assert r[1..] == RemoveFirst(l[1..], p);
      }
    }
  }

  lemma {:induction false} RemoveFirstLength(l: seq<PlmnNa>, p: Plmn)
    ensures |RemoveFirst(l, p)| == if Count(l, p) > 0 then |l| - 1 else |l|
  {
    if l != [] {
      RemoveFirstLength(l[1..], p);
    }
  }

  lemma {:induction false} CountAppend(a: seq<PlmnNa>, b: seq<PlmnNa>, q: Plmn)
    ensures Count(a + b, q) == Count(a, q) + Count(b, q)
  {
    if a == [] {
      assert a + b == b;
    } else {
      assert (a + b)[1..] == a[1..] + b;
      CountAppend(a[1..], b, q);
    }
  }

  /**
   * Adding a PLMN: it is then listed exactly once when it was listed at most
   * once before, at the tail with the stored cause, and every other PLMN keeps
   * its count; the list grows by one only when p was not in it.
   */
  lemma AddSpec(l: seq<PlmnNa>, p: Plmn, cause: bv8, q: Plmn)
    requires Count(l, p) <= 1
    ensures var l' := Add(l, p, cause);
      && |l'| > 0 && l'[|l'| - 1] == PlmnNa(p, StoredCause(cause))
      && Count(l', p) == 1
      && (q != p ==> Count(l', q) == Count(l, q))
      && |l'| == if Contains(l, p) then |l| else |l| + 1
  {
    var r := RemoveFirst(l, p);
    var tail := [PlmnNa(p, StoredCause(cause))];
    CountAppend(r, tail, p);
    CountAppend(r, tail, q);
    RemoveFirstCount(l, p, p);
    RemoveFirstCount(l, p, q);
    assert Count(tail, p) == 1 by { assert tail[1..] == []; }
    assert q != p ==> Count(tail, q) == 0 by { assert tail[1..] == []; }
    CountZero(l, p);
    RemoveFirstLength(l, p);
  }

  /** In a list without duplicates each PLMN is counted at most once. */
  lemma {:induction false} NoDuplicatesCount(l: seq<PlmnNa>, p: Plmn)
    requires NoDuplicates(l)
    ensures Count(l, p) <= 1
  {
    if l != [] {
      NoDuplicatesCount(l[1..], p);
      if l[0].plmn == p {
        forall i | 0 <= i < |l| - 1 ensures l[1..][i].plmn != p {
          assert l[1..][i] == l[i + 1];
        }
        CountZero(l[1..], p);
      }
    }
  }

  /** A list in which every PLMN has count at most one has no duplicates. */
  lemma {:induction false} CountNoDuplicates(l: seq<PlmnNa>)
    requires forall q :: Count(l, q) <= 1
    ensures NoDuplicates(l)
  {
    if l != [] {
      forall q ensures Count(l[1..], q) <= 1 {
        assert Count(l, q) <= 1;
      }
      CountNoDuplicates(l[1..]);
      forall i, j | 0 <= i < j < |l|
        ensures l[i].plmn != l[j].plmn
      {
        if i == 0 {
          assert Count(l, l[0].plmn) <= 1;
          assert Count(l[1..], l[0].plmn) == 0;
          CountZero(l[1..], l[0].plmn);
          assert l[1..][j - 1] == l[j];
          assert l[1..][j - 1].plmn != l[0].plmn;
        } else {
          assert l[1..][i - 1] == l[i] && l[1..][j - 1] == l[j];
        }
      }
    }
  }

  /** Adding keeps the forbidden list free of duplicates. */
  lemma AddKeepsNoDuplicates(l: seq<PlmnNa>, p: Plmn, cause: bv8)
    requires NoDuplicates(l)
    ensures NoDuplicates(Add(l, p, cause))
    ensures Contains(Add(l, p, cause), p)
  {
    NoDuplicatesCount(l, p);
    forall q ensures Count(Add(l, p, cause), q) <= 1 {
      AddSpec(l, p, cause, q);
      NoDuplicatesCount(l, q);
    }
    CountNoDuplicates(Add(l, p, cause));
    AddSpec(l, p, cause, p);
    CountZero(Add(l, p, cause), p);
  }

  // ---------------------------------------------------------------
  // EF FPLMN image
  // ---------------------------------------------------------------

  /** The last (at most four) entries of the list: the ones written to the card. */
  function Window(l: seq<PlmnNa>): (w: seq<PlmnNa>)
    ensures |w| <= FplmnSlots && |w| <= |l|
    ensures |l| <= FplmnSlots ==> w == l
    ensures w == l[|l| - |w|..]
  {
    if |l| <= FplmnSlots then l else l[|l| - FplmnSlots..]
  }

  /** Concatenated three-byte encodings of the entries. */
  function EncodeEntries(w: seq<PlmnNa>): (b: seq<bv8>)
    ensures |b| == 3 * |w|
  {
    if w == [] then [] else PlmnToBcd(w[0].plmn) + EncodeEntries(w[1..])
  }

  function Filler(n: nat): (b: seq<bv8>)
    ensures |b| == 3 * n
  {
    if n == 0 then [] else FillerTriplet + Filler(n - 1)
  }

  /** The 12 bytes written to EF FPLMN: the window's PLMNs, then FF FF FF for each unused slot. */
  function FplmnImage(l: seq<PlmnNa>): (b: seq<bv8>)
    ensures |b| == 3 * FplmnSlots
  {
    var w := Window(l);
    EncodeEntries(w) + Filler(FplmnSlots - |w|)
  }

  /** The PLMNs of the entries. */
  function Plmns(l: seq<PlmnNa>): (ps: seq<Plmn>)
    ensures |ps| == |l|
    ensures forall i :: 0 <= i < |l| ==> ps[i] == l[i].plmn
  {
    if l == [] then [] else [l[0].plmn] + Plmns(l[1..])
  }

  /**
   * The PLMNs a list file of length bytes holds: three bytes each, up to the
   * first FF FF FF triplet or the end of the file (what the EF PLMNsel and
   * EF FPLMN decoders build, each entry decoded with osmo_plmn_from_bcd).
   */
  function Triplets(data: seq<bv8>, length: nat): (ps: seq<Plmn>)
    requires length <= |data|
    ensures |ps| <= length / 3
    decreases length
  {
    if length < 3 || data[..3] == FillerTriplet then []
    else [PlmnFromBcd(data[..3])] + Triplets(data[3..], length - 3)
  }

  /** A triplet that is not the filler is decoded and the rest of the payload follows. */
  lemma TripletsStep(data: seq<bv8>, length: nat)
    requires 3 <= length <= |data| && !(data[0] == 0xff && data[1] == 0xff && data[2] == 0xff)
    ensures Triplets(data, length) == [PlmnFromBcd(data[..3])] + Triplets(data[3..], length - 3)
  {
    assert data[..3] != FillerTriplet by {
      assert data[..3][0] == data[0] && data[..3][1] == data[1] && data[..3][2] == data[2];
    }
  }

  /** How many entries the decoders' loops add: one per triplet before the filler or the end. */
  function TripletCount(data: seq<bv8>, length: nat): (n: nat)
    requires length <= |data|
    decreases length
  {
    if length < 3 || data[..3] == FillerTriplet then 0
    else 1 + TripletCount(data[3..], length - 3)
  }

  /**
   * The list as the decoders at subscriber.c build it: they call the
   * encoder osmo_plmn_to_bcd(&data[0], &entry->plmn) on a zeroed entry, so
   * each entry keeps MCC 000, MNC 00 (and byte data is overwritten).
   */
  function TripletsAsWritten(data: seq<bv8>, length: nat): (ps: seq<Plmn>)
    requires length <= |data|
  {
    seq(TripletCount(data, length), _ => ZeroPlmn)
  }

  lemma {:induction false} TripletsCount(data: seq<bv8>, length: nat)
    requires length <= |data|
    ensures |Triplets(data, length)| == TripletCount(data, length)
    decreases length
  {
    if !(length < 3 || data[..3] == FillerTriplet) {
      TripletsCount(data[3..], length - 3);
    }
  }

  /** The discrepancy: a file holding 262-01 yields MCC 000 MNC 00 as written, 262-01 as intended. */
  lemma TripletsAsWrittenLosesPlmn()
    ensures TripletsAsWritten([0x62, 0xf2, 0x10], 3) == [ZeroPlmn]
    ensures Triplets([0x62, 0xf2, 0x10], 3) == [Plmn(262, 1, false)]
  {
    var d: seq<bv8> := [0x62, 0xf2, 0x10];
    assert d[..3] == d;
    assert d[..3] != FillerTriplet;
    assert TripletCount(d[3..], 0) == 0;
    assert Triplets(d[3..], 0) == [];
    assert TripletCount(d, 3) == 1;
  }

  /** As written, every entry is the zero PLMN whatever the card holds. */
  lemma TripletsAsWrittenAllZero(data: seq<bv8>, length: nat)
    requires length <= |data|
    ensures |TripletsAsWritten(data, length)| == |Triplets(data, length)|
    ensures forall i :: 0 <= i < |TripletsAsWritten(data, length)| ==> TripletsAsWritten(data, length)[i] == ZeroPlmn
  {
    TripletsCount(data, length);
  }

  /** The decoders read nothing beyond the length they are given. */
  lemma {:induction false} TripletsPrefix(a: seq<bv8>, b: seq<bv8>, length: nat)
    requires length <= |a|
    ensures Triplets(a + b, length) == Triplets(a, length)
    decreases length
  {
    if length >= 3 {
      assert (a + b)[..3] == a[..3];
      assert (a + b)[3..] == a[3..] + b;
      TripletsPrefix(a[3..], b, length - 3);
    }
  }

  lemma AppendAssoc(a: seq<bv8>, b: seq<bv8>, c: seq<bv8>)
    ensures (a + b) + c == a + (b + c)
  {
  }

  /** Unused slots read as the end of the list. */
  lemma TripletsOfFiller(n: nat)
    ensures Triplets(EncodeEntries([]) + Filler(n), 3 * (0 + n)) == []
  {
    assert EncodeEntries([]) + Filler(n) == Filler(n);
    if n > 0 {
      assert Filler(n)[..3] == FillerTriplet;
    }
  }

  /** An encoded PLMN in front of the rest of the image is read first. */
  lemma TripletsCons(e: seq<bv8>, rest: seq<bv8>, length: nat, restLength: nat, p: Plmn, tail: seq<Plmn>)
    requires |e| == 3 && e != FillerTriplet && restLength + 3 == length && restLength <= |rest|
    requires PlmnFromBcd(e) == p && Triplets(rest, restLength) == tail
    ensures Triplets(e + rest, length) == [p] + tail
  {
    assert (e + rest)[..3] == e;
    assert (e + rest)[3..] == rest;
  }

  lemma {:induction false} TripletsOfImage(w: seq<PlmnNa>, n: nat)
    requires forall i :: 0 <= i < |w| ==> ValidPlmn(w[i].plmn)
    ensures Triplets(EncodeEntries(w) + Filler(n), 3 * (|w| + n)) == Plmns(w)
    decreases |w|
  {
    if w == [] {
      TripletsOfFiller(n);
    } else {
      TripletsOfImage(w[1..], n);
      TripletsOfImageStep(w, n);
    }
  }

  /** The first entry of the image reads back as the first PLMN, in front of the rest of the image. */
  lemma TripletsOfImageStep(w: seq<PlmnNa>, n: nat)
    requires w != [] && ValidPlmn(w[0].plmn)
    requires Triplets(EncodeEntries(w[1..]) + Filler(n), 3 * (|w[1..]| + n)) == Plmns(w[1..])
    ensures Triplets(EncodeEntries(w) + Filler(n), 3 * (|w| + n)) == Plmns(w)
  {
    var e := PlmnToBcd(w[0].plmn);
    var rest := EncodeEntries(w[1..]) + Filler(n);
    assert EncodeEntries(w) == e + EncodeEntries(w[1..]);
    AppendAssoc(e, EncodeEntries(w[1..]), Filler(n));
    PlmnRoundTrip(w[0].plmn);
    TripletsCons(e, rest, 3 * (|w| + n), 3 * (|w[1..]| + n), w[0].plmn, Plmns(w[1..]));
    assert Plmns(w) == [w[0].plmn] + Plmns(w[1..]);
  }

  /**
   * Reading back the EF FPLMN image: the corrected decoder finds exactly the
   * PLMNs of the last four entries, in order.
   */
  lemma FplmnImageRoundTrip(l: seq<PlmnNa>)
    requires forall i :: 0 <= i < |l| ==> ValidPlmn(l[i].plmn)
    ensures Triplets(FplmnImage(l), 3 * FplmnSlots) == Plmns(Window(l))
  {
    var w := Window(l);
    forall i | 0 <= i < |w| ensures ValidPlmn(w[i].plmn) {
      assert w[i] == l[|l| - |w| + i];
    }
    TripletsOfImage(w, FplmnSlots - |w|);
  }

  /** The window slots nas[0..3] of subscr_write_plmn_na_simcard: the window's entries, then NULLs. */
  predicate IsWindowSlots(l: seq<PlmnNa>, nas: seq<Option<PlmnNa>>)
  {
    var w := Window(l);
    |nas| == FplmnSlots &&
    forall i :: 0 <= i < FplmnSlots ==> nas[i] == if i < |w| then Some(w[i]) else None
  }

  /**
   * The bytes subscr_write_plmn_na_simcard puts into its update message:
   * a first loop keeps the last four entries in nas[0..3], shifting when
   * more arrive, and a second loop encodes each slot or writes FF FF FF.
   */
  method FplmnUpdateData(l: seq<PlmnNa>) returns (data: seq<bv8>)
    ensures data == FplmnImage(l)
  {
    var nas := TailSlots(l);
    ghost var w := Window(l);
    data := [];
    var i := 0;
    while i < 4
      invariant 0 <= i <= 4
      invariant data == SlotsImage(w, i)
    {
      SlotsImageStep(w, i);
      assert nas[i] == if i < |w| then Some(w[i]) else None;
      if nas[i].Some? {
        data := data + PlmnToBcd(nas[i].value.plmn);
      } else {
        data := data + [0xff, 0xff, 0xff];
      }
      i := i + 1;
    }
    assert w[..|w|] == w;
  }

  /** The first i slots of the image of window w. */
  ghost function SlotsImage(w: seq<PlmnNa>, i: nat): seq<bv8>
  {
    if i <= |w| then EncodeEntries(w[..i]) else EncodeEntries(w) + Filler(i - |w|)
  }

  lemma SlotsImageStep(w: seq<PlmnNa>, i: nat)
    ensures SlotsImage(w, i + 1) == SlotsImage(w, i) + (if i < |w| then PlmnToBcd(w[i].plmn) else FillerTriplet)
  {
    if i < |w| {
      SlotsImageEntry(w, i);
    } else {
      SlotsImageFiller(w, i);
    }
  }

  lemma SlotsImageEntry(w: seq<PlmnNa>, i: nat)
    requires i < |w|
    ensures SlotsImage(w, i + 1) == SlotsImage(w, i) + PlmnToBcd(w[i].plmn)
  {
    assert w[..i + 1] == w[..i] + [w[i]];
    EncodeEntriesAppend(w[..i], w[i]);
  }

  lemma SlotsImageFiller(w: seq<PlmnNa>, i: nat)
    requires i >= |w|
    ensures SlotsImage(w, i + 1) == SlotsImage(w, i) + FillerTriplet
  {
    FillerAppend(i - |w|);
    if i == |w| {
      assert w[..i] == w;
      assert Filler(0) == [];
    }
  }

  /** The first loop of subscr_write_plmn_na_simcard: the last four entries, shifted in as the list is walked. */
  method TailSlots(l: seq<PlmnNa>) returns (nas: seq<Option<PlmnNa>>)
    ensures IsWindowSlots(l, nas)
  {
    nas := [None, None, None, None];
    var count := 0;
    while count < |l|
      invariant 0 <= count <= |l|
      invariant IsWindowSlots(l[..count], nas)
    {
      var na := l[count];
      assert l[..count + 1] == l[..count] + [na];
      if count < 4 {
        WindowFill(l[..count], nas, na);
        nas := nas[count := Some(na)];
      } else {
        WindowShift(l[..count], nas, na);
        nas := [nas[1], nas[2], nas[3], Some(na)];
      }
      count := count + 1;
    }
    assert l[..count] == l;
  }

  lemma WindowFill(l: seq<PlmnNa>, nas: seq<Option<PlmnNa>>, na: PlmnNa)
    requires IsWindowSlots(l, nas) && |l| < FplmnSlots
    ensures IsWindowSlots(l + [na], nas[|l| := Some(na)])
  {
    assert Window(l + [na]) == l + [na];
  }

  lemma WindowShift(l: seq<PlmnNa>, nas: seq<Option<PlmnNa>>, na: PlmnNa)
    requires IsWindowSlots(l, nas) && |l| >= FplmnSlots
    ensures IsWindowSlots(l + [na], [nas[1], nas[2], nas[3], Some(na)])
  {
    var w, w' := Window(l), Window(l + [na]);
    assert |w| == 4 && |w'| == 4;
    assert w' == w[1..] + [na];
    assert nas == [Some(w[0]), Some(w[1]), Some(w[2]), Some(w[3])];
  }

  lemma {:induction false} EncodeEntriesAppend(w: seq<PlmnNa>, e: PlmnNa)
    ensures EncodeEntries(w + [e]) == EncodeEntries(w) + PlmnToBcd(e.plmn)
    decreases |w|
  {
    if w == [] {
      assert [] + [e] == [e];
      assert [e][1..] == [];
    } else {
      assert (w + [e])[1..] == w[1..] + [e];
      EncodeEntriesAppend(w[1..], e);
    }
  }

  lemma {:induction false} FillerAppend(n: nat)
    ensures Filler(n + 1) == Filler(n) + FillerTriplet
  {
    if n > 0 {
      FillerAppend(n - 1);
    }
  }
}
