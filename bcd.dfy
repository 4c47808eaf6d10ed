/**
 * sim_decode_bcd: digits packed two per byte, low nibble first, a nibble F
 * ending the number, into a static 32-character result buffer (31 digits
 * and the terminating NUL at most).  This module gives the digits the
 * decoder produces and the content of the static buffer afterwards; the
 * loop that fills the buffer is Subscriber.DecodeBcd.
 */
module Bcd {

  /** static char result[32] */
  const BufferSize := 32
  /** The decoder stops once it has written this many digits. */
  const MaxDigits := 31

  const Nul: char := 0 as char

  /** Nibble i of data: the low nibble of byte i/2 for even i, the high nibble for odd i. */
  function Nibble(data: seq<bv8>, i: nat): (c: bv8)
    requires i < 2 * |data|
    ensures c < 16
  {
    if i % 2 == 1 then data[i / 2] >> 4 else data[i / 2] & 0xf
  }

  /** The character c + '0' that the decoder stores for nibble c. */
  function NibbleChar(c: bv8): (ch: char)
    requires c < 16
    ensures ch as int == '0' as int + c as int
  {
    ('0' as int + c as int) as char
  }

  /** The bytes the decoder may touch: min(2*length, 31) nibbles. */
  predicate Readable(data: seq<bv8>, length: nat)
  {
    (if 2 * length < MaxDigits then 2 * length else MaxDigits) <= 2 * |data|
  }

  /** The digits produced from nibble i on, with n nibbles in all. */
  function Scan(data: seq<bv8>, n: nat, i: nat): string
    requires (if n < MaxDigits then n else MaxDigits) <= 2 * |data|
    decreases MaxDigits - i
  {
    if i >= n || i >= MaxDigits || Nibble(data, i) == 0xf then []
    else [NibbleChar(Nibble(data, i))] + Scan(data, n, i + 1)
  }

  /** The digit string sim_decode_bcd(data, length) returns. */
  function DecodeBcd(data: seq<bv8>, length: nat): (s: string)
    requires Readable(data, length)
    ensures |s| <= MaxDigits
  {
    ScanLength(data, 2 * length, 0);
    Scan(data, 2 * length, 0)
  }

  /** A nibble other than F before the end of the scan is a digit, followed by the rest of the scan. */
  lemma ScanCons(data: seq<bv8>, n: nat, i: nat)
    requires (if n < MaxDigits then n else MaxDigits) <= 2 * |data|
    requires i < n && i < MaxDigits && Nibble(data, i) != 0xf
    ensures Scan(data, n, i) == [NibbleChar(Nibble(data, i))] + Scan(data, n, i + 1)
  {
  }

  /** Scanning from nibble i stops by nibble n and by digit 31. */
  lemma {:induction false} ScanLength(data: seq<bv8>, n: nat, i: nat)
    requires (if n < MaxDigits then n else MaxDigits) <= 2 * |data|
    ensures var s := Scan(data, n, i);
      && (i < n && i < MaxDigits ==> i + |s| <= n && i + |s| <= MaxDigits)
      && (i >= n || i >= MaxDigits ==> s == [])
    decreases MaxDigits - i
  {
    if i >= n || i >= MaxDigits || Nibble(data, i) == 0xf {
    } else {
      ScanLength(data, n, i + 1);
    }
  }

  /** The digit at nibble position p of a scan from nibble i is the character of nibble p, which is not F. */
  lemma {:induction false} ScanDigits(data: seq<bv8>, n: nat, i: nat)
    requires (if n < MaxDigits then n else MaxDigits) <= 2 * |data|
    ensures var s := Scan(data, n, i);
      forall p :: i <= p < i + |s| ==> p < 2 * |data| && Nibble(data, p) != 0xf && s[p - i] == NibbleChar(Nibble(data, p))
    decreases MaxDigits - i
  {
    if i >= n || i >= MaxDigits || Nibble(data, i) == 0xf {
    } else {
      ScanDigits(data, n, i + 1);
      ScanCons(data, n, i);
      var s := Scan(data, n, i);
      var t := Scan(data, n, i + 1);
      forall p | i <= p < i + |s|
        ensures p < 2 * |data| && Nibble(data, p) != 0xf && s[p - i] == NibbleChar(Nibble(data, p))
      {
        if p > i {
          assert i + 1 <= p < i + 1 + |t|;
          assert p < 2 * |data| && Nibble(data, p) != 0xf && t[p - (i + 1)] == NibbleChar(Nibble(data, p));
          assert s[p - i] == t[p - (i + 1)];
        } else {
          assert s[0] == NibbleChar(Nibble(data, i));
        }
      }
    }
  }

  /** A scan that ends before nibble n and digit 31 ends at an F nibble. */
  lemma {:induction false} ScanStop(data: seq<bv8>, n: nat, i: nat)
    requires (if n < MaxDigits then n else MaxDigits) <= 2 * |data|
    ensures var s := Scan(data, n, i);
      i + |s| < n && i + |s| < MaxDigits ==> i + |s| < 2 * |data| && Nibble(data, i + |s|) == 0xf
    decreases MaxDigits - i
  {
    if i >= n || i >= MaxDigits || Nibble(data, i) == 0xf {
    } else {
      ScanStop(data, n, i + 1);
      ScanCons(data, n, i);
    }
  }

  /**
   * What sim_decode_bcd returns: digit k is the character for nibble k,
   * read low nibble first; there are at most 31 digits and at most
   * 2*length; and when it stopped early it was at a filler nibble F.
   */
  lemma DecodeBcdShape(data: seq<bv8>, length: nat)
    requires Readable(data, length)
    ensures var s := DecodeBcd(data, length);
      && |s| <= MaxDigits && |s| <= 2 * length
      && (forall k :: 0 <= k < |s| ==> k < 2 * |data| && Nibble(data, k) != 0xf && s[k] == NibbleChar(Nibble(data, k)))
      && (|s| < 2 * length && |s| < MaxDigits ==> |s| < 2 * |data| && Nibble(data, |s|) == 0xf)
  {
    ScanLength(data, 2 * length, 0);
    ScanDigits(data, 2 * length, 0);
    ScanStop(data, 2 * length, 0);
    assert DecodeBcd(data, length) == Scan(data, 2 * length, 0);
    var s := DecodeBcd(data, length);
    forall k | 0 <= k < |s|
      ensures k < 2 * |data| && Nibble(data, k) != 0xf && s[k] == NibbleChar(Nibble(data, k))
    {
      var j := 0 + k;
      assert j == k;
      assert s[j] == NibbleChar(Nibble(data, j));
      assert Nibble(data, j) != 0xf;
    }
  }

  /** Digit k is '0' plus the low nibble of byte k/2 for even k and its high nibble for odd k. */
  lemma DecodeBcdSpec(data: seq<bv8>, length: nat)
    requires Readable(data, length)
    ensures var s := DecodeBcd(data, length);
      forall k :: 0 <= k < |s| ==> k / 2 < |data| && s[k] as int - '0' as int == (if k % 2 == 0 then data[k / 2] & 0xf else data[k / 2] >> 4) as int
  {
    DecodeBcdShape(data, length);
  }

  /** Every decoded character lies between '0' and '0' + 14, so none is a NUL. */
  lemma DecodeBcdHasNoNul(data: seq<bv8>, length: nat)
    requires Readable(data, length)
    ensures forall k :: 0 <= k < |DecodeBcd(data, length)| ==> '0' <= DecodeBcd(data, length)[k] < '?'
  {
    DecodeBcdShape(data, length);
  }

  lemma DecodeBcdExample()
    ensures DecodeBcd([0x21, 0x43, 0xf5], 3) == "12345"
  {
    var d: seq<bv8> := [0x21, 0x43, 0xf5];
    assert Nibble(d, 5) == 0xf;
    assert Scan(d, 6, 5) == [];
  }

  // ---------------------------------------------------------------
  // The static result buffer
  // ---------------------------------------------------------------

  /** A result buffer as the decoder leaves it: its last byte is always a NUL. */
  predicate WellFormedBuffer(buf: seq<char>)
  {
    |buf| == BufferSize && buf[BufferSize - 1] == Nul
  }

  /** The buffer after a decode of s: s, a NUL, then the older content. */
  function BcdWrite(buf: seq<char>, s: string): (r: seq<char>)
    requires WellFormedBuffer(buf) && |s| <= MaxDigits
    ensures WellFormedBuffer(r)
    ensures r[..|s|] == s && r[|s|] == Nul && r[|s| + 1..] == buf[|s| + 1..]
  {
    s + [Nul] + buf[|s| + 1..]
  }

  /** A buffer holding s, a NUL and otherwise the older content is the buffer after a decode of s. */
  lemma WrittenBuffer(before: seq<char>, after: seq<char>, s: string)
    requires WellFormedBuffer(before) && |s| <= MaxDigits && |after| == BufferSize
    requires forall k :: 0 <= k < |s| ==> after[k] == s[k]
    requires after[|s|] == Nul
    requires forall k :: |s| < k < BufferSize ==> after[k] == before[k]
    ensures after == BcdWrite(before, s)
  {
    var w := BcdWrite(before, s);
    forall k | 0 <= k < BufferSize ensures after[k] == w[k] {
      if k < |s| {
        assert w[..|s|][k] == s[k];
      } else if k > |s| {
        assert w[|s| + 1..][k - |s| - 1] == before[|s| + 1..][k - |s| - 1];
      }
    }
  }

  /** The C string that starts at position i of a buffer. */
  function CString(buf: seq<char>, i: nat): (s: string)
    ensures Nul !in s
    decreases |buf| - i
  {
    if i >= |buf| || buf[i] == Nul then "" else [buf[i]] + CString(buf, i + 1)
  }

  lemma {:induction false} CStringOfWrite(buf: seq<char>, s: string, i: nat)
    requires WellFormedBuffer(buf) && |s| <= MaxDigits && i <= |s|
    requires Nul !in s
    ensures CString(BcdWrite(buf, s), i) == s[i..]
    decreases |s| - i
  {
    var b := BcdWrite(buf, s);
    if i == |s| {
      assert b[i] == Nul;
    } else {
      assert b[i] == s[i];
      CStringOfWrite(buf, s, i + 1);
      assert s[i..] == [s[i]] + s[i + 1..];
    }
  }

  /** After a decode, the C string at the start of the buffer is exactly the decoded digits. */
  lemma CStringOfDecode(buf: seq<char>, data: seq<bv8>, length: nat)
    requires WellFormedBuffer(buf) && Readable(data, length)
    ensures CString(BcdWrite(buf, DecodeBcd(data, length)), 0) == DecodeBcd(data, length)
  {
    DecodeBcdHasNoNul(data, length);
    CStringOfWrite(buf, DecodeBcd(data, length), 0);
  }

  lemma {:induction false} CStringOfTail(a: seq<char>, b: seq<char>, i: nat)
    requires |a| == |b| && 0 < i <= |a|
    requires a[i..] == b[i..]
    ensures CString(a, i) == CString(b, i)
    decreases |a| - i
  {
    if i < |a| {
      assert a[i] == a[i..][0] == b[i..][0] == b[i];
      assert a[i + 1..] == a[i..][1..] == b[i..][1..] == b[i + 1..];
      CStringOfTail(a, b, i + 1);
    }
  }

  /** After decoding s, the string at result + 1 is s without its first digit. */
  lemma CStringAfterDecode(buf: seq<char>, s: string)
    requires WellFormedBuffer(buf) && 1 <= |s| <= MaxDigits && Nul !in s
    ensures CString(BcdWrite(buf, s), 1) == s[1..]
  {
    CStringOfWrite(buf, s, 1);
  }

  /** After an empty decode, the string at result + 1 is what an earlier decode left there. */
  lemma CStringAfterEmptyDecode(buf: seq<char>)
    requires WellFormedBuffer(buf)
    ensures CString(BcdWrite(buf, ""), 1) == CString(buf, 1)
  {
    CStringOfTail(BcdWrite(buf, ""), buf, 1);
  }

  /** OSMO_STRLCPY_ARRAY into a buffer of size bytes: at most size - 1 characters. */
  function Strlcpy(s: string, size: nat): (r: string)
    requires size >= 1
    ensures |r| <= size - 1 && |r| <= |s| && r == s[..|r|]
    ensures |s| < size ==> r == s
  {
    if |s| < size then s else s[..size - 1]
  }
}
