/**
 * Byte-order helpers of the FreeRTOS compatibility header netinet/in.h.
 * Each helper unconditionally swaps bytes, so it converts between host and
 * network order only on a little-endian host; the host-memory loads below
 * model such a host.
 */
module ByteOrder {

  /** htons: swap the two bytes of a 16-bit value. */
  function Htons(hostshort: bv16): (r: bv16)
    ensures r & 0xff == hostshort >> 8
    ensures r >> 8 == hostshort & 0xff
  {
    ((hostshort & 0xff) << 8) | ((hostshort >> 8) & 0xff)
  }

  /** ntohs: written out separately in the header, with the same expression. */
  function Ntohs(netshort: bv16): (r: bv16)
    ensures r & 0xff == netshort >> 8
    ensures r >> 8 == netshort & 0xff
  {
    ((netshort & 0xff) << 8) | ((netshort >> 8) & 0xff)
  }

  /** htonl: reverse the four bytes of a 32-bit value. */
  function Htonl(hostlong: bv32): (r: bv32)
    ensures r >> 24 == hostlong & 0xff
    ensures r & 0xff == hostlong >> 24
    ensures (r >> 8) & 0xff == (hostlong >> 16) & 0xff
    ensures (r >> 16) & 0xff == (hostlong >> 8) & 0xff
  {
    ((hostlong & 0x0000_00ff) << 24) |
    ((hostlong & 0x0000_ff00) << 8) |
    ((hostlong & 0x00ff_0000) >> 8) |
    ((hostlong & 0xff00_0000) >> 24)
  }

  /** ntohl: the same expression as htonl. */
  function Ntohl(netlong: bv32): (r: bv32)
    ensures r >> 24 == netlong & 0xff
    ensures r & 0xff == netlong >> 24
    ensures (r >> 8) & 0xff == (netlong >> 16) & 0xff
    ensures (r >> 16) & 0xff == (netlong >> 8) & 0xff
  {
    ((netlong & 0x0000_00ff) << 24) |
    ((netlong & 0x0000_ff00) << 8) |
    ((netlong & 0x00ff_0000) >> 8) |
    ((netlong & 0xff00_0000) >> 24)
  }

  lemma HtonsInvolutive(x: bv16)
    ensures Htons(Htons(x)) == x
  {
  }

  lemma NtohsIsHtons(x: bv16)
    ensures Ntohs(x) == Htons(x)
  {
  }

  lemma HtonlInvolutive(x: bv32)
    ensures Htonl(Htonl(x)) == x
  {
  }

  lemma NtohlIsHtonl(x: bv32)
    ensures Ntohl(x) == Htonl(x)
  {
  }

  // ---------------------------------------------------------------
  // Host memory: a multi-byte field copied out of a byte buffer
  // (a struct member or memcpy) holds the bytes in little-endian order.
  // ---------------------------------------------------------------

  function LoadLE16(b0: bv8, b1: bv8): bv16
  {
    (b0 as bv16) | ((b1 as bv16) << 8)
  }

  function LoadLE32(b: seq<bv8>): bv32
    requires |b| == 4
  {
    (b[0] as bv32) | ((b[1] as bv32) << 8) | ((b[2] as bv32) << 16) | ((b[3] as bv32) << 24)
  }

  /** The bytes a 16-bit host value occupies in memory. */
  function StoreLE16(x: bv16): (r: seq<bv8>)
    ensures |r| == 2
  {
    [(x & 0xff) as bv8, (x >> 8) as bv8]
  }

  /** The bytes a 32-bit host value occupies in memory. */
  function StoreLE32(x: bv32): (r: seq<bv8>)
    ensures |r| == 4
  {
    [(x & 0xff) as bv8, ((x >> 8) & 0xff) as bv8, ((x >> 16) & 0xff) as bv8, (x >> 24) as bv8]
  }

  /** Network (big-endian) reading of two and four bytes. */
  function BE16(b0: bv8, b1: bv8): bv16
  {
    ((b0 as bv16) << 8) | (b1 as bv16)
  }

  function BE32(b: seq<bv8>): bv32
    requires |b| == 4
  {
    ((b[0] as bv32) << 24) | ((b[1] as bv32) << 16) | ((b[2] as bv32) << 8) | (b[3] as bv32)
  }

  /** Network bytes of a 16-bit and a 32-bit value. */
  function BytesBE16(x: bv16): (r: seq<bv8>)
    ensures |r| == 2
  {
    [(x >> 8) as bv8, (x & 0xff) as bv8]
  }

  /** ntohs of a field loaded from memory is the field's big-endian value. */
  lemma NtohsOfLoadIsBE(b0: bv8, b1: bv8)
    ensures Ntohs(LoadLE16(b0, b1)) == BE16(b0, b1)
  {
  }

  /** ntohl of a field loaded from memory is the field's big-endian value. */
  lemma NtohlOfLoadIsBE(b: seq<bv8>)
    requires |b| == 4
    ensures Ntohl(LoadLE32(b)) == BE32(b)
  {
  }

  /** Storing htonl(x) puts the bytes of x into memory most significant first. */
  lemma StoreHtonlIsNetworkOrder(x: bv32)
    ensures StoreLE32(Htonl(x)) == [(x >> 24) as bv8, ((x >> 16) & 0xff) as bv8, ((x >> 8) & 0xff) as bv8, (x & 0xff) as bv8]
  {
  }

  /** Writing htonl(x) to memory and reading it back with ntohl gives x. */
  lemma StoreLoadRoundTrip(x: bv32)
    ensures Ntohl(LoadLE32(StoreLE32(Htonl(x)))) == x
  {
  }

  lemma BE32OfBytes(x: bv32)
    ensures BE32(StoreLE32(Htonl(x))) == x
  {
  }

  lemma BE16Bytes(x: bv16)
    ensures BE16(BytesBE16(x)[0], BytesBE16(x)[1]) == x
  {
  }
}
