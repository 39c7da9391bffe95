/** Fixed-width integers and host/network byte order, for a little-endian host. */
module NetBytes {

  type byte = x: int | 0 <= x < 0x100

  /** `unsigned short`, `sa_family_t` and `in_port_t`. */
  type u16 = x: int | 0 <= x < 0x1_0000

  /** `short`. */
  type i16 = x: int | -0x8000 <= x < 0x8000

  /** `in_addr`: the four address bytes exactly as they lie in memory (already network order). */
  type InAddr = s: seq<byte> | |s| == 4 witness [0, 0, 0, 0]

  /** Bytes of a 16-bit value as a little-endian host stores it in memory. */
  function HostBytes(x: u16): (b: seq<byte>)
    ensures |b| == 2
  {
    [x % 0x100, x / 0x100]
  }

  /** Reads a 16-bit value back from its in-memory bytes on a little-endian host. */
  function FromHostBytes(b: seq<byte>): (x: u16)
    requires |b| == 2
  {
    b[0] as int + 0x100 * (b[1] as int)
  }

  /** Network (big-endian) byte order of a 16-bit value: most significant byte first. */
  function BigEndian(x: u16): (b: seq<byte>)
    ensures |b| == 2
  {
    [x / 0x100, x % 0x100]
  }

  /** `htons` on a little-endian host: swaps the two bytes. */
  function Htons(x: u16): (r: u16)
  {
    (x % 0x100) * 0x100 + x / 0x100
  }

  /** `ntohs`: the same swap as `htons`. */
  function Ntohs(x: u16): (r: u16)
  {
    Htons(x)
  }

  /** C++ conversion of a `short` into an `unsigned short`: modulo 2^16. */
  function ToUnsigned(x: i16): (r: u16)
    ensures r % 0x1_0000 == x % 0x1_0000
    ensures 0 <= x ==> r == x
  {
    if x < 0 then x + 0x1_0000 else x
  }

  /** Storing `htons(x)` puts the bytes of `x` in memory in network order. */
  lemma HtonsStoresBigEndian(x: u16)
    ensures HostBytes(Htons(x)) == BigEndian(x)
  {
  }

  /** `ntohs` undoes `htons`. */
  lemma NtohsHtons(x: u16)
    ensures Ntohs(Htons(x)) == x
  {
  }

  /** A 16-bit value survives the trip through its in-memory bytes. */
  lemma HostBytesRoundTrip(x: u16)
    ensures FromHostBytes(HostBytes(x)) == x
  {
  }

  /** Two in-memory bytes survive the trip through the value they encode. */
  lemma FromHostBytesRoundTrip(b: seq<byte>)
    requires |b| == 2
    ensures HostBytes(FromHostBytes(b)) == b
  {
  }
}
