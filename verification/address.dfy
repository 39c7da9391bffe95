/**
 * `ha::address`: a value holding one 16-byte `sockaddr`. The IPv4 view
 * (`sockaddr_in`) overlays it as family, port, address and eight pad bytes,
 * each multi-byte field in host order except the port, which holds the
 * network-order value `htons` produced.
 */
module Address {
  import opened NetBytes
  import Handles

  type Id = Handles.Id

  /** `sizeof(sockaddr)`. */
  const SockAddrSize: nat := 16

  /** The raw `sockaddr` bytes an `address` stores. */
  type SockAddr = s: seq<byte> | |s| == 16 witness seq(16, _ => 0)

  /** `sin_zero`. */
  type Pad = s: seq<byte> | |s| == 8 witness seq(8, _ => 0)

  /** The `sockaddr_in` overlay of a `sockaddr`. */
  datatype InetView = InetView(family: u16, port: u16, addr: InAddr, zero: Pad)

  /** Eight zero bytes. */
  function ZeroPad(): (p: Pad)
    ensures forall k :: 0 <= k < |p| ==> p[k] == 0
  {
    seq(8, _ => 0)
  }

  /** The all-zero `sockaddr` (`{0}` and `memset(…, 0, …)`). */
  function Zeroed(): (a: SockAddr)
    ensures forall k :: 0 <= k < |a| ==> a[k] == 0
  {
    seq(16, _ => 0)
  }

  /** Lays a `sockaddr_in` out over the 16 bytes of a `sockaddr`. */
  function Encode(v: InetView): (a: SockAddr)
    ensures a[0..2] == HostBytes(v.family) && a[2..4] == HostBytes(v.port)
    ensures a[4..8] == v.addr && a[8..16] == v.zero
  {
    HostBytes(v.family) + HostBytes(v.port) + v.addr + v.zero
  }

  /** `operator const sockaddr_in()`: reads the overlay back; every `sockaddr` is exactly the layout of its overlay. */
  function AsInet(a: SockAddr): (v: InetView)
    ensures Encode(v) == a
  {
    FromHostBytesRoundTrip(a[0..2]);
    FromHostBytesRoundTrip(a[2..4]);
    assert a == a[0..2] + a[2..4] + a[4..8] + a[8..16];
    InetView(FromHostBytes(a[0..2]), FromHostBytes(a[2..4]), a[4..8], a[8..16])
  }

  /** Reading the overlay back gives the fields that were laid out. */
  lemma AsInetEncode(v: InetView)
    ensures AsInet(Encode(v)) == v
  {
    HostBytesRoundTrip(v.family);
    HostBytesRoundTrip(v.port);
  }

  /** `address()`: every byte zero, so family, port and address all read as 0. */
  function Default(): (a: SockAddr)
    ensures AsInet(a) == InetView(0, 0, [0, 0, 0, 0], ZeroPad())
  {
    var z := Zeroed();
    assert z[0..2] == [0, 0] && z[2..4] == [0, 0] && z[4..8] == [0, 0, 0, 0] && z[8..16] == ZeroPad();
    z
  }

  /** `address(short family, in_addr addr, unsigned short port)`. */
  function FromComponents(family: i16, addr: InAddr, port: u16): (a: SockAddr)
    ensures a[0..2] == HostBytes(ToUnsigned(family))
    ensures a[2..4] == BigEndian(port)
    ensures AsInet(a) == InetView(ToUnsigned(family), Htons(port), addr, ZeroPad())
    ensures Ntohs(AsInet(a).port) == port
  {
    var v := InetView(ToUnsigned(family), Htons(port), addr, ZeroPad());
    AsInetEncode(v);
    HtonsStoresBigEndian(port);
    NtohsHtons(port);
    Encode(v)
  }

  /** `size()`: the byte length of the stored `sockaddr`, whatever it holds. */
  function Size(a: SockAddr): (n: nat)
    ensures n == |a| == |Encode(AsInet(a))|
  {
    SockAddrSize
  }

  /** Live `address` objects, by identity. */
  type World = map<Id, SockAddr>

  /** `address(sockaddr)`: stores the given bytes as they are. */
  function FromRaw(w: World, id: Id, saddr: SockAddr): (r: World)
    requires id !in w
    ensures r.Keys == w.Keys + {id} && r[id] == saddr
    ensures AsInet(r[id]) == AsInet(saddr)
    ensures forall i :: i in w ==> r[i] == w[i]
  {
    Handles.Construct(w, id, saddr)
  }

  /** `operator=(const address&)`. */
  function CopyAssign(w: World, dst: Id, src: Id): (r: World)
    requires dst in w && src in w
    ensures r.Keys == w.Keys && r[dst] == w[src] && r[src] == w[src]
    ensures forall i :: i in w && i != dst ==> r[i] == w[i]
  {
    Handles.CopyAssign(w, dst, src)
  }

  /** `operator=(address&&)`: the source's bytes are zeroed after they are copied. */
  function MoveAssign(w: World, dst: Id, src: Id): (r: World)
    requires dst in w && src in w
    ensures r.Keys == w.Keys
    ensures dst == src ==> r == w
    ensures dst != src ==> r[dst] == w[src] && r[src] == Zeroed()
    ensures forall i :: i in w && i != dst && i != src ==> r[i] == w[i]
  {
    Handles.MoveAssign(w, dst, src, Zeroed())
  }

  /** `address(const address&)`. */
  function CopyConstruct(w: World, id: Id, other: Id): (r: World)
    requires id !in w && other in w
    ensures r == w[id := w[other]]
  {
    Handles.CopyConstruct(w, id, other, Zeroed())
  }

  /** `address(address&&)`. */
  function MoveConstruct(w: World, id: Id, other: Id): (r: World)
    requires id !in w && other in w
    ensures r == w[id := w[other]][other := Zeroed()]
  {
    Handles.MoveConstruct(w, id, other, Zeroed())
  }

  /** `~address()`: the bytes are zeroed and the object is gone. */
  function Destroy(w: World, id: Id): (r: World)
    requires id in w
    ensures r.Keys == w.Keys - {id}
    ensures forall i :: i in r ==> r[i] == w[i]
  {
    w - {id}
  }

  /**
   * A move hands the whole endpoint to the target and leaves the source
   * reading as the default address.
   */
  lemma MoveZeroesSource(w: World, dst: Id, src: Id)
    requires dst in w && src in w && dst != src
    ensures AsInet(MoveAssign(w, dst, src)[dst]) == AsInet(w[src])
    ensures MoveAssign(w, dst, src)[src] == Default()
  {
    assert Zeroed() == Default();
  }

  /** A move-constructed address holds what the source held; the source reads as the default. */
  lemma MoveConstructZeroesSource(w: World, id: Id, other: Id)
    requires id !in w && other in w
    ensures MoveConstruct(w, id, other)[id] == w[other]
    ensures MoveConstruct(w, id, other)[other] == Default()
  {
    assert Zeroed() == Default();
  }

  /** A copy leaves two equal endpoints, the source's port still readable through `ntohs`. */
  lemma CopyKeepsSource(w: World, dst: Id, src: Id)
    requires dst in w && src in w
    ensures CopyAssign(w, dst, src)[dst] == CopyAssign(w, dst, src)[src] == w[src]
    ensures Ntohs(AsInet(CopyAssign(w, dst, src)[dst]).port) == Ntohs(AsInet(w[src]).port)
  {
  }

  /** An address built from the layout of some fields reads back exactly those fields, over the full `sockaddr` size. */
  lemma FromRawReadsBack(w: World, id: Id, v: InetView)
    requires id !in w
    ensures AsInet(FromRaw(w, id, Encode(v))[id]) == v
    ensures Size(FromRaw(w, id, Encode(v))[id]) == SockAddrSize
  {
    AsInetEncode(v);
  }

  /** A copy-constructed address is an independent equal value: the original is untouched and both read the same endpoint. */
  lemma CopyConstructKeepsSource(w: World, id: Id, other: Id)
    requires id !in w && other in w
    ensures CopyConstruct(w, id, other)[other] == w[other]
    ensures AsInet(CopyConstruct(w, id, other)[id]) == AsInet(w[other])
    ensures Destroy(CopyConstruct(w, id, other), id) == w
  {
    assert CopyConstruct(w, id, other) - {id} == w;
  }

  /** Destroying the moved-from address leaves the endpoint the target took over intact. */
  lemma DestroyMovedFromKeepsTarget(w: World, dst: Id, src: Id)
    requires dst in w && src in w && dst != src
    ensures dst in Destroy(MoveAssign(w, dst, src), src)
    ensures AsInet(Destroy(MoveAssign(w, dst, src), src)[dst]) == AsInet(w[src])
  {
  }
}

/**
 * The one place the parsed `connection_info` meets `ha::address`:
 * `server::bind` builds its address from the parsed family, host address and
 * port, converting the `int` fields to `short` and `unsigned short`.
 */
module BindAddress {
  import opened NetBytes
  import opened ConnectionString
  import Address
  import PortText

  /** `address(conn_ctx_.family, conn_ctx_.addr, conn_ctx_.port)`; the port keeps its low 16 bits. */
  function FromInfo(info: ConnectionInfo): (a: Address.SockAddr)
    requires -0x8000 <= info.family < 0x8000
    requires info.port >= 0
    ensures Ntohs(Address.AsInet(a).port) == info.port % 0x1_0000
    ensures Address.AsInet(a).addr == info.addr
    ensures 0 <= info.family ==> Address.AsInet(a).family == info.family
  {
    Address.FromComponents(info.family as i16, info.addr, (info.port % 0x1_0000) as u16)
  }

  /**
   * A port above 65535 passes the parser and is silently cut to 16 bits when
   * the address is built: "tcp::<p>" binds port `p mod 65536`, so
   * "tcp::65616" binds port 80.
   */
  lemma BoundPortIsTruncated(port: nat, resolve: Resolver)
    requires 0 < port <= PortText.INT_MAX
    ensures Parse(Format("tcp", "", port), resolve).Ok?
    ensures Ntohs(Address.AsInet(FromInfo(Parse(Format("tcp", "", port), resolve).value)).port) == port % 0x1_0000
  {
    ParseFormat("tcp", "", port, resolve);
  }
}
