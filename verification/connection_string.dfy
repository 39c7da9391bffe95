/**
 * `server::parse_connection_string`: turns `protocol:host:port` into the
 * endpoint descriptor `connection_info`. Host lookup (`getaddrinfo`) is a
 * parameter of the model: whatever the resolver answers for a host name.
 */
module ConnectionString {
  import opened Wrappers
  import opened NetBytes
  import opened ConnectionSplit
  import opened PortText

  // Linux values of the socket-API constants the parser fills in.
  const AF_INET: int := 2
  const SOCK_STREAM: int := 1
  const SOCK_DGRAM: int := 2
  const IPPROTO_TCP: int := 6
  const IPPROTO_UDP: int := 17
  const INADDR_ANY: InAddr := [0, 0, 0, 0]

  /** `connection_info`: address family, socket type, protocol, port and bind address. */
  datatype ConnectionInfo = ConnectionInfo(family: int, socketType: int, protocol: int, port: int, addr: InAddr)

  /** The `runtime_error`s the parser throws, by message. */
  datatype ParseError =
    | InvalidConnectionString   // "Invalid connection string."
    | InvalidProtocol           // "Invalid protocol parameter."
    | InvalidHost               // "Invalid host parameter."
    | InvalidPort               // "Invalid port parameter."

  /**
   * What `getaddrinfo` answers for a host: a non-zero return code, or the
   * `sin_addr` of each entry of the result list, in list order.
   */
  datatype Lookup = LookupFailed | Resolved(addrs: seq<InAddr>)

  type Resolver = string -> Lookup

  /** Socket type and protocol for a protocol token; `None` for any token but `tcp` and `udp`. */
  function Transport(token: string): (r: Option<(int, int)>)
    ensures r.Some? <==> token == "tcp" || token == "udp"
    ensures token == "tcp" ==> r == Some((SOCK_STREAM, IPPROTO_TCP))
    ensures token == "udp" ==> r == Some((SOCK_DGRAM, IPPROTO_UDP))
  {
    if token == "tcp" then Some((SOCK_STREAM, IPPROTO_TCP))
    else if token == "udp" then Some((SOCK_DGRAM, IPPROTO_UDP))
    else None
  }

  /** The bind address for a host field: any-address when empty, else the first resolved entry. */
  function HostAddress(host: string, resolve: Resolver): (r: Result<InAddr, ParseError>)
    ensures |host| == 0 ==> r == Ok(INADDR_ANY)
    ensures r.Err? <==> |host| > 0 && resolve(host).LookupFailed?
    ensures r.Err? ==> r.error == InvalidHost
    ensures |host| > 0 && resolve(host).Resolved? && |resolve(host).addrs| > 0 ==> r == Ok(resolve(host).addrs[0])
  {
    if |host| == 0 then Ok(INADDR_ANY)
    else
      match resolve(host)
      case LookupFailed => Err(InvalidHost)
      case Resolved(addrs) => Ok(if |addrs| > 0 then addrs[0] else INADDR_ANY)
  }

  /** The checks on the three fields, in the order the source makes them: protocol, host, port. */
  function ParseFields(protocol: string, host: string, port: string, resolve: Resolver): (r: Result<ConnectionInfo, ParseError>)
  {
    match Transport(protocol)
    case None => Err(InvalidProtocol)
    case Some((socketType, proto)) =>
      match HostAddress(host, resolve)
      case Err(e) => Err(e)
      case Ok(addr) =>
        var n := ReadInt(port);
        if n <= 0 then Err(InvalidPort)
        else Ok(ConnectionInfo(AF_INET, socketType, proto, n, addr))
  }

  /**
   * Parses a connection string. A string with other than three fields is
   * rejected: the source's guard only rejects more than three and then reads
   * the second and third fields unchecked (see `ParseAsWritten`).
   */
  function Parse(conn: string, resolve: Resolver): (r: Result<ConnectionInfo, ParseError>)
    ensures r == Err(InvalidConnectionString) <==> |Split(conn)| != 3
    ensures r == Err(InvalidProtocol) <==> |Split(conn)| == 3 && Split(conn)[0] != "tcp" && Split(conn)[0] != "udp"
    ensures r == Err(InvalidHost) <==>
      |Split(conn)| == 3 && Transport(Split(conn)[0]).Some? &&
      |Split(conn)[1]| > 0 && resolve(Split(conn)[1]).LookupFailed?
    ensures r == Err(InvalidPort) <==>
      |Split(conn)| == 3 && Transport(Split(conn)[0]).Some? &&
      HostAddress(Split(conn)[1], resolve).Ok? && ReadInt(Split(conn)[2]) <= 0
    ensures r.Ok? ==>
      && r.value.family == AF_INET
      && r.value.port > 0
      && r.value.port == ReadInt(Split(conn)[2])
      && Transport(Split(conn)[0]) == Some((r.value.socketType, r.value.protocol))
      && Ok(r.value.addr) == HostAddress(Split(conn)[1], resolve)
  {
    var parts := Split(conn);
    if |parts| != 3 then Err(InvalidConnectionString)
    else ParseFields(parts[0], parts[1], parts[2], resolve)
  }

  /** The text `protocol:host:port` for a port given as a number. */
  function Format(protocol: string, host: string, port: nat): string
  {
    Join([protocol, host, ToDecimal(port)])
  }

  lemma DecimalHasNoDelimiter(n: nat)
    ensures Delimiter !in ToDecimal(n)
  {
    var t := ToDecimal(n);
    forall k | 0 <= k < |t| ensures t[k] != Delimiter {
      assert IsDigit(t[k]);
    }
  }

  /** The fields of a formatted connection string are the protocol, the host and the port's digits. */
  lemma SplitFormat(protocol: string, host: string, port: nat)
    requires Delimiter !in protocol && Delimiter !in host
    ensures Split(Format(protocol, host, port)) == [protocol, host, ToDecimal(port)]
  {
    DecimalHasNoDelimiter(port);
    SplitJoin([protocol, host, ToDecimal(port)]);
  }

  /**
   * Formatting a `tcp`/`udp` endpoint with a positive port and parsing it back
   * gives that endpoint: family `AF_INET`, the protocol's socket type and
   * protocol number, the port, and the host's bind address; or the host error.
   */
  lemma ParseFormat(protocol: string, host: string, port: nat, resolve: Resolver)
    requires protocol == "tcp" || protocol == "udp"
    requires Delimiter !in host
    requires 0 < port <= INT_MAX
    ensures HostAddress(host, resolve).Ok? ==>
      Parse(Format(protocol, host, port), resolve) ==
        Ok(ConnectionInfo(AF_INET, Transport(protocol).value.0, Transport(protocol).value.1, port, HostAddress(host, resolve).value))
    ensures HostAddress(host, resolve).Err? ==> Parse(Format(protocol, host, port), resolve) == Err(InvalidHost)
  {
    SplitFormat(protocol, host, port);
    ReadIntDecimal(port, []);
    assert ToDecimal(port) + [] == ToDecimal(port);
  }

  /** The parser has no upper bound for the port: any positive `int` is accepted, beyond 65535 too. */
  lemma PortHasNoUpperBound(port: nat, resolve: Resolver)
    requires 0x1_0000 <= port <= INT_MAX
    ensures Parse(Format("tcp", "", port), resolve) == Ok(ConnectionInfo(AF_INET, SOCK_STREAM, IPPROTO_TCP, port, INADDR_ANY))
  {
    ParseFormat("tcp", "", port, resolve);
  }

  /** A port of zero fails on the port check, after the protocol and host checks have passed. */
  lemma ZeroPortRejected(protocol: string, host: string, resolve: Resolver)
    requires protocol == "tcp" || protocol == "udp"
    requires Delimiter !in host
    ensures HostAddress(host, resolve).Ok? ==> Parse(Format(protocol, host, 0), resolve) == Err(InvalidPort)
    ensures HostAddress(host, resolve).Err? ==> Parse(Format(protocol, host, 0), resolve) == Err(InvalidHost)
  {
    SplitFormat(protocol, host, 0);
    ReadIntDecimal(0, []);
    assert ToDecimal(0) + [] == ToDecimal(0);
  }

  /** `"tcp::8080"` binds any address on TCP port 8080, whatever the resolver. */
  lemma TcpAnyHost8080(resolve: Resolver)
    ensures Parse("tcp::8080", resolve) == Ok(ConnectionInfo(AF_INET, SOCK_STREAM, IPPROTO_TCP, 8080, INADDR_ANY))
  {
    assert Format("tcp", "", 8080) == "tcp::8080";
    ParseFormat("tcp", "", 8080, resolve);
  }

  /** `"ftp::0"` fails on the protocol although its port is invalid too: the protocol is checked first. */
  lemma FtpFailsOnProtocol(resolve: Resolver)
    ensures Parse("ftp::0", resolve) == Err(InvalidProtocol)
  {
    assert Format("ftp", "", 0) == "ftp::0";
    SplitFormat("ftp", "", 0);
  }

  /** Four fields are too many, whatever they hold. */
  lemma FourFieldsRejected(resolve: Resolver)
    ensures Parse("tcp:a:80:x", resolve) == Err(InvalidConnectionString)
  {
    var fields := ["tcp", "a", "80", "x"];
    assert Join(fields) == "tcp:a:80:x";
    SplitJoin(fields);
  }

  /** What the as-written parser does: return or throw, or read past the end of the field vector. */
  datatype ParseOutcome = Returns(result: Result<ConnectionInfo, ParseError>) | IndexOutOfRange

  /**
   * `parse_connection_string` as written: the guard `size() <= 0 || size() > 3`
   * lets one- and two-field strings through to `conn_parts[1]` and `conn_parts[2]`.
   * This models the guard and the field reads given a split that returns its
   * fields; the as-written split itself never returns (`SplitAsWritten`).
   */
  function ParseAsWritten(conn: string, resolve: Resolver): (r: ParseOutcome)
    ensures |Split(conn)| > 3 ==> r == Returns(Err(InvalidConnectionString))
    ensures r.Returns? && r.result.Ok? ==> |Split(conn)| == 3 && r.result == Parse(conn, resolve)
  {
    var parts := Split(conn);
    if |parts| <= 0 || |parts| > 3 then Returns(Err(InvalidConnectionString))
    else if |parts| < 3 then IndexOutOfRange
    else Returns(ParseFields(parts[0], parts[1], parts[2], resolve))
  }

  /**
   * The as-written parser reads out of range exactly when the string has fewer
   * than two delimiters (its `size() <= 0` test never holds, as a split always has
   * a field); on every other string it agrees with `Parse`.
   */
  lemma AsWrittenIndexesOutOfRange(conn: string, resolve: Resolver)
    ensures ParseAsWritten(conn, resolve) == IndexOutOfRange <==> CountDelimiters(conn) < 2
    ensures CountDelimiters(conn) >= 2 ==> ParseAsWritten(conn, resolve) == Returns(Parse(conn, resolve))
  {
    SplitProperties(conn);
  }

  /** `"tcp:8080"`: the as-written parser reads a third field that is not there; `Parse` rejects it. */
  lemma TwoFieldsExample(resolve: Resolver)
    ensures ParseAsWritten("tcp:8080", resolve) == IndexOutOfRange
    ensures Parse("tcp:8080", resolve) == Err(InvalidConnectionString)
  {
    var fields := ["tcp", "8080"];
    assert Join(fields) == "tcp:8080";
    SplitJoin(fields);
  }
}
