# henet core, modelled in Dafny

henet is a small C++ networking library: a `server` that binds to a
connection string such as `tcp::8080` and serves connections with epoll. It
also provides RAII wrappers around a socket descriptor (`ha::socket`), a socket
address (`ha::address`) and a generic resource guard (`ha::scoped_resource`).
This project models the parts of it that are pure logic:

- **Connection strings.** `server::split_connection_string` cuts a string at
  each `:`, and `server::parse_connection_string` turns the three fields into a
  `connection_info` (family, socket type, protocol, port, IPv4 address).
  - `ConnectionSplit` defines the intended split and a loop that computes it.
  - `SplitAsWritten` models the loop with its real 32-bit/64-bit types.
  - `PortText` models `istream >> int` on the port field.
  - `ConnectionString` models the parser, with `getaddrinfo` as a resolver
    function passed in by the caller.
- **`ha::socket`** (`Socket`). A handle on one `int` descriptor. The world is
  every live handle's value plus the set of descriptors the OS has open.
  - Proved: move transfers ownership, close is idempotent, copy aliases a
    descriptor and leads to a double release, move assignment leaks the
    target's descriptor.
- **`ha::address`** (`Address`, `BindAddress`). A 16-byte `sockaddr` with its
  `sockaddr_in` overlay, and its copy/move semantics.
  - A move zeroes the source.
  - `server::bind` truncates a parsed port to 16 bits.
- **`ha::scoped_resource`** (`ScopedResource`). The trace of initializer,
  accessor and finalizer calls over one scope.

`Handles` holds the copy/move behaviour that `socket` and `address` share.
Object identity (`this != &other`) is an `Id` key into a map of live objects.
`Wrappers` defines `Option` and `Result`. `NetBytes` defines fixed-width
integers and byte order for a little-endian host.

`henet.h` and `henet.cpp` do not fully agree. The model follows `henet.cpp`
for behaviour and `henet.h` for field layout (`connection_info`,
`sockaddr sockaddr_`).

The code's guard (henet.cpp:306) rejects only an empty field list or more
than three fields, then reads fields two and three unchecked. `Parse` rejects
every field count other than three; the as-written behaviour is kept in
`ParseAsWritten` (see Findings).

## Model

| member | source | states |
|---|---|---|
| ConnectionSplit.FindFrom | henet.cpp:373 | `find_first_of(":", pos)` on a valid position: either the index of a `:` at or after `pos`, or none |
| ConnectionSplit.FindFromIsFirst | henet.cpp:373 | the index reported is the first `:` from `pos` on; "none" means no `:` at all from `pos` on |
| ConnectionSplit.SplitFrom | henet.cpp:366-382 | splitting the rest of a string always yields at least one field |
| ConnectionSplit.SplitProperties | henet.cpp:360-385 | joining the fields with `:` gives back the string, no field contains `:`, and there is one field more than there are delimiters |
| ConnectionSplit.SplitJoin | henet.cpp:360-385 | splitting the join of any non-empty list of `:`-free fields gives back exactly those fields |
| ConnectionSplit.SplitLoop | henet.cpp:360-385 | the splitting loop (with a properly wide position type) returns exactly the field list of the intended split |
| SplitAsWritten.Run | henet.cpp:364-381 | the loop as written, pass by pass: 32-bit positions, `find_first_of`'s result truncated into `pos2`, `pos2 + 1` wrapping, and an out-of-range iterator ending the run as undefined |
| SplitAsWritten.RunOnlyAppends | henet.cpp:379 | each pass pushes at most one field, and the fields collected before are kept in order at the front |
| SplitAsWritten.FindFirstOf | henet.cpp:373 | `find_first_of` as a 64-bit `size_t`: `npos` or an index in range |
| SplitAsWritten.NeverFinishes | henet.cpp:364-366 | with 32-bit `pos1`/`pos2`, the loop guard against the 64-bit `npos` is never false, for any number of iterations |
| SplitAsWritten.AllButLastThenUndefined | henet.cpp:364-381 | from any position on a string shorter than 2^32 − 1 characters, the loop collects every remaining field but the last one and then forms an iterator past the end |
| SplitAsWritten.LastFieldWrapsAtMaxLength | henet.cpp:373-380 | on a string of exactly 2^32 − 1 characters, the pass that finds no `:` pushes the last field, leaves `0xFFFFFFFF` in `pos2` and wraps `pos1` to 0 |
| SplitAsWritten.StepAtMaxLength | henet.cpp:366-380 | on a string of exactly 2^32 − 1 characters every pass pushes one field and leaves `pos1` inside the string |
| SplitAsWritten.EndlessAtMaxLength | henet.cpp:364-381 | on a string of exactly 2^32 − 1 characters the loop neither leaves nor forms an out-of-range iterator, for any number of passes |
| SplitAsWritten.AsWrittenSplit | henet.cpp:360-385 | on a whole string, the as-written split yields all fields but the last before undefined behaviour |
| SplitAsWritten.TcpAnyHostExample | henet.cpp:360-385 | `tcp::8080` collects `tcp` and the empty host, then runs past the end |
| PortText.ReadInt | henet.cpp:349-350 | `istream >> int` on the port field: the result is within `int` range, and text with no digit reads as 0 |
| PortText.ReadIntDecimal | henet.cpp:349-350 | the decimal text of any `n <= INT_MAX`, followed by nothing or a non-digit, reads back as `n` |
| PortText.ReadIntSaturates | henet.cpp:349-350 | the text of a value above `INT_MAX` reads as `INT_MAX` |
| PortText.ReadIntNegative | henet.cpp:349-350 | `-` followed by a decimal reads as its negation clamped to `INT_MIN`, never positive |
| ConnectionString.Transport | henet.cpp:315-328 | exactly `tcp` and `udp` are accepted, giving stream/TCP and datagram/UDP |
| ConnectionString.HostAddress | henet.cpp:330-347 | an empty host keeps `INADDR_ANY`; a failed lookup is an invalid host; otherwise the first resolved address is taken |
| ConnectionString.Parse | henet.cpp:295-358 | each error kind holds exactly when its check is the first to fail (field count, protocol, host, port `<= 0`); a success has family `AF_INET`, the protocol's type and number, the resolved address and the port as read |
| ConnectionString.ParseFormat | henet.cpp:295-358 | `tcp`/`udp`, a host without `:` and a port in `1..INT_MAX`, formatted and parsed, give back exactly those parameters, or an invalid host if lookup fails |
| ConnectionString.PortHasNoUpperBound | henet.cpp:349-355 | ports 65536 to `INT_MAX` are accepted as they are |
| ConnectionString.ZeroPortRejected | henet.cpp:352-355 | port 0 is rejected as an invalid port once protocol and host pass |
| ConnectionString.TcpAnyHost8080 | henet.cpp:295-358 | `tcp::8080` parses to TCP on any address, port 8080 |
| ConnectionString.FtpFailsOnProtocol | henet.cpp:325-328 | an unknown protocol is rejected before the host and port are looked at |
| ConnectionString.FourFieldsRejected | henet.cpp:306-309 | four fields are an invalid connection string |
| ConnectionString.ParseAsWritten | henet.cpp:304-313 | the guard and field reads as written, given a split that returns: more than three fields is an invalid connection string, and a success only ever happens on exactly three fields, with the same result as `Parse` |
| ConnectionString.AsWrittenIndexesOutOfRange | henet.cpp:304-313 | the as-written parser indexes past the field vector exactly when there are fewer than two delimiters, so `size() <= 0` never holds; otherwise it agrees with `Parse` |
| ConnectionString.TwoFieldsExample | henet.cpp:306-313 | `tcp:8080` makes the as-written parser read a missing third field, while `Parse` rejects it |
| Socket.Construct | henet.cpp:12-15 | a default socket holds `-1` and nothing is opened |
| Socket.Adopt | henet.cpp:17-20 | a socket built from an `int` holds that number; the OS is not called |
| Socket.Create | henet.cpp:22-29 | a negative `::socket` result is the "Invalid socket." error; otherwise the new handle holds the new descriptor, which is now open |
| Socket.CopyConstruct | henet.cpp:31-36 | the copy holds the same number as the original; nothing is opened |
| Socket.MoveConstruct | henet.cpp:38-43 | the new socket takes the number and the original is left with `-1` |
| Socket.Close | henet.cpp:50-57 | only a non-negative number is closed and reset to `-1`; closing a number the OS has no longer open is a stale release |
| Socket.Destroy | henet.cpp:45-48 | the destructor does what `close()` does and the handle is gone |
| Socket.Value | henet.cpp:87-90 | `operator const int()` gives the handle's number; while nothing dangles, a non-negative one is an open descriptor |
| Socket.CopyAssign | henet.cpp:59-67 | the target takes the source's number and every other handle and the OS are unchanged |
| Socket.MoveAssign | henet.cpp:69-78 | the target takes the number, the source gets `-1`, self-move changes nothing, the OS is unchanged |
| Socket.AssignRaw | henet.cpp:80-85 | assigning an `int` overwrites the number without closing the old one, and returns the new one |
| Socket.CloseIsIdempotent | henet.cpp:50-57 | a second `close()` changes nothing and releases nothing |
| Socket.DefaultHandleReleasesNothing | henet.cpp:12-57 | a default socket reads `-1`, and destroying it calls nothing and leaves the world as before |
| Socket.CloseUnderSoleOwnership | henet.cpp:50-57 | while no two handles share a descriptor and none dangles, `close()` never hits a stale number, and both facts still hold afterwards |
| Socket.MoveTransfersOwnership | henet.cpp:69-78 | move assignment hands the descriptor to the target, leaves `-1` in the source and keeps single ownership |
| Socket.MoveAssignLeaksTarget | henet.cpp:69-78 | the target's old descriptor stays open with no handle left holding it |
| Socket.CopyAliases | henet.cpp:59-67 | copying a socket that holds a descriptor breaks single ownership |
| Socket.CopyThenDoubleRelease | henet.cpp:50-67 | after a copy, closing the original releases the descriptor and closing the copy releases the same number again |
| Socket.MoveConstructThenDestroySource | henet.cpp:38-57 | after a move construction, destroying the moved-from socket closes nothing |
| Socket.CreateKeepsOwnership | henet.cpp:22-29 | creating a socket on a fresh descriptor keeps single ownership and nothing dangling |
| Socket.AssignRawLeaks | henet.cpp:80-85 | assigning another `int` leaves the old descriptor open with no handle holding it |
| Socket.CopyConstructAliases | henet.cpp:31-36 | a copy-constructed socket shares the original's descriptor, and the two destructors release it once and then again |
| Socket.AdoptKeepsOwnership | henet.cpp:17-20 | adopting an open descriptor no handle holds keeps single ownership and nothing dangling |
| Handles.SelfAssignmentIsNoOp | henet.cpp:59-78 | the `this != &other` test makes self copy and self move change nothing |
| Address.Zeroed | henet.cpp:97-100 | the zero-initialised `sockaddr` has every byte 0 |
| Address.Default | henet.cpp:97-100 | a default address reads as family 0, port 0, address 0.0.0.0 |
| Address.Encode | henet.h:113 | the `sockaddr_in` fields lie at bytes 0-1, 2-3, 4-7 and 8-15 of the stored `sockaddr` |
| Address.AsInetEncode | henet.cpp:192-195 | reading the `sockaddr_in` view of laid-out fields gives those fields back |
| Address.AsInet | henet.cpp:192-195 | `operator const sockaddr_in()` reads the overlay, and every stored `sockaddr` is exactly the layout of what it reads |
| Address.FromComponents | henet.cpp:107-114 | family bytes are the `short` cast to `unsigned short`, the port is stored in network byte order and `ntohs` recovers it, the address is kept and the pad is zero |
| Address.FromRaw | henet.cpp:102-105 | an address built from a `sockaddr` stores exactly those bytes |
| Address.Size | henet.cpp:202-205 | `size()` is the byte length of the stored `sockaddr`, whatever its contents |
| Address.CopyAssign | henet.cpp:147-155 | the target takes the source's bytes and the source keeps them |
| Address.MoveAssign | henet.cpp:157-166 | the target takes the source's bytes, the source is zeroed, and self-move changes nothing |
| Address.CopyConstruct | henet.cpp:128-133 | the copy holds the original's bytes |
| Address.MoveConstruct | henet.cpp:135-140 | the new address holds the original's bytes and the original is zeroed |
| Address.Destroy | henet.cpp:142-145 | the destroyed address is gone and every other one is unchanged |
| Address.FromRawReadsBack | henet.cpp:102-105 | an address built from the layout of some fields reads back exactly those fields, and its size is the full 16 bytes |
| Address.CopyConstructKeepsSource | henet.cpp:128-133 | a copy-constructed address leaves the original untouched, reads the same endpoint, and destroying it restores the world as before |
| Address.DestroyMovedFromKeepsTarget | henet.cpp:142-166 | destroying the moved-from address leaves the endpoint the target took over intact |
| Address.MoveZeroesSource | henet.cpp:157-166 | after a move the target reads as the source's endpoint and the source reads as the default address |
| Address.MoveConstructZeroesSource | henet.cpp:135-140 | after a move construction the original reads as the default address |
| Address.CopyKeepsSource | henet.cpp:147-155 | after a copy both addresses are equal and give the same port through `ntohs` |
| BindAddress.FromInfo | henet.cpp:219 | the bound address carries the parsed host address, and the parsed port modulo 65536 in network order |
| BindAddress.BoundPortIsTruncated | henet.cpp:217-219 | a `tcp` string with any port in `1..INT_MAX` parses, and the address bound carries that port modulo 65536 |
| ScopedResource.Scope | henet.h:143-145 | one scope: the trace starts with the initializer call, and is that call alone exactly when the initializer throws; no more results than uses |
| ScopedResource.Get | henet.h:149-150 | `get()` and `operator T()` hand out the stored resource as it is; what that value is inside a scope is stated by `ScopedResource.ReadsInScope` |
| ScopedResource.ReadsInScope | henet.h:147-150 | inside a scope, at every read, `get()` returns the value the initializer stored and `get<Y>()` returns its cast |
| ScopedResource.GetAs | henet.h:147-148 | `get<Y>()` is the cast of the stored resource |
| ScopedResource.UseAll | henet.h:148-150 | every read during the scope returns the stored resource; the uses apply in order to it, and the first one that throws ends the body |
| ScopedResource.ScopeLifecycle | henet.h:143-156 | the initializer runs once, first; the finalizer runs exactly once, last, on the value the initializer returned, even when a use throws, and never when the initializer throws; every read sees that value |

## Left out

- `server::bind`, `listen`, `accept` and `dispatch_impl` (henet.cpp:215-293) are left out: they are OS calls, threads and epoll. Only the address `bind` builds is modelled.
- The epoll wrapper, `client`, `mutex` and the `util` helpers are left out: they are OS and threading code.
- `socket::read`, `write`, `write_file`, `reuse` and `nonblocking` are left out: they are OS I/O.
- `socket::operator const int*()` and `address::operator const sockaddr*()`/`sockaddr_in*()` are left out: they hand out the address of the stored field.
- `address(std::string, unsigned short)` and `address::str()` are left out: they rely on `inet_pton`/`inet_ntop`.
- The stream operators (henet.cpp:389-409) and `hetest.cpp` are left out.
- `getaddrinfo` is a resolver function the caller passes in. Only the first result's IPv4 address is read; results of another family are not modelled.
- `parse_connection_string` never calls `freeaddrinfo` (henet.cpp:332-346), so each successful lookup leaks its result list; the resolver returns a value, and memory is not modelled.
- An empty successful lookup result keeps `INADDR_ANY`, as the source's loop over the results does.
- `htons`/`ntohs` assume a little-endian host.
- Strings are taken as one byte per character: the 2^32 − 1 bound of the as-written split counts `char`s, while `std::string` positions count bytes.
- The split loop uses an `LP64` host: 32-bit `unsigned` and 64-bit `size_t`.
- `PortText.ReadInt` models `istream >> int` in the C locale, with C++11 overflow clamping and 0 stored on failure. Stream flags, other locales and digit grouping are not modelled.
- `ScopedResource` cannot express that copy and move are deleted (henet.h:152-156): Dafny values carry no identity. It models the one scope a non-copyable object lives in, and no member duplicates or transfers a resource.
- A finalizer that throws, and the stored `std::function` copies, are left out.
- `Socket.Create`: the new descriptor is assumed not to be open already, as the OS guarantees for `::socket`.
- `BindAddress.FromInfo`: the family conversion to `short` is only stated for non-negative families; the parser always produces `AF_INET`.

## Findings

| source | as written | input that shows it | evidently intended | confidence | as-written member | corrected member |
|---|---|---|---|---|---|---|
| henet.cpp:364-381 | `pos1`/`pos2` are 32-bit `unsigned`, compared with the 64-bit `npos`; after the last field `pos2` holds `0xFFFFFFFF`, the 64-bit tests at lines 366 and 374 still pass, and line 376 of that same pass forms `begin() + 0xFFFFFFFF` | `tcp::8080` | `size_t` positions: the loop stops after the last field and returns all three | not executed | SplitAsWritten.AllButLastThenUndefined | ConnectionSplit.SplitLoop |
| henet.cpp:364-381 | the same loop on a string of exactly 2^32 − 1 characters: the pass that finds no `:` stores `0xFFFFFFFF` in `pos2`, `begin() + 0xFFFFFFFF` is `end()`, line 379 pushes the last field and `pos2 + 1` wraps `pos1` to 0, so the loop starts over | any string of 2^32 − 1 characters | `size_t` positions: the loop stops after the last field | not executed | SplitAsWritten.EndlessAtMaxLength | ConnectionSplit.SplitLoop |
| henet.cpp:306-313 | the guard rejects only `size() <= 0` (never true) or `> 3`, then reads `conn_parts[1]` and `[2]` | `tcp:8080` | reject every field count other than three | not executed | ConnectionString.AsWrittenIndexesOutOfRange | ConnectionString.Parse |
