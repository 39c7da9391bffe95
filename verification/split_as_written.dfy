/**
 * `server::split_connection_string` exactly as written, on an LP64 host:
 * `pos1`/`pos2` are 32-bit `unsigned`, while `find_first_of` returns a 64-bit
 * `size_t` and the loop compares against the 64-bit `std::string::npos`.
 */
module SplitAsWritten {
  import opened Wrappers
  import opened ConnectionSplit

  /** `std::string::npos` with a 64-bit `size_t`. */
  const NPOS: int := 0xFFFF_FFFF_FFFF_FFFF

  /** Number of values of a 32-bit `unsigned`. */
  const UINT_RANGE: int := 0x1_0000_0000

  type Unsigned = x: int | 0 <= x < UINT_RANGE

  /** `conn.find_first_of(":", from)` as a `size_t`: an index, or `NPOS`. */
  function FindFirstOf(conn: string, from: nat): (r: int)
    ensures r == NPOS || from <= r < |conn|
  {
    if from > |conn| then NPOS
    else
      match FindFrom(conn, from)
      case None => NPOS
      case Some(p) => p
  }

  /** Where the as-written loop stands after some number of iterations. */
  datatype LoopState =
    | Finished(parts: seq<string>)                               // the loop guard became false
    | Undefined(parts: seq<string>)                              // an iterator was formed past the end
    | Running(parts: seq<string>, pos1: Unsigned, pos2: Unsigned) // still looping when the fuel ran out

  /**
   * At most `fuel` iterations of the loop. Storing the `size_t` result of
   * `find_first_of` in `pos2` keeps its low 32 bits, and `pos2 + 1` wraps
   * modulo 2^32. The inner `if (pos1 != npos)` repeats the loop guard and is
   * left out.
   */
  function Run(conn: string, pos1: Unsigned, pos2: Unsigned, parts: seq<string>, fuel: nat): (o: LoopState)
    decreases fuel
  {
    if fuel == 0 then Running(parts, pos1, pos2)
    else if !(pos1 != NPOS && pos2 != NPOS) then Finished(parts)
    else if pos1 > |conn| then Undefined(parts)
    else
      var next: Unsigned := FindFirstOf(conn, pos1) % UINT_RANGE;
      var e := if next != NPOS then next else |conn|;
      if e > |conn| || e < pos1 then Undefined(parts)
      else Run(conn, (next + 1) % UINT_RANGE, next, parts + [conn[pos1..e]], fuel - 1)
  }

  /**
   * The loop only ever appends, at most one field a pass: the fields
   * collected before are kept, in order, at the front.
   */
  lemma {:induction false} RunOnlyAppends(conn: string, pos1: Unsigned, pos2: Unsigned, parts: seq<string>, fuel: nat)
    ensures |parts| <= |Run(conn, pos1, pos2, parts, fuel).parts| <= |parts| + fuel
    ensures Run(conn, pos1, pos2, parts, fuel).parts[..|parts|] == parts
    decreases fuel
  {
    if fuel > 0 && pos1 != NPOS && pos2 != NPOS && pos1 <= |conn| {
      var next: Unsigned := FindFirstOf(conn, pos1) % UINT_RANGE;
      var e := if next != NPOS then next else |conn|;
      if !(e > |conn| || e < pos1) {
        var more := parts + [conn[pos1..e]];
        assert Run(conn, pos1, pos2, parts, fuel) == Run(conn, (next + 1) % UINT_RANGE, next, more, fuel - 1);
        RunOnlyAppends(conn, (next + 1) % UINT_RANGE, next, more, fuel - 1);
        assert more[..|parts|] == parts;
      }
    }
  }

  function AllButLast<T>(s: seq<T>): seq<T>
    requires |s| >= 1
  {
    s[..|s| - 1]
  }

  /** However long it runs, the as-written loop never leaves through its guard. */
  lemma {:induction false} NeverFinishes(conn: string, pos1: Unsigned, pos2: Unsigned, parts: seq<string>, fuel: nat)
    ensures !Run(conn, pos1, pos2, parts, fuel).Finished?
    decreases fuel
  {
    if fuel > 0 && pos1 <= |conn| {
      var next: Unsigned := FindFirstOf(conn, pos1) % UINT_RANGE;
      if pos1 <= next <= |conn| {
        NeverFinishes(conn, (next + 1) % UINT_RANGE, next, parts + [conn[pos1..next]], fuel - 1);
      }
    }
  }

  /** The low 32 bits of the 64-bit `npos` are `0xFFFFFFFF`. */
  lemma NposLowBits()
    ensures NPOS % UINT_RANGE == UINT_RANGE - 1
  {
  }

  /** The iteration that finds no delimiter forms an end iterator past the end. */
  lemma RunLastField(conn: string, pos1: Unsigned, pos2: Unsigned, parts: seq<string>, fuel: nat)
    requires |conn| < UINT_RANGE - 1
    requires pos1 <= |conn| && fuel > 0
    requires FindFrom(conn, pos1).None?
    ensures Run(conn, pos1, pos2, parts, fuel) == Undefined(parts)
  {
    NposLowBits();
  }

  /** The iteration that finds a delimiter at `p` collects the field before it and moves past it. */
  lemma RunNextField(conn: string, pos1: Unsigned, pos2: Unsigned, parts: seq<string>, fuel: nat, p: nat)
    requires |conn| <= UINT_RANGE - 1
    requires pos1 <= |conn| && fuel > 0
    requires FindFrom(conn, pos1) == Some(p)
    ensures p + 1 < UINT_RANGE
    ensures Run(conn, pos1, pos2, parts, fuel) == Run(conn, p + 1, p, parts + [conn[pos1..p]], fuel - 1)
  {
    assert FindFirstOf(conn, pos1) == p;
    assert p % UINT_RANGE == p;
    assert (p + 1) % UINT_RANGE == p + 1;
  }

  /** Joins the iteration at a delimiter to what the loop does from the next field on. */
  lemma UndefinedAfterField(conn: string, pos1: Unsigned, pos2: Unsigned, parts: seq<string>, p: nat)
    requires |conn| < UINT_RANGE - 1
    requires pos1 <= |conn|
    requires FindFrom(conn, pos1) == Some(p)
    requires Run(conn, p + 1, p, parts + [conn[pos1..p]], |SplitFrom(conn, p + 1)|)
          == Undefined((parts + [conn[pos1..p]]) + AllButLast(SplitFrom(conn, p + 1)))
    ensures Run(conn, pos1, pos2, parts, |SplitFrom(conn, pos1)|) == Undefined(parts + AllButLast(SplitFrom(conn, pos1)))
  {
    var field := conn[pos1..p];
    var rest := SplitFrom(conn, p + 1);
    var whole := SplitFrom(conn, pos1);
    assert whole == [field] + rest;
    RunNextField(conn, pos1, pos2, parts, |whole|, p);
    assert AllButLast(whole) == [field] + AllButLast(rest);
    assert (parts + [field]) + AllButLast(rest) == parts + AllButLast(whole);
  }

  /**
   * On any string shorter than 2^32 - 1 characters the loop collects every
   * field but the last one correctly, and then, when `find_first_of` reports
   * `npos`, forms the end iterator `conn.begin() + 0xFFFFFFFF`, which lies
   * past the end. At exactly 2^32 - 1 characters that iterator is `end()`
   * instead, and the loop never leaves (`EndlessAtMaxLength`).
   */
  lemma {:induction false} AllButLastThenUndefined(conn: string, pos1: Unsigned, pos2: Unsigned, parts: seq<string>)
    requires |conn| < UINT_RANGE - 1
    requires pos1 <= |conn|
    ensures Run(conn, pos1, pos2, parts, |SplitFrom(conn, pos1)|) == Undefined(parts + AllButLast(SplitFrom(conn, pos1)))
    decreases |conn| - pos1
  {
    match FindFrom(conn, pos1)
    case None =>
      RunLastField(conn, pos1, pos2, parts, 1);
    case Some(p) =>
      AllButLastThenUndefined(conn, p + 1, p, parts + [conn[pos1..p]]);
      UndefinedAfterField(conn, pos1, pos2, parts, p);
  }

  /** The whole string: every field but the last, then undefined behaviour. */
  lemma AsWrittenSplit(conn: string)
    requires |conn| < UINT_RANGE - 1
    ensures Run(conn, 0, 0, [], |Split(conn)|) == Undefined(AllButLast(Split(conn)))
  {
    AllButLastThenUndefined(conn, 0, 0, []);
  }

  /** `"tcp::8080"`: two fields are collected, then the third one is read through an out-of-range iterator. */
  lemma TcpAnyHostExample()
    ensures Run("tcp::8080", 0, 0, [], 3) == Undefined(["tcp", ""])
  {
    var fields := ["tcp", "", "8080"];
    assert Join(fields) == "tcp::8080";
    SplitJoin(fields);
    AsWrittenSplit("tcp::8080");
    assert AllButLast(fields) == ["tcp", ""];
  }

  /**
   * On a string of exactly 2^32 - 1 characters, the pass that finds no
   * delimiter stores `0xFFFFFFFF` in `pos2`, so the end iterator is `end()`:
   * the last field is pushed, and `pos2 + 1` wraps `pos1` back to 0.
   */
  lemma LastFieldWrapsAtMaxLength(conn: string, pos1: Unsigned, pos2: Unsigned, parts: seq<string>, fuel: nat)
    requires |conn| == UINT_RANGE - 1
    requires pos1 <= |conn| && fuel > 0
    requires FindFrom(conn, pos1).None?
    ensures Run(conn, pos1, pos2, parts, fuel) == Run(conn, 0, UINT_RANGE - 1, parts + [conn[pos1..]], fuel - 1)
  {
    NposLowBits();
    assert FindFirstOf(conn, pos1) == NPOS;
    assert conn[pos1..|conn|] == conn[pos1..];
  }

  /** On a string of exactly 2^32 - 1 characters every pass pushes a field and moves to a position inside the string. */
  lemma StepAtMaxLength(conn: string, pos1: Unsigned, pos2: Unsigned, parts: seq<string>, fuel: nat)
      returns (next: Unsigned, last: Unsigned, more: seq<string>)
    requires |conn| == UINT_RANGE - 1
    requires pos1 <= |conn| && fuel > 0
    ensures next <= |conn| && |more| == |parts| + 1
    ensures Run(conn, pos1, pos2, parts, fuel) == Run(conn, next, last, more, fuel - 1)
  {
    match FindFrom(conn, pos1)
    case None =>
      LastFieldWrapsAtMaxLength(conn, pos1, pos2, parts, fuel);
      next, last, more := 0, UINT_RANGE - 1, parts + [conn[pos1..]];
    case Some(p) =>
      RunNextField(conn, pos1, pos2, parts, fuel, p);
      next, last, more := p + 1, p, parts + [conn[pos1..p]];
  }

  /**
   * On a string of exactly 2^32 - 1 characters the loop never leaves and
   * never forms an out-of-range iterator: after any number of passes it is
   * still running, from a position inside the string.
   */
  lemma {:induction false} EndlessAtMaxLength(conn: string, pos1: Unsigned, pos2: Unsigned, parts: seq<string>, fuel: nat)
    requires |conn| == UINT_RANGE - 1
    requires pos1 <= |conn|
    ensures Run(conn, pos1, pos2, parts, fuel).Running?
    ensures Run(conn, pos1, pos2, parts, fuel).pos1 <= |conn|
    decreases fuel
  {
    if fuel > 0 {
      var next, last, more := StepAtMaxLength(conn, pos1, pos2, parts, fuel);
      EndlessAtMaxLength(conn, next, last, more, fuel - 1);
    }
  }
}
