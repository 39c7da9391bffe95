/**
 * The intended behaviour of `server::split_connection_string`: cut a connection
 * string at every `:` and keep every field, empty ones included.
 */
module ConnectionSplit {
  import opened Wrappers

  const Delimiter: char := ':'

  /** `find_first_of(":", from)`: the first delimiter at or after `from`; `None` plays `npos`. */
  function FindFrom(s: string, from: nat): (r: Option<nat>)
    requires from <= |s|
    ensures r.Some? ==> from <= r.value < |s| && s[r.value] == Delimiter
    decreases |s| - from
  {
    if from == |s| then None
    else if s[from] == Delimiter then Some(from)
    else FindFrom(s, from + 1)
  }

  /** `FindFrom` skips no delimiter: there is none between `from` and what it reports. */
  lemma {:induction false} FindFromIsFirst(s: string, from: nat)
    requires from <= |s|
    ensures FindFrom(s, from).Some? ==> forall i :: from <= i < FindFrom(s, from).value ==> s[i] != Delimiter
    ensures FindFrom(s, from).None? ==> forall i :: from <= i < |s| ==> s[i] != Delimiter
    decreases |s| - from
  {
    if from < |s| && s[from] != Delimiter {
      FindFromIsFirst(s, from + 1);
    }
  }

  /** The fields of `s` that start at or after `from`, in order. */
  function SplitFrom(s: string, from: nat): (parts: seq<string>)
    requires from <= |s|
    ensures |parts| >= 1
    decreases |s| - from
  {
    match FindFrom(s, from)
    case None => [s[from..]]
    case Some(p) => [s[from..p]] + SplitFrom(s, p + 1)
  }

  /** Every `:`-delimited field of `s`, in order. */
  function Split(s: string): (parts: seq<string>)
    ensures |parts| >= 1
  {
    SplitFrom(s, 0)
  }

  /** Glues fields back together with one delimiter between neighbours. */
  function Join(parts: seq<string>): string
    requires |parts| >= 1
    decreases |parts|
  {
    if |parts| == 1 then parts[0] else parts[0] + [Delimiter] + Join(parts[1..])
  }

  /** Number of delimiters at or after position `from` of `s`. */
  function CountFrom(s: string, from: nat): nat
    requires from <= |s|
    decreases |s| - from
  {
    if from == |s| then 0 else (if s[from] == Delimiter then 1 else 0) + CountFrom(s, from + 1)
  }

  /** Number of delimiters in `s`. */
  function CountDelimiters(s: string): nat
  {
    CountFrom(s, 0)
  }

  /** Positions that hold no delimiter add nothing to the count. */
  lemma {:induction false} CountSkip(s: string, from: nat, to: nat)
    requires from <= to <= |s|
    requires forall i :: from <= i < to ==> s[i] != Delimiter
    ensures CountFrom(s, from) == CountFrom(s, to)
    decreases |s| - from
  {
    if from < to {
      CountSkip(s, from + 1, to);
    }
  }

  /** No field of a split contains the delimiter. */
  lemma {:induction false} SplitFromFieldsDelimiterFree(s: string, from: nat)
    requires from <= |s|
    ensures forall k :: 0 <= k < |SplitFrom(s, from)| ==> Delimiter !in SplitFrom(s, from)[k]
    decreases |s| - from
  {
    FindFromIsFirst(s, from);
    match FindFrom(s, from)
    case None =>
    case Some(p) =>
      SplitFromFieldsDelimiterFree(s, p + 1);
      var parts := SplitFrom(s, from);
      forall k | 0 <= k < |parts| ensures Delimiter !in parts[k] {
        if k > 0 {
          assert parts[k] == SplitFrom(s, p + 1)[k - 1];
        }
      }
  }

  /** Splitting yields exactly one more field than there are delimiters. */
  lemma {:induction false} SplitFromLength(s: string, from: nat)
    requires from <= |s|
    ensures |SplitFrom(s, from)| == CountFrom(s, from) + 1
    decreases |s| - from
  {
    FindFromIsFirst(s, from);
    match FindFrom(s, from)
    case None =>
      CountSkip(s, from, |s|);
    case Some(p) =>
      CountSkip(s, from, p);
      SplitFromLength(s, p + 1);
  }

  /** Joining the fields with `:` gives back the part of the string they came from. */
  lemma {:induction false} JoinSplitFrom(s: string, from: nat)
    requires from <= |s|
    ensures Join(SplitFrom(s, from)) == s[from..]
    decreases |s| - from
  {
    match FindFrom(s, from)
    case None =>
    case Some(p) =>
      assert SplitFrom(s, from)[1..] == SplitFrom(s, p + 1);
      JoinSplitFrom(s, p + 1);
      assert s[from..] == s[from..p] + [Delimiter] + s[p + 1..];
  }

  /** Splitting: the fields of `s` join back to `s`, none holds a `:`, and there is one per `:` plus one. */
  lemma SplitProperties(s: string)
    ensures Join(Split(s)) == s
    ensures forall k :: 0 <= k < |Split(s)| ==> Delimiter !in Split(s)[k]
    ensures |Split(s)| == CountDelimiters(s) + 1
  {
    JoinSplitFrom(s, 0);
    SplitFromFieldsDelimiterFree(s, 0);
    SplitFromLength(s, 0);
    assert s[0..] == s;
  }

  /** A delimiter with none before it, from `from` on, is what `FindFrom` reports. */
  lemma {:induction false} FindFromLands(s: string, from: nat, q: nat)
    requires from <= q < |s| && s[q] == Delimiter
    requires forall i :: from <= i < q ==> s[i] != Delimiter
    ensures FindFrom(s, from) == Some(q)
    decreases q - from
  {
    if from < q {
      FindFromLands(s, from + 1, q);
    }
  }

  /** Where a suffix is a join of several fields, the first delimiter ends the first field. */
  lemma JoinFirstField(s: string, from: nat, parts: seq<string>)
    requires from <= |s|
    requires |parts| >= 2 && s[from..] == Join(parts)
    requires Delimiter !in parts[0]
    ensures from + |parts[0]| < |s|
    ensures FindFrom(s, from) == Some(from + |parts[0]|)
    ensures s[from..from + |parts[0]|] == parts[0]
    ensures s[from + |parts[0]| + 1..] == Join(parts[1..])
  {
    var field := parts[0];
    var q := from + |field|;
    assert s[from..] == field + [Delimiter] + Join(parts[1..]);
    forall i | from <= i < q ensures s[i] != Delimiter {
      assert s[i] == field[i - from];
    }
    assert s[q] == Delimiter;
    FindFromLands(s, from, q);
  }

  /** A suffix that is a join of delimiter-free fields splits into exactly those fields. */
  lemma {:induction false} SplitFromJoin(s: string, from: nat, parts: seq<string>)
    requires from <= |s|
    requires |parts| >= 1 && s[from..] == Join(parts)
    requires forall k :: 0 <= k < |parts| ==> Delimiter !in parts[k]
    ensures SplitFrom(s, from) == parts
    decreases |parts|
  {
    if |parts| == 1 {
      forall i | from <= i < |s| ensures s[i] != Delimiter {
        assert s[i] == parts[0][i - from];
      }
      assert FindFrom(s, from).None?;
    } else {
      JoinFirstField(s, from, parts);
      var q := from + |parts[0]|;
      SplitFromJoin(s, q + 1, parts[1..]);
      assert parts == [parts[0]] + parts[1..];
    }
  }

  /** Splitting a join of delimiter-free fields gives the fields back. */
  lemma SplitJoin(parts: seq<string>)
    requires |parts| >= 1
    requires forall k :: 0 <= k < |parts| ==> Delimiter !in parts[k]
    ensures Split(Join(parts)) == parts
  {
    var s := Join(parts);
    assert s[0..] == s;
    SplitFromJoin(s, 0, parts);
  }

  /**
   * `server::split_connection_string` with the position variables as wide as
   * `std::string::size_type`: `pos2 == None` is `npos`, which ends the loop.
   */
  method SplitLoop(conn: string) returns (parts: seq<string>)
    ensures parts == Split(conn)
  {
    parts := [];
    var pos1: nat := 0;
    var pos2: Option<nat> := Some(0);
    while pos2.Some?
      invariant pos1 <= |conn|
      invariant pos2.Some? ==> Split(conn) == parts + SplitFrom(conn, pos1)
      invariant pos2.None? ==> Split(conn) == parts
      decreases |conn| - pos1 + (if pos2.Some? then 1 else 0)
    {
      pos2 := FindFrom(conn, pos1);
      if pos2.None? {
        parts := parts + [conn[pos1..]];
      } else {
        var field := conn[pos1..pos2.value];
        assert parts + ([field] + SplitFrom(conn, pos2.value + 1)) == (parts + [field]) + SplitFrom(conn, pos2.value + 1);
        parts := parts + [field];
        pos1 := pos2.value + 1;
      }
    }
  }
}
