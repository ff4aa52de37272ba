/** `split` and `trim` of src/string.cpp, over strings as sequences of characters. */
module Strings {
  import opened Wrappers

  /** `d` occurs in `s` at position `p`. */
  predicate MatchAt(s: string, d: string, p: int)
  {
    0 <= p && p + |d| <= |s| && s[p..p + |d|] == d
  }

  /** `s.find(d, from)`: the first position at or after `from` where `d` occurs, or `None`
      for `npos`. */
  function Find(s: string, d: string, from: nat): (r: Option<nat>)
    ensures r.Some? ==> from <= r.value && MatchAt(s, d, r.value)
    ensures r.Some? ==> forall q :: from <= q < r.value ==> !MatchAt(s, d, q)
    ensures r.None? ==> forall q :: from <= q ==> !MatchAt(s, d, q)
    decreases |s| - from
  {
    if from + |d| > |s| then None
    else if s[from..from + |d|] == d then Some(from)
    else Find(s, d, from + 1)
  }

  /** The pieces `split` produces from position `from` on: the text up to the next
      delimiter, then the pieces after it, and finally the rest of the string. */
  function SplitFrom(s: string, d: string, from: nat): (pieces: seq<string>)
    requires |d| > 0 && from <= |s|
    ensures |pieces| >= 1
    decreases |s| - from
  {
    match Find(s, d, from)
    case Some(p) => [s[from..p]] + SplitFrom(s, d, p + |d|)
    case None => [s[from..]]
  }

  /** The pieces separated by `d`. */
  function Join(pieces: seq<string>, d: string): string
  {
    if pieces == [] then []
    else if |pieces| == 1 then pieces[0]
    else pieces[0] + d + Join(pieces[1..], d)
  }

  /** `d` occurs somewhere in `t`. */
  predicate Contains(t: string, d: string)
  {
    exists q :: 0 <= q <= |t| && MatchAt(t, d, q)
  }

  /** The number of delimiters `split` finds scanning left to right from `from`. */
  function Delimiters(s: string, d: string, from: nat): nat
    requires |d| > 0 && from <= |s|
    decreases |s| - from
  {
    match Find(s, d, from)
    case Some(p) => 1 + Delimiters(s, d, p + |d|)
    case None => 0
  }

  /** `split`: scans for the delimiter from `pos_start`, pushes the text before each one and
      finally the rest.  An empty delimiter is found again at the same position forever, so
      the delimiter must not be empty. */
  method Split(s: string, d: string) returns (res: seq<string>)
    requires |d| > 0
    ensures res == SplitFrom(s, d, 0)
  {
    var start := 0;
    res := [];
    var found := Find(s, d, start);
    while found.Some?
      invariant 0 <= start <= |s| && found == Find(s, d, start)
      invariant res + SplitFrom(s, d, start) == SplitFrom(s, d, 0)
      decreases |s| - start
    {
      var end := found.value;
      SplitStep(s, d, start, end);
      assert (res + [s[start..end]]) + SplitFrom(s, d, end + |d|) == res + SplitFrom(s, d, start);
      res := res + [s[start..end]];
      start := end + |d|;
      found := Find(s, d, start);
    }
    res := res + [s[start..]];
  }

  /** One piece of `split`: the text up to the delimiter found at `end`. */
  lemma SplitStep(s: string, d: string, start: nat, end: nat)
    requires |d| > 0 && start <= |s| && Find(s, d, start) == Some(end)
    ensures start <= end && end + |d| <= |s|
    ensures SplitFrom(s, d, start) == [s[start..end]] + SplitFrom(s, d, end + |d|)
  {
  }

  /** Joining the pieces with the delimiter gives back the string. */
  lemma {:induction false} JoinSplit(s: string, d: string, from: nat)
    requires |d| > 0 && from <= |s|
    ensures Join(SplitFrom(s, d, from), d) == s[from..]
    decreases |s| - from
  {
    match Find(s, d, from)
    case Some(p) =>
      JoinSplit(s, d, p + |d|);
      var rest := SplitFrom(s, d, p + |d|);
      assert SplitFrom(s, d, from)[1..] == rest;
      assert s[from..] == s[from..p] + d + s[p + |d|..];
    case None =>
  }

  /** No piece contains the delimiter. */
  lemma {:induction false} SplitPiecesFree(s: string, d: string, from: nat)
    requires |d| > 0 && from <= |s|
    ensures forall i :: 0 <= i < |SplitFrom(s, d, from)| ==> !Contains(SplitFrom(s, d, from)[i], d)
    decreases |s| - from
  {
    var pieces := SplitFrom(s, d, from);
    match Find(s, d, from)
    case Some(p) =>
      SplitPiecesFree(s, d, p + |d|);
      PieceFree(s, d, from, p);
      forall i | 0 <= i < |pieces| ensures !Contains(pieces[i], d) {
        if i > 0 {
          assert pieces[i] == SplitFrom(s, d, p + |d|)[i - 1];
        }
      }
    case None =>
      PieceFree(s, d, from, |s|);
      assert s[from..|s|] == s[from..];
  }

  /** The text between `from` and the first match at or after it holds no match. */
  lemma PieceFree(s: string, d: string, from: nat, p: nat)
    requires |d| > 0 && from <= p <= |s|
    requires forall q :: from <= q < p ==> !MatchAt(s, d, q)
    ensures !Contains(s[from..p], d)
  {
    if Contains(s[from..p], d) {
      var t := s[from..p];
      var q :| 0 <= q <= |t| && MatchAt(t, d, q);
      assert t[q..q + |d|] == d;
      forall k | 0 <= k < |d| ensures s[from + q..from + q + |d|][k] == d[k] {
        assert t[q..q + |d|][k] == t[q + k];
      }
      assert s[from + q..from + q + |d|] == d;
      assert MatchAt(s, d, from + q);
    }
  }

  /** There is one more piece than delimiters found. */
  lemma {:induction false} SplitCount(s: string, d: string, from: nat)
    requires |d| > 0 && from <= |s|
    ensures |SplitFrom(s, d, from)| == Delimiters(s, d, from) + 1
    decreases |s| - from
  {
    match Find(s, d, from)
    case Some(p) => SplitCount(s, d, p + |d|);
    case None =>
  }

  /** The empty string splits into one empty piece. */
  lemma SplitEmpty(d: string)
    requires |d| > 0
    ensures SplitFrom([], d, 0) == [[]]
  {
    assert Find([], d, 0) == None;
  }

  /** The characters of `" \t\r\n"`. */
  predicate IsSpace(c: char)
  {
    c == ' ' || c == '\t' || c == '\r' || c == '\n'
  }

  predicate AllSpace(s: string)
  {
    forall i :: 0 <= i < |s| ==> IsSpace(s[i])
  }

  /** `find_first_not_of(" \t\r\n")`. */
  function FirstNotSpace(s: string): (r: Option<nat>)
    ensures r.Some? ==> r.value < |s| && !IsSpace(s[r.value]) && AllSpace(s[..r.value])
    ensures r.None? ==> AllSpace(s)
  {
    if s == [] then None
    else if !IsSpace(s[0]) then Some(0)
    else match FirstNotSpace(s[1..])
      case Some(i) =>
        assert s[..i + 1] == [s[0]] + s[1..][..i];
        Some(i + 1)
      case None => None
  }

  /** `find_last_not_of(" \t\r\n")`. */
  function LastNotSpace(s: string): (r: Option<nat>)
    ensures r.Some? ==> r.value < |s| && !IsSpace(s[r.value]) && AllSpace(s[r.value + 1..])
    ensures r.None? ==> AllSpace(s)
  {
    if s == [] then None
    else if !IsSpace(s[|s| - 1]) then Some(|s| - 1)
    else match LastNotSpace(s[..|s| - 1])
      case Some(i) =>
        assert s[i + 1..] == s[..|s| - 1][i + 1..] + [s[|s| - 1]];
        Some(i)
      case None => None
  }

  /** `trim`: "" when there is nothing but whitespace, otherwise the text from the first to
      the last character that is not whitespace. */
  function Trim(s: string): (t: string)
  {
    match FirstNotSpace(s)
    case None => []
    case Some(start) =>
      var end := LastNotSpace(s).value;
      s[start..end + 1]
  }

  /** `trim` cuts whitespace only: the string is leading whitespace, the result and trailing
      whitespace, and the result is empty or starts and ends with a character that is not
      whitespace. */
  lemma TrimCuts(s: string)
    ensures exists i, j :: 0 <= i <= j <= |s| && Trim(s) == s[i..j] && AllSpace(s[..i]) && AllSpace(s[j..])
    ensures Trim(s) != [] ==> !IsSpace(Trim(s)[0]) && !IsSpace(Trim(s)[|Trim(s)| - 1])
    ensures Trim(s) == [] <==> AllSpace(s)
  {
    match FirstNotSpace(s)
    case None =>
      assert Trim(s) == s[0..0] && AllSpace(s[..0]) && AllSpace(s[0..]);
    case Some(start) =>
      var end := LastNotSpace(s).value;
      assert Trim(s) == s[start..end + 1];
  }

  /** Trimming twice is trimming once. */
  lemma TrimIdempotent(s: string)
    ensures Trim(Trim(s)) == Trim(s)
  {
    TrimCuts(s);
    var t := Trim(s);
    if t != [] {
      assert FirstNotSpace(t) == Some(0);
      assert LastNotSpace(t) == Some(|t| - 1);
      assert t[0..|t|] == t;
    }
  }
}
