/**
 * Python's `str.join` and `str.split(sep)` on strings, as used by main.py to
 * flatten a payload's type and ability names into one string and to recover
 * the type names from it again.
 */
module Text {
  import opened Options

  /** The separator main.py joins and splits with. */
  const Sep: string := ", "

  /** `sep` occurs in `s` starting at index `i`. */
  predicate OccursAt(s: string, sep: string, i: nat)
  {
    i + |sep| <= |s| && s[i..i + |sep|] == sep
  }

  /** Python's `sep in s`. */
  ghost predicate Contains(s: string, sep: string)
  {
    exists i: nat :: OccursAt(s, sep, i)
  }

  lemma OccursAtTail(s: string, sep: string, i: nat)
    requires s != []
    ensures OccursAt(s, sep, i + 1) <==> OccursAt(s[1..], sep, i)
  {
    if i + 1 + |sep| <= |s| {
      assert s[1..][i..i + |sep|] == s[i + 1..i + 1 + |sep|];
    }
  }

  /** Python's `s.find(sep)`: the first occurrence of `sep`, scanning left to right. */
  function IndexOf(s: string, sep: string): (r: Option<nat>)
    requires sep != []
    ensures r.Some? ==> OccursAt(s, sep, r.value)
    ensures r.Some? ==> forall j: nat :: j < r.value ==> !OccursAt(s, sep, j)
    ensures r.None? ==> forall j: nat :: !OccursAt(s, sep, j)
    decreases |s|
  {
    if |s| < |sep| then None
    else if s[..|sep|] == sep then Some(0)
    else
      match IndexOf(s[1..], sep)
      case None =>
        assert forall j: nat :: !OccursAt(s, sep, j) by {
          forall j: nat ensures !OccursAt(s, sep, j) {
            if j > 0 { OccursAtTail(s, sep, j - 1); }
          }
        }
        None
      case Some(i) =>
        assert forall j: nat :: j < i + 1 ==> !OccursAt(s, sep, j) by {
          forall j: nat | j < i + 1 ensures !OccursAt(s, sep, j) {
            if j > 0 { OccursAtTail(s, sep, j - 1); }
          }
        }
        OccursAtTail(s, sep, i);
        Some(i + 1)
  }

  /** Python's `sep.join(parts)`. */
  function Join(parts: seq<string>, sep: string): (r: string)
    ensures parts == [] ==> r == []
    ensures parts != [] ==> |r| == TotalLength(parts) + (|parts| - 1) * |sep|
    ensures parts != [] ==> r[..|parts[0]|] == parts[0]
  {
    if parts == [] then []
    else if |parts| == 1 then parts[0]
    else parts[0] + sep + Join(parts[1..], sep)
  }

  /** The summed length of all strings in `parts`. */
  function TotalLength(parts: seq<string>): nat
  {
    if parts == [] then 0 else |parts[0]| + TotalLength(parts[1..])
  }

  /**
   * Python's `s.split(sep)`: cut at every occurrence of `sep`, leftmost first;
   * a string without `sep` (the empty string included) gives one piece.
   */
  function Split(s: string, sep: string): (r: seq<string>)
    requires sep != []
    ensures |r| >= 1
    ensures forall k :: 0 <= k < |r| ==> !Contains(r[k], sep)
    decreases |s|
  {
    match IndexOf(s, sep)
    case None => [s]
    case Some(i) =>
      assert !Contains(s[..i], sep) by {
        forall j: nat | OccursAt(s[..i], sep, j) ensures false {
          assert s[..i][j..j + |sep|] == s[j..j + |sep|];
          assert OccursAt(s, sep, j);
        }
      }
      [s[..i]] + Split(s[i + |sep|..], sep)
  }

  lemma JoinCons(head: string, rest: seq<string>, sep: string)
    requires rest != []
    ensures Join([head] + rest, sep) == head + sep + Join(rest, sep)
  {
    assert ([head] + rest)[1..] == rest;
  }

  /** Joining the pieces of a split gives back the original string, for every string. */
  lemma {:induction false} JoinSplit(s: string, sep: string)
    requires sep != []
    ensures Join(Split(s, sep), sep) == s
    decreases |s|
  {
    match IndexOf(s, sep)
    case None =>
    case Some(i) =>
      var head, tail := s[..i], s[i + |sep|..];
      assert Split(s, sep) == [head] + Split(tail, sep);
      JoinCons(head, Split(tail, sep), sep);
      JoinSplit(tail, sep);
      assert s == head + s[i..i + |sep|] + tail;
  }

  /** A name without the separator, followed by the separator, is cut exactly there. */
  lemma FirstCutAfter(p: string, rest: string)
    requires !Contains(p, Sep)
    ensures IndexOf(p + Sep + rest, Sep) == Some(|p|)
  {
    var s := p + Sep + rest;
    assert OccursAt(s, Sep, |p|) by {
      assert s[|p|..|p| + 2] == Sep;
    }
    forall j: nat | j < |p| ensures !OccursAt(s, Sep, j) {
      if j + 2 <= |p| {
        if OccursAt(s, Sep, j) {
          assert p[j..j + 2] == s[j..j + 2];
          assert OccursAt(p, Sep, j);
        }
      } else {
        assert s[j + 1] == ',';
      }
    }
  }

  /**
   * Splitting a `", "`-join recovers the joined names, when there is at least
   * one name and no name contains `", "`.
   */
  lemma {:induction false} SplitJoin(parts: seq<string>)
    requires parts != []
    requires forall k :: 0 <= k < |parts| ==> !Contains(parts[k], Sep)
    ensures Split(Join(parts, Sep), Sep) == parts
    decreases |parts|
  {
    if |parts| == 1 {
      assert IndexOf(parts[0], Sep) == None;
    } else {
      var p, joined := parts[0], Join(parts[1..], Sep);
      FirstCutAfter(p, joined);
      assert (p + Sep + joined)[|p| + |Sep|..] == joined;
      SplitJoin(parts[1..]);
      assert parts == [p] + parts[1..];
    }
  }

  /** The empty join splits into one empty piece, not into no pieces. */
  lemma SplitEmptyJoin()
    ensures Split(Join([], Sep), Sep) == [""]
  {
    assert IndexOf("", Sep) == None;
  }
}
