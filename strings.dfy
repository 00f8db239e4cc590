/**
 * The part of Go's strings package the slice accessors use: strings.Split, with
 * strings.Index and strings.Join as the functions it is specified by.
 */
module Strings {
  import opened Wrappers

  /** Whether `sep` occurs in `s` starting at index `i`. */
  predicate OccursAt(s: string, sep: string, i: nat)
  {
    i + |sep| <= |s| && s[i..i + |sep|] == sep
  }

  /** strings.Contains: whether `sep` occurs anywhere in `s`. */
  predicate Contains(s: string, sep: string)
  {
    exists i: nat :: i <= |s| && OccursAt(s, sep, i)
  }

  /** The first index at or after `from` where `sep` occurs in `s`, if there is one. */
  function IndexFrom(s: string, sep: string, from: nat): (r: Option<nat>)
    ensures r.Some? ==> from <= r.value && OccursAt(s, sep, r.value)
    ensures r.Some? ==> forall j: nat :: from <= j < r.value ==> !OccursAt(s, sep, j)
    ensures r.None? ==> forall j: nat :: from <= j ==> !OccursAt(s, sep, j)
    decreases |s| - from
  {
    if |s| < from + |sep| then None
    else if OccursAt(s, sep, from) then Some(from)
    else IndexFrom(s, sep, from + 1)
  }

  /** strings.Index: the index of the first occurrence of `sep` in `s`. */
  function Index(s: string, sep: string): (r: Option<nat>)
    ensures r.Some? ==> OccursAt(s, sep, r.value) && forall j: nat :: j < r.value ==> !OccursAt(s, sep, j)
    ensures r.None? <==> !Contains(s, sep)
  {
    IndexFrom(s, sep, 0)
  }

  /** strings.Join: the pieces in order with `sep` between neighbours. */
  function Join(pieces: seq<string>, sep: string): string
  {
    if |pieces| == 0 then ""
    else if |pieces| == 1 then pieces[0]
    else pieces[0] + sep + Join(pieces[1..], sep)
  }

  /** strings.Split with an empty separator: one piece per character, none for the empty string. */
  function Explode(s: string): (pieces: seq<string>)
    ensures |pieces| == |s|
    ensures forall i :: 0 <= i < |s| ==> pieces[i] == [s[i]]
  {
    if s == [] then [] else [[s[0]]] + Explode(s[1..])
  }

  /**
   * strings.Split with a non-empty separator: the text before the first occurrence of `sep`,
   * then the split of what follows it. Joining the pieces gives `s` back, no piece holds
   * `sep`, and every piece but the last ends at the leftmost occurrence after its start.
   */
  function SplitOn(s: string, sep: string): (pieces: seq<string>)
    requires sep != ""
    ensures |pieces| >= 1
    ensures Join(pieces, sep) == s
    ensures forall i :: 0 <= i < |pieces| ==> !Contains(pieces[i], sep)
    ensures forall i :: 0 <= i < |pieces| - 1 ==> Leftmost(pieces[i], sep)
    decreases |s|
  {
    match Index(s, sep)
    case None => [s]
    case Some(m) =>
      PrefixBeforeFirst(s, sep, m);
      var rest := SplitOn(s[m + |sep|..], sep);
      assert s == s[..m] + sep + s[m + |sep|..];
      [s[..m]] + rest
  }

  /**
   * A piece followed by the separator holds no occurrence of `sep` that starts inside the
   * piece: the separator after it is the leftmost one.
   */
  predicate Leftmost(piece: string, sep: string)
  {
    forall j: nat :: j < |piece| ==> !OccursAt(piece + sep, sep, j)
  }

  /** The text before the first occurrence of `sep` does not contain `sep`, and ends at that occurrence. */
  lemma PrefixBeforeFirst(s: string, sep: string, m: nat)
    requires sep != ""
    requires OccursAt(s, sep, m)
    requires forall j: nat :: j < m ==> !OccursAt(s, sep, j)
    ensures !Contains(s[..m], sep)
    ensures Leftmost(s[..m], sep)
  {
    forall j: nat | j <= m
      ensures !OccursAt(s[..m], sep, j)
    {
      if j + |sep| <= m {
        assert !OccursAt(s, sep, j);
        assert s[..m][j..j + |sep|] == s[j..j + |sep|];
      }
    }
    assert s[..m] + sep == s[..m + |sep|];
    forall j: nat | j < m
      ensures !OccursAt(s[..m] + sep, sep, j)
    {
      assert !OccursAt(s, sep, j);
      assert s[..m + |sep|][j..j + |sep|] == s[j..j + |sep|];
    }
  }

  /**
   * SplitOn's contract determines its result: any list of pieces that joins back to `s`, whose
   * last piece holds no `sep` and whose other pieces each end at the leftmost occurrence, is
   * the split. For "aaa" on "aa" that is ["", "a"], never ["a", ""].
   */
  lemma {:induction false} SplitOnUnique(s: string, sep: string, pieces: seq<string>)
    requires sep != ""
    requires |pieces| >= 1 && Join(pieces, sep) == s
    requires !Contains(pieces[|pieces| - 1], sep)
    requires forall i :: 0 <= i < |pieces| - 1 ==> Leftmost(pieces[i], sep)
    ensures SplitOn(s, sep) == pieces
    decreases |pieces|
  {
    if |pieces| > 1 {
      var p := pieces[0];
      var tail := Join(pieces[1..], sep);
      assert s == p + sep + tail;
      assert OccursAt(s, sep, |p|) by {
        assert s[|p|..|p| + |sep|] == sep;
      }
      assert Leftmost(p, sep);
      forall j: nat | j < |p|
        ensures !OccursAt(s, sep, j)
      {
        assert !OccursAt(p + sep, sep, j);
        assert s[..|p| + |sep|] == p + sep;
        assert s[j..j + |sep|] == (p + sep)[j..j + |sep|];
      }
      var m := Index(s, sep);
      assert m.Some? && m.value == |p|;
      assert s[..|p|] == p;
      assert s[|p| + |sep|..] == tail;
      SplitOnUnique(tail, sep, pieces[1..]);
      assert [p] + pieces[1..] == pieces;
    }
  }

  /** strings.Split(s, sep), the split the slice accessors make of a variable's value. */
  function Split(s: string, sep: string): (pieces: seq<string>)
    ensures Join(pieces, sep) == s
    ensures sep != "" ==> |pieces| >= 1
    ensures sep != "" ==> forall i :: 0 <= i < |pieces| ==> !Contains(pieces[i], sep)
    ensures sep != "" ==> forall i :: 0 <= i < |pieces| - 1 ==> Leftmost(pieces[i], sep)
    ensures sep == "" ==> |pieces| == |s|
    ensures sep == "" ==> forall i :: 0 <= i < |s| ==> pieces[i] == [s[i]]
  {
    if sep == "" then
      JoinExplode(s);
      Explode(s)
    else SplitOn(s, sep)
  }

  /** Joining the characters of `s` back without separator gives `s`. */
  lemma {:induction false} JoinExplode(s: string)
    ensures Join(Explode(s), "") == s
  {
    if |s| > 1 {
      JoinExplode(s[1..]);
      assert Explode(s)[1..] == Explode(s[1..]);
    }
  }

  /**
   * Splitting on a one-character separator that no piece contains gives back the pieces:
   * Split is the inverse of Join in this case.
   */
  lemma {:induction false} SplitOfJoin(pieces: seq<string>, c: char)
    requires |pieces| >= 1
    requires forall i :: 0 <= i < |pieces| ==> c !in pieces[i]
    ensures Split(Join(pieces, [c]), [c]) == pieces
  {
    var s := Join(pieces, [c]);
    if |pieces| == 1 {
      NoOccurrence(pieces[0], c);
    } else {
      var p := pieces[0];
      var rest := Join(pieces[1..], [c]);
      assert s == p + [c] + rest;
      assert OccursAt(s, [c], |p|) by {
        assert s[|p|..|p| + 1] == [c];
      }
      match Index(s, [c])
      case None =>
        assert false;
      case Some(m) =>
        forall j: nat | j < |p|
          ensures !OccursAt(s, [c], j)
        {
          assert s[j..j + 1] == [p[j]];
        }
        assert s[..m] == p;
        assert s[m + 1..] == rest;
        SplitOfJoin(pieces[1..], c);
        assert [p] + pieces[1..] == pieces;
    }
  }

  /** A string without the character `c` holds no occurrence of [c]. */
  lemma NoOccurrence(s: string, c: char)
    requires c !in s
    ensures !Contains(s, [c])
  {
    forall j: nat | j < |s|
      ensures !OccursAt(s, [c], j)
    {
      assert s[j..j + 1] == [s[j]];
    }
  }
}
