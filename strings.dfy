/** Rust's `str::split_once` and `str::split` with a string pattern, as the
    AST generator (src/bin/generate_ast.rs) uses them: both cut at the leftmost
    occurrence of the pattern. */
module Strings {
  import opened Outcomes

  /** `pat` occurs in `s` starting at index `i`. */
  predicate MatchesAt(s: string, pat: string, i: nat) {
    i + |pat| <= |s| && s[i..i + |pat|] == pat
  }

  /** `pat` occurs in `s` at no index `i` with `from <= i < to`. */
  predicate NoMatchBetween(s: string, pat: string, from: nat, to: nat) {
    forall i :: from <= i < to ==> !MatchesAt(s, pat, i)
  }

  /** An occurrence that ends inside a prefix `t` of `s` is an occurrence in `t`. */
  lemma MatchesAtPrefix(s: string, t: string, pat: string, i: nat)
    requires t <= s && i + |pat| <= |t|
    ensures MatchesAt(s, pat, i) == MatchesAt(t, pat, i)
  {
    assert s[i..i + |pat|] == t[i..i + |pat|];
  }

  /** The leftmost occurrence of `pat` in `s` at or after index `from`. */
  function FindFrom(s: string, pat: string, from: nat): (r: Option<nat>)
    requires from <= |s|
    ensures r.Some? ==> from <= r.value <= |s| && MatchesAt(s, pat, r.value)
                        && NoMatchBetween(s, pat, from, r.value)
    ensures r.None? ==> NoMatchBetween(s, pat, from, |s| + 1)
    decreases |s| - from
  {
    if MatchesAt(s, pat, from) then Some(from)
    else if from == |s| then None
    else FindFrom(s, pat, from + 1)
  }

  /** `str::split_once`: the text before and the text after the leftmost
      occurrence of `pat`, or `None` when `pat` does not occur. */
  function SplitOnce(s: string, pat: string): (r: Option<(string, string)>)
    ensures r.None? <==> NoMatchBetween(s, pat, 0, |s| + 1)
    ensures r.Some? ==> s == r.value.0 + pat + r.value.1
                        && NoMatchBetween(s, pat, 0, |r.value.0|)
  {
    match FindFrom(s, pat, 0)
    case None => None
    case Some(i) =>
      assert s == s[..i] + pat + s[i + |pat|..];
      Some((s[..i], s[i + |pat|..]))
  }

  /** `pat` is the first occurrence of itself in `before + pat`: then
      `before` is what `SplitOnce` cuts off, whatever follows. */
  predicate CutsAtEnd(before: string, pat: string) {
    NoMatchBetween(before + pat, pat, 0, |before|)
  }

  /** `SplitOnce` inverts gluing two texts with the pattern, when the pattern
      first occurs where it was glued in. */
  lemma SplitOnceOfJoined(before: string, pat: string, after: string)
    requires CutsAtEnd(before, pat)
    ensures SplitOnce(before + pat + after, pat) == Some((before, after))
  {
    var s := before + pat + after;
    assert MatchesAt(s, pat, |before|) by {
      assert s[|before|..|before| + |pat|] == pat;
    }
    forall i | 0 <= i < |before|
      ensures !MatchesAt(s, pat, i)
    {
      MatchesAtPrefix(s, before + pat, pat, i);
    }
    var r := SplitOnce(s, pat);
    assert r.Some?;
    var (b, a) := r.value;
    assert MatchesAt(s, pat, |b|) by {
      assert s[|b|..|b| + |pat|] == pat;
    }
    assert |b| == |before|;
    assert b == s[..|b|] == before;
    assert a == s[|b| + |pat|..] == after;
  }

  /** The text before the first occurrence satisfies `CutsAtEnd`. */
  lemma SplitOnceCutsAtEnd(s: string, pat: string)
    requires SplitOnce(s, pat).Some?
    ensures CutsAtEnd(SplitOnce(s, pat).value.0, pat)
  {
    var (before, after) := SplitOnce(s, pat).value;
    forall i | 0 <= i < |before|
      ensures !MatchesAt(before + pat, pat, i)
    {
      MatchesAtPrefix(s, before + pat, pat, i);
    }
  }

  /** `str::split` with a non-empty pattern: the pieces between successive
      leftmost occurrences of `pat`; the empty text gives one empty piece.
      Joining the pieces with the pattern gives back the text. */
  function Split(s: string, pat: string): (pieces: seq<string>)
    requires pat != []
    ensures pieces != []
    ensures Join(pieces, pat) == s
    decreases |s|
  {
    match SplitOnce(s, pat)
    case None => [s]
    case Some((before, after)) =>
      var rest := Split(after, pat);
      assert ([before] + rest)[1..] == rest;
      [before] + rest
  }

  /** The pieces joined back with the pattern between them. */
  function Join(pieces: seq<string>, pat: string): string
    requires pieces != []
  {
    if |pieces| == 1 then pieces[0] else pieces[0] + pat + Join(pieces[1..], pat)
  }

  /** Pieces that `Split` can return: the pattern occurs in no piece, and no
      piece other than the last ends in a way that makes the following
      separator start early. */
  predicate Separable(pieces: seq<string>, pat: string) {
    && pieces != []
    && (forall k :: 0 <= k < |pieces| - 1 ==> CutsAtEnd(pieces[k], pat))
    && NoMatchBetween(pieces[|pieces| - 1], pat, 0, |pieces[|pieces| - 1]| + 1)
  }

  /** Every split is separable. */
  lemma {:induction false} SplitIsSeparable(s: string, pat: string)
    requires pat != []
    ensures Separable(Split(s, pat), pat)
    decreases |s|
  {
    match SplitOnce(s, pat)
    case None =>
    case Some((before, after)) =>
      SplitOnceCutsAtEnd(s, pat);
      SplitIsSeparable(after, pat);
      var rest := Split(after, pat);
      var pieces := [before] + rest;
      assert Split(s, pat) == pieces;
      assert pieces[|pieces| - 1] == rest[|rest| - 1];
      forall k | 0 <= k < |pieces| - 1 ensures CutsAtEnd(pieces[k], pat) {
        if k > 0 {
          assert pieces[k] == rest[k - 1];
        }
      }
  }

  /** Splitting separable pieces joined with the pattern gives back the pieces. */
  lemma {:induction false} SplitJoin(pieces: seq<string>, pat: string)
    requires pat != [] && Separable(pieces, pat)
    ensures Split(Join(pieces, pat), pat) == pieces
    decreases |pieces|
  {
    var s := Join(pieces, pat);
    if |pieces| == 1 {
      assert s == pieces[0];
      assert SplitOnce(s, pat).None?;
      assert Split(s, pat) == [s];
      assert pieces == [s];
    } else {
      var rest := pieces[1..];
      assert Separable(rest, pat) by {
        forall k | 0 <= k < |rest| - 1 ensures CutsAtEnd(rest[k], pat) {
          assert rest[k] == pieces[k + 1];
        }
        assert rest[|rest| - 1] == pieces[|pieces| - 1];
      }
      assert CutsAtEnd(pieces[0], pat);
      assert s == pieces[0] + pat + Join(rest, pat);
      SplitOnceOfJoined(pieces[0], pat, Join(rest, pat));
      assert Split(s, pat) == [pieces[0]] + Split(Join(rest, pat), pat);
      SplitJoin(rest, pat);
      assert pieces == [pieces[0]] + rest;
    }
  }
}
