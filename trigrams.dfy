/** Character trigrams of file paths, and the Jaccard score the search ranks files by. */
module Trigrams {
  import opened PyStr

  /** The three characters of `t` starting at `i`. */
  function Window(t: string, i: nat): string
    requires i + 3 <= |t|
  {
    t[i..i + 3]
  }

  /**
   * `get_trigrams`: the set of length-3 windows of the lower-cased text, or
   * the singleton of the whole lower-cased text when that is shorter than 3.
   */
  function GetTrigrams(text: string): (r: set<string>)
    ensures r != {}
  {
    var t := Lower(text);
    if |t| > 2 then
      var windows := set i: nat | i < |t| - 2 :: Window(t, i);
      assert Window(t, 0) in windows;
      windows
    else {t}
  }

  /** `w` occurs in `t` as a contiguous slice. */
  ghost predicate OccursIn(w: string, t: string) {
    exists i: nat :: i + |w| <= |t| && Slice(t, i, |w|) == w
  }

  function Slice(t: string, i: nat, n: nat): string
    requires i + n <= |t|
  {
    t[i..i + n]
  }

  /**
   * For text of at least three characters the trigrams are exactly the
   * three-character slices of the lower-cased text; shorter text (the empty
   * string included) gives the singleton of its lower-cased self.
   */
  lemma TrigramsAreWindows(text: string, w: string)
    ensures |text| > 2 ==> (w in GetTrigrams(text) <==> |w| == 3 && OccursIn(w, Lower(text)))
    ensures |text| <= 2 ==> GetTrigrams(text) == {Lower(text)}
  {
    var t := Lower(text);
    if |text| > 2 {
      if w in GetTrigrams(text) {
        var i: nat :| i < |t| - 2 && Window(t, i) == w;
        assert Slice(t, i, |w|) == w;
      }
      if |w| == 3 && OccursIn(w, t) {
        var i: nat :| i + |w| <= |t| && Slice(t, i, |w|) == w;
        assert Window(t, i) in GetTrigrams(text);
      }
    }
  }

  /** Trigram extraction ignores case: lower-casing the text first changes nothing. */
  lemma TrigramsIgnoreCase(text: string)
    ensures GetTrigrams(Lower(text)) == GetTrigrams(text)
  {
    LowerIdempotent(text);
  }

  /**
   * `score_filename` for two trigram sets: minus the Jaccard index
   * |q ∩ f| / |q ∪ f|, and 0 when the union is empty.
   */
  function Score(q: set<string>, f: set<string>): real {
    if |q + f| > 0 then -((|q * f| as real) / (|q + f| as real)) else 0.0
  }

  lemma SubsetCardinality(a: set<string>, b: set<string>)
    requires a <= b
    ensures |a| <= |b|
    ensures |a| == |b| ==> a == b
  {
    assert b == a + (b - a);
    assert |b| == |a| + |b - a|;
    if |a| == |b| {
      assert |b - a| == 0;
      assert b - a == {};
    }
  }

  /** A ratio of a part to a positive whole lies in [0, 1] and hits either end only at the ends. */
  lemma RatioBounds(i: real, u: real)
    requires 0.0 <= i <= u && u > 0.0
    ensures 0.0 <= i / u <= 1.0
    ensures i / u == 0.0 <==> i == 0.0
    ensures i / u == 1.0 <==> i == u
  {
    assert (i / u) * u == i;
  }

  /** The score lies in [-1, 0] and is 0 exactly when nothing is shared. */
  lemma ScoreBounds(q: set<string>, f: set<string>)
    ensures -1.0 <= Score(q, f) <= 0.0
    ensures Score(q, f) == 0.0 <==> q * f == {}
  {
    SubsetCardinality(q * f, q + f);
    assert |q * f| == 0 <==> q * f == {};
    if |q + f| > 0 {
      RatioBounds(|q * f| as real, |q + f| as real);
    }
  }

  /** The score does not depend on the order of its arguments. */
  lemma ScoreSymmetric(q: set<string>, f: set<string>)
    ensures Score(q, f) == Score(f, q)
  {
    assert q + f == f + q && q * f == f * q;
  }

  /** A non-empty query scores -1, the best possible score, exactly against its own trigram set. */
  lemma ExactMatchScore(q: set<string>, f: set<string>)
    requires q != {}
    ensures Score(q, f) == -1.0 <==> q == f
  {
    SubsetCardinality(q * f, q + f);
    assert q <= q + f;
    RatioBounds(|q * f| as real, |q + f| as real);
    if q == f {
      assert q * f == q + f;
    }
    if Score(q, f) == -1.0 {
      assert q * f == q + f;
      assert q <= q + f && q * f <= q;
      assert f <= q + f && q * f <= f;
    }
  }
}
