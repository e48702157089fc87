/**
 * The Python string and path builtins that the find engine and the polling
 * handler rely on, written out over `seq<char>`: `str.lower`, `str.strip`,
 * `str.split`, `str.join`, `str.startswith`/`endswith`, `str(int)`, `int(str)`,
 * and `posixpath.join`/`basename`.
 */
module PyStr {
  import opened Wrappers

  /** `str.isspace()` of one character: what `strip()`, `split()` and `int()` skip. */
  predicate IsSpace(c: char) {
    var k := c as int;
    (0x09 <= k <= 0x0D) || (0x1C <= k <= 0x20) || k == 0x85 || k == 0xA0 || k == 0x1680 ||
    (0x2000 <= k <= 0x200A) || k == 0x2028 || k == 0x2029 || k == 0x202F || k == 0x205F || k == 0x3000
  }

  predicate IsDigit(c: char) {
    '0' <= c <= '9'
  }

  predicate StartsWith(s: string, prefix: string) {
    |prefix| <= |s| && s[..|prefix|] == prefix
  }

  predicate EndsWith(s: string, suffix: string) {
    |suffix| <= |s| && s[|s| - |suffix|..] == suffix
  }

  /** A suffix of a suffix of `a` is a suffix of `a`. */
  lemma EndsWithTransitive(a: string, b: string, c: string)
    requires EndsWith(a, b) && EndsWith(b, c)
    ensures EndsWith(a, c)
  {
    assert a[|a| - |c|..] == b[|b| - |c|..];
  }

  /** `s.endswith(suffixes)` with a tuple argument: some member of the tuple is a suffix. */
  predicate EndsWithAny(s: string, suffixes: seq<string>) {
    exists i :: 0 <= i < |suffixes| && EndsWith(s, suffixes[i])
  }

  // ---------------------------------------------------------------- case

  /** `str.lower()` of one character, for the ASCII and Latin-1 capitals. */
  function LowerChar(c: char): char {
    if 'A' <= c <= 'Z' || ('\U{C0}' <= c <= '\U{DE}' && c != '\U{D7}') then (c as int + 32) as char else c
  }

  /** `str.lower()` */
  function Lower(s: string): (r: string)
    ensures |r| == |s|
    ensures forall k :: 0 <= k < |s| ==> r[k] == LowerChar(s[k])
  {
    seq(|s|, k requires 0 <= k < |s| => LowerChar(s[k]))
  }

  /** Lower-casing twice is lower-casing once. */
  lemma LowerIdempotent(s: string)
    ensures Lower(Lower(s)) == Lower(s)
  {
    assert forall k :: 0 <= k < |s| ==> LowerChar(LowerChar(s[k])) == LowerChar(s[k]);
  }

  // ---------------------------------------------------------------- strip and split

  /** Number of whitespace characters at the start of `s`. */
  function LeadingSpaces(s: string): (n: nat)
    ensures n <= |s|
    ensures forall k :: 0 <= k < n ==> IsSpace(s[k])
    ensures n < |s| ==> !IsSpace(s[n])
  {
    if |s| > 0 && IsSpace(s[0]) then 1 + LeadingSpaces(s[1..]) else 0
  }

  /** Number of whitespace characters at the end of `s`. */
  function TrailingSpaces(s: string): (n: nat)
    ensures n <= |s|
    ensures forall k :: |s| - n <= k < |s| ==> IsSpace(s[k])
    ensures n < |s| ==> !IsSpace(s[|s| - 1 - n])
  {
    if |s| > 0 && IsSpace(s[|s| - 1]) then 1 + TrailingSpaces(s[..|s| - 1]) else 0
  }

  /** `s[a..a + n]` is all of `s` but whitespace on either side. */
  ghost predicate PaddedBy(s: string, a: nat, n: nat) {
    a + n <= |s| &&
    (forall k :: 0 <= k < a ==> IsSpace(s[k])) &&
    (forall k :: a + n <= k < |s| ==> IsSpace(s[k]))
  }

  /** `str.strip()` */
  function Strip(s: string): string {
    var a := LeadingSpaces(s);
    if a == |s| then [] else s[a..|s| - TrailingSpaces(s)]
  }

  /**
   * `str.strip()` gives a slice of `s` that neither starts nor ends with
   * whitespace, and everything cut off on either side is whitespace.
   */
  lemma StripSpec(s: string)
    ensures var r := Strip(s);
      (r == [] || (!IsSpace(r[0]) && !IsSpace(r[|r| - 1]))) &&
      exists a: nat :: PaddedBy(s, a, |r|) && r == s[a..a + |r|]
  {
    var a := LeadingSpaces(s);
    if a == |s| {
      assert PaddedBy(s, a, 0) && s[a..a] == [];
    } else {
      var t := TrailingSpaces(s);
      assert a < |s| - t;
      assert PaddedBy(s, a, |Strip(s)|) && Strip(s) == s[a..a + |Strip(s)|];
    }
  }

  /** Length of the run of non-whitespace characters at the start of `s`. */
  function WordLength(s: string): (n: nat)
    ensures n <= |s|
    ensures forall k :: 0 <= k < n ==> !IsSpace(s[k])
    ensures n < |s| ==> IsSpace(s[n])
  {
    if |s| > 0 && !IsSpace(s[0]) then 1 + WordLength(s[1..]) else 0
  }

  /** `str.split()` without a separator: the maximal runs of non-whitespace, in order. */
  function Words(s: string): (r: seq<string>)
    ensures forall i :: 0 <= i < |r| ==> r[i] != []
    ensures forall i, k :: 0 <= i < |r| && 0 <= k < |r[i]| ==> !IsSpace(r[i][k])
    decreases |s|
  {
    if s == [] then []
    else if IsSpace(s[0]) then Words(s[1..])
    else
      var n := WordLength(s);
      [s[..n]] + Words(s[n..])
  }

  /** Every character of `t` is whitespace. */
  ghost predicate AllSpace(t: string) {
    forall k :: 0 <= k < |t| ==> IsSpace(t[k])
  }

  /** A non-empty run of non-whitespace characters. */
  ghost predicate IsWord(w: string) {
    w != [] && forall k :: 0 <= k < |w| ==> !IsSpace(w[k])
  }

  /** `pads[0] + ws[0] + pads[1] + ... + ws[n - 1] + pads[n]`. */
  function Interleave(pads: seq<string>, ws: seq<string>): string
    requires |pads| == |ws| + 1
    decreases |ws|
  {
    if ws == [] then pads[0] else pads[0] + ws[0] + Interleave(pads[1..], ws[1..])
  }

  /**
   * `s` is the words `ws`, in order, with whitespace runs `pads` around them:
   * a run between two words is not empty, the runs at either end may be.
   */
  ghost predicate SpacedWords(s: string, pads: seq<string>, ws: seq<string>) {
    |pads| == |ws| + 1 &&
    (forall i :: 0 <= i < |pads| ==> AllSpace(pads[i])) &&
    (forall i :: 0 < i < |ws| ==> pads[i] != []) &&
    (forall i :: 0 <= i < |ws| ==> IsWord(ws[i])) &&
    s == Interleave(pads, ws)
  }

  lemma {:induction false} WordsOfSpace(t: string)
    requires AllSpace(t)
    ensures Words(t) == []
    decreases |t|
  {
    if t != [] {
      WordsOfSpace(t[1..]);
    }
  }

  /** Leading whitespace does not change the words. */
  lemma {:induction false} WordsAfterSpace(p: string, x: string)
    requires AllSpace(p)
    ensures Words(p + x) == Words(x)
    decreases |p|
  {
    if p != [] {
      assert (p + x)[0] == p[0] && (p + x)[1..] == p[1..] + x;
      WordsAfterSpace(p[1..], x);
    } else {
      assert p + x == x;
    }
  }

  lemma {:induction false} WordLengthOf(w: string, rest: string)
    requires IsWord(w) && (rest == [] || IsSpace(rest[0]))
    ensures WordLength(w + rest) == |w|
    decreases |w|
  {
    assert (w + rest)[1..] == w[1..] + rest;
    if |w| > 1 {
      WordLengthOf(w[1..], rest);
    }
  }

  /** A word followed by nothing or by whitespace is the first word. */
  lemma WordsOfWord(w: string, rest: string)
    requires IsWord(w) && (rest == [] || IsSpace(rest[0]))
    ensures Words(w + rest) == [w] + Words(rest)
  {
    WordLengthOf(w, rest);
    var s := w + rest;
    assert s[..|w|] == w && s[|w|..] == rest;
  }

  /** The words of a string laid out as `SpacedWords` are exactly `ws`. */
  lemma {:induction false} WordsUnique(s: string, pads: seq<string>, ws: seq<string>)
    requires SpacedWords(s, pads, ws)
    ensures Words(s) == ws
    decreases |ws|
  {
    if ws == [] {
      WordsOfSpace(s);
    } else {
      var rest := Interleave(pads[1..], ws[1..]);
      assert s == pads[0] + (ws[0] + rest);
      WordsAfterSpace(pads[0], ws[0] + rest);
      if |ws| > 1 {
        assert rest == pads[1..][0] + ws[1..][0] + Interleave(pads[1..][1..], ws[1..][1..]);
        assert rest[0] == pads[1][0];
      } else {
        assert rest == pads[1];
      }
      WordsOfWord(ws[0], rest);
      assert SpacedWords(rest, pads[1..], ws[1..]) by {
        forall i | 0 < i < |ws[1..]|
          ensures pads[1..][i] != []
        {
          assert pads[1..][i] == pads[i + 1];
        }
        forall i | 0 <= i < |pads[1..]|
          ensures AllSpace(pads[1..][i])
        {
          assert pads[1..][i] == pads[i + 1];
        }
        forall i | 0 <= i < |ws[1..]|
          ensures IsWord(ws[1..][i])
        {
          assert ws[1..][i] == ws[i + 1];
        }
      }
      WordsUnique(rest, pads[1..], ws[1..]);
    }
  }

  /** Growing the first run by `c` in front grows the whole string by `c` in front. */
  lemma InterleavePrefix(c: string, pads: seq<string>, ws: seq<string>)
    requires |pads| == |ws| + 1
    ensures Interleave([c + pads[0]] + pads[1..], ws) == c + Interleave(pads, ws)
  {
    var pads' := [c + pads[0]] + pads[1..];
    assert pads'[1..] == pads[1..];
  }

  /** One more whitespace character in front joins the first run. */
  lemma SpacedAfterSpace(c: char, t: string, pads': seq<string>, ws: seq<string>) returns (pads: seq<string>)
    requires IsSpace(c) && SpacedWords(t, pads', ws)
    ensures SpacedWords([c] + t, pads, ws)
  {
    pads := [[c] + pads'[0]] + pads'[1..];
    InterleavePrefix([c], pads', ws);
    forall i | 0 <= i < |pads|
      ensures AllSpace(pads[i])
    {
      if i > 0 {
        assert pads[i] == pads'[i];
      }
    }
    forall i | 0 < i < |ws|
      ensures pads[i] != []
    {
      assert pads[i] == pads'[i];
    }
  }

  /** One more word in front, before a non-empty run when words follow, comes first. */
  lemma SpacedAfterWord(w: string, t: string, pads': seq<string>, ws: seq<string>) returns (pads: seq<string>)
    requires IsWord(w) && SpacedWords(t, pads', ws)
    requires ws != [] ==> pads'[0] != []
    ensures SpacedWords(w + t, pads, [w] + ws)
  {
    pads := [[]] + pads';
    var ws2 := [w] + ws;
    assert pads[1..] == pads' && ws2[1..] == ws && ws2[0] == w;
    assert Interleave(pads, ws2) == [] + w + Interleave(pads', ws);
    assert [] + w + t == w + t;
    forall i | 0 <= i < |pads|
      ensures AllSpace(pads[i])
    {
      if i > 0 {
        assert pads[i] == pads'[i - 1];
      }
    }
    forall i | 0 < i < |ws2|
      ensures pads[i] != [] && IsWord(ws2[i])
    {
      assert pads[i] == pads'[i - 1] && ws2[i] == ws[i - 1];
    }
  }

  /** The whitespace runs around the words of `s`. */
  lemma {:induction false} WordsSpaced(s: string) returns (pads: seq<string>)
    ensures SpacedWords(s, pads, Words(s))
    decreases |s|
  {
    if s == [] {
      pads := [[]];
    } else if IsSpace(s[0]) {
      var pads' := WordsSpaced(s[1..]);
      assert s == [s[0]] + s[1..];
      pads := SpacedAfterSpace(s[0], s[1..], pads', Words(s[1..]));
    } else {
      var n := WordLength(s);
      var t := s[n..];
      var pads' := WordsSpaced(t);
      if Words(t) != [] {
        FirstRunNonEmpty(t, pads', Words(t));
      }
      assert IsWord(s[..n]);
      assert s == s[..n] + t;
      pads := SpacedAfterWord(s[..n], t, pads', Words(t));
    }
  }

  /** A string that starts with whitespace and holds a word has a non-empty first run. */
  lemma FirstRunNonEmpty(t: string, pads: seq<string>, ws: seq<string>)
    requires SpacedWords(t, pads, ws) && ws != [] && t != [] && IsSpace(t[0])
    ensures pads[0] != []
  {
    assert t == pads[0] + ws[0] + Interleave(pads[1..], ws[1..]);
    assert IsWord(ws[0]);
  }

  /**
   * `str.split()`: the words of `s` are, in order, its maximal runs of
   * non-whitespace, and no other sequence of words lays out `s` that way.
   */
  lemma WordsAreRuns(s: string, ws: seq<string>)
    ensures exists pads :: SpacedWords(s, pads, Words(s))
    ensures (exists pads :: SpacedWords(s, pads, ws)) ==> ws == Words(s)
  {
    var pads := WordsSpaced(s);
    if exists pads' :: SpacedWords(s, pads', ws) {
      var pads' :| SpacedWords(s, pads', ws);
      WordsUnique(s, pads', ws);
    }
  }

  /** The runs that `" ".join` puts between `n` words: one space, none at the ends. */
  function JoinPads(first: string, n: nat): (r: seq<string>)
    ensures |r| == n + 1
    decreases n
  {
    if n == 0 then [[]] else [first] + JoinPads(" ", n - 1)
  }

  lemma {:induction false} JoinPadsShape(first: string, n: nat)
    ensures n > 0 ==> JoinPads(first, n)[0] == first
    ensures forall i :: 0 < i < n ==> JoinPads(first, n)[i] == " "
    ensures JoinPads(first, n)[n] == []
    decreases n
  {
    if n > 0 {
      JoinPadsShape(" ", n - 1);
      assert forall i :: 0 < i <= n ==> JoinPads(first, n)[i] == JoinPads(" ", n - 1)[i - 1];
    }
  }

  lemma {:induction false} JoinInterleave(first: string, ws: seq<string>)
    requires ws != []
    ensures Interleave(JoinPads(first, |ws|), ws) == first + JoinWith(" ", ws)
    decreases |ws|
  {
    var pads := JoinPads(first, |ws|);
    assert pads[1..] == JoinPads(" ", |ws| - 1);
    if |ws| == 1 {
      assert Interleave(pads[1..], ws[1..]) == [];
    } else {
      JoinInterleave(" ", ws[1..]);
    }
  }

  lemma {:induction false} JoinPadsSpace(first: string, n: nat)
    requires AllSpace(first)
    ensures forall i :: 0 <= i <= n ==> AllSpace(JoinPads(first, n)[i])
    decreases n
  {
    if n > 0 {
      assert IsSpace(" "[0]);
      JoinPadsSpace(" ", n - 1);
      assert forall i :: 0 < i <= n ==> JoinPads(first, n)[i] == JoinPads(" ", n - 1)[i - 1];
    }
  }

  /** Splitting `" ".join(ws)` gives back `ws`, for words without whitespace. */
  lemma JoinWords(ws: seq<string>)
    requires forall i :: 0 <= i < |ws| ==> IsWord(ws[i])
    ensures Words(JoinWith(" ", ws)) == ws
  {
    var pads := JoinPads([], |ws|);
    JoinPadsShape([], |ws|);
    JoinPadsSpace([], |ws|);
    if ws != [] {
      JoinInterleave([], ws);
      assert [] + JoinWith(" ", ws) == JoinWith(" ", ws);
    }
    WordsUnique(JoinWith(" ", ws), pads, ws);
  }

  /** `sep.join(parts)` */
  function JoinWith(sep: string, parts: seq<string>): string {
    if parts == [] then []
    else if |parts| == 1 then parts[0]
    else parts[0] + sep + JoinWith(sep, parts[1..])
  }

  /** Index of the first `c` in `s`, if any. */
  function Find(s: string, c: char): (r: Option<nat>)
    ensures r.Some? ==> r.value < |s| && s[r.value] == c && forall k :: 0 <= k < r.value ==> s[k] != c
    ensures r.None? ==> forall k :: 0 <= k < |s| ==> s[k] != c
  {
    if s == [] then None
    else if s[0] == c then Some(0)
    else match Find(s[1..], c)
      case None => None
      case Some(i) => Some(i + 1)
  }

  /** `s.split(c)` for a one-character separator: never empty, no part holds `c`. */
  function Split(s: string, c: char): (r: seq<string>)
    ensures |r| >= 1
    ensures forall i, k :: 0 <= i < |r| && 0 <= k < |r[i]| ==> r[i][k] != c
    decreases |s|
  {
    match Find(s, c)
    case None => [s]
    case Some(i) => [s[..i]] + Split(s[i + 1..], c)
  }

  /** Joining the parts of `s.split(c)` with `c` gives back `s`. */
  lemma {:induction false} JoinSplit(s: string, c: char)
    ensures JoinWith([c], Split(s, c)) == s
    decreases |s|
  {
    match Find(s, c)
    case None =>
    case Some(i) =>
      var rest := Split(s[i + 1..], c);
      JoinSplit(s[i + 1..], c);
      assert Split(s, c) == [s[..i]] + rest;
      assert ([s[..i]] + rest)[1..] == rest;
      assert JoinWith([c], Split(s, c)) == s[..i] + [c] + s[i + 1..];
      assert s == s[..i] + [c] + s[i + 1..];
  }

  /** Some member of `parts` starts with `d`. */
  predicate SomePartStartsWith(parts: seq<string>, d: char) {
    exists i :: 0 <= i < |parts| && StartsWith(parts[i], [d])
  }

  /** Some `d` in `s` stands at its start or right after a `c`. */
  ghost predicate SegmentStartsWith(s: string, c: char, d: char) {
    exists k :: 0 <= k < |s| && s[k] == d && (k == 0 || s[k - 1] == c)
  }

  lemma SomePartCons(p: string, rest: seq<string>, d: char)
    ensures SomePartStartsWith([p] + rest, d) <==> StartsWith(p, [d]) || SomePartStartsWith(rest, d)
  {
    var parts := [p] + rest;
    assert parts[0] == p;
    if SomePartStartsWith(rest, d) {
      var j :| 0 <= j < |rest| && StartsWith(rest[j], [d]);
      assert parts[j + 1] == rest[j];
    }
    if SomePartStartsWith(parts, d) {
      var j :| 0 <= j < |parts| && StartsWith(parts[j], [d]);
      if j > 0 {
        assert parts[j] == rest[j - 1];
      }
    }
  }

  /** Splitting `s` at its first `c` (at index `i`) splits the segment starts likewise. */
  lemma SegmentStartsAfterFirst(s: string, c: char, d: char, i: nat)
    requires c != d && i < |s| && s[i] == c && forall k :: 0 <= k < i ==> s[k] != c
    ensures SegmentStartsWith(s, c, d) <==> StartsWith(s[..i], [d]) || SegmentStartsWith(s[i + 1..], c, d)
  {
    var t := s[i + 1..];
    if SegmentStartsWith(t, c, d) {
      var k' :| 0 <= k' < |t| && t[k'] == d && (k' == 0 || t[k' - 1] == c);
      assert s[i + 1 + k'] == d;
      assert s[i + 1 + k' - 1] == (if k' == 0 then c else t[k' - 1]);
    }
    if StartsWith(s[..i], [d]) {
      assert s[0] == d;
    }
    if SegmentStartsWith(s, c, d) {
      var k :| 0 <= k < |s| && s[k] == d && (k == 0 || s[k - 1] == c);
      if k < i {
        assert k == 0;
        assert s[..i][..1] == [d];
      } else {
        assert t[k - i - 1] == d;
      }
    }
  }

  /**
   * Some part of `s.split(c)` starts with `d` exactly when some `d` in `s`
   * stands at the start of `s` or right after a `c`.
   */
  lemma {:induction false} SplitPartStartsWith(s: string, c: char, d: char)
    requires c != d
    ensures SomePartStartsWith(Split(s, c), d) <==> SegmentStartsWith(s, c, d)
    decreases |s|
  {
    match Find(s, c)
    case None =>
      assert Split(s, c) == [s];
      SomePartCons(s, [], d);
      if SegmentStartsWith(s, c, d) {
        var k :| 0 <= k < |s| && s[k] == d && (k == 0 || s[k - 1] == c);
        assert k == 0;
        assert s[..1] == [d];
      }
    case Some(i) =>
      var t := s[i + 1..];
      assert Split(s, c) == [s[..i]] + Split(t, c);
      SomePartCons(s[..i], Split(t, c), d);
      SplitPartStartsWith(t, c, d);
      SegmentStartsAfterFirst(s, c, d, i);
  }

  // ---------------------------------------------------------------- integers

  function DigitChar(d: nat): char
    requires d < 10
  {
    ('0' as int + d) as char
  }

  /** `str(n)` for a natural number: decimal digits, most significant first. */
  function NatToString(n: nat): (r: string)
    ensures |r| >= 1
    ensures forall k :: 0 <= k < |r| ==> IsDigit(r[k])
    ensures r[0] == '0' <==> n == 0
    ensures |r| > 1 ==> r[0] != '0'
    decreases n
  {
    if n < 10 then [DigitChar(n)] else NatToString(n / 10) + [DigitChar(n % 10)]
  }

  /** `str(n)` */
  function IntToString(n: int): string {
    if n < 0 then "-" + NatToString(-n) else NatToString(n)
  }

  /** Value of a run of digits and underscores, the underscores ignored. */
  function DigitsValue(s: string): nat {
    if s == [] then 0
    else if IsDigit(s[|s| - 1]) then 10 * DigitsValue(s[..|s| - 1]) + (s[|s| - 1] as int - '0' as int)
    else DigitsValue(s[..|s| - 1])
  }

  /** What `int()` accepts after the sign: digits, each underscore between two digits. */
  predicate IsNumeral(s: string) {
    |s| > 0 && IsDigit(s[0]) &&
    forall k :: 0 <= k < |s| && !IsDigit(s[k]) ==> s[k] == '_' && k + 1 < |s| && IsDigit(s[k + 1])
  }

  /**
   * `int(s)` for a `str` argument (base 10): surrounding whitespace and one
   * sign are allowed; `None` where Python raises `ValueError`.
   */
  function ParseInt(s: string): (r: Option<int>)
    ensures r.Some? ==> exists k :: 0 <= k < |s| && IsDigit(s[k])
  {
    var t := Strip(s);
    if |t| > 0 && (t[0] == '-' || t[0] == '+') then
      if IsNumeral(t[1..]) then
        assert IsDigit(t[1..][0]);
        var v: int := DigitsValue(t[1..]);
        Some(if t[0] == '-' then -v else v)
      else None
    else if IsNumeral(t) then
      assert IsDigit(t[0]);
      Some(DigitsValue(t))
    else None
  }

  lemma {:induction false} NatToStringValue(n: nat)
    ensures DigitsValue(NatToString(n)) == n
    decreases n
  {
    var s := NatToString(n);
    if n >= 10 {
      NatToStringValue(n / 10);
      assert s[..|s| - 1] == NatToString(n / 10);
    }
  }

  lemma StripUnpadded(s: string)
    requires s != [] && !IsSpace(s[0]) && !IsSpace(s[|s| - 1])
    ensures Strip(s) == s
  {
    assert LeadingSpaces(s) == 0;
    assert TrailingSpaces(s) == 0;
  }

  lemma DigitsAreNumeral(s: string)
    requires s != [] && forall k :: 0 <= k < |s| ==> IsDigit(s[k])
    ensures IsNumeral(s)
  {
  }

  lemma ParseUnsigned(t: string)
    requires Strip(t) == t && IsNumeral(t)
    ensures ParseInt(t) == Some(DigitsValue(t))
  {
    assert IsDigit(t[0]);
  }

  lemma ParseNegative(t: string, u: string)
    requires t == "-" + u && Strip(t) == t && IsNumeral(u)
    ensures ParseInt(t) == Some(-(DigitsValue(u) as int))
  {
    assert t[1..] == u;
  }

  /** `int()` reads a run of digits as its value. */
  lemma UnsignedRoundTrip(digits: string)
    requires digits != [] && forall k :: 0 <= k < |digits| ==> IsDigit(digits[k])
    ensures ParseInt(digits) == Some(DigitsValue(digits) as int)
  {
    DigitsAreNumeral(digits);
    StripUnpadded(digits);
    ParseUnsigned(digits);
  }

  /** `int()` reads a minus sign and a run of digits as the negated value. */
  lemma NegativeRoundTrip(digits: string)
    requires digits != [] && forall k :: 0 <= k < |digits| ==> IsDigit(digits[k])
    ensures ParseInt("-" + digits) == Some(-(DigitsValue(digits) as int))
  {
    DigitsAreNumeral(digits);
    NegativeUnpadded(digits);
    ParseNegative("-" + digits, digits);
  }

  /** A minus sign followed by digits has nothing to strip. */
  lemma NegativeUnpadded(digits: string)
    requires digits != [] && forall k :: 0 <= k < |digits| ==> IsDigit(digits[k])
    ensures Strip("-" + digits) == "-" + digits
  {
    var s := "-" + digits;
    assert s[|s| - 1] == digits[|digits| - 1];
    StripUnpadded(s);
  }

  /** `int(str(n)) == n`: parsing the decimal form of any integer gives it back. */
  lemma IntRoundTrip(n: int)
    ensures ParseInt(IntToString(n)) == Some(n)
  {
    var m: nat := if n < 0 then -n else n;
    var digits := NatToString(m);
    NatToStringValue(m);
    if n < 0 {
      NegativeRoundTrip(digits);
    } else {
      UnsignedRoundTrip(digits);
    }
  }

  // ---------------------------------------------------------------- paths

  /**
   * `posixpath.join(root, name)`: an absolute `name` replaces the root;
   * otherwise the result is the root, a '/' unless the root is empty or
   * already ends with one, and then `name`.
   */
  function PathJoin(root: string, name: string): (r: string)
    ensures EndsWith(r, name)
    ensures StartsWith(name, "/") ==> r == name
    ensures !StartsWith(name, "/") ==> StartsWith(r, root)
    ensures !StartsWith(name, "/") ==>
      |r| == |root| + |name| + (if root == [] || EndsWith(root, "/") then 0 else 1)
  {
    if StartsWith(name, "/") then name
    else if root == [] || EndsWith(root, "/") then root + name
    else root + "/" + name
  }

  /** Index just after the last '/' of `p`, 0 when there is none. */
  function LastSlashEnd(p: string): (i: nat)
    ensures i <= |p|
    ensures forall k :: i <= k < |p| ==> p[k] != '/'
    ensures i > 0 ==> p[i - 1] == '/'
  {
    if p == [] then 0
    else if p[|p| - 1] == '/' then |p|
    else LastSlashEnd(p[..|p| - 1])
  }

  /** `posixpath.basename(p)`: what follows the last '/'. */
  function Basename(p: string): string {
    p[LastSlashEnd(p)..]
  }

  /** For a suffix without '/', testing the basename is testing the whole path. */
  lemma BasenameEndsWith(p: string, suffix: string)
    requires forall k :: 0 <= k < |suffix| ==> suffix[k] != '/'
    ensures EndsWith(Basename(p), suffix) <==> EndsWith(p, suffix)
  {
    var i := LastSlashEnd(p);
    var b := Basename(p);
    if EndsWith(p, suffix) {
      assert b[|b| - |suffix|..] == p[|p| - |suffix|..];
    }
    if EndsWith(b, suffix) {
      assert b[|b| - |suffix|..] == p[|p| - |suffix|..];
    }
  }

  lemma {:induction false} LastSlashAfter(a: string, b: string)
    requires a == [] || a[|a| - 1] == '/'
    requires forall k :: 0 <= k < |b| ==> b[k] != '/'
    ensures LastSlashEnd(a + b) == |a|
    decreases |b|
  {
    if b != [] {
      assert (a + b)[..|a + b| - 1] == a + b[..|b| - 1];
      LastSlashAfter(a, b[..|b| - 1]);
    } else {
      assert a + b == a;
    }
  }

  /** Joining a root to a name without '/' gives a path whose basename is that name. */
  lemma BasenameOfJoin(root: string, name: string)
    requires forall k :: 0 <= k < |name| ==> name[k] != '/'
    ensures Basename(PathJoin(root, name)) == name
  {
    var r := PathJoin(root, name);
    var a := r[..|r| - |name|];
    assert r == a + name;
    if name != [] {
      assert !StartsWith(name, "/") by { assert name[..1][0] == name[0]; }
    }
    if root != [] && !EndsWith(root, "/") {
      assert a == root + "/";
    } else {
      assert a == root;
      if root != [] {
        assert root[|root| - 1] == root[|root| - 1..][0];
      }
    }
    LastSlashAfter(a, name);
  }
}
