/** The date pattern every extractor uses, the regular expression
    `(\d{1,2})\.(\d{1,2})\.(\d{4})` applied with `String.prototype.match`
    (no `g` flag): the result is the leftmost match, and at that position the
    greedy `\d{1,2}` quantifiers try two digits before one. */
module DatePattern {
  import opened Wrappers
  import opened Text

  /** `\d{n}` matches at index `i` of `s`. */
  predicate DigitsAt(s: string, i: int, n: nat) {
    0 <= i && i + n <= |s| && forall k | i <= k < i + n :: IsDigit(s[k])
  }

  /** The pattern matches at index `i` with a day of `d` digits and a month of `m` digits. */
  predicate ShapeAt(s: string, i: int, d: nat, m: nat) {
    && 1 <= d <= 2 && 1 <= m <= 2
    && DigitsAt(s, i, d) && i + d < |s| && s[i + d] == '.'
    && DigitsAt(s, i + d + 1, m) && i + d + 1 + m < |s| && s[i + d + 1 + m] == '.'
    && DigitsAt(s, i + d + m + 2, 4)
  }

  /** Some match of the pattern starts at index `i`. */
  ghost predicate MatchesAt(s: string, i: int) {
    exists d: nat, m: nat :: ShapeAt(s, i, d, m)
  }

  /** The whole of `t` is one match of the pattern. */
  ghost predicate DateShaped(t: string) {
    exists d: nat, m: nat :: ShapeAt(t, 0, d, m) && |t| == d + m + 6
  }

  /** `t` is the match found at `p`, and no match starts before `p`. */
  ghost predicate IsLeftmostDate(s: string, p: int, t: string) {
    && MatchesAt(s, p)
    && (forall q | 0 <= q < p :: !MatchesAt(s, q))
    && OccursAt(s, t, p)
    && DateShaped(t)
  }

  /** Since a digit is never a dot, at most one choice of widths fits at a
      position: backtracking order cannot change the match. */
  lemma ShapeUnique(s: string, i: int, d: nat, m: nat, d': nat, m': nat)
    requires ShapeAt(s, i, d, m) && ShapeAt(s, i, d', m')
    ensures d == d' && m == m'
  {
  }

  /** The backtracking matcher at one position: day width 2 before 1, and for
      each day width, month width 2 before 1. Yields the two widths. */
  function TryAt(s: string, i: nat): (r: Option<(nat, nat)>)
    ensures r.Some? ==> ShapeAt(s, i, r.value.0, r.value.1)
    ensures r.None? <==> !MatchesAt(s, i)
  {
    if ShapeAt(s, i, 2, 2) then Some((2, 2))
    else if ShapeAt(s, i, 2, 1) then Some((2, 1))
    else if ShapeAt(s, i, 1, 2) then Some((1, 2))
    else if ShapeAt(s, i, 1, 1) then Some((1, 1))
    else None
  }

  /** Position of the first match at or after `i`. */
  function SearchFrom(s: string, i: nat): (r: Option<nat>)
    ensures r.Some? ==> i <= r.value && MatchesAt(s, r.value)
    ensures r.Some? ==> forall q | i <= q < r.value :: !MatchesAt(s, q)
    ensures r.None? ==> forall q | i <= q :: !MatchesAt(s, q)
    decreases |s| - i
  {
    if |s| <= i then None
    else if TryAt(s, i).Some? then Some(i)
    else SearchFrom(s, i + 1)
  }

  /** `text.match(/(\d{1,2})\.(\d{1,2})\.(\d{4})/)?.[0]`: the leftmost date-shaped
      substring, absent exactly when no position starts a match. */
  function FirstDate(s: string): (r: Option<string>)
    ensures r.None? <==> forall p :: !MatchesAt(s, p)
    ensures r.Some? ==> exists p :: IsLeftmostDate(s, p, r.value)
  {
    match SearchFrom(s, 0)
    case None => None
    case Some(p) =>
      var (d, m) := TryAt(s, p).value;
      var t := s[p..p + d + m + 6];
      assert ShapeAt(t, 0, d, m);
      assert IsLeftmostDate(s, p, t);
      Some(t)
  }

  /** A match read off a substring is a match of the whole text at the substring's offset. */
  lemma ShapeShift(s: string, p: int, t: string, d: nat, m: nat)
    requires OccursAt(s, t, p) && ShapeAt(t, 0, d, m) && |t| == d + m + 6
    ensures ShapeAt(s, p, d, m)
  {
    assert forall k | 0 <= k < |t| :: s[p + k] == t[k];
  }

  /** The leftmost date is determined by the text: any leftmost match is the one returned. */
  lemma FirstDateUnique(s: string, p: int, t: string)
    requires IsLeftmostDate(s, p, t)
    ensures FirstDate(s) == Some(t)
  {
    var r := FirstDate(s);
    var p' :| IsLeftmostDate(s, p', r.value);
    assert p' == p;
    var d: nat, m: nat :| ShapeAt(t, 0, d, m) && |t| == d + m + 6;
    var d': nat, m': nat :| ShapeAt(r.value, 0, d', m') && |r.value| == d' + m' + 6;
    ShapeShift(s, p, t, d, m);
    ShapeShift(s, p, r.value, d', m');
    ShapeUnique(s, p, d, m, d', m');
    assert t == s[p..p + |t|] == r.value;
  }

  /** When the pattern is absent the extractor's placeholder is used instead. */
  function DateOr(s: string, placeholder: string): (r: string)
    ensures (forall p :: !MatchesAt(s, p)) ==> r == placeholder
    ensures (exists p :: MatchesAt(s, p)) ==> exists p :: IsLeftmostDate(s, p, r)
  {
    FirstDate(s).GetOr(placeholder)
  }

  const ExampleText: string := "Klausur am 27.01.2025 beginnt"

  /** The leftmost match is found inside running text. */
  lemma FirstDateExample()
    ensures FirstDate(ExampleText) == Some("27.01.2025")
  {
    ExampleNoEarlierMatch();
    ExampleMatch();
    assert IsLeftmostDate(ExampleText, 11, "27.01.2025");
    FirstDateUnique(ExampleText, 11, "27.01.2025");
  }

  lemma ExampleNoEarlierMatch()
    ensures forall q | 0 <= q < 11 :: !MatchesAt(ExampleText, q)
  {
    var s := ExampleText;
    forall q, d: nat, m: nat | 0 <= q < 11 ensures !ShapeAt(s, q, d, m) {
      assert !IsDigit(s[q]);
    }
  }

  lemma ExampleMatch()
    ensures ShapeAt(ExampleText, 11, 2, 2) && OccursAt(ExampleText, "27.01.2025", 11)
    ensures DateShaped("27.01.2025")
  {
    assert ShapeAt("27.01.2025", 0, 2, 2);
  }

  /** A text without digits has no date, so the placeholder is used. */
  lemma NoDigitNoDate(s: string, placeholder: string)
    requires forall k | 0 <= k < |s| :: !IsDigit(s[k])
    ensures DateOr(s, placeholder) == placeholder
  {
    forall q, d: nat, m: nat ensures !ShapeAt(s, q, d, m) {
      if 0 <= q < |s| {
        assert !IsDigit(s[q]);
      }
    }
  }

  lemma DateOrExample()
    ensures DateOr("Klausur am Montag", "siehe Ankündigung") == "siehe Ankündigung"
  {
    var s := "Klausur am Montag";
    assert forall k | 0 <= k < |s| :: !IsDigit(s[k]);
    NoDigitNoDate(s, "siehe Ankündigung");
  }
}
