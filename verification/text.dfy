/** The string operations of ECMAScript that the bot relies on, over strings of
    Unicode scalar values: `trim`, `toLowerCase`, `includes`, `substring`,
    `split('\n')[0]`, the `<[^>]*>` tag removal and the unanchored `a.*b`
    regular expression. */
module Text {

  /** ECMAScript line terminators: what `.` in a regular expression does not match. */
  predicate IsLineTerminator(c: char) {
    c == '\n' || c == '\r' || c == '\U{2028}' || c == '\U{2029}'
  }

  /** ECMAScript WhiteSpace plus LineTerminator: what `trim` removes and `\s` matches. */
  predicate IsSpace(c: char) {
    || IsLineTerminator(c)
    || c == '\t' || c == '\U{000B}' || c == '\U{000C}' || c == ' '
    || c == '\U{00A0}' || c == '\U{FEFF}' || c == '\U{1680}'
    || ('\U{2000}' <= c <= '\U{200A}')
    || c == '\U{202F}' || c == '\U{205F}' || c == '\U{3000}'
  }

  predicate AllSpace(s: string) {
    forall i | 0 <= i < |s| :: IsSpace(s[i])
  }

  predicate IsDigit(c: char) {
    '0' <= c <= '9'
  }

  // ---------------------------------------------------------------------
  // toLowerCase

  /** Lower-case mapping for the basic Latin letters and the German umlauts. */
  function LowerChar(c: char): char {
    if 'A' <= c <= 'Z' then (c as int + 32) as char
    else if c == 'Ä' then 'ä'
    else if c == 'Ö' then 'ö'
    else if c == 'Ü' then 'ü'
    else c
  }

  function Lower(s: string): string {
    seq(|s|, i requires 0 <= i < |s| => LowerChar(s[i]))
  }

  /** Lower-casing twice is lower-casing once. */
  lemma LowerIdempotent(s: string)
    ensures Lower(Lower(s)) == Lower(s)
  {
    assert forall i | 0 <= i < |s| :: LowerChar(LowerChar(s[i])) == LowerChar(s[i]);
  }

  lemma LowerAppend(a: string, b: string)
    ensures Lower(a + b) == Lower(a) + Lower(b)
  {
  }

  /** White space has no case: lower-casing leaves it alone. */
  lemma LowerKeepsSpace(w: string)
    requires AllSpace(w)
    ensures Lower(w) == w
  {
  }

  /** A slice of a lower-case string is lower-case. */
  lemma LowerSlice(s: string, i: nat, j: nat)
    requires Lower(s) == s && i <= j <= |s|
    ensures Lower(s[i..j]) == s[i..j]
  {
    assert forall k | 0 <= k < j - i :: s[i..j][k] == s[i + k] && Lower(s)[i + k] == s[i + k];
  }

  // ---------------------------------------------------------------------
  // trim

  /** Drops leading white space. */
  function TrimStart(s: string): (r: string)
    ensures |r| <= |s| && r == s[|s| - |r|..]
    ensures AllSpace(s[..|s| - |r|])
    ensures r == [] || !IsSpace(r[0])
  {
    if |s| > 0 && IsSpace(s[0]) then
      var r := TrimStart(s[1..]);
      assert s[..|s| - |r|] == [s[0]] + s[1..][..|s| - 1 - |r|];
      r
    else s
  }

  /** Drops trailing white space. */
  function TrimEnd(s: string): (r: string)
    ensures |r| <= |s| && r == s[..|r|]
    ensures AllSpace(s[|r|..])
    ensures r == [] || !IsSpace(r[|r| - 1])
  {
    if |s| > 0 && IsSpace(s[|s| - 1]) then
      var r := TrimEnd(s[..|s| - 1]);
      assert s[|r|..] == s[..|s| - 1][|r|..] + [s[|s| - 1]];
      r
    else s
  }

  predicate IsTrimmed(s: string) {
    s == [] || (!IsSpace(s[0]) && !IsSpace(s[|s| - 1]))
  }

  /** `String.prototype.trim`: the longest infix that neither starts nor ends
      with white space. */
  function Trim(s: string): (r: string)
    ensures IsTrimmed(r)
    ensures |r| <= |s|
  {
    var t := TrimStart(s);
    var r := TrimEnd(t);
    assert r != [] ==> r[0] == t[0];
    r
  }

  /** Trimming is dropping leading, then trailing, white space. */
  lemma TrimIsInner(s: string)
    ensures Trim(s) == TrimEnd(TrimStart(s))
  {
  }

  /** Trimming a lower-case string leaves it lower-case. */
  lemma TrimKeepsLower(s: string)
    requires Lower(s) == s
    ensures Lower(Trim(s)) == Trim(s)
  {
    var t := TrimStart(s);
    assert t == s[|s| - |t|..|s|];
    LowerSlice(s, |s| - |t|, |s|);
    var r := TrimEnd(t);
    assert r == t[0..|r|];
    LowerSlice(t, 0, |r|);
    TrimIsInner(s);
  }

  lemma TrimStartSpace(w: string, x: string)
    requires AllSpace(w)
    ensures TrimStart(w + x) == TrimStart(x)
  {
    if w != [] {
      assert (w + x)[1..] == w[1..] + x;
      TrimStartSpace(w[1..], x);
    } else {
      assert w + x == x;
    }
  }

  lemma {:induction false} TrimEndSpace(x: string, w: string)
    requires AllSpace(w)
    ensures TrimEnd(x + w) == TrimEnd(x)
  {
    if w == [] {
      assert x + w == x;
    } else {
      var w' := w[..|w| - 1];
      assert (x + w)[..|x + w| - 1] == x + w';
      TrimEndSpace(x, w');
    }
  }

  lemma {:induction false} TrimStartAppend(x: string, w: string)
    requires AllSpace(w)
    ensures TrimStart(x + w) == if TrimStart(x) == [] then [] else TrimStart(x) + w
  {
    if x == [] {
      assert x + w == w;
      TrimStartAllSpace(w);
    } else if IsSpace(x[0]) {
      assert (x + w)[1..] == x[1..] + w;
      TrimStartAppend(x[1..], w);
    }
  }

  lemma {:induction false} TrimStartAllSpace(w: string)
    requires AllSpace(w)
    ensures TrimStart(w) == []
  {
    if w != [] {
      TrimStartAllSpace(w[1..]);
    }
  }

  /** White space around a text never changes what `trim` returns. */
  lemma {:induction false} TrimPadding(w1: string, x: string, w2: string)
    requires AllSpace(w1) && AllSpace(w2)
    ensures Trim(w1 + x + w2) == Trim(x)
  {
    var s := w1 + x + w2;
    assert s == w1 + (x + w2);
    TrimStartSpace(w1, x + w2);
    TrimStartAppend(x, w2);
    TrimIsInner(s);
    TrimIsInner(x);
    if TrimStart(x) != [] {
      TrimEndSpace(TrimStart(x), w2);
      assert Trim(s) == TrimEnd(TrimStart(x) + w2);
    } else {
      assert TrimStart(s) == [];
    }
  }

  /** A trimmed string is its own trim. */
  lemma TrimOfTrimmed(s: string)
    requires IsTrimmed(s)
    ensures Trim(s) == s
  {
  }

  // ---------------------------------------------------------------------
  // includes, and the unanchored regular expressions `w` and `a.*b`

  /** `w` occurs in `s` at index `i`. */
  predicate OccursAt(s: string, w: string, i: int) {
    0 <= i && i + |w| <= |s| && s[i..i + |w|] == w
  }

  /** A left-to-right scan for `w` starting at index `i` of `s`. */
  predicate ContainsFrom(s: string, w: string, i: nat)
    decreases |s| - i
  {
    i + |w| <= |s| && (s[i..i + |w|] == w || ContainsFrom(s, w, i + 1))
  }

  /** `s.includes(w)`, equally an unanchored regular expression that is the literal `w`. */
  predicate Contains(s: string, w: string) {
    ContainsFrom(s, w, 0)
  }

  lemma {:induction false} ContainsFromIff(s: string, w: string, i: nat)
    ensures ContainsFrom(s, w, i) <==> exists k | i <= k :: OccursAt(s, w, k)
    decreases |s| - i
  {
    if i + |w| <= |s| {
      ContainsFromIff(s, w, i + 1);
      if s[i..i + |w|] == w {
        assert OccursAt(s, w, i);
      }
      if exists k | i <= k :: OccursAt(s, w, k) {
        var k :| i <= k && OccursAt(s, w, k);
        if k == i {
          assert s[i..i + |w|] == w;
        } else {
          assert i + 1 <= k;
        }
      }
    }
  }

  /** The scan agrees with the plain meaning of "occurs somewhere". */
  lemma ContainsIff(s: string, w: string)
    ensures Contains(s, w) <==> exists k :: OccursAt(s, w, k)
  {
    ContainsFromIff(s, w, 0);
  }

  /** A string lacking a character of `w` does not contain `w`. */
  lemma MissingCharBlocks(s: string, w: string, c: char)
    requires c in w && c !in s
    ensures !Contains(s, w)
  {
    ContainsIff(s, w);
  }

  /** When the only `c` in a string is followed by `d`, no `w` that starts
      with `c` and continues otherwise occurs in it. */
  lemma PairBlocks(a: string, c: char, d: char, b: string, w: string)
    requires c !in a && c !in b && c != d
    requires |w| >= 2 && w[0] == c && w[1] != d
    ensures !Contains(a + [c, d] + b, w)
  {
    ContainsIff(a + [c, d] + b, w);
  }

  /** Whatever occurs in the middle of a concatenation is contained in it. */
  lemma ContainsMiddle(a: string, w: string, b: string)
    ensures Contains(a + w + b, w)
  {
    assert OccursAt(a + w + b, w, |a|);
    ContainsIff(a + w + b, w);
  }

  /** Whatever a string contains, any string around it contains too. */
  lemma ContainsInfix(a: string, x: string, b: string, w: string)
    requires Contains(x, w)
    ensures Contains(a + x + b, w)
  {
    ContainsIff(x, w);
    var k :| OccursAt(x, w, k);
    assert (a + x + b)[|a| + k..|a| + k + |w|] == x[k..k + |w|];
    assert OccursAt(a + x + b, w, |a| + k);
    ContainsIff(a + x + b, w);
  }

  /** Appending on either side keeps what a string contains. */
  lemma ContainsGrow(x: string, w: string, a: string, b: string)
    requires Contains(x, w)
    ensures Contains(x + b, w) && Contains(a + x, w)
  {
    ContainsInfix("", x, b, w);
    assert "" + x + b == x + b;
    ContainsInfix(a, x, "", w);
    assert a + x + "" == a + x;
  }

  /** `b` occurs at or after index `i`, with no line terminator between `i` and it. */
  predicate InLineFrom(s: string, b: string, i: nat)
    decreases |s| - i
  {
    i + |b| <= |s| && (s[i..i + |b|] == b || (!IsLineTerminator(s[i]) && InLineFrom(s, b, i + 1)))
  }

  predicate ThenFrom(s: string, a: string, b: string, i: nat)
    decreases |s| - i
  {
    i + |a| <= |s| &&
    ((s[i..i + |a|] == a && InLineFrom(s, b, i + |a|)) || ThenFrom(s, a, b, i + 1))
  }

  /** The unanchored regular expression `a.*b`. */
  predicate Then(s: string, a: string, b: string) {
    ThenFrom(s, a, b, 0)
  }

  predicate NoLineTerminator(s: string) {
    forall k | 0 <= k < |s| :: !IsLineTerminator(s[k])
  }

  /** The declarative reading of `a.*b`: an `a`, then later a `b`, on one line. */
  predicate ThenWitness(s: string, a: string, b: string, i: int, j: int) {
    OccursAt(s, a, i) && i + |a| <= j && OccursAt(s, b, j) && NoLineTerminator(s[i + |a|..j])
  }

  lemma {:induction false} InLineFromIff(s: string, b: string, i: nat)
    requires i <= |s|
    ensures InLineFrom(s, b, i) <==>
            exists j | i <= j :: OccursAt(s, b, j) && NoLineTerminator(s[i..j])
    decreases |s| - i
  {
    if i + |b| <= |s| && s[i..i + |b|] == b {
      assert OccursAt(s, b, i) && NoLineTerminator(s[i..i]);
    } else if i + |b| <= |s| {
      InLineFromIff(s, b, i + 1);
      if InLineFrom(s, b, i) {
        var j :| i + 1 <= j && OccursAt(s, b, j) && NoLineTerminator(s[i + 1..j]);
        assert s[i..j] == [s[i]] + s[i + 1..j];
        assert NoLineTerminator(s[i..j]);
      }
      if exists j | i <= j :: OccursAt(s, b, j) && NoLineTerminator(s[i..j]) {
        var j :| i <= j && OccursAt(s, b, j) && NoLineTerminator(s[i..j]);
        assert j != i;
        assert s[i] == s[i..j][0];
        assert s[i + 1..j] == s[i..j][1..];
        assert InLineFrom(s, b, i + 1);
      }
    }
  }

  lemma {:induction false} ThenFromIff(s: string, a: string, b: string, i: nat)
    ensures ThenFrom(s, a, b, i) <==> exists p, j | i <= p :: ThenWitness(s, a, b, p, j)
    decreases |s| - i
  {
    if i + |a| <= |s| {
      ThenFromIff(s, a, b, i + 1);
      InLineFromIff(s, b, i + |a|);
      if ThenFrom(s, a, b, i) && s[i..i + |a|] == a && InLineFrom(s, b, i + |a|) {
        var j :| i + |a| <= j && OccursAt(s, b, j) && NoLineTerminator(s[i + |a|..j]);
        assert ThenWitness(s, a, b, i, j);
      }
      if exists p, j | i <= p :: ThenWitness(s, a, b, p, j) {
        var p, j :| i <= p && ThenWitness(s, a, b, p, j);
        if p == i {
          assert InLineFrom(s, b, i + |a|);
        } else {
          assert ThenFrom(s, a, b, i + 1);
        }
      }
    }
  }

  /** The scan for `a.*b` agrees with its declarative reading. */
  lemma ThenIff(s: string, a: string, b: string)
    ensures Then(s, a, b) <==> exists p, j :: ThenWitness(s, a, b, p, j)
  {
    ThenFromIff(s, a, b, 0);
  }

  /** `a.*b` can only match where both `a` and `b` occur. */
  lemma ThenNeedsBoth(s: string, a: string, b: string)
    requires Then(s, a, b)
    ensures Contains(s, a) && Contains(s, b)
  {
    ThenIff(s, a, b);
    var p, j :| ThenWitness(s, a, b, p, j);
    ContainsIff(s, a);
    ContainsIff(s, b);
  }

  // ---------------------------------------------------------------------
  // substring, split, || on strings, decimal numerals

  /** `s.substring(0, n)` on strings, `xs.slice(0, n)` on arrays: the first `n`
      elements, or all of them when there are fewer. */
  function Take<T>(s: seq<T>, n: nat): (r: seq<T>)
    ensures |r| == if |s| <= n then |s| else n
    ensures r == s[..|r|]
  {
    if |s| <= n then s else s[..n]
  }

  /** `s.split('\n')[0]`: everything before the first newline. */
  function FirstLine(s: string): (r: string)
    ensures |r| <= |s| && r == s[..|r|]
    ensures '\n' !in r
    ensures |r| == |s| || s[|r|] == '\n'
  {
    if |s| == 0 || s[0] == '\n' then [] else [s[0]] + FirstLine(s[1..])
  }

  /** JavaScript's `a || b` on strings: the empty string is falsy. */
  function OrElse(a: string, b: string): string {
    if a != "" then a else b
  }

  function DigitChar(d: nat): char
    requires d < 10
  {
    ('0' as int + d) as char
  }

  /** Decimal numeral of a natural number, as template interpolation prints it. */
  function NatToString(n: nat): (r: string)
    ensures |r| > 0
    ensures forall k | 0 <= k < |r| :: IsDigit(r[k])
    decreases n
  {
    if n < 10 then [DigitChar(n)] else NatToString(n / 10) + [DigitChar(n % 10)]
  }

  // ---------------------------------------------------------------------
  // s.replace(/<[^>]*>/g, '')

  /** Index of the first `c` in `s`. */
  function IndexOf(s: string, c: char): (k: nat)
    requires c in s
    ensures k < |s| && s[k] == c && c !in s[..k]
  {
    if s[0] == c then 0 else 1 + IndexOf(s[1..], c)
  }

  /** Global removal of `<[^>]*>`: a `<` with a later `>` starts a match that
      ends at the first such `>`; a `<` with no later `>` is kept as text. */
  function StripTags(s: string): string
  {
    if |s| == 0 then []
    else if s[0] == '<' && '>' in s then StripTags(s[IndexOf(s, '>') + 1..])
    else [s[0]] + StripTags(s[1..])
  }

  /** No `<` is followed, anywhere later, by a `>`: no tag is left. */
  predicate TagFree(s: string) {
    forall i, j | 0 <= i < j < |s| :: s[i] == '<' ==> s[j] != '>'
  }

  lemma StripTagsProperties(s: string)
    ensures TagFree(StripTags(s))
    ensures |StripTags(s)| <= |s|
    ensures '>' !in s ==> StripTags(s) == s
    ensures forall c | c in StripTags(s) :: c in s
  {
    StripTagsChars(s);
    StripTagsPlain(s);
    StripTagsTagFree(s);
  }

  /** Tag removal only deletes characters. */
  lemma {:induction false} StripTagsChars(s: string)
    ensures |StripTags(s)| <= |s|
    ensures forall c | c in StripTags(s) :: c in s
  {
    if |s| == 0 {
    } else if s[0] == '<' && '>' in s {
      var k := IndexOf(s, '>');
      StripTagsChars(s[k + 1..]);
      forall c | c in StripTags(s) ensures c in s {
        var m :| 0 <= m < |s[k + 1..]| && s[k + 1..][m] == c;
        assert s[k + 1 + m] == c;
      }
    } else {
      var rest := StripTags(s[1..]);
      StripTagsChars(s[1..]);
      forall c | c in [s[0]] + rest ensures c in s {
        if c != s[0] {
          var n :| 0 <= n < |s[1..]| && s[1..][n] == c;
          assert s[1 + n] == c;
        }
      }
    }
  }

  /** Without a `>` there is no tag and nothing is removed. */
  lemma {:induction false} StripTagsPlain(s: string)
    ensures '>' !in s ==> StripTags(s) == s
  {
    if |s| > 0 && '>' !in s {
      assert '>' !in s[1..];
      StripTagsPlain(s[1..]);
      assert s == [s[0]] + s[1..];
    }
  }

  lemma {:induction false} StripTagsTagFree(s: string)
    ensures TagFree(StripTags(s))
  {
    if |s| == 0 {
    } else if s[0] == '<' && '>' in s {
      StripTagsTagFree(s[IndexOf(s, '>') + 1..]);
    } else {
      var rest := StripTags(s[1..]);
      StripTagsTagFree(s[1..]);
      var r := [s[0]] + rest;
      if s[0] == '<' {
        // no '>' anywhere in s, so none in what remains either
        StripTagsChars(s[1..]);
        forall c | c in rest ensures c != '>' {
          var m :| 0 <= m < |s[1..]| && s[1..][m] == c;
          assert s[1 + m] == c;
        }
      }
      forall i, j | 0 <= i < j < |r| && r[i] == '<' ensures r[j] != '>' {
        if i > 0 {
          assert r[i] == rest[i - 1] && r[j] == rest[j - 1];
        } else {
          assert r[j] == rest[j - 1] && r[j] in rest;
        }
      }
    }
  }

  /** In `<t>b`, with no `>` inside `t`, the first `>` is the one closing the tag. */
  lemma ClosingBracket(t: string, b: string)
    requires '>' !in t
    ensures '>' in "<" + t + ">" + b
    ensures IndexOf("<" + t + ">" + b, '>') == |t| + 1
  {
    assert ("<" + t + ">" + b)[|t| + 1] == '>';
  }

  /** A tag whose text has no `>` is removed whole. */
  lemma StripTagsDropsTag(t: string, b: string)
    requires '>' !in t
    ensures StripTags("<" + t + ">" + b) == StripTags(b)
  {
    ClosingBracket(t, b);
    assert ("<" + t + ">" + b)[|t| + 2..] == b;
  }

  /** Text before the first `<` is kept as it is. */
  lemma {:induction false} StripTagsKeepsPrefix(a: string, rest: string)
    requires '<' !in a
    ensures StripTags(a + rest) == a + StripTags(rest)
    decreases |a|
  {
    if |a| == 0 {
      assert a + rest == rest;
    } else {
      assert (a + rest)[0] == a[0] && a[0] != '<';
      assert (a + rest)[1..] == a[1..] + rest;
      StripTagsKeepsPrefix(a[1..], rest);
      assert a == [a[0]] + a[1..];
    }
  }

  /** Text outside a tag survives: the characters before it are kept as they
      are, the tag itself is removed, and the rest is stripped in turn. */
  lemma StripTagsKeepsText(a: string, t: string, b: string)
    requires '<' !in a && '>' !in t
    ensures StripTags(a + "<" + t + ">" + b) == a + StripTags(b)
  {
    var tag := "<" + t + ">" + b;
    assert a + "<" + t + ">" + b == a + tag;
    StripTagsKeepsPrefix(a, tag);
    StripTagsDropsTag(t, b);
  }

  /** Tag removal is idempotent: its output has nothing left to remove. */
  lemma {:induction false} StripTagsIdempotent(s: string)
    ensures StripTags(StripTags(s)) == StripTags(s)
  {
    StripTagsProperties(s);
    StripTagFree(StripTags(s));
  }

  /** On a tag-free text, tag removal changes nothing. */
  lemma {:induction false} StripTagFree(s: string)
    requires TagFree(s)
    ensures StripTags(s) == s
  {
    if |s| > 0 {
      if s[0] == '<' && '>' in s {
        assert false;
      }
      assert TagFree(s[1..]) by {
        forall i, j | 0 <= i < j < |s[1..]| && s[1..][i] == '<' ensures s[1..][j] != '>' {
          assert s[1 + i] == '<';
        }
      }
      StripTagFree(s[1..]);
      assert s == [s[0]] + s[1..];
    }
  }
}
