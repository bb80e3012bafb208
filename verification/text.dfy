/** The handful of Python string operations the bot relies on: `strip`,
    `lower`, `in`, `startswith`, `replace`, `split(None, 1)` and integer
    formatting. */
module Text {

  /** The characters Python's `str.isspace` accepts. */
  predicate IsSpace(c: char) {
    || ('\U{0009}' <= c <= '\U{000D}')
    || ('\U{001C}' <= c <= '\U{0020}')
    || c == '\U{0085}' || c == '\U{00A0}' || c == '\U{1680}'
    || ('\U{2000}' <= c <= '\U{200A}')
    || c == '\U{2028}' || c == '\U{2029}' || c == '\U{202F}'
    || c == '\U{205F}' || c == '\U{3000}'
  }

  /** Drops the longest prefix whose characters all satisfy `drop`. */
  function TrimLeftBy(s: string, drop: char -> bool): (r: string)
    ensures |r| <= |s| && r == s[|s| - |r|..]
    ensures r == [] || !drop(r[0])
    ensures forall i :: 0 <= i < |s| - |r| ==> drop(s[i])
    decreases |s|
  {
    if |s| > 0 && drop(s[0]) then
      var r := TrimLeftBy(s[1..], drop);
      assert forall i :: 1 <= i < |s| - |r| ==> s[i] == s[1..][i - 1];
      r
    else s
  }

  /** Drops the longest suffix whose characters all satisfy `drop`. */
  function TrimRightBy(s: string, drop: char -> bool): (r: string)
    ensures |r| <= |s| && r == s[..|r|]
    ensures r == [] || !drop(r[|r| - 1])
    ensures forall i :: |r| <= i < |s| ==> drop(s[i])
    decreases |s|
  {
    if |s| > 0 && drop(s[|s| - 1]) then
      var r := TrimRightBy(s[..|s| - 1], drop);
      assert forall i :: |r| <= i < |s| - 1 ==> s[i] == s[..|s| - 1][i];
      r
    else s
  }

  function StripBy(s: string, drop: char -> bool): string {
    TrimRightBy(TrimLeftBy(s, drop), drop)
  }

  /** Python's `s.strip()`. */
  function Strip(s: string): string {
    StripBy(s, IsSpace)
  }

  /** Python's `s.strip(chars)`. */
  function StripChars(s: string, chars: set<char>): string {
    StripBy(s, c => c in chars)
  }

  /** Lower-casing of one character: the ASCII and Latin-1 capitals, and the
      capitals U+0152 and U+0178 that occur in the bot's own literals. */
  function LowerChar(c: char): char {
    if 'A' <= c <= 'Z' || ('\U{00C0}' <= c <= '\U{00DE}' && c != '\U{00D7}') then (c as int + 32) as char
    else if c == '\U{0152}' then '\U{0153}'
    else if c == '\U{0178}' then '\U{00FF}'
    else c
  }

  /** No character lower-cases to a capital. */
  lemma LowerCharNotCapital(c: char)
    ensures LowerChar(c) != '\U{0152}' && LowerChar(c) != '\U{0178}'
    ensures !('A' <= LowerChar(c) <= 'Z')
  {
  }

  /** Python's `s.lower()` on the capitals `LowerChar` knows. */
  function Lower(s: string): (r: string)
    ensures |r| == |s|
    ensures forall i :: 0 <= i < |s| ==> r[i] == LowerChar(s[i])
  {
    seq(|s|, i requires 0 <= i < |s| => LowerChar(s[i]))
  }

  /** A lower-cased text never equals one holding the capital U+0178. */
  lemma LowerLacksCapital(s: string, t: string, i: nat)
    requires i < |t| && t[i] == '\U{0178}'
    ensures Lower(s) != t
  {
    if |s| == |t| {
      LowerCharNotCapital(s[i]);
    }
  }

  /** Python's `s.startswith(prefix)`. */
  predicate StartsWith(s: string, prefix: string) {
    |prefix| <= |s| && s[..|prefix|] == prefix
  }

  /** Python's `s.endswith(suffix)`. */
  predicate EndsWith(s: string, suffix: string) {
    |suffix| <= |s| && s[|s| - |suffix|..] == suffix
  }
  /** A concatenation starts with its first part and ends with its last. */
  lemma AffixesOfConcat(a: string, b: string, c: string)
    ensures StartsWith(a + b + c, a) && EndsWith(a + b + c, c)
  {
    assert (a + b + c)[..|a|] == a;
    assert (a + b + c)[|a + b|..] == c;
  }

  /** Python's `needle in haystack` on strings. */
  predicate Contains(haystack: string, needle: string)
    decreases |haystack|
  {
    StartsWith(haystack, needle) || (|haystack| > 0 && Contains(haystack[1..], needle))
  }

  /** Python's `s.replace(old, new)`: every non-overlapping occurrence of
      `old`, scanning left to right, is replaced by `new`. */
  function Replace(s: string, pat: string, rep: string): string
    decreases |s|
  {
    if |pat| == 0 then
      if |s| == 0 then rep else rep + [s[0]] + Replace(s[1..], pat, rep)
    else if StartsWith(s, pat) then
      rep + Replace(s[|pat|..], pat, rep)
    else if |s| == 0 then
      []
    else
      [s[0]] + Replace(s[1..], pat, rep)
  }

  /** The longest prefix of `s` that holds no whitespace. */
  function Token(s: string): (r: string)
    ensures |r| <= |s| && r == s[..|r|]
    ensures forall i :: 0 <= i < |r| ==> !IsSpace(r[i])
    ensures |r| == |s| || IsSpace(s[|r|])
  {
    if |s| == 0 || IsSpace(s[0]) then [] else [s[0]] + Token(s[1..])
  }

  /** A whitespace-free word followed by whitespace or nothing is its own
      token. */
  lemma {:induction false} TokenOfWord(w: string, rest: string)
    requires forall i :: 0 <= i < |w| ==> !IsSpace(w[i])
    requires rest == [] || IsSpace(rest[0])
    ensures Token(w + rest) == w
  {
    if w != [] {
      assert (w + rest)[1..] == w[1..] + rest;
      TokenOfWord(w[1..], rest);
    }
  }

  /** Python's `s.split(None, 1)`: at most two parts, the first a
      whitespace-free token and the second the rest after the separating
      whitespace. */
  function SplitOnce(s: string): (parts: seq<string>)
    ensures |parts| <= 2
    ensures forall i :: 0 <= i < |parts| ==> parts[i] != [] && !IsSpace(parts[i][0])
  {
    var t := TrimLeftBy(s, IsSpace);
    if t == [] then [] else SplitToken(t)
  }

  /** The split of a text that starts with a token. */
  function SplitToken(t: string): (parts: seq<string>)
    requires t != [] && !IsSpace(t[0])
    ensures 1 <= |parts| <= 2
    ensures forall i :: 0 <= i < |parts| ==> parts[i] != [] && !IsSpace(parts[i][0])
  {
    var head := Token(t);
    TokenStart(t);
    var rest := TrimLeftBy(t[|head|..], IsSpace);
    if rest == [] then [head] else [head, rest]
  }

  /** A text that does not start with whitespace has a token starting
      with its first character. */
  lemma TokenStart(t: string)
    requires t != [] && !IsSpace(t[0])
    ensures Token(t) != [] && Token(t)[0] == t[0]
  {
  }

  /** A word, one space and a rest that starts with no whitespace split
      into the word and the rest. */
  lemma SplitWord(w: string, rest: string)
    requires w != [] && forall i :: 0 <= i < |w| ==> !IsSpace(w[i])
    requires rest != [] && !IsSpace(rest[0])
    ensures SplitOnce(w + " " + rest) == [w, rest]
  {
    var s := w + " " + rest;
    assert TrimLeftBy(s, IsSpace) == s by {
      assert s[0] == w[0];
    }
    assert s == w + (" " + rest);
    TokenOfWord(w, " " + rest);
    assert s[|w|..] == " " + rest;
    assert TrimLeftBy(" " + rest, IsSpace) == TrimLeftBy(rest, IsSpace) by {
      assert (" " + rest)[1..] == rest;
    }
  }

  function DigitChar(d: nat): char
    requires d < 10
  {
    ('0' as int + d) as char
  }

  /** Python's `str(n)` for a non-negative integer. */
  function NatToString(n: nat): (r: string)
    ensures r != []
    ensures forall i :: 0 <= i < |r| ==> '0' <= r[i] <= '9'
  {
    if n < 10 then [DigitChar(n)] else NatToString(n / 10) + [DigitChar(n % 10)]
  }

  /** Python's `str(i)` for any integer. */
  function IntToString(i: int): string {
    if i < 0 then "-" + NatToString(-i) else NatToString(i)
  }

  /** Python's `int(s)` for a string of ASCII digits. */
  function ParseDigits(s: string): nat
    requires forall i :: 0 <= i < |s| ==> '0' <= s[i] <= '9'
  {
    if |s| == 0 then 0 else ParseDigits(s[..|s| - 1]) * 10 + (s[|s| - 1] as int - '0' as int)
  }

  /** Formatting a number and reading it back gives the number. */
  lemma {:induction false} ParseNatToString(n: nat)
    ensures ParseDigits(NatToString(n)) == n
  {
    if n >= 10 {
      var r := NatToString(n);
      assert r[..|r| - 1] == NatToString(n / 10);
      ParseNatToString(n / 10);
    }
  }

  /** Distinct ids never print the same: the stored "Message ID" text
      identifies the message. */
  lemma NatToStringInjective(a: nat, b: nat)
    ensures NatToString(a) == NatToString(b) ==> a == b
  {
    if NatToString(a) == NatToString(b) {
      ParseNatToString(a);
      ParseNatToString(b);
    }
  }

  /** A needle found in a haystack is no longer than it. */
  lemma {:induction false} ContainsNoLonger(haystack: string, needle: string)
    requires Contains(haystack, needle)
    ensures |needle| <= |haystack|
    decreases |haystack|
  {
    if !StartsWith(haystack, needle) {
      ContainsNoLonger(haystack[1..], needle);
    }
  }

  /** Every character of a needle found in a haystack occurs in it. */
  lemma {:induction false} ContainedChars(haystack: string, needle: string)
    requires Contains(haystack, needle)
    ensures forall i :: 0 <= i < |needle| ==> needle[i] in haystack
    decreases |haystack|
  {
    if StartsWith(haystack, needle) {
      assert forall i :: 0 <= i < |needle| ==> needle[i] == haystack[i];
    } else {
      ContainedChars(haystack[1..], needle);
      assert forall x :: x in haystack[1..] ==> x in haystack;
    }
  }

  /** Every slice of a string is found in it. */
  lemma {:induction false} ContainsSlice(s: string, k: nat, n: nat)
    requires k + n <= |s|
    ensures Contains(s, s[k..k + n])
    decreases k
  {
    if k == 0 {
      assert s[..n] == s[0..n];
    } else {
      ContainsSlice(s[1..], k - 1, n);
      assert s[1..][k - 1..k - 1 + n] == s[k..k + n];
    }
  }

  /** Replacing a whole string that is the pattern gives the replacement. */
  lemma ReplaceWhole(pat: string, rep: string)
    requires |pat| > 0
    ensures Replace(pat, pat, rep) == rep
  {
    assert StartsWith(pat, pat);
    assert pat[|pat|..] == [];
    assert rep + [] == rep;
  }

  /** `replace` leaves a string without any occurrence of `old` untouched. */
  lemma {:induction false} ReplaceAbsent(s: string, pat: string, rep: string)
    requires |pat| > 0 && !Contains(s, pat)
    ensures Replace(s, pat, rep) == s
    decreases |s|
  {
    if |s| > 0 {
      ReplaceAbsent(s[1..], pat, rep);
      assert [s[0]] + s[1..] == s;
    }
  }

  /** A string without a character `c` contains no needle that starts with `c`. */
  lemma {:induction false} NotContainsWithout(s: string, needle: string)
    requires |needle| > 0 && forall i :: 0 <= i < |s| ==> s[i] != needle[0]
    ensures !Contains(s, needle)
    decreases |s|
  {
    if |s| > 0 {
      assert |needle| <= |s| ==> s[..|needle|][0] == s[0];
      NotContainsWithout(s[1..], needle);
    }
  }

  /** Lower-casing is idempotent. */
  lemma LowerIdempotent(s: string)
    ensures Lower(Lower(s)) == Lower(s)
  {
  }

  /** A set of characters no character changes membership of by being
      lower-cased. */
  ghost predicate CaseBlind(drop: char -> bool) {
    forall c :: drop(LowerChar(c)) == drop(c)
  }

  /** Lower-casing neither creates nor removes whitespace. */
  lemma SpaceIsCaseBlind()
    ensures CaseBlind(IsSpace)
  {
  }

  /** Lower-casing commutes with trimming a case-blind set of characters. */
  lemma {:induction false} LowerCommutesWithTrimLeft(s: string, drop: char -> bool)
    requires CaseBlind(drop)
    ensures Lower(TrimLeftBy(s, drop)) == TrimLeftBy(Lower(s), drop)
    decreases |s|
  {
    if |s| > 0 {
      assert drop(LowerChar(s[0])) == drop(s[0]);
      if drop(s[0]) {
        assert Lower(s)[1..] == Lower(s[1..]);
        LowerCommutesWithTrimLeft(s[1..], drop);
      }
    }
  }

  lemma {:induction false} LowerCommutesWithTrimRight(s: string, drop: char -> bool)
    requires CaseBlind(drop)
    ensures Lower(TrimRightBy(s, drop)) == TrimRightBy(Lower(s), drop)
    decreases |s|
  {
    if |s| > 0 {
      assert drop(LowerChar(s[|s| - 1])) == drop(s[|s| - 1]);
      if drop(s[|s| - 1]) {
        assert Lower(s)[..|s| - 1] == Lower(s[..|s| - 1]);
        LowerCommutesWithTrimRight(s[..|s| - 1], drop);
      }
    }
  }

  lemma LowerCommutesWithStripBy(s: string, drop: char -> bool)
    requires CaseBlind(drop)
    ensures Lower(StripBy(s, drop)) == StripBy(Lower(s), drop)
  {
    LowerCommutesWithTrimLeft(s, drop);
    LowerCommutesWithTrimRight(TrimLeftBy(s, drop), drop);
  }

  /** `s.strip().lower() == s.lower().strip()`. */
  lemma LowerCommutesWithStrip(s: string)
    ensures Lower(Strip(s)) == Strip(Lower(s))
  {
    SpaceIsCaseBlind();
    LowerCommutesWithStripBy(s, IsSpace);
  }

  /** Lower-casing works character by character. */
  lemma LowerAppend(a: string, b: string)
    ensures Lower(a + b) == Lower(a) + Lower(b)
  {
  }

  /** Characters to be dropped in front of a string do not survive trimming. */
  lemma {:induction false} TrimLeftPadded(p: string, s: string, drop: char -> bool)
    requires forall i :: 0 <= i < |p| ==> drop(p[i])
    ensures TrimLeftBy(p + s, drop) == TrimLeftBy(s, drop)
    decreases |p|
  {
    if p != [] {
      assert (p + s)[1..] == p[1..] + s;
      TrimLeftPadded(p[1..], s, drop);
    } else {
      assert p + s == s;
    }
  }

  lemma {:induction false} TrimRightPadded(s: string, q: string, drop: char -> bool)
    requires forall i :: 0 <= i < |q| ==> drop(q[i])
    ensures TrimRightBy(s + q, drop) == TrimRightBy(s, drop)
    decreases |q|
  {
    if q != [] {
      assert (s + q)[..|s + q| - 1] == s + q[..|q| - 1];
      TrimRightPadded(s, q[..|q| - 1], drop);
    } else {
      assert s + q == s;
    }
  }

  /** Trimming the front of `s + q` only reaches into `q` when all of `s` goes. */
  lemma {:induction false} TrimLeftAppend(s: string, q: string, drop: char -> bool)
    requires TrimLeftBy(s, drop) != []
    ensures TrimLeftBy(s + q, drop) == TrimLeftBy(s, drop) + q
    decreases |s|
  {
    if drop(s[0]) {
      assert (s + q)[1..] == s[1..] + q;
      TrimLeftAppend(s[1..], q, drop);
    }
  }

  /** Stripping ignores surrounding padding. */
  lemma StripPadded(p: string, s: string, q: string, drop: char -> bool)
    requires forall i :: 0 <= i < |p| ==> drop(p[i])
    requires forall i :: 0 <= i < |q| ==> drop(q[i])
    ensures StripBy(p + s + q, drop) == StripBy(s, drop)
  {
    assert p + s + q == p + (s + q);
    TrimLeftPadded(p, s + q, drop);
    var t := TrimLeftBy(s, drop);
    if t != [] {
      TrimLeftAppend(s, q, drop);
      TrimRightPadded(t, q, drop);
    } else {
      assert forall i :: 0 <= i < |s| ==> drop(s[i]);
      TrimLeftPadded(s, q, drop);
      TrimLeftPadded(q, [], drop);
      assert q + [] == q;
    }
  }

  /** A string whose ends `drop` keeps is its own strip. */
  lemma StripCharsKeeps(s: string, chars: set<char>)
    requires s == [] || (s[0] !in chars && s[|s| - 1] !in chars)
    ensures StripChars(s, chars) == s
  {
  }

  /** `strip(chars)` removes padding made of `chars`. */
  lemma StripCharsPadded(p: string, s: string, q: string, chars: set<char>)
    requires forall i :: 0 <= i < |p| ==> p[i] in chars
    requires forall i :: 0 <= i < |q| ==> q[i] in chars
    requires s == [] || (s[0] !in chars && s[|s| - 1] !in chars)
    ensures StripChars(p + s + q, chars) == s
  {
    StripPadded(p, s, q, c => c in chars);
  }

  /** What `strip(chars)` leaves is a piece of the string, with neither
      end among `chars`. */
  lemma StripCharsPiece(s: string, chars: set<char>)
    ensures var r := StripChars(s, chars); r == [] || (r[0] !in chars && r[|r| - 1] !in chars)
    ensures Contains(s, StripChars(s, chars))
  {
    var l := TrimLeftBy(s, c => c in chars);
    var r := TrimRightBy(l, c => c in chars);
    var k := |s| - |l|;
    assert r == s[k..k + |r|] by {
      assert l == s[k..] && r == l[..|r|];
      PrefixOfSuffix(s, k, |r|);
    }
    ContainsSlice(s, k, |r|);
  }

  lemma PrefixOfSuffix(s: string, k: nat, n: nat)
    requires k + n <= |s|
    ensures s[k..][..n] == s[k..k + n]
  {
  }

  /** Stripping an already stripped string changes nothing. */
  lemma StripIdempotent(s: string)
    ensures Strip(Strip(s)) == Strip(s)
  {
    var t := Strip(s);
    var l := TrimLeftBy(s, IsSpace);
    assert TrimLeftBy(t, IsSpace) == t;
    assert TrimRightBy(t, IsSpace) == t;
  }
}
