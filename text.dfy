/** Models of the Python string built-ins the bot relies on: `str.isspace`,
    `str.lower`, `str.strip`, `str.split()` with no argument, and substring search. */
module Text {

  /** The characters Python's `str.isspace()` accepts; `str.split()` and
      `str.strip()` without arguments cut at exactly these. */
  predicate IsSpace(c: char) {
    || '\t' <= c <= '\r'
    || '\U{1C}' <= c <= '\U{1F}'
    || c == ' ' || c == '\U{85}' || c == '\U{A0}' || c == '\U{1680}'
    || '\U{2000}' <= c <= '\U{200A}'
    || c == '\U{2028}' || c == '\U{2029}' || c == '\U{202F}' || c == '\U{205F}' || c == '\U{3000}'
  }

  predicate AllSpace(s: string) {
    forall i :: 0 <= i < |s| ==> IsSpace(s[i])
  }

  predicate NoSpace(s: string) {
    forall i :: 0 <= i < |s| ==> !IsSpace(s[i])
  }

  /** `needle` occurs in `haystack` as a contiguous run of characters. */
  predicate Contains(haystack: string, needle: string) {
    exists i :: 0 <= i <= |haystack| && needle <= haystack[i..]
  }

  lemma {:induction false} ContainsMiddle(a: string, x: string, b: string)
    ensures Contains(a + (x + b), x)
  {
    var h := a + (x + b);
    assert h[|a|..] == x + b;
    assert x <= h[|a|..];
  }

  lemma {:induction false} ContainsExtendLeft(a: string, h: string, x: string)
    requires Contains(h, x)
    ensures Contains(a + h, x)
  {
    var i :| 0 <= i <= |h| && x <= h[i..];
    assert (a + h)[|a| + i..] == h[i..];
  }

  /** Python's `str.lower()` on one character, over the alphabet this model
      covers: ASCII A-Z, the Latin-1 capitals U+00C0..U+00DE (but not the
      multiplication sign U+00D7), the Cyrillic capitals U+0410..U+042F and
      U+0400..U+040F (Ё among them). Every other character is left unchanged. */
  function LowerChar(c: char): char {
    if 'A' <= c <= 'Z' || ('\U{C0}' <= c <= '\U{DE}' && c != '\U{D7}') || 'А' <= c <= 'Я' then
      (c as int + 32) as char
    else if '\U{400}' <= c <= '\U{40F}' then
      (c as int + 0x50) as char
    else
      c
  }

  /** Python's `str.lower()`, character by character. */
  function Lower(s: string): (r: string)
    ensures |r| == |s|
    ensures forall i :: 0 <= i < |s| ==> r[i] == LowerChar(s[i])
  {
    seq(|s|, i requires 0 <= i < |s| => LowerChar(s[i]))
  }

  lemma {:induction false} LowerAppend(a: string, b: string)
    ensures Lower(a + b) == Lower(a) + Lower(b)
  {
    assert forall i :: 0 <= i < |a + b| ==> Lower(a + b)[i] == (Lower(a) + Lower(b))[i] by {
      forall i | 0 <= i < |a + b| ensures Lower(a + b)[i] == (Lower(a) + Lower(b))[i] {
        if i < |a| { assert (a + b)[i] == a[i]; } else { assert (a + b)[i] == b[i - |a|]; }
      }
    }
  }

  /** The first index at or after `i` that does not hold whitespace (or `|s|`). */
  function SkipSpaces(s: string, i: nat): (k: nat)
    requires i <= |s|
    ensures i <= k <= |s|
    ensures forall m :: i <= m < k ==> IsSpace(s[m])
    ensures k < |s| ==> !IsSpace(s[k])
    decreases |s| - i
  {
    if i < |s| && IsSpace(s[i]) then SkipSpaces(s, i + 1) else i
  }

  /** The smallest `k <= j` such that `s[k..j]` is all whitespace. */
  function SkipSpacesBack(s: string, j: nat): (k: nat)
    requires j <= |s|
    ensures k <= j
    ensures forall m :: k <= m < j ==> IsSpace(s[m])
    ensures k > 0 ==> !IsSpace(s[k - 1])
  {
    if j > 0 && IsSpace(s[j - 1]) then SkipSpacesBack(s, j - 1) else j
  }

  /** The end of the whitespace-free run that starts at `i`. */
  function WordEnd(s: string, i: nat): (k: nat)
    requires i <= |s|
    ensures i <= k <= |s|
    ensures forall m :: i <= m < k ==> !IsSpace(s[m])
    ensures k < |s| ==> IsSpace(s[k])
    decreases |s| - i
  {
    if i < |s| && !IsSpace(s[i]) then WordEnd(s, i + 1) else i
  }

  /** Python's `str.strip()` with no argument: `s` without its leading and
      trailing whitespace. */
  function Strip(s: string): (r: string)
    ensures r == [] <==> AllSpace(s)
    ensures r != [] ==> !IsSpace(r[0]) && !IsSpace(r[|r| - 1])
  {
    var i := SkipSpaces(s, 0);
    var j := SkipSpacesBack(s, |s|);
    StripBounds(s);
    if i < j then s[i..j] else []
  }

  lemma {:induction false} StripBounds(s: string)
    ensures var i, j := SkipSpaces(s, 0), SkipSpacesBack(s, |s|);
      && (i < j <==> !AllSpace(s))
      && AllSpace(s[..i]) && AllSpace(s[j..])
  {
    var i, j := SkipSpaces(s, 0), SkipSpacesBack(s, |s|);
    if !AllSpace(s) {
      var k :| 0 <= k < |s| && !IsSpace(s[k]);
      assert i <= k < j;
    }
    assert forall m :: 0 <= m < |s[j..]| ==> s[j..][m] == s[j + m];
  }

  /** Stripping cuts only whitespace, and only from the two ends. */
  lemma {:induction false} StripCutsEnds(s: string)
    ensures exists i, j :: 0 <= i <= j <= |s| && Strip(s) == s[i..j] && AllSpace(s[..i]) && AllSpace(s[j..])
  {
    var i, j := SkipSpaces(s, 0), SkipSpacesBack(s, |s|);
    StripBounds(s);
    if i < j {
      assert Strip(s) == s[i..j];
    } else {
      assert Strip(s) == s[|s|..|s|] && s[..|s|] == s;
    }
  }

  lemma {:induction false} StripInside(s: string)
    ensures Contains(s, Strip(s))
  {
    var i, j := SkipSpaces(s, 0), SkipSpacesBack(s, |s|);
    StripBounds(s);
    if i < j {
      assert Strip(s) == s[i..j] && s[i..j] <= s[i..];
    } else {
      assert Strip(s) <= s[0..];
    }
  }

  lemma {:induction false} StripIdempotent(s: string)
    ensures Strip(Strip(s)) == Strip(s)
  {
    var r := Strip(s);
    if r != [] {
      assert SkipSpaces(r, 0) == 0;
      assert SkipSpacesBack(r, |r|) == |r|;
      assert r[0..|r|] == r;
    }
  }

  /** Python's `str.split()` with no argument, applied to `s[i..]`: the maximal
      whitespace-free runs, in order; whitespace yields no empty token. */
  function WordsFrom(s: string, i: nat): (ws: seq<string>)
    requires i <= |s|
    ensures forall k :: 0 <= k < |ws| ==> ws[k] != [] && NoSpace(ws[k])
    decreases |s| - i
  {
    if i == |s| then []
    else if IsSpace(s[i]) then WordsFrom(s, i + 1)
    else
      var j := WordEnd(s, i);
      [s[i..j]] + WordsFrom(s, j)
  }

  function Words(s: string): (ws: seq<string>)
    ensures forall k :: 0 <= k < |ws| ==> ws[k] != [] && NoSpace(ws[k])
  {
    WordsFrom(s, 0)
  }

  /** The characters of `s[i..]` that are not whitespace, in order. */
  function NonSpaceFrom(s: string, i: nat): string
    requires i <= |s|
    decreases |s| - i
  {
    if i == |s| then [] else (if IsSpace(s[i]) then [] else [s[i]]) + NonSpaceFrom(s, i + 1)
  }

  function Concat(ws: seq<string>): string {
    if ws == [] then [] else ws[0] + Concat(ws[1..])
  }

  lemma {:induction false} NonSpaceOfWord(s: string, i: nat, j: nat)
    requires i <= j <= |s|
    requires forall m :: i <= m < j ==> !IsSpace(s[m])
    ensures NonSpaceFrom(s, i) == s[i..j] + NonSpaceFrom(s, j)
    decreases j - i
  {
    if i < j {
      NonSpaceOfWord(s, i + 1, j);
      calc {
        NonSpaceFrom(s, i);
        [s[i]] + NonSpaceFrom(s, i + 1);
        [s[i]] + (s[i + 1..j] + NonSpaceFrom(s, j));
        ([s[i]] + s[i + 1..j]) + NonSpaceFrom(s, j);
        { assert [s[i]] + s[i + 1..j] == s[i..j]; }
        s[i..j] + NonSpaceFrom(s, j);
      }
    }
  }

  /** Splitting loses exactly the whitespace: gluing the tokens of `s[i..]`
      back together gives its non-whitespace characters, in order. */
  lemma {:induction false} WordsKeepEveryOtherCharacter(s: string, i: nat)
    requires i <= |s|
    ensures Concat(WordsFrom(s, i)) == NonSpaceFrom(s, i)
    decreases |s| - i
  {
    if i == |s| {
    } else if IsSpace(s[i]) {
      WordsKeepEveryOtherCharacter(s, i + 1);
    } else {
      var j := WordEnd(s, i);
      var ws := WordsFrom(s, i);
      assert ws[0] == s[i..j] && ws[1..] == WordsFrom(s, j);
      WordsKeepEveryOtherCharacter(s, j);
      NonSpaceOfWord(s, i, j);
    }
  }

  /** `s[a..b]` is a maximal whitespace-free run of `s`: non-empty, free of
      whitespace, and bounded on each side by whitespace or an end of `s`. */
  predicate MaximalRun(s: string, a: nat, b: nat) {
    && a < b <= |s|
    && (a == 0 || IsSpace(s[a - 1]))
    && (b == |s| || IsSpace(s[b]))
    && forall m :: a <= m < b ==> !IsSpace(s[m])
  }

  /** `w` is one of the maximal whitespace-free runs of `s`. */
  predicate IsRunOf(s: string, w: string) {
    exists a: nat, b: nat :: a < b <= |s| && MaximalRun(s, a, b) && w == s[a..b]
  }

  /** Where `str.split()` cuts: starting at `i`, at the start of `s` or just
      after or at whitespace, or at its end, every token is a maximal run of `s`. */
  lemma {:induction false} WordsFromAreRuns(s: string, i: nat)
    requires i <= |s| && (i == 0 || i == |s| || IsSpace(s[i - 1]) || IsSpace(s[i]))
    ensures forall k :: 0 <= k < |WordsFrom(s, i)| ==> IsRunOf(s, WordsFrom(s, i)[k])
    decreases |s| - i
  {
    var ws := WordsFrom(s, i);
    if i == |s| {
    } else if IsSpace(s[i]) {
      assert ws == WordsFrom(s, i + 1);
      WordsFromAreRuns(s, i + 1);
    } else {
      var j := WordEnd(s, i);
      assert ws == [s[i..j]] + WordsFrom(s, j);
      WordsFromAreRuns(s, j);
      forall k | 0 <= k < |ws| ensures IsRunOf(s, ws[k]) {
        if k == 0 {
          assert MaximalRun(s, i, j) && ws[0] == s[i..j];
        } else {
          assert ws[k] == WordsFrom(s, j)[k - 1];
        }
      }
    }
  }

  /** Every token of `str.split()` is a maximal whitespace-free run of `s`. */
  lemma {:induction false} WordsAreRuns(s: string)
    ensures forall k :: 0 <= k < |Words(s)| ==> IsRunOf(s, Words(s)[k])
  {
    WordsFromAreRuns(s, 0);
    assert Words(s) == WordsFrom(s, 0);
  }

  lemma {:induction false} WordsAfterSpaces(s: string, i: nat, k: nat)
    requires i <= k <= |s|
    requires forall m :: i <= m < k ==> IsSpace(s[m])
    ensures WordsFrom(s, i) == WordsFrom(s, k)
    decreases k - i
  {
    if i < k {
      WordsAfterSpaces(s, i + 1, k);
    }
  }

  lemma {:induction false} WordsOfNonBlank(s: string, i: nat, k: nat)
    requires i <= k < |s| && !IsSpace(s[k])
    ensures WordsFrom(s, i) != []
    decreases |s| - i
  {
    if IsSpace(s[i]) {
      WordsOfNonBlank(s, i + 1, k);
    }
  }

  lemma {:induction false} NoSpaceSlice(s: string, i: nat, j: nat)
    requires i <= j <= |s|
    ensures NoSpace(s[i..j]) <==> forall m :: i <= m < j ==> !IsSpace(s[m])
  {
    assert forall m :: i <= m < j ==> s[m] == s[i..j][m - i];
  }

  /** From the start of a token, `str.split()` yields that token alone exactly
      when everything after it is whitespace. */
  lemma {:induction false} OneWordFrom(s: string, i: nat)
    requires i < |s| && !IsSpace(s[i])
    ensures |WordsFrom(s, i)| == 1 <==> forall m :: WordEnd(s, i) <= m < |s| ==> IsSpace(s[m])
  {
    var e := WordEnd(s, i);
    assert WordsFrom(s, i) == [s[i..e]] + WordsFrom(s, e);
    if forall m :: e <= m < |s| ==> IsSpace(s[m]) {
      WordsAfterSpaces(s, e, |s|);
    } else {
      var k :| e <= k < |s| && !IsSpace(s[k]);
      WordsOfNonBlank(s, e, k);
    }
  }

  /** `str.split()` yields exactly one token when, and only when, the stripped
      text is non-empty and holds no whitespace. */
  lemma {:induction false} OneWordIff(s: string)
    ensures |Words(s)| == 1 <==> Strip(s) != [] && NoSpace(Strip(s))
  {
    var i, j := SkipSpaces(s, 0), SkipSpacesBack(s, |s|);
    StripBounds(s);
    WordsAfterSpaces(s, 0, i);
    if i < j {
      assert Strip(s) == s[i..j];
      NoSpaceSlice(s, i, j);
      OneWordFrom(s, i);
      var e := WordEnd(s, i);
      assert (forall m :: e <= m < |s| ==> IsSpace(s[m])) ==> j <= e;
      assert (forall m :: i <= m < j ==> !IsSpace(s[m])) ==> j <= e;
    } else {
      WordsAfterSpaces(s, i, |s|);
    }
  }
}
