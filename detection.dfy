/** `detect_language`, `is_russian_text` and `is_single_word`: the ordered,
    first-match-wins classifier and the one-token test. */
module Detection {
  import opened Text

  /** The four tags `detect_language` can return. */
  const Russian: string := "russian"
  const Portuguese: string := "portuguese"
  const English: string := "english"
  const Unknown: string := "unknown"

  // The character classes of the three regular expressions, applied to
  // lower-cased text.

  /** `[а-яё]` */
  predicate IsRussianLower(c: char) {
    'а' <= c <= 'я' || c == 'ё'
  }

  /** `[áàâãçéêíóôõú]` */
  predicate IsPortugueseLower(c: char) {
    c in "áàâãçéêíóôõú"
  }

  /** `[a-z]` */
  predicate IsLatinLower(c: char) {
    'a' <= c <= 'z'
  }

  /** A character matched by `\w`: a letter, a digit or the underscore. The
      alphabet covered is ASCII, Latin-1 (its letters, the superscript
      digits, the vulgar fractions, `ª`, `µ` and `º`) and the Cyrillic block
      U+0400..U+04FF without its sign and combining marks U+0482..U+0489. */
  predicate IsWordChar(c: char) {
    || 'a' <= c <= 'z' || 'A' <= c <= 'Z' || '0' <= c <= '9' || c == '_'
    || c == '\U{AA}' || c == '\U{B2}' || c == '\U{B3}' || c == '\U{B5}'
    || c == '\U{B9}' || c == '\U{BA}' || '\U{BC}' <= c <= '\U{BE}'
    || ('\U{C0}' <= c <= '\U{FF}' && c != '\U{D7}' && c != '\U{F7}')
    || '\U{400}' <= c <= '\U{481}' || '\U{48A}' <= c <= '\U{4FF}'
  }

  /** The alternatives of `\b(que|não|com|para|uma|dos|das|pelo|pela)\b`. */
  const StopWords: seq<string> := ["que", "não", "com", "para", "uma", "dos", "das", "pelo", "pela"]

  predicate HasRussianLower(s: string) {
    exists i :: 0 <= i < |s| && IsRussianLower(s[i])
  }

  predicate HasPortugueseLower(s: string) {
    exists i :: 0 <= i < |s| && IsPortugueseLower(s[i])
  }

  predicate HasLatinLower(s: string) {
    exists i :: 0 <= i < |s| && IsLatinLower(s[i])
  }

  /** `w` occurs at `i` with a word boundary on either side. */
  predicate WholeWordAt(s: string, i: nat, w: string)
    requires i <= |s|
  {
    && w <= s[i..]
    && (i == 0 || !IsWordChar(s[i - 1]))
    && (i + |w| == |s| || !IsWordChar(s[i + |w|]))
  }

  /** The stop-word regular expression finds a match somewhere in `s`. */
  predicate HasStopWord(s: string) {
    exists i, k :: 0 <= i <= |s| && 0 <= k < |StopWords| && WholeWordAt(s, i, StopWords[k])
  }

  // Reference definitions over the text as typed, before lower-casing.

  /** A Russian letter in either case. */
  predicate IsRussianLetter(c: char) {
    'А' <= c <= 'я' || c == 'Ё' || c == 'ё'
  }

  /** One of the listed Portuguese accented letters, in either case. */
  predicate IsPortugueseLetter(c: char) {
    c in "áàâãçéêíóôõúÁÀÂÃÇÉÊÍÓÔÕÚ"
  }

  /** An ASCII letter in either case. */
  predicate IsLatinLetter(c: char) {
    'a' <= c <= 'z' || 'A' <= c <= 'Z'
  }

  predicate HasRussianLetter(text: string) {
    exists i :: 0 <= i < |text| && IsRussianLetter(text[i])
  }

  predicate HasPortugueseLetter(text: string) {
    exists i :: 0 <= i < |text| && IsPortugueseLetter(text[i])
  }

  predicate HasLatinLetter(text: string) {
    exists i :: 0 <= i < |text| && IsLatinLetter(text[i])
  }

  lemma LowerKeepsClasses(c: char)
    ensures IsRussianLower(LowerChar(c)) <==> IsRussianLetter(c)
    ensures IsPortugueseLower(LowerChar(c)) <==> IsPortugueseLetter(c)
    ensures IsLatinLower(LowerChar(c)) <==> IsLatinLetter(c)
  {
  }

  lemma {:induction false} LowerSearch(text: string)
    ensures HasRussianLower(Lower(text)) <==> HasRussianLetter(text)
    ensures HasPortugueseLower(Lower(text)) <==> HasPortugueseLetter(text)
    ensures HasLatinLower(Lower(text)) <==> HasLatinLetter(text)
  {
    forall i | 0 <= i < |text| {
      LowerKeepsClasses(text[i]);
    }
  }

  /** `detect_language`: Russian if the lower-cased text has a Cyrillic letter,
      else Portuguese if it has an accented letter or a stop word, else
      English if it has an ASCII letter, else unknown. */
  function DetectLanguage(text: string): (tag: string)
    ensures tag in {Russian, Portuguese, English, Unknown}
  {
    var lowered := Lower(text);
    if HasRussianLower(lowered) then Russian
    else if HasPortugueseLower(lowered) || HasStopWord(lowered) then Portuguese
    else if HasLatinLower(lowered) then English
    else Unknown
  }

  /** The classification order, stated on the text as typed: a Russian letter
      in either case wins; failing that an accented letter in either case or
      a whole stop word gives Portuguese; failing that an ASCII letter gives
      English; text with none of these is unknown. */
  lemma {:induction false} DetectionOrder(text: string)
    ensures DetectLanguage(text) == Russian <==> HasRussianLetter(text)
    ensures DetectLanguage(text) == Portuguese <==>
      !HasRussianLetter(text) && (HasPortugueseLetter(text) || HasStopWord(Lower(text)))
    ensures DetectLanguage(text) == English <==>
      !HasRussianLetter(text) && !HasPortugueseLetter(text) && !HasStopWord(Lower(text)) && HasLatinLetter(text)
    ensures DetectLanguage(text) == Unknown <==>
      !HasRussianLetter(text) && !HasPortugueseLetter(text) && !HasStopWord(Lower(text)) && !HasLatinLetter(text)
  {
    LowerSearch(text);
  }

  /** `is_russian_text`: the same Cyrillic test as the first rule of
      `detect_language`. */
  function IsRussianText(text: string): (r: bool)
    ensures r <==> DetectLanguage(text) == Russian
  {
    HasRussianLower(Lower(text))
  }

  /** `is_single_word`: `text.split()` yields exactly one token. */
  function IsSingleWord(text: string): (r: bool)
    ensures r <==> Strip(text) != [] && NoSpace(Strip(text))
  {
    OneWordIff(text);
    |Words(text)| == 1
  }

  /** Cyrillic takes precedence: one Russian letter anywhere, with any Latin
      or accented letters around it, makes the text Russian. */
  lemma {:induction false} RussianLetterWins(before: string, c: char, after: string)
    requires IsRussianLetter(c)
    ensures DetectLanguage(before + [c] + after) == Russian
  {
    var text := before + [c] + after;
    assert text[|before|] == c;
    DetectionOrder(text);
  }

  /** A stop word typed in any case, standing as a whole word in text with no
      Cyrillic, makes the text Portuguese. */
  lemma {:induction false} StopWordIsPortuguese(before: string, word: string, after: string)
    requires Lower(word) in StopWords
    requires !HasRussianLetter(before + word + after)
    requires before == [] || !IsWordChar(LowerChar(before[|before| - 1]))
    requires after == [] || !IsWordChar(LowerChar(after[0]))
    ensures DetectLanguage(before + word + after) == Portuguese
  {
    var text := before + word + after;
    LowerAppend(before + word, after);
    LowerAppend(before, word);
    var lowered := Lower(text);
    assert lowered == Lower(before) + Lower(word) + Lower(after);
    var i := |before|;
    var k :| 0 <= k < |StopWords| && StopWords[k] == Lower(word);
    assert lowered[i..][..|word|] == Lower(word);
    assert i > 0 ==> lowered[i - 1] == LowerChar(before[|before| - 1]);
    assert i + |word| < |lowered| ==> lowered[i + |word|] == LowerChar(after[0]);
    assert WholeWordAt(lowered, i, StopWords[k]);
    DetectionOrder(text);
  }

  lemma AsciiHasNoRussianOrAccent(text: string)
    requires forall i :: 0 <= i < |text| ==> text[i] < '\U{80}'
    ensures !HasRussianLetter(text) && !HasPortugueseLetter(text)
  {
  }

  lemma StopWordsStartLatin(k: nat)
    requires k < |StopWords|
    ensures |StopWords[k]| > 0 && IsLatinLower(StopWords[k][0])
  {
  }

  /** Text with no letter at all (empty, digits, punctuation, ASCII symbols)
      cannot be classified. */
  lemma {:induction false} NoLetterIsUnknown(text: string)
    requires forall i :: 0 <= i < |text| ==> text[i] < '\U{80}' && !IsLatinLetter(text[i])
    ensures DetectLanguage(text) == Unknown
  {
    var lowered := Lower(text);
    if HasStopWord(lowered) {
      var i, k :| 0 <= i <= |lowered| && 0 <= k < |StopWords| && WholeWordAt(lowered, i, StopWords[k]);
      StopWordsStartLatin(k);
      assert lowered[i..][0] == StopWords[k][0];
      LowerKeepsClasses(text[i]);
      assert false;
    }
    DetectionOrder(text);
  }

  lemma EmptyIsUnknown()
    ensures DetectLanguage("") == Unknown
  {
    NoLetterIsUnknown("");
  }
}
