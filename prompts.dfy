/** The template choice of `translate_text` and its call to the completion
    endpoint. */
module Prompts {
  import opened Wrappers
  import opened Text
  import opened Languages
  import Detection

  /** The four prompt templates. */
  datatype Template = WordToRussian | TextToRussian | WordFromRussian | TextFromRussian {
    predicate ToRussian() { WordToRussian? || TextToRussian? }
    predicate ForOneWord() { WordToRussian? || WordFromRussian? }
  }

  /** The template for a (target is Russian, single word) pair; each pair has
      its own template. */
  function ChooseTemplate(toRussian: bool, isSingle: bool): (t: Template)
    ensures t.ToRussian() == toRussian && t.ForOneWord() == isSingle
  {
    if toRussian then (if isSingle then WordToRussian else TextToRussian)
    else (if isSingle then WordFromRussian else TextFromRussian)
  }

  // The fixed text of the four templates, in the pieces between the places
  // where the text and the language name go.

  const WordToRussian1: string := "\nПереведи слово \""
  const WordToRussian2: string := "\" ("
  const WordToRussian3: string :=
    ") на русский язык. Дай ВСЕ возможные переводы с объяснениями.\nФормат ответа:\nСлово: "
  const WordToRussian4: string :=
    "\nПереводы:\n1. [перевод] - [объяснение/контекст]\n2. [перевод] - [объяснение/контекст]\n...\n"

  const TextToRussian1: string := "\nПереведи следующий текст с "
  const TextToRussian2: string :=
    " на русский язык и объясни значение сложных или неочевидных слов:\n\nТекст: \""
  const TextToRussian3: string :=
    "\"\n\nФормат ответа:\nПеревод: [перевод текста]\n\nОбъяснение сложных слов:\n- [слово]: [объяснение]\n"

  const WordFromRussian1: string := "\nTranslate the Russian word \""
  const WordFromRussian2: string := "\" to "
  const WordFromRussian3: string := ". Provide ALL possible translations of this word.\nFormat:\nWord: "
  const WordFromRussian4: string := "\nTranslations:\n1. [translation]\n2. [translation]\n3. [translation]\n...\n"

  const TextFromRussian1: string := "Translate the following Russian text to "
  const TextFromRussian2: string := ": \""
  const TextFromRussian3: string := "\""

  /** A template filled in. `language` is what the template names: the source
      tag for the two templates into Russian, the target's display name for the
      two out of Russian. */
  function Render(t: Template, text: string, language: string): (prompt: string)
    ensures Contains(prompt, text) && Contains(prompt, language)
  {
    match t
    case WordToRussian =>
      var fromLanguage := language + (WordToRussian3 + (text + WordToRussian4));
      ContainsMiddle(WordToRussian1, text, WordToRussian2 + fromLanguage);
      ContainsMiddle(WordToRussian2, language, WordToRussian3 + (text + WordToRussian4));
      ContainsExtendLeft(text, WordToRussian2 + fromLanguage, language);
      ContainsExtendLeft(WordToRussian1, text + (WordToRussian2 + fromLanguage), language);
      WordToRussian1 + (text + (WordToRussian2 + fromLanguage))
    case TextToRussian =>
      var fromText := text + TextToRussian3;
      ContainsMiddle(TextToRussian1, language, TextToRussian2 + fromText);
      ContainsMiddle(TextToRussian2, text, TextToRussian3);
      ContainsExtendLeft(language, TextToRussian2 + fromText, text);
      ContainsExtendLeft(TextToRussian1, language + (TextToRussian2 + fromText), text);
      TextToRussian1 + (language + (TextToRussian2 + fromText))
    case WordFromRussian =>
      var fromLanguage := language + (WordFromRussian3 + (text + WordFromRussian4));
      ContainsMiddle(WordFromRussian1, text, WordFromRussian2 + fromLanguage);
      ContainsMiddle(WordFromRussian2, language, WordFromRussian3 + (text + WordFromRussian4));
      ContainsExtendLeft(text, WordFromRussian2 + fromLanguage, language);
      ContainsExtendLeft(WordFromRussian1, text + (WordFromRussian2 + fromLanguage), language);
      WordFromRussian1 + (text + (WordFromRussian2 + fromLanguage))
    case TextFromRussian =>
      var fromText := text + TextFromRussian3;
      ContainsMiddle(TextFromRussian1, language, TextFromRussian2 + fromText);
      ContainsMiddle(TextFromRussian2, text, TextFromRussian3);
      ContainsExtendLeft(language, TextFromRussian2 + fromText, text);
      ContainsExtendLeft(TextFromRussian1, language + (TextFromRussian2 + fromText), text);
      TextFromRussian1 + (language + (TextFromRussian2 + fromText))
  }

  /** The prompt `translate_text` sends. A target other than Russian is looked
      up in the language table; a target missing from it raises `KeyError`,
      which the handler catches, so no prompt is built. */
  function BuildPrompt(text: string, source: string, target: string, isSingle: bool): (prompt: Option<string>)
    ensures prompt.Some? <==> target == Detection.Russian || target in LanguageNames
    ensures prompt.Some? ==> Contains(prompt.value, text)
    ensures target == Detection.Russian ==> Contains(prompt.value, source)
    ensures target != Detection.Russian && prompt.Some? ==> Contains(prompt.value, LanguageNames[target])
    ensures prompt.Some? ==> prompt.value == Render(ChooseTemplate(target == Detection.Russian, isSingle), text,
      if target == Detection.Russian then source else LanguageNames[target])
  {
    var t := ChooseTemplate(target == Detection.Russian, isSingle);
    if target == Detection.Russian then Some(Render(t, text, source))
    else if target in LanguageNames then Some(Render(t, text, LanguageNames[target]))
    else None
  }

  /** What the completion endpoint does with one prompt: it answers with some
      content, or the call raises (a network or service error, or a reply with
      no content). */
  datatype Completion = Answered(content: string) | Raised

  /** The reply `translate_text` gives when anything inside it raises. */
  const TranslationError: string := "❌ Ошибка перевода. Попробуйте позже."

  /** `translate_text`: the endpoint's answer to the prompt, stripped, or
      the fixed error reply. */
  function TranslateText(text: string, source: string, target: string, isSingle: bool,
                         complete: string -> Completion): (reply: string)
    ensures reply == TranslationError
         || (&& BuildPrompt(text, source, target, isSingle).Some?
             && complete(BuildPrompt(text, source, target, isSingle).value).Answered?
             && reply == Strip(complete(BuildPrompt(text, source, target, isSingle).value).content))
    ensures BuildPrompt(text, source, target, isSingle).None? ==> reply == TranslationError
    ensures BuildPrompt(text, source, target, isSingle).Some?
            && complete(BuildPrompt(text, source, target, isSingle).value).Answered?
            ==> reply == Strip(complete(BuildPrompt(text, source, target, isSingle).value).content)
    ensures BuildPrompt(text, source, target, isSingle).Some?
            && complete(BuildPrompt(text, source, target, isSingle).value).Raised?
            ==> reply == TranslationError
    ensures reply == [] || (!IsSpace(reply[0]) && !IsSpace(reply[|reply| - 1]))
  {
    match BuildPrompt(text, source, target, isSingle)
    case None => TranslationError
    case Some(prompt) =>
      match complete(prompt)
      case Answered(content) => Strip(content)
      case Raised => TranslationError
  }

  /** Three characters that tell the templates apart: the first, the second
      and the thirteenth of the fixed text each prompt starts with. */
  function Signature(t: Template): (char, char, char) {
    match t
    case WordToRussian => ('\n', 'П', 'о')
    case TextToRussian => ('\n', 'П', 'е')
    case WordFromRussian => ('\n', 'T', 'h')
    case TextFromRussian => ('T', 'r', 'e')
  }

  lemma RenderSignature(t: Template, text: string, language: string)
    ensures var p := Render(t, text, language); |p| > 12 && Signature(t) == (p[0], p[1], p[12])
  {
    var p := Render(t, text, language);
    var head := match t
      case WordToRussian => WordToRussian1
      case TextToRussian => TextToRussian1
      case WordFromRussian => WordFromRussian1
      case TextFromRussian => TextFromRussian1;
    assert |head| > 12 && Signature(t) == (head[0], head[1], head[12]);
    assert p == head + p[|head|..];
  }

  /** The four rendered templates differ from one another whatever is filled
      in, so the (target is Russian, single word) pair is visible in the
      prompt. */
  lemma {:induction false} RenderDeterminesTemplate(t1: Template, x1: string, l1: string,
                                                     t2: Template, x2: string, l2: string)
    requires Render(t1, x1, l1) == Render(t2, x2, l2)
    ensures t1 == t2
  {
    RenderSignature(t1, x1, l1);
    RenderSignature(t2, x2, l2);
  }
}
