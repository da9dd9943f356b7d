/** The handlers around the preference store: `start` and `set_language`
    write it, `handle_message` reads it and turns a message into a
    translation request. */
module Bot {
  import opened Wrappers
  import opened Text
  import opened Languages
  import opened Detection
  import opened Prompts

  /** The Telegram user id, used only as a key. */
  type UserId = int

  /** Every stored preference is a key `/lang` accepts. */
  predicate ValidPreferences(prefs: map<UserId, string>) {
    forall u :: u in prefs ==> IsTargetKey(prefs[u])
  }

  /** `user_languages.get(user_id, 'english')` */
  function Preferred(prefs: map<UserId, string>, user: UserId): (key: string)
    ensures ValidPreferences(prefs) ==> IsTargetKey(key)
    ensures user !in prefs ==> key == DefaultTarget
    ensures user in prefs ==> key == prefs[user]
  {
    if user in prefs then prefs[user] else DefaultTarget
  }

  /** What `set_language` answers. */
  datatype Selection =
    | MissingLanguage                   // no argument after /lang
    | Chosen(key: string, name: string) // stored; the reply shows the display name
    | Unsupported                       // a Russian key or a name not in the table

  /** The decision `set_language` takes on the command's arguments: the first
      one, lower-cased, is accepted when it is a key of the table other than
      the two Russian ones. */
  function Select(args: seq<string>): (s: Selection)
    ensures s.MissingLanguage? <==> args == []
    ensures s.Chosen? <==> args != [] && IsTargetKey(Lower(args[0]))
    ensures s.Chosen? ==> IsTargetKey(s.key) && s.key == Lower(args[0]) && s.name == LanguageNames[s.key]
    ensures s.Chosen? ==> s.name != "Russian"
  {
    if args == [] then MissingLanguage
    else
      var language := Lower(args[0]);
      TargetKeys(language);
      if IsTargetKey(language) then Chosen(language, LanguageNames[language]) else Unsupported
  }

  /** A message the bot will send to the completion endpoint. */
  datatype Request = Request(text: string, source: string, target: string, isSingle: bool)

  /** The decisions of `handle_message`: strip the message, detect its
      language, reject it when that is unknown, otherwise translate Russian
      into the user's preference (English by default) and anything else into
      Russian. */
  function Plan(prefs: map<UserId, string>, user: UserId, message: string): (r: Option<Request>)
    ensures r.None? <==> DetectLanguage(Strip(message)) == Unknown
    ensures r.Some? ==> && r.value.text == Strip(message)
                        && r.value.source == DetectLanguage(r.value.text)
                        && r.value.isSingle == IsSingleWord(r.value.text)
  {
    var text := Strip(message);
    var source := DetectLanguage(text);
    if source == Unknown then None
    else
      var target := if source == Russian then Preferred(prefs, user) else Russian;
      Some(Request(text, source, target, IsSingleWord(text)))
  }

  /** What `handle_message` replies. */
  datatype Reply =
    | CannotDetect               // "cannot determine the language" message
    | Translated(answer: string) // whatever `translate_text` returned

  /** The direction rule: Russian goes to the stored preference, or English;
      anything else goes to Russian. With a valid store the two ends always
      differ, also by display name, and Russian input never targets Russian. */
  lemma {:induction false} Direction(prefs: map<UserId, string>, user: UserId, message: string)
    requires ValidPreferences(prefs)
    ensures Plan(prefs, user, message).Some? ==> var q := Plan(prefs, user, message).value;
      && (q.source == Russian ==> q.target == Preferred(prefs, user) && IsTargetKey(q.target))
      && (q.source != Russian ==> q.target == Russian)
      && q.source != q.target
      && q.source in LanguageNames && q.target in LanguageNames
      && LanguageNames[q.source] != LanguageNames[q.target]
  {
    if Plan(prefs, user, message).None? {
      return;
    }
    var q := Plan(prefs, user, message).value;
    TagNames();
    if q.source == Russian {
      TargetKeys(q.target);
      assert LanguageNames[q.target] in {"English", "Portuguese"};
    } else {
      assert q.target == Russian;
      assert q.source in {Portuguese, English};
    }
  }

  /** A message that is not rejected always reaches the endpoint as a prompt
      (the display-name lookup cannot fail), and that prompt holds the
      stripped message verbatim. */
  lemma {:induction false} PromptCarriesMessage(prefs: map<UserId, string>, user: UserId, message: string)
    requires ValidPreferences(prefs)
    ensures Plan(prefs, user, message).Some? ==> var q := Plan(prefs, user, message).value;
      && BuildPrompt(q.text, q.source, q.target, q.isSingle).Some?
      && Contains(BuildPrompt(q.text, q.source, q.target, q.isSingle).value, Strip(message))
      && Contains(message, q.text)
  {
    if Plan(prefs, user, message).None? {
      return;
    }
    var q := Plan(prefs, user, message).value;
    Direction(prefs, user, message);
    assert q.target == Russian || q.target in LanguageNames;
    StripInside(message);
  }

  /** Without a preference, a Russian sentence is translated into English and
      asks for the full-text template. */
  lemma RussianSentenceGoesToEnglish(user: UserId)
    ensures Plan(map[], user, "Привет, как дела?") == Some(Request("Привет, как дела?", Russian, English, false))
  {
    SentenceStripsToItself();
    SentenceIsRussian();
    SentenceIsNotOneWord();
  }

  lemma SentenceStripsToItself()
    ensures Strip("Привет, как дела?") == "Привет, как дела?"
  {
    var m := "Привет, как дела?";
    assert SkipSpaces(m, 0) == 0 && SkipSpacesBack(m, |m|) == |m| && m[0..|m|] == m;
  }

  lemma SentenceIsRussian()
    ensures DetectLanguage("Привет, как дела?") == Russian
  {
    var m := "Привет, как дела?";
    RussianLetterWins([], m[0], m[1..]);
    assert [] + [m[0]] + m[1..] == m;
  }

  lemma SentenceIsNotOneWord()
    ensures !IsSingleWord("Привет, как дела?")
  {
    var m := "Привет, как дела?";
    SentenceStripsToItself();
    assert IsSpace(m[7]);
  }

  /** An English word is translated into Russian with the one-word template. */
  lemma EnglishWordGoesToRussian(prefs: map<UserId, string>, user: UserId)
    ensures Plan(prefs, user, "  Hello\n") == Some(Request("Hello", English, Russian, true))
  {
    var m := "  Hello\n";
    assert Strip(m) == "Hello" by {
      assert SkipSpaces(m, 0) == 2 && SkipSpacesBack(m, |m|) == 7;
    }
    HelloIsEnglish();
    HelloIsOneWord();
  }

  lemma HelloIsEnglish()
    ensures DetectLanguage("Hello") == English
  {
    var l := Lower("Hello");
    assert l == "hello";
    assert forall i :: 0 <= i < |l| ==> 'a' <= l[i] <= 'z';
    assert !HasRussianLower(l) && !HasPortugueseLower(l) && IsLatinLower(l[0]);
    forall i, k | 0 <= i <= |l| && 0 <= k < |StopWords| ensures !WholeWordAt(l, i, StopWords[k]) {
      StopWordsStartLatin(k);
      assert StopWords[k] <= l[i..] ==> l[i] == StopWords[k][0];
    }
  }

  lemma HelloIsOneWord()
    ensures IsSingleWord("Hello")
  {
    var w := "Hello";
    assert Strip(w) == w by {
      assert SkipSpaces(w, 0) == 0 && SkipSpacesBack(w, |w|) == |w| && w[0..|w|] == w;
    }
    assert forall i :: 0 <= i < |w| ==> IsLatinLetter(w[i]);
    assert NoSpace(w);
  }

  /** The in-memory `user_languages` dictionary and the handlers that use it. */
  class PreferenceStore {
    var languages: map<UserId, string>

    ghost predicate Valid()
      reads this
    {
      ValidPreferences(languages)
    }

    constructor ()
      ensures Valid() && languages == map[]
    {
      languages := map[];
    }

    /** `start`: the caller's preference becomes English (the welcome text
        is not modelled). */
    method Start(user: UserId)
      requires Valid()
      modifies this
      ensures Valid()
      ensures languages == old(languages)[user := DefaultTarget]
    {
      languages := languages[user := DefaultTarget];
    }

    /** `set_language`: store the chosen key for this user alone, or leave the
        store as it was when the argument is missing or not accepted. */
    method SetLanguage(user: UserId, args: seq<string>) returns (outcome: Selection)
      requires Valid()
      modifies this
      ensures Valid()
      ensures outcome == Select(args)
      ensures outcome.Chosen? ==> languages == old(languages)[user := outcome.key]
      ensures !outcome.Chosen? ==> languages == old(languages)
    {
      outcome := Select(args);
      if outcome.Chosen? {
        languages := languages[user := outcome.key];
      }
    }

    /** `handle_message`: reject text in no known language before anything
        is sent; otherwise send the planned request to `complete`, the
        completion endpoint, and reply with what `translate_text` returns. */
    method HandleMessage(user: UserId, message: string, complete: string -> Completion) returns (reply: Reply)
      requires Valid()
      ensures reply.CannotDetect? <==> DetectLanguage(Strip(message)) == Unknown
      ensures reply.Translated? ==>
        var q := Plan(languages, user, message).value;
        && reply.answer == TranslateText(q.text, q.source, q.target, q.isSingle, complete)
        && BuildPrompt(q.text, q.source, q.target, q.isSingle).Some?
    {
      match Plan(languages, user, message)
      case None =>
        reply := CannotDetect;
      case Some(q) =>
        PromptCarriesMessage(languages, user, message);
        reply := Translated(TranslateText(q.text, q.source, q.target, q.isSingle, complete));
    }
  }

  /** A session: `/lang PT` is stored as "pt" for this user alone, `/lang ru`
      and `/lang` alone change nothing, `/start` resets to English. */
  method PreferenceSession(user: UserId, other: UserId)
    requires user != other
  {
    var store := new PreferenceStore();
    var s := store.SetLanguage(user, ["PT"]);
    assert s == Chosen("pt", "Portuguese") by { assert Lower("PT") == "pt"; }
    assert Preferred(store.languages, user) == "pt" && Preferred(store.languages, other) == DefaultTarget;
    s := store.SetLanguage(user, ["ru"]);
    assert s == Unsupported by { assert Lower("ru") == "ru"; }
    s := store.SetLanguage(user, []);
    assert s == MissingLanguage && Preferred(store.languages, user) == "pt";
    store.Start(user);
    assert Preferred(store.languages, user) == "english";
  }
}
