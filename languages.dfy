/** The bot's language table and the rule for which keys a user may choose as
    a translation target. */
module Languages {

  /** `LANGUAGES`: every key a user may type, mapped to its display name. */
  const LanguageNames: map<string, string> := map[
    "english" := "English", "en" := "English",
    "portuguese" := "Portuguese", "pt" := "Portuguese",
    "russian" := "Russian", "ru" := "Russian"
  ]

  /** The target used for a user who has not chosen one. */
  const DefaultTarget: string := "english"

  /** A key `/lang` accepts and the store may hold: in the table, and not one
      of the two Russian keys. */
  predicate IsTargetKey(key: string) {
    key in LanguageNames && key != "russian" && key != "ru"
  }

  /** The accepted targets are exactly the four English and Portuguese keys,
      none of which is displayed as Russian. */
  lemma TargetKeys(key: string)
    ensures IsTargetKey(key) <==> key in {"english", "en", "portuguese", "pt"}
    ensures IsTargetKey(key) ==> LanguageNames[key] in {"English", "Portuguese"}
  {
  }

  lemma DefaultIsTarget()
    ensures IsTargetKey(DefaultTarget) && LanguageNames[DefaultTarget] == "English"
  {
  }

  /** The detector's three tags are keys of the table too. */
  lemma TagNames()
    ensures "russian" in LanguageNames && LanguageNames["russian"] == "Russian"
    ensures "english" in LanguageNames && LanguageNames["english"] == "English"
    ensures "portuguese" in LanguageNames && LanguageNames["portuguese"] == "Portuguese"
  {
  }
}
