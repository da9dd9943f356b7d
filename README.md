# Telegram translation bot: language detection, direction and prompts

A Dafny model of the request logic of `tlg-bot-lang-translator.py`, a Telegram
bot that translates between Russian and English or Portuguese through a
language-model completion endpoint. The model covers:

- **Detection** (`detection.dfy`): `detect_language`, an ordered, first-match-wins
  classifier over the lower-cased text. A Russian Cyrillic letter gives
  `russian`. Otherwise a listed Portuguese accented letter, or a whole-word
  stop word (`que|não|com|para|uma|dos|das|pelo|pela`), gives `portuguese`.
  Otherwise an ASCII letter gives `english`, and anything else is `unknown`.
  Also `is_russian_text` and `is_single_word`.
- **Python string built-ins** (`text.dfy`): `str.isspace`, `str.lower` (over a
  stated alphabet), `str.strip()`, `str.split()` and substring search.
- **Language table** (`languages.dfy`): `LANGUAGES` and the rule for which keys a
  user may choose as a target.
- **Prompts** (`prompts.dfy`): the four prompt templates of `translate_text`,
  chosen by (target is Russian, single word). The endpoint is a parameter
  `complete`, and the reply is its stripped answer or the fixed error text.
- **Handlers** (`bot.dfy`): the `user_languages` dictionary as the class
  `PreferenceStore`, whose field `languages` is updated by `Start` and
  `SetLanguage` and read by `HandleMessage`. The class invariant is that every
  stored value is a table key other than `russian`/`ru`. The pure function `Plan`
  holds the decisions of `handle_message`.
  The method `PreferenceSession` walks one user through `/lang PT`, `/lang ru`,
  `/lang` and `/start`, asserting the stored preference after each step and
  that a second user is untouched; it sits beside the two example lemmas
  `RussianSentenceGoesToEnglish` and `EnglishWordGoesToRussian`.

Facts about the code that shape the model:

- `translate_text` makes one call to the endpoint, and any exception inside it
  gives one fixed error reply. There is no retry, backoff, quota or rate-limit
  handling and no cancellation.
- Only the two templates out of Russian name the target by its display name.
  The two templates into Russian name the *source* by its raw tag (`english`,
  `portuguese`).
- `/lang russian` (or `/lang ru`) replies "unsupported" and leaves the
  dictionary as it was.
- The stored value is the key as typed, lower-cased (`en` or `english`, `pt`
  or `portuguese`). The target passed to `translate_text` is that raw key.
- Translation is bidirectional. Russian goes to the user's preference.
  Anything recognised that is not Russian goes to Russian.

## Model

| member | source | states |
|---|---|---|
| Text.Strip | tlg-bot-lang-translator.py:197 | the result is empty exactly when the input is all whitespace, and otherwise starts and ends with non-whitespace |
| Text.StripCutsEnds | tlg-bot-lang-translator.py:197 | the result is a slice of the input, and everything cut off on either side is whitespace |
| Text.StripIdempotent | tlg-bot-lang-translator.py:197 | stripping twice is stripping once |
| Text.StripInside | tlg-bot-lang-translator.py:197 | the stripped message occurs verbatim in the message |
| Text.WordsKeepEveryOtherCharacter | tlg-bot-lang-translator.py:109 | the tokens of `str.split()`, glued back together, are exactly the non-whitespace characters of the text, in order |
| Text.WordsAreRuns | tlg-bot-lang-translator.py:109 | every token of `str.split()` is a maximal whitespace-free run of the text: non-empty, without whitespace, and bounded on each side by whitespace or an end of the text |
| Text.OneWordIff | tlg-bot-lang-translator.py:107-109 | `split()` yields one token if and only if the stripped text is non-empty and holds no whitespace |
| Detection.IsSingleWord | tlg-bot-lang-translator.py:107-109 | true exactly when the stripped text is non-empty and whitespace-free, so empty and all-whitespace text is not a single word |
| Detection.DetectLanguage | tlg-bot-lang-translator.py:117-136 | the result is always one of the four tags `russian`, `portuguese`, `english`, `unknown` |
| Detection.DetectionOrder | tlg-bot-lang-translator.py:121-136 | on the text as typed: `russian` iff it has a Russian letter in either case; `portuguese` iff no Russian letter and an accented letter in either case or a whole stop word; `english` iff none of those and an ASCII letter; `unknown` iff none at all |
| Detection.IsRussianText | tlg-bot-lang-translator.py:111-115 | holds exactly when `detect_language` returns `russian` |
| Detection.RussianLetterWins | tlg-bot-lang-translator.py:121-123 | one Russian letter anywhere makes the text Russian, whatever Latin or accented letters surround it |
| Detection.StopWordIsPortuguese | tlg-bot-lang-translator.py:125-129 | a stop word typed in any case, standing as a whole word in text with no Russian letter, makes the text Portuguese |
| Detection.NoLetterIsUnknown | tlg-bot-lang-translator.py:131-136 | ASCII text without letters (digits, punctuation, symbols) is `unknown` |
| Detection.EmptyIsUnknown | tlg-bot-lang-translator.py:131-136 | the empty text is `unknown` |
| Languages.TargetKeys | tlg-bot-lang-translator.py:28-35 | the accepted target keys are exactly `english`, `en`, `portuguese`, `pt`, and each is displayed as English or Portuguese |
| Languages.DefaultIsTarget | tlg-bot-lang-translator.py:43 | the default `english` is an accepted target displayed as English |
| Prompts.ChooseTemplate | tlg-bot-lang-translator.py:142-167 | the template's direction is the "target is Russian" flag and its granularity is the single-word flag, so each of the four pairs has its own template |
| Prompts.Render | tlg-bot-lang-translator.py:142-179 | every filled-in template contains the text verbatim and the language it names |
| Prompts.RenderDeterminesTemplate | tlg-bot-lang-translator.py:142-179 | two equal prompts come from the same template, whatever was filled in |
| Prompts.BuildPrompt | tlg-bot-lang-translator.py:142-179 | a prompt exists iff the target is Russian or a table key. It contains the text verbatim. A Russian-target prompt names the source by its raw tag, and any other names the target by its display name |
| Prompts.TranslateText | tlg-bot-lang-translator.py:138-192 | when the prompt is built and the endpoint answers, the reply is that answer stripped; when the endpoint raises, or the target is missing from the table (the KeyError), the reply is the fixed error text; the reply never has surrounding whitespace |
| Bot.Preferred | tlg-bot-lang-translator.py:211 | the stored key, or `english` when none is stored; with a valid store it is always an accepted target |
| Bot.Select | tlg-bot-lang-translator.py:87-105 | no argument gives "missing". The first argument lower-cased is chosen iff it is a table key other than `russian`/`ru`, and the reply names its display name, never Russian. Everything else is unsupported |
| Bot.Plan | tlg-bot-lang-translator.py:196-222 | a message is rejected iff its stripped text is `unknown`. Otherwise the request carries the stripped text, its detected language and its single-word flag |
| Bot.Direction | tlg-bot-lang-translator.py:210-219 | with a valid store, Russian targets the stored preference (or English), which is an accepted target. Anything else targets Russian. Source and target always differ, also by display name |
| Bot.PromptCarriesMessage | tlg-bot-lang-translator.py:197-228 | with a valid store every accepted message yields a prompt (the display-name lookup cannot fail), and that prompt holds the stripped message, itself verbatim inside the message |
| Bot.RussianSentenceGoesToEnglish | tlg-bot-lang-translator.py:210-219 | with no preference, "Привет, как дела?" is Russian, goes to English and is not a single word |
| Bot.EnglishWordGoesToRussian | tlg-bot-lang-translator.py:197-222 | "  Hello\n" is stripped to "Hello", detected as English, sent to Russian, and is a single word |
| Bot.PreferenceStore.constructor | tlg-bot-lang-translator.py:38 | the store starts empty and valid |
| Bot.PreferenceStore.Start | tlg-bot-lang-translator.py:40-43 | the caller's preference becomes `english`, no other entry changes, the invariant is kept |
| Bot.PreferenceStore.SetLanguage | tlg-bot-lang-translator.py:83-105 | the outcome is `Select(args)`. On a choice exactly that key is stored for that user alone. On a missing, Russian or unknown argument the dictionary is unchanged. The invariant is kept |
| Bot.PreferenceStore.HandleMessage | tlg-bot-lang-translator.py:194-231 | the reply is a rejection iff the stripped message is `unknown`; otherwise it is what `translate_text` returns for the planned request, whose prompt always exists |

## Left out

- Telegram transport: `reply_text`, `send_chat_action`, the handler registration and `run_polling` in `main`. These are I/O. The asynchronous scheduling of the handlers is not modelled; each store update is one atomic assignment.
- The OpenAI call: it is the parameter `complete`. The model name, `max_tokens` and `temperature` are not modelled. An answer whose content is missing is treated like any other exception (`Raised`). Logging of the error is left out.
- The welcome and help texts, the wording of the `/lang` replies and of the "cannot detect the language" reply. These are presentation, modelled only as the outcomes `Selection` and `Reply`.
- `load_dotenv`, environment reads and logging setup. These are configuration glue.
- How Telegram splits a command into `context.args`: the arguments are given as a sequence of strings.
- Text.LowerChar: `str.lower()` is modelled only over ASCII, the Latin-1 capitals and the Cyrillic capitals U+0400..U+042F; other characters are left unchanged. Python also lowers the Kelvin sign to `k` and `İ` to `i` plus a combining dot, so alone they would be `english` in Python and `unknown` here. For `/lang` the outcome is the same, as no table key contains `k` and `İ` lowers to two characters.
- Detection.IsWordChar: the `\w` of the stop-word boundaries is modelled over ASCII, Latin-1 and the Cyrillic block only; any other character counts as a non-word character.
- Retry, backoff, quota and rate-limit classification and cancellation: this code has none of them.
