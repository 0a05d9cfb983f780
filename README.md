# Stillness: a verified model of the turn pipeline

Stillness is a chat app for practising empathy. The user talks to a character in
crisis, played by a language model. The character reports a distress level from
0 to 10, and the session is resolved when that level reaches 0. This project
models the pipeline behind one turn, and the state the client keeps between turns:

- **Response parser** (src/parse.js). `extractJSON` strips an optional markdown
  code fence. `parseResponse` reads a message, a distress level and a safety
  flag, with fallbacks for missing or malformed fields.
- **Safety filter** (src/safety.js, and the smaller copy in test-e2e.js). The text
  is lower-cased and tested against a fixed table of regular expressions. Every
  pattern is kept as data: word-bounded groups of literal words separated by
  `\s+`. A small matcher is proved to accept exactly the language the regular
  expression denotes (`Safety.TestIsOccurs`).
- **Gated turn handler** of the end-to-end test server (test-e2e.js:75-110).
  The filter runs on the last user turn before the model is called, and again on
  the model's message. An empty history becomes the "(session start)" turn, and
  anything thrown becomes an error answer. The handler is a function of the
  model, of the filter and of the prompt lookup.
- **Mock model** (test-e2e.js:9-45). A class with a call counter, a failure
  switch and a clamped distress state. Each empathic turn lowers its distress
  by 2, so from the session's 8 it reaches stillness after four turns and not
  before (`Mock.EmpathyConverges`). The full-resolution scenario is also run
  against the class, over a runtime that reads JSON back.
- **Chat route of server.js**. It formats the history, substitutes the sentinel
  and reads the model's text with its own `parseAriaResponse`. It is modelled
  on its own so that its departures from the rest of the code can be stated
  (see Findings).
- **Session controller** (src/App.jsx). A class with the phase, distress,
  history, loading and error fields, updated by `callAria`, `handleBegin`,
  `handleSend` and `handleRetry`. The awaited API result is a parameter.
- **Input validation** (src/Chat.jsx). `handleSubmit` and the `disabled` rule.
- **Particle set** (src/Environment.jsx). `generateParticles` and the number of
  particles a distress level shows.

The JavaScript runtime the code relies on is modelled in `Js`:

- property reads, `??`, `Math.round`, `Math.min` and `Math.max`;
- `Number(...)` and `String(...)`, which can throw. A parsed object converts
  through its `toString`, so an object holding its own "toString" key throws a
  TypeError, because a JSON value is never callable. An array converts through
  `join`, and throws exactly when one of its elements does (`Js.Throws`);
- numbers as finite reals, the two infinities and NaN.

`JSON.parse`, `JSON.stringify`, the numeral grammar and number-to-text conversion
are fields of a `Runtime` value. The proofs that need the JSON grammar (ECMA-404)
take one of two facts about the runtime as a premise:

- `Js.RejectsNonJson`: the empty text is not JSON, and neither is a text that no
  JSON value can begin;
- `Js.ReadsBack`: `JSON.parse` reads back what `JSON.stringify` wrote, for values
  whose every number is an integer of magnitude at most 2^53 (`Js.Exact`). The
  real `JSON.stringify` writes such a number as its decimal digits, and
  `JSON.parse` reads those digits back exactly, so the real runtime meets both
  facts.

Some behaviour of the code is easy to misread, and the model states it as written:

- The message is chosen by `message ?? response ?? text` (src/parse.js:15). The
  first field that is neither missing nor `null` wins, even when it is not a
  usable string; it is not "the first present string" (`ParseJs.MessagePriority`).
- src/parse.js:2 and src/safety.js:1-2 say that they are shared with server.js,
  but server.js imports neither of them and checks no user text. Only the test
  server's handler (test-e2e.js:84-104) applies the safety filter, to the last
  user turn before it calls the model and to the model's reply after.
- The client has no topic-selection or safety-exit phase. Its phases are
  landing, active and resolved. A safety exit arrives as an ordinary reply at
  distress 0 and resolves the session (`Session.SafetyExitResolves`).
- The history is not kept unmodified on a failed send. The user's turn is
  appended before the call and stays there, and a retry sends it again
  (`Session.RetryAfterFailedSend`).

## Model

| member | source | states |
|---|---|---|
| Text.TrimStart | src/Chat.jsx:22 | the result is a suffix of the input that does not begin with whitespace |
| Text.TrimEnd | src/Chat.jsx:22 | the result is a prefix of the input that does not end with whitespace |
| Text.Trim | src/Chat.jsx:22 | `trim` leaves no whitespace at either end |
| Text.TrimStartCut | src/parse.js:8 | everything `trimStart` removes is whitespace |
| Text.TrimEndCut | src/parse.js:8 | everything `trimEnd` removes is whitespace |
| Text.TrimKeepsFirst | src/parse.js:8 | a text that opens with a visible character keeps it first after trimming, and the trimmed text is a prefix of it |
| Text.TrimPadded | src/Chat.jsx:22 | whitespace added on either side is removed again: `trim(pre + s + post) == trim(s)` |
| Text.TrimIdempotent | src/Chat.jsx:22 | trimming twice is trimming once |
| Text.LowerOf | src/safety.js:36 | one or two characters: A-Z become their lower case, the Kelvin sign becomes "k", U+0130 becomes "i" followed by U+0307, and anything else is kept |
| Text.Lower | src/safety.js:36 | the result is between one and two times as long; a text without the Kelvin sign or U+0130 keeps its length and is lowered character by character |
| Text.LowerAppend | src/safety.js:36 | lower-casing distributes over concatenation |
| Text.LowerFixed | src/safety.js:36 | a text without A-Z, the Kelvin sign or U+0130 is its own lower case |
| Text.LowerIdempotent | src/safety.js:36 | lower-casing twice is lower-casing once |
| Js.MayStartPrefix | src/parse.js:14 | a text that can begin a JSON value still can when more text follows it |
| Js.Field | src/parse.js:15 | a property read is defined exactly for an object holding the key, and then yields its value |
| Js.Nullish | src/parse.js:15 | `a ?? b` is `a` unless `a` is `null` or `undefined`, and `b` otherwise |
| Js.StringToNumber | src/parse.js:16 | a blank string is 0; a string with a character no numeral contains is NaN |
| Js.AllSpaceTrimmed | src/Chat.jsx:22-24 | a text that trims to nothing is all whitespace |
| Js.TrimNotBlank | src/Chat.jsx:22-24 | a text that trims to something is not all whitespace |
| Js.TrimInner | src/parse.js:8 | every visible character of the text is kept by `trim` |
| Js.ToNumber | src/parse.js:16 | throws a TypeError exactly when the value is an object with its own "toString" or an array holding one; otherwise `Number(undefined)` is NaN, `Number(null)` is 0, a number is itself, a string is read as a numeral, and an object is NaN |
| Js.ToText | server.js:27 | throws a TypeError exactly when `Number` does; otherwise `String` keeps a string as it is, writes `undefined` as "undefined" and an object as "[object Object]" |
| Js.JsonToText | server.js:27 | converting a JSON value to text throws, always a TypeError, exactly when the value holds an object with its own "toString" that the conversion reaches |
| Js.ArrayText | server.js:27 | `join` on array elements throws exactly when one of the elements throws |
| Js.Round | src/parse.js:19 | `Math.round` gives an integer within one half of its argument, and keeps NaN and the infinities |
| Js.Min | src/parse.js:19 | `Math.min` is NaN exactly when an argument is, and otherwise the smaller argument |
| Js.Max | src/parse.js:19 | `Math.max` is NaN exactly when an argument is, and otherwise the larger argument |
| Js.Clamp | server.js:28 | round, then clamp: a number that is not NaN becomes an integer in [0,10]; +Infinity becomes 10 and -Infinity 0; NaN stays NaN |
| ParseJs.FindFence | src/parse.js:6 | the first position from `from` on where three backticks stand, or none when there is no such position |
| ParseJs.Captured | src/parse.js:6-8 | the capture between the first fence and the next holds no fence and is never longer than the text; without a match, the whole text |
| ParseJs.FenceFreeBetween | src/parse.js:6 | no fence stands between a position and the first fence from it on |
| ParseJs.ExtractJson | src/parse.js:5-9 | `extractJSON` returns a text with no whitespace at either end |
| ParseJs.ExtractUnfenced | src/parse.js:8 | without a fence, the whole text is returned trimmed |
| ParseJs.ExtractBacktickFree | src/parse.js:6-8 | a text without a backtick holds no fence and is only trimmed |
| ParseJs.ExtractLoneFence | src/parse.js:6-8 | a first fence with no fence after it gives no match, so the text is only trimmed |
| ParseJs.FirstFence | src/parse.js:6 | a fence with no backtick before it is the first fence found |
| ParseJs.ExtractFenced | src/parse.js:6-7 | a body fenced with or without the `json` tag is returned trimmed, whatever prose surrounds the fence |
| ParseJs.ExtractAt | src/parse.js:6-7 | once the opening and the next fence are known, the capture between them is returned trimmed |
| ParseJs.ExtractUntaggedJsonWord | src/parse.js:6 | an untagged body that begins with `json` loses those four letters to the optional tag |
| ParseJs.MessageOf | src/parse.js:18 | the message is never empty: a non-empty string is kept, and anything else becomes "..." |
| ParseJs.Chosen | src/parse.js:15 | `message ?? response ?? text` is one of the three fields, and the message field whenever it is neither missing nor `null` |
| ParseJs.DistressOf | src/parse.js:16-19 | distress is an integer in [0,10]: 8 when the number is not finite, and otherwise the nearest integer, clamped |
| ParseJs.ReplyOf | src/parse.js:15-21 | building a reply from a parsed value throws a TypeError exactly when `Number(parsed.distress)` throws; otherwise the message is non-empty and the distress in [0,10] |
| ParseJs.ParseResponse | src/parse.js:12-22 | a SyntaxError exactly when the extracted text is not JSON; a TypeError exactly when it is `null` or its distress cannot be converted; no other error; otherwise the message is non-empty and the distress in [0,10] |
| ParseJs.ParseFenced | src/parse.js:6-14 | parsing a fenced reply is parsing its body alone |
| ParseJs.ParseSucceeds | src/parse.js:13-21 | a text that parses to a value other than `null` gives what building the reply from that value gives, which succeeds exactly when its distress converts |
| ParseJs.ParseRejectsBlank | src/parse.js:14 | a blank text, including the empty one, makes `parseResponse` throw a SyntaxError |
| ParseJs.ParseRejectsNonJson | src/parse.js:14 | unfenced text that no JSON value can begin makes `parseResponse` throw a SyntaxError |
| ParseJs.NotJsonStart | src/parse.js:14 | a text that opens with neither JSON whitespace nor the start of a value is not JSON |
| ParseJs.ProseIsNotJson | test-unit.js:149-152 | the prose reply of the unit tests is one that `parseResponse` rejects |
| ParseJs.SafetyExact | src/parse.js:20 | the safety flag is set exactly when the field is the boolean `true` |
| ParseJs.MessagePriority | src/parse.js:15 | the first of `message`, `response`, `text` that is neither missing nor `null` decides the message |
| ParseJs.DistressFallback | src/parse.js:16-19 | a missing distress, or a string with a character that is neither whitespace nor part of a numeral, gives 8 |
| ParseJs.DistressObject | src/parse.js:16-19 | an object as distress throws a TypeError exactly when it has its own "toString", and otherwise gives 8 |
| ParseJs.DistressExamples | src/parse.js:19 | 15 gives 10, -5 gives 0, and 3.7 gives 4 |
| Safety.AnyOf | src/safety.js:8 | a group of single-word alternatives, one per word |
| Safety.Alts | src/safety.js:13 | a group whose alternatives are the given phrases |
| Safety.Maybe | src/safety.js:17 | an optional group of one word |
| Safety.LiteralAtSpec | src/safety.js:6-29 | a literal is found at a position exactly when the text there equals it, ignoring case |
| Safety.SkipSpaces | src/safety.js:8 | `\s` repeated greedily consumes exactly the run of whitespace that follows, and stops at a visible character or the end |
| Safety.MatchWords | src/safety.js:8 | matching the words of a phrase never moves backwards or past the end |
| Safety.MatchWordsJoined | src/safety.js:8 | the words of a phrase match between two positions exactly when the text there is those words joined by whitespace |
| Safety.MatchFromSound | src/safety.js:6-29 | what the group matcher accepts is a phrase the groups spell, followed by a word boundary |
| Safety.MatchFromComplete | src/safety.js:6-29 | every phrase the groups spell, followed by a word boundary, is accepted |
| Safety.MatchFromSpec | src/safety.js:6-29 | the group matcher accepts exactly the phrases the groups spell |
| Safety.SearchFromSpec | src/safety.js:37 | the search succeeds exactly when the pattern matches at some word boundary |
| Safety.Test | src/safety.js:37 | `pattern.test(s)`: a search from the start of the text (its meaning is `Safety.TestIsOccurs`) |
| Safety.AnyTest | src/safety.js:37 | `some` over the pattern table from a given index on (its meaning is `Safety.AnyTestSpec`) |
| Safety.CheckWith | src/safety.js:35-38 | `checkSafety` against a table: lower-case, then any pattern matches (`Safety.CheckWithFound`, `Safety.CheckWithLower`) |
| Safety.TestIsOccurs | src/safety.js:37 | `pattern.test(s)` holds exactly when some text between two word boundaries spells a phrase of the pattern |
| Safety.AnyTestSpec | src/safety.js:37 | `some` holds exactly when one pattern of the table matches |
| Safety.AnyTestNone | src/safety.js:37 | when no pattern of the table matches, `some` is false |
| Safety.CheckWithFound | src/safety.js:35-38 | a pattern that matches the lower-cased text makes the check fire |
| Safety.CheckWithLower | src/safety.js:36 | the check gives the same verdict on a text and on its lower case |
| Safety.CheckWithRecased | src/safety.js:36 | texts that differ only in letter case get the same verdict |
| Safety.MatchStartsWithWord | src/safety.js:6-29 | every match begins with a first word of the pattern, standing as a whole word |
| Safety.WholeWordLower | src/safety.js:36 | in a text without the Kelvin sign or U+0130, a word stands whole exactly when it stands whole in the lower case |
| Safety.NoFirstWordSafe | src/safety.js:35-38 | a text whose lower case holds no first word of the table standing whole is let through |
| Safety.NoneWholeSafe | src/safety.js:35-38 | a text whose lower case is free of a word set covering the table's first words is let through |
| Safety.WholeWordSplit | src/safety.js:8 | a whole lower-case word of `a + c + b`, where `c` is not a word character, is a whole word of `a` or of `b` |
| Safety.NoneWholeLower | src/safety.js:36 | a text without the Kelvin sign or U+0130 that is free of a word set stays free of it once lower-cased |
| Sentences.PhraseFound | src/safety.js:6-29 | a phrase of a pattern, written between other words, is found by the pattern |
| Sentences.PhraseCaught | src/safety.js:36-37 | a text that lower-cases to words holding a phrase of a pattern is caught by that pattern |
| Sentences.NoneWholeUnwords | src/safety.js:6-29 | words that are each free of a word set, joined by spaces, are free of it together |
| SafetyFilter.SafetyPatternsWellFormed | src/safety.js:6-29 | every pattern of the table has the shape the matcher is proved for |
| SafetyFilter.SafetyPatternsAt | src/safety.js:6-29 | `SAFETY_PATTERNS` holds 13 patterns in the order of the source: violence first, harm second, explicit content eighth |
| SafetyFilter.TestPatternsAt | test-e2e.js:49-56 | the test copy holds six patterns in the order of the source: violence first, harm second, explicit content fifth |
| SafetyFilter.CheckSafety | src/safety.js:35-38 | `checkSafety` is the check against `SAFETY_PATTERNS`; a hit answers with `SAFETY_EXIT_MESSAGE` (src/safety.js:31-32) |
| SafetyFilter.TestCheckSafety | test-e2e.js:61-63 | the test server's `checkSafety` is the check against its six-pattern copy |
| SafetyFilter.TestPatternsWellFormed | test-e2e.js:49-56 | every pattern of the test copy has that shape |
| SafetyFilter.SafetyFirstWordsListed | src/safety.js:6-29 | every first word of the table is in the listed set |
| SafetyFilter.SafeWithoutFirstWord | src/safety.js:35-38 | a text whose lower case holds no word shaped like a first word standing whole passes `checkSafety` |
| SafetyFilter.TestSafeWithoutFirstWord | test-e2e.js:61-63 | the same holds for the test copy |
| SafetyFilter.OrdinaryTokenFree | src/safety.js:6-29 | an ordinary word, once lower-cased, holds no word shaped like a first word |
| SafetyFilter.ContractionFree | src/safety.js:6-29 | two ordinary words joined by an apostrophe hold no such word either, once lower-cased |
| SafetyFilter.FreeMessageSafe | src/safety.js:35-38 | words that each lower-case to a text free of such words, joined by spaces, pass `checkSafety` |
| SafetyFilter.FreeMessageTestSafe | test-e2e.js:61-63 | a message of such words passes the test copy |
| SafetyExamples.Overwhelmed | test-e2e.js:206 | "I feel really overwhelmed right now" passes both checks |
| SafetyExamples.EverythingHurts | test-e2e.js:207 | "Everything hurts and I don't know what to do" passes both checks |
| SafetyExamples.Crying | test-e2e.js:208 | "I've been crying all day" passes both checks |
| SafetyExamples.Nobody | test-e2e.js:209 | "Nobody understands me" passes both checks |
| SafetyExamples.Essex | src/safety.js:19 | "sex" inside "essex" is not a whole word, so "essex" passes both checks |
| SafetyExamples.KillMyself | src/safety.js:8 | "I want to kill myself" is caught by `checkSafety`, through the violence pattern |
| SafetyExamples.WantToKillMyself | src/safety.js:14 | the same message is matched by the stated-intent pattern |
| SafetyExamples.KillMyselfTest | test-e2e.js:50 | the same message is caught by the test copy |
| SafetyExamples.HarmSomeone | src/safety.js:10 | "how to harm someone" is caught by `checkSafety` |
| SafetyExamples.HarmSomeoneTest | test-e2e.js:51 | the same message is caught by the test copy |
| SafetyExamples.NudePhotos | src/safety.js:19 | "show me nude photos" is caught by `checkSafety` |
| SafetyExamples.NudePhotosTest | test-e2e.js:54 | the same message is caught by the test copy |
| Server.FormatEntry | server.js:17-20 | only the role "user" stays a user turn, and the content is the entry's `text` |
| Server.FormatMessages | server.js:16-21 | `map` throws a TypeError exactly when some entry is `null`; otherwise length and order are kept, entry by entry |
| Server.History | server.js:34-35 | a falsy history, a missing one among them, is empty; a value that is neither falsy nor an array throws |
| Server.WithSentinel | server.js:41 | the model is never sent an empty list: a non-empty history is sent as it is, and an empty one becomes the single "(session start)" turn |
| Server.ParseAriaResponse | server.js:24-30 | a SyntaxError exactly when the text is not JSON; a TypeError exactly for `null` or when the message or the distress cannot be converted; no other error; otherwise the message is `String(parsed.message)` and the distress the clamp of `Number(parsed.distress)`, which is NaN or an integer in [0,10] |
| Server.StringMessageVerbatim | server.js:27-28 | a string message is answered as it is, the empty string included, exactly when the distress converts |
| Server.Route | server.js:32-51 | the route answers exactly when formatting, the model call and parsing all succeed, and then with the parsed reply of the model's text; otherwise it answers with the error body |
| Server.RouteMissingHistory | server.js:34-41 | a missing, `null` or empty history is answered as the empty one, with the sentinel sent |
| Server.FormatRoles | server.js:18-19 | "aria" and "character" become assistant turns, "user" stays a user turn, and every text is kept |
| TestServer.CheckValue | test-e2e.js:61-63 | the check throws for anything but a string, and otherwise gives the filter's verdict |
| TestServer.InputGate | test-e2e.js:84-85 | only a last entry that is a user turn is checked |
| TestServer.LastIsUser | test-e2e.js:84-85 | the history is not empty and its last entry is a user turn |
| TestServer.TopicOrDefault | test-e2e.js:89 | a falsy topic becomes "anxiety", and any other is kept |
| TestServer.ParseTurn | test-e2e.js:95-100 | it agrees with `parseAriaResponse` and reads the safety flag as `=== true` |
| TestServer.AfterModel | test-e2e.js:94-109 | a throw or a parse failure gives the error answer; an answer other than the exit answer is the parsed reply, and its message passes the filter |
| TestServer.Handle | test-e2e.js:75-110 | every error answer carries "They need a moment" |
| TestServer.InputBlocked | test-e2e.js:84-87 | a last user turn that trips the filter gets exactly the exit answer, whatever the model would have said |
| TestServer.OnlyLastEntryChecked | test-e2e.js:84-85 | earlier entries are never checked, and a last assistant turn is never checked |
| TestServer.EmptyHistoryOpens | test-e2e.js:78-92 | a missing, `null` or empty history sends the single sentinel turn under the prompt of the topic, or of "anxiety" |
| TestServer.OutputOverridden | test-e2e.js:102-104 | a model message that trips the filter is replaced by the exit answer, whatever distress and flag it carried |
| TestServer.PassedThrough | test-e2e.js:95-106 | when both fields convert and the message passes the filter, the answer is the converted message, the clamped distress and the flag read as `=== true` |
| TestServer.FailureIsError | test-e2e.js:107-109 | a model that throws, a text that is not JSON or is `null`, or a field that cannot be converted gives the error answer and never a safety answer |
| TestServer.ModelInputAccepted | test-e2e.js:19-25 | a history whose texts are strings reaches the model as messages the mock accepts |
| MockMessages.CopyNarrower | test-e2e.js:49-56 | the first words of the test copy are among those of src/safety.js |
| MockMessages.CopySafeWithoutFirstWord | test-e2e.js:61-63 | a text whose lower case holds no first word of the test copy standing whole passes it |
| MockMessages.StruggleReplySafe | test-e2e.js:40-41 | the mock's struggling reply passes both checks |
| MockMessages.StillReplySafe | test-e2e.js:40-42 | the mock's calm reply passes both checks |
| MockMessages.EmpathyTurnSafe | test-e2e.js:173 | the user's empathic turn passes the test copy |
| MockMessages.EmpathyHeard | test-e2e.js:32 | the empathic turn, lower-cased, contains "hear" and is not the sentinel |
| Mock.NextDistress | test-e2e.js:30-38 | distress stays in [0,10]; the sentinel sets 8; a soothing phrase lowers it by 2, down to 0; a dismissive phrase without a soothing one raises it by 1, up to 10; anything else lowers it by 1, down to 0 |
| Mock.Soothing | test-e2e.js:32 | the four soothing phrases: "hear", "feel", "here for you", "sounds hard" |
| Mock.Dismissive | test-e2e.js:34 | the three dismissive phrases: "calm down", "not that bad", "whatever" |
| Mock.SoothingFirst | test-e2e.js:32-35 | a soothing phrase wins over a dismissive one in the same message |
| Mock.DismissiveRaises | test-e2e.js:34-35 | dismissiveness alone raises distress by 1, up to 10 |
| Mock.LastUser | test-e2e.js:27 | the index of the last user turn, with no user turn after it, or none when there is no user turn |
| Mock.HeardText | test-e2e.js:27-28 | the lower-cased content of the last user turn, or "" when there is none |
| Mock.MockJson | test-e2e.js:44 | for a distress in [0,10], every number of the object the mock writes is a safe integer, so it reads back |
| Mock.ObjectExact | test-e2e.js:44 | the object `{message, distress, safety: false}` with a distress in [0,10] reads back |
| Mock.Reply | test-e2e.js:40-42 | the calm reply exactly when distress has reached 0, and the struggling reply otherwise |
| Mock.MockOutcome | test-e2e.js:15-45 | the call succeeds exactly when it is not failing, the prompt is set and every message is a string; a failure keeps the distress; a success moves it by what the user last said |
| Mock.MockLlm.constructor | test-e2e.js:9-11 | no calls yet, not failing, distress 8 |
| Mock.MockLlm.ResetDistress | test-e2e.js:13 | distress back to 8, nothing else changed |
| Mock.MockLlm.Call | test-e2e.js:15-45 | each call is counted, thrown or not, and the result and new distress are those of `MockOutcome` |
| Mock.Serve | test-e2e.js:75-110 | it answers as the handler does; the mock is called, counted and moved exactly when the input gate lets the turn through |
| Mock.BlockedNotCounted | test-e2e.js:84-87 | a blocked turn never reaches the mock, so `callCount` is unchanged |
| Mock.ClampKeeps | test-e2e.js:98 | an integer distress in [0,10] survives the clamp |
| Mock.MockReplyParses | test-e2e.js:95-100 | the mock's text reads back as its reply, its distress and a false flag |
| Mock.MockReplyPasses | test-e2e.js:102-106 | a reply the filter lets through is answered unchanged |
| Mock.RepliesPass | test-e2e.js:40-42 | neither reply of the mock trips the test copy |
| Mock.SessionStartOutcome | test-e2e.js:30-31 | given the lone sentinel turn, the mock goes to distress 8 |
| Mock.SessionStartAnswer | test-e2e.js:154-161 | an empty history is answered with the struggling reply, distress 8 and no safety flag, whatever the mock held |
| Mock.SessionStartConsulted | test-e2e.js:78-92 | the empty history reaches the mock |
| Mock.EntryKeepsTexts | test-e2e.js:178 | appending a `{role, text}` entry keeps every text a string |
| Mock.UserTurnFormatted | test-e2e.js:78-81 | a history ending in a user turn reaches the model with that turn last |
| Mock.UserTurnOutcome | test-e2e.js:27-38 | the mock moves its distress by the lower-cased last user turn |
| Mock.UserTurnAnswered | test-e2e.js:173-178 | a turn both gates let through reaches the mock, and the mock's reply comes back unchanged |
| Mock.HandleThrough | test-e2e.js:84-106 | a history the input gate lets through gets the model's text after the output gate |
| Mock.SendTurn | test-e2e.js:173-180 | one client turn counts one call, moves distress by the turn, answers with the mock's reply, and grows the history by the turn and the reply |
| Mock.EmpathySoothes | test-e2e.js:30-33 | the empathic turn of test-e2e.js:173, lower-cased, lowers distress by 2, down to 0 |
| Mock.Repeated | test-e2e.js:172-181 | the same text heard over and over keeps distress in [0,10] |
| Mock.SoothedClosedForm | test-e2e.js:30-33 | a soothing text heard n times takes distress d to max(d - 2n, 0) |
| Mock.EmpathyConverges | test-e2e.js:165-184 | from the session's 8, the empathic turn leaves distress positive for turns 0 to 3, at 8, 6, 4 and 2, and at 0 from turn 4 on |
| Mock.OpenSession | test-e2e.js:154-162 | opening a session answers at distress 8, with no safety flag, and leaves the mock at 8 |
| Mock.FullResolution | test-e2e.js:165-184 | the empathic loop reaches distress 0 after exactly 4 turns and 5 calls, well within the 20 allowed |
| Mock.Positive | test-e2e.js:172 | `distress > 0` on a number: true of +Infinity and of a positive finite value, false of NaN |
| Session.AriaEntry | src/App.jsx:25 | the entry has the role "aria" and the reply's message as its text |
| Session.UserEntry | src/App.jsx:54 | the entry has the role "user" and the typed text |
| Session.IsZero | src/App.jsx:31 | `newDistress === 0`: the number zero and nothing else |
| Session.Called | src/App.jsx:20-39 | loading ends off; error exactly on failure; a failure keeps history, distress and phase; a reply appends one aria entry and sets distress; the phase becomes resolved exactly when the distress is 0, and otherwise stays |
| Session.Controller.constructor | src/App.jsx:13-17 | landing, distress 8, empty history, not loading, no error |
| Session.Controller.CallAria | src/App.jsx:20-39 | the new state is `Called` of the old one |
| Session.Controller.HandleBegin | src/App.jsx:42-49 | an active session at distress 8 with an empty history, which is sent |
| Session.Controller.HandleSend | src/App.jsx:52-60 | the user's turn is appended and the whole history is sent |
| Session.Controller.HandleRetry | src/App.jsx:63-65 | the history is sent again as it stands |
| Session.Begun | src/App.jsx:42-49 | the session leaves the landing phase; a failed call leaves it active at distress 8 with an empty history and the error flag; a reply makes the history that one aria entry, and resolves the session exactly at distress 0 |
| Session.Sent | src/App.jsx:52-57 | the old history and the user's turn stay at the front whatever happens; the error flag is raised exactly when the call fails; the history grows by one turn, or by two when the call succeeds; the session resolves only at distress 0 |
| Session.Retried | src/App.jsx:63-65 | the history stays at the front; a failure changes only the flags; a success adds one entry |
| Session.BeginForgets | src/App.jsx:42-49 | the state after Begin does not depend on the session before it |
| Session.SendAppends | src/App.jsx:52-57 | a send adds the user's turn, and the reply when the call succeeds, and changes nothing earlier |
| Session.RetryAfterFailedSend | src/App.jsx:52-65 | a retry after a failed send resends the history that holds the user's turn, so nothing is lost |
| Session.FailedRetryKeeps | src/App.jsx:34-38 | a failed retry changes only the error and loading flags |
| Session.ResolvedIsFinal | src/App.jsx:31-33 | no call's outcome leaves the resolved phase |
| Session.Delivered | src/App.jsx:24 | a 500 makes `sendMessage` throw, and an answer delivers its message |
| Session.SafetyExitResolves | src/App.jsx:24-33 | the exit answer of a blocked turn resolves the session, and its message ends the history |
| Session.UnreadDistressContinues | src/App.jsx:28-33 | a NaN distress arrives as `null`, which is not 0, so the session goes on |
| Chat.Utf16Length | src/Chat.jsx:28 | `length` counts UTF-16 code units: at least one and at most two per character |
| Chat.PlainLength | src/Chat.jsx:28 | without characters beyond U+FFFF, `length` is the number of characters |
| Chat.AstralLength | src/Chat.jsx:28 | each character beyond U+FFFF, such as an emoji, counts two |
| Chat.Validate | src/Chat.jsx:20-31 | a blank input gets the empty-input warning, checked first; a trimmed input longer than 1000 UTF-16 code units gets the length warning; otherwise the trimmed text, 1 to 1000 code units long, is accepted |
| Chat.AstralHalvesTheLimit | src/Chat.jsx:28-31 | a trimmed text of emoji alone is accepted only up to 500 of them |
| Chat.PlainKeepsTheLimit | src/Chat.jsx:28-31 | a trimmed text without characters beyond U+FFFF is accepted up to 1000 characters |
| Chat.AcceptedIsStable | src/Chat.jsx:22-35 | an accepted text is accepted again as it is |
| Chat.PaddingIgnored | src/Chat.jsx:22 | whitespace typed around a message changes nothing |
| Chat.BlankRefused | src/Chat.jsx:24-26 | an all-whitespace input is refused, however long it is |
| Chat.Disabled | src/Chat.jsx:38 | the input is disabled while a call is in flight and once the session is resolved |
| Chat.SettledDisabledIffResolved | src/Chat.jsx:38 | after a call settles, the input is disabled exactly when the session is resolved |
| Chat.Composer.constructor | src/Chat.jsx:10-11 | empty input, no warning |
| Chat.Composer.HandleSubmit | src/Chat.jsx:20-36 | an input that `Validate` accepts (at most 1000 UTF-16 code units once trimmed) is sent once, trimmed, and the box and warning are cleared; a refused one stays in the box under its warning and nothing is sent |
| Environment.ParticleAt | src/Environment.jsx:35-41 | id is the index; left is in [0,99]; the delay numerator is in [0,19] tenths; size is in [2,7]; driftX is in [-30,29] |
| Environment.GenerateParticles | src/Environment.jsx:32-44 | exactly `count` particles, or none for a count that is not positive; particle i is the one built at index i |
| Environment.Triple | src/Environment.jsx:63 | `n * 3` triples a finite number and keeps NaN and the infinities |
| Environment.VisibleCount | src/Environment.jsx:63 | NaN and the infinities pass through unchanged; a finite distress gives an integer |
| Environment.Truncate | src/Environment.jsx:67 | the integer part of the slice end, rounded toward zero |
| Environment.SliceLength | src/Environment.jsx:67 | `slice(0, end)` never takes more than the array holds; NaN and -Infinity take none, and +Infinity takes all |
| Environment.Shown | src/Environment.jsx:63-67 | never more than the 30 particles generated |
| Environment.ShownForIntegerDistress | src/Environment.jsx:46-67 | an integer distress in [0,10] shows exactly 3 times that many particles, at most 30 |
| Environment.ShownMonotone | src/Environment.jsx:63-67 | more distress never shows fewer particles |
| Environment.ShownAtEnds | src/Environment.jsx:63-67 | distress 0 shows none, 8 shows 24, and 10 shows all 30 |
| Environment.ClampedDistressShown | src/Environment.jsx:63 | a clamped distress shows three particles per point, and a `null` one shows none |
| Findings.CorrectedRoute | server.js:32-51 | the route with both gates and `parseResponse`: the message is non-empty, the distress is in [0,10], and an answer other than the exit answer passes the filter |
| Findings.CorrectedBlocks | server.js:32-46 | with the gate, a user turn the filter catches gets the exit answer, and the model is not consulted |
| Findings.CorrectedReadsFence | server.js:44-45 | with `parseResponse`, a fenced reply is read as its body |
| Findings.BacktickNotJson | server.js:25 | a text that opens with a backtick is not JSON |
| Findings.FencedReplyRejected | server.js:24-25 | as written, a fenced reply makes the route answer with the error body |
| Findings.MissingMessageUndefined | server.js:27 | as written, an object without `message` answers "undefined" whenever its distress converts, where `parseResponse` takes `response` |
| Findings.MissingDistressNaN | server.js:28 | as written, a missing distress answers NaN whenever the message converts, where `parseResponse` gives 8 |
| Findings.UnsafeInputForwarded | server.js:32-46 | as written, "I want to kill myself" goes to the model and its reply is returned; the corrected route answers with the exit message |

## Left out

- HTTP and network plumbing: Express, `app.listen`, the Anthropic client, src/api.js, and the `post` helper and runner of the tests. The model call is a parameter (`Server.Llm`). It returns the text of the first content block (server.js:44), or what it threw.
- The system prompt: src/prompt.js exports only `SYSTEM_PROMPT`, while test-e2e.js:5 imports `getSystemPrompt` and `TOPICS`, which it does not export. The prompt lookup is a parameter `prompt`, and the topics route (test-e2e.js:71-73) is left out.
- Concurrency and async ordering: each `callAria` is taken as atomic with a given outcome. Stale responses after Begin, React's batching of setters, and the concurrent-requests test (test-e2e.js:227-237) are left out.
- JSON and numerals: `JSON.parse`, `JSON.stringify`, the StringNumericLiteral grammar and number-to-text are fields of `Js.Runtime`. Only the facts in `Js.RejectsNonJson` and `Js.ReadsBack` are assumed of them, and only by the proofs that take them as premises.
- Js.Num: finite numbers are exact reals, so double-precision rounding is not modelled.
- Text.Lower: besides A-Z, only the Kelvin sign and U+0130 are lowered, because they are the only characters whose lower case holds ASCII. Every other non-ASCII character is kept as it is, whereas `toLowerCase` lowers other letters too. Every pattern word is ASCII, and `\w` and `\b` are ASCII, so no verdict depends on that difference.
- ParseJs.ExtractJson: the regular expression at src/parse.js:6 is modelled by its effect: the first fence, the optional `json` tag, and the capture up to the next fence. That reading is argued in the member's comment, not derived from a semantics of regular expressions.
- Mock.MockOutcome: the role check at test-e2e.js:23 always passes, because a formatted message is a user or an assistant turn. The `typeof systemPrompt` check is the non-empty check, because the prompt is a string.
- Chat.Utf16Length: a JavaScript string may hold a lone surrogate, which is not a Dafny character; the model's texts hold whole code points only.
- Chat: the `maxLength` attribute of the input box (src/Chat.jsx:109) caps typing at 1001 UTF-16 code units. The model lets any input reach `handleSubmit`, and the length warning still applies.
- Environment: colours, orb size, speeds and opacities (`lerp`, `lerpColor`) are floating-point presentation. The particle `delay` is kept as an exact tenth.
- JSX, styles and scrolling in src/App.jsx and src/Chat.jsx.
- Statelessness of the filter (no `g` flag): it holds by construction, because `CheckSafety` is a function of the text.

## Findings

| source | as written | input that shows it | evidently intended | confidence | as-written member | corrected member |
|---|---|---|---|---|---|---|
| server.js:24-25 | the model's text goes to `JSON.parse` as it is | a reply wrapped as a `json` code fence | strip the fence with `parseResponse` of src/parse.js, which src/parse.js:2 says server.js shares | high; not executed | Findings.FencedReplyRejected | Findings.CorrectedReadsFence |
| server.js:27 | `String(parsed.message)` | `{"response":"I'm scared","distress":7}` gives the message "undefined" | fall back through `response` and `text`, then to "...", as src/parse.js:15-18 does | high; not executed | Findings.MissingMessageUndefined | Findings.CorrectedRoute |
| server.js:28 | `Number(parsed.distress)` clamped with no fallback | `{"message":"hi"}` gives distress NaN, sent to the client as `null` | fall back to 8, as src/parse.js:19 does | high; not executed | Findings.MissingDistressNaN | Findings.CorrectedRoute |
| server.js:32-46 | no safety filter on either side | the history `[{role:"user", text:"I want to kill myself"}]` is sent to the model | gate the last user turn and the reply, as src/safety.js:1-2 and the test server (test-e2e.js:84-104) do | high; not executed | Findings.UnsafeInputForwarded | Findings.CorrectedBlocks |
