# Chat widget: answer cleaning, question history and the send lifecycle

This project is a Dafny model of the logic in `assets/js/chat.js`, the
script behind a blog's chat widget. It covers three parts of the script:

- **Answer cleaning.** In `askChatBot` the bot's answer goes through two
  global, case-insensitive regular-expression replacements and then
  `trim()`. The first removes `<think>`…`</think>` blocks, with white space
  allowed before each `>`, matching lazily up to the first closing tag. The
  second removes self-closing `<think />` tags.
- **The question history.** `messageHistory` is a module-level array with
  `historyLength = 3`. After the bot's JSON body has been read, the question
  is pushed and, if the array is then longer than three, the oldest entry is
  shifted out. The whole array goes with every request.
- **`sendMessage`.** The form is checked and its text trimmed, and a blank
  question stops there. Otherwise the input is locked and the question is
  posted to the thread and sent to the bot. Then the cleaned answer, or
  "Sorry, I can't reply at the moment.", is posted, and the input is
  unlocked in every case.

The files:

- `wrappers.dfy`: `Option`.
- `answer_cleaning.dfy`: module `AnswerCleaning`. It covers:
  - JavaScript's white-space set, the one used by both `\s` and `trim()`:
    the predicate `IsSpace` (`assets/js/chat.js:107-109`), a table of code
    points with nothing to prove about it on its own;
  - the tag patterns, written as `<think` or `</think`, then white space,
    then `>` or `/>`, with ASCII case folding;
  - the global replacement, as a left-to-right scan that at each position
    either drops a whole match or keeps one character;
  - `Clean`, and the lemmas about what cleaning removes and what it keeps.
- `cleaning_examples.dfy`: module `CleaningExamples`. It shows what
  cleaning does to answers of typical shapes. Each shape is stated for
  every answer built from parts of that shape (tags, and text without `<`),
  not for one fixed string. That includes the shape where the second pass
  creates a new block that the first pass has already gone past.
- `history.dfy`: module `History`. It holds the bounded history: the
  function `Recorded` and the class `QuestionHistory` with its `Record`
  method, which does the push and shift in place.
- `chat.dfy`: module `Chat`. It holds the class `ChatWidget`:
  - its fields are the input's text, the `disabled` flags of the input and
    the send button, and the history;
  - it also keeps a list of the page's effects in order (lock, unlock,
    posted message, request sent);
  - `LockInput`, `UnlockInput`, `PostMessage`, `AskChatBot` and
    `SendMessage` change these fields.

  Two functions name what one exchange does, and the lemmas and
  `SendMessage`'s contract are stated with them:
  - `Reply` (`assets/js/chat.js:129-136`) is the text the bot's message
    shows: the cleaned answer, or the fallback apology;
  - `Exchange` (`assets/js/chat.js:125-139`) is the list of effects of one
    submitted question, in order.

  The network's answer is a parameter, `Outcome`, with three cases:
  - `Failed`: the request failed, the status was not ok, the body was not
    JSON, or the JSON body was `null`;
  - `Answered(answer)`;
  - `AnswerNotText`: the JSON body is not `null` and has no string `answer`.

  The form's validity is a boolean parameter.

The order of the steps in `askChatBot` decides when the history changes.
The JSON body is destructured at `assets/js/chat.js:99`; a `null` body
throws there, before anything is recorded. The question is pushed at
`assets/js/chat.js:101-104`, and only then is `.replace` called on `answer`
(`assets/js/chat.js:106`). So a reply whose `answer` is missing or not a
string still records the question, and then the fallback apology is posted.
In the model, `Failed` leaves the history as it was, while `AnswerNotText`
records the question and shows the fallback.

## Model

| member | source | states |
|---|---|---|
| AnswerCleaning.LowerAscii | assets/js/chat.js:107-108 | the `i` flag folds only ASCII letters: `A`-`Z` map to `a`-`z` (code point plus 32), and every other character is unchanged |
| AnswerCleaning.SkipSpace | assets/js/chat.js:107-108 | `\s*` stops at the first character that is not white space; everything it skips is white space (SkipSpaceIsSpace) |
| AnswerCleaning.Trim | assets/js/chat.js:109 | the trimmed text is no longer than the input and neither starts nor ends with white space |
| AnswerCleaning.TrimKeepsMiddle | assets/js/chat.js:109 | trimming removes exactly the white space around a text whose ends are not white space |
| AnswerCleaning.TrimEmptyIffBlank | assets/js/chat.js:109 | trimming yields the empty string if and only if the text is all white space |
| AnswerCleaning.TrimIdempotent | assets/js/chat.js:109 | trimming twice is trimming once |
| AnswerCleaning.WordAt | assets/js/chat.js:107-108 | a case-insensitive literal matched at a position fits inside the text |
| AnswerCleaning.MatchEnd | assets/js/chat.js:107-108 | a match of `word\s*closer` spans at least the word and the closer and ends inside the text |
| AnswerCleaning.WordAtFolds | assets/js/chat.js:107-108 | a literal matches at a position if and only if the characters there spell it up to ASCII case |
| AnswerCleaning.MatchEndShape | assets/js/chat.js:107-108 | the word in any case, then any run of white space, then the closer in any case, is a match that ends right after the closer |
| AnswerCleaning.MatchEndParts | assets/js/chat.js:107-108 | conversely, every match is the word in some case, then only white space, then the closer in some case |
| AnswerCleaning.CloseAfter | assets/js/chat.js:107 | the lazy `[\s\S]*?` ends after its start and inside the text |
| AnswerCleaning.CloseAfterFirst | assets/js/chat.js:107 | the block ends at the first closing tag at or after the end of the opening tag |
| AnswerCleaning.MatchOf | assets/js/chat.js:107-108 | a match at a position is non-empty, ends inside the text and starts with the pass's leading tag |
| AnswerCleaning.Matches | assets/js/chat.js:107-108 | there is one entry per position, and every match ends after its start |
| AnswerCleaning.MatchesAt | assets/js/chat.js:107-108 | the entry for a position is the match that starts there |
| AnswerCleaning.Scan | assets/js/chat.js:107-108 | a global replacement by the empty string never makes the text longer |
| AnswerCleaning.RemoveAll | assets/js/chat.js:107-108 | a replacement pass never makes the text longer |
| AnswerCleaning.Clean | assets/js/chat.js:106-109 | the cleaned answer is no longer than the answer and has no white space at either end |
| AnswerCleaning.MatchEndShift | assets/js/chat.js:107-108 | whether a tag matches inside a text does not depend on the text before it |
| AnswerCleaning.SuffixScan | assets/js/chat.js:107-108 | the scan from any point on is the replacement of the rest of the text alone |
| AnswerCleaning.RemoveAllSplit | assets/js/chat.js:107-108 | when the second part starts with `<` and, for the block pass, holds no closing tag, the replacement works on the two parts separately |
| AnswerCleaning.BodyEndsAtClose | assets/js/chat.js:107 | searching a body with no closing tag, followed by a closing tag, finds that tag |
| AnswerCleaning.BlockMatch | assets/js/chat.js:107 | an opening tag, a body without a closing tag and a closing tag form one match |
| AnswerCleaning.RemovesBlock | assets/js/chat.js:107 | such a block is removed whole and the replacement goes on after it |
| AnswerCleaning.KeepsTextWithoutLead | assets/js/chat.js:107-108 | text in which the pass's leading tag never matches is kept as it is, when what follows it is empty or starts with `<`; the replacement then goes on in what follows |
| AnswerCleaning.NoCloseUnchanged | assets/js/chat.js:107 | without a closing tag the block pass changes nothing, so an unclosed opening tag stays |
| AnswerCleaning.UnclosedTailKept | assets/js/chat.js:107 | a tail starting with `<` and holding no closing tag survives the block pass unchanged |
| AnswerCleaning.SelfClosingSplit | assets/js/chat.js:108 | before a `<`, the self-closing pass works on the two parts separately |
| AnswerCleaning.RemovesSelfClosing | assets/js/chat.js:108 | a self-closing tag at the front of the text is removed and the pass goes on after it |
| AnswerCleaning.NoThinkOnlyTrimmed | assets/js/chat.js:106-109 | an answer that never contains `<think` in any case is only trimmed |
| AnswerCleaning.BlankCleansToEmpty | assets/js/chat.js:106-109 | an answer made only of white space cleans to the empty string |
| AnswerCleaning.NoLtAt | assets/js/chat.js:107-108 | no tag starts at a character other than `<` |
| AnswerCleaning.NoLtNoMatch | assets/js/chat.js:107-108 | text without `<` holds no tag |
| AnswerCleaning.PlainTextKept | assets/js/chat.js:107-108 | both passes keep text without `<` unchanged |
| CleaningExamples.TagsMatch | assets/js/chat.js:107 | `<think>` and `</think>` each match their pattern whole |
| CleaningExamples.SelfClosingTagsMatch | assets/js/chat.js:108 | `<think/>` and `<THINK />` each match the self-closing pattern whole |
| CleaningExamples.OpeningTagAnyCase | assets/js/chat.js:107 | `<ThInK`, a space and a line feed, then `>` is an opening tag |
| CleaningExamples.ClosingTagAnyCase | assets/js/chat.js:107 | `</THINK`, a tab, then `>` is a closing tag |
| CleaningExamples.LongerWordNoTag | assets/js/chat.js:107 | `<thinker>` is no opening tag: only white space may come between the word and `>` |
| CleaningExamples.NoCloseAtThink | assets/js/chat.js:107 | no closing tag starts where `<think` is written |
| CleaningExamples.NoThinkAtClose | assets/js/chat.js:107-108 | neither an opening nor a self-closing tag starts where a closing tag starts |
| CleaningExamples.NoSelfCloseAtOpen | assets/js/chat.js:107-108 | a self-closing tag does not match where an opening tag does |
| CleaningExamples.CloseThenPlainKept | assets/js/chat.js:107-108 | a closing tag followed by text without `<` passes both replacements unchanged |
| CleaningExamples.LeadingThoughtDropped | assets/js/chat.js:106-109 | a thought block (its body holding no closing tag) before a reply without `<` is dropped and the reply is shown trimmed ("<think>internal</think>Hello" shows "Hello") |
| CleaningExamples.EveryBlockDropped | assets/js/chat.js:106-109 | of two thought blocks (bodies holding no closing tag) each followed by text without `<`, both are removed, not only the first, each with its own case and spacing of tags ("<think>a</THINK>b<Think >c</think>d" shows "bd") |
| CleaningExamples.NoCloseAroundSelfClosing | assets/js/chat.js:107 | text without `<` around a self-closing tag holds no closing tag |
| CleaningExamples.SelfClosingDropped | assets/js/chat.js:106-109 | a self-closing tag in any case and spacing, between two texts without `<`, is removed, those texts are kept and the answer is trimmed |
| CleaningExamples.UnclosedOpeningKept | assets/js/chat.js:106-109 | an opening tag followed only by text without `<` is kept, and the answer is only trimmed |
| CleaningExamples.NoOpeningInJoint | assets/js/chat.js:107 | in `<think<think/>>` no opening tag matches, because neither `<think` is followed by `>` |
| CleaningExamples.JointFirstPass | assets/js/chat.js:107 | the block pass leaves `<think<think/>>` + body + `</think>` + reply unchanged, where body and reply hold no `<` |
| CleaningExamples.ThinkWordKept | assets/js/chat.js:108 | `<think` alone is no self-closing tag |
| CleaningExamples.TagRemovedBetween | assets/js/chat.js:108 | the self-closing pass removes a tag standing between a front the pass keeps, text without `<`, and a `<`-led tail the pass keeps, and keeps those three |
| CleaningExamples.JointSecondPass | assets/js/chat.js:108 | the self-closing pass turns `<think<think/>>` + body + `</think>` + reply into `<think>` + body + `</think>` + reply, where body and reply hold no `<` |
| CleaningExamples.SecondPassCanJoinBlock | assets/js/chat.js:107-108 | each pass runs once, in order: for body and reply without `<`, the two passes turn `<think<think/>>` + body + `</think>` + reply into a whole thought block + reply, which a further block pass would reduce to reply |
| History.Newest | assets/js/chat.js:85-86 | the newest n entries, oldest first: exactly n of them, or all of them when there are no more than n, and they are the tail of the sequence |
| History.Recorded | assets/js/chat.js:101-104 | the question is the last entry, and a history of at most three becomes the newest three of the history plus the question |
| History.RecordDropsOnlyOldest | assets/js/chat.js:101-104 | below capacity the question is appended; at capacity exactly the oldest entry goes; the rest keep their order |
| History.RecordAll | assets/js/chat.js:101-104 | however many questions are recorded from the empty history, it never holds more than three |
| History.NewestSnoc | assets/js/chat.js:101-104 | keeping the newest n before or after adding an entry gives the same result |
| History.RecordAllNewest | assets/js/chat.js:101-104 | after any sequence of answered questions, the history is the newest three of them in order |
| History.FourthQuestionEvictsFirst | assets/js/chat.js:101-104 | after four answered questions the first is gone and the other three are kept in order |
| History.QuestionHistory.constructor | assets/js/chat.js:85 | the history starts empty |
| History.QuestionHistory.Record | assets/js/chat.js:101-104 | push then shift: the new entries are the recorded history, and there are still at most three |
| Chat.Question | assets/js/chat.js:117-123 | a question is sent if and only if the form is valid and its text is not all white space; it is the trimmed text and never empty |
| Chat.ExchangeEffects | assets/js/chat.js:125-139 | one exchange locks once and then unlocks once; it posts the question and then the reply; it sends one request carrying the history from before the question |
| Chat.ReplyShown | assets/js/chat.js:129-136 | without an answer the fallback is posted; a blank answer posts an empty message; an answer without `<think` is posted trimmed |
| Chat.ExchangeKeepsBalance | assets/js/chat.js:125-139 | locks and unlocks still alternate and end unlocked after another exchange |
| Chat.LocksAppend | assets/js/chat.js:125-139 | the lock events of two event lists joined are those of the first followed by those of the second |
| Chat.ChatWidget.constructor | assets/js/chat.js:85-86 | a loaded page has an empty, unlocked form, no events and an empty history |
| Chat.ChatWidget.LockInput | assets/js/chat.js:62-70 | both controls are disabled, the input is emptied and a lock event is added |
| Chat.ChatWidget.UnlockInput | assets/js/chat.js:72-80 | both controls are enabled, the text is left as it is and an unlock event is added |
| Chat.ChatWidget.PostMessage | assets/js/chat.js:23-39 | the message is added at the end of the thread and nothing else changes |
| Chat.ChatWidget.AskChatBot | assets/js/chat.js:88-110 | the request carries the history from before the call. On failure the history is unchanged and no answer is returned. Otherwise the question is recorded, and the answer is the cleaned text when there is one and none when cleaning throws |
| Chat.ChatWidget.SendMessage | assets/js/chat.js:115-140 | an invalid or blank form changes nothing. Otherwise the page runs one whole exchange: lock, post the question, send it with the previous history, post the cleaned answer or the fallback, unlock. The history changes only when the request did not fail, and the input ends empty and unlocked |

## Left out

- The DOM rendering: timestamps (`getTimestamp`), markdown rendering and sanitising (`marked`, `DOMPurify`), scrolling, and the greeting posted on `DOMContentLoaded`. `PostMessage` records the raw text of a message and who sent it.
- The typing indicator (`addTypingMessage`, `removeTypingMessage`). It is added and removed around the request and leaves nothing behind.
- The guards for missing page elements (`if (!chat) return`, `if (!input || !sendButton) return`). The model's page always has its elements.
- `fetch`, HTTP status codes, JSON decoding and `chatBotUrl`. The result of the request is the `Outcome` parameter. The request body is recorded as a `Request` value rather than as JSON text.
- `checkValidity`/`reportValidity`, `focus()` and `console.error`. Validity is a boolean parameter; the other two have no effect on the modelled state.
- Asynchrony: `SendMessage` runs to completion as one step. Two calls interleaving while a request is in flight are not modelled; during that time the input and the send button are disabled.
- JavaScript strings are sequences of UTF-16 code units, while the model's strings are sequences of Unicode characters. This matters only for characters outside the Basic Multilingual Plane, none of which is white space or part of a tag.
- Typing into the input field. `SendMessage` is stated for whatever text the field holds when the button is pressed.
