# Dialogue-history core of a Telegram ChatGPT bot, in Dafny

This project models the core of a Telegram bot that relays chat messages to a
ChatGPT-style completion service, and proves properties of that model.

The centre is one dialogue turn (`gpt_basic.chat`). It is a read-modify-write
of the chat's stored message list:

1. The stored history is trimmed by entry count.
2. It is trimmed again by an approximate size (the length of Python's
   `str()` of the list), two entries at a time.
3. The request is the situational preamble, then the chat's style prompt,
   then the trimmed history, then the user's query.
4. The remote model is called.
5. On a context-length error the working list is condensed into one
   summary entry plus the query, and the call is retried exactly once.
6. The history is committed with the query and the reply. Each is stored
   compressed when it is longer than the per-entry memory limit.

Around it sit the helpers the turn relies on:

- the compression fallback (`ai_compress`, `zip_text`);
- the size measure (`count_tokens`);
- the reply-shaping helpers of `utils.py`: long-cell splitting, the
  table-line scan and the `<b>`/`<code>` balancing of split HTML replies;
- the translation memo caches (`my_trans.translate`, `tb.tr`);
- the pure decision logic of the command handlers in `tb.py`: `get_seconds`,
  `/temperature`, the gating in `do_task`, the `(url, token, lang)` record
  updates of `/key`, `/url` and `/language`, and the argument parsing of `/trans`.

Everything is a pure function over immutable values:

- message lists are `seq<Turn>`;
- the per-chat stores `CHATS`, `PROMPTS`, `TEMPERATURE` and the user database
  `DB` are `map`s;
- the keys of `CHAT_LOCKS` are a `set`.

The remote model (`Model`), the summariser (`Summariser`), the translation
back ends (`Translators`) and Python's `float()` (`parse`) are oracle
parameters, so every property holds for every behaviour of those services.

Files:

| file | module | models |
|---|---|---|
| strings.dfy | `Optional`, `Strings` | `None`/value, and the Python string primitives used: `isspace`, `strip`, `lower`, `startswith`, `split`, `join`, `count`, decimal digits |
| messages.dfy | `Messages` | entries, Python's `repr` of a list of entries, `count_tokens` |
| compress.dfy | `Compress` | `zip_text`, `ai_compress` |
| dialog.dfy | `Dialog` | `chat`, `chat_reset` |
| formatting.dfy | `Formatting` | `split_long_string`, the table scan of `replace_tables`, `split_html` |
| translation.dfy | `Translation` | `translate_text`, `translate_text2`, `translate` |
| commands.dfy | `Commands` | `tr`, `get_seconds`, `/temperature`, `do_task` gating, `/key`, `/url`, `/language`, `/trans` |

## Model

| member | source | states |
|---|---|---|
| Messages.CountTokens | utils.py:195-208 | The measure is 0 exactly for the empty list, and otherwise equals the summed weight of the entries' renderings. |
| Messages.CountTokensAdditive | utils.py:206-208 | The measure of a concatenation of two lists is the sum of their measures. |
| Messages.CountTokensOfSuffix | utils.py:206-208 | Dropping the oldest entries never makes a list measure more. |
| Strings.StripEmptyIffBlank | gpt_basic.py:284 | `content.strip() == ''` holds exactly when every character is whitespace. |
| Strings.WordsOfJoin | tb.py:570-572 | `split()` of words joined by single spaces gives back those words, when each is non-empty and holds no whitespace. |
| Compress.DropLetters | gpt_basic.py:120-124 | The result holds none of о, О, o, O, is a subsequence of the input, keeps every other character exactly as often as the input has it, and is the input itself when it holds none of them. |
| Compress.CollapseRuns | gpt_basic.py:126-129 | The result has no two equal neighbours, keeps the last character, is a subsequence of the input, and is exactly as much shorter as the input has characters equal to their left neighbour, so only repeats are removed; it is the input itself when it has no repeats. |
| Compress.CollapseRunsKeepsCharacters | gpt_basic.py:126-129 | Collapsing runs keeps every character that occurs, and adds none. |
| Compress.Zip | gpt_basic.py:115-131 | The zipped text holds none of the dropped letters and no two equal neighbours, is a subsequence of the input and is no longer; every other character of the input still occurs in it; it is a subsequence of the input with the dropped letters removed, shorter than that text by exactly its repeated neighbours. |
| Compress.ZipIdempotent | gpt_basic.py:115-131 | Zipping a zipped text changes nothing. |
| Compress.ZipOrCut | gpt_basic.py:105-110 | The local fallback is the zipped text when that fits the budget, and otherwise the first `budget` characters of the text; either way it fits and is a subsequence of the text. |
| Compress.AiCompress | gpt_basic.py:83-112 | A short text without `force` is returned unchanged; without `force` the result is never longer; an accepted summary is returned as is; a rejected or failed summary of a too-long text yields the local fallback: the zipped text if it fits `max_prompt`, else the text's first `max_prompt` characters; a forced call on a short text whose summary fails returns the text unchanged. |
| Dialog.CountTrim | gpt_basic.py:235-236 | Above the limit the OLDEST `max_hist_lines` entries are dropped and the rest is kept, so the result is a suffix; at or below the limit nothing changes. |
| Dialog.CountTrimCanExceedLimit | gpt_basic.py:234-236 | The count trim does not bound the length: a history more than twice the limit keeps more entries than the limit. |
| Dialog.SizeTrim | gpt_basic.py:240-241 | The result fits the size budget, is the history minus an even number of oldest entries (or empty), and no shorter even-length removal would have fitted. |
| Dialog.TrimFrom | gpt_basic.py:240-241 | The trimming loop, for any size measure, from any round on: it ends with a fitting suffix at a pair boundary, or the empty list. |
| Dialog.SizeTrimFits | gpt_basic.py:240-241 | A history that already fits is kept whole. |
| Dialog.SizeTrimKeepsPairs | gpt_basic.py:237-241 | If the history alternates user and assistant entries, the trimmed history still starts with a user entry. |
| Dialog.Condense | gpt_basic.py:296-303 | The condensed list fits `max_hist_compressed`; it is empty or is one system entry holding the dialogue summary followed by the last working entry; it is exactly that pair when the pair fits. |
| Dialog.Remembered | gpt_basic.py:327-343 | A stored entry text is never longer than the original and is the original up to `max_hist_mem`; above it, a shorter summary is stored as it is, and otherwise the local fallback (zipped text or its prefix) that fits `max_hist_mem`. |
| Dialog.Committed | gpt_basic.py:324-344 | After an answer the stored history is the working list without its last entry, then the remembered query and the remembered reply. |
| Dialog.Unanswered | gpt_basic.py:283-286 | After an empty reply the working list is stored, without its last entry exactly when that entry is blank. |
| Dialog.Respond | gpt_basic.py:273-346 | For each way the first call can end: what is stored (or that nothing is) and what is replied, including the single retry after a context-length error. |
| Dialog.Working | gpt_basic.py:228-244 | The working list ends with the user query, and everything before it is the trimmed stored history. |
| Dialog.Chat | gpt_basic.py:221-276 | After a turn the chat has a lock and no other lock appears, temperatures are unchanged, the default style prompt is stored only when the chat has none, and only this chat's history can change. |
| Dialog.Finish | gpt_basic.py:263-270 | The end of a turn stores the outcome's history for the chat, or leaves every history alone, and creates the default style prompt only when absent. |
| Dialog.ChatAnswered | gpt_basic.py:274-346 | A non-empty answer is the reply, and the history becomes the trimmed history, the remembered query and the remembered answer. |
| Dialog.ChatUnanswered | gpt_basic.py:278-287 | An empty answer gets the fixed reply, and the query is committed after the trimmed history unless it is blank. |
| Dialog.ChatRefused | gpt_basic.py:288-322 | An `AttributeError` or another invalid-request error leaves all histories alone and gets its fixed reply. |
| Dialog.ChatRetries | gpt_basic.py:292-319 | After a context-length error the condensed request is sent once; a non-empty answer stores the summary entry (if kept), the query and the answer; anything else leaves the history alone with the fixed reply. |
| Dialog.PersistentOverflowFails | gpt_basic.py:305-319 | A model that always overflows gets exactly one recovery attempt; the turn fails with the fixed reply and commits nothing. |
| Dialog.OverflowCollapsesHistory | gpt_basic.py:299-344 | After a context-length error the stored history is either untouched or collapsed to two or three entries. |
| Dialog.FirstRequestSize | gpt_basic.py:240-276 | The first request measures at most the fixed head, plus `max_hist_bytes`, plus the query entry. |
| Dialog.GreetingTurn | gpt_basic.py:273-346 | In a new chat, "hello" answered by "hi there" is replied and stored as the user/assistant pair. |
| Dialog.RecoveredTurn | gpt_basic.py:293-344 | When the first call overflows, the condensed list keeps its summary entry, and the retry answers: the reply is the retry's answer, and the stored history is the summary system entry, then the remembered query, then the remembered answer. |
| Dialog.ChatReset | gpt_basic.py:349-360 | Resetting empties an existing history, leaves an unknown chat unknown, and changes no other chat. |
| Dialog.ChatResetIdempotent | gpt_basic.py:349-360 | Resetting twice is resetting once. |
| Formatting.Chunks | utils.py:216-222 | The pieces glue back to the text; all but the last have exactly the limit's length; the last is non-empty and at most the limit. |
| Formatting.SplitLongString | utils.py:211-225 | A short string is unchanged; in header mode a long string becomes its head plus `..`, exactly `MAX_LENGTH` long; otherwise the result is longer than the input. |
| Formatting.SplitLongStringRoundTrip | utils.py:216-225 | Splitting the non-header result at newlines gives full-length pieces and one non-empty last piece, and gluing them restores the input. |
| Formatting.TableBlocksAreRuns | utils.py:228-242 | The scan finds exactly the maximal runs of consecutive table lines, in order, each joined by newlines; the added final newline flushes a table that ends the text. |
| Formatting.FixKind | utils.py:82-94 | For one tag kind: an opener is prepended or a closer appended, never both; a piece at most one tag off is balanced; a piece without tags is wrapped exactly when the kind is carried open; the carry is set by more opens, cleared by more closes, kept otherwise; a closer is appended exactly when openers are in surplus and an opener prepended exactly when closers are, whatever the surplus. |
| Formatting.Balance | utils.py:77-106 | The `<b>` and `<code>` flags passed to the next piece follow the piece's tag counts and the incoming flags; when both kinds have surplus openers `</b>` is appended before `</code>`, and when both have surplus closers `<code>` ends up before `<b>`, because the `<b>` fix comes first. |
| Formatting.BalanceMatchesEdits | utils.py:82-106 | The framing is the loop body's own sequence of edits (`<b>` fix, `<code>` fix, `<code>` wrap, `<b>` wrap, each prepending or appending to the text so far): same text and same flags for the next piece. |
| Formatting.BalanceWrapsCarried | utils.py:96-106 | A piece without tags of a kind gets that kind's opener exactly when the kind is carried open; a balanced piece with both kinds is sent untouched. |
| Formatting.BalanceEvensOut | utils.py:82-94 | For either kind, the added tags open one more than they close when closers are in surplus, close one more when openers are, and are even otherwise; so a piece at most one tag off is balanced. |
| Formatting.WrapsTagFreePiece | utils.py:96-106 | A tag-free piece sent while both kinds are open becomes `<b><code>` piece `</code></b>`; with nothing open it is sent unchanged and nothing becomes open. |
| Formatting.BalanceAll | utils.py:73-108 | The balancing loop yields one output piece per input piece. |
| Formatting.BalanceAllPiece | utils.py:73-106 | Output piece `k` is input piece `k` framed for its own tag counts and the flags left by the pieces before it. |
| Formatting.BalanceAllPieces | utils.py:73-106 | The same, for every piece at once. |
| Formatting.SplitHtml | utils.py:53-54 | A text shorter than 300 characters is returned as the single piece it is; otherwise there is one output piece per split piece. |
| Formatting.PlainPiecesUnchanged | utils.py:73-108 | Pieces without tags pass through the balancing loop unchanged. |
| Formatting.OpenBoldWrapsFollowingPieces | utils.py:102-106 | Once `<b>` is left open, every following tag-free piece is wrapped in `<b>`...`</b>`. |
| Formatting.OpenCodeWrapsFollowingPieces | utils.py:96-100 | Once `<code>` is left open, every following tag-free piece is wrapped in `<code>`...`</code>`. |
| Translation.TranslateText | my_trans.py:15-30 | The library's translation when it reports success, otherwise the input text. |
| Translation.TranslateText2 | my_trans.py:33-51 | On Windows the library path; otherwise the input text when the tool reported an error, and its stripped output when not. |
| Translation.TranslationFallsBack | my_trans.py:44-51 | A translation is always the input text or something a back end produced. |
| Translation.Translate | my_trans.py:54-74 | A cached pair is answered from the cache with no change; a miss stores the fresh translation; afterwards the pair is cached with the returned value; no other entry is added or overwritten. |
| Translation.TranslateRepeats | my_trans.py:65-74 | Asking again returns the first answer, whatever the back ends say now, and leaves the cache as it was. |
| Translation.TranslateAll | my_trans.py:65-73 | Over a sequence of calls, no cached entry is ever changed, and every requested pair ends up cached. |
| Commands.DefaultLang | tb.py:184 | The fallback language is never empty and is the client's code whenever that is present. |
| Commands.Argument | tb.py:383-396 | There is an argument exactly when the command text holds a space. |
| Commands.ArgumentIsSecondPiece | tb.py:202 | For a text of space-separated pieces, the argument is the second piece, stripped, however many pieces follow. |
| Commands.Tr | tb.py:139-147 | A remembered pair is answered from the memo unchanged; a miss remembers the fresh translation, or the text itself when the translation is empty; the returned value is always the remembered one. |
| Commands.TrKeepsNoBlankEntries | tb.py:142-147 | If no non-empty text is remembered as empty, that stays true, and a non-empty text is never answered with the empty string. |
| Commands.FirstMatch | tb.py:230 | The leftmost position where `after\s+\d+` matches, or none when there is none. |
| Commands.GetSeconds | tb.py:229-234 | 0 when nothing matches; otherwise the number captured by the leftmost match. |
| Commands.GetSecondsReadsRendered | tb.py:229-234 | A message ending in "after N", with no `a` before it, yields N for every N. |
| Commands.RenderedMatches | tb.py:230-232 | The appended "after N" is a match that captures N. |
| Commands.SetTemperature | tb.py:570-599 | A value is accepted exactly when the text has two words and the second parses to a number between 0 and 2; then it is stored for the chat, otherwise nothing changes. |
| Commands.TemperatureCommand | tb.py:570-599 | `/temperature <value>` with a one-word value stores exactly the parsed value for the chat when it lies between 0 and 2, and otherwise leaves every chat's temperature unchanged. |
| Commands.AcceptedTemperatureIsUsed | tb.py:599 | An accepted value is the temperature the chat's next dialogue turn uses. |
| Commands.GateMessage | tb.py:826-853 | A key is asked for exactly when the conversation (the user in private, the chat in groups) has no record or an empty token; otherwise a group message not replying to the bot and not starting with the call word is ignored; otherwise a text over 4000 characters is refused; otherwise the dialogue runs with the text, keyed by the conversation, in the sender's language. The key request uses the private-chat wording exactly when the chat is private. |
| Commands.GroupGateIgnoresSender | tb.py:830-833 | In a group, whether a message is answered or needs a key does not depend on who sent it. |
| Commands.Key | tb.py:377-400 | No argument shows help and changes nothing; `copy` in any case copies the sender's record to the chat, failing when the sender has none; any other argument becomes the sender's token, keeping the address and setting the answer language. |
| Commands.KeyThenUrl | tb.py:390-412 | `/key` then `/url` leaves the sender with both the token and the address, in the language the sender had. |
| Commands.KeyUnlocksPrivateChat | tb.py:833-853 | After `/key` with a non-empty token, a private message from the sender reaches the dialogue exactly when it is not too long. |
| Commands.KeyCopyServesGroup | tb.py:384-385 | After `/key copy` by a sender with a token, messages in that group no longer ask for a key. |
| Commands.Url | tb.py:405-417 | No argument shows help and changes nothing; an argument becomes the sender's address, keeping the token (empty for a new record). |
| Commands.Language | tb.py:181-209 | The sender always has a record afterwards and no other record changes; a new record has no address, no token and the client's language; without an argument a known sender's record is left as it is; an argument, lower-cased, replaces only the language. |
| Commands.LanguageTwice | tb.py:201-209 | Changing the language twice keeps the address and the token, and only the last language counts. |
| Commands.FindCode | tb.py:720-725 | The first listed code that starts the text and is followed by whitespace, or none. |
| Commands.ParseTrans | tb.py:720-731 | Help is shown exactly when the text does not start with `/trans` and whitespace; a listed code leading the rest names the language (the first such code in list order), and the text is what follows the code with all its leading whitespace stripped; without one the language is the user's, stripped, and the text is all of the rest; the text is always a suffix of the message that does not start with whitespace. |
| Commands.ParseTransRoundTrip | tb.py:720-731 | For any list of codes without whitespace, `/trans <code> <text>` parses back to that code and that text. |
| Commands.ParseTransWithoutCode | tb.py:720-731 | `/trans <text>` whose text starts with no listed code followed by whitespace translates all of the text into the user's language, stripped. |
| Commands.SupportedLangsHaveNoSpace | tb.py:46-54 | None of the 107 supported codes is empty or holds whitespace. |
| Commands.TransRoundTrip | tb.py:720-731 | For every code of the supported list, `/trans <code> <text>` parses back to that code and that text. |

## Behaviour worth noting

The model follows the code in these places:

- The count trim keeps `messages[max_hist_lines:]`. It drops the OLDEST
  `max_hist_lines` entries, not all but the newest ones, so the result can be
  longer than the limit (`Dialog.CountTrimCanExceedLimit`).
- An empty reply still commits the user query to the history, unless the
  query is blank (`Dialog.ChatUnanswered`).
- On a context-length error the summary is made from the trimmed working list,
  query included. It is not made from the full stored history (`Dialog.Condense`).
- Failures end the turn with fixed texts: "no answer", and for an
  `AttributeError` a refusal. They do not propagate.

## Left out

- Telegram I/O, logging, threads and `ShowAction`: every `bot.*` call, every
  reply text, and every handler and command outside the ones above.
- Concurrency. `CHAT_LOCKS` is modelled only as the set of chats that have a
  lock. Check-then-create and mutual exclusion cannot be expressed in a
  sequential model.
- Persistence. The `PersistentDict` stores are plain maps.
- The body of `ai()`: the OpenAI call and the recovery of a streamed JSON
  reply. As written, `ai()` catches every exception and returns its text as the
  reply. The turn is modelled against an abstract call outcome instead
  (`Ok`, context-length `Overflow`, another invalid request, `AttributeError`),
  so the error branches of `chat` are reachable in the model.
- Exceptions `chat` does not catch are not modelled. One example is a
  `KeyError` for a chat without a `TOKENS` record, raised in `ai()` before its `try`.
- The wording of prompts: the summariser's instructions, the situational
  preamble (date, place, user name, locale) and the translated default style
  prompt. The turn takes them as given strings (`Phrases`). The summariser
  receives only the origin, the budget and the text.
- Dialog.Limits: the `cfg` limits are natural numbers. With a negative
  `max_hist_bytes` the source's trimming loop never ends, and negative slice
  bounds are never used.
- Messages.CountTokens: Python's `repr` is modelled for quotes, backslash,
  `\t\n\r` and the `\xhh` escapes of C0, DEL, U+0080–U+00A0 and U+00AD. Other
  non-printable non-ASCII characters, which Python writes as `\u`/`\U`
  escapes, count as one character each.
- Strings.Lower: lower-casing covers ASCII and the Cyrillic capitals
  U+0400–U+042F only.
- Commands.MatchesAt: `\d` matches ASCII digits only, while Python also
  accepts other Unicode decimal digits.
- Commands.SetTemperature: `float()` is an oracle returning an optional real.
  Python also accepts `nan`, which passes the range check because every
  comparison with it is false; no real number models that.
- Commands.Tr: the memo key is the pair `(text, lang)`. The source uses
  `str((text, lang))`, which is distinct for distinct pairs.
- Translation.TranslateText2: the tool's error stream is an optional value.
  The source does not pipe it, so `error` is always `None` there and the
  fallback branch is dead.
- Formatting.SplitLongString: non-header mode with `MAX_LENGTH` 0 is excluded
  by the precondition, because the source loops forever on any non-empty text.
  The header-mode result is stated only for `MAX_LENGTH >= 2`. Below that the
  model follows Python's negative slice without a stated property.
- Formatting.SplitHtml: the link masking with random strings and its undoing,
  and `telebot.util.smart_split`. The pieces from the splitter are an input.
- `replace_tables`' prettytable rendering, and all of `bot_markdown_to_html`.
  Only the scan that groups table lines is modelled.
- `trans_thread` after parsing: the translation call and the reply.
- my_stt.py, my_tts.py, `image_gen`, `get_list_of_models` and `utils.platform`.
  The platform test is the `windows` flag of `Translators`.
