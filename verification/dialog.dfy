/**
 One dialogue turn of the bot (`gpt_basic.chat`) and the history reset
 (`gpt_basic.chat_reset`).

 A turn is a read-modify-write of the per-chat stores. It
 1. drops the first `max_hist_lines` entries when the history is longer than that,
 2. drops the two oldest entries at a time while the history measures more than `max_hist_bytes`,
 3. sends `[system preamble] + style prompt + history + [user query]` to the model,
 4. on a context-length error condenses the working list into one system entry
    and retries exactly once,
 5. commits the history with the new user and assistant entries, each
    compressed when longer than `max_hist_mem`.

 The remote model and the summariser are oracles; the translated fixed texts
 and the situational preamble are given strings (`Phrases`).
 */
module Dialog {

  import opened Optional
  import opened Strings
  import opened Messages
  import opened Compress

  type ChatId = int

  /** The `cfg` limits. They are non-negative in any working configuration:
      with a negative `max_hist_bytes` the trimming loop never ends. */
  datatype Limits = Limits(maxHistLines: nat, maxHistBytes: nat, maxHistCompressed: nat, maxHistMem: nat)

  /** The per-chat stores `CHATS`, `PROMPTS` and `TEMPERATURE`, and the keys of `CHAT_LOCKS`. */
  datatype Stores = Stores(
    chats: map<ChatId, History>,
    prompts: map<ChatId, History>,
    temperature: map<ChatId, real>,
    locks: set<ChatId>)

  /** The texts a turn uses, already translated for the chat's language:
      the situational preamble (date, place, user name, locale), the default
      style prompt, the transcript placeholder for an empty dialogue, and the
      two fixed replies. */
  datatype Phrases = Phrases(
    preamble: string,
    defaultStyle: string,
    emptyTranscript: string,
    noAnswer: string,
    declined: string)

  /** What is sent to the model. */
  datatype Request = Request(messages: History, temperature: real)

  /** How the model call ends: a reply text, the context-length error, another
      invalid-request error, or an `AttributeError`. */
  datatype CallOutcome = Ok(text: string) | Overflow | OtherInvalid | AttrError

  type Model = Request -> CallOutcome

  datatype TurnResult = TurnResult(stores: Stores, reply: string)

  /** The count trim of `chat`: a history longer than `max_hist_lines` loses
      its first `max_hist_lines` entries:
      the OLDEST `max_hist_lines` entries go, whatever remains stays. */
  function CountTrim(h: History, maxLines: nat): (r: History)
    ensures |r| <= |h| && r == h[|h| - |r|..]
    ensures |h| <= maxLines ==> r == h
    ensures |h| > maxLines ==> |r| == |h| - maxLines
  {
    if |h| > maxLines then h[maxLines..] else h
  }

  /** The count trim does not bound the length: a history more than twice the
      limit keeps more entries than the limit. */
  lemma CountTrimCanExceedLimit(h: History, maxLines: nat)
    requires |h| > 2 * maxLines
    ensures |CountTrim(h, maxLines)| > maxLines
  {
  }

  /** The size trim of `chat`: while the history measures more than the
      budget, its two oldest entries are removed.
      The result fits the budget, is what remains after removing an even
      number of the oldest entries (or is empty), and every shorter removal
      of an even number would not have fitted. */
  function SizeTrim(h: History, budget: nat): (r: History)
    ensures CountTokens(r) <= budget
    ensures |r| <= |h| && r == h[|h| - |r|..]
    ensures (|h| - |r|) % 2 == 0 || r == []
    ensures forall k :: 0 <= k < |h| - |r| && k % 2 == 0 ==> CountTokens(h[k..]) > budget
  {
    TrimFrom(h, budget, 0, CountTokens)
  }

  /** The loop after `pairs` rounds, for any measure: `messages` is
      `h[2 * pairs:]`, which is empty once the index passes the end. */
  function TrimFrom(h: History, budget: nat, pairs: nat, measure: History -> nat): (r: History)
    ensures measure(r) <= budget || (r == [] && measure([]) > budget)
    ensures |r| <= |h| && r == h[|h| - |r|..]
    ensures (|h| - |r|) % 2 == 0 || r == []
    ensures forall k :: 2 * pairs <= k < |h| - |r| && k % 2 == 0 ==> measure(h[k..]) > budget
    decreases |h| - 2 * pairs
  {
    if 2 * pairs >= |h| then []
    else if measure(h[2 * pairs..]) <= budget then h[2 * pairs..]
    else TrimFrom(h, budget, pairs + 1, measure)
  }

  /** A history that fits is kept whole. */
  lemma SizeTrimFits(h: History, budget: nat)
    ensures CountTokens(h) <= budget ==> SizeTrim(h, budget) == h
  {
  }

  /** Trimming starts at a pair boundary: if the history is a sequence of
      user/assistant pairs, the trimmed history still starts with a user entry. */
  lemma SizeTrimKeepsPairs(h: History, budget: nat)
    requires forall i :: 0 <= i < |h| ==> h[i].role == (if i % 2 == 0 then User else Assistant)
    ensures var r := SizeTrim(h, budget); |r| > 0 ==> r[0].role == User
  {
    var r := SizeTrim(h, budget);
    if |r| > 0 {
      assert r[0] == h[|h| - |r|];
    }
  }

  function StoredHistory(s: Stores, id: ChatId): History
  {
    if id in s.chats then s.chats[id] else []
  }

  /** The history sent with the query: count trim, then size trim. */
  function TrimmedHistory(s: Stores, id: ChatId, lim: Limits): History
  {
    SizeTrim(CountTrim(StoredHistory(s, id), lim.maxHistLines), lim.maxHistBytes)
  }

  function DefaultStyle(ph: Phrases): History
  {
    [Turn(System, ph.defaultStyle)]
  }

  /** The chat's style prompt, the default one when the chat has none. */
  function StylePrompt(s: Stores, id: ChatId, ph: Phrases): History
  {
    if id in s.prompts then s.prompts[id] else DefaultStyle(ph)
  }

  /** The chat's temperature, 1 when the chat has none. */
  function Temperature(s: Stores, id: ChatId): real
  {
    if id in s.temperature then s.temperature[id] else 1.0
  }

  /** The fixed head of every request: the preamble, then the style prompt. */
  function RequestHead(s: Stores, id: ChatId, ph: Phrases): History
  {
    [Turn(System, ph.preamble)] + StylePrompt(s, id, ph)
  }

  /** The dialogue as text for the summariser: one line per entry, role then
      content, each line ending in a newline and lines joined by another; the placeholder
      when the text is empty. */
  function Transcript(h: History, emptyText: string): string
  {
    var lines := seq(|h|, i requires 0 <= i < |h| => RoleName(h[i].role) + " - " + h[i].content + "\n");
    var text := JoinWith("\n", lines);
    if text == "" then emptyText else text
  }

  /** The overflow recovery's working list: one system entry holding the
      summary of the whole working list, then its last entry, trimmed again to
      `max_hist_compressed`. */
  function Condense(working: History, lim: Limits, ph: Phrases, summarise: Summariser): (c: History)
    requires |working| > 0
    ensures CountTokens(c) <= lim.maxHistCompressed
    ensures c == [] || (|c| == 2 && c[0].role == System && c[1] == working[|working| - 1])
    ensures |c| == 2 ==> c[0].content == AiCompress(Transcript(working, ph.emptyTranscript), lim.maxHistCompressed, Dialog, false, summarise)
    ensures var full := [Turn(System, AiCompress(Transcript(working, ph.emptyTranscript), lim.maxHistCompressed, Dialog, false, summarise)),
                         working[|working| - 1]];
            CountTokens(full) <= lim.maxHistCompressed ==> c == full
  {
    var summary := AiCompress(Transcript(working, ph.emptyTranscript), lim.maxHistCompressed, Dialog, false, summarise);
    var full := [Turn(System, summary)] + working[|working| - 1..];
    assert full == [Turn(System, summary), working[|working| - 1]];
    SizeTrimFits(full, lim.maxHistCompressed);
    SizeTrim([Turn(System, summary)] + working[|working| - 1..], lim.maxHistCompressed)
  }

  /** The text kept in history for an entry: unchanged up to `max_hist_mem`
      characters, otherwise compressed. */
  function Remembered(text: string, origin: Origin, lim: Limits, summarise: Summariser): (r: string)
    ensures |r| <= |text|
    ensures |text| <= lim.maxHistMem ==> r == text
    ensures |text| > lim.maxHistMem && summarise(SummaryRequest(origin, lim.maxHistMem, text)).SummaryFailed?
            ==> |r| <= lim.maxHistMem
    // a long text is stored as the summary when that is shorter, else as the local fallback
    ensures var answer := summarise(SummaryRequest(origin, lim.maxHistMem, text));
            |text| > lim.maxHistMem && answer.Summarised? && |answer.text| < |text| ==> r == answer.text
    ensures var answer := summarise(SummaryRequest(origin, lim.maxHistMem, text));
            |text| > lim.maxHistMem && !(answer.Summarised? && |answer.text| < |text|)
            ==> r == ZipOrCut(text, lim.maxHistMem)
  {
    if |text| > lim.maxHistMem then AiCompress(text, lim.maxHistMem, origin, false, summarise) else text
  }

  /** The history without its last two entries (empty when it has fewer). */
  function DropLastTwo(h: History): (r: History)
    ensures |h| >= 2 ==> r == h[..|h| - 2]
    ensures |h| < 2 ==> r == []
  {
    if |h| >= 2 then h[..|h| - 2] else []
  }

  /** The history without its last entry (empty for an empty history). */
  function AllButLast(h: History): (r: History)
    ensures |h| > 0 ==> r == h[..|h| - 1]
    ensures |h| == 0 ==> r == []
  {
    if |h| > 0 then h[..|h| - 1] else []
  }

  /** The committed history after an answered turn: the reply is appended,
      the last two entries are cut, and the query and reply are appended again,
      each as remembered. So the entries before the last survive and the last
      one (the query, when there is one) is replaced. */
  function Committed(working: History, query: string, resp: string, lim: Limits, summarise: Summariser): (h: History)
    ensures h == AllButLast(working)
                 + [Turn(User, Remembered(query, UserQuery, lim, summarise)),
                    Turn(Assistant, Remembered(resp, AssistantReply, lim, summarise))]
  {
    var answered := working + [Turn(Assistant, resp)];
    assert |working| > 0 ==> answered[..|answered| - 2] == working[..|working| - 1];
    DropLastTwo(answered)
      + [Turn(User, Remembered(query, UserQuery, lim, summarise)),
         Turn(Assistant, Remembered(resp, AssistantReply, lim, summarise))]
  }

  /** The history stored after an empty reply: the working list, without its
      last entry when that entry is blank. */
  function Unanswered(working: History): (h: History)
    requires |working| > 0
    ensures IsBlank(working[|working| - 1].content) ==> h == working[..|working| - 1]
    ensures !IsBlank(working[|working| - 1].content) ==> h == working
  {
    var last := working[|working| - 1];
    StripEmptyIffBlank(last.content);
    if Strip(last.content) == "" then working[..|working| - 1] else working
  }

  /** How a turn ends: the history to store (`None` when the stored one is
      left alone) and the reply. */
  datatype Outcome = Outcome(history: Option<History>, reply: string)

  /** The turn after the first call, given what that call returned. */
  function Respond(working: History, query: string, head: History, temp: real, first: CallOutcome,
                   lim: Limits, ph: Phrases, complete: Model, summarise: Summariser): (o: Outcome)
    requires |working| > 0
    ensures first.Ok? && first.text != "" ==>
              o == Outcome(Some(AllButLast(working)
                                + [Turn(User, Remembered(query, UserQuery, lim, summarise)),
                                   Turn(Assistant, Remembered(first.text, AssistantReply, lim, summarise))]),
                           first.text)
    ensures first.Ok? && first.text == "" ==> o == Outcome(Some(Unanswered(working)), ph.noAnswer)
    ensures first.AttrError? ==> o == Outcome(None, ph.declined)
    ensures first.OtherInvalid? ==> o == Outcome(None, ph.noAnswer)
    ensures var condensed := Condense(working, lim, ph, summarise);
            var retry := complete(Request(head + condensed, temp));
            first.Overflow? ==>
              && (retry.Ok? && retry.text != "" ==>
                    o == Outcome(Some(AllButLast(condensed)
                                      + [Turn(User, Remembered(query, UserQuery, lim, summarise)),
                                         Turn(Assistant, Remembered(retry.text, AssistantReply, lim, summarise))]),
                                 retry.text))
              && (!(retry.Ok? && retry.text != "") ==> o == Outcome(None, ph.noAnswer))
  {
    match first
    case Ok(resp) =>
      if resp != "" then Outcome(Some(Committed(working, query, resp, lim, summarise)), resp)
      else Outcome(Some(Unanswered(working)), ph.noAnswer)
    case AttrError => Outcome(None, ph.declined)
    case OtherInvalid => Outcome(None, ph.noAnswer)
    case Overflow =>
      var condensed := Condense(working, lim, ph, summarise);
      match complete(Request(head + condensed, temp))
      case Ok(resp) =>
        if resp != "" then Outcome(Some(Committed(condensed, query, resp, lim, summarise)), resp)
        else Outcome(None, ph.noAnswer)
      case _ => Outcome(None, ph.noAnswer)
  }

  /** The working list of a turn: the trimmed stored history, then the query. */
  function Working(s: Stores, id: ChatId, query: string, lim: Limits): (w: History)
    ensures |w| > 0 && w[|w| - 1] == Turn(User, query)
    ensures AllButLast(w) == TrimmedHistory(s, id, lim)
  {
    var trimmed := TrimmedHistory(s, id, lim);
    assert (trimmed + [Turn(User, query)])[..|trimmed|] == trimmed;
    trimmed + [Turn(User, query)]
  }

  /** The first request of a turn: preamble, style prompt, working list; the
      temperature defaults to 1. */
  function FirstRequest(s: Stores, id: ChatId, query: string, lim: Limits, ph: Phrases): Request
  {
    Request(RequestHead(s, id, ph) + Working(s, id, query, lim), Temperature(s, id))
  }

  /** The request retried after a context-length error: the same head, the condensed working list. */
  function RetryRequest(s: Stores, id: ChatId, query: string, lim: Limits, ph: Phrases, summarise: Summariser): Request
  {
    Request(RequestHead(s, id, ph) + Condense(Working(s, id, query, lim), lim, ph, summarise), Temperature(s, id))
  }

  /** `gpt_basic.chat`: one turn for chat `id` with user text `query`. What
      the turn stores and replies, per outcome of the model calls, is stated
      by the lemmas that follow. */
  function Chat(s: Stores, id: ChatId, query: string, lim: Limits, ph: Phrases,
                complete: Model, summarise: Summariser): (r: TurnResult)
    // the chat has a lock afterwards; no other lock is created
    ensures r.stores.locks == s.locks + {id}
    // temperatures are only read
    ensures r.stores.temperature == s.temperature
    // the style prompt is created with the default once, and otherwise left alone
    ensures id in s.prompts ==> r.stores.prompts == s.prompts
    ensures id !in s.prompts ==> r.stores.prompts == s.prompts[id := DefaultStyle(ph)]
    // only this chat's history may change
    ensures r.stores.chats == s.chats
            || (id in r.stores.chats && r.stores.chats == s.chats[id := r.stores.chats[id]])
  {
    var working := Working(s, id, query, lim);
    var head := RequestHead(s, id, ph);
    var temp := Temperature(s, id);
    var o := Respond(working, query, head, temp, complete(Request(head + working, temp)), lim, ph, complete, summarise);
    Finish(s, id, ph, o)
  }

  /** The end of a turn: the lock and the default style prompt exist, and
      the outcome's history, if any, is stored for the chat. */
  function Finish(s: Stores, id: ChatId, ph: Phrases, o: Outcome): (r: TurnResult)
    ensures r.reply == o.reply
    ensures r.stores.locks == s.locks + {id}
    ensures r.stores.temperature == s.temperature
    ensures id in s.prompts ==> r.stores.prompts == s.prompts
    ensures id !in s.prompts ==> r.stores.prompts == s.prompts[id := DefaultStyle(ph)]
    ensures o.history.Some? ==> r.stores.chats == s.chats[id := o.history.value]
    ensures o.history.None? ==> r.stores.chats == s.chats
  {
    var prompts := if id in s.prompts then s.prompts else s.prompts[id := DefaultStyle(ph)];
    var chats := if o.history.Some? then s.chats[id := o.history.value] else s.chats;
    TurnResult(Stores(chats, prompts, s.temperature, s.locks + {id}), o.reply)
  }

  /** A non-empty answer is the reply, and the history becomes the trimmed
      history followed by the query and the answer, each as remembered. */
  lemma ChatAnswered(s: Stores, id: ChatId, query: string, lim: Limits, ph: Phrases,
                     complete: Model, summarise: Summariser)
    requires complete(FirstRequest(s, id, query, lim, ph)).Ok?
    requires complete(FirstRequest(s, id, query, lim, ph)).text != ""
    ensures var answer := complete(FirstRequest(s, id, query, lim, ph)).text;
            var r := Chat(s, id, query, lim, ph, complete, summarise);
            && r.reply == answer
            && r.stores.chats == s.chats[id := TrimmedHistory(s, id, lim)
                 + [Turn(User, Remembered(query, UserQuery, lim, summarise)),
                    Turn(Assistant, Remembered(answer, AssistantReply, lim, summarise))]]
  {
  }

  /** An empty answer gets the fixed reply; the query stays in the history
      unless it is blank. */
  lemma ChatUnanswered(s: Stores, id: ChatId, query: string, lim: Limits, ph: Phrases,
                       complete: Model, summarise: Summariser)
    requires complete(FirstRequest(s, id, query, lim, ph)) == Ok("")
    ensures var r := Chat(s, id, query, lim, ph, complete, summarise);
            var trimmed := TrimmedHistory(s, id, lim);
            && r.reply == ph.noAnswer
            && r.stores.chats == s.chats[id := if IsBlank(query) then trimmed else trimmed + [Turn(User, query)]]
  {
    var working := Working(s, id, query, lim);
    assert working[..|working| - 1] == TrimmedHistory(s, id, lim);
  }

  /** A refusal (an error without a `message` attribute) or any other invalid
      request leaves the history alone and gets its fixed reply. */
  lemma ChatRefused(s: Stores, id: ChatId, query: string, lim: Limits, ph: Phrases,
                    complete: Model, summarise: Summariser)
    requires complete(FirstRequest(s, id, query, lim, ph)).AttrError?
             || complete(FirstRequest(s, id, query, lim, ph)).OtherInvalid?
    ensures var r := Chat(s, id, query, lim, ph, complete, summarise);
            && r.stores.chats == s.chats
            && r.reply == (if complete(FirstRequest(s, id, query, lim, ph)).AttrError? then ph.declined else ph.noAnswer)
  {
  }

  /** After a context-length error the condensed list is sent once more; a
      non-empty answer keeps the summary entry (when the condensed list is not
      empty) followed by the query and the answer; anything else leaves the
      history alone with the fixed reply. */
  lemma ChatRetries(s: Stores, id: ChatId, query: string, lim: Limits, ph: Phrases,
                    complete: Model, summarise: Summariser)
    requires complete(FirstRequest(s, id, query, lim, ph)).Overflow?
    ensures var condensed := Condense(Working(s, id, query, lim), lim, ph, summarise);
            var retry := complete(RetryRequest(s, id, query, lim, ph, summarise));
            var r := Chat(s, id, query, lim, ph, complete, summarise);
            && (retry.Ok? && retry.text != "" ==>
                  && r.reply == retry.text
                  && r.stores.chats == s.chats[id := (if condensed == [] then [] else [condensed[0]])
                       + [Turn(User, Remembered(query, UserQuery, lim, summarise)),
                          Turn(Assistant, Remembered(retry.text, AssistantReply, lim, summarise))]])
            && (!(retry.Ok? && retry.text != "") ==> r.reply == ph.noAnswer && r.stores.chats == s.chats)
  {
    var condensed := Condense(Working(s, id, query, lim), lim, ph, summarise);
    assert AllButLast(condensed) == if condensed == [] then [] else [condensed[0]];
  }

  /** A model that always reports a context-length error gets exactly one
      recovery attempt: the turn ends with the fixed reply and commits nothing. */
  lemma PersistentOverflowFails(s: Stores, id: ChatId, query: string, lim: Limits, ph: Phrases,
                                 summarise: Summariser)
    ensures var r := Chat(s, id, query, lim, ph, (q: Request) => Overflow, summarise);
            r.reply == ph.noAnswer && r.stores.chats == s.chats
  {
    ChatRetries(s, id, query, lim, ph, (q: Request) => Overflow, summarise);
  }

  /** After a context-length error the stored history is either untouched or
      collapsed to at most three entries: the summary, the query and the reply. */
  lemma OverflowCollapsesHistory(s: Stores, id: ChatId, query: string, lim: Limits, ph: Phrases,
                                 complete: Model, summarise: Summariser)
    requires complete(FirstRequest(s, id, query, lim, ph)).Overflow?
    ensures var r := Chat(s, id, query, lim, ph, complete, summarise);
            r.stores.chats == s.chats || (id in r.stores.chats && 2 <= |r.stores.chats[id]| <= 3)
  {
    ChatRetries(s, id, query, lim, ph, complete, summarise);
  }

  /** The history part of the first request measures at most `max_hist_bytes`,
      so the whole request measures at most the fixed head, that bound and the query. */
  lemma FirstRequestSize(s: Stores, id: ChatId, query: string, lim: Limits, ph: Phrases)
    ensures CountTokens(FirstRequest(s, id, query, lim, ph).messages)
            <= CountTokens(RequestHead(s, id, ph)) + lim.maxHistBytes + CountTokens([Turn(User, query)])
  {
    var head, trimmed, tail := RequestHead(s, id, ph), TrimmedHistory(s, id, lim), [Turn(User, query)];
    CountTokensAdditive(head, trimmed + tail);
    CountTokensAdditive(trimmed, tail);
  }

  /** The first example of a turn: an empty history, "hello" answered by "hi there". */
  lemma GreetingTurn(s: Stores, id: ChatId, lim: Limits, ph: Phrases, summarise: Summariser)
    requires id !in s.chats
    requires lim.maxHistMem >= 8
    ensures var r := Chat(s, id, "hello", lim, ph, (q: Request) => Ok("hi there"), summarise);
            && r.reply == "hi there"
            && id in r.stores.chats
            && r.stores.chats[id] == [Turn(User, "hello"), Turn(Assistant, "hi there")]
  {
    assert Remembered("hello", UserQuery, lim, summarise) == "hello";
    assert Remembered("hi there", AssistantReply, lim, summarise) == "hi there";
    ChatAnswered(s, id, "hello", lim, ph, (q: Request) => Ok("hi there"), summarise);
    assert TrimmedHistory(s, id, lim) == [];
  }

  /** The second example: the first call overflows, the summary entry and
      the query fit `max_hist_compressed`, and the retry answers; the committed
      history is the summary entry followed by the new turn, and the reply is
      the retry's answer. */
  lemma RecoveredTurn(s: Stores, id: ChatId, query: string, lim: Limits, ph: Phrases,
                      complete: Model, summarise: Summariser, answer: string)
    requires answer != ""
    requires complete(FirstRequest(s, id, query, lim, ph)) == Overflow
    requires complete(RetryRequest(s, id, query, lim, ph, summarise)) == Ok(answer)
    requires Condense(Working(s, id, query, lim), lim, ph, summarise) != []
    ensures var r := Chat(s, id, query, lim, ph, complete, summarise);
            && r.reply == answer
            && id in r.stores.chats
            && |r.stores.chats[id]| == 3
            && r.stores.chats[id][0].role == System
            && r.stores.chats[id][1] == Turn(User, Remembered(query, UserQuery, lim, summarise))
            && r.stores.chats[id][2] == Turn(Assistant, Remembered(answer, AssistantReply, lim, summarise))
  {
    var condensed := Condense(Working(s, id, query, lim), lim, ph, summarise);
    var h := [condensed[0]]
             + [Turn(User, Remembered(query, UserQuery, lim, summarise)),
                Turn(Assistant, Remembered(answer, AssistantReply, lim, summarise))];
    var r := Chat(s, id, query, lim, ph, complete, summarise);
    assert r.reply == answer && r.stores.chats == s.chats[id := h] by {
      ChatRetries(s, id, query, lim, ph, complete, summarise);
    }
    assert condensed[0].role == System;
  }

  /** `gpt_basic.chat_reset`: an existing history becomes empty; an unknown chat stays unknown. */
  function ChatReset(chats: map<ChatId, History>, id: ChatId): (r: map<ChatId, History>)
    ensures id in chats ==> id in r && r[id] == []
    ensures id !in chats ==> r == chats
    ensures r.Keys == chats.Keys
    ensures forall k :: k in chats && k != id ==> r[k] == chats[k]
  {
    if id in chats then chats[id := []] else chats
  }

  /** Resetting twice is resetting once. */
  lemma ChatResetIdempotent(chats: map<ChatId, History>, id: ChatId)
    ensures ChatReset(ChatReset(chats, id), id) == ChatReset(chats, id)
  {
  }
}
