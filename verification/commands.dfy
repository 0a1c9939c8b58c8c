/**
 The decision and record-update logic of the bot's command handlers (`tb.py`),
 without the messaging around it.

 Per-user settings live in `DB`, a map from a user (or group chat) id to the
 record `(url, token, lang)`. The handlers read the command text, update the
 record, and pick a reply; the replies themselves are left out, only which
 kind of reply is chosen is modelled.
 */
module Commands {

  import opened Optional
  import opened Strings
  import opened Translation
  import Dialog

  /** One `DB` record: the custom API address (`None` for the default), the
      API token (`''` when none was given) and the interface language. */
  datatype Account = Account(url: Option<string>, token: string, lang: string)

  type Db = map<int, Account>

  /** `message.from_user.language_code or 'en'`; a missing code is the empty string. */
  function DefaultLang(languageCode: string): (r: string)
    ensures r != ""
    ensures languageCode != "" ==> r == languageCode
  {
    if languageCode == "" then "en" else languageCode
  }

  /** The language the handlers answer a user in: the stored one, else the client's. */
  function UserLang(db: Db, userId: int, languageCode: string): string
  {
    if userId in db then db[userId].lang else DefaultLang(languageCode)
  }

  /** A command's argument: the second piece of the text split at single
      spaces, stripped; `None` when the text has no space (the source's `IndexError`). */
  function Argument(text: string): (r: Option<string>)
    ensures r.Some? <==> ' ' in text
  {
    var parts := SplitOn(text, ' ');
    if |parts| >= 2 then Some(Strip(parts[1]))
    else
      JoinSplit(text, ' ');
      None
  }

  /** The argument is the second piece of a text made of space-separated
      pieces, stripped, however many pieces follow it. */
  lemma ArgumentIsSecondPiece(pieces: seq<string>)
    requires |pieces| >= 2
    requires forall k :: 0 <= k < |pieces| ==> ' ' !in pieces[k]
    ensures Argument(JoinWith(" ", pieces)) == Some(Strip(pieces[1]))
  {
    SplitJoin(pieces, ' ');
  }

  // ---------------------------------------------------------------- tr

  /** `tb.tr(text, lang)`: the remembered translation of the pair, else a fresh
      one from `translate_text2`, remembered; an empty translation is replaced
      by the text itself. */
  function Tr(memo: Cache, text: string, lang: string, t: Translators): (r: Memo)
    ensures (text, lang) in memo ==> r == Memo(memo, memo[(text, lang)])
    ensures (text, lang) !in memo ==> r.cache == memo[(text, lang) := r.value]
    ensures (text, lang) !in memo && TranslateText2(text, lang, t) != "" ==> r.value == TranslateText2(text, lang, t)
    ensures (text, lang) !in memo && TranslateText2(text, lang, t) == "" ==> r.value == text
    // what is returned is what is remembered afterwards
    ensures (text, lang) in r.cache && r.value == r.cache[(text, lang)]
  {
    var key := (text, lang);
    if key in memo then Memo(memo, memo[key])
    else
      var translated := TranslateText2(text, lang, t);
      var stored := if translated != "" then translated else text;
      Memo(memo[key := stored], stored)
  }

  /** No remembered translation of a non-empty text is empty. */
  predicate HasNoBlankEntries(memo: Cache)
  {
    forall k :: k in memo && k.0 != "" ==> memo[k] != ""
  }

  /** `tr` keeps that property, so it never answers a non-empty text with
      nothing once started from an empty memo. */
  lemma TrKeepsNoBlankEntries(memo: Cache, text: string, lang: string, t: Translators)
    requires HasNoBlankEntries(memo)
    ensures var r := Tr(memo, text, lang, t);
            HasNoBlankEntries(r.cache) && (text != "" ==> r.value != "")
  {
    var r := Tr(memo, text, lang, t);
    forall k | k in r.cache && k.0 != ""
      ensures r.cache[k] != ""
    {
      if k != (text, lang) {
        assert k in memo;
      }
    }
  }

  // ---------------------------------------------------------- get_seconds

  /** The length of the run of ASCII digits starting at index `i`. */
  function DigitRun(s: string, i: nat): (n: nat)
    requires i <= |s|
    ensures i + n <= |s|
    ensures forall k :: i <= k < i + n ==> IsDigit(s[k])
    ensures i + n < |s| ==> !IsDigit(s[i + n])
    decreases |s| - i
  {
    if i < |s| && IsDigit(s[i]) then 1 + DigitRun(s, i + 1) else 0
  }

  /** The pattern `after\s+(\d+)` matches at index `i`. */
  predicate MatchesAt(s: string, i: nat)
  {
    && i + 5 <= |s| && s[i..i + 5] == "after"
    && SpaceRun(s, i + 5) > 0
    && DigitRun(s, i + 5 + SpaceRun(s, i + 5)) > 0
  }

  /** The number the match at `i` captures. */
  function CapturedAt(s: string, i: nat): nat
    requires MatchesAt(s, i)
  {
    var start := i + 5 + SpaceRun(s, i + 5);
    ParseDecimal(s[start..start + DigitRun(s, start)])
  }

  /** The leftmost match at or after index `i`, as `re.search` finds it. */
  function FirstMatch(s: string, i: nat): (r: Option<nat>)
    requires i <= |s|
    ensures r.Some? ==> i <= r.value <= |s| && MatchesAt(s, r.value)
    ensures r.Some? ==> forall j :: i <= j < r.value ==> !MatchesAt(s, j)
    ensures r.None? ==> forall j :: i <= j <= |s| ==> !MatchesAt(s, j)
    decreases |s| - i
  {
    if MatchesAt(s, i) then Some(i)
    else if i == |s| then None
    else FirstMatch(s, i + 1)
  }

  /** The match `re.search` reports: a match with none further left. */
  predicate IsFirstMatch(s: string, i: nat)
  {
    i <= |s| && MatchesAt(s, i) && forall j :: 0 <= j < i ==> !MatchesAt(s, j)
  }

  /** `get_seconds(s)`: the number after the first `after` followed by
      whitespace and digits, else 0. */
  function GetSeconds(s: string): (n: nat)
    ensures (forall j :: 0 <= j <= |s| ==> !MatchesAt(s, j)) ==> n == 0
    ensures forall i :: IsFirstMatch(s, i) ==> n == CapturedAt(s, i)
  {
    match FirstMatch(s, 0)
    case Some(i) =>
      FirstMatchIsUnique(s, i);
      CapturedAt(s, i)
    case None => 0
  }

  /** There is at most one first match. */
  lemma FirstMatchIsUnique(s: string, i: nat)
    requires IsFirstMatch(s, i)
    ensures forall j :: IsFirstMatch(s, j) ==> j == i
  {
  }

  /** A server message that ends in "after N" for a rendered number N, and
      has no `a` before it, yields N. */
  lemma GetSecondsReadsRendered(prefix: string, n: nat)
    requires 'a' !in prefix
    ensures GetSeconds(prefix + "after " + NatToDecimal(n)) == n
  {
    RenderedIsFirstMatch(prefix, n);
  }

  lemma RenderedIsFirstMatch(prefix: string, n: nat)
    requires 'a' !in prefix
    ensures var s := prefix + "after " + NatToDecimal(n);
            IsFirstMatch(s, |prefix|) && CapturedAt(s, |prefix|) == n
  {
    var s := prefix + "after " + NatToDecimal(n);
    RenderedMatches(prefix, n);
    assert s[..|prefix|] == prefix;
    NoMatchInPrefix(s, prefix);
  }

  /** No match starts inside a leading part without the letter `a`. */
  lemma NoMatchInPrefix(s: string, prefix: string)
    requires |prefix| <= |s| && s[..|prefix|] == prefix && 'a' !in prefix
    ensures forall j :: 0 <= j < |prefix| ==> !MatchesAt(s, j)
  {
    forall j | 0 <= j < |prefix|
      ensures !MatchesAt(s, j)
    {
      assert s[j] == prefix[j];
      if MatchesAt(s, j) {
        MatchStartsWithA(s, j);
        assert false;
      }
    }
  }

  lemma MatchStartsWithA(s: string, j: nat)
    requires MatchesAt(s, j)
    ensures s[j] == 'a'
  {
    assert s[j..j + 5][0] == s[j];
  }

  /** The appended "after N" is a match that captures N. */
  lemma RenderedMatches(prefix: string, n: nat)
    ensures var s := prefix + "after " + NatToDecimal(n);
            MatchesAt(s, |prefix|) && CapturedAt(s, |prefix|) == n
  {
    var digits := NatToDecimal(n);
    RenderedShape(prefix, digits);
    CapturedDigits(prefix + "after " + digits, |prefix|, digits);
    ParseRendered(n);
  }

  lemma RenderedShape(prefix: string, digits: string)
    requires |digits| > 0 && forall k :: 0 <= k < |digits| ==> IsDigit(digits[k])
    ensures var s, i := prefix + "after " + digits, |prefix|;
            && i + 6 + |digits| == |s|
            && MatchesAt(s, i)
            && SpaceRun(s, i + 5) == 1
            && DigitRun(s, i + 6) == |digits|
            && s[i + 6..i + 6 + |digits|] == digits
  {
    var s := prefix + "after " + digits;
    var i := |prefix|;
    assert s[i..i + 5] == "after" && s[i + 5] == ' ' && s[i + 6..] == digits by {
      assert s == prefix + ("after " + digits);
    }
    assert SpaceRun(s, i + 5) == 1 by {
      assert s[i + 6] == digits[0];
    }
    DigitRunToEnd(s, i + 6);
  }

  lemma CapturedDigits(s: string, i: nat, digits: string)
    requires MatchesAt(s, i) && SpaceRun(s, i + 5) == 1 && DigitRun(s, i + 6) == |digits|
    requires i + 6 + |digits| <= |s| && s[i + 6..i + 6 + |digits|] == digits
    ensures CapturedAt(s, i) == ParseDecimal(digits)
  {
    var start := i + 5 + SpaceRun(s, i + 5);
    assert start == i + 6;
    assert s[start..start + DigitRun(s, start)] == digits;
  }

  lemma DigitRunToEnd(s: string, i: nat)
    requires i <= |s|
    requires forall k :: i <= k < |s| ==> IsDigit(s[k])
    ensures DigitRun(s, i) == |s| - i
  {
  }

  // ---------------------------------------------------------- temperature

  /** How a `/temperature` command ends: the new value is stored, or help is shown. */
  datatype TemperatureResult = TemperatureResult(temperature: map<int, real>, accepted: bool)

  /** `set_new_temperature`: `parse` stands for Python's `float`. */
  function SetTemperature(temperature: map<int, real>, chatId: int, text: string,
                          parse: string -> Option<real>): (r: TemperatureResult)
    ensures var words := Words(text);
            r.accepted <==> |words| == 2 && parse(words[1]).Some? && 0.0 <= parse(words[1]).value <= 2.0
    ensures r.accepted ==> r.temperature == temperature[chatId := parse(Words(text)[1]).value]
    ensures !r.accepted ==> r.temperature == temperature
  {
    var words := Words(text);
    var parsed := if |words| == 2 then (match parse(words[1]) case Some(t) => t case None => -1.0) else -1.0;
    var newTemp := if parsed < 0.0 || parsed > 2.0 then -1.0 else parsed;
    if |words| < 2 || newTemp == -1.0 then TemperatureResult(temperature, false)
    else TemperatureResult(temperature[chatId := newTemp], true)
  }

  /** An accepted value is the one the chat's next dialogue request carries. */
  lemma AcceptedTemperatureIsUsed(s: Dialog.Stores, chatId: int, text: string, parse: string -> Option<real>)
    requires SetTemperature(s.temperature, chatId, text, parse).accepted
    ensures var r := SetTemperature(s.temperature, chatId, text, parse);
            Dialog.Temperature(s.(temperature := r.temperature), chatId) == parse(Words(text)[1]).value
  {
  }

  /** `/temperature <value>` with a single word as its value stores exactly
      the parsed value when it lies in [0, 2], and changes nothing otherwise. */
  lemma TemperatureCommand(temperature: map<int, real>, chatId: int, command: string, value: string,
                           parse: string -> Option<real>)
    requires |command| > 0 && HasNoSpace(command) && |value| > 0 && HasNoSpace(value)
    ensures var r := SetTemperature(temperature, chatId, command + " " + value, parse);
            (r.accepted <==> parse(value).Some? && 0.0 <= parse(value).value <= 2.0)
            && (r.accepted ==> r.temperature == temperature[chatId := parse(value).value])
            && (!r.accepted ==> r.temperature == temperature)
  {
    var ws := [command, value];
    assert JoinWith(" ", ws) == command + " " + JoinWith(" ", ws[1..]);
    WordsOfJoin(ws);
  }

  // ------------------------------------------------------------- do_task

  /** `GPT_MAX`: the longest message passed to the dialogue. */
  const GptMax: nat := 4000

  /** What `do_task` does with a text message. */
  datatype Gate =
    | NeedKey(privateChat: bool)                       // ask for a key (`/key` in private, `/key copy` in groups)
    | Ignored                                          // a group message not meant for the bot
    | TooLong(length: nat)                             // refuse before calling the dialogue
    | Ask(dialog: int, query: string, lang: string)    // run a dialogue turn

  /** The message as `do_task` sees it. */
  datatype Message = Message(
    userId: int, chatId: int, isPrivate: bool, isReplyToBot: bool, text: string, languageCode: string)

  /** `do_task`'s checks before the dialogue is called. The dialogue and the
      key are the chat's in groups; the language is the sender's own. */
  function GateMessage(db: Db, m: Message, callWord: string): (g: Gate)
    ensures var key := if m.isPrivate then m.userId else m.chatId;
            g.NeedKey? <==> key !in db || db[key].token == ""
    ensures g.Ask? ==> g.dialog == (if m.isPrivate then m.userId else m.chatId)
                       && g.query == m.text && |m.text| <= GptMax
                       && g.lang == UserLang(db, m.userId, m.languageCode)
    ensures g.Ignored? <==> !g.NeedKey? && !(m.isPrivate || m.isReplyToBot || StartsWith(Lower(m.text), callWord))
    ensures g.TooLong? <==> !g.NeedKey? && !g.Ignored? && |m.text| > GptMax
    ensures g.TooLong? ==> g.length == |m.text|
    ensures g.NeedKey? ==> g.privateChat == m.isPrivate
  {
    var lang := UserLang(db, m.userId, m.languageCode);
    var key := if m.isPrivate then m.userId else m.chatId;
    if key !in db || db[key].token == "" then NeedKey(m.isPrivate)
    else if !(m.isPrivate || m.isReplyToBot || StartsWith(Lower(m.text), callWord)) then Ignored
    else if |m.text| > GptMax then TooLong(|m.text|)
    else Ask(key, m.text, lang)
  }

  /** In a group, one member's key serves everyone: whether a message is
      answered does not depend on who sent it. */
  lemma GroupGateIgnoresSender(db: Db, m: Message, other: int, callWord: string)
    requires !m.isPrivate
    ensures var g, g' := GateMessage(db, m, callWord), GateMessage(db, m.(userId := other), callWord);
            g.Ask? == g'.Ask? && g.NeedKey? == g'.NeedKey?
  {
  }

  // ---------------------------------------------- /key, /url, /language

  /** How a settings command ends. */
  datatype Status = Done | ShowHelp | Failed

  datatype Update = Update(db: Db, status: Status)

  /** `/key`, given `arg`, the command's `Argument`: `copy` (in any letter
      case) copies the sender's record to the chat; any other argument becomes
      the sender's token, keeping the address; no argument shows help. Copying
      a record that does not exist raises `KeyError`, which the handler does
      not catch. */
  function Key(db: Db, userId: int, chatId: int, arg: Option<string>, languageCode: string): (r: Update)
    ensures arg.None? ==> r == Update(db, ShowHelp)
    ensures arg.Some? && Lower(arg.value) == "copy" ==>
              if userId in db then r == Update(db[chatId := db[userId]], Done) else r == Update(db, Failed)
    ensures arg.Some? && Lower(arg.value) != "copy" ==>
              && r.status == Done
              && r.db == db[userId := Account(if userId in db then db[userId].url else None,
                                              arg.value,
                                              UserLang(db, userId, languageCode))]
  {
    var lang := UserLang(db, userId, languageCode);
    match arg
    case None => Update(db, ShowHelp)
    case Some(token) =>
      if Lower(token) == "copy" then
        if userId in db then Update(db[chatId := db[userId]], Done) else Update(db, Failed)
      else
        var url := if userId in db then db[userId].url else None;
        Update(db[userId := Account(url, token, lang)], Done)
  }

  /** `/url`, given the command's `Argument`: the argument becomes the
      sender's address, keeping the token (`''` for a new record); no argument
      shows help. */
  function Url(db: Db, userId: int, arg: Option<string>, languageCode: string): (r: Update)
    ensures arg.None? ==> r == Update(db, ShowHelp)
    ensures arg.Some? ==>
              && r.status == Done
              && r.db == db[userId := Account(Some(arg.value),
                                              if userId in db then db[userId].token else "",
                                              UserLang(db, userId, languageCode))]
  {
    match arg
    case None => Update(db, ShowHelp)
    case Some(url) =>
      var token := if userId in db then db[userId].token else "";
      Update(db[userId := Account(Some(url), token, UserLang(db, userId, languageCode))], Done)
  }

  /** `/language`, given the command's `Argument`: the sender always has a
      record afterwards (a new one has no address, no token and the client's
      language); an argument, lower-cased, replaces only the language. */
  function Language(db: Db, userId: int, arg: Option<string>, languageCode: string): (r: Update)
    ensures userId in r.db
    ensures forall k :: k in db && k != userId ==> k in r.db && r.db[k] == db[k]
    ensures r.db.Keys == db.Keys + {userId}
    ensures arg.None? ==> r.status == ShowHelp
    ensures arg.Some? ==> r.status == Done && r.db[userId].lang == Lower(arg.value)
    ensures userId in db ==> r.db[userId].url == db[userId].url && r.db[userId].token == db[userId].token
    ensures userId !in db ==> r.db[userId].url == None && r.db[userId].token == ""
    // without an argument a known sender's record is left alone, and a new one gets the client's language
    ensures arg.None? && userId in db ==> r.db == db
    ensures arg.None? && userId !in db ==> r.db[userId] == Account(None, "", DefaultLang(languageCode))
  {
    var known := if userId in db then db else db[userId := Account(None, "", DefaultLang(languageCode))];
    match arg
    case None => Update(known, ShowHelp)
    case Some(newLang) =>
      var previous := known[userId];
      Update(known[userId := Account(previous.url, previous.token, Lower(newLang))], Done)
  }

  /** Changing the language twice keeps the address and token: only the last language counts. */
  lemma LanguageTwice(db: Db, userId: int, first: Option<string>, second: string, languageCode: string)
    ensures var once := Language(db, userId, first, languageCode).db;
            var twice := Language(once, userId, Some(second), languageCode).db;
            && twice[userId].lang == Lower(second)
            && (userId in db ==> twice[userId].url == db[userId].url && twice[userId].token == db[userId].token)
  {
  }

  /** `/key` then `/url` leaves the sender with both the token and the
      address, in the language the sender had before. */
  lemma KeyThenUrl(db: Db, userId: int, chatId: int, token: string, url: string, languageCode: string)
    requires Lower(token) != "copy"
    ensures var afterKey := Key(db, userId, chatId, Some(token), languageCode).db;
            var afterUrl := Url(afterKey, userId, Some(url), languageCode).db;
            afterUrl[userId] == Account(Some(url), token, UserLang(db, userId, languageCode))
  {
  }

  /** A non-empty token given with `/key` in a private chat unlocks the
      dialogue: the sender's next message is answered unless it is too long. */
  lemma KeyUnlocksPrivateChat(db: Db, userId: int, chatId: int, token: string, languageCode: string,
                              m: Message, callWord: string)
    requires token != "" && Lower(token) != "copy"
    requires m.isPrivate && m.userId == userId
    ensures var g := GateMessage(Key(db, userId, chatId, Some(token), languageCode).db, m, callWord);
            g.Ask? <==> |m.text| <= GptMax
  {
  }

  /** `/key copy` lends the sender's token to the chat: messages in that
      group no longer ask for a key. */
  lemma KeyCopyServesGroup(db: Db, userId: int, chatId: int, languageCode: string, m: Message, callWord: string)
    requires userId in db && db[userId].token != ""
    requires !m.isPrivate && m.chatId == chatId
    ensures var r := Key(db, userId, chatId, Some("copy"), languageCode);
            r.status == Done && !GateMessage(r.db, m, callWord).NeedKey?
  {
    LowerCopy();
  }

  lemma LowerCopy()
    ensures Lower("copy") == "copy"
  {
    var r := Lower("copy");
    assert r[0] == 'c' && r[1] == 'o' && r[2] == 'p' && r[3] == 'y';
  }

  // --------------------------------------------------------------- /trans

  /** `supported_langs_trans`, in the source's order, kept in the source's
      rows of fifteen so that facts about it can be shown row by row. */
  const LangRow1: seq<string> := ["af", "am", "ar", "az", "be", "bg", "bn", "bs", "ca", "ceb", "co", "cs", "cy", "da", "de"]
  const LangRow2: seq<string> := ["el", "en", "eo", "es", "et", "eu", "fa", "fi", "fr", "fy", "ga", "gd", "gl", "gu", "ha"]
  const LangRow3: seq<string> := ["haw", "he", "hi", "hmn", "hr", "ht", "hu", "hy", "id", "ig", "is", "it", "iw", "ja", "jw"]
  const LangRow4: seq<string> := ["ka", "kk", "km", "kn", "ko", "ku", "ky", "la", "lb", "lo", "lt", "lv", "mg", "mi", "mk"]
  const LangRow5: seq<string> := ["ml", "mn", "mr", "ms", "mt", "my", "ne", "nl", "no", "ny", "or", "pa", "pl", "ps", "pt"]
  const LangRow6: seq<string> := ["ro", "ru", "rw", "sd", "si", "sk", "sl", "sm", "sn", "so", "sq", "sr", "st", "su", "sv"]
  const LangRow7: seq<string> := ["sw", "ta", "te", "tg", "th", "tl", "tr", "uk", "ur", "uz", "vi", "xh", "yi", "yo", "zh"]
  const LangRow8: seq<string> := ["zh-TW", "zu"]

  const SupportedLangs: seq<string> :=
    LangRow1 + LangRow2 + LangRow3 + LangRow4 + LangRow5 + LangRow6 + LangRow7 + LangRow8

  /** Every code is a non-empty word: no code is empty or holds whitespace. */
  predicate AllWords(codes: seq<string>)
  {
    forall k :: 0 <= k < |codes| ==> |codes[k]| > 0 && HasNoSpace(codes[k])
  }

  /** The code `c` followed by whitespace starts `s`. */
  predicate CodeStarts(s: string, c: string)
  {
    |c| < |s| && s[..|c|] == c && IsSpace(s[|c|])
  }

  /** The index of the first code, at or after `from`, that starts `s`
      followed by whitespace: the alternative the regular expression's
      optional group takes. */
  function FindCode(s: string, codes: seq<string>, from: nat): (r: Option<nat>)
    requires from <= |codes|
    ensures r.Some? ==> from <= r.value < |codes| && CodeStarts(s, codes[r.value])
    ensures r.Some? ==> forall j :: from <= j < r.value ==> !CodeStarts(s, codes[j])
    ensures r.None? ==> forall j :: from <= j < |codes| ==> !CodeStarts(s, codes[j])
    decreases |codes| - from
  {
    if from == |codes| then None
    else if CodeStarts(s, codes[from]) then Some(from)
    else FindCode(s, codes, from + 1)
  }

  /** The parsed `/trans` command. */
  datatype TransCommand = TransHelp | TransRequest(lang: string, text: string)

  /** The message starts with `/trans` and whitespace. */
  predicate IsTransCommand(msg: string)
  {
    |msg| > 6 && msg[..6] == "/trans" && IsSpace(msg[6])
  }

  /** What follows the command and its whitespace. */
  function AfterCommand(msg: string): (rest: string)
    requires IsTransCommand(msg)
    ensures |rest| < |msg| && rest == msg[|msg| - |rest|..]
    ensures |rest| > 0 ==> !IsSpace(rest[0])
  {
    msg[6 + SpaceRun(msg, 6)..]
  }

  /** `trans_thread`'s match of `^/trans\s+((?:c1|c2|...)\s+)?\s*(.*)$` (with
      `re.DOTALL`) against the codes `codes`: the language is the leading code
      (the group, stripped) or the user's language, stripped; the text is the
      rest after the whitespace. The handler passes `SupportedLangs`. */
  function ParseTrans(msg: string, userLang: string, codes: seq<string>): (r: TransCommand)
    ensures r.TransHelp? <==> !IsTransCommand(msg)
    ensures r.TransRequest? ==> r.lang in codes || r.lang == Strip(userLang)
    ensures r.TransRequest? ==> |r.text| <= |msg| && r.text == msg[|msg| - |r.text|..]
    ensures r.TransRequest? && |r.text| > 0 ==> !IsSpace(r.text[0])
    // a leading listed code (the first one, in list order) names the language
    ensures IsTransCommand(msg) && FindCode(AfterCommand(msg), codes, 0).Some?
            ==> r.lang == codes[FindCode(AfterCommand(msg), codes, 0).value]
    // and the text is what follows that code, with its whitespace stripped from the left
    ensures IsTransCommand(msg) && FindCode(AfterCommand(msg), codes, 0).Some?
            ==> |r.lang| <= |AfterCommand(msg)| && r.text == TrimStart(AfterCommand(msg)[|r.lang|..])
    // otherwise the user's language is used and everything after the command is the text
    ensures IsTransCommand(msg) && FindCode(AfterCommand(msg), codes, 0).None?
            ==> r == TransRequest(Strip(userLang), AfterCommand(msg))
  {
    if !IsTransCommand(msg) then TransHelp
    else
      var rest := AfterCommand(msg);
      match FindCode(rest, codes, 0)
      case Some(k) =>
        var code := codes[k];
        var after := rest[|code|..];
        var text := TrimStart(after);
        SuffixOfSuffix(msg, rest, after);
        SuffixOfSuffix(msg, after, text);
        TransRequest(code, text)
      case None =>
        TransRequest(Strip(userLang), rest)
  }

  lemma SuffixOfSuffix(a: string, b: string, c: string)
    requires |b| <= |a| && b == a[|a| - |b|..]
    requires |c| <= |b| && c == b[|b| - |c|..]
    ensures c == a[|a| - |c|..]
  {
  }

  /** A code that starts `s` followed by whitespace is the only one that does
      so, when codes hold no whitespace. */
  lemma StartingCodeIsUnique(s: string, c: string, d: string)
    requires HasNoSpace(c) && HasNoSpace(d) && CodeStarts(s, c) && CodeStarts(s, d)
    ensures c == d
  {
  }

  /** `/trans <code> <text>` translates `text` into `code`, for every code of
      a list without whitespace and every text that does not start with
      whitespace. */
  lemma ParseTransRoundTrip(code: string, text: string, userLang: string, codes: seq<string>)
    requires AllWords(codes) && code in codes
    requires |text| > 0 ==> !IsSpace(text[0])
    ensures ParseTrans("/trans " + code + " " + text, userLang, codes) == TransRequest(code, text)
  {
    var msg, rest := "/trans " + code + " " + text, code + " " + text;
    CommandBeforeCode(code, text);
    FindsLeadingCode(code, text, codes);
    TextAfterCode(code, text);
    TrimStartSkipsRun(rest, |code|);
    var r := ParseTrans(msg, userLang, codes);
    assert r.TransRequest? && r.lang == code;
  }

  lemma CommandBeforeCode(code: string, text: string)
    requires |code| > 0 && !IsSpace(code[0])
    ensures IsTransCommand("/trans " + code + " " + text)
    ensures AfterCommand("/trans " + code + " " + text) == code + " " + text
  {
    var msg, rest := "/trans " + code + " " + text, code + " " + text;
    assert msg[..6] == "/trans" && msg[6] == ' ';
    assert msg[7..] == rest;
    assert rest[0] == code[0];
    assert SpaceRun(msg, 6) == 1;
  }

  lemma FindsLeadingCode(code: string, text: string, codes: seq<string>)
    requires AllWords(codes) && code in codes
    ensures var found := FindCode(code + " " + text, codes, 0);
            found.Some? && codes[found.value] == code
  {
    var rest := code + " " + text;
    assert rest[..|code|] == code && rest[|code|] == ' ';
    assert CodeStarts(rest, code);
    var found := FindCode(rest, codes, 0);
    StartingCodeIsUnique(rest, codes[found.value], code);
  }

  lemma TextAfterCode(code: string, text: string)
    requires |text| > 0 ==> !IsSpace(text[0])
    ensures var rest := code + " " + text; rest[|code| + SpaceRun(rest, |code|)..] == text
  {
    var rest := code + " " + text;
    assert rest[|code| + 1..] == text;
    if |text| > 0 {
      assert rest[|code| + 1] == text[0];
    }
    assert SpaceRun(rest, |code|) == 1;
  }

  /** `/trans <text>` whose text starts with no listed code translates the
      whole text into the user's language. */
  lemma ParseTransWithoutCode(text: string, userLang: string, codes: seq<string>)
    requires |text| > 0 ==> !IsSpace(text[0])
    requires forall j :: 0 <= j < |codes| ==> !CodeStarts(text, codes[j])
    ensures ParseTrans("/trans " + text, userLang, codes) == TransRequest(Strip(userLang), text)
  {
    var msg := "/trans " + text;
    assert msg[..6] == "/trans" && msg[6] == ' ';
    assert SpaceRun(msg, 6) == 1 by {
      if |text| > 0 {
        assert msg[7] == text[0];
      }
    }
    assert AfterCommand(msg) == text;
  }

  lemma LangRow1AreWords() ensures AllWords(LangRow1) { }
  lemma LangRow2AreWords() ensures AllWords(LangRow2) { }
  lemma LangRow3AreWords() ensures AllWords(LangRow3) { }
  lemma LangRow4AreWords() ensures AllWords(LangRow4) { }
  lemma LangRow5AreWords() ensures AllWords(LangRow5) { }
  lemma LangRow6AreWords() ensures AllWords(LangRow6) { }
  lemma LangRow7AreWords() ensures AllWords(LangRow7) { }
  lemma LangRow8AreWords() ensures AllWords(LangRow8) { }

  lemma AllWordsAppend(a: seq<string>, b: seq<string>)
    requires AllWords(a) && AllWords(b)
    ensures AllWords(a + b)
  {
  }

  /** No supported code holds whitespace (and none is empty). */
  lemma SupportedLangsHaveNoSpace()
    ensures AllWords(SupportedLangs)
  {
    LangRow1AreWords();
    LangRow2AreWords();
    LangRow3AreWords();
    LangRow4AreWords();
    LangRow5AreWords();
    LangRow6AreWords();
    LangRow7AreWords();
    LangRow8AreWords();
    AllWordsAppend(LangRow1, LangRow2);
    AllWordsAppend(LangRow1 + LangRow2, LangRow3);
    AllWordsAppend(LangRow1 + LangRow2 + LangRow3, LangRow4);
    AllWordsAppend(LangRow1 + LangRow2 + LangRow3 + LangRow4, LangRow5);
    AllWordsAppend(LangRow1 + LangRow2 + LangRow3 + LangRow4 + LangRow5, LangRow6);
    AllWordsAppend(LangRow1 + LangRow2 + LangRow3 + LangRow4 + LangRow5 + LangRow6, LangRow7);
    AllWordsAppend(LangRow1 + LangRow2 + LangRow3 + LangRow4 + LangRow5 + LangRow6 + LangRow7, LangRow8);
  }

  /** The round trip for every code the bot supports, named by its position in the list. */
  lemma TransRoundTrip(k: nat, text: string, userLang: string)
    requires k < |SupportedLangs|
    requires |text| > 0 ==> !IsSpace(text[0])
    ensures var code := SupportedLangs[k];
            ParseTrans("/trans " + code + " " + text, userLang, SupportedLangs) == TransRequest(code, text)
  {
    SupportedLangsHaveNoSpace();
    ParseTransRoundTrip(SupportedLangs[k], text, userLang, SupportedLangs);
  }
}
