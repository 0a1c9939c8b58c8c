/**
 Text helpers of `utils.py` that shape replies for the chat client:
 cutting a long cell text (`split_long_string`), picking out the table
 blocks of a reply (the line scan of `replace_tables`), and keeping `<b>` and
 `<code>` tags balanced when a long HTML reply is sent in several pieces (the
 balancing pass of `split_html`).
 */
module Formatting {

  import opened Strings

  /** The concatenation of all pieces, `''.join(parts)`. */
  function Concat(parts: seq<string>): string
    decreases |parts|
  {
    if |parts| == 0 then "" else parts[0] + Concat(parts[1..])
  }

  /** Python's `s[:k]` for any integer `k`: a negative `k` counts from the end. */
  function PyHead(s: string, k: int): (r: string)
    ensures 0 <= k <= |s| ==> r == s[..k]
    ensures |r| <= |s| && r == s[..|r|]
  {
    if k >= |s| then s
    else if k >= 0 then s[..k]
    else if |s| + k >= 0 then s[..|s| + k]
    else ""
  }

  /** The pieces of the `while` loop of `split_long_string`: slices of `n`
      characters while more than `n` remain, then the non-empty rest. */
  function Chunks(s: string, n: nat): (r: seq<string>)
    requires n > 0
    ensures Concat(r) == s
    ensures forall k :: 0 <= k < |r| - 1 ==> |r[k]| == n
    ensures |r| > 0 ==> 0 < |r[|r| - 1]| <= n
    ensures |r| == 0 <==> |s| == 0
    ensures forall k, c :: 0 <= k < |r| && c in r[k] ==> c in s
    decreases |s|
  {
    if |s| > n then
      var rest := Chunks(s[n..], n);
      var r := [s[..n]] + rest;
      assert r[1..] == rest;
      assert s == s[..n] + s[n..];
      r
    else if |s| > 0 then [s]
    else []
  }

  /** `utils.split_long_string(long_string, header, MAX_LENGTH)`. Without
      `header` and with a limit of 0 the source loops forever on any
      non-empty text, so that combination is excluded. */
  function SplitLongString(s: string, header: bool, maxLength: nat): (r: string)
    requires header || maxLength > 0 || s == ""
    ensures |s| <= maxLength ==> r == s
    ensures |s| > maxLength && header && maxLength >= 2 ==> r == s[..maxLength - 2] + ".." && |r| == maxLength
    ensures |s| > maxLength && !header ==> |r| > |s|
  {
    if |s| <= maxLength then s
    else if header then PyHead(s, maxLength - 2) + ".."
    else
      var pieces := Chunks(s, maxLength);
      JoinLengthBound(pieces, s, maxLength);
      JoinWith("\n", pieces)
  }

  /** Joining at least two chunks adds at least one separator. */
  lemma JoinLengthBound(pieces: seq<string>, s: string, n: nat)
    requires n > 0 && |s| > n && pieces == Chunks(s, n)
    ensures |JoinWith("\n", pieces)| > |s|
  {
    assert |pieces| >= 2;
    JoinConcatLength(pieces);
  }

  lemma {:induction false} JoinConcatLength(parts: seq<string>)
    requires |parts| >= 1
    ensures |JoinWith("\n", parts)| == |Concat(parts)| + |parts| - 1
    decreases |parts|
  {
    if |parts| > 1 {
      JoinConcatLength(parts[1..]);
    }
  }

  /** Splitting the result of the non-header mode back at its newlines gives
      pieces of exactly `MAX_LENGTH` characters and one non-empty last piece of
      at most that many, and gluing them together restores the input (when the
      input itself has no newline). */
  lemma SplitLongStringRoundTrip(s: string, maxLength: nat)
    requires maxLength > 0 && |s| > maxLength && '\n' !in s
    ensures var pieces := SplitOn(SplitLongString(s, false, maxLength), '\n');
            && Concat(pieces) == s
            && (forall k :: 0 <= k < |pieces| - 1 ==> |pieces[k]| == maxLength)
            && 0 < |pieces[|pieces| - 1]| <= maxLength
  {
    var chunks := Chunks(s, maxLength);
    assert forall k :: 0 <= k < |chunks| ==> '\n' !in chunks[k];
    SplitJoin(chunks, '\n');
  }

  /** A line that belongs to a table: more than two `|` and more than four characters. */
  predicate IsTableLine(line: string)
  {
    CountChar(line, '|') > 2 && |line| > 4
  }

  /** The loop state of `replace_tables`: inside a table or not, the table
      text collected so far (each line followed by a newline), the tables found. */
  datatype Scan = Scan(inTable: bool, table: string, results: seq<string>)

  /** One iteration of the loop. */
  function ScanLine(st: Scan, line: string): Scan
  {
    if IsTableLine(line) then Scan(true, st.table + line + "\n", st.results)
    else if st.inTable then Scan(false, "", st.results + [if |st.table| > 0 then st.table[..|st.table| - 1] else ""])
    else st
  }

  function ScanFrom(st: Scan, lines: seq<string>): Scan
    decreases |lines|
  {
    if |lines| == 0 then st else ScanFrom(ScanLine(st, lines[0]), lines[1..])
  }

  /** The tables `replace_tables` collects from a text: the text gets a
      final newline, is split into lines, and the lines are scanned. */
  function TableBlocks(text: string): seq<string>
  {
    ScanFrom(Scan(false, "", []), SplitOn(text + "\n", '\n')).results
  }

  /** How many lines at the front are table lines. */
  function LeadingRun(lines: seq<string>): (n: nat)
    ensures n <= |lines|
    ensures forall k :: 0 <= k < n ==> IsTableLine(lines[k])
    ensures n < |lines| ==> !IsTableLine(lines[n])
    decreases |lines|
  {
    if |lines| > 0 && IsTableLine(lines[0]) then 1 + LeadingRun(lines[1..]) else 0
  }

  /** The reference meaning: every maximal run of consecutive table lines,
      its lines joined by newlines, in order. */
  function Runs(lines: seq<string>): seq<string>
    decreases |lines|
  {
    if |lines| == 0 then []
    else if !IsTableLine(lines[0]) then Runs(lines[1..])
    else
      var n := LeadingRun(lines);
      [JoinWith("\n", lines[..n])] + Runs(lines[n..])
  }

  lemma {:induction false} JoinAppend(sep: string, parts: seq<string>, x: string)
    requires |parts| > 0
    ensures JoinWith(sep, parts + [x]) == JoinWith(sep, parts) + sep + x
    decreases |parts|
  {
    if |parts| > 1 {
      assert (parts + [x])[1..] == parts[1..] + [x];
      JoinAppend(sep, parts[1..], x);
    } else {
      assert parts + [x] == [parts[0], x];
    }
  }

  /** Cutting a sequence after its first element and then at `n - 1`. */
  lemma SliceAfterHead<T>(s: seq<T>, n: nat)
    requires 0 < n <= |s|
    ensures s[..n] == [s[0]] + s[1..][..n - 1] && s[n..] == s[1..][n - 1..]
  {
  }

  lemma AppendAssoc<T>(a: seq<T>, b: seq<T>, c: seq<T>)
    ensures a + b + c == a + (b + c)
  {
  }

  /** A leading table line extends the leading run of the remaining lines by one. */
  lemma TableHeadStep(lines: seq<string>)
    requires |lines| > 0 && IsTableLine(lines[0])
    ensures var n, n' := LeadingRun(lines), LeadingRun(lines[1..]);
            n == n' + 1 && lines[..n] == [lines[0]] + lines[1..][..n'] && lines[n..] == lines[1..][n'..]
  {
    assert LeadingRun(lines) == 1 + LeadingRun(lines[1..]);
    SliceAfterHead(lines, LeadingRun(lines));
  }

  /** One iteration of the scan. */
  lemma ScanStep(st: Scan, lines: seq<string>)
    requires |lines| > 0
    ensures ScanFrom(st, lines) == ScanFrom(ScanLine(st, lines[0]), lines[1..])
  {
  }

  /** A leading non-table line adds no run. */
  lemma RunsSkipHead(lines: seq<string>)
    requires |lines| > 0 && !IsTableLine(lines[0])
    ensures Runs(lines) == Runs(lines[1..])
  {
  }

  /** A leading table line starts the first run, which takes the whole leading run. */
  lemma RunsTakeHead(lines: seq<string>)
    requires |lines| > 0 && IsTableLine(lines[0])
    ensures var n := LeadingRun(lines); Runs(lines) == [JoinWith("\n", lines[..n])] + Runs(lines[n..])
  {
  }

  /** Outside a table, the scan of lines that end with a non-table line
      appends exactly the reference runs. */
  lemma {:induction false} ScanOutside(st: Scan, lines: seq<string>)
    requires !st.inTable && st.table == ""
    requires |lines| > 0 && !IsTableLine(lines[|lines| - 1])
    ensures ScanFrom(st, lines).results == st.results + Runs(lines)
    decreases |lines|, 0
  {
    var line, rest := lines[0], lines[1..];
    var next := ScanLine(st, line);
    ScanStep(st, lines);
    if IsTableLine(line) {
      assert next == Scan(true, JoinWith("\n", [line]) + "\n", st.results);
      assert |rest| > 0 && rest[|rest| - 1] == lines[|lines| - 1];
      var n, n' := LeadingRun(lines), LeadingRun(rest);
      ScanInside(next, [line], rest);
      TableHeadStep(lines);
      RunsTakeHead(lines);
      calc {
        ScanFrom(st, lines).results;
        st.results + [JoinWith("\n", [line] + rest[..n'])] + Runs(rest[n'..]);
        st.results + [JoinWith("\n", lines[..n])] + Runs(lines[n..]);
        { AppendAssoc(st.results, [JoinWith("\n", lines[..n])], Runs(lines[n..])); }
        st.results + Runs(lines);
      }
    } else {
      assert next == st;
      RunsSkipHead(lines);
      if |rest| > 0 {
        assert rest[|rest| - 1] == lines[|lines| - 1];
        ScanOutside(next, rest);
      }
    }
  }

  /** Inside a table whose lines so far are `run`, the scan of lines that end
      with a non-table line first closes the run, extended by the leading table
      lines, and then appends the reference runs of the rest. */
  lemma {:induction false} ScanInside(st: Scan, run: seq<string>, lines: seq<string>)
    requires |run| > 0 && st.inTable && st.table == JoinWith("\n", run) + "\n"
    requires |lines| > 0 && !IsTableLine(lines[|lines| - 1])
    ensures var n := LeadingRun(lines);
            ScanFrom(st, lines).results == st.results + [JoinWith("\n", run + lines[..n])] + Runs(lines[n..])
    decreases |lines|, 1
  {
    var line, rest := lines[0], lines[1..];
    var next := ScanLine(st, line);
    ScanStep(st, lines);
    var n := LeadingRun(lines);
    if IsTableLine(line) {
      JoinAppend("\n", run, line);
      assert next == Scan(true, JoinWith("\n", run + [line]) + "\n", st.results);
      assert |rest| > 0 && rest[|rest| - 1] == lines[|lines| - 1];
      ScanInside(next, run + [line], rest);
      TableHeadStep(lines);
      AppendAssoc(run, [line], rest[..LeadingRun(rest)]);
    } else {
      assert n == 0 && run + lines[..n] == run && lines[n..] == lines;
      assert next == Scan(false, "", st.results + [JoinWith("\n", run)]);
      RunsSkipHead(lines);
      if |rest| > 0 {
        assert rest[|rest| - 1] == lines[|lines| - 1];
        ScanOutside(next, rest);
      }
    }
  }

  /** The scan of `replace_tables` finds exactly the maximal runs of table
      lines: the added final newline makes the last line empty, which flushes
      a table that ends the text. */
  lemma TableBlocksAreRuns(text: string)
    ensures TableBlocks(text) == Runs(SplitOn(text + "\n", '\n'))
  {
    var lines := SplitOn(text + "\n", '\n');
    SplitOfTerminated(text, '\n');
    ScanOutside(Scan(false, "", []), lines);
  }

  /** The four tags the balancing pass counts. */
  datatype Tag = BoldOpen | BoldClose | CodeOpen | CodeClose

  function TagText(t: Tag): string
  {
    match t
    case BoldOpen => "<b>"
    case BoldClose => "</b>"
    case CodeOpen => "<code>"
    case CodeClose => "</code>"
  }

  function TagsText(ts: seq<Tag>): string
    decreases |ts|
  {
    if |ts| == 0 then "" else TagText(ts[0]) + TagsText(ts[1..])
  }

  /** Whether the previous piece left `<b>` and `<code>` open
      (`next_chunk_is_b`, `next_chunk_is_code`). */
  datatype Carry = Carry(bold: bool, code: bool)

  /** The number of each tag in a piece, as `chunk.count(...)` counts them. */
  datatype TagCount = TagCount(bold: nat, boldClose: nat, code: nat, codeClose: nat)

  function CountTags(chunk: string): TagCount
  {
    TagCount(CountOf(chunk, "<b>"), CountOf(chunk, "</b>"), CountOf(chunk, "<code>"), CountOf(chunk, "</code>"))
  }

  predicate IsTagFree(chunk: string)
  {
    CountTags(chunk) == TagCount(0, 0, 0, 0)
  }

  /** Opened minus closed tags of one kind among the added tags. */
  function Net(ts: seq<Tag>, open: Tag, close: Tag): int
    decreases |ts|
  {
    if |ts| == 0 then 0
    else (if ts[0] == open then 1 else if ts[0] == close then -1 else 0) + Net(ts[1..], open, close)
  }

  lemma {:induction false} NetAppend(a: seq<Tag>, b: seq<Tag>, open: Tag, close: Tag)
    ensures Net(a + b, open, close) == Net(a, open, close) + Net(b, open, close)
    decreases |a|
  {
    if |a| > 0 {
      assert (a + b)[1..] == a[1..] + b;
      NetAppend(a[1..], b, open, close);
    } else {
      assert a + b == b;
    }
  }

  /** The decision for one kind of tag: prepend an opener (the piece closes
      more than it opens), append a closer (it opens more than it closes), or
      wrap the piece (it has no tag of this kind and the kind is carried
      open); and whether the kind is open for the next piece. */
  datatype KindFix = KindFix(prepend: bool, append: bool, wrap: bool, carry: bool)

  function FixKind(opens: nat, closes: nat, carried: bool): (k: KindFix)
    ensures k.carry == (opens > closes || (opens == closes && carried))
    ensures !(k.prepend && k.append) && !(k.wrap && (k.prepend || k.append))
    ensures -1 <= opens - closes <= 1 ==> opens - closes + (if k.prepend then 1 else 0) - (if k.append then 1 else 0) == 0
    ensures opens == 0 && closes == 0 ==> (k.wrap <==> carried)
    ensures opens == closes > 0 ==> k == KindFix(false, false, false, carried)
    // an opener is added exactly when closers are in surplus, a closer exactly when openers are
    ensures k.append == (opens > closes) && k.prepend == (opens < closes)
    ensures k.wrap == (opens == 0 && closes == 0 && carried)
  {
    var prepend := opens < closes;
    var append := opens > closes;
    var carry := if append then true else if prepend then false else carried;
    KindFix(prepend, append, opens == 0 && closes == 0 && carry, carry)
  }

  function When(b: bool, t: Tag): seq<Tag>
  {
    if b then [t] else []
  }

  /** What the balancing adds around a piece, and the flags for the next one. */
  datatype Framing = Framing(before: seq<Tag>, after: seq<Tag>, carry: Carry)

  /** The tags that tag counts `n` and incoming flags `c` call for. */
  function Frame(n: TagCount, c: Carry): Framing
  {
    var bold := FixKind(n.bold, n.boldClose, c.bold);
    var code := FixKind(n.code, n.codeClose, c.code);
    Framing(
      When(bold.wrap, BoldOpen) + When(code.wrap, CodeOpen) + When(code.prepend, CodeOpen) + When(bold.prepend, BoldOpen),
      When(bold.append, BoldClose) + When(code.append, CodeClose) + When(code.wrap, CodeClose) + When(bold.wrap, BoldClose),
      Carry(bold.carry, code.carry))
  }

  /** One iteration of the balancing loop of `split_html`: the `<b>` fix is
      applied first, then the `<code>` fix, then the `<code>` wrap, then the
      `<b>` wrap, each prepending and appending to what is there. */
  function Balance(chunk: string, c: Carry): (f: Framing)
    ensures var n := CountTags(chunk);
            f.carry.bold == (n.bold > n.boldClose || (n.bold == n.boldClose && c.bold))
    ensures var n := CountTags(chunk);
            f.carry.code == (n.code > n.codeClose || (n.code == n.codeClose && c.code))
    // the `<b>` fix comes first, so its tag is the inner one
    ensures var n := CountTags(chunk);
            n.bold > n.boldClose && n.code > n.codeClose ==> f.after == [BoldClose, CodeClose]
    ensures var n := CountTags(chunk);
            n.bold < n.boldClose && n.code < n.codeClose ==> f.before == [CodeOpen, BoldOpen]
  {
    var n := CountTags(chunk);
    FrameAddsTags(n, c);
    Frame(n, c)
  }

  /** What `Balance` states, for the tag counts alone. */
  lemma FrameAddsTags(n: TagCount, c: Carry)
    ensures var f := Frame(n, c);
            f.carry.bold == (n.bold > n.boldClose || (n.bold == n.boldClose && c.bold))
            && f.carry.code == (n.code > n.codeClose || (n.code == n.codeClose && c.code))
    ensures var f := Frame(n, c);
            Net(f.before + f.after, BoldOpen, BoldClose)
            == (if n.bold > n.boldClose then -1 else if n.bold < n.boldClose then 1 else 0)
    ensures var f := Frame(n, c);
            Net(f.before + f.after, CodeOpen, CodeClose)
            == (if n.code > n.codeClose then -1 else if n.code < n.codeClose then 1 else 0)
    ensures n.bold > n.boldClose && n.code > n.codeClose ==> Frame(n, c).after == [BoldClose, CodeClose]
    ensures n.bold < n.boldClose && n.code < n.codeClose ==> Frame(n, c).before == [CodeOpen, BoldOpen]
  {
    var bold := FixKind(n.bold, n.boldClose, c.bold);
    var code := FixKind(n.code, n.codeClose, c.code);
    FramingNet(bold.wrap, code.wrap, code.prepend, bold.prepend, bold.append, code.append);
  }

  /** A piece without tags of a kind is wrapped in that kind exactly when the
      kind is carried open; a balanced piece with tags of both kinds is sent as is. */
  lemma BalanceWrapsCarried(chunk: string, c: Carry)
    ensures var n, f := CountTags(chunk), Balance(chunk, c);
            n.bold == 0 && n.boldClose == 0 ==> (BoldOpen in f.before <==> c.bold)
    ensures var n, f := CountTags(chunk), Balance(chunk, c);
            n.code == 0 && n.codeClose == 0 ==> (CodeOpen in f.before <==> c.code)
    ensures var n, f := CountTags(chunk), Balance(chunk, c);
            n.bold == n.boldClose > 0 && n.code == n.codeClose > 0 ==> f.before == [] && f.after == []
  {
    var n := CountTags(chunk);
    var bold := FixKind(n.bold, n.boldClose, c.bold);
    var code := FixKind(n.code, n.codeClose, c.code);
    assert Balance(chunk, c).before
      == When(bold.wrap, BoldOpen) + When(code.wrap, CodeOpen) + When(code.prepend, CodeOpen) + When(bold.prepend, BoldOpen);
  }

  /** Whatever the surplus, one closer is added for surplus openers and one
      opener for surplus closers; so a piece at most one tag off, of either
      kind, is balanced by what is added. */
  lemma BalanceEvensOut(chunk: string, c: Carry)
    ensures var n, f := CountTags(chunk), Balance(chunk, c);
            Net(f.before + f.after, BoldOpen, BoldClose)
            == (if n.bold > n.boldClose then -1 else if n.bold < n.boldClose then 1 else 0)
    ensures var n, f := CountTags(chunk), Balance(chunk, c);
            Net(f.before + f.after, CodeOpen, CodeClose)
            == (if n.code > n.codeClose then -1 else if n.code < n.codeClose then 1 else 0)
    ensures var n, f := CountTags(chunk), Balance(chunk, c);
            -1 <= n.bold - n.boldClose <= 1 ==> n.bold - n.boldClose + Net(f.before + f.after, BoldOpen, BoldClose) == 0
    ensures var n, f := CountTags(chunk), Balance(chunk, c);
            -1 <= n.code - n.codeClose <= 1 ==> n.code - n.codeClose + Net(f.before + f.after, CodeOpen, CodeClose) == 0
  {
    FrameAddsTags(CountTags(chunk), c);
  }

  /** Wrapping adds one opener and one closer, so only the fixes change the net count. */
  lemma FramingNet(boldWrap: bool, codeWrap: bool, codePrepend: bool, boldPrepend: bool, boldAppend: bool, codeAppend: bool)
    ensures var ts := (When(boldWrap, BoldOpen) + When(codeWrap, CodeOpen) + When(codePrepend, CodeOpen) + When(boldPrepend, BoldOpen))
                      + (When(boldAppend, BoldClose) + When(codeAppend, CodeClose) + When(codeWrap, CodeClose) + When(boldWrap, BoldClose));
            && Net(ts, BoldOpen, BoldClose) == (if boldPrepend then 1 else 0) - (if boldAppend then 1 else 0)
            && Net(ts, CodeOpen, CodeClose) == (if codePrepend then 1 else 0) - (if codeAppend then 1 else 0)
  {
    var b1, b2, b3, b4 := When(boldWrap, BoldOpen), When(codeWrap, CodeOpen), When(codePrepend, CodeOpen), When(boldPrepend, BoldOpen);
    var a1, a2, a3, a4 := When(boldAppend, BoldClose), When(codeAppend, CodeClose), When(codeWrap, CodeClose), When(boldWrap, BoldClose);
    NetWhen(BoldOpen, BoldClose);
    NetWhen(CodeOpen, CodeClose);
    NetOfEight(b1, b2, b3, b4, a1, a2, a3, a4, BoldOpen, BoldClose);
    NetOfEight(b1, b2, b3, b4, a1, a2, a3, a4, CodeOpen, CodeClose);
  }

  lemma NetOfEight(b1: seq<Tag>, b2: seq<Tag>, b3: seq<Tag>, b4: seq<Tag>,
                   a1: seq<Tag>, a2: seq<Tag>, a3: seq<Tag>, a4: seq<Tag>, open: Tag, close: Tag)
    ensures Net(b1 + b2 + b3 + b4 + (a1 + a2 + a3 + a4), open, close)
            == Net(b1, open, close) + Net(b2, open, close) + Net(b3, open, close) + Net(b4, open, close)
               + Net(a1, open, close) + Net(a2, open, close) + Net(a3, open, close) + Net(a4, open, close)
  {
    NetAppend(b1, b2, open, close);
    NetAppend(b1 + b2, b3, open, close);
    NetAppend(b1 + b2 + b3, b4, open, close);
    NetAppend(a1, a2, open, close);
    NetAppend(a1 + a2, a3, open, close);
    NetAppend(a1 + a2 + a3, a4, open, close);
    NetAppend(b1 + b2 + b3 + b4, a1 + a2 + a3 + a4, open, close);
  }

  lemma NetWhen(open: Tag, close: Tag)
    ensures forall b: bool, t: Tag :: Net(When(b, t), open, close)
              == if !b then 0 else if t == open then 1 else if t == close then -1 else 0
  {
    forall b: bool, t: Tag
      ensures Net(When(b, t), open, close) == if !b then 0 else if t == open then 1 else if t == close then -1 else 0
    {
      if b {
        assert When(b, t)[1..] == [];
      }
    }
  }

  /** The piece as sent. */
  function Render(f: Framing, chunk: string): string
  {
    TagsText(f.before) + chunk + TagsText(f.after)
  }

  /** The loop body of `split_html` as the source writes it: four successive
      edits of the piece's text (the `<b>` fix, the `<code>` fix, the `<code>`
      wrap, the `<b>` wrap), and the flags they leave. */
  function EditPiece(chunk: string, c: Carry): (string, Carry)
  {
    Edits(chunk, CountTags(chunk), c)
  }

  /** The edits of `EditPiece` for a piece whose tag counts are `n`. */
  function Edits(chunk: string, n: TagCount, c: Carry): (string, Carry)
  {
    var bold := if n.bold > n.boldClose then true else if n.bold < n.boldClose then false else c.bold;
    var code := if n.code > n.codeClose then true else if n.code < n.codeClose then false else c.code;
    var s1 := FixText(chunk, n.bold, n.boldClose, BoldOpen, BoldClose);
    var s2 := FixText(s1, n.code, n.codeClose, CodeOpen, CodeClose);
    var s3 := WrapText(s2, n.codeClose == 0 && n.code == 0 && code, CodeOpen, CodeClose);
    var s4 := WrapText(s3, n.boldClose == 0 && n.bold == 0 && bold, BoldOpen, BoldClose);
    (s4, Carry(bold, code))
  }

  lemma {:induction false} TagsTextAppend(a: seq<Tag>, b: seq<Tag>)
    ensures TagsText(a + b) == TagsText(a) + TagsText(b)
    decreases |a|
  {
    if |a| == 0 {
      assert a + b == b;
    } else {
      assert (a + b)[1..] == a[1..] + b;
      TagsTextAppend(a[1..], b);
    }
  }

  lemma TagsTextOfFour(t1: seq<Tag>, t2: seq<Tag>, t3: seq<Tag>, t4: seq<Tag>)
    ensures TagsText(t1 + t2 + t3 + t4) == TagsText(t1) + TagsText(t2) + TagsText(t3) + TagsText(t4)
  {
    TagsTextAppend(t1, t2);
    TagsTextAppend(t1 + t2, t3);
    TagsTextAppend(t1 + t2 + t3, t4);
  }

  lemma TagsTextWhen(b: bool, t: Tag)
    ensures TagsText(When(b, t)) == if b then TagText(t) else ""
  {
    if b {
      assert When(b, t)[1..] == [];
    }
  }

  /** The framing is the source's sequence of edits: same text, same flags. */
  lemma BalanceMatchesEdits(chunk: string, c: Carry)
    ensures EditPiece(chunk, c) == (Render(Balance(chunk, c), chunk), Balance(chunk, c).carry)
  {
    FrameMatchesEdits(chunk, CountTags(chunk), c);
  }

  lemma FrameMatchesEdits(chunk: string, n: TagCount, c: Carry)
    ensures Edits(chunk, n, c) == (Render(Frame(n, c), chunk), Frame(n, c).carry)
  {
    var bold := FixKind(n.bold, n.boldClose, c.bold);
    var code := FixKind(n.code, n.codeClose, c.code);
    var w1, w2, p3, p4 := TagsText(When(bold.wrap, BoldOpen)), TagsText(When(code.wrap, CodeOpen)),
                          TagsText(When(code.prepend, CodeOpen)), TagsText(When(bold.prepend, BoldOpen));
    var q1, q2, q3, q4 := TagsText(When(bold.append, BoldClose)), TagsText(When(code.append, CodeClose)),
                          TagsText(When(code.wrap, CodeClose)), TagsText(When(bold.wrap, BoldClose));
    FrameRender(n, c, chunk);
    EditsNest(chunk, n, c);
    Regroup(w1, w2, p3, p4, chunk, q1, q2, q3, q4);
  }

  /** The framing's text, tag by tag. */
  lemma FrameRender(n: TagCount, c: Carry, chunk: string)
    ensures var bold, code := FixKind(n.bold, n.boldClose, c.bold), FixKind(n.code, n.codeClose, c.code);
            Render(Frame(n, c), chunk)
            == TagsText(When(bold.wrap, BoldOpen)) + TagsText(When(code.wrap, CodeOpen))
               + TagsText(When(code.prepend, CodeOpen)) + TagsText(When(bold.prepend, BoldOpen))
               + chunk
               + (TagsText(When(bold.append, BoldClose)) + TagsText(When(code.append, CodeClose))
                  + TagsText(When(code.wrap, CodeClose)) + TagsText(When(bold.wrap, BoldClose)))
  {
    var bold := FixKind(n.bold, n.boldClose, c.bold);
    var code := FixKind(n.code, n.codeClose, c.code);
    TagsTextOfFour(When(bold.wrap, BoldOpen), When(code.wrap, CodeOpen), When(code.prepend, CodeOpen), When(bold.prepend, BoldOpen));
    TagsTextOfFour(When(bold.append, BoldClose), When(code.append, CodeClose), When(code.wrap, CodeClose), When(bold.wrap, BoldClose));
  }

  /** The edits' text, step by step, and the flags they leave. */
  lemma EditsNest(chunk: string, n: TagCount, c: Carry)
    ensures var bold, code := FixKind(n.bold, n.boldClose, c.bold), FixKind(n.code, n.codeClose, c.code);
            Edits(chunk, n, c)
            == (TagsText(When(bold.wrap, BoldOpen))
                + (TagsText(When(code.wrap, CodeOpen))
                   + (TagsText(When(code.prepend, CodeOpen))
                      + (TagsText(When(bold.prepend, BoldOpen)) + chunk + TagsText(When(bold.append, BoldClose)))
                      + TagsText(When(code.append, CodeClose)))
                   + TagsText(When(code.wrap, CodeClose)))
                + TagsText(When(bold.wrap, BoldClose)),
                Carry(bold.carry, code.carry))
  {
  }

  /** One fix of the loop body: a closer appended for surplus openers, an
      opener prepended for surplus closers; it agrees with `FixKind`. */
  function FixText(x: string, opens: nat, closes: nat, open: Tag, close: Tag): (r: string)
    ensures var k := FixKind(opens, closes, false);
            r == TagsText(When(k.prepend, open)) + x + TagsText(When(k.append, close))
  {
    TagsTextWhen(opens < closes, open);
    TagsTextWhen(opens > closes, close);
    if opens > closes then x + TagText(close) else if opens < closes then TagText(open) + x else x
  }

  /** One wrap of the loop body: the piece between an opener and a closer. */
  function WrapText(x: string, wrap: bool, open: Tag, close: Tag): (r: string)
    ensures r == TagsText(When(wrap, open)) + x + TagsText(When(wrap, close))
  {
    TagsTextWhen(wrap, open);
    TagsTextWhen(wrap, close);
    if wrap then TagText(open) + x + TagText(close) else x
  }

  /** The nested edits put their tags in the same order as the flat framing. */
  lemma Regroup(w1: string, w2: string, p3: string, p4: string, x: string,
                q1: string, q2: string, q3: string, q4: string)
    ensures w1 + (w2 + (p3 + (p4 + x + q1) + q2) + q3) + q4 == w1 + w2 + p3 + p4 + x + (q1 + q2 + q3 + q4)
  {
    var inner := p4 + x + q1;
    assert p3 + inner + q2 == p3 + p4 + x + (q1 + q2);
    assert w2 + (p3 + inner + q2) + q3 == w2 + p3 + p4 + x + (q1 + q2 + q3);
  }

  /** A piece with no tags, sent while both tags are open, is wrapped in both. */
  lemma WrapsTagFreePiece(chunk: string)
    requires IsTagFree(chunk)
    ensures Render(Balance(chunk, Carry(true, true)), chunk) == "<b><code>" + chunk + "</code></b>"
    ensures Render(Balance(chunk, Carry(false, false)), chunk) == chunk
    ensures Balance(chunk, Carry(false, false)).carry == Carry(false, false)
  {
    assert Balance(chunk, Carry(true, true)) == Framing([BoldOpen, CodeOpen], [CodeClose, BoldClose], Carry(true, true));
    assert TagsText([BoldOpen, CodeOpen]) == "<b>" + TagsText([CodeOpen]);
    assert TagsText([CodeClose, BoldClose]) == "</code>" + TagsText([BoldClose]);
    assert Balance(chunk, Carry(false, false)) == Framing([], [], Carry(false, false));
  }

  /** The flags after the first `k` pieces have been balanced, starting from `c`. */
  function CarryAfter(chunks: seq<string>, c: Carry, k: nat): Carry
    requires k <= |chunks|
    decreases k
  {
    if k == 0 then c else Balance(chunks[k - 1], CarryAfter(chunks, c, k - 1)).carry
  }

  /** Balancing the first piece and then the rest threads the same flags. */
  lemma {:induction false} CarryAfterRest(chunks: seq<string>, c: Carry, k: nat)
    requires 0 < |chunks| && k < |chunks|
    ensures CarryAfter(chunks[1..], Balance(chunks[0], c).carry, k) == CarryAfter(chunks, c, k + 1)
    decreases k
  {
    if k > 0 {
      CarryAfterRest(chunks, c, k - 1);
      assert chunks[1..][k - 1] == chunks[k];
    }
  }

  /** The balancing loop over all pieces, threading the flags. */
  function BalanceAll(chunks: seq<string>, c: Carry): (r: seq<string>)
    ensures |r| == |chunks|
    decreases |chunks|
  {
    if |chunks| == 0 then []
    else
      var f := Balance(chunks[0], c);
      [Render(f, chunks[0])] + BalanceAll(chunks[1..], f.carry)
  }

  /** Piece `k` of the loop's output is piece `k` of the input with the tags
      its own counts and the flags left by pieces `0..k-1` call for. */
  lemma {:induction false} BalanceAllPiece(chunks: seq<string>, c: Carry, k: nat)
    requires k < |chunks|
    ensures BalanceAll(chunks, c)[k] == Render(Balance(chunks[k], CarryAfter(chunks, c, k)), chunks[k])
    decreases k
  {
    var f := Balance(chunks[0], c);
    if k > 0 {
      var rest := chunks[1..];
      var next := CarryAfter(chunks, c, k);
      assert BalanceAll(chunks, c)[k] == BalanceAll(rest, f.carry)[k - 1];
      assert CarryAfter(rest, f.carry, k - 1) == next by {
        CarryAfterRest(chunks, c, k - 1);
      }
      assert rest[k - 1] == chunks[k];
      BalanceAllPiece(rest, f.carry, k - 1);
    }
  }

  /** Every output piece is its input piece framed by the threaded flags. */
  lemma BalanceAllPieces(chunks: seq<string>, c: Carry)
    ensures var r := BalanceAll(chunks, c);
            forall k :: 0 <= k < |chunks| ==> r[k] == Render(Balance(chunks[k], CarryAfter(chunks, c, k)), chunks[k])
  {
    forall k | 0 <= k < |chunks|
      ensures BalanceAll(chunks, c)[k] == Render(Balance(chunks[k], CarryAfter(chunks, c, k)), chunks[k])
    {
      BalanceAllPiece(chunks, c, k);
    }
  }

  /** `utils.split_html(text)`, given the pieces the splitter produced. */
  function SplitHtml(text: string, chunks: seq<string>): (r: seq<string>)
    ensures |text| < 300 ==> r == [text]
    ensures |text| >= 300 ==> |r| == |chunks|
  {
    if |text| < 300 then [text] else BalanceAll(chunks, Carry(false, false))
  }

  /** Pieces without tags pass through unchanged when nothing is open. */
  lemma {:induction false} PlainPiecesUnchanged(chunks: seq<string>)
    requires forall k :: 0 <= k < |chunks| ==> IsTagFree(chunks[k])
    ensures BalanceAll(chunks, Carry(false, false)) == chunks
    decreases |chunks|
  {
    if |chunks| > 0 {
      var f := Balance(chunks[0], Carry(false, false));
      assert Render(f, chunks[0]) == chunks[0] && f.carry == Carry(false, false) by {
        WrapsTagFreePiece(chunks[0]);
      }
      var rest := chunks[1..];
      assert BalanceAll(rest, Carry(false, false)) == rest by {
        assert forall k :: 0 <= k < |rest| ==> IsTagFree(rest[k]) by {
          forall k | 0 <= k < |rest| ensures IsTagFree(rest[k]) {
            assert rest[k] == chunks[k + 1];
          }
        }
        PlainPiecesUnchanged(rest);
      }
      assert BalanceAll(chunks, Carry(false, false)) == [chunks[0]] + rest;
      assert chunks == [chunks[0]] + rest;
    }
  }

  /** Once `<b>` is left open, every following piece without tags is sent
      wrapped in `<b>`...`</b>`: the flag persists until a piece closes more
      than it opens. */
  lemma {:induction false} OpenBoldWrapsFollowingPieces(chunks: seq<string>)
    requires forall k :: 0 <= k < |chunks| ==> IsTagFree(chunks[k])
    ensures var r := BalanceAll(chunks, Carry(true, false));
            forall k :: 0 <= k < |chunks| ==> r[k] == "<b>" + chunks[k] + "</b>"
    decreases |chunks|
  {
    if |chunks| > 0 {
      var f := Balance(chunks[0], Carry(true, false));
      assert f == Framing([BoldOpen], [BoldClose], Carry(true, false));
      OpenBoldWrapsFollowingPieces(chunks[1..]);
    }
  }

  /** Once `<code>` is left open, every following piece without tags is sent
      wrapped in `<code>`...`</code>`. */
  lemma {:induction false} OpenCodeWrapsFollowingPieces(chunks: seq<string>)
    requires forall k :: 0 <= k < |chunks| ==> IsTagFree(chunks[k])
    ensures var r := BalanceAll(chunks, Carry(false, true));
            forall k :: 0 <= k < |chunks| ==> r[k] == "<code>" + chunks[k] + "</code>"
    decreases |chunks|
  {
    if |chunks| > 0 {
      var f := Balance(chunks[0], Carry(false, true));
      assert f == Framing([CodeOpen], [CodeClose], Carry(false, true));
      OpenCodeWrapsFollowingPieces(chunks[1..]);
    }
  }
}
