/**
 Dialogue entries and the size measure used to bound them.

 The bot never counts model tokens: `utils.count_tokens` measures a list of
 entries by the length of Python's `str()` of that list of dictionaries. This
 module writes that rendering out (`PyRepr`) so the measure is the real one,
 and proves the facts the trimming code relies on: the empty list measures 0,
 any other list measures more, and the measure adds up over concatenation.
 */
module Messages {

  import opened Strings

  datatype Role = System | User | Assistant

  function RoleName(role: Role): string
  {
    match role
    case System => "system"
    case User => "user"
    case Assistant => "assistant"
  }

  /** One entry of a dialogue, the dictionary `{"role": ..., "content": ...}`. */
  datatype Turn = Turn(role: Role, content: string)

  /** A dialogue, oldest entry first. */
  type History = seq<Turn>

  function HexDigit(d: nat): char
    requires d < 16
  {
    if d < 10 then ('0' as int + d) as char else ('a' as int + d - 10) as char
  }

  /** Characters Python's `repr` writes as `\xhh`: C0 controls other than tab,
      newline and carriage return, DEL, the C1 controls, no-break space and soft hyphen. */
  predicate NeedsHexEscape(c: char)
  {
    || (c < ' ' && c != '\t' && c != '\n' && c != '\r')
    || ('\U{7F}' <= c <= '\U{A0}')
    || c == '\U{AD}'
  }

  /** How Python's `repr` writes one character inside a literal quoted with `quote`. */
  function EscapeChar(c: char, quote: char): (r: string)
    ensures 1 <= |r| <= 4
  {
    if c == quote || c == '\\' then ['\\', c]
    else if c == '\t' then "\\t"
    else if c == '\n' then "\\n"
    else if c == '\r' then "\\r"
    else if NeedsHexEscape(c) then ['\\', 'x', HexDigit(c as int / 16), HexDigit(c as int % 16)]
    else [c]
  }

  function EscapeAll(s: string, quote: char): (r: string)
    ensures |r| >= |s|
    decreases |s|
  {
    if |s| == 0 then "" else EscapeChar(s[0], quote) + EscapeAll(s[1..], quote)
  }

  /** Python's `repr` of a string: double quotes only when the text holds a
      single quote and no double quote. */
  function ReprStr(s: string): (r: string)
    ensures |r| >= |s| + 2
  {
    var quote := if '\'' in s && '"' !in s then '"' else '\'';
    [quote] + EscapeAll(s, quote) + [quote]
  }

  /** Python's `repr` of the dictionary `{'role': ..., 'content': ...}`. */
  function TurnRepr(t: Turn): string
  {
    "{'role': " + ReprStr(RoleName(t.role)) + ", 'content': " + ReprStr(t.content) + "}"
  }

  function Reprs(h: History): (r: seq<string>)
    ensures |r| == |h|
    ensures forall i :: 0 <= i < |h| ==> r[i] == TurnRepr(h[i])
  {
    seq(|h|, i requires 0 <= i < |h| => TurnRepr(h[i]))
  }

  /** Python's `str(messages)` for a list of entries. */
  function PyRepr(h: History): string
  {
    "[" + JoinWith(", ", Reprs(h)) + "]"
  }

  /** What one entry adds to the measure: its rendering plus the `", "` (or bracket) beside it. */
  function Weight(h: History): nat
    decreases |h|
  {
    if |h| == 0 then 0 else |TurnRepr(h[0])| + 2 + Weight(h[1..])
  }

  /** `utils.count_tokens`: 0 for the empty list, else the length of `str(messages)`. */
  function CountTokens(h: History): (n: nat)
    ensures n == Weight(h)
    ensures n == 0 <==> |h| == 0
  {
    if |h| == 0 then 0
    else
      ReprLength(h);
      |PyRepr(h)|
  }

  function TotalLength(parts: seq<string>): nat
    decreases |parts|
  {
    if |parts| == 0 then 0 else |parts[0]| + TotalLength(parts[1..])
  }

  lemma {:induction false} JoinLength(sep: string, parts: seq<string>)
    requires |parts| >= 1
    ensures |JoinWith(sep, parts)| == TotalLength(parts) + |sep| * (|parts| - 1)
    decreases |parts|
  {
    if |parts| > 1 {
      JoinLength(sep, parts[1..]);
    } else {
      assert TotalLength(parts[1..]) == 0;
    }
  }

  lemma {:induction false} ReprsWeight(h: History)
    ensures TotalLength(Reprs(h)) + 2 * |h| == Weight(h)
    decreases |h|
  {
    if |h| > 0 {
      assert Reprs(h)[1..] == Reprs(h[1..]);
      ReprsWeight(h[1..]);
    }
  }

  /** The rendering of a non-empty list is exactly as long as its weight. */
  lemma ReprLength(h: History)
    requires |h| > 0
    ensures |PyRepr(h)| == Weight(h)
  {
    JoinLength(", ", Reprs(h));
    ReprsWeight(h);
  }

  lemma {:induction false} WeightAdditive(a: History, b: History)
    ensures Weight(a + b) == Weight(a) + Weight(b)
    decreases |a|
  {
    if |a| > 0 {
      assert (a + b)[0] == a[0];
      assert (a + b)[1..] == a[1..] + b;
      WeightAdditive(a[1..], b);
    } else {
      assert a + b == b;
    }
  }

  /** The measure of a concatenation is the sum of the measures: the brackets
      of the two lists pay for the `", "` that joins them. */
  lemma CountTokensAdditive(a: History, b: History)
    ensures CountTokens(a + b) == CountTokens(a) + CountTokens(b)
  {
    WeightAdditive(a, b);
  }

  /** Dropping the oldest entries never makes a list measure more. */
  lemma CountTokensOfSuffix(h: History, k: nat)
    requires k <= |h|
    ensures CountTokens(h[k..]) <= CountTokens(h)
  {
    assert h == h[..k] + h[k..];
    CountTokensAdditive(h[..k], h[k..]);
  }
}
