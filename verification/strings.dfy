/** An optional value, standing for Python's `None` or a present value. */
module Optional {

  datatype Option<+T> = None | Some(value: T)
}

/**
 Python string primitives the bot relies on, as functions on `seq<char>`:
 whitespace (`str.isspace`), `strip`, `lower`, `startswith`, `split(sep)`,
 `split()`, `sep.join`, `count`, and decimal digits.
 */
module Strings {

  /** The characters for which Python's `str.isspace()` holds. */
  predicate IsSpace(c: char)
  {
    || c == ' '
    || ('\t' <= c <= '\r')
    || ('\U{1C}' <= c <= '\U{1F}')
    || c == '\U{85}' || c == '\U{A0}' || c == '\U{1680}'
    || ('\U{2000}' <= c <= '\U{200A}')
    || c == '\U{2028}' || c == '\U{2029}' || c == '\U{202F}' || c == '\U{205F}' || c == '\U{3000}'
  }

  /** True iff every character is whitespace (so `s.strip() == ''`). */
  predicate IsBlank(s: string)
  {
    forall i :: 0 <= i < |s| ==> IsSpace(s[i])
  }

  /** Python's `s.lstrip()`. */
  function TrimStart(s: string): (r: string)
    ensures |r| <= |s| && r == s[|s| - |r|..]
    ensures forall i :: 0 <= i < |s| - |r| ==> IsSpace(s[i])
    ensures |r| > 0 ==> !IsSpace(r[0])
    decreases |s|
  {
    if |s| > 0 && IsSpace(s[0]) then TrimStart(s[1..]) else s
  }

  /** Python's `s.rstrip()`. */
  function TrimEnd(s: string): (r: string)
    ensures |r| <= |s| && r == s[..|r|]
    ensures forall i :: |r| <= i < |s| ==> IsSpace(s[i])
    ensures |r| > 0 ==> !IsSpace(r[|r| - 1])
    decreases |s|
  {
    if |s| > 0 && IsSpace(s[|s| - 1]) then TrimEnd(s[..|s| - 1]) else s
  }

  /** Python's `s.strip()`. */
  function Strip(s: string): string
  {
    TrimEnd(TrimStart(s))
  }

  /** `s.strip() == ''` holds exactly for the blank strings. */
  lemma StripEmptyIffBlank(s: string)
    ensures Strip(s) == "" <==> IsBlank(s)
  {
    var t := TrimStart(s);
    assert |t| > 0 ==> t[0] == s[|s| - |t|];
    if !IsBlank(s) {
      var i :| 0 <= i < |s| && !IsSpace(s[i]);
      assert |s| - |t| <= i;
      assert t[i - (|s| - |t|)] == s[i];
      assert |TrimEnd(t)| > i - (|s| - |t|);
    }
  }

  /** A string that neither starts nor ends with whitespace is its own strip. */
  lemma StripOfTrimmed(s: string)
    requires |s| > 0 ==> !IsSpace(s[0]) && !IsSpace(s[|s| - 1])
    ensures Strip(s) == s
  {
  }

  /** Python's `str.lower()` on one character, for the Latin and Cyrillic capitals. */
  function LowerChar(c: char): (r: char)
    ensures 'A' <= c <= 'Z' ==> 'a' <= r <= 'z'
    ensures !('A' <= c <= 'Z') && !('\U{400}' <= c <= '\U{42F}') ==> r == c
  {
    if 'A' <= c <= 'Z' then (c as int + 32) as char
    else if '\U{410}' <= c <= '\U{42F}' then (c as int + 32) as char
    else if '\U{400}' <= c <= '\U{40F}' then (c as int + 80) as char
    else c
  }

  /** Python's `s.lower()`, character by character. */
  function Lower(s: string): (r: string)
    ensures |r| == |s|
    ensures forall i :: 0 <= i < |s| ==> r[i] == LowerChar(s[i])
  {
    seq(|s|, i requires 0 <= i < |s| => LowerChar(s[i]))
  }

  /** Python's `s.startswith(p)`. */
  predicate StartsWith(s: string, p: string)
  {
    |p| <= |s| && s[..|p|] == p
  }

  /** Python's `sep.join(parts)`. */
  function JoinWith(sep: string, parts: seq<string>): (r: string)
    ensures |parts| == 1 ==> r == parts[0]
    ensures |parts| == 0 ==> r == ""
    decreases |parts|
  {
    if |parts| == 0 then ""
    else if |parts| == 1 then parts[0]
    else parts[0] + sep + JoinWith(sep, parts[1..])
  }

  /** The index of the first occurrence of `c` in `s`, or `|s|` when there is none. */
  function IndexOf(s: string, c: char): (i: nat)
    ensures i <= |s|
    ensures i < |s| ==> s[i] == c
    ensures forall k :: 0 <= k < i ==> s[k] != c
    decreases |s|
  {
    if |s| == 0 then 0
    else if s[0] == c then 0
    else 1 + IndexOf(s[1..], c)
  }

  /** Python's `s.split(sep)` for a one-character separator. */
  function SplitOn(s: string, sep: char): (r: seq<string>)
    ensures |r| >= 1
    ensures forall k :: 0 <= k < |r| ==> sep !in r[k]
    decreases |s|
  {
    var i := IndexOf(s, sep);
    if i == |s| then [s] else [s[..i]] + SplitOn(s[i + 1..], sep)
  }

  /** Joining the pieces of a split with the separator gives back the string. */
  lemma {:induction false} JoinSplit(s: string, sep: char)
    ensures JoinWith([sep], SplitOn(s, sep)) == s
    decreases |s|
  {
    var i := IndexOf(s, sep);
    if i < |s| {
      var head, tail := s[..i], s[i + 1..];
      var rest := SplitOn(tail, sep);
      assert SplitOn(s, sep) == [head] + rest;
      JoinSplit(tail, sep);
      JoinCons(head, rest, [sep]);
      SplitAround(s, i);
    } else {
      assert SplitOn(s, sep) == [s];
    }
  }

  lemma SplitAround(s: string, i: nat)
    requires i < |s|
    ensures s == s[..i] + [s[i]] + s[i + 1..]
  {
  }

  lemma JoinCons(first: string, rest: seq<string>, sep: string)
    requires |rest| >= 1
    ensures JoinWith(sep, [first] + rest) == first + sep + JoinWith(sep, rest)
  {
    assert ([first] + rest)[1..] == rest;
  }

  /** Splitting a join of separator-free pieces gives back the pieces. */
  lemma {:induction false} SplitJoin(parts: seq<string>, sep: char)
    requires |parts| >= 1
    requires forall k :: 0 <= k < |parts| ==> sep !in parts[k]
    ensures SplitOn(JoinWith([sep], parts), sep) == parts
    decreases |parts|
  {
    if |parts| == 1 {
      assert IndexOf(parts[0], sep) == |parts[0]|;
    } else {
      var head, rest := parts[0], parts[1..];
      var tail := JoinWith([sep], rest);
      assert [head] + rest == parts;
      JoinCons(head, rest, [sep]);
      IndexOfSeparator(head, sep, tail);
      SplitJoin(rest, sep);
      assert SplitOn(head + [sep] + tail, sep) == [head] + SplitOn(tail, sep);
    }
  }

  lemma IndexOfSeparator(a: string, sep: char, tail: string)
    requires sep !in a
    ensures var s := a + [sep] + tail;
            IndexOf(s, sep) == |a| && s[..|a|] == a && s[|a| + 1..] == tail
  {
    var s := a + [sep] + tail;
    assert s[|a|] == sep;
    assert forall k :: 0 <= k < |a| ==> s[k] == a[k];
  }


  /** Splitting a string that ends with the separator always yields a last piece that is empty. */
  lemma {:induction false} SplitOfTerminated(s: string, sep: char)
    ensures var r := SplitOn(s + [sep], sep); r[|r| - 1] == ""
    decreases |s|
  {
    var t := s + [sep];
    assert t[|s|] == sep;
    var i := IndexOf(t, sep);
    if i == |s| {
      assert t[i + 1..] == [];
      assert SplitOn([], sep) == [[]];
    } else {
      assert t[i + 1..] == s[i + 1..] + [sep];
      SplitOfTerminated(s[i + 1..], sep);
    }
  }

  /** The length of the run of whitespace starting at index `i`. */
  function SpaceRun(s: string, i: nat): (n: nat)
    requires i <= |s|
    ensures i + n <= |s|
    ensures forall k :: i <= k < i + n ==> IsSpace(s[k])
    ensures i + n < |s| ==> !IsSpace(s[i + n])
    decreases |s| - i
  {
    if i < |s| && IsSpace(s[i]) then 1 + SpaceRun(s, i + 1) else 0
  }

  /** Dropping the leading whitespace run at `i` is `lstrip` of the suffix from `i`. */
  lemma TrimStartSkipsRun(s: string, i: nat)
    requires i <= |s|
    ensures TrimStart(s[i..]) == s[i + SpaceRun(s, i)..]
  {
  }

  /** Python's argument-less `s.split()`: the maximal runs of non-whitespace. */
  function Words(s: string): (r: seq<string>)
    ensures forall k :: 0 <= k < |r| ==> |r[k]| > 0
    ensures forall k :: 0 <= k < |r| ==> HasNoSpace(r[k])
    decreases |s|
  {
    if |s| == 0 then []
    else if IsSpace(s[0]) then Words(s[1..])
    else
      var n := WordLength(s);
      [s[..n]] + Words(s[n..])
  }

  /** `" ".join(ws).split()` gives back `ws` when every word is non-empty
      and holds no whitespace. */
  lemma {:induction false} WordsOfJoin(ws: seq<string>)
    requires forall k :: 0 <= k < |ws| ==> |ws[k]| > 0 && HasNoSpace(ws[k])
    ensures Words(JoinWith(" ", ws)) == ws
    decreases |ws|
  {
    if |ws| == 1 {
      WordLengthOfWord(ws[0], "");
      assert ws[0] + "" == ws[0];
    } else if |ws| > 1 {
      var tail := " " + JoinWith(" ", ws[1..]);
      assert JoinWith(" ", ws) == ws[0] + tail;
      WordLengthOfWord(ws[0], tail);
      assert (ws[0] + tail)[..|ws[0]|] == ws[0];
      assert (ws[0] + tail)[|ws[0]|..] == tail;
      assert tail[1..] == JoinWith(" ", ws[1..]);
      WordsOfJoin(ws[1..]);
      assert ws == [ws[0]] + ws[1..];
    }
  }

  /** A non-empty word followed by nothing or by whitespace is the leading word. */
  lemma {:induction false} WordLengthOfWord(w: string, tail: string)
    requires |w| > 0 && HasNoSpace(w)
    requires |tail| > 0 ==> IsSpace(tail[0])
    ensures WordLength(w + tail) == |w|
    decreases |w|
  {
    assert (w + tail)[1..] == w[1..] + tail;
    if |w| > 1 {
      WordLengthOfWord(w[1..], tail);
    } else {
      assert w[1..] + tail == tail;
    }
  }

  /** True iff no character is whitespace. */
  predicate HasNoSpace(s: string)
  {
    forall i :: 0 <= i < |s| ==> !IsSpace(s[i])
  }

  /** The length of the leading run of non-whitespace characters. */
  function WordLength(s: string): (n: nat)
    ensures n <= |s|
    ensures HasNoSpace(s[..n])
    ensures n < |s| ==> IsSpace(s[n])
    ensures |s| > 0 && !IsSpace(s[0]) ==> n > 0
    decreases |s|
  {
    if |s| > 0 && !IsSpace(s[0]) then
      var n := 1 + WordLength(s[1..]);
      assert s[..n] == [s[0]] + s[1..][..n - 1];
      n
    else 0
  }

  /** Python's `s.count(p)`: non-overlapping occurrences, scanned left to right. */
  function CountOf(s: string, p: string): (n: nat)
    requires |p| > 0
    ensures n * |p| <= |s|
    decreases |s|
  {
    if |s| < |p| then 0
    else if s[..|p|] == p then 1 + CountOf(s[|p|..], p)
    else CountOf(s[1..], p)
  }

  /** The number of occurrences of the character `c`. */
  function CountChar(s: string, c: char): (n: nat)
    ensures n <= |s|
    ensures n == 0 <==> c !in s
    decreases |s|
  {
    if |s| == 0 then 0 else (if s[0] == c then 1 else 0) + CountChar(s[1..], c)
  }

  /** An ASCII decimal digit (`\d` restricted to ASCII). */
  predicate IsDigit(c: char)
  {
    '0' <= c <= '9'
  }

  /** The decimal value of a string of ASCII digits, as Python's `int(s)`. */
  function ParseDecimal(s: string): nat
    requires forall k :: 0 <= k < |s| ==> IsDigit(s[k])
    decreases |s|
  {
    if |s| == 0 then 0
    else 10 * ParseDecimal(s[..|s| - 1]) + DigitValue(s[|s| - 1])
  }

  function DigitValue(c: char): (d: nat)
    requires IsDigit(c)
    ensures d < 10
  {
    c as int - '0' as int
  }

  /** The decimal rendering of a natural number, as Python's `str(n)`. */
  function NatToDecimal(n: nat): (r: string)
    ensures |r| > 0
    ensures forall k :: 0 <= k < |r| ==> IsDigit(r[k])
    decreases n
  {
    if n < 10 then [('0' as int + n) as char]
    else NatToDecimal(n / 10) + [('0' as int + n % 10) as char]
  }

  /** Reading back a rendered number gives the number. */
  lemma {:induction false} ParseRendered(n: nat)
    ensures ParseDecimal(NatToDecimal(n)) == n
    decreases n
  {
    var r := NatToDecimal(n);
    if n >= 10 {
      ParseRendered(n / 10);
      assert r[..|r| - 1] == NatToDecimal(n / 10);
    }
  }
}
