/**
 Machine translation with a memo cache (`my_trans.py`).

 Two back ends exist: the `py_trans` library (used on Windows) and the
 `trans` command-line tool (used elsewhere). Both are oracles here; each
 falls back to the untranslated text when it fails. `translate` remembers
 every answer under `(text, lang)` and never asks again for a remembered pair.
 */
module Translation {

  import opened Optional
  import opened Strings

  /** The dictionary `PyTranslator().translate` returns. */
  datatype PyResult = PyResult(status: string, translation: string)

  /** What the `trans` tool writes; `stderr` is `None` when it was not captured. */
  datatype ToolOutput = ToolOutput(stdout: string, stderr: Option<string>)

  /** The environment of a translation: whether the platform name mentions
      Windows, and the two back ends, as functions of `(text, lang)`. */
  datatype Translators = Translators(
    windows: bool,
    library: (string, string) -> PyResult,
    tool: (string, string) -> ToolOutput)

  /** `my_trans.translate_text`: the library's translation when it reports
      success, else the text itself. */
  function TranslateText(text: string, lang: string, t: Translators): (r: string)
    ensures t.library(text, lang).status == "success" ==> r == t.library(text, lang).translation
    ensures t.library(text, lang).status != "success" ==> r == text
  {
    var answer := t.library(text, lang);
    if answer.status == "success" then answer.translation else text
  }

  /** `my_trans.translate_text2`: on Windows the library path; otherwise the
      tool's stripped output, or the text itself when the tool reported an error. */
  function TranslateText2(text: string, lang: string, t: Translators): (r: string)
    ensures t.windows ==> r == TranslateText(text, lang, t)
    ensures !t.windows && t.tool(text, lang).stderr.Some? ==> r == text
    ensures !t.windows && t.tool(text, lang).stderr.None? ==> r == Strip(t.tool(text, lang).stdout)
  {
    if t.windows then TranslateText(text, lang, t)
    else
      var out := t.tool(text, lang);
      if out.stderr.Some? then text else Strip(out.stdout)
  }

  /** Whatever the back ends do, a translation is either the text itself or
      something a back end produced. */
  lemma TranslationFallsBack(text: string, lang: string, t: Translators)
    ensures var r := TranslateText2(text, lang, t);
            || r == text
            || (t.windows && r == t.library(text, lang).translation)
            || (!t.windows && r == Strip(t.tool(text, lang).stdout))
  {
  }

  /** The module-level `cached` dictionary. */
  type Cache = map<(string, string), string>

  datatype Memo = Memo(cache: Cache, value: string)

  /** `my_trans.translate(text, lang)`: the cached answer for the pair, or a
      fresh translation that is then cached. */
  function Translate(cache: Cache, text: string, lang: string, t: Translators): (r: Memo)
    // a hit answers from the cache and changes nothing
    ensures (text, lang) in cache ==> r == Memo(cache, cache[(text, lang)])
    // a miss translates with the platform's back end and stores the answer
    ensures (text, lang) !in cache ==>
              && r.value == (if t.windows then TranslateText(text, lang, t) else TranslateText2(text, lang, t))
              && r.cache == cache[(text, lang) := r.value]
    // afterwards the pair is cached with the returned value
    ensures (text, lang) in r.cache && r.cache[(text, lang)] == r.value
    // no other entry appears, and no entry is overwritten
    ensures r.cache.Keys == cache.Keys + {(text, lang)}
    ensures forall k :: k in cache ==> r.cache[k] == cache[k]
  {
    if (text, lang) in cache then Memo(cache, cache[(text, lang)])
    else
      var translated := if t.windows then TranslateText(text, lang, t) else TranslateText2(text, lang, t);
      Memo(cache[(text, lang) := translated], translated)
  }

  /** Asking again returns the same answer from the cache, whatever the back
      ends would say now, and leaves the cache as the first call left it. */
  lemma TranslateRepeats(cache: Cache, text: string, lang: string, t: Translators, later: Translators)
    ensures var first := Translate(cache, text, lang, t);
            Translate(first.cache, text, lang, later) == first
  {
  }

  /** The answer for a pair never changes once it is cached: a sequence of
      calls keeps every cached entry. */
  function TranslateAll(cache: Cache, requests: seq<(string, string)>, t: Translators): (r: Cache)
    ensures cache.Keys <= r.Keys
    ensures forall k :: k in cache ==> r[k] == cache[k]
    ensures forall i :: 0 <= i < |requests| ==> requests[i] in r
    decreases |requests|
  {
    if |requests| == 0 then cache
    else
      var next := Translate(cache, requests[0].0, requests[0].1, t).cache;
      var r := TranslateAll(next, requests[1..], t);
      assert forall i :: 1 <= i < |requests| ==> requests[i] == requests[1..][i - 1];
      r
  }
}
