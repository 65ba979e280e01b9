/**
 * The regular expressions the source runs over generated module code, written
 * out as scanners: the greedy `require\("(.*)"\)` and the lazy
 * `import\s<name>\sfrom\s"(.*?)"`, each used with the global flag and a
 * replacement callback.
 */
module RegexForms {
  import opened Wrappers
  import opened Strings

  /** A line terminator: the characters `.` does not match. */
  predicate IsLineTerminator(c: char) {
    c == '\n' || c == '\r' || c == '\U{2028}' || c == '\U{2029}'
  }

  /** A character of the class `\s`. */
  predicate IsJsSpace(c: char) {
    c == '\t' || c == '\n' || c == '\U{000B}' || c == '\U{000C}' || c == '\r' || c == ' '
    || c == '\U{00A0}' || c == '\U{1680}' || ('\U{2000}' <= c <= '\U{200A}')
    || c == '\U{2028}' || c == '\U{2029}' || c == '\U{202F}' || c == '\U{205F}'
    || c == '\U{3000}' || c == '\U{FEFF}'
  }

  /** No line terminator in `s[lo..hi]`: the span `.*` can cover. */
  predicate OnOneLine(s: string, lo: nat, hi: nat)
    requires lo <= hi <= |s|
  {
    forall j :: lo <= j < hi ==> !IsLineTerminator(s[j])
  }

  /** The end of the line from index `k`: the first line terminator at or after `k`, or the end of `s`. */
  function LineEnd(s: string, k: nat): (r: nat)
    requires k <= |s|
    ensures k <= r <= |s|
    ensures OnOneLine(s, k, r)
    ensures r < |s| ==> IsLineTerminator(s[r])
    decreases |s| - k
  {
    if k == |s| || IsLineTerminator(s[k]) then k else LineEnd(s, k + 1)
  }

  /** A span from `k` stays on one line exactly when it ends by the line end. */
  lemma OnOneLineIffBeforeLineEnd(s: string, k: nat, hi: nat)
    requires k <= hi <= |s|
    ensures OnOneLine(s, k, hi) <==> hi <= LineEnd(s, k)
  {
    var e := LineEnd(s, k);
    if hi > e {
      assert IsLineTerminator(s[e]);
    }
  }

  /** The last occurrence of `t` lying within `s[lo..hi]`. */
  function LastOccurrence(s: string, t: string, lo: nat, hi: nat): (r: Option<nat>)
    requires lo <= hi <= |s| && |t| > 0
    ensures r.Some? ==> lo <= r.value && r.value + |t| <= hi && OccursAt(s, t, r.value)
    ensures r.Some? ==> forall j :: r.value < j && j + |t| <= hi ==> !OccursAt(s, t, j)
    ensures r.None? ==> forall j :: lo <= j && j + |t| <= hi ==> !OccursAt(s, t, j)
    decreases hi
  {
    if hi < lo + |t| then None
    else if OccursAt(s, t, hi - |t|) then Some(hi - |t|)
    else LastOccurrence(s, t, lo, hi - 1)
  }

  /** The first index at or after `k` holding a `"` or a line terminator, or the end of `s`. */
  function QuoteOrLineEnd(s: string, k: nat): (r: nat)
    requires k <= |s|
    ensures k <= r <= |s|
    ensures forall j :: k <= j < r ==> s[j] != '"' && !IsLineTerminator(s[j])
    ensures r < |s| ==> s[r] == '"' || IsLineTerminator(s[r])
    decreases |s| - k
  {
    if k == |s| || s[k] == '"' || IsLineTerminator(s[k]) then k else QuoteOrLineEnd(s, k + 1)
  }

  /** The lazy `(.*?)"` from index `k` finds a closing quote on the same line. */
  predicate ClosesOnLine(s: string, k: nat)
    requires k <= |s|
  {
    QuoteOrLineEnd(s, k) < |s| && s[QuoteOrLineEnd(s, k)] == '"'
  }

  /** The two regular expressions the passes replace with. */
  datatype Form =
    | RequireCall            // require\("(.*)"\)
    | ImportOf(name: string) // import\s<name>\sfrom\s"(.*?)"

  const RequireOpen: string := "require(\""
  const QuoteParen: string := "\")"

  /** The length of `import <name> from "`. */
  function HeadLength(name: string): nat {
    |name| + 14
  }

  /** `s` begins with `import\s<name>\sfrom\s"`. */
  predicate ImportHead(s: string, name: string) {
    var n := |name|;
    |s| >= HeadLength(name)
    && s[..6] == "import" && IsJsSpace(s[6]) && s[7..7 + n] == name
    && IsJsSpace(s[7 + n]) && s[8 + n..12 + n] == "from" && IsJsSpace(s[12 + n])
    && s[13 + n] == '"'
  }

  /**
   * The length of the match of `form` anchored at the start of `s`, if any.
   * The greedy form ends at the last `")` of the line, the lazy one at the
   * first `"` after the opening quote.
   */
  function MatchEnd(s: string, form: Form): (r: Option<nat>)
    ensures r.Some? ==> 0 < r.value <= |s|
  {
    match form
    case RequireCall =>
      if !StartsWith(s, RequireOpen) then None
      else
        (match LastOccurrence(s, QuoteParen, 9, LineEnd(s, 9))
         case None => None
         case Some(j) => Some(j + 2))
    case ImportOf(name) =>
      if !ImportHead(s, name) then None
      else
        var q := QuoteOrLineEnd(s, HeadLength(name));
        if q < |s| && s[q] == '"' then Some(q + 1) else None
  }

  /**
   * The greedy form: a match is `require("` followed by the longest stretch of
   * the same line that ends in `")`; there is none when the line holds no `")`
   * after the opening.
   */
  lemma RequireMatch(s: string)
    ensures MatchEnd(s, RequireCall).Some? ==>
      var e := MatchEnd(s, RequireCall).value;
      && StartsWith(s, RequireOpen) && e >= 11
      && OccursAt(s, QuoteParen, e - 2) && OnOneLine(s, 9, e)
      && (forall j :: e - 2 < j && j + 2 <= |s| && OnOneLine(s, 9, j + 2) ==> !OccursAt(s, QuoteParen, j))
    ensures MatchEnd(s, RequireCall).None? ==>
      !StartsWith(s, RequireOpen)
      || (forall j :: 9 <= j && j + 2 <= |s| && OnOneLine(s, 9, j + 2) ==> !OccursAt(s, QuoteParen, j))
  {
    if StartsWith(s, RequireOpen) {
      var le := LineEnd(s, 9);
      match LastOccurrence(s, QuoteParen, 9, le)
      case None =>
        forall j | 9 <= j && j + 2 <= |s| && OnOneLine(s, 9, j + 2) ensures !OccursAt(s, QuoteParen, j) {
          OnOneLineIffBeforeLineEnd(s, 9, j + 2);
        }
      case Some(j) =>
        forall i | j < i && i + 2 <= |s| && OnOneLine(s, 9, i + 2) ensures !OccursAt(s, QuoteParen, i) {
          OnOneLineIffBeforeLineEnd(s, 9, i + 2);
        }
        OnOneLineIffBeforeLineEnd(s, 9, j + 2);
    }
  }

  /**
   * The lazy form: a match is `import\s<name>\sfrom\s"` followed by the
   * shortest stretch of the same line that ends in `"`.
   */
  lemma ImportMatch(s: string, name: string)
    ensures MatchEnd(s, ImportOf(name)).Some? ==>
      var e := MatchEnd(s, ImportOf(name)).value;
      && ImportHead(s, name) && e > HeadLength(name)
      && s[e - 1] == '"' && OnOneLine(s, HeadLength(name), e)
      && (forall j :: HeadLength(name) <= j < e - 1 ==> s[j] != '"')
    ensures MatchEnd(s, ImportOf(name)).None? ==> !ImportHead(s, name) || !ClosesOnLine(s, HeadLength(name))
  {
  }

  /**
   * `s.replace(/form/g, f)`: matches are found left to right, each replaced by
   * `f` of the matched text, and scanning resumes after the match.
   */
  function ReplaceMatches(s: string, form: Form, f: string -> string): string
    decreases |s|
  {
    if |s| == 0 then ""
    else
      var e := Advance(s, form);
      (if MatchEnd(s, form).Some? then f(s[..e]) else s[..e]) + ReplaceMatches(s[e..], form, f)
  }

  /** Every match the scan of `s` meets is left as it is by `f`. */
  predicate FixesEveryMatch(s: string, form: Form, f: string -> string)
    decreases |s|
  {
    if |s| == 0 then true
    else
      var e := Advance(s, form);
      (MatchEnd(s, form).Some? ==> f(s[..e]) == s[..e]) && FixesEveryMatch(s[e..], form, f)
  }

  /** A replacement that leaves every match alone leaves the text alone. */
  lemma {:induction false} ReplaceMatchesFixed(s: string, form: Form, f: string -> string)
    requires FixesEveryMatch(s, form, f)
    ensures ReplaceMatches(s, form, f) == s
    decreases |s|
  {
    if |s| > 0 {
      var e := Advance(s, form);
      ReplaceMatchesFixed(s[e..], form, f);
      assert s == s[..e] + s[e..];
    }
  }

  /** How far one step of the scan moves: past the match, or one character. */
  function Advance(s: string, form: Form): (r: nat)
    requires |s| > 0
    ensures 0 < r <= |s|
  {
    match MatchEnd(s, form)
    case Some(e) => e
    case None => 1
  }

  /** The word every match of `form` begins with. */
  function Opening(form: Form): string {
    match form
    case RequireCall => RequireOpen
    case ImportOf(_) => "import"
  }

  /** Text in which the opening word never occurs has no match, so every match is fixed. */
  lemma {:induction false} NoOpeningFixes(s: string, form: Form, f: string -> string)
    requires !Contains(s, Opening(form))
    ensures FixesEveryMatch(s, form, f)
    decreases |s|
  {
    if |s| > 0 {
      ContainsInSuffix(s, Opening(form), 1);
      assert StartsWith(s, Opening(form)) ==> OccursAt(s, Opening(form), 0);
      assert form.ImportOf? && ImportHead(s, form.name) ==> OccursAt(s, "import", 0);
      assert MatchEnd(s, form).None?;
      NoOpeningFixes(s[1..], form, f);
    }
  }
}
