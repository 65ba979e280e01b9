/**
 * The sentinel escape around the script and template passes: every escaped
 * quote `\"` of the generated code is replaced by a sentinel before the
 * `require("...")` patterns are matched, so an escaped quote cannot end a
 * match, and the sentinel is turned back into `\"` afterwards.
 */
module Sentinels {
  import opened Strings

  /** The two characters `\"`. */
  const EscapedQuote: string := ['\\', '"']

  /** The sentinel of the script pass. */
  const ScriptSentinel: string := "$VUX$"

  /** The sentinel of the template pass. */
  const TemplateSentinel: string := "__VUX__"

  /** The marker both sentinels carry; text containing it may not survive the round trip. */
  const Marker: string := "VUX"

  predicate IsSentinel(w: string) {
    w == ScriptSentinel || w == TemplateSentinel
  }

  /** `s.replace(/\\"/g, w)`. */
  function Escape(s: string, w: string): (r: string)
    requires IsSentinel(w)
    ensures !Contains(s, EscapedQuote) ==> r == s
  {
    ReplaceAll(s, EscapedQuote, w)
  }

  /** `t.replace(/<w>/g, '\\"')`. */
  function Unescape(t: string, w: string): (r: string)
    requires IsSentinel(w)
    ensures !Contains(t, w) ==> r == t
  {
    ReplaceAll(t, w, EscapedQuote)
  }

  /** Peeling the first character off `[c] + x`. */
  lemma StartsWithCons(c: char, x: string, u: string)
    requires |u| > 0
    ensures StartsWith([c] + x, u) <==> c == u[0] && StartsWith(x, u[1..])
  {
    if StartsWith([c] + x, u) {
      assert ([c] + x)[1..|u|] == x[..|u| - 1];
      assert u[1..] == u[1..|u|];
    }
    if c == u[0] && StartsWith(x, u[1..]) {
      assert ([c] + x)[..|u|] == [c] + x[..|u| - 1];
    }
  }

  /**
   * A prefix of the escaped text that cannot begin a sentinel was already a
   * prefix of the text.
   */
  lemma {:induction false} EscapedPrefix(t: string, w: string, u: string)
    requires IsSentinel(w) && w[0] !in u
    ensures StartsWith(Escape(t, w), u) ==> StartsWith(t, u)
    decreases |u|
  {
    if |u| > 0 && |t| > 0 {
      if StartsWith(t, EscapedQuote) {
        assert Escape(t, w)[0] == w[0];
      } else {
        var x := Escape(t[1..], w);
        assert Escape(t, w) == [t[0]] + x;
        EscapedPrefix(t[1..], w, u[1..]);
        StartsWithCons(t[0], x, u);
        StartsWithCons(t[0], t[1..], u);
        assert [t[0]] + t[1..] == t;
      }
    }
  }

  lemma NoMarkerAt(s: string, k: nat)
    requires k <= |s| && !Contains(s, Marker)
    ensures !StartsWith(s[k..], Marker)
    ensures !Contains(s[k..], Marker)
  {
    ContainsInSuffix(s, Marker, k);
    assert StartsWith(s[k..], Marker) ==> OccursAt(s[k..], Marker, 0);
  }

  /** With no marker in the text, an unescaped character followed by escaped text cannot begin a sentinel. */
  lemma HeadNotSentinel(s: string, w: string)
    requires IsSentinel(w) && |s| > 0 && !StartsWith(s, EscapedQuote) && !Contains(s, Marker)
    ensures !StartsWith([s[0]] + Escape(s[1..], w), w)
  {
    var x := Escape(s[1..], w);
    StartsWithCons(s[0], x, w);
    if w == ScriptSentinel {
      NoMarkerAt(s, 1);
      EscapedPrefix(s[1..], w, Marker);
      assert StartsWith(x, w[1..]) ==> StartsWith(x, Marker) by {
        assert w[1..][..3] == Marker;
      }
    } else {
      var s1 := s[1..];
      if |s1| == 0 {
        assert x == "";
      } else if StartsWith(s1, EscapedQuote) {
        assert x[..|w|] == w;
        assert x[1] == '_';
      } else {
        var y := Escape(s1[1..], w);
        assert x == [s1[0]] + y;
        StartsWithCons(s1[0], y, w[1..]);
        NoMarkerAt(s, 2);
        assert s1[1..] == s[2..];
        EscapedPrefix(s1[1..], w, Marker);
        assert StartsWith(y, w[1..][1..]) ==> StartsWith(y, Marker) by {
          assert w[1..][1..][..3] == Marker;
        }
      }
    }
  }

  /**
   * Escaping and unescaping gives the text back, for either sentinel, when the
   * text does not contain the marker `VUX`.
   */
  lemma {:induction false} EscapeRoundTrip(s: string, w: string)
    requires IsSentinel(w) && !Contains(s, Marker)
    ensures Unescape(Escape(s, w), w) == s
    decreases |s|
  {
    if |s| > 0 {
      if StartsWith(s, EscapedQuote) {
        NoMarkerAt(s, 2);
        EscapeRoundTrip(s[2..], w);
        var x := Escape(s[2..], w);
        assert Escape(s, w) == w + x;
        assert StartsWith(w + x, w) && (w + x)[|w|..] == x;
        assert Unescape(w + x, w) == EscapedQuote + Unescape(x, w);
        assert s == EscapedQuote + s[2..];
      } else {
        NoMarkerAt(s, 1);
        EscapeRoundTrip(s[1..], w);
        HeadNotSentinel(s, w);
        var x := Escape(s[1..], w);
        assert Escape(s, w) == [s[0]] + x;
        assert ([s[0]] + x)[1..] == x;
        assert Unescape([s[0]] + x, w) == [s[0]] + Unescape(x, w);
        assert s == [s[0]] + s[1..];
      }
    }
  }

  /** The sentinel itself holds no escaped quote. */
  lemma SentinelHasNoQuote()
    ensures !Contains(ScriptSentinel, EscapedQuote)
  {
    forall i | 0 <= i <= |ScriptSentinel| - |EscapedQuote| ensures !OccursAt(ScriptSentinel, EscapedQuote, i) {
      assert ScriptSentinel[i] != '\\';
    }
  }

  /**
   * The text that shows the marker condition is needed: the text `$VUX$`
   * holds no escaped quote, so escaping leaves it alone, and unescaping turns
   * it into `\"`.
   */
  lemma MarkerBreaksRoundTrip()
    ensures Escape(ScriptSentinel, ScriptSentinel) == ScriptSentinel
    ensures Unescape(Escape(ScriptSentinel, ScriptSentinel), ScriptSentinel) == EscapedQuote
  {
    SentinelHasNoQuote();
    var w := ScriptSentinel;
    assert w[..|w|] == w && w[|w|..] == [];
    assert Unescape(w, w) == EscapedQuote + Unescape([], w);
  }

  /** `m` shares no character with `w`. */
  predicate Disjoint(m: string, w: string) {
    forall i :: 0 <= i < |w| ==> w[i] !in m
  }

  /** An occurrence right after a prefix of foreign characters lies past the prefix. */
  lemma OccurrencePastPrefix(w: string, x: string, m: string)
    requires |m| > 0 && Disjoint(m, w)
    ensures Contains(w + x, m) ==> Contains(x, m)
  {
    if Contains(w + x, m) {
      var i :| 0 <= i <= |w + x| - |m| && OccursAt(w + x, m, i);
      assert (w + x)[i] == m[0];
      assert i >= |w|;
      assert (w + x)[i..i + |m|] == x[i - |w|..i - |w| + |m|];
      assert OccursAt(x, m, i - |w|);
    }
  }

  /** An occurrence in `[c] + x` past its first character is an occurrence in `x`. */
  lemma OccurrenceInTail(c: char, x: string, m: string, i: int)
    requires 1 <= i && OccursAt([c] + x, m, i)
    ensures Contains(x, m)
  {
    assert ([c] + x)[i..i + |m|] == x[i - 1..i - 1 + |m|];
    assert OccursAt(x, m, i - 1);
  }

  /** A text with no character of the sentinel that begins the escaped text began the text. */
  lemma HeadOccurrence(s: string, w: string, m: string)
    requires IsSentinel(w) && |m| > 0 && Disjoint(m, w) && |s| > 0 && !StartsWith(s, EscapedQuote)
    requires OccursAt([s[0]] + Escape(s[1..], w), m, 0)
    ensures Contains(s, m)
  {
    var x := Escape(s[1..], w);
    assert StartsWith([s[0]] + x, m);
    StartsWithCons(s[0], x, m);
    assert w[0] !in m[1..];
    EscapedPrefix(s[1..], w, m[1..]);
    StartsWithCons(s[0], s[1..], m);
    assert [s[0]] + s[1..] == s;
    assert OccursAt(s, m, 0);
  }

  /**
   * Escaping creates no occurrence of a text that shares no character with the
   * sentinel: the scan patterns `require("` and `import` are found in the
   * escaped text only where they were in the original.
   */
  lemma {:induction false} EscapeKeepsAbsence(s: string, w: string, m: string)
    requires IsSentinel(w) && |m| > 0 && Disjoint(m, w)
    ensures Contains(Escape(s, w), m) ==> Contains(s, m)
    decreases |s|
  {
    if |s| > 0 {
      if StartsWith(s, EscapedQuote) {
        var x := Escape(s[2..], w);
        assert Escape(s, w) == w + x;
        OccurrencePastPrefix(w, x, m);
        EscapeKeepsAbsence(s[2..], w, m);
        ContainsInSuffix(s, m, 2);
      } else {
        var x := Escape(s[1..], w);
        assert Escape(s, w) == [s[0]] + x;
        EscapeKeepsAbsence(s[1..], w, m);
        ContainsInSuffix(s, m, 1);
        if Contains([s[0]] + x, m) {
          var i :| 0 <= i <= |[s[0]] + x| - |m| && OccursAt([s[0]] + x, m, i);
          if i == 0 {
            HeadOccurrence(s, w, m);
          } else {
            OccurrenceInTail(s[0], x, m, i);
          }
        }
      }
    }
  }
}
