/**
 * The string operations the source applies to generated code: substring tests,
 * `indexOf`, `split`/`join`, and `replace` of the first or of every occurrence.
 * Strings are sequences of characters, as in the source's JavaScript strings.
 */
module Strings {

  /** `s` begins with `p`. */
  predicate StartsWith(s: string, p: string) {
    |p| <= |s| && s[..|p|] == p
  }

  /** `t` occurs in `s` at index `i`. */
  predicate OccursAt(s: string, t: string, i: int) {
    0 <= i && i + |t| <= |s| && s[i..i + |t|] == t
  }

  /** `t` occurs somewhere in `s`: the source's `/t/.test(s)` for a literal pattern `t`. */
  predicate Contains(s: string, t: string) {
    exists i :: 0 <= i <= |s| - |t| && OccursAt(s, t, i)
  }

  /** `s.indexOf(p)`: the first index at which `p` occurs, or -1. */
  function IndexOf(s: string, p: string): (r: int)
    ensures r == -1 <==> !Contains(s, p)
    ensures r != -1 ==> OccursAt(s, p, r)
    ensures r != -1 ==> forall j :: 0 <= j < r ==> !OccursAt(s, p, j)
  {
    IndexFrom(s, p, 0)
  }

  /** The first occurrence of `p` in `s` at or after index `k`, or -1. */
  function IndexFrom(s: string, p: string, k: nat): (r: int)
    requires forall j :: 0 <= j < k ==> !OccursAt(s, p, j)
    ensures r == -1 <==> !Contains(s, p)
    ensures r != -1 ==> k <= r && OccursAt(s, p, r)
    ensures r != -1 ==> forall j :: 0 <= j < r ==> !OccursAt(s, p, j)
    decreases |s| - k
  {
    if k + |p| > |s| then -1
    else if OccursAt(s, p, k) then k
    else IndexFrom(s, p, k + 1)
  }

  /**
   * `s.replace(p, rep)` with a string pattern: only the first occurrence of `p`
   * is replaced; `rep` is taken literally.
   */
  function ReplaceFirst(s: string, p: string, rep: string): (r: string)
    ensures !Contains(s, p) ==> r == s
    ensures Contains(s, p) ==> |r| == |s| - |p| + |rep|
    ensures Contains(s, p) ==>
      var i := IndexOf(s, p);
      && r[..i] == s[..i]
      && r[i..i + |rep|] == rep
      && r[i + |rep|..] == s[i + |p|..]
  {
    var i := IndexOf(s, p);
    if i == -1 then s else s[..i] + rep + s[i + |p|..]
  }

  /**
   * `s.replace(/p/g, rep)` for a literal, non-empty pattern: occurrences are found
   * left to right and do not overlap; `rep` is taken literally.
   */
  function ReplaceAll(s: string, p: string, rep: string): (r: string)
    requires |p| > 0
    ensures !Contains(s, p) ==> r == s
    decreases |s|
  {
    if |s| == 0 then s
    else if StartsWith(s, p) then
      assert OccursAt(s, p, 0);
      rep + ReplaceAll(s[|p|..], p, rep)
    else
      ContainsInSuffix(s, p, 1);
      [s[0]] + ReplaceAll(s[1..], p, rep)
  }

  /** `s.split(d)` for a non-empty separator: the pieces between occurrences of `d`. */
  function Split(s: string, d: string): (r: seq<string>)
    requires |d| > 0
    ensures |r| >= 1
    decreases |s|
  {
    if |s| == 0 then [""]
    else if StartsWith(s, d) then [""] + Split(s[|d|..], d)
    else
      var rest := Split(s[1..], d);
      [[s[0]] + rest[0]] + rest[1..]
  }

  /** `parts.join(sep)`. */
  function Join(parts: seq<string>, sep: string): string
    decreases |parts|
  {
    if |parts| == 0 then ""
    else if |parts| == 1 then parts[0]
    else parts[0] + sep + Join(parts[1..], sep)
  }

  /** An occurrence in a suffix is an occurrence in the whole string. */
  lemma ContainsInSuffix(s: string, t: string, k: nat)
    requires k <= |s|
    ensures Contains(s[k..], t) ==> Contains(s, t)
  {
    if Contains(s[k..], t) {
      var i :| 0 <= i <= |s[k..]| - |t| && OccursAt(s[k..], t, i);
      assert s[k..][i..i + |t|] == s[k + i..k + i + |t|];
      assert OccursAt(s, t, k + i);
    }
  }

  /** An occurrence in a prefix is an occurrence in the whole string. */
  lemma ContainsInPrefix(s: string, t: string, k: nat)
    requires k <= |s|
    ensures Contains(s[..k], t) ==> Contains(s, t)
  {
    if Contains(s[..k], t) {
      var i :| 0 <= i <= |s[..k]| - |t| && OccursAt(s[..k], t, i);
      assert s[..k][i..i + |t|] == s[i..i + |t|];
      assert OccursAt(s, t, i);
    }
  }

  /**
   * An occurrence in `p + w + q` lies inside `w` when its first character
   * cannot occur in `p` and its last character cannot occur in `q`.
   */
  lemma ContainsInMiddle(p: string, w: string, q: string, m: string)
    requires |m| > 0 && m[0] !in p && m[|m| - 1] !in q
    ensures Contains(p + w + q, m) ==> Contains(w, m)
  {
    var s := p + w + q;
    if Contains(s, m) {
      var i :| 0 <= i <= |s| - |m| && OccursAt(s, m, i);
      var e := i + |m| - 1;
      assert s[i] == m[0] by { assert s[i..i + |m|][0] == s[i]; }
      assert s[e] == m[|m| - 1] by { assert s[i..i + |m|][|m| - 1] == s[e]; }
      assert forall k :: 0 <= k < |p| ==> s[k] == p[k];
      assert forall k :: 0 <= k < |q| ==> s[|p| + |w| + k] == q[k];
      if i < |p| || e >= |p| + |w| {
        assert false;
      }
      assert s[i..i + |m|] == w[i - |p|..i - |p| + |m|];
      assert OccursAt(w, m, i - |p|);
    }
  }

  /** Replacing one character by another, position by position. */
  lemma {:induction false} ReplaceCharPointwise(s: string, c: char, d: char)
    ensures |ReplaceAll(s, [c], [d])| == |s|
    ensures forall i :: 0 <= i < |s| ==> ReplaceAll(s, [c], [d])[i] == if s[i] == c then d else s[i]
    decreases |s|
  {
    if |s| > 0 {
      ReplaceCharPointwise(s[1..], c, d);
      assert s[..1] == [s[0]];
    }
  }

  /** The reference reading of replace-all: split on the pattern and join with the replacement. */
  lemma {:induction false} SplitJoinIsReplaceAll(s: string, d: string, rep: string)
    requires |d| > 0
    ensures Join(Split(s, d), rep) == ReplaceAll(s, d, rep)
    decreases |s|
  {
    if |s| == 0 {
    } else if StartsWith(s, d) {
      SplitJoinIsReplaceAll(s[|d|..], d, rep);
      SplitJoinAtPattern(s, d, rep);
    } else {
      SplitJoinIsReplaceAll(s[1..], d, rep);
      SplitJoinAtChar(s, d, rep);
    }
  }

  /** One step of `SplitJoinIsReplaceAll` where `s` starts with the pattern. */
  lemma SplitJoinAtPattern(s: string, d: string, rep: string)
    requires |d| > 0 && |s| > 0 && StartsWith(s, d)
    requires Join(Split(s[|d|..], d), rep) == ReplaceAll(s[|d|..], d, rep)
    ensures Join(Split(s, d), rep) == ReplaceAll(s, d, rep)
  {
    var rest := Split(s[|d|..], d);
    assert Split(s, d) == [""] + rest;
    JoinCons("", rest, rep);
    assert "" + rep + Join(rest, rep) == rep + Join(rest, rep);
    ReplaceAllAtStart(s, d, rep);
  }

  /** Replacing where the text starts with the pattern: the replacement, then the rest replaced. */
  lemma ReplaceAllAtStart(s: string, d: string, rep: string)
    requires |d| > 0 && StartsWith(s, d)
    ensures ReplaceAll(s, d, rep) == rep + ReplaceAll(s[|d|..], d, rep)
  {
  }

  /** One step of `SplitJoinIsReplaceAll` where `s` does not start with the pattern. */
  lemma SplitJoinAtChar(s: string, d: string, rep: string)
    requires |d| > 0 && |s| > 0 && !StartsWith(s, d)
    requires Join(Split(s[1..], d), rep) == ReplaceAll(s[1..], d, rep)
    ensures Join(Split(s, d), rep) == ReplaceAll(s, d, rep)
  {
    var rest := Split(s[1..], d);
    assert Split(s, d) == [[s[0]] + rest[0]] + rest[1..];
    JoinHeadCons(s[0], rest, rep);
    assert ReplaceAll(s, d, rep) == [s[0]] + ReplaceAll(s[1..], d, rep);
  }

  /** A character put in front of the first piece lands in front of the join. */
  lemma JoinHeadCons(c: char, rest: seq<string>, rep: string)
    requires |rest| >= 1
    ensures Join([[c] + rest[0]] + rest[1..], rep) == [c] + Join(rest, rep)
  {
    var head, tail := rest[0], rest[1..];
    assert rest == [head] + tail;
    JoinCons(head, tail, rep);
    JoinCons([c] + head, tail, rep);
    if |tail| > 0 {
      var t := Join(tail, rep);
      assert ([c] + head) + rep + t == [c] + (head + rep + t);
    }
  }

  /** Joining a non-empty list: the head, then the separator, then the joined tail. */
  lemma JoinCons(head: string, tail: seq<string>, sep: string)
    ensures Join([head] + tail, sep) == if |tail| == 0 then head else head + sep + Join(tail, sep)
  {
    assert ([head] + tail)[1..] == tail;
  }

  /** Replacing a pattern by itself changes nothing. */
  lemma {:induction false} ReplaceAllSelf(s: string, d: string)
    requires |d| > 0
    ensures ReplaceAll(s, d, d) == s
    decreases |s|
  {
    if |s| == 0 {
    } else if StartsWith(s, d) {
      ReplaceAllSelf(s[|d|..], d);
      assert s == s[..|d|] + s[|d|..];
    } else {
      ReplaceAllSelf(s[1..], d);
      assert s == [s[0]] + s[1..];
    }
  }

  /** Joining the pieces of a split with the same separator gives back the string. */
  lemma JoinSplit(s: string, d: string)
    requires |d| > 0
    ensures Join(Split(s, d), d) == s
  {
    SplitJoinIsReplaceAll(s, d, d);
    ReplaceAllSelf(s, d);
  }

  /** A string without the separator splits into itself. */
  lemma {:induction false} SplitNoSeparator(x: string, c: char)
    requires c !in x
    ensures Split(x, [c]) == [x]
    decreases |x|
  {
    if |x| > 0 {
      assert !StartsWith(x, [c]) by { assert x[0] != c; }
      assert c !in x[1..];
      SplitNoSeparator(x[1..], c);
      assert [x[0]] + x[1..] == x;
    }
  }

  /** A separator-free head followed by the separator splits off as one piece. */
  lemma {:induction false} SplitHead(x: string, c: char, y: string)
    requires c !in x
    ensures Split(x + [c] + y, [c]) == [x] + Split(y, [c])
    decreases |x|
  {
    var s := x + [c] + y;
    if |x| == 0 {
      assert s == [c] + y;
      assert StartsWith(s, [c]);
      assert s[1..] == y;
    } else {
      assert !StartsWith(s, [c]) by { assert s[0] == x[0]; }
      assert s[1..] == x[1..] + [c] + y;
      assert c !in x[1..];
      SplitHead(x[1..], c, y);
      assert [x[0]] + x[1..] == x;
    }
  }

  /** Splitting a join of separator-free pieces gives back the pieces. */
  lemma {:induction false} SplitJoin(parts: seq<string>, c: char)
    requires |parts| >= 1
    requires forall i :: 0 <= i < |parts| ==> c !in parts[i]
    ensures Split(Join(parts, [c]), [c]) == parts
    decreases |parts|
  {
    if |parts| == 1 {
      SplitNoSeparator(parts[0], c);
    } else {
      SplitJoin(parts[1..], c);
      SplitHead(parts[0], c, Join(parts[1..], [c]));
      assert [parts[0]] + parts[1..] == parts;
    }
  }

  /** Every piece of a split on a single character is free of that character. */
  lemma {:induction false} SplitPiecesFree(s: string, c: char)
    ensures forall i :: 0 <= i < |Split(s, [c])| ==> c !in Split(s, [c])[i]
    decreases |s|
  {
    if |s| > 0 {
      SplitPiecesFree(s[1..], c);
      if !StartsWith(s, [c]) {
        assert s[0] != c by { assert s[..1] == [s[0]]; }
      }
    }
  }
}
