/**
 * A loader chain written as one string: loader requests separated by `!`,
 * applied right to left. The rewriting passes split a chain into its
 * segments, rewrite every segment on its own, and join the results again.
 */
module LoaderChain {
  import opened Strings

  /** The chain separator. */
  const Bang: char := '!'

  /** The segments of a chain string, as `s.split('!')`. */
  function Segments(s: string): (r: seq<string>)
    ensures |r| >= 1
  {
    Split(s, [Bang])
  }

  /** A chain string from its segments, as `segments.join('!')`. */
  function Chain(segments: seq<string>): string {
    Join(segments, [Bang])
  }

  /** A loader request that can stand as one segment of a chain. */
  predicate IsSegment(s: string) {
    Bang !in s
  }

  /** Every element is a single segment. */
  predicate AllSegments(segments: seq<string>) {
    forall i :: 0 <= i < |segments| ==> IsSegment(segments[i])
  }

  /** `segments.map(f)`. */
  function MapSeq(segments: seq<string>, f: string -> string): (r: seq<string>)
    ensures |r| == |segments|
    ensures forall i :: 0 <= i < |segments| ==> r[i] == f(segments[i])
  {
    if |segments| == 0 then [] else [f(segments[0])] + MapSeq(segments[1..], f)
  }

  /** Every segment replaced by the list of segments `f` makes of it, in order. */
  function ConcatMap(segments: seq<string>, f: string -> seq<string>): seq<string>
  {
    if |segments| == 0 then [] else f(segments[0]) + ConcatMap(segments[1..], f)
  }

  /** The chain without the segments in `loaders`: what is left once inserted loaders are taken out. */
  function Strip(segments: seq<string>, loaders: set<string>): (r: seq<string>)
    ensures |r| <= |segments|
    ensures forall x :: x in r <==> x in segments && x !in loaders
  {
    if |segments| == 0 then []
    else (if segments[0] in loaders then [] else [segments[0]]) + Strip(segments[1..], loaders)
  }

  lemma {:induction false} StripAppend(a: seq<string>, b: seq<string>, loaders: set<string>)
    ensures Strip(a + b, loaders) == Strip(a, loaders) + Strip(b, loaders)
  {
    if |a| == 0 {
      assert a + b == b;
    } else {
      assert (a + b)[1..] == a[1..] + b;
      StripAppend(a[1..], b, loaders);
    }
  }

  lemma JoinAppend(a: seq<string>, b: seq<string>)
    requires |a| >= 1 && |b| >= 1
    ensures Chain(a + b) == Chain(a) + [Bang] + Chain(b)
  {
    if |a| == 1 {
      JoinCons(a[0], b, [Bang]);
      assert a + b == [a[0]] + b;
    } else {
      assert (a + b)[1..] == a[1..] + b;
      JoinAppend(a[1..], b);
      JoinCons(a[0], a[1..] + b, [Bang]);
      JoinCons(a[0], a[1..], [Bang]);
      assert a + b == [a[0]] + (a[1..] + b);
      assert a == [a[0]] + a[1..];
    }
  }

  /**
   * Rewriting every segment into a string and joining is the same as expanding
   * every segment into segments and joining once, when each string is the
   * join of its expansion.
   */
  lemma {:induction false} ChainOfMap(segments: seq<string>, f: string -> string, g: string -> seq<string>)
    requires forall i :: 0 <= i < |segments| ==> |g(segments[i])| >= 1 && f(segments[i]) == Chain(g(segments[i]))
    ensures Chain(MapSeq(segments, f)) == Chain(ConcatMap(segments, g))
    ensures |segments| >= 1 ==> |ConcatMap(segments, g)| >= 1
    decreases |segments|
  {
    if |segments| > 0 {
      var rest := segments[1..];
      ChainOfMap(rest, f, g);
      assert MapSeq(segments, f) == [f(segments[0])] + MapSeq(rest, f);
      JoinCons(f(segments[0]), MapSeq(rest, f), [Bang]);
      if |rest| > 0 {
        JoinAppend(g(segments[0]), ConcatMap(rest, g));
      } else {
        assert ConcatMap(segments, g) == g(segments[0]);
      }
    }
  }

  /** Every element of an expansion comes from the expansion of one segment. */
  lemma {:induction false} ConcatMapSegments(segments: seq<string>, g: string -> seq<string>)
    requires forall i :: 0 <= i < |segments| ==> AllSegments(g(segments[i]))
    ensures AllSegments(ConcatMap(segments, g))
    decreases |segments|
  {
    if |segments| > 0 {
      ConcatMapSegments(segments[1..], g);
      var a, b := g(segments[0]), ConcatMap(segments[1..], g);
      assert forall i :: 0 <= i < |a + b| ==> (a + b)[i] == (if i < |a| then a[i] else b[i - |a|]);
    }
  }

  /**
   * The chain-level meaning of a per-segment rewrite: splitting the rewritten
   * chain gives exactly the expanded segment list.
   */
  lemma RewrittenSegments(s: string, f: string -> string, g: string -> seq<string>)
    requires forall i :: 0 <= i < |Segments(s)| ==>
      |g(Segments(s)[i])| >= 1 && f(Segments(s)[i]) == Chain(g(Segments(s)[i])) && AllSegments(g(Segments(s)[i]))
    ensures Segments(Chain(MapSeq(Segments(s), f))) == ConcatMap(Segments(s), g)
  {
    var segs := Segments(s);
    ChainOfMap(segs, f, g);
    ConcatMapSegments(segs, g);
    SplitJoin(ConcatMap(segs, g), Bang);
  }

  /**
   * Taking the inserted loaders out of an expansion leaves the segments as `h`
   * rewrote them: insertion around a segment changes nothing else.
   */
  lemma {:induction false} StripConcatMap(segments: seq<string>, g: string -> seq<string>, h: string -> string, loaders: set<string>)
    requires forall i :: 0 <= i < |segments| ==> Strip(g(segments[i]), loaders) == Strip([h(segments[i])], loaders)
    ensures Strip(ConcatMap(segments, g), loaders) == Strip(MapSeq(segments, h), loaders)
    decreases |segments|
  {
    if |segments| > 0 {
      StripConcatMap(segments[1..], g, h, loaders);
      StripAppend(g(segments[0]), ConcatMap(segments[1..], g), loaders);
      StripAppend([h(segments[0])], MapSeq(segments[1..], h), loaders);
      assert MapSeq(segments, h) == [h(segments[0])] + MapSeq(segments[1..], h);
    }
  }

  lemma MapSeqAppend(a: seq<string>, b: seq<string>, h: string -> string)
    ensures MapSeq(a + b, h) == MapSeq(a, h) + MapSeq(b, h)
  {
    var l, r := MapSeq(a + b, h), MapSeq(a, h) + MapSeq(b, h);
    assert forall i :: 0 <= i < |a| ==> l[i] == r[i];
    assert forall i :: |a| <= i < |a + b| ==> (a + b)[i] == b[i - |a|] && l[i] == r[i];
  }

  /**
   * Two expansions that agree segment by segment once `h` is applied agree as
   * a whole once `h` is applied.
   */
  lemma {:induction false} ConcatMapAgree(segments: seq<string>, g1: string -> seq<string>, g2: string -> seq<string>, h: string -> string)
    requires forall i :: 0 <= i < |segments| ==> MapSeq(g1(segments[i]), h) == MapSeq(g2(segments[i]), h)
    ensures MapSeq(ConcatMap(segments, g1), h) == MapSeq(ConcatMap(segments, g2), h)
    decreases |segments|
  {
    if |segments| > 0 {
      ConcatMapAgree(segments[1..], g1, g2, h);
      MapSeqAppend(g1(segments[0]), ConcatMap(segments[1..], g1), h);
      MapSeqAppend(g2(segments[0]), ConcatMap(segments[1..], g2), h);
    }
  }

  /** Splitting a chain and joining it again gives back the chain. */
  lemma ChainOfSegments(s: string)
    ensures Chain(Segments(s)) == s
    ensures AllSegments(Segments(s))
  {
    JoinSplit(s, [Bang]);
    SplitPiecesFree(s, Bang);
  }
}
