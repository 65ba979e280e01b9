/**
 * Framework plugin descriptors and the framework options object (`vuxConfig`):
 * normalisation of the supplied plugin list, the duplicate-name check, the
 * lookup helpers, the merge with a previously recorded configuration (the
 * `allPlugins` registry) and the environment filter.
 */
module Plugins {
  import opened Wrappers
  import opened JsValues

  /** A plugin descriptor `{name, ...}`; `envs`, `options`, `fn`, `path`, ... are fields. */
  datatype Plugin = Plugin(name: string, fields: Options)

  /** An entry of the supplied plugin list: a bare name or a descriptor object. */
  datatype PluginEntry = NameOnly(name: string) | Descriptor(plugin: Plugin)

  /**
   * The framework options object after normalisation: its settings, the active
   * plugin list, and the registry of every plugin seen across merges.
   */
  datatype VuxConfig = VuxConfig(options: Options, plugins: seq<Plugin>, allPlugins: seq<Plugin>)

  /** The framework options object as the caller passes it; `None` fields are absent. */
  datatype VuxInput = VuxInput(options: Option<Options>, plugins: Option<seq<PluginEntry>>)

  function EntryName(e: PluginEntry): string {
    match e
    case NameOnly(n) => n
    case Descriptor(p) => p.name
  }

  /** The set of names in a plugin list. */
  function Names(ps: seq<Plugin>): set<string> {
    set i | 0 <= i < |ps| :: ps[i].name
  }

  /** No name occurs twice. */
  predicate NamesDistinct(ps: seq<Plugin>) {
    forall i, j :: 0 <= i < j < |ps| ==> ps[i].name != ps[j].name
  }

  /** The plugins of a list named `name`, in order: `list.filter(one => one.name === name)`. */
  function Matching(ps: seq<Plugin>, name: string): (r: seq<Plugin>)
    ensures |r| <= |ps|
    ensures forall p :: p in r <==> p in ps && p.name == name
  {
    if |ps| == 0 then []
    else (if ps[0].name == name then [ps[0]] else []) + Matching(ps[1..], name)
  }

  /** `hasPlugin(name, list)`. */
  predicate HasPlugin(name: string, ps: seq<Plugin>) {
    |Matching(ps, name)| > 0
  }

  lemma HasPluginIffNamed(name: string, ps: seq<Plugin>)
    ensures HasPlugin(name, ps) <==> name in Names(ps)
  {
    if HasPlugin(name, ps) {
      var p := Matching(ps, name)[0];
      assert p in Matching(ps, name);
      var i :| 0 <= i < |ps| && ps[i] == p;
    }
  }

  /**
   * `getFirstPlugin(name, list)` and `getOnePlugin(name, list)`: the first plugin
   * with that name; `None` stands for their `undefined` and `null`.
   */
  function FirstPlugin(name: string, ps: seq<Plugin>): (r: Option<Plugin>)
    ensures r.Some? <==> HasPlugin(name, ps)
    ensures r.Some? ==> exists i :: 0 <= i < |ps| && ps[i] == r.value && r.value.name == name
                                    && forall j :: 0 <= j < i ==> ps[j].name != name
  {
    var m := Matching(ps, name);
    if |m| > 0 then
      FirstMatchIsFirst(ps, name);
      Some(m[0])
    else None
  }

  lemma {:induction false} FirstMatchIsFirst(ps: seq<Plugin>, name: string)
    requires |Matching(ps, name)| > 0
    ensures exists i :: 0 <= i < |ps| && ps[i] == Matching(ps, name)[0] && ps[i].name == name
                        && forall j :: 0 <= j < i ==> ps[j].name != name
  {
    if ps[0].name == name {
      assert ps[0] == Matching(ps, name)[0];
    } else {
      assert Matching(ps, name) == Matching(ps[1..], name);
      FirstMatchIsFirst(ps[1..], name);
      var i :| 0 <= i < |ps[1..]| && ps[1..][i] == Matching(ps[1..], name)[0] && ps[1..][i].name == name
                 && forall j :: 0 <= j < i ==> ps[1..][j].name != name;
      assert ps[i + 1] == ps[1..][i];
      forall j | 0 <= j < i + 1 ensures ps[j].name != name {
        if j > 0 { assert ps[j] == ps[1..][j - 1]; }
      }
    }
  }

  /** String entries become `{name}`; descriptors are kept as they are. */
  function NormaliseEntry(e: PluginEntry): (p: Plugin)
    ensures p.name == EntryName(e)
    ensures e.NameOnly? ==> p.fields == map[]
    ensures e.Descriptor? ==> p == e.plugin
  {
    match e
    case NameOnly(n) => Plugin(n, map[])
    case Descriptor(p) => p
  }

  /** `vuxConfig.plugins.map(...)`: every entry normalised, in order. */
  function NormaliseEntries(es: seq<PluginEntry>): (r: seq<Plugin>)
    ensures |r| == |es|
    ensures forall i :: 0 <= i < |es| ==> r[i] == NormaliseEntry(es[i])
  {
    if |es| == 0 then [] else [NormaliseEntry(es[0])] + NormaliseEntries(es[1..])
  }

  /** `name` occurs at least twice in the list: its `_.groupBy` group has more than one member. */
  predicate Repeated(ps: seq<Plugin>, name: string) {
    |Matching(ps, name)| >= 2
  }

  /** The value of a decimal digit; 0 for any other character. */
  function DigitValue(c: char): (n: nat)
    ensures n < 10
  {
    if '0' <= c <= '9' then c as int - '0' as int else 0
  }

  /** The number a text of decimal digits stands for. */
  function DecimalValue(s: string): nat {
    if |s| == 0 then 0 else DecimalValue(s[..|s| - 1]) * 10 + DigitValue(s[|s| - 1])
  }

  /**
   * A canonical array index (section 6.1.7 of ECMA-262): the decimal text, with
   * no leading zero, of an integer below 2^32 - 1. An object enumerates keys of
   * this form first, in ascending numeric order, and the others after them in
   * the order they were added (section 10.1.11.1, OrdinaryOwnPropertyKeys).
   */
  predicate IsArrayIndex(s: string) {
    && |s| > 0
    && (forall i :: 0 <= i < |s| ==> '0' <= s[i] <= '9')
    && (s[0] != '0' || |s| == 1)
    && DecimalValue(s) < 0xFFFF_FFFF
  }

  /** A repeated name of `all` carried by some plugin of `ps` that is an array index, the least such. */
  function LeastIndexRepeat(ps: seq<Plugin>, all: seq<Plugin>): (r: Option<string>)
    ensures r.Some? ==> IsArrayIndex(r.value) && Repeated(all, r.value)
    ensures forall i :: 0 <= i < |ps| && IsArrayIndex(ps[i].name) && Repeated(all, ps[i].name) ==>
      r.Some? && DecimalValue(r.value) <= DecimalValue(ps[i].name)
  {
    if |ps| == 0 then None
    else
      var rest := LeastIndexRepeat(ps[1..], all);
      var n := ps[0].name;
      assert forall i :: 1 <= i < |ps| ==> ps[i] == ps[1..][i - 1];
      if IsArrayIndex(n) && Repeated(all, n) && (rest.None? || DecimalValue(n) <= DecimalValue(rest.value)) then Some(n)
      else rest
  }

  /** A name outside the list matches nothing. */
  lemma MatchingAbsent(ps: seq<Plugin>, name: string)
    requires name !in Names(ps)
    ensures Matching(ps, name) == []
  {
  }

  /**
   * The name of the first plugin whose name is repeated, or `None` when every
   * name occurs once: the first repeated group in the order groups were added.
   */
  function FirstRepeat(ps: seq<Plugin>): (r: Option<string>)
    ensures r.None? <==> NamesDistinct(ps)
    ensures r.Some? ==> Repeated(ps, r.value)
    ensures r.Some? ==> exists i :: 0 <= i < |ps| && ps[i].name == r.value && forall j :: 0 <= j < i ==> !Repeated(ps, ps[j].name)
  {
    if |ps| == 0 then None
    else if ps[0].name in Names(ps[1..]) then
      var j :| 0 <= j < |ps[1..]| && ps[1..][j].name == ps[0].name;
      assert !NamesDistinct(ps) by { assert ps[0].name == ps[j + 1].name; }
      assert ps[j + 1] in Matching(ps[1..], ps[0].name);
      Some(ps[0].name)
    else
      var r := FirstRepeat(ps[1..]);
      assert NamesDistinct(ps) <==> NamesDistinct(ps[1..]) by {
        if NamesDistinct(ps[1..]) {
          forall i, j | 0 <= i < j < |ps| ensures ps[i].name != ps[j].name {
            if i == 0 { assert ps[j] == ps[1..][j - 1]; }
            else { assert ps[i] == ps[1..][i - 1] && ps[j] == ps[1..][j - 1]; }
          }
        }
      }
      if r.Some? then
        FirstRepeatStep(ps, r.value);
        r
      else r
  }

  /** The step of `FirstRepeat` past a head whose name does not come again. */
  lemma FirstRepeatStep(ps: seq<Plugin>, n: string)
    requires |ps| > 0 && ps[0].name !in Names(ps[1..])
    requires Repeated(ps[1..], n)
    requires exists i :: 0 <= i < |ps[1..]| && ps[1..][i].name == n && forall j :: 0 <= j < i ==> !Repeated(ps[1..], ps[1..][j].name)
    ensures Repeated(ps, n)
    ensures exists i :: 0 <= i < |ps| && ps[i].name == n && forall j :: 0 <= j < i ==> !Repeated(ps, ps[j].name)
  {
    var tail := ps[1..];
    var i :| 0 <= i < |tail| && tail[i].name == n && forall j :: 0 <= j < i ==> !Repeated(tail, tail[j].name);
    TailNameNotHead(ps, i + 1);
    MatchingPastHead(ps, n);
    forall j | 0 <= j < i + 1 ensures !Repeated(ps, ps[j].name) {
      if j == 0 {
        HeadOnce(ps);
      } else {
        TailNameNotHead(ps, j);
        MatchingPastHead(ps, ps[j].name);
      }
    }
  }

  lemma TailNameNotHead(ps: seq<Plugin>, j: int)
    requires 1 <= j < |ps| && ps[0].name !in Names(ps[1..])
    ensures ps[j].name != ps[0].name && ps[j] == ps[1..][j - 1]
  {
    assert ps[1..][j - 1].name in Names(ps[1..]);
  }

  lemma HeadOnce(ps: seq<Plugin>)
    requires |ps| > 0 && ps[0].name !in Names(ps[1..])
    ensures !Repeated(ps, ps[0].name)
  {
    MatchingAbsent(ps[1..], ps[0].name);
    assert Matching(ps, ps[0].name) == [ps[0]] + Matching(ps[1..], ps[0].name);
  }

  lemma MatchingPastHead(ps: seq<Plugin>, m: string)
    requires |ps| > 0 && m != ps[0].name
    ensures Matching(ps, m) == Matching(ps[1..], m)
  {
    assert Matching(ps, m) == [] + Matching(ps[1..], m);
  }

  /**
   * The duplicate check: `for (let group in _.groupBy(plugins, 'name'))` throws
   * at the first group with more than one member. Groups named by an array
   * index come first, least index first; the others follow in the order of
   * their first plugin. `None` when every name occurs once.
   */
  function FirstDuplicate(ps: seq<Plugin>): (r: Option<string>)
    ensures r.None? <==> NamesDistinct(ps)
    ensures r.Some? ==> Repeated(ps, r.value)
    ensures forall i :: 0 <= i < |ps| && IsArrayIndex(ps[i].name) && Repeated(ps, ps[i].name) ==>
      r.Some? && IsArrayIndex(r.value) && DecimalValue(r.value) <= DecimalValue(ps[i].name)
    ensures r.Some? && !IsArrayIndex(r.value) ==>
      exists i :: 0 <= i < |ps| && ps[i].name == r.value && forall j :: 0 <= j < i ==> !Repeated(ps, ps[j].name)
  {
    match LeastIndexRepeat(ps, ps)
    case Some(n) =>
      assert !NamesDistinct(ps) by { RepeatedNotDistinct(ps, n); }
      Some(n)
    case None => FirstRepeat(ps)
  }

  /** A repeated name breaks distinctness. */
  lemma RepeatedNotDistinct(ps: seq<Plugin>, n: string)
    requires Repeated(ps, n)
    ensures !NamesDistinct(ps)
  {
    if NamesDistinct(ps) {
      var r := FirstRepeat(ps);
      assert r.None?;
      DistinctMatchesOnce(ps, n);
    }
  }

  /** In a list of distinct names, each name matches at most once. */
  lemma {:induction false} DistinctMatchesOnce(ps: seq<Plugin>, n: string)
    requires NamesDistinct(ps)
    ensures |Matching(ps, n)| <= 1
  {
    if |ps| > 0 {
      assert NamesDistinct(ps[1..]) by {
        forall i, j | 0 <= i < j < |ps[1..]| ensures ps[1..][i].name != ps[1..][j].name {
          assert ps[1..][i] == ps[i + 1] && ps[1..][j] == ps[j + 1];
        }
      }
      if ps[0].name == n {
        assert n !in Names(ps[1..]) by {
          assert forall k :: 0 <= k < |ps[1..]| ==> ps[1..][k] == ps[k + 1];
        }
        MatchingAbsent(ps[1..], n);
      } else {
        DistinctMatchesOnce(ps[1..], n);
      }
    }
  }

  /** For the names `x, x, 7, 7` the check reports `7`: array-index names come first. */
  lemma IndexNamesFirst()
    ensures FirstDuplicate([Plugin("x", map[]), Plugin("x", map[]), Plugin("7", map[]), Plugin("7", map[])]) == Some("7")
  {
    var ps := [Plugin("x", map[]), Plugin("x", map[]), Plugin("7", map[]), Plugin("7", map[])];
    assert DecimalValue("7") == 7 by { assert "7"[..0] == ""; }
    assert IsArrayIndex("7");
    assert !IsArrayIndex("x");
    assert Matching(ps, "7") == [ps[2], ps[3]] by {
      assert ps[1..][1..][1..][1..] == [];
    }
    var r := FirstDuplicate(ps);
    assert Repeated(ps, ps[2].name);
    assert r.value in Names(ps) by {
      assert Matching(ps, r.value)[0] in Matching(ps, r.value);
    }
  }

  /** The message the source throws for a duplicated plugin name. */
  function DuplicateMessage(name: string): string {
    "only one instance is allowed. plugin name: " + name
  }

  /** No plugin of the list carries a name in `names`. */
  predicate NoneNamed(ps: seq<Plugin>, names: set<string>) {
    forall i :: 0 <= i < |ps| ==> ps[i].name !in names
  }

  /** The plugins of a list whose names are not in `names`, in order. */
  function WithoutNames(ps: seq<Plugin>, names: set<string>): (r: seq<Plugin>)
    ensures |r| <= |ps|
    ensures forall x :: x in r ==> x in ps
    ensures NoneNamed(r, names)
    ensures NoneNamed(ps, names) ==> r == ps
  {
    if |ps| == 0 then []
    else
      var rest := WithoutNames(ps[1..], names);
      assert NoneNamed(ps, names) ==> NoneNamed(ps[1..], names) by {
        if NoneNamed(ps, names) {
          forall i | 0 <= i < |ps[1..]| ensures ps[1..][i].name !in names { assert ps[1..][i] == ps[i + 1]; }
        }
      }
      if ps[0].name in names then rest
      else
        assert NoneNamed(ps, names) ==> ps == [ps[0]] + ps[1..];
        [ps[0]] + rest
  }

  lemma {:induction false} WithoutNamesAppend(a: seq<Plugin>, b: seq<Plugin>, names: set<string>)
    ensures WithoutNames(a + b, names) == WithoutNames(a, names) + WithoutNames(b, names)
    decreases |a|
  {
    if |a| == 0 {
      assert a + b == b;
    } else {
      assert (a + b)[1..] == a[1..] + b;
      WithoutNamesAppend(a[1..], b, names);
    }
  }

  lemma {:induction false} WithoutNamesTwice(a: seq<Plugin>, x: set<string>, y: set<string>)
    ensures WithoutNames(WithoutNames(a, x), y) == WithoutNames(a, x + y)
    decreases |a|
  {
    if |a| > 0 {
      WithoutNamesTwice(a[1..], x, y);
      var head := if a[0].name in x then [] else [a[0]];
      WithoutNamesAppend(head, WithoutNames(a[1..], x), y);
    }
  }

  lemma DistinctTail(a: seq<Plugin>)
    requires |a| > 0 && NamesDistinct(a)
    ensures NamesDistinct(a[1..])
    ensures a[0].name !in Names(a[1..])
  {
    forall i, j | 0 <= i < j < |a[1..]| ensures a[1..][i].name != a[1..][j].name {
      assert a[1..][i] == a[i + 1] && a[1..][j] == a[j + 1];
    }
    forall j | 0 <= j < |a[1..]| ensures a[1..][j].name != a[0].name {
      assert a[1..][j] == a[j + 1];
    }
  }

  lemma DistinctCons(x: Plugin, a: seq<Plugin>)
    requires NamesDistinct(a) && x.name !in Names(a)
    ensures NamesDistinct([x] + a)
  {
    var r := [x] + a;
    forall i, j | 0 <= i < j < |r| ensures r[i].name != r[j].name {
      assert r[j] == a[j - 1];
      if i > 0 { assert r[i] == a[i - 1]; }
    }
  }

  lemma DistinctSnoc(w: seq<Plugin>, p: Plugin)
    requires NamesDistinct(w) && NoneNamed(w, {p.name})
    ensures NamesDistinct(w + [p])
  {
    var r := w + [p];
    forall i, j | 0 <= i < j < |r| ensures r[i].name != r[j].name {
      assert r[i] == w[i];
      if j < |w| { assert r[j] == w[j]; }
    }
  }

  /** What `WithoutNames` keeps is distinct when the list was. */
  lemma {:induction false} WithoutNamesDistinct(a: seq<Plugin>, names: set<string>)
    requires NamesDistinct(a)
    ensures NamesDistinct(WithoutNames(a, names))
    decreases |a|
  {
    if |a| > 0 {
      DistinctTail(a);
      WithoutNamesDistinct(a[1..], names);
      var w := WithoutNames(a[1..], names);
      if a[0].name !in names {
        assert a[0].name !in Names(w) by {
          forall j | 0 <= j < |w| ensures w[j].name != a[0].name {
            assert w[j] in a[1..];
            var k :| 0 <= k < |a[1..]| && a[1..][k] == w[j];
          }
        }
        DistinctCons(a[0], w);
      }
    }
  }

  lemma SuffixNames(a: seq<Plugin>, k: nat)
    requires k < |a|
    ensures Names(a[k..]) == {a[k].name} + Names(a[k + 1..])
  {
    var s, t := a[k..], a[k + 1..];
    assert s == [a[k]] + t;
    forall x | x in Names(s) ensures x in {a[k].name} + Names(t) {
      var i :| 0 <= i < |s| && s[i].name == x;
      if i > 0 { assert s[i] == t[i - 1]; }
    }
    forall x | x in Names(t) ensures x in Names(s) {
      var i :| 0 <= i < |t| && t[i].name == x;
      assert s[i + 1] == t[i];
    }
    assert s[0] == a[k];
  }

  /** In a list with distinct names, no other index carries the name at `k`. */
  lemma OthersNotNamed(a: seq<Plugin>, k: nat)
    requires NamesDistinct(a) && k < |a|
    ensures NoneNamed(a[..k], {a[k].name}) && NoneNamed(a[k + 1..], {a[k].name})
  {
    var nm := a[k].name;
    var pre, post := a[..k], a[k + 1..];
    forall i | 0 <= i < |pre| ensures pre[i].name !in {nm} { assert pre[i] == a[i]; }
    forall i | 0 <= i < |post| ensures post[i].name !in {nm} { assert post[i] == a[k + 1 + i]; }
  }

  /** In a list with distinct names, dropping the name at `k` drops exactly index `k`. */
  lemma RemoveAt(a: seq<Plugin>, k: nat)
    requires NamesDistinct(a) && k < |a|
    ensures WithoutNames(a, {a[k].name}) == a[..k] + a[k + 1..]
  {
    OthersNotNamed(a, k);
    assert a == (a[..k] + [a[k]]) + a[k + 1..];
    DropMiddle(a[..k], a[k], a[k + 1..], {a[k].name});
  }

  lemma DropSingle(x: Plugin, names: set<string>)
    requires x.name in names
    ensures WithoutNames([x], names) == []
  {
    assert [x][1..] == [];
  }

  /** Dropping a name that only the last plugin carries removes just that plugin. */
  lemma DropLast(pre: seq<Plugin>, x: Plugin, names: set<string>)
    requires NoneNamed(pre, names) && x.name in names
    ensures WithoutNames(pre + [x], names) == pre
  {
    DropSingle(x, names);
    WithoutNamesAppend(pre, [x], names);
    assert pre + [] == pre;
  }

  /** Dropping a name that only the middle plugin carries removes just that plugin. */
  lemma DropMiddle(pre: seq<Plugin>, x: Plugin, post: seq<Plugin>, names: set<string>)
    requires NoneNamed(pre, names) && NoneNamed(post, names) && x.name in names
    ensures WithoutNames((pre + [x]) + post, names) == pre + post
  {
    DropLast(pre, x, names);
    WithoutNamesAppend(pre + [x], post, names);
  }

  /**
   * One step of the source's `allPlugins.forEach((oldPlugin, index) => ...)`
   * for a new plugin `p`, from index `k` of a traversal fixed at `n` elements:
   * a same-named entry is spliced out and `p` pushed at the end, so the entry
   * that slides into index `k` is not visited. Returns the list and whether a
   * same-named entry was met.
   */
  function ScanFrom(a: seq<Plugin>, p: Plugin, k: nat, n: nat, same: bool): (r: (seq<Plugin>, bool))
    requires |a| == n && k <= n
    ensures |r.0| == n
    decreases n - k
  {
    if k == n then (a, same)
    else if a[k].name == p.name then ScanFrom(a[..k] + a[k + 1..] + [p], p, k + 1, n, true)
    else ScanFrom(a, p, k + 1, n, same)
  }

  /** Merging one new plugin into the registry, as the source's loop body does it. */
  function MergeOne(a: seq<Plugin>, p: Plugin): seq<Plugin> {
    var (b, same) := ScanFrom(a, p, 0, |a|, false);
    if same then b else b + [p]
  }

  /** Merging every new plugin into the registry, in the order supplied. */
  function MergeRegistry(a: seq<Plugin>, ps: seq<Plugin>): seq<Plugin>
    decreases |ps|
  {
    if |ps| == 0 then a else MergeRegistry(MergeOne(a, ps[0]), ps[1..])
  }

  /** The list after splicing the entry at `k` out and pushing `p`: distinct, and `p` is its only entry of that name. */
  lemma Splice(a: seq<Plugin>, k: nat, p: Plugin)
    requires NamesDistinct(a) && k < |a| && a[k].name == p.name
    ensures a[..k] + a[k + 1..] + [p] == WithoutNames(a, {p.name}) + [p]
    ensures NamesDistinct(a[..k] + a[k + 1..] + [p])
    ensures WithoutNames(a[..k] + a[k + 1..] + [p], {p.name}) == WithoutNames(a, {p.name})
  {
    var w := WithoutNames(a, {p.name});
    RemoveAt(a, k);
    WithoutNamesDistinct(a, {p.name});
    DistinctSnoc(w, p);
    WithoutNamesAppend(w, [p], {p.name});
    assert WithoutNames([p], {p.name}) == [] by { assert [p][1..] == []; }
  }

  /**
   * On a registry with distinct names, the traversal from index `k` removes the
   * same-named entry (if it lies at or after `k`) and appends `p`; otherwise
   * it changes nothing.
   */
  lemma {:induction false} ScanFromDistinct(a: seq<Plugin>, p: Plugin, k: nat, n: nat, same: bool)
    requires |a| == n && k <= n && NamesDistinct(a)
    ensures ScanFrom(a, p, k, n, same) ==
      if p.name in Names(a[k..]) then (WithoutNames(a, {p.name}) + [p], true) else (a, same)
    decreases n - k
  {
    if k == n {
      assert a[k..] == [];
    } else if a[k].name != p.name {
      SuffixNames(a, k);
      ScanFromDistinct(a, p, k + 1, n, same);
    } else {
      var b := a[..k] + a[k + 1..] + [p];
      SuffixNames(a, k);
      Splice(a, k, p);
      ScanFromDistinct(b, p, k + 1, n, true);
      if k + 1 < n {
        assert b[k + 1..][n - k - 2] == p;
      } else {
        assert b[k + 1..] == [];
      }
    }
  }

  /**
   * On a registry with distinct names, a new plugin drops the same-named entry
   * and is appended at the end; the other entries keep their order.
   */
  lemma MergeOneDistinct(a: seq<Plugin>, p: Plugin)
    requires NamesDistinct(a)
    ensures MergeOne(a, p) == WithoutNames(a, {p.name}) + [p]
    ensures NamesDistinct(MergeOne(a, p))
  {
    ScanFromDistinct(a, p, 0, |a|, false);
    assert a[0..] == a;
    if p.name !in Names(a) {
      assert NoneNamed(a, {p.name});
    }
    WithoutNamesDistinct(a, {p.name});
    DistinctSnoc(WithoutNames(a, {p.name}), p);
  }

  /**
   * A registry with distinct names keeps them distinct through any merge: the
   * invariant that at most one descriptor per name is recorded.
   */
  lemma {:induction false} MergeRegistryKeepsDistinct(a: seq<Plugin>, ps: seq<Plugin>)
    requires NamesDistinct(a)
    ensures NamesDistinct(MergeRegistry(a, ps))
    decreases |ps|
  {
    if |ps| > 0 {
      MergeOneDistinct(a, ps[0]);
      MergeRegistryKeepsDistinct(MergeOne(a, ps[0]), ps[1..]);
    }
  }

  /**
   * The registry after a merge: the previous entries whose names are not
   * supplied again, in their old order, followed by the supplied plugins in
   * the order given.
   */
  lemma {:induction false} MergeRegistryShape(a: seq<Plugin>, ps: seq<Plugin>)
    requires NamesDistinct(a) && NamesDistinct(ps)
    ensures MergeRegistry(a, ps) == WithoutNames(a, Names(ps)) + ps
    decreases |ps|
  {
    if |ps| == 0 {
      assert NoneNamed(a, Names(ps));
    } else {
      var p, rest := ps[0], ps[1..];
      var w := WithoutNames(a, {p.name});
      MergeFirst(a, ps);
      DistinctTail(ps);
      MergeRegistryShape(w + [p], rest);
      DropAfterDrop(a, ps);
    }
  }

  /** The first step of a merge on a distinct registry. */
  lemma MergeFirst(a: seq<Plugin>, ps: seq<Plugin>)
    requires NamesDistinct(a) && |ps| > 0
    ensures NamesDistinct(WithoutNames(a, {ps[0].name}) + [ps[0]])
    ensures MergeRegistry(a, ps) == MergeRegistry(WithoutNames(a, {ps[0].name}) + [ps[0]], ps[1..])
  {
    MergeOneDistinct(a, ps[0]);
  }

  /** A plugin whose name is not dropped stays at the end. */
  lemma KeepLast(w: seq<Plugin>, p: Plugin, names: set<string>)
    requires p.name !in names
    ensures WithoutNames(w + [p], names) == WithoutNames(w, names) + [p]
  {
    WithoutNamesAppend(w, [p], names);
    assert [p][1..] == [];
  }

  lemma NamesOfHead(ps: seq<Plugin>)
    requires |ps| > 0
    ensures Names(ps) == {ps[0].name} + Names(ps[1..])
  {
    SuffixNames(ps, 0);
    assert ps[0..] == ps;
  }

  lemma DropHeadThenRest(a: seq<Plugin>, ps: seq<Plugin>)
    requires |ps| > 0
    ensures WithoutNames(WithoutNames(a, {ps[0].name}), Names(ps[1..])) == WithoutNames(a, Names(ps))
  {
    NamesOfHead(ps);
    WithoutNamesTwice(a, {ps[0].name}, Names(ps[1..]));
  }

  lemma ConsTail(x: seq<Plugin>, ps: seq<Plugin>)
    requires |ps| > 0
    ensures (x + [ps[0]]) + ps[1..] == x + ps
  {
    assert [ps[0]] + ps[1..] == ps;
  }

  /** Dropping the later names after the first one was dropped and re-appended. */
  lemma DropAfterDrop(a: seq<Plugin>, ps: seq<Plugin>)
    requires |ps| > 0 && ps[0].name !in Names(ps[1..])
    ensures WithoutNames(WithoutNames(a, {ps[0].name}) + [ps[0]], Names(ps[1..])) + ps[1..]
      == WithoutNames(a, Names(ps)) + ps
  {
    var p, rest := ps[0], ps[1..];
    var w := WithoutNames(a, {p.name});
    var later := Names(rest);
    KeepLast(w, p, later);
    DropHeadThenRest(a, ps);
    ConsTail(WithoutNames(w, later), ps);
  }

  lemma MergeRegistryShapeWhenDistinct(a: seq<Plugin>, ps: seq<Plugin>)
    ensures NamesDistinct(a) && NamesDistinct(ps) ==> MergeRegistry(a, ps) == WithoutNames(a, Names(ps)) + ps
  {
    if NamesDistinct(a) && NamesDistinct(ps) {
      MergeRegistryShape(a, ps);
    }
  }

  /**
   * The source's traversal with a registry that already holds two adjacent
   * entries of the new plugin's name: the second slides into the spliced
   * index, is not visited, and survives next to the new plugin.
   */
  lemma AdjacentDuplicateSurvives(x1: Plugin, x2: Plugin, p: Plugin)
    requires x1.name == p.name && x2.name == p.name
    ensures MergeOne([x1, x2], p) == [x2, p]
  {
    var a := [x1, x2];
    var b := a[..0] + a[1..] + [p];
    assert b == [x2, p];
    assert b[..1] + b[2..] + [p] == [x2, p];
  }

  /** The plugins an environment admits: `envs` undefined, or a non-empty list containing `env`. */
  predicate EnvAdmits(p: Plugin, env: Value) {
    match Get(p.fields, "envs")
    case Undefined => true
    case Strs(xs) => |xs| > 0 && env.Str? && env.s in xs
    case _ => false
  }

  /** `list.filter(...)` with `EnvAdmits`, in order. */
  function FilterByEnv(ps: seq<Plugin>, env: Value): (r: seq<Plugin>)
    ensures |r| <= |ps|
    ensures forall p :: p in r <==> p in ps && EnvAdmits(p, env)
    ensures IsSubsequence(r, ps)
  {
    if |ps| == 0 then []
    else if EnvAdmits(ps[0], env) then [ps[0]] + FilterByEnv(ps[1..], env)
    else
      var r := FilterByEnv(ps[1..], env);
      SubsequenceOfTail(r, ps);
      r
  }

  /** `a` is `b` with some elements left out, the rest in the same order. */
  predicate IsSubsequence(a: seq<Plugin>, b: seq<Plugin>)
    decreases |b|
  {
    if |a| == 0 then true
    else if |b| == 0 then false
    else if a[0] == b[0] then IsSubsequence(a[1..], b[1..])
    else IsSubsequence(a, b[1..])
  }

  lemma SubsequenceOfTail(a: seq<Plugin>, b: seq<Plugin>)
    requires |b| > 0 && IsSubsequence(a, b[1..])
    ensures IsSubsequence(a, b)
    decreases |b|, |a|
  {
    if |a| > 0 && a[0] == b[0] {
      SubsequenceTail(a, b[1..]);
    }
  }

  lemma SubsequenceTail(a: seq<Plugin>, b: seq<Plugin>)
    requires |a| > 0 && IsSubsequence(a, b)
    ensures IsSubsequence(a[1..], b)
    decreases |b|, |a|
  {
    if a[0] != b[0] {
      SubsequenceTail(a, b[1..]);
      SubsequenceOfTail(a[1..], b);
    } else if |a[1..]| > 0 {
      SubsequenceOfTail(a[1..], b);
    }
  }

  /**
   * Normalising the caller's object: a missing object becomes `{options: {}, plugins: []}`,
   * missing options become `{buildEnvs: ['production']}`, an undefined `ssr` becomes
   * `false`, and string plugin entries become descriptors.
   */
  function Normalise(input: Option<VuxInput>): (v: VuxConfig)
    ensures input.None? ==> v.options == map["ssr" := Bool(false)] && v.plugins == []
    ensures input.Some? && input.value.options.None? ==>
      v.options == map["buildEnvs" := Strs(["production"]), "ssr" := Bool(false)]
    ensures input.Some? && input.value.options.Some? ==>
      var o := input.value.options.value;
      && (Get(o, "ssr") == Undefined ==> v.options == o["ssr" := Bool(false)])
      && (Get(o, "ssr") != Undefined ==> v.options == o)
    ensures Get(v.options, "ssr") != Undefined
    ensures input.Some? && input.value.plugins.Some? ==> v.plugins == NormaliseEntries(input.value.plugins.value)
    ensures input.Some? && input.value.plugins.None? ==> v.plugins == []
    ensures v.allPlugins == []
  {
    var options0 :=
      if input.None? then map[]
      else if input.value.options.None? then map["buildEnvs" := Strs(["production"])]
      else input.value.options.value;
    var options := if Get(options0, "ssr") == Undefined then options0["ssr" := Bool(false)] else options0;
    var entries := if input.Some? && input.value.plugins.Some? then input.value.plugins.value else [];
    VuxConfig(options, NormaliseEntries(entries), [])
  }

  /**
   * Merging with a previously recorded configuration: new option keys override
   * old ones, and the registry is merged by name; without one, the registry is
   * the supplied list.
   */
  function MergeWithPrevious(v: VuxConfig, previous: Option<VuxConfig>): (r: VuxConfig)
    ensures r.plugins == v.plugins
    ensures previous.None? ==> r.options == v.options && r.allPlugins == v.plugins
    ensures previous.Some? ==> r.options.Keys == previous.value.options.Keys + v.options.Keys
    ensures previous.Some? ==> forall k :: k in v.options ==> r.options[k] == v.options[k]
    ensures previous.Some? ==> forall k :: k in previous.value.options && k !in v.options ==> r.options[k] == previous.value.options[k]
    ensures previous.Some? && NamesDistinct(previous.value.allPlugins) && NamesDistinct(v.plugins) ==>
      r.allPlugins == WithoutNames(previous.value.allPlugins, Names(v.plugins)) + v.plugins
  {
    match previous
    case None => v.(allPlugins := v.plugins)
    case Some(prev) =>
      MergeRegistryShapeWhenDistinct(prev.allPlugins, v.plugins);
      v.(options := prev.options + v.options, allPlugins := MergeRegistry(prev.allPlugins, v.plugins))
  }

  /** With a truthy `env` and a non-empty registry, the active list is the admitted part of the registry. */
  function ApplyEnv(v: VuxConfig): (r: VuxConfig)
    ensures r.options == v.options && r.allPlugins == v.allPlugins
    ensures Truthy(Get(v.options, "env")) && |v.allPlugins| > 0 ==>
      (forall p :: p in r.plugins <==> p in v.allPlugins && EnvAdmits(p, Get(v.options, "env")))
      && IsSubsequence(r.plugins, v.allPlugins)
    ensures !(Truthy(Get(v.options, "env")) && |v.allPlugins| > 0) ==> r.plugins == v.plugins
  {
    var env := Get(v.options, "env");
    if Truthy(env) && |v.allPlugins| > 0 then v.(plugins := FilterByEnv(v.allPlugins, env)) else v
  }

  /**
   * The plugin steps of the merge: normalise, reject a duplicated name, merge
   * with the previous configuration, filter by environment.
   */
  function Prepare(input: Option<VuxInput>, previous: Option<VuxConfig>): (r: Result<VuxConfig, string>)
    ensures r.Failure? <==> !NamesDistinct(Normalise(input).plugins)
    ensures r.Failure? ==> exists n :: r.error == DuplicateMessage(n) && |Matching(Normalise(input).plugins, n)| >= 2
  {
    var v := Normalise(input);
    match FirstDuplicate(v.plugins)
    case Some(n) => Failure(DuplicateMessage(n))
    case None => Success(ApplyEnv(MergeWithPrevious(v, previous)))
  }

  /**
   * Merging the same framework options again on top of the first result yields
   * the same registry and the same active plugin list.
   */
  lemma PrepareTwice(input: Option<VuxInput>)
    requires Prepare(input, None).Success?
    ensures Prepare(input, Some(Prepare(input, None).value)).Success?
    ensures Prepare(input, Some(Prepare(input, None).value)).value.plugins == Prepare(input, None).value.plugins
    ensures Prepare(input, Some(Prepare(input, None).value)).value.allPlugins == Prepare(input, None).value.allPlugins
  {
    var v := Normalise(input);
    var first := Prepare(input, None).value;
    assert first.allPlugins == v.plugins && first.options == v.options;
    MergeRegistryShape(v.plugins, v.plugins);
    WithoutOwnNames(v.plugins);
    assert v.plugins == [] + v.plugins;
  }

  /** Dropping every name a list carries leaves nothing. */
  lemma WithoutOwnNames(ps: seq<Plugin>)
    ensures WithoutNames(ps, Names(ps)) == []
  {
    WithoutAllNamed(ps, Names(ps));
  }

  lemma {:induction false} WithoutAllNamed(ps: seq<Plugin>, names: set<string>)
    requires forall i :: 0 <= i < |ps| ==> ps[i].name in names
    ensures WithoutNames(ps, names) == []
    decreases |ps|
  {
    if |ps| > 0 {
      assert forall i :: 0 <= i < |ps[1..]| ==> ps[1..][i] == ps[i + 1];
      WithoutAllNamed(ps[1..], names);
    }
  }
}
