/**
 * Module rules of a webpack configuration and the three passes the merge runs
 * over them: inserting the framework loader in front of the `.vue` loader, and
 * appending the js post-loader after the TypeScript and the Babel loaders.
 */
module Rules {
  import opened Wrappers
  import opened Strings
  import opened JsValues
  import opened LoaderChain

  /** webpack 1 (`module.loaders`, options inline) or webpack 2 and later (`module.rules`). */
  datatype Schema = Legacy | Current

  /** An entry of a rule's `use` array: a loader name, or an object `{loader, options, query}`. */
  datatype UseEntry = UseName(name: string) | UseObject(loader: Value, options: Value, query: Value)

  /** A rule's `use` field: absent, an array, or something else (a string or a single object). */
  datatype Use = NoUse | UseList(entries: seq<UseEntry>) | UseOther

  /** One rule; an absent or deleted field is `Undefined`. */
  datatype Rule = Rule(test: Value, included: Value, loader: Value, use: Use, options: Value, query: Value)

  const VuxLoader: string := "vux-loader"
  const VueLoader: string := "vue-loader"

  /** The loader string the framework uses when the caller gives none. */
  const DefaultLoaderString: string := "vux-loader!vue-loader"

  /** The rule the merge appends when no rule handles `.vue` files. */
  function VueRule(loaderString: Value): Rule {
    Rule(Regex("\\.vue$"), Undefined, loaderString, NoUse, Undefined, Undefined)
  }

  /** How many entries of a `use` array are objects whose `loader` is `vue-loader`. */
  function VueObjects(entries: seq<UseEntry>): (r: nat)
    ensures r <= |entries|
    ensures r == 0 <==> forall i :: 0 <= i < |entries| ==> !(entries[i].UseObject? && entries[i].loader == Str(VueLoader))
  {
    if |entries| == 0 then 0
    else (if entries[0].UseObject? && entries[0].loader == Str(VueLoader) then 1 else 0) + VueObjects(entries[1..])
  }

  /** The rule's `use` is a non-empty array with exactly one `vue-loader` object. */
  predicate HasVueLoader(rule: Rule) {
    rule.use.UseList? && |rule.use.entries| > 0 && VueObjects(rule.use.entries) == 1
  }

  /** The rule loads `.vue` files: its loader is `vue` or `vue-loader`, or its `use` holds the vue loader. */
  predicate IsVueRule(rule: Rule) {
    rule.loader == Str("vue") || rule.loader == Str(VueLoader) || HasVueLoader(rule)
  }

  /** The rewrite of one `.vue` rule. */
  function RewriteVueRule(rule: Rule, schema: Schema, loaderString: Value): (r: Rule)
    requires IsVueRule(rule)
    ensures r.test == rule.test && r.included == rule.included
    ensures schema == Legacy ==> r == rule.(loader := loaderString)
    ensures schema == Current && !HasVueLoader(rule) && !Truthy(rule.options) && !Truthy(rule.query) ==>
      r == rule.(loader := loaderString)
    ensures schema == Current && !HasVueLoader(rule) && (Truthy(rule.options) || Truthy(rule.query)) ==>
      r.loader == Undefined && r.options == Undefined && r.query == Undefined
      && r.use == UseList([UseName(VuxLoader), UseObject(Str(VueLoader), rule.options, rule.query)])
    ensures schema == Current && HasVueLoader(rule) ==>
      r == rule.(use := UseList([UseName(VuxLoader)] + rule.use.entries))
  {
    var hasVue := HasVueLoader(rule);
    if schema == Legacy || (!Truthy(rule.options) && !Truthy(rule.query) && !hasVue) then
      rule.(loader := loaderString)
    else if (Truthy(rule.options) || Truthy(rule.query)) && !hasVue then
      rule.(loader := Undefined,
            use := UseList([UseName(VuxLoader), UseObject(Str(VueLoader), rule.options, rule.query)]),
            options := Undefined, query := Undefined)
    else
      rule.(use := UseList([UseName(VuxLoader)] + rule.use.entries))
  }

  /** Some rule of the list loads `.vue` files. */
  predicate AnyVueRule(rules: seq<Rule>) {
    exists i :: 0 <= i < |rules| && IsVueRule(rules[i])
  }

  /** Every `.vue` rule rewritten in place, the others left alone. */
  function RewriteEach(rules: seq<Rule>, schema: Schema, loaderString: Value): (r: seq<Rule>)
    ensures |r| == |rules|
    ensures forall i :: 0 <= i < |rules| ==>
      r[i] == if IsVueRule(rules[i]) then RewriteVueRule(rules[i], schema, loaderString) else rules[i]
  {
    if |rules| == 0 then []
    else
      [if IsVueRule(rules[0]) then RewriteVueRule(rules[0], schema, loaderString) else rules[0]]
      + RewriteEach(rules[1..], schema, loaderString)
  }

  /**
   * The `.vue` pass: every `.vue` rule gets the framework loader in front of
   * the vue loader; when there is none, a `.vue` rule with the loader string
   * is appended.
   */
  function RewriteVueRules(rules: seq<Rule>, schema: Schema, loaderString: Value): (r: seq<Rule>)
    ensures |r| == if AnyVueRule(rules) then |rules| else |rules| + 1
    ensures forall i :: 0 <= i < |rules| && !IsVueRule(rules[i]) ==> r[i] == rules[i]
    ensures forall i :: 0 <= i < |rules| && IsVueRule(rules[i]) ==> r[i] == RewriteVueRule(rules[i], schema, loaderString)
    ensures !AnyVueRule(rules) ==> r == rules + [VueRule(loaderString)]
  {
    var each := RewriteEach(rules, schema, loaderString);
    if AnyVueRule(rules) then each
    else
      assert each == rules;
      each + [VueRule(loaderString)]
  }

  /** The framework loader runs in front of the vue loader in this rule. */
  predicate CarriesVux(rule: Rule, loaderString: Value) {
    rule.loader == loaderString || (rule.use.UseList? && |rule.use.entries| > 0 && rule.use.entries[0] == UseName(VuxLoader))
  }

  /** After the pass every former `.vue` rule, and the appended one, carries the framework loader. */
  lemma VueRulesCarryVux(rules: seq<Rule>, schema: Schema, loaderString: Value)
    ensures forall i :: 0 <= i < |rules| && IsVueRule(rules[i]) ==>
      CarriesVux(RewriteVueRules(rules, schema, loaderString)[i], loaderString)
    ensures (exists i :: 0 <= i < |RewriteVueRules(rules, schema, loaderString)|
                && CarriesVux(RewriteVueRules(rules, schema, loaderString)[i], loaderString))
  {
    var r := RewriteVueRules(rules, schema, loaderString);
    if AnyVueRule(rules) {
      var i :| 0 <= i < |rules| && IsVueRule(rules[i]);
      assert CarriesVux(r[i], loaderString);
    } else {
      assert CarriesVux(r[|rules|], loaderString);
    }
  }

  /**
   * The second merge of a webpack 2 configuration whose `.vue` rule lists the
   * vue loader in `use`: the framework loader is put in front once more.
   */
  lemma SecondVuePassStacks(rule: Rule, loaderString: Value)
    requires HasVueLoader(rule)
    ensures RewriteVueRules(RewriteVueRules([rule], Current, loaderString), Current, loaderString)
      == [rule.(use := UseList([UseName(VuxLoader), UseName(VuxLoader)] + rule.use.entries))]
  {
    var once := RewriteVueRule(rule, Current, loaderString);
    assert AnyVueRule([rule]) by { assert IsVueRule([rule][0]); }
    assert VueObjects(once.use.entries) == VueObjects(rule.use.entries) by {
      assert once.use.entries[1..] == rule.use.entries;
    }
    assert HasVueLoader(once);
    assert AnyVueRule([once]) by { assert IsVueRule([once][0]); }
    assert [UseName(VuxLoader)] + ([UseName(VuxLoader)] + rule.use.entries)
      == [UseName(VuxLoader), UseName(VuxLoader)] + rule.use.entries;
  }

  /**
   * The second merge when the first one replaced a `vue` loader by the loader
   * string: the rewritten rule no longer looks like a `.vue` rule, so another
   * `.vue` rule is appended.
   */
  lemma SecondVuePassAppends(rule: Rule, schema: Schema, loaderString: Value)
    requires rule.loader == Str("vue") && rule.use.NoUse?
    requires loaderString != Str("vue") && loaderString != Str(VueLoader)
    requires schema == Legacy || (!Truthy(rule.options) && !Truthy(rule.query))
    ensures RewriteVueRules(RewriteVueRules([rule], schema, loaderString), schema, loaderString)
      == [rule.(loader := loaderString), VueRule(loaderString)]
  {
    assert AnyVueRule([rule]) by { assert IsVueRule([rule][0]); }
    var once := rule.(loader := loaderString);
    assert !AnyVueRule([once]) by {
      forall i | 0 <= i < |[once]| ensures !IsVueRule([once][i]) { }
    }
  }

  /** A loader family the js post-loader follows: TypeScript (`ts`) or Babel (`babel`). */
  datatype Family = Family(short: string, loaderName: string)

  const TypeScript: Family := Family("ts", "ts-loader")
  const Babel: Family := Family("babel", "babel-loader")

  /** The rule's `use` array starts with the family's loader, by name or as an object. */
  predicate UsesFamily(rule: Rule, fam: Family) {
    rule.use.UseList? && |rule.use.entries| > 0 &&
    (rule.use.entries[0] == UseName(fam.loaderName)
     || (rule.use.entries[0].UseObject? && rule.use.entries[0].loader == Str(fam.loaderName)))
  }

  /**
   * The rule's `loader` names the family: the short or the full name, or any
   * single loader whose string form mentions the short name.
   */
  predicate LoaderNamesFamily(rule: Rule, fam: Family) {
    rule.loader == Str(fam.short) || rule.loader == Str(fam.loaderName)
    || (Contains(ToJsString(rule.loader), fam.short) && !Contains(ToJsString(rule.loader), [Bang]))
  }

  /** One rule of a js post-loader pass, with `js` the path of the post-loader. */
  function AppendJsLoader(rule: Rule, fam: Family, schema: Schema, js: string): (r: Rule)
    ensures r.test == rule.test && r.included == rule.included
    ensures UsesFamily(rule, fam) ==> r == rule.(use := UseList(rule.use.entries + [UseName(js)]))
    ensures !UsesFamily(rule, fam) && !LoaderNamesFamily(rule, fam) ==> r == rule
    ensures !UsesFamily(rule, fam) && LoaderNamesFamily(rule, fam) && schema == Current && (Truthy(rule.options) || Truthy(rule.query)) ==>
      r.loader == Undefined
      && r.use == UseList([UseObject(Str(fam.loaderName), Or(rule.options, rule.query), Undefined), UseName(js)])
      && (Truthy(rule.options) ==> r.options == Undefined && r.query == rule.query)
      && (!Truthy(rule.options) ==> r.options == rule.options && r.query == Undefined)
    ensures !UsesFamily(rule, fam) && LoaderNamesFamily(rule, fam) && !(schema == Current && (Truthy(rule.options) || Truthy(rule.query))) ==>
      r == rule.(loader := Str(fam.loaderName + [Bang] + js))
  {
    if UsesFamily(rule, fam) then
      rule.(use := UseList(rule.use.entries + [UseName(js)]))
    else if LoaderNamesFamily(rule, fam) then
      if schema == Current && (Truthy(rule.query) || Truthy(rule.options)) then
        var withoutOptions :=
          if Truthy(rule.options) then rule.(options := Undefined) else rule.(query := Undefined);
        var taken := if Truthy(rule.options) then rule.options else rule.query;
        withoutOptions.(use := UseList([UseObject(Str(fam.loaderName), taken, Undefined), UseName(js)]), loader := Undefined)
      else
        rule.(loader := Str(fam.loaderName + [Bang] + js))
    else
      rule
  }

  /** A js post-loader pass over every rule. */
  function AppendJsLoaders(rules: seq<Rule>, fam: Family, schema: Schema, js: string): (r: seq<Rule>)
    ensures |r| == |rules|
    ensures forall i :: 0 <= i < |rules| ==> r[i] == AppendJsLoader(rules[i], fam, schema, js)
  {
    if |rules| == 0 then []
    else [AppendJsLoader(rules[0], fam, schema, js)] + AppendJsLoaders(rules[1..], fam, schema, js)
  }

  /** The loaders a rule lists, last applied last: its `use` names, else the segments of its loader string. */
  function LoaderOrder(rule: Rule): seq<Value> {
    if rule.use.UseList? && rule.loader == Undefined then UseLoaders(rule.use.entries)
    else if rule.loader.Str? then StrValues(Segments(rule.loader.s))
    else []
  }

  function UseLoaders(entries: seq<UseEntry>): (r: seq<Value>)
    ensures |r| == |entries|
    ensures forall i :: 0 <= i < |entries| ==>
      r[i] == (match entries[i] case UseName(n) => Str(n) case UseObject(l, _, _) => l)
  {
    if |entries| == 0 then []
    else [match entries[0] case UseName(n) => Str(n) case UseObject(l, _, _) => l] + UseLoaders(entries[1..])
  }

  function StrValues(ss: seq<string>): (r: seq<Value>)
    ensures |r| == |ss|
    ensures forall i :: 0 <= i < |ss| ==> r[i] == Str(ss[i])
  {
    if |ss| == 0 then [] else [Str(ss[0])] + StrValues(ss[1..])
  }

  /**
   * A rule the pass handles ends with the post-loader, right after the
   * family's loader when the pass built the list itself.
   */
  lemma JsLoaderRunsLast(rule: Rule, fam: Family, schema: Schema, js: string)
    requires fam == TypeScript || fam == Babel
    requires IsSegment(js)
    requires UsesFamily(rule, fam) ==> rule.loader == Undefined
    requires UsesFamily(rule, fam) || LoaderNamesFamily(rule, fam)
    ensures var order := LoaderOrder(AppendJsLoader(rule, fam, schema, js));
      |order| >= 2 && order[|order| - 1] == Str(js)
    ensures !UsesFamily(rule, fam) ==>
      LoaderOrder(AppendJsLoader(rule, fam, schema, js)) == [Str(fam.loaderName), Str(js)]
  {
    var r := AppendJsLoader(rule, fam, schema, js);
    if !UsesFamily(rule, fam) && r.loader.Str? {
      assert r.loader.s == fam.loaderName + [Bang] + js;
      assert IsSegment(fam.loaderName);
      SplitJoin([fam.loaderName, js], Bang);
      JoinPair(fam.loaderName, js, [Bang]);
    }
  }

  /** Joining two strings with a separator. */
  lemma JoinPair(a: string, b: string, sep: string)
    ensures Join([a, b], sep) == a + sep + b
  {
    JoinCons(a, [b], sep);
    assert [a, b] == [a] + [b];
  }

  /** The string form of the pass is stable: a rule it gave `family!js` is left alone by a second pass. */
  lemma JsStringFormStable(rule: Rule, fam: Family, schema: Schema, js: string)
    requires fam == TypeScript || fam == Babel
    requires !UsesFamily(rule, fam) && LoaderNamesFamily(rule, fam)
    requires !(schema == Current && (Truthy(rule.options) || Truthy(rule.query)))
    ensures AppendJsLoader(AppendJsLoader(rule, fam, schema, js), fam, schema, js) == AppendJsLoader(rule, fam, schema, js)
  {
    var r := AppendJsLoader(rule, fam, schema, js);
    var s := fam.loaderName + [Bang] + js;
    assert OccursAt(s, [Bang], |fam.loaderName|);
    assert |s| > |fam.loaderName| > |fam.short|;
  }

  /**
   * A rule with no `use` that the TypeScript pass rewrote is left alone by the
   * Babel pass, whatever form the TypeScript pass gave it.
   */
  lemma BabelSkipsTypeScriptRule(rule: Rule, schema: Schema, js: string)
    requires rule.use.NoUse? && LoaderNamesFamily(rule, TypeScript)
    ensures AppendJsLoader(AppendJsLoader(rule, TypeScript, schema, js), Babel, schema, js)
      == AppendJsLoader(rule, TypeScript, schema, js)
  {
    var r := AppendJsLoader(rule, TypeScript, schema, js);
    if r.loader.Str? {
      var s := "ts-loader" + [Bang] + js;
      assert r.loader.s == s;
      assert OccursAt(s, [Bang], 9);
      assert s[0] == 't';
    } else {
      assert r.loader == Undefined;
      assert !Contains("undefined", "babel") by {
        forall i | 0 <= i <= |"undefined"| - |"babel"| ensures !OccursAt("undefined", "babel", i) {
          assert "undefined"[i] != 'b';
        }
      }
    }
  }
}
