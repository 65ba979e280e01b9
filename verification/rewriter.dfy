/**
 * The loader entry: given the code a single-file component compiles to, insert
 * the framework's script, style and template loaders into the loader chains
 * of the `require("...")` (or `import ... from "..."`) requests it contains.
 */
module SourceRewriter {
  import opened Wrappers
  import opened Strings
  import opened JsValues
  import opened LoaderChain
  import opened Sentinels
  import opened RegexForms
  import Plugins

  /**
   * The request strings of the framework's own loaders, as the host resolves
   * them (with the quotes of the resolved form removed).
   */
  datatype LoaderPaths = LoaderPaths(
    script: string,
    style: string,
    afterLess: string,
    template: string,
    beforeCompiler: string)

  /** Prepending a loader to a request: `loader + '!' + item`. */
  function Before(loader: string, item: string): (r: string)
    ensures |r| == |loader| + 1 + |item|
  {
    loader + [Bang] + item
  }

  /** A single segment is its own chain. */
  lemma OnePiece(item: string)
    requires IsSegment(item)
    ensures Chain([item]) == item && AllSegments([item])
  {
    JoinCons(item, [], [Bang]);
  }

  /** A loader put in front of a chain. */
  lemma PrependLoader(loader: string, base: seq<string>, loaders: set<string>)
    requires |base| >= 1 && AllSegments(base) && IsSegment(loader) && loader in loaders
    ensures Chain([loader] + base) == Before(loader, Chain(base))
    ensures AllSegments([loader] + base)
    ensures Strip([loader] + base, loaders) == Strip(base, loaders)
  {
    JoinCons(loader, base, [Bang]);
    assert ([loader] + base)[1..] == base;
  }

  /** A loader put after a chain. */
  lemma AppendLoader(base: seq<string>, loader: string, loaders: set<string>)
    requires |base| >= 1 && AllSegments(base) && IsSegment(loader) && loader in loaders
    ensures Chain(base + [loader]) == Before(Chain(base), loader)
    ensures AllSegments(base + [loader])
    ensures Strip(base + [loader], loaders) == Strip(base, loaders)
  {
    JoinAppend(base, [loader]);
    OnePiece(loader);
    StripAppend(base, [loader], loaders);
    assert Strip([loader], loaders) == [];
  }

  // ---------------------------------------------------------------- script

  const TypeScript: string := "type=script"
  const BabelRequire: string := "require(\"!!babel-loader"
  const BabelInline: string := "!!babel-loader!"

  /** `import\s__vue_script__\sfrom\s"!!babel\-loader!\.\/(.*?)"` matches at `i`. */
  predicate ImportBabelAt(s: string, i: nat)
    requires i <= |s|
  {
    var h := HeadLength("__vue_script__");
    ImportHead(s[i..], "__vue_script__")
    && StartsWith(s[i + h..], "!!babel-loader!./")
    && ClosesOnLine(s, i + h + 17)
  }

  /** The regular expression above matches somewhere in `s`. */
  predicate ImportBabel(s: string) {
    exists i :: 0 <= i <= |s| && ImportBabelAt(s, i)
  }

  /** The script loader in front of a segment that requests the script part. */
  function ScriptItem(item: string, script: string): string {
    if Contains(item, TypeScript) then Before(script, item) else item
  }

  /** The script loader after a segment that is exactly `babel-loader`. */
  function BabelItem(item: string, script: string): string {
    if item == "babel-loader" then Before(item, script) else item
  }

  /** How the script pass rewrites one matched request. */
  function ScriptRewrite(content: string, script: string): (r: string)
    ensures !Contains(content, TypeScript) && !Contains(content, BabelRequire) && !ImportBabel(content) ==> r == content
  {
    if Contains(content, TypeScript) then
      Chain(MapSeq(Segments(content), (item: string) => ScriptItem(item, script)))
    else if Contains(content, BabelRequire) then
      ReplaceFirst(content, BabelInline, BabelInline + script + [Bang])
    else if ImportBabel(content) then
      Chain(MapSeq(Segments(content), (item: string) => BabelItem(item, script)))
    else
      content
  }

  /** The segments `ScriptItem` turns one segment into. */
  function ScriptPieces(item: string, script: string): seq<string> {
    if Contains(item, TypeScript) then [script, item] else [item]
  }

  function BabelPieces(item: string, script: string): seq<string> {
    if item == "babel-loader" then [item, script] else [item]
  }

  /** Two segments joined by `!`. */
  lemma ChainPair(a: string, b: string)
    ensures Chain([a, b]) == Before(a, b)
  {
    JoinCons(a, [b], [Bang]);
    assert [a, b] == [a] + [b];
  }

  lemma StripIdentity(segments: seq<string>, loaders: set<string>)
    ensures Strip(MapSeq(segments, (x: string) => x), loaders) == Strip(segments, loaders)
  {
    assert MapSeq(segments, (x: string) => x) == segments;
  }

  /**
   * On a request that asks for the script part, the pass puts the script
   * loader directly in front of every segment mentioning `type=script`; taking
   * the script loader out again leaves the original segments.
   */
  lemma ScriptSegments(content: string, script: string)
    requires IsSegment(script) && Contains(content, TypeScript)
    ensures Segments(ScriptRewrite(content, script)) == ConcatMap(Segments(content), (item: string) => ScriptPieces(item, script))
    ensures Strip(Segments(ScriptRewrite(content, script)), {script}) == Strip(Segments(content), {script})
  {
    var segs := Segments(content);
    var f := (item: string) => ScriptItem(item, script);
    var g := (item: string) => ScriptPieces(item, script);
    ChainOfSegments(content);
    forall i | 0 <= i < |segs| ensures |g(segs[i])| >= 1 && f(segs[i]) == Chain(g(segs[i])) && AllSegments(g(segs[i])) {
      assert IsSegment(segs[i]);
      ChainPair(script, segs[i]);
      JoinCons(segs[i], [], [Bang]);
    }
    RewrittenSegments(content, f, g);
    forall i | 0 <= i < |segs| ensures Strip(g(segs[i]), {script}) == Strip([segs[i]], {script}) {
      StripAppend([script], [segs[i]], {script});
    }
    StripConcatMap(segs, g, (x: string) => x, {script});
    StripIdentity(segs, {script});
  }

  lemma BabelPiecesChain(item: string, script: string)
    requires IsSegment(item) && IsSegment(script)
    ensures var g := BabelPieces(item, script);
      |g| >= 1 && Chain(g) == BabelItem(item, script) && AllSegments(g)
      && Strip(g, {script}) == Strip([item], {script})
  {
    OnePiece(item);
    if item == "babel-loader" {
      AppendLoader([item], script, {script});
    }
  }

  /** The `import ... "!!babel-loader!./..."` form: the script loader goes right after `babel-loader`. */
  lemma BabelSegments(content: string, script: string)
    requires IsSegment(script)
    requires !Contains(content, TypeScript) && !Contains(content, BabelRequire) && ImportBabel(content)
    ensures Segments(ScriptRewrite(content, script)) == ConcatMap(Segments(content), (item: string) => BabelPieces(item, script))
    ensures Strip(Segments(ScriptRewrite(content, script)), {script}) == Strip(Segments(content), {script})
  {
    var segs := Segments(content);
    var f := (item: string) => BabelItem(item, script);
    var g := (item: string) => BabelPieces(item, script);
    ChainOfSegments(content);
    forall i | 0 <= i < |segs| ensures |g(segs[i])| >= 1 && f(segs[i]) == Chain(g(segs[i])) && AllSegments(g(segs[i]))
      && Strip(g(segs[i]), {script}) == Strip([segs[i]], {script})
    {
      assert IsSegment(segs[i]);
      BabelPiecesChain(segs[i], script);
    }
    RewrittenSegments(content, f, g);
    StripConcatMap(segs, g, (x: string) => x, {script});
    StripIdentity(segs, {script});
  }

  /**
   * The inline `require("!!babel-loader...` form: the script loader is
   * inserted after the first `!!babel-loader!` only; a request without one is
   * left alone.
   */
  lemma BabelRequireInsert(content: string, script: string)
    requires !Contains(content, TypeScript) && Contains(content, BabelRequire)
    ensures !Contains(content, BabelInline) ==> ScriptRewrite(content, script) == content
    ensures Contains(content, BabelInline) ==>
      var i := IndexOf(content, BabelInline);
      && 0 <= i
      && ScriptRewrite(content, script) == content[..i] + BabelInline + script + [Bang] + content[i + |BabelInline|..]
  {
    if Contains(content, BabelInline) {
      var i := IndexOf(content, BabelInline);
      var rep := BabelInline + script + [Bang];
      var r := ReplaceFirst(content, BabelInline, rep);
      assert r == r[..i] + r[i..i + |rep|] + r[i + |rep|..];
    }
  }

  /** `addScriptLoader`: escape, rewrite every matched request, unescape. */
  function AddScriptLoader(source: string, script: string): string {
    var rs := Escape(source, ScriptSentinel);
    var f := (content: string) => ScriptRewrite(content, script);
    var rewritten :=
      if IndexOf(rs, "import __vue_script__ from") == -1 then ReplaceMatches(rs, RequireCall, f)
      else ReplaceMatches(rs, ImportOf("__vue_script__"), f);
    Unescape(rewritten, ScriptSentinel)
  }

  // -------------------------------------------------------------- template

  const TypeTemplate: string := "type=template"
  const TemplateCompiler: string := "template-compiler/index"

  /**
   * The template loader in front of a segment that requests the template
   * part, and the pre-compiler loader after a segment that (so rewritten)
   * mentions the template compiler.
   */
  function TemplateItem(item: string, template: string, beforeCompiler: string): string {
    var a := if Contains(item, TypeTemplate) then Before(template, item) else item;
    if Contains(a, TemplateCompiler) then Before(a, beforeCompiler) else a
  }

  /** How the template pass rewrites one matched request. */
  function TemplateRewrite(content: string, template: string, beforeCompiler: string): (r: string)
    ensures !Contains(content, TypeTemplate) ==> r == content
  {
    if Contains(content, TypeTemplate) then
      Chain(MapSeq(Segments(content), (item: string) => TemplateItem(item, template, beforeCompiler)))
    else content
  }

  function TemplatePieces(item: string, template: string, beforeCompiler: string): seq<string> {
    var base := if Contains(item, TypeTemplate) then [template, item] else [item];
    if Contains(Chain(base), TemplateCompiler) then base + [beforeCompiler] else base
  }

  lemma TemplatePiecesChain(item: string, template: string, beforeCompiler: string)
    requires IsSegment(item) && IsSegment(template) && IsSegment(beforeCompiler)
    ensures var g := TemplatePieces(item, template, beforeCompiler);
      |g| >= 1 && Chain(g) == TemplateItem(item, template, beforeCompiler) && AllSegments(g)
      && Strip(g, {template, beforeCompiler}) == Strip([item], {template, beforeCompiler})
  {
    var loaders := {template, beforeCompiler};
    var base := if Contains(item, TypeTemplate) then [template, item] else [item];
    OnePiece(item);
    if Contains(item, TypeTemplate) {
      PrependLoader(template, [item], loaders);
    }
    if Contains(Chain(base), TemplateCompiler) {
      AppendLoader(base, beforeCompiler, loaders);
    }
  }

  /**
   * On a request that asks for the template part, the pass puts the template
   * loader in front of the segments mentioning `type=template` and the
   * pre-compiler loader after those mentioning the template compiler; taking
   * both out leaves the original segments.
   */
  lemma TemplateSegments(content: string, template: string, beforeCompiler: string)
    requires IsSegment(template) && IsSegment(beforeCompiler) && Contains(content, TypeTemplate)
    ensures Segments(TemplateRewrite(content, template, beforeCompiler))
      == ConcatMap(Segments(content), (item: string) => TemplatePieces(item, template, beforeCompiler))
    ensures Strip(Segments(TemplateRewrite(content, template, beforeCompiler)), {template, beforeCompiler})
      == Strip(Segments(content), {template, beforeCompiler})
  {
    var segs := Segments(content);
    var loaders := {template, beforeCompiler};
    var f := (item: string) => TemplateItem(item, template, beforeCompiler);
    var g := (item: string) => TemplatePieces(item, template, beforeCompiler);
    ChainOfSegments(content);
    forall i | 0 <= i < |segs| ensures |g(segs[i])| >= 1 && f(segs[i]) == Chain(g(segs[i])) && AllSegments(g(segs[i])) {
      assert IsSegment(segs[i]);
      TemplatePiecesChain(segs[i], template, beforeCompiler);
    }
    RewrittenSegments(content, f, g);
    forall i | 0 <= i < |segs| ensures Strip(g(segs[i]), loaders) == Strip([segs[i]], loaders) {
      assert IsSegment(segs[i]);
      TemplatePiecesChain(segs[i], template, beforeCompiler);
    }
    StripConcatMap(segs, g, (x: string) => x, loaders);
    StripIdentity(segs, loaders);
  }

  /** `addTemplateLoader`: escape, rewrite every matched request, unescape. */
  function AddTemplateLoader(source: string, template: string, beforeCompiler: string): string {
    var rs := Escape(source, TemplateSentinel);
    var f := (content: string) => TemplateRewrite(content, template, beforeCompiler);
    var rewritten :=
      if IndexOf(rs, "import __vue_template__ from") == -1 then ReplaceMatches(rs, RequireCall, f)
      else ReplaceMatches(rs, ImportOf("__vue_template__"), f);
    Unescape(rewritten, TemplateSentinel)
  }

  // ----------------------------------------------------------------- style

  const TypeStyle: string := "type=style"
  const LessLoader: string := "less-loader"

  /**
   * What reading a theme file yields: the variables object as a value, and the
   * text `JSON.stringify` makes of it.
   */
  datatype LessVariables = LessVariables(value: Value, json: string)

  /** The theme the style pass applies: none, or the JSON text of the theme's variables. */
  datatype Theme = NoTheme | Theme(variables: string)

  /** `s.split('?')[0]`: the request without its query. */
  function BeforeQuery(s: string): (r: string)
    ensures StartsWith(s, r) && '?' !in r
    ensures '?' !in s ==> r == s
    ensures |r| < |s| ==> s[|r|] == '?'
  {
    SplitHeadPrefix(s, '?');
    Split(s, "?")[0]
  }

  /**
   * The request without its query is determined by where the first `?` is:
   * any `?`-free prefix followed by `?` or by the end of the text is it.
   */
  lemma BeforeQueryUnique(s: string, q: string)
    requires StartsWith(s, q) && '?' !in q && (|q| < |s| ==> s[|q|] == '?')
    ensures BeforeQuery(s) == q
  {
    var r := BeforeQuery(s);
    assert forall k :: 0 <= k < |r| ==> s[k] == r[k];
    assert forall k :: 0 <= k < |q| ==> s[k] == q[k];
    if |r| != |q| {
      assert false;
    }
    assert r == s[..|r|];
  }

  /** The first piece of a split is the prefix before the first separator. */
  lemma {:induction false} SplitHeadPrefix(s: string, c: char)
    ensures var h := Split(s, [c])[0];
      StartsWith(s, h) && c !in h && (c !in s ==> h == s) && (|h| < |s| ==> s[|h|] == c)
    decreases |s|
  {
    if |s| > 0 && !StartsWith(s, [c]) {
      SplitHeadPrefix(s[1..], c);
      var h := Split(s[1..], [c])[0];
      assert Split(s, [c])[0] == [s[0]] + h;
      assert s[..1 + |h|] == [s[0]] + s[1..][..|h|];
      assert c !in s ==> c !in s[1..];
    } else if |s| > 0 {
      assert s[0] == c;
    }
  }

  /** `s.replace(/"/g, "'")`: every double quote turned into a single quote. */
  function SingleQuoted(s: string): (r: string)
    ensures |r| == |s|
    ensures forall i :: 0 <= i < |s| ==> r[i] == if s[i] == '"' then '\'' else s[i]
  {
    ReplaceCharPointwise(s, '"', '\'');
    ReplaceAll(s, ['"'], "'")
  }

  /** Quoting distributes over concatenation. */
  lemma SingleQuotedAppend(a: string, b: string)
    ensures SingleQuoted(a + b) == SingleQuoted(a) + SingleQuoted(b)
  {
    var l, r := SingleQuoted(a + b), SingleQuoted(a) + SingleQuoted(b);
    assert forall i :: 0 <= i < |a| ==> l[i] == r[i];
    assert forall i :: |a| <= i < |a + b| ==> (a + b)[i] == b[i - |a|] && l[i] == r[i];
  }

  /** The `sourceMap` entry of the query, once quoted. */
  const SourceMapEntry: string := ",'sourceMap':true"

  /**
   * The query the pass gives a less request under a theme:
   * `JSON.stringify({modifyVars, sourceMap?})` with every `"` turned into `'`.
   */
  function StyleParams(variables: string, sourceMap: bool): (r: string)
    ensures r == "{'modifyVars':" + SingleQuoted(variables) + (if sourceMap then SourceMapEntry else "") + "}"
    ensures '"' !in r
  {
    var flag := if sourceMap then ",\"sourceMap\":true" else "";
    QuotedParams(variables, flag);
    QuotedLiterals();
    SingleQuoted("{\"modifyVars\":" + variables + flag + "}")
  }

  /** Quoting the query text piece by piece. */
  lemma QuotedParams(variables: string, flag: string)
    ensures SingleQuoted("{\"modifyVars\":" + variables + flag + "}")
      == SingleQuoted("{\"modifyVars\":") + SingleQuoted(variables) + SingleQuoted(flag) + SingleQuoted("}")
  {
    SingleQuotedAppend("{\"modifyVars\":" + variables + flag, "}");
    SingleQuotedAppend("{\"modifyVars\":" + variables, flag);
    SingleQuotedAppend("{\"modifyVars\":", variables);
  }

  /** The fixed parts of the query, quoted. */
  lemma QuotedLiterals()
    ensures SingleQuoted("{\"modifyVars\":") == "{'modifyVars':"
    ensures SingleQuoted(",\"sourceMap\":true") == SourceMapEntry
    ensures SingleQuoted("") == "" && SingleQuoted("}") == "}"
  {
    QuotedHead();
    QuotedEntry();
    QuotedLiteral("}", "}");
  }

  lemma QuotedHead()
    ensures SingleQuoted("{\"modifyVars\":") == "{'modifyVars':"
  {
    QuotedLiteral("{\"modifyVars\":", "{'modifyVars':");
  }

  lemma QuotedEntry()
    ensures SingleQuoted(",\"sourceMap\":true") == SourceMapEntry
  {
    QuotedLiteral(",\"sourceMap\":true", SourceMapEntry);
  }

  /** A text and its quoted form, compared character by character. */
  lemma QuotedLiteral(s: string, t: string)
    requires |s| == |t|
    requires forall i :: 0 <= i < |s| ==> t[i] == if s[i] == '"' then '\'' else s[i]
    ensures SingleQuoted(s) == t
  {
  }

  /**
   * The query carries the `sourceMap` entry exactly when the request mentions
   * source maps, provided the quoted variables do not themselves contain that text.
   */
  lemma StyleParamsSourceMap(variables: string, sourceMap: bool)
    requires !Contains(SingleQuoted(variables), SourceMapEntry)
    ensures Contains(StyleParams(variables, sourceMap), SourceMapEntry) <==> sourceMap
  {
    var head, v := "{'modifyVars':", SingleQuoted(variables);
    var r := StyleParams(variables, sourceMap);
    if sourceMap {
      var i := |head| + |v|;
      assert r[i..i + |SourceMapEntry|] == SourceMapEntry;
      assert OccursAt(r, SourceMapEntry, i);
    } else {
      assert r == head + v + "}";
      ContainsInMiddle(head, v, "}", SourceMapEntry);
    }
  }

  /**
   * One segment of the style pass: the style loader in front of a segment that
   * requests the style part; then, for a segment mentioning `less-loader`, the
   * theme's query in place of its own and the after-less loader in front.
   */
  function StyleItem(item: string, style: string, afterLess: string, theme: Theme): string {
    var a := if Contains(item, TypeStyle) then Before(style, item) else item;
    if Contains(a, LessLoader) then
      var b := if theme.Theme? then BeforeQuery(a) + "?" + StyleParams(theme.variables, Contains(a, "sourceMap")) else a;
      Before(afterLess, b)
    else a
  }

  /** How the style pass rewrites one matched request. */
  function StyleRewrite(content: string, style: string, afterLess: string, theme: Theme): (r: string)
    ensures !Contains(content, TypeStyle) ==> r == content
  {
    if Contains(content, TypeStyle) then
      Chain(MapSeq(Segments(content), (item: string) => StyleItem(item, style, afterLess, theme)))
    else content
  }

  /** `addStyleLoader`: every matched request rewritten; this pass uses no sentinel. */
  function AddStyleLoader(source: string, style: string, afterLess: string, theme: Theme): string {
    ReplaceMatches(source, RequireCall, (content: string) => StyleRewrite(content, style, afterLess, theme))
  }

  function StylePieces(item: string, style: string, afterLess: string): seq<string> {
    var base := if Contains(item, TypeStyle) then [style, item] else [item];
    if Contains(Chain(base), LessLoader) then [afterLess] + base else base
  }

  lemma StylePiecesChain(item: string, style: string, afterLess: string)
    requires IsSegment(item) && IsSegment(style) && IsSegment(afterLess)
    ensures var g := StylePieces(item, style, afterLess);
      |g| >= 1 && Chain(g) == StyleItem(item, style, afterLess, NoTheme) && AllSegments(g)
      && Strip(g, {style, afterLess}) == Strip([item], {style, afterLess})
  {
    var loaders := {style, afterLess};
    var base := if Contains(item, TypeStyle) then [style, item] else [item];
    OnePiece(item);
    if Contains(item, TypeStyle) {
      PrependLoader(style, [item], loaders);
    }
    if Contains(Chain(base), LessLoader) {
      PrependLoader(afterLess, base, loaders);
    }
  }

  /**
   * Without a theme the style pass only inserts loaders: the style loader in
   * front of the style segments and the after-less loader in front of the
   * less segments; taking both out leaves the original segments.
   */
  lemma StyleSegments(content: string, style: string, afterLess: string)
    requires IsSegment(style) && IsSegment(afterLess) && Contains(content, TypeStyle)
    ensures Segments(StyleRewrite(content, style, afterLess, NoTheme))
      == ConcatMap(Segments(content), (item: string) => StylePieces(item, style, afterLess))
    ensures Strip(Segments(StyleRewrite(content, style, afterLess, NoTheme)), {style, afterLess})
      == Strip(Segments(content), {style, afterLess})
  {
    var segs := Segments(content);
    var loaders := {style, afterLess};
    var f := (item: string) => StyleItem(item, style, afterLess, NoTheme);
    var g := (item: string) => StylePieces(item, style, afterLess);
    ChainOfSegments(content);
    forall i | 0 <= i < |segs| ensures |g(segs[i])| >= 1 && f(segs[i]) == Chain(g(segs[i])) && AllSegments(g(segs[i]))
      && Strip(g(segs[i]), loaders) == Strip([segs[i]], loaders)
    {
      assert IsSegment(segs[i]);
      StylePiecesChain(segs[i], style, afterLess);
    }
    RewrittenSegments(content, f, g);
    StripConcatMap(segs, g, (x: string) => x, loaders);
    StripIdentity(segs, loaders);
  }

  /**
   * Under a theme, a less segment keeps its request up to the query, receives
   * the theme's query, and gets the after-less loader in front; the new query
   * carries no double quote, so the surrounding `require("...")` stays intact.
   */
  lemma ThemedLessItem(item: string, style: string, afterLess: string, variables: string)
    requires !Contains(item, TypeStyle) && Contains(item, LessLoader)
    ensures var q := BeforeQuery(item);
      && StyleItem(item, style, afterLess, Theme(variables))
         == afterLess + [Bang] + q + "?" + StyleParams(variables, Contains(item, "sourceMap"))
      && StartsWith(item, q) && '?' !in q
      && '"' !in StyleParams(variables, Contains(item, "sourceMap"))
  {
  }

  /** Without a theme a less segment keeps its query and only gains the after-less loader. */
  lemma UnthemedLessItem(item: string, style: string, afterLess: string)
    requires !Contains(item, TypeStyle) && Contains(item, LessLoader)
    ensures StyleItem(item, style, afterLess, NoTheme) == afterLess + [Bang] + item
  {
  }

  /**
   * The segments the style pass makes of one segment under a theme: as without
   * a theme, except that a less request's query is replaced by the theme's.
   */
  function ThemedPieces(item: string, style: string, afterLess: string, variables: string): seq<string> {
    var pre := if Contains(item, TypeStyle) then [style] else [];
    var a := Chain(pre + [item]);
    if Contains(a, LessLoader) then
      [afterLess] + pre + [BeforeQuery(item) + "?" + StyleParams(variables, Contains(a, "sourceMap"))]
    else pre + [item]
  }

  /** A prefix of a segment is a segment. */
  lemma PrefixSegment(item: string, q: string)
    requires IsSegment(item) && StartsWith(item, q)
    ensures IsSegment(q)
  {
    assert forall k :: 0 <= k < |q| ==> q[k] == item[k];
  }

  /** The theme's query is a single segment when the variables hold no `!`. */
  lemma ParamsSegment(variables: string, sourceMap: bool)
    requires Bang !in variables
    ensures IsSegment(StyleParams(variables, sourceMap))
  {
    var v := SingleQuoted(variables);
    assert Bang !in v by {
      forall k | 0 <= k < |v| ensures v[k] != Bang {
        assert variables[k] != Bang;
      }
    }
  }

  /** The request of a style segment without its query, when the style loader has none. */
  lemma StyledBeforeQuery(style: string, item: string)
    requires '?' !in style
    ensures BeforeQuery(style + [Bang] + item) == style + [Bang] + BeforeQuery(item)
  {
    var s, q := style + [Bang] + item, BeforeQuery(item);
    assert s[..|style| + 1] == style + [Bang];
    assert s[|style| + 1..] == item;
    assert s[..|style| + 1 + |q|] == style + [Bang] + item[..|q|];
    BeforeQueryUnique(s, style + [Bang] + q);
  }

  /** The last piece of a themed less segment: one segment, with the segment's own request before the query. */
  lemma ThemedLastPiece(item: string, variables: string, sourceMap: bool)
    requires IsSegment(item) && Bang !in variables
    ensures var last := BeforeQuery(item) + "?" + StyleParams(variables, sourceMap);
      IsSegment(last) && BeforeQuery(last) == BeforeQuery(item)
  {
    var q := BeforeQuery(item);
    var last := q + "?" + StyleParams(variables, sourceMap);
    PrefixSegment(item, q);
    ParamsSegment(variables, sourceMap);
    assert last[..|q|] == q;
    BeforeQueryUnique(last, q);
  }

  /** The last piece of a less segment whose query is replaced by `params`. */
  lemma QueryPiece(item: string, params: string)
    requires IsSegment(item) && IsSegment(params)
    ensures IsSegment(BeforeQuery(item) + "?" + params)
  {
    PrefixSegment(item, BeforeQuery(item));
  }

  /** A less segment with its query replaced by `params`, the after-less loader in front. */
  lemma PlainQueryChain(item: string, afterLess: string, params: string)
    requires IsSegment(item) && IsSegment(afterLess) && IsSegment(params)
    ensures var g := [afterLess, BeforeQuery(item) + "?" + params];
      Chain(g) == Before(afterLess, BeforeQuery(item) + "?" + params) && AllSegments(g)
  {
    var last := BeforeQuery(item) + "?" + params;
    QueryPiece(item, params);
    OnePiece(last);
    PrependLoader(afterLess, [last], {afterLess});
  }

  /** The same for a style segment, with the style loader between. */
  lemma StyledQueryChain(style: string, item: string, afterLess: string, params: string)
    requires IsSegment(item) && IsSegment(afterLess) && IsSegment(params) && IsSegment(style) && '?' !in style
    ensures var g := [afterLess, style, BeforeQuery(item) + "?" + params];
      && Chain(g) == Before(afterLess, BeforeQuery(Before(style, item)) + "?" + params)
      && AllSegments(g)
  {
    var last := BeforeQuery(item) + "?" + params;
    QueryPiece(item, params);
    OnePiece(last);
    StyledBeforeQuery(style, item);
    PrependLoader(style, [last], {style, afterLess});
    PrependLoader(afterLess, [style, last], {style, afterLess});
    assert [afterLess] + [style, last] == [afterLess, style, last];
  }

  /** A themed less segment, joined: what the style pass makes of it. */
  lemma ThemedLessChain(item: string, style: string, afterLess: string, variables: string)
    requires IsSegment(item) && IsSegment(style) && IsSegment(afterLess)
    requires '?' !in style && Bang !in variables
    requires Contains(Chain((if Contains(item, TypeStyle) then [style] else []) + [item]), LessLoader)
    ensures var g := ThemedPieces(item, style, afterLess, variables);
      Chain(g) == StyleItem(item, style, afterLess, Theme(variables)) && AllSegments(g)
  {
    var pre := if Contains(item, TypeStyle) then [style] else [];
    var a := Chain(pre + [item]);
    var params := StyleParams(variables, Contains(a, "sourceMap"));
    StyledChain(item, style, afterLess);
    ParamsSegment(variables, Contains(a, "sourceMap"));
    if Contains(item, TypeStyle) {
      StyledQueryChain(style, item, afterLess, params);
      assert [afterLess] + pre + [BeforeQuery(item) + "?" + params] == [afterLess, style, BeforeQuery(item) + "?" + params];
    } else {
      PlainQueryChain(item, afterLess, params);
      assert [afterLess] + pre + [BeforeQuery(item) + "?" + params] == [afterLess, BeforeQuery(item) + "?" + params];
    }
  }

  /** The request the style pass tests for `less-loader`, as a chain. */
  lemma StyledChain(item: string, style: string, afterLess: string)
    requires IsSegment(item) && IsSegment(style)
    ensures Chain((if Contains(item, TypeStyle) then [style] else []) + [item])
      == if Contains(item, TypeStyle) then Before(style, item) else item
  {
    OnePiece(item);
    if Contains(item, TypeStyle) {
      PrependLoader(style, [item], {style});
    } else {
      assert [] + [item] == [item];
    }
  }

  lemma ThemedPiecesChain(item: string, style: string, afterLess: string, variables: string)
    requires IsSegment(item) && IsSegment(style) && IsSegment(afterLess)
    requires '?' !in style && Bang !in variables
    ensures var g := ThemedPieces(item, style, afterLess, variables);
      && |g| >= 1 && Chain(g) == StyleItem(item, style, afterLess, Theme(variables)) && AllSegments(g)
      && MapSeq(g, BeforeQuery) == MapSeq(StylePieces(item, style, afterLess), BeforeQuery)
  {
    var styled := Contains(item, TypeStyle);
    var pre := if styled then [style] else [];
    var a := Chain(pre + [item]);
    if Contains(a, LessLoader) {
      ThemedLessChain(item, style, afterLess, variables);
      ThemedLastPiece(item, variables, Contains(a, "sourceMap"));
      var g, h := ThemedPieces(item, style, afterLess, variables), StylePieces(item, style, afterLess);
      assert |g| == |h|;
      assert MapSeq(g, BeforeQuery)[|g| - 1] == MapSeq(h, BeforeQuery)[|g| - 1];
    } else {
      StyledChain(item, style, afterLess);
      StylePiecesChain(item, style, afterLess);
    }
  }

  /**
   * Under a theme the style pass inserts the same loaders as without one and
   * changes nothing else than the queries of the less requests: taking every
   * segment up to its query, the themed and the unthemed chains are equal.
   */
  lemma ThemedStyleSegments(content: string, style: string, afterLess: string, variables: string)
    requires IsSegment(style) && IsSegment(afterLess) && '?' !in style && Bang !in variables
    requires Contains(content, TypeStyle)
    ensures Segments(StyleRewrite(content, style, afterLess, Theme(variables)))
      == ConcatMap(Segments(content), (item: string) => ThemedPieces(item, style, afterLess, variables))
    ensures MapSeq(Segments(StyleRewrite(content, style, afterLess, Theme(variables))), BeforeQuery)
      == MapSeq(Segments(StyleRewrite(content, style, afterLess, NoTheme)), BeforeQuery)
  {
    var segs := Segments(content);
    var f := (item: string) => StyleItem(item, style, afterLess, Theme(variables));
    var g := (item: string) => ThemedPieces(item, style, afterLess, variables);
    var u := (item: string) => StylePieces(item, style, afterLess);
    ChainOfSegments(content);
    forall i | 0 <= i < |segs| ensures |g(segs[i])| >= 1 && f(segs[i]) == Chain(g(segs[i])) && AllSegments(g(segs[i]))
      && MapSeq(g(segs[i]), BeforeQuery) == MapSeq(u(segs[i]), BeforeQuery)
    {
      assert IsSegment(segs[i]);
      ThemedPiecesChain(segs[i], style, afterLess, variables);
    }
    RewrittenSegments(content, f, g);
    StyleSegments(content, style, afterLess);
    ConcatMapAgree(segs, g, u, BeforeQuery);
  }

  // ----------------------------------------------------------------- entry

  const DevStyles: string := "vux/src/styles/"
  const BuiltStyles: string := "../styles/"

  /** `source.replace(/vux\/src\/styles\/(.*?)/g, '../styles/$1')`: the lazy group is empty. */
  function FixDevStylePath(source: string): (r: string)
    ensures !Contains(source, DevStyles) ==> r == source
  {
    ReplaceAll(source, DevStyles, BuiltStyles)
  }

  /** The same fix, as splitting at the development path and joining with the built one. */
  lemma FixDevStylePathBySplit(source: string)
    ensures FixDevStylePath(source) == Join(Split(source, DevStyles), BuiltStyles)
  {
    SplitJoinIsReplaceAll(source, DevStyles, BuiltStyles);
  }

  /** The `TypeError` `path.join` throws for an argument that is not a string. */
  const PathNotString: string := "The \"path\" argument must be of type string"

  /**
   * The theme of a compilation. Without a `less-theme` plugin there is none.
   * With one, `path.join(projectRoot, path)` throws unless both are strings;
   * otherwise the variables read from the first such plugin's file give the
   * theme when they are truthy.
   */
  function ThemeOf(options: Options, plugins: seq<Plugins.Plugin>, readTheme: string -> LessVariables): (r: Result<Theme, string>)
    ensures !Plugins.HasPlugin("less-theme", plugins) ==> r == Success(NoTheme)
    ensures Plugins.HasPlugin("less-theme", plugins) ==>
      var path := Get(Plugins.Matching(plugins, "less-theme")[0].fields, "path");
      && (r.Failure? <==> !path.Str? || !Get(options, "projectRoot").Str?)
      && (r.Failure? ==> r.error == PathNotString)
      && (r.Success? ==> (r.value.Theme? <==> Truthy(readTheme(path.s).value)))
      && (r.Success? && r.value.Theme? ==> r.value.variables == readTheme(path.s).json)
  {
    var themes := Plugins.Matching(plugins, "less-theme");
    if |themes| > 0 then
      var path := Get(themes[0].fields, "path");
      if !path.Str? || !Get(options, "projectRoot").Str? then Failure(PathNotString)
      else
        var lv := readTheme(path.s);
        Success(if Truthy(lv.value) then Theme(lv.json) else NoTheme)
    else Success(NoTheme)
  }

  /**
   * The loader: an empty source, or one compiled without framework options, is
   * returned as is; otherwise the theme is looked up, which may throw, and the
   * script, style and template passes run in that order, then the development
   * style fix when `vuxDev` is set. `readTheme` stands for reading the theme
   * file's variables (`getLessVariables`).
   */
  function LoaderEntry(source: string, config: Option<Plugins.VuxConfig>, paths: LoaderPaths,
                       readTheme: string -> LessVariables): (r: Result<string, string>)
    ensures source == "" || config.None? ==> r == Success(source)
    ensures source != "" && config.Some? ==>
      (r.Failure? <==> ThemeOf(config.value.options, config.value.plugins, readTheme).Failure?)
  {
    if source == "" || config.None? then Success(source)
    else
      var cfg := config.value;
      match ThemeOf(cfg.options, cfg.plugins, readTheme)
      case Failure(e) => Failure(e)
      case Success(theme) =>
        var s1 := AddScriptLoader(source, paths.script);
        var s2 := AddStyleLoader(s1, paths.style, paths.afterLess, theme);
        var s3 := AddTemplateLoader(s2, paths.template, paths.beforeCompiler);
        Success(if Truthy(Get(cfg.options, "vuxDev")) then FixDevStylePath(s3) else s3)
  }

  /**
   * A `less-theme` plugin given by name only has no `path`: the loader throws
   * on every non-empty module, whatever it contains.
   */
  lemma ThemeWithoutPathFails(source: string, options: Options, paths: LoaderPaths, readTheme: string -> LessVariables)
    requires source != ""
    ensures var cfg := Plugins.VuxConfig(options, [Plugins.Plugin("less-theme", map[])], []);
      LoaderEntry(source, Some(cfg), paths, readTheme) == Failure(PathNotString)
  {
    var ps := [Plugins.Plugin("less-theme", map[])];
    assert ps[0] in Plugins.Matching(ps, "less-theme");
  }

  /** `require("` and `import` share no character with either sentinel. */
  lemma OpeningsAvoidSentinels()
    ensures Disjoint(Opening(RequireCall), ScriptSentinel) && Disjoint(Opening(RequireCall), TemplateSentinel)
    ensures Disjoint(Opening(ImportOf("")), ScriptSentinel) && Disjoint(Opening(ImportOf("")), TemplateSentinel)
  {
  }

  /** A pass whose escaped text has no match returns the text it was given. */
  lemma EscapedPassIdentity(source: string, w: string, form: Form, f: string -> string)
    requires IsSentinel(w) && !Contains(source, Marker) && !Contains(source, Opening(form))
    ensures Unescape(ReplaceMatches(Escape(source, w), form, f), w) == source
  {
    OpeningsAvoidSentinels();
    assert Opening(form) == Opening(RequireCall) || Opening(form) == Opening(ImportOf(""));
    EscapeKeepsAbsence(source, w, Opening(form));
    NoOpeningFixes(Escape(source, w), form, f);
    ReplaceMatchesFixed(Escape(source, w), form, f);
    EscapeRoundTrip(source, w);
  }

  /**
   * Code that requests nothing through `require("` or `import` is returned
   * unchanged by all three passes when the loader does not throw (it must not
   * contain the sentinels' marker, and the development fix must have nothing
   * to replace).
   */
  lemma NoRequestUnchanged(source: string, config: Option<Plugins.VuxConfig>, paths: LoaderPaths,
                           readTheme: string -> LessVariables)
    requires !Contains(source, RequireOpen) && !Contains(source, "import")
    requires !Contains(source, Marker) && !Contains(source, DevStyles)
    ensures LoaderEntry(source, config, paths, readTheme).Success? ==> LoaderEntry(source, config, paths, readTheme).value == source
  {
    if source != "" && config.Some? && ThemeOf(config.value.options, config.value.plugins, readTheme).Success? {
      var theme := ThemeOf(config.value.options, config.value.plugins, readTheme).value;
      var sf := (content: string) => ScriptRewrite(content, paths.script);
      var tf := (content: string) => TemplateRewrite(content, paths.template, paths.beforeCompiler);
      var yf := (content: string) => StyleRewrite(content, paths.style, paths.afterLess, theme);
      EscapedPassIdentity(source, ScriptSentinel, RequireCall, sf);
      EscapedPassIdentity(source, ScriptSentinel, ImportOf("__vue_script__"), sf);
      assert AddScriptLoader(source, paths.script) == source;
      NoOpeningFixes(source, RequireCall, yf);
      ReplaceMatchesFixed(source, RequireCall, yf);
      assert AddStyleLoader(source, paths.style, paths.afterLess, theme) == source;
      EscapedPassIdentity(source, TemplateSentinel, RequireCall, tf);
      EscapedPassIdentity(source, TemplateSentinel, ImportOf("__vue_template__"), tf);
      assert AddTemplateLoader(source, paths.template, paths.beforeCompiler) == source;
    }
  }
}
