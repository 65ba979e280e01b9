/**
 * The configuration merge: given the caller's webpack configuration and the
 * framework options, record the options where the loader will find them,
 * rewrite the module rules, add the plugins the framework options ask for,
 * and define the global locale constants.
 */
module ConfigMerge {
  import opened Wrappers
  import opened Strings
  import opened JsValues
  import opened Plugins
  import opened Rules

  /** A webpack plugin instance, as far as the merge tells them apart. */
  datatype WebpackPlugin =
    | LoaderOptionsPlugin(vux: Option<VuxConfig>, settings: Options)
    | DefinePlugin(definitions: map<string, Value>)
    | InlineManifestPlugin(name: string)
    | ProgressBarPlugin(options: Value)
    | DonePlugin(callbacks: seq<Value>)
    | DuplicateStylePlugin(options: Value)
    | EmitPlugin(callback: Value)
    | HtmlBuildCallbackPlugin(descriptor: Plugin)
    | OtherPlugin(id: nat)

  /** The `module` section: its `rules` and `loaders` arrays, when present. */
  datatype ModuleSection = ModuleSection(rules: Option<seq<Rule>>, loaders: Option<seq<Rule>>)

  /** The `vue` section of a webpack 1 configuration: absent, or with an optional `loaders` map. */
  datatype VueSection = NoVue | VueOptions(loaders: Option<Options>)

  datatype WebpackConfig = WebpackConfig(
    modules: ModuleSection,
    plugins: seq<WebpackPlugin>,
    vue: VueSection,
    vux: Option<VuxConfig>,
    vuxMaps: Value,
    vuxLocales: Value)

  /** `{module: {}, plugins: []}`: what the merge starts from when the caller passes nothing. */
  const EmptyConfig: WebpackConfig := WebpackConfig(ModuleSection(None, None), [], NoVue, None, Undefined, Undefined)

  /**
   * What the merge reads from outside: the working directory, the js
   * post-loader's path, and the files it looks up under the project root.
   */
  datatype Environment = Environment(
    cwd: string,
    jsLoader: string,
    vueVersionAt: string -> Value,                // version of <root>/node_modules/vue/package.json; undefined if unreadable
    declaredWebpack: string -> Option<string>,    // devDependencies.webpack of <root>/package.json
    atLeastVersion2: string -> bool,              // compareVersions(v, '2.0.0') > -1
    readJson: string -> Value,                    // require(path)
    readYaml: string -> Option<Value>,            // yaml.safeLoad(fs.readFileSync(path)); None when either fails
    realPath: string -> string)                   // fs.realpathSync(path)

  // ------------------------------------------------- the previous framework options

  /** A loader-options plugin that carries framework options. */
  predicate CarriesVuxOptions(p: WebpackPlugin) {
    p.LoaderOptionsPlugin? && p.vux.Some?
  }

  /**
   * The framework options recorded by an earlier merge: those of the last
   * loader-options plugin that carries some, else `initial` (the configuration's
   * own `vux` field).
   */
  function LastVux(ps: seq<WebpackPlugin>, initial: Option<VuxConfig>): (r: Option<VuxConfig>)
    ensures (forall i :: 0 <= i < |ps| ==> !CarriesVuxOptions(ps[i])) ==> r == initial
    ensures |ps| > 0 && CarriesVuxOptions(ps[|ps| - 1]) ==> r == ps[|ps| - 1].vux
    ensures r == initial || exists i :: 0 <= i < |ps| && CarriesVuxOptions(ps[i]) && r == ps[i].vux
    decreases |ps|
  {
    if |ps| == 0 then initial
    else if CarriesVuxOptions(ps[|ps| - 1]) then ps[|ps| - 1].vux
    else LastVux(ps[..|ps| - 1], initial)
  }

  /** Plugins appended after the last carrier do not change what `LastVux` finds. */
  lemma {:induction false} LastVuxAppend(ps: seq<WebpackPlugin>, more: seq<WebpackPlugin>, initial: Option<VuxConfig>)
    requires forall i :: 0 <= i < |more| ==> !CarriesVuxOptions(more[i])
    ensures LastVux(ps + more, initial) == LastVux(ps, initial)
    decreases |more|
  {
    if |more| > 0 {
      var shorter := more[..|more| - 1];
      assert (ps + more)[..|ps + more| - 1] == ps + shorter;
      assert (ps + more)[|ps + more| - 1] == more[|more| - 1];
      LastVuxAppend(ps, shorter, initial);
    } else {
      assert ps + more == ps;
    }
  }

  // ------------------------------------------- removing the old framework options

  /**
   * `config.plugins.forEach((plugin, index) => { if (...) config.plugins.splice(index, 1) })`
   * from index `k`, the traversal fixed at `n` indices: after a removal the
   * next plugin slides into the current index and is not visited.
   */
  function DropFrom(a: seq<WebpackPlugin>, k: nat, n: nat): seq<WebpackPlugin>
    requires |a| <= n
    decreases n - k
  {
    if k >= n then a
    else if k < |a| && CarriesVuxOptions(a[k]) then DropFrom(a[..k] + a[k + 1..], k + 1, n)
    else DropFrom(a, k + 1, n)
  }

  function DropVuxOptions(ps: seq<WebpackPlugin>): seq<WebpackPlugin> {
    DropFrom(ps, 0, |ps|)
  }

  /**
   * The same removal read along the original list: a carrier is dropped and
   * the plugin right after it is kept without being looked at.
   */
  function SkipAfterDrop(xs: seq<WebpackPlugin>): (r: seq<WebpackPlugin>)
    ensures |r| <= |xs|
    decreases |xs|
  {
    if |xs| == 0 then []
    else if CarriesVuxOptions(xs[0]) then (if |xs| >= 2 then [xs[1]] + SkipAfterDrop(xs[2..]) else [])
    else [xs[0]] + SkipAfterDrop(xs[1..])
  }

  lemma {:induction false} DropFromSkips(a: seq<WebpackPlugin>, k: nat, n: nat)
    requires |a| <= n
    ensures DropFrom(a, k, n) == if k >= |a| then a else a[..k] + SkipAfterDrop(a[k..])
    decreases n - k
  {
    if k < n {
      if k < |a| && CarriesVuxOptions(a[k]) {
        DropFromSkips(a[..k] + a[k + 1..], k + 1, n);
        CarrierStep(a, k);
      } else if k < |a| {
        DropFromSkips(a, k + 1, n);
        KeepStep(a, k);
      } else {
        DropFromSkips(a, k + 1, n);
      }
    }
  }

  /** A carrier at `k` is removed and the plugin after it moves to `k`, where the scan no longer looks. */
  lemma CarrierStep(a: seq<WebpackPlugin>, k: nat)
    requires k < |a| && CarriesVuxOptions(a[k])
    ensures var b := a[..k] + a[k + 1..];
      (if k + 1 >= |b| then b else b[..k + 1] + SkipAfterDrop(b[k + 1..])) == a[..k] + SkipAfterDrop(a[k..])
  {
    var b := a[..k] + a[k + 1..];
    if k + 1 < |b| {
      CarrierInside(a, k);
    } else if k + 1 == |b| {
      assert a[k..] == [a[k], a[k + 1]];
      assert b == a[..k] + [a[k + 1]];
    } else {
      assert a[k..] == [a[k]];
      assert b == a[..k];
    }
  }

  /** The removal of a carrier followed by at least two plugins. */
  lemma CarrierInside(a: seq<WebpackPlugin>, k: nat)
    requires k + 2 < |a| && CarriesVuxOptions(a[k])
    ensures var b := a[..k] + a[k + 1..];
      b[..k + 1] + SkipAfterDrop(b[k + 1..]) == a[..k] + SkipAfterDrop(a[k..])
  {
    var b := a[..k] + a[k + 1..];
    var rest := SkipAfterDrop(a[k + 2..]);
    SkipCarrierHead(a[k..]);
    assert a[k..][1] == a[k + 1] && a[k..][2..] == a[k + 2..];
    assert b[..k + 1] == a[..k] + [a[k + 1]];
    assert b[k + 1..] == a[k + 2..];
    assert (a[..k] + [a[k + 1]]) + rest == a[..k] + ([a[k + 1]] + rest);
  }

  lemma SkipCarrierHead(xs: seq<WebpackPlugin>)
    requires |xs| >= 2 && CarriesVuxOptions(xs[0])
    ensures SkipAfterDrop(xs) == [xs[1]] + SkipAfterDrop(xs[2..])
  {
  }

  /** A plugin that carries no options stays where it is. */
  lemma KeepStep(a: seq<WebpackPlugin>, k: nat)
    requires k < |a| && !CarriesVuxOptions(a[k])
    ensures (if k + 1 >= |a| then a else a[..k + 1] + SkipAfterDrop(a[k + 1..])) == a[..k] + SkipAfterDrop(a[k..])
  {
    if k + 1 < |a| {
      assert a[..k + 1] == a[..k] + [a[k]];
      assert a[k..][1..] == a[k + 1..];
    } else {
      assert a[k..] == [a[k]];
      assert a[..k + 1] == a;
    }
  }

  /** No two carriers stand next to each other. */
  predicate NoAdjacentCarriers(xs: seq<WebpackPlugin>) {
    forall i :: 0 <= i < |xs| - 1 ==> !(CarriesVuxOptions(xs[i]) && CarriesVuxOptions(xs[i + 1]))
  }

  /** Without adjacent carriers, the removal leaves no carrier and keeps every other plugin in order. */
  lemma {:induction false} SkipAfterDropFilters(xs: seq<WebpackPlugin>)
    requires NoAdjacentCarriers(xs)
    ensures forall i :: 0 <= i < |SkipAfterDrop(xs)| ==> !CarriesVuxOptions(SkipAfterDrop(xs)[i])
    ensures forall p :: p in xs && !CarriesVuxOptions(p) ==> p in SkipAfterDrop(xs)
    decreases |xs|
  {
    if |xs| > 0 {
      if CarriesVuxOptions(xs[0]) {
        if |xs| >= 2 {
          assert !CarriesVuxOptions(xs[1]);
          assert NoAdjacentCarriers(xs[2..]) by {
            forall i | 0 <= i < |xs[2..]| - 1 ensures !(CarriesVuxOptions(xs[2..][i]) && CarriesVuxOptions(xs[2..][i + 1])) {
              assert xs[2..][i] == xs[i + 2] && xs[2..][i + 1] == xs[i + 3];
            }
          }
          SkipAfterDropFilters(xs[2..]);
          assert xs == [xs[0], xs[1]] + xs[2..];
        }
      } else {
        assert NoAdjacentCarriers(xs[1..]) by {
          forall i | 0 <= i < |xs[1..]| - 1 ensures !(CarriesVuxOptions(xs[1..][i]) && CarriesVuxOptions(xs[1..][i + 1])) {
            assert xs[1..][i] == xs[i + 1] && xs[1..][i + 1] == xs[i + 2];
          }
        }
        SkipAfterDropFilters(xs[1..]);
        assert xs == [xs[0]] + xs[1..];
      }
    }
  }

  /** The removal on a list without adjacent carriers drops every carrier and nothing else. */
  lemma DropVuxOptionsFilters(ps: seq<WebpackPlugin>)
    requires NoAdjacentCarriers(ps)
    ensures forall i :: 0 <= i < |DropVuxOptions(ps)| ==> !CarriesVuxOptions(DropVuxOptions(ps)[i])
    ensures forall p :: p in ps && !CarriesVuxOptions(p) ==> p in DropVuxOptions(ps)
  {
    DropFromSkips(ps, 0, |ps|);
    if |ps| > 0 {
      assert ps[..0] + SkipAfterDrop(ps[0..]) == SkipAfterDrop(ps);
    }
    SkipAfterDropFilters(ps);
  }

  /** Two carriers in a row: the second slides into the removed one's index and survives. */
  lemma AdjacentCarrierSurvives(x: WebpackPlugin, y: WebpackPlugin)
    requires CarriesVuxOptions(x) && CarriesVuxOptions(y)
    ensures DropVuxOptions([x, y]) == [y]
  {
    DropFromSkips([x, y], 0, 2);
    assert [x, y][0..] == [x, y] && [x, y][2..] == [];
  }

  // ----------------------------------------------------------- options and schema

  /**
   * The settings the merge adds: `projectRoot` (the working directory unless
   * set), `vueVersion` (read under the project root) and `useVuxUI`.
   */
  function Finalise(v: VuxConfig, env: Environment): (r: VuxConfig)
    ensures r.plugins == v.plugins && r.allPlugins == v.allPlugins
    ensures Truthy(Get(v.options, "projectRoot")) ==> Get(r.options, "projectRoot") == Get(v.options, "projectRoot")
    ensures !Truthy(Get(v.options, "projectRoot")) ==> Get(r.options, "projectRoot") == Str(env.cwd)
    ensures Get(r.options, "vueVersion") == env.vueVersionAt(ToJsString(Get(r.options, "projectRoot")))
    ensures Get(r.options, "useVuxUI") == Bool(true)
    ensures forall k :: k in v.options && k !in {"projectRoot", "vueVersion", "useVuxUI"} ==> k in r.options && r.options[k] == v.options[k]
  {
    var o1 := if Truthy(Get(v.options, "projectRoot")) then v.options else v.options["projectRoot" := Str(env.cwd)];
    var root := ToJsString(Get(o1, "projectRoot"));
    var o2 := o1["vueVersion" := env.vueVersionAt(root)];
    v.(options := o2["useVuxUI" := Bool(true)])
  }

  function ProjectRoot(v: VuxConfig): string {
    ToJsString(Get(v.options, "projectRoot"))
  }

  /** A declared version with its range prefix removed: `v.replace('^', '').replace('~', '')`. */
  function BareVersion(v: string): string {
    ReplaceFirst(ReplaceFirst(v, "^", ""), "~", "")
  }

  /**
   * The configuration schema: the `isWebpack2` option when given; else a
   * `rules` array means webpack 2, a `loaders` array webpack 1; else the
   * webpack version the project declares, webpack 2 when it declares none.
   */
  function DetectSchema(options: Options, prev: ModuleSection, root: string, env: Environment): (s: Schema)
    ensures Get(options, "isWebpack2") != Undefined ==> (s == Current <==> Truthy(Get(options, "isWebpack2")))
    ensures Get(options, "isWebpack2") == Undefined && prev.rules.Some? ==> s == Current
    ensures Get(options, "isWebpack2") == Undefined && prev.rules.None? && prev.loaders.Some? ==> s == Legacy
    ensures Get(options, "isWebpack2") == Undefined && prev.rules.None? && prev.loaders.None? ==>
      (s == Legacy <==> env.declaredWebpack(root).Some? && env.declaredWebpack(root).value != ""
                        && !env.atLeastVersion2(BareVersion(env.declaredWebpack(root).value)))
  {
    var explicit := Get(options, "isWebpack2");
    if explicit != Undefined then (if Truthy(explicit) then Current else Legacy)
    else if prev.rules.Some? then Current
    else if prev.loaders.Some? then Legacy
    else
      match env.declaredWebpack(root)
      case None => Current
      case Some(v) => if v == "" || env.atLeastVersion2(BareVersion(v)) then Current else Legacy
  }

  const NoopLoader: string := "vux-loader/src/noop-loader.js"

  /** For webpack 1, the `i18n` custom block goes through the no-op loader. */
  function LegacyVue(vue: VueSection): (r: VueSection)
    ensures r.VueOptions? && r.loaders.Some? && Get(r.loaders.value, "i18n") == Str(NoopLoader)
    ensures vue.VueOptions? && vue.loaders.Some? ==>
      forall k :: k in vue.loaders.value && k != "i18n" ==> k in r.loaders.value && r.loaders.value[k] == vue.loaders.value[k]
  {
    match vue
    case NoVue => VueOptions(Some(map["i18n" := Str(NoopLoader)]))
    case VueOptions(None) => VueOptions(Some(map["i18n" := Str(NoopLoader)]))
    case VueOptions(Some(m)) => VueOptions(Some(m["i18n" := Str(NoopLoader)]))
  }

  /** The rule list the schema uses: `config.module[loaderKey] || []`. */
  function RuleList(m: ModuleSection, schema: Schema): seq<Rule> {
    match schema
    case Current => m.rules.GetOr([])
    case Legacy => m.loaders.GetOr([])
  }

  function WithRuleList(m: ModuleSection, schema: Schema, rules: seq<Rule>): (r: ModuleSection)
    ensures RuleList(r, schema) == rules
    ensures schema == Current ==> r.loaders == m.loaders
    ensures schema == Legacy ==> r.rules == m.rules
  {
    match schema
    case Current => m.(rules := Some(rules))
    case Legacy => m.(loaders := Some(rules))
  }

  // ---------------------------------------------------------------- side plugins

  /** The plugin-option value given to a plugin, or `{}`: `plugin.options || {}`. */
  function OptionsOr(p: Plugin): (r: Value)
    ensures Truthy(r)
    ensures Truthy(Get(p.fields, "options")) ==> r == Get(p.fields, "options")
    ensures !Truthy(Get(p.fields, "options")) ==> r == EmptyObject
  {
    Or(Get(p.fields, "options"), EmptyObject)
  }

  /** `vuxConfig.options.vuxDev ? dev : installed`, under the project root. */
  function UnderRoot(v: VuxConfig, installed: string, dev: string): string {
    ProjectRoot(v) + "/" + (if Truthy(Get(v.options, "vuxDev")) then dev else installed)
  }

  function MapsPath(v: VuxConfig): string {
    UnderRoot(v, "node_modules/vux/src/components/map.json", "src/components/map.json")
  }

  function LocalesPath(v: VuxConfig): string {
    UnderRoot(v, "node_modules/vux/src/locales/all.yml", "src/locales/all.yml")
  }

  /** No plugin of `ps` carries framework options. */
  predicate NoCarriers(ps: seq<WebpackPlugin>) {
    forall i :: 0 <= i < |ps| ==> !CarriesVuxOptions(ps[i])
  }

  lemma NoCarriersConcat(a: seq<WebpackPlugin>, b: seq<WebpackPlugin>)
    requires NoCarriers(a) && NoCarriers(b)
    ensures NoCarriers(a + b)
  {
    forall i | 0 <= i < |a + b| ensures !CarriesVuxOptions((a + b)[i]) {
      if i >= |a| { assert (a + b)[i] == b[i - |a|]; }
    }
  }

  /** `[p]` when `c` holds, else nothing: a conditional `config.plugins.push(p)`. */
  function PushIf(c: bool, p: WebpackPlugin): (r: seq<WebpackPlugin>)
    ensures c ==> r == [p]
    ensures !c ==> r == []
  {
    if c then [p] else []
  }

  /** `new InlineManifestWebpackPlugin({name: 'webpackManifest'})` when the plugin is asked for. */
  function ManifestPlugins(v: VuxConfig): (r: seq<WebpackPlugin>)
    ensures NoCarriers(r)
    ensures (|r| > 0 && r[0] == InlineManifestPlugin("webpackManifest")) <==> HasPlugin("inline-manifest", v.plugins)
    ensures |r| == if HasPlugin("inline-manifest", v.plugins) then 1 else 0
  {
    PushIf(HasPlugin("inline-manifest", v.plugins), InlineManifestPlugin("webpackManifest"))
  }

  /** The progress bar, with the first descriptor's options or `{}`. */
  function ProgressPlugins(v: VuxConfig): (r: seq<WebpackPlugin>)
    ensures NoCarriers(r)
    ensures |r| == if HasPlugin("progress-bar", v.plugins) then 1 else 0
    ensures |r| > 0 ==> r[0].ProgressBarPlugin? && Truthy(r[0].options)
    ensures |r| > 0 && Truthy(Get(FirstPlugin("progress-bar", v.plugins).value.fields, "options")) ==>
      r[0].options == Get(FirstPlugin("progress-bar", v.plugins).value.fields, "options")
    ensures |r| > 0 && !Truthy(Get(FirstPlugin("progress-bar", v.plugins).value.fields, "options")) ==>
      r[0].options == EmptyObject
  {
    if HasPlugin("progress-bar", v.plugins) then [ProgressBarPlugin(OptionsOr(FirstPlugin("progress-bar", v.plugins).value))] else []
  }

  /** For webpack 2, the component map and the locales travel in loader-options plugins without framework options. */
  function LibraryDataPlugins(v: VuxConfig, schema: Schema, env: Environment): (r: seq<WebpackPlugin>)
    ensures NoCarriers(r)
    ensures schema == Legacy || !HasPlugin("vux-ui", v.plugins) ==> r == []
    ensures schema == Current && HasPlugin("vux-ui", v.plugins) ==>
      && |r| == (if env.readYaml(LocalesPath(v)).Some? then 2 else 1)
      && r[0] == LoaderOptionsPlugin(None, map["vuxMaps" := env.readJson(MapsPath(v))])
      && (|r| == 2 ==> r[1] == LoaderOptionsPlugin(None, map["vuxLocales" := env.readYaml(LocalesPath(v)).value]))
  {
    var ui := HasPlugin("vux-ui", v.plugins) && schema == Current;
    var locales := env.readYaml(LocalesPath(v));
    PushIf(ui, LoaderOptionsPlugin(None, map["vuxMaps" := env.readJson(MapsPath(v))]))
    + PushIf(ui && locales.Some?, LoaderOptionsPlugin(None, map["vuxLocales" := locales.GetOr(Undefined)]))
  }

  /**
   * The plugins added before the rules are rewritten: the inline manifest,
   * the progress bar, and for webpack 2 the component map and the locales of
   * the component library.
   */
  function EarlyPlugins(v: VuxConfig, schema: Schema, env: Environment): (r: seq<WebpackPlugin>)
    ensures NoCarriers(r)
    ensures r == ManifestPlugins(v) + ProgressPlugins(v) + LibraryDataPlugins(v, schema, env)
  {
    var a := ManifestPlugins(v);
    var b := ProgressPlugins(v);
    var c := LibraryDataPlugins(v, schema, env);
    NoCarriersConcat(a, b);
    NoCarriersConcat(a + b, c);
    a + b + c
  }

  /** The `fn` fields of the plugins named `name`, in order: `filter(...).map(one => one.fn)`. */
  function Callbacks(ps: seq<Plugin>, name: string): (r: seq<Value>)
    ensures |r| == |Matching(ps, name)|
    ensures forall i :: 0 <= i < |r| ==> r[i] == Get(Matching(ps, name)[i].fields, "fn")
  {
    if |ps| == 0 then []
    else (if ps[0].name == name then [Get(ps[0].fields, "fn")] else []) + Callbacks(ps[1..], name)
  }

  /** The build-done plugin with every `fn` of the `build-done-callback` descriptors. */
  function DonePlugins(ps: seq<Plugin>): (r: seq<WebpackPlugin>)
    ensures NoCarriers(r)
    ensures |r| == if HasPlugin("build-done-callback", ps) then 1 else 0
    ensures |r| > 0 ==> r[0] == DonePlugin(Callbacks(ps, "build-done-callback"))
    ensures |r| > 0 ==> |r[0].callbacks| == |Matching(ps, "build-done-callback")|
  {
    PushIf(HasPlugin("build-done-callback", ps), DonePlugin(Callbacks(ps, "build-done-callback")))
  }

  /** The duplicate-style plugin, with the first descriptor's options or `{}`. */
  function DuplicateStylePlugins(ps: seq<Plugin>): (r: seq<WebpackPlugin>)
    ensures NoCarriers(r)
    ensures |r| == if HasPlugin("duplicate-style", ps) then 1 else 0
    ensures |r| > 0 ==> r[0].DuplicateStylePlugin? && Truthy(r[0].options)
    ensures |r| > 0 && Truthy(Get(FirstPlugin("duplicate-style", ps).value.fields, "options")) ==>
      r[0].options == Get(FirstPlugin("duplicate-style", ps).value.fields, "options")
    ensures |r| > 0 && !Truthy(Get(FirstPlugin("duplicate-style", ps).value.fields, "options")) ==>
      r[0].options == EmptyObject
  {
    if HasPlugin("duplicate-style", ps) then [DuplicateStylePlugin(OptionsOr(FirstPlugin("duplicate-style", ps).value))] else []
  }

  /** The emit plugin, with the `fn` of the first `build-emit-callback` descriptor. */
  function EmitPlugins(ps: seq<Plugin>): (r: seq<WebpackPlugin>)
    ensures NoCarriers(r)
    ensures |r| == if HasPlugin("build-emit-callback", ps) then 1 else 0
    ensures |r| > 0 ==> r[0] == EmitPlugin(Get(FirstPlugin("build-emit-callback", ps).value.fields, "fn"))
  {
    if HasPlugin("build-emit-callback", ps) then [EmitPlugin(Callbacks(ps, "build-emit-callback")[0])] else []
  }

  /** The html-build-callback plugin, given the whole first descriptor. */
  function HtmlCallbackPlugins(ps: seq<Plugin>): (r: seq<WebpackPlugin>)
    ensures NoCarriers(r)
    ensures |r| == if HasPlugin("html-build-callback", ps) then 1 else 0
    ensures |r| > 0 ==> r[0] == HtmlBuildCallbackPlugin(FirstPlugin("html-build-callback", ps).value)
  {
    if HasPlugin("html-build-callback", ps) then [HtmlBuildCallbackPlugin(FirstPlugin("html-build-callback", ps).value)] else []
  }

  /** The plugins added after the rules: build-done callbacks, duplicate-style, emit callback, html callback. */
  function LatePlugins(v: VuxConfig): (r: seq<WebpackPlugin>)
    ensures NoCarriers(r)
    ensures r == DonePlugins(v.plugins) + DuplicateStylePlugins(v.plugins) + EmitPlugins(v.plugins) + HtmlCallbackPlugins(v.plugins)
  {
    var a := DonePlugins(v.plugins);
    var b := DuplicateStylePlugins(v.plugins);
    var c := EmitPlugins(v.plugins);
    var d := HtmlCallbackPlugins(v.plugins);
    NoCarriersConcat(a, b);
    NoCarriersConcat(a + b, c);
    NoCarriersConcat(a + b + c, d);
    a + b + c + d
  }

  /** The rule that compiles the component library's own sources with Babel. */
  function VuxBabelRule(root: string, env: Environment): (r: Rule)
    ensures r.loader == Str("babel-loader") && r.use.NoUse?
    ensures r.test == Regex("node_modules.*vux.src.*?js$")
    ensures r.included == Str(env.realPath(root + "/node_modules/vux/"))
    ensures r.options == Undefined && r.query == Undefined
  {
    Rule(Regex("node_modules.*vux.src.*?js$"), Str(env.realPath(root + "/node_modules/vux/")),
         Str("babel-loader"), NoUse, Undefined, Undefined)
  }

  // ------------------------------------------------------------ locale constants

  /**
   * The locale compiled into the code: `zh-CN` without the i18n plugin; the
   * plugin's `vuxLocale` when it asks for static replacement and names one;
   * `MULTI` when static replacement is switched off with `false`; else empty.
   */
  function ResolveLocale(ps: seq<Plugin>): (r: Value)
    ensures !HasPlugin("i18n", ps) ==> r == Str("zh-CN")
    ensures HasPlugin("i18n", ps) ==>
      var p := FirstPlugin("i18n", ps).value;
      var sr := Get(p.fields, "vuxStaticReplace");
      (Truthy(sr) && Truthy(Get(p.fields, "vuxLocale")) ==> r == Get(p.fields, "vuxLocale"))
      && (sr == Bool(false) ==> r == Str("MULTI"))
      && (!(Truthy(sr) && Truthy(Get(p.fields, "vuxLocale"))) && sr != Bool(false) ==> r == Str(""))
  {
    match FirstPlugin("i18n", ps)
    case None => Str("zh-CN")
    case Some(p) =>
      var sr := Get(p.fields, "vuxStaticReplace");
      var locale := Get(p.fields, "vuxLocale");
      if Truthy(sr) && Truthy(locale) then locale
      else if sr == Bool(false) then Str("MULTI")
      else Str("")
  }

  /**
   * `JSON.stringify` of a locale or flag value; any other value, which the
   * locale only is when a caller sets `vuxLocale` to one, gets the text `{}`.
   */
  function Json(v: Value): (r: string)
    ensures v.Str? ==> r == JsonString(v.s)
    ensures v.Bool? ==> r == (if v.b then "true" else "false")
    ensures |r| > 0
  {
    match v
    case Str(s) => JsonString(s)
    case Bool(b) => if b then "true" else "false"
    case _ => "{}"
  }

  /** A define plugin that already defines `V_LOCALE`. */
  predicate DefinesLocale(p: WebpackPlugin) {
    p.DefinePlugin? && "V_LOCALE" in p.definitions && Truthy(p.definitions["V_LOCALE"])
  }

  predicate AnyDefinesLocale(ps: seq<WebpackPlugin>) {
    exists i :: 0 <= i < |ps| && DefinesLocale(ps[i])
  }

  function LocaleDefinitions(locale: Value, ssr: bool): map<string, Value> {
    map["V_LOCALE" := Str(Json(locale)), "V_SSR" := Str(Json(Bool(ssr))), "SUPPORT_SSR_TAG" := Str(Json(Bool(true)))]
  }

  /** Adds the locale constants unless some define plugin already sets `V_LOCALE`. */
  function AddDefine(ps: seq<WebpackPlugin>, locale: Value, ssr: bool): (r: seq<WebpackPlugin>)
    ensures AnyDefinesLocale(ps) ==> r == ps
    ensures !AnyDefinesLocale(ps) ==> r == ps + [DefinePlugin(LocaleDefinitions(locale, ssr))]
  {
    if AnyDefinesLocale(ps) then ps else ps + [DefinePlugin(LocaleDefinitions(locale, ssr))]
  }

  /** After `AddDefine` some plugin defines `V_LOCALE`, so a second call adds nothing. */
  lemma AddDefineIdempotent(ps: seq<WebpackPlugin>, locale: Value, ssr: bool, locale2: Value, ssr2: bool)
    ensures AnyDefinesLocale(AddDefine(ps, locale, ssr))
    ensures AddDefine(AddDefine(ps, locale, ssr), locale2, ssr2) == AddDefine(ps, locale, ssr)
  {
    var r := AddDefine(ps, locale, ssr);
    if !AnyDefinesLocale(ps) {
      var d := LocaleDefinitions(locale, ssr);
      assert Truthy(d["V_LOCALE"]);
      assert DefinesLocale(r[|ps|]);
    }
  }

  /** The defined locale reads back, through `JSON.parse`, as the resolved locale. */
  lemma LocaleReadsBack(ps: seq<Plugin>)
    requires ResolveLocale(ps).Str?
    ensures JsonParseString(LocaleDefinitions(ResolveLocale(ps), false)["V_LOCALE"].s) == Some(ResolveLocale(ps).s)
  {
    JsonStringReadsBack(ResolveLocale(ps).s);
  }

  // ------------------------------------------------------------------- the merge

  /**
   * The framework options after normalisation, the duplicate check, the merge
   * with those recorded in `prev`, the environment filter and the added settings.
   */
  function PrepareOptions(prev: WebpackConfig, input: Option<VuxInput>, env: Environment): (r: Result<VuxConfig, string>)
    ensures r.Failure? <==> !NamesDistinct(Normalise(input).plugins)
    ensures r.Failure? ==> exists n :: r.error == DuplicateMessage(n) && |Matching(Normalise(input).plugins, n)| >= 2
  {
    match Prepare(input, LastVux(prev.plugins, prev.vux))
    case Failure(e) => Failure(e)
    case Success(v) => Success(Finalise(v, env))
  }

  /** The rule passes: the `.vue` rewrite (unless switched off), then TypeScript, then Babel, then the library rule. */
  function RewriteRules(rules: seq<Rule>, v: VuxConfig, schema: Schema, env: Environment): (r: seq<Rule>)
    ensures |r| >= |rules|
  {
    var o := v.options;
    var loaderString := Or(Get(o, "loaderString"), Str(DefaultLoaderString));
    var rewrite := Get(o, "rewriteLoaderString");
    var r1 := if rewrite == Undefined || rewrite == Bool(true) then RewriteVueRules(rules, schema, loaderString) else rules;
    var r2 := AppendJsLoaders(r1, TypeScript, schema, env.jsLoader);
    var r3 := AppendJsLoaders(r2, Babel, schema, env.jsLoader);
    var setBabel := Get(o, "vuxSetBabel");
    if HasPlugin("vux-ui", v.plugins) && (setBabel == Undefined || setBabel == Bool(true))
    then r3 + [VuxBabelRule(ProjectRoot(v), env)]
    else r3
  }

  /** The plugin list of the result, before the locale constants. */
  function KeptAndOwn(prev: WebpackConfig, v: VuxConfig, schema: Schema): (r: seq<WebpackPlugin>)
    ensures schema == Current ==> r == DropVuxOptions(prev.plugins) + [LoaderOptionsPlugin(Some(v), map[])]
    ensures schema == Legacy ==> r == prev.plugins
  {
    if schema == Current then DropVuxOptions(prev.plugins) + [LoaderOptionsPlugin(Some(v), map[])] else prev.plugins
  }

  /** The schema the merge settles on for prepared framework options `v`. */
  function SchemaFor(prev: WebpackConfig, v: VuxConfig, env: Environment): Schema {
    DetectSchema(v.options, prev.modules, ProjectRoot(v), env)
  }

  /** The plugin list of the merged configuration. */
  function AssembledPlugins(prev: WebpackConfig, v: VuxConfig, env: Environment): seq<WebpackPlugin> {
    var schema := SchemaFor(prev, v, env);
    var plugins := KeptAndOwn(prev, v, schema) + (EarlyPlugins(v, schema, env) + LatePlugins(v));
    AddDefine(plugins, ResolveLocale(v.plugins), Truthy(Get(v.options, "ssr")))
  }

  /** The merged configuration for prepared framework options `v`. */
  function Assemble(prev: WebpackConfig, v: VuxConfig, env: Environment): (r: WebpackConfig)
    ensures r.plugins == AssembledPlugins(prev, v, env)
    ensures SchemaFor(prev, v, env) == Legacy ==> r.vux == Some(v) && r.vue.VueOptions?
    ensures SchemaFor(prev, v, env) == Current ==> r.vux == prev.vux && r.vue == prev.vue
    ensures RuleList(r.modules, SchemaFor(prev, v, env)) == RewriteRules(RuleList(prev.modules, SchemaFor(prev, v, env)), v, SchemaFor(prev, v, env), env)
  {
    var schema := SchemaFor(prev, v, env);
    var ui := HasPlugin("vux-ui", v.plugins);
    var legacy := schema == Legacy;
    var locales := env.readYaml(LocalesPath(v));
    WebpackConfig(
      WithRuleList(prev.modules, schema, RewriteRules(RuleList(prev.modules, schema), v, schema, env)),
      AssembledPlugins(prev, v, env),
      if legacy then LegacyVue(prev.vue) else prev.vue,
      if legacy then Some(v) else prev.vux,
      if legacy && ui then env.readJson(MapsPath(v)) else prev.vuxMaps,
      if legacy && ui && locales.Some? then locales.value else prev.vuxLocales)
  }

  /**
   * `merge(oldConfig, vuxConfig)`: fails with the duplicate-name message when
   * the supplied plugin list names a plugin twice; otherwise the assembled
   * configuration.
   */
  function Merge(prev: Option<WebpackConfig>, input: Option<VuxInput>, env: Environment): (r: Result<WebpackConfig, string>)
    ensures r.Failure? <==> !NamesDistinct(Normalise(input).plugins)
    ensures r.Failure? ==> exists n :: r.error == DuplicateMessage(n) && |Matching(Normalise(input).plugins, n)| >= 2
    ensures r.Success? ==> r.value == Assemble(prev.GetOr(EmptyConfig), PrepareOptions(prev.GetOr(EmptyConfig), input, env).value, env)
  {
    var base := prev.GetOr(EmptyConfig);
    match PrepareOptions(base, input, env)
    case Failure(e) => Failure(e)
    case Success(v) => Success(Assemble(base, v, env))
  }

  /** Adding the locale constants keeps a prefix and adds no carrier. */
  lemma DefineKeepsPrefix(kept: seq<WebpackPlugin>, tail: seq<WebpackPlugin>, locale: Value, ssr: bool)
    requires NoCarriers(tail)
    ensures var r := AddDefine(kept + tail, locale, ssr);
      |kept| <= |r| && r == kept + r[|kept|..] && NoCarriers(r[|kept|..])
  {
    var r := AddDefine(kept + tail, locale, ssr);
    var define := DefinePlugin(LocaleDefinitions(locale, ssr));
    if AnyDefinesLocale(kept + tail) {
      assert r[|kept|..] == tail;
    } else {
      assert r == kept + (tail + [define]);
      NoCarriersConcat(tail, [define]);
      assert r[|kept|..] == tail + [define];
    }
  }

  /** Everything after the kept plugins carries no framework options. */
  lemma AssembledTail(prev: WebpackConfig, v: VuxConfig, env: Environment)
    ensures var kept := KeptAndOwn(prev, v, SchemaFor(prev, v, env));
      var r := AssembledPlugins(prev, v, env);
      |kept| <= |r| && r == kept + r[|kept|..] && NoCarriers(r[|kept|..])
  {
    var schema := SchemaFor(prev, v, env);
    var early := EarlyPlugins(v, schema, env);
    var late := LatePlugins(v);
    NoCarriersConcat(early, late);
    DefineKeepsPrefix(KeptAndOwn(prev, v, schema), early + late, ResolveLocale(v.plugins), Truthy(Get(v.options, "ssr")));
  }

  /** The options found in the kept plugins, before anything is added after them. */
  lemma KeptRecords(prev: WebpackConfig, v: VuxConfig, schema: Schema, initial: Option<VuxConfig>)
    requires schema == Legacy ==> initial == Some(v) && NoCarriers(prev.plugins)
    ensures LastVux(KeptAndOwn(prev, v, schema), initial) == Some(v)
  {
    var kept := KeptAndOwn(prev, v, schema);
    if schema == Current {
      assert kept[|kept| - 1] == LoaderOptionsPlugin(Some(v), map[]);
    }
  }

  /**
   * The assembled configuration records `v` where the next merge looks for
   * it: the last carrier (webpack 2), or the `vux` field (webpack 1) when no
   * plugin of the previous configuration carries framework options.
   */
  lemma AssembleRecords(prev: WebpackConfig, v: VuxConfig, env: Environment)
    requires SchemaFor(prev, v, env) == Current || NoCarriers(prev.plugins)
    ensures LastVux(Assemble(prev, v, env).plugins, Assemble(prev, v, env).vux) == Some(v)
  {
    var schema := SchemaFor(prev, v, env);
    var kept := KeptAndOwn(prev, v, schema);
    var ps := AssembledPlugins(prev, v, env);
    var initial := Assemble(prev, v, env).vux;
    AssembledTail(prev, v, env);
    LastVuxAppend(kept, ps[|kept|..], initial);
    KeptRecords(prev, v, schema, initial);
  }

  /**
   * A merge with distinct plugin names, which succeeds, records its framework options where the next merge
   * and the loader look first: in the last loader-options plugin carrying
   * some (webpack 2), or in the `vux` field (webpack 1) when no plugin of the
   * previous configuration carries framework options.
   */
  lemma MergeRecordsOptions(prev: Option<WebpackConfig>, input: Option<VuxInput>, env: Environment)
    requires NamesDistinct(Normalise(input).plugins)
    ensures var base := prev.GetOr(EmptyConfig);
      var v := PrepareOptions(base, input, env).value;
      var r := Merge(prev, input, env).value;
      SchemaFor(base, v, env) == Current || NoCarriers(base.plugins) ==> LastVux(r.plugins, r.vux) == Some(v)
  {
    var base := prev.GetOr(EmptyConfig);
    var v := PrepareOptions(base, input, env).value;
    if SchemaFor(base, v, env) == Current || NoCarriers(base.plugins) {
      AssembleRecords(base, v, env);
    }
  }

  /** A merge with distinct plugin names, which succeeds, leaves the locale constants defined. */
  lemma MergeDefinesLocale(prev: Option<WebpackConfig>, input: Option<VuxInput>, env: Environment)
    requires NamesDistinct(Normalise(input).plugins)
    ensures AnyDefinesLocale(Merge(prev, input, env).value.plugins)
  {
    var base := prev.GetOr(EmptyConfig);
    var v := PrepareOptions(base, input, env).value;
    var schema := SchemaFor(base, v, env);
    var plugins := KeptAndOwn(base, v, schema) + (EarlyPlugins(v, schema, env) + LatePlugins(v));
    assert Merge(prev, input, env).value.plugins == AddDefine(plugins, ResolveLocale(v.plugins), Truthy(Get(v.options, "ssr")));
    AddDefineIdempotent(plugins, ResolveLocale(v.plugins), Truthy(Get(v.options, "ssr")), Str(""), false);
  }
}
