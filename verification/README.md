# vux-loader, modelled in Dafny

This project models `src/index.js` of vux-loader, the webpack helper of the
vux component library. That file has two parts, and both are modelled.

* **The loader.** It runs over the module code that `vue-loader` generates for
  a `.vue` file. It finds each `require("…")` or `import __vue_… from "…"`
  request and rewrites the `!`-separated loader chain inside it:
  * the script loader goes in front of the `type=script` part;
  * the template loader goes in front of the `type=template` part, and the
    before-template-compiler loader goes after the template compiler;
  * the style loader goes in front of the `type=style` part;
  * the after-less loader goes in front of `less-loader`, whose query carries
    the theme variables when a `less-theme` plugin is configured and its file
    yields truthy variables.

  Escaped quotes `\"` are swapped for a sentinel (`$VUX$` or `__VUX__`) around
  the script and template passes. In vux development mode, style paths are
  redirected.
* **`merge(oldConfig, vuxConfig)`.** It takes a webpack configuration and the
  framework options (`options` plus a list of plugin descriptors). It does the
  following, in order:
  1. Normalises the options and rejects duplicate plugin names.
  2. Merges the options and the plugin registry (`allPlugins`) with those an
     earlier merge recorded, then filters the plugins by environment.
  3. Detects the webpack 1 or webpack 2 configuration schema, and records the
     options (in a `LoaderOptionsPlugin` for webpack 2, in the `vux` field for
     webpack 1).
  4. Adds the first side plugins the descriptors ask for: the inline manifest,
     the progress bar, and for `vux-ui` the component map and the locales.
  5. Rewrites the module rules:
     * puts `vux-loader` in front of `vue-loader`;
     * puts the js post-loader after `ts-loader` and `babel-loader`;
     * adds a Babel rule for the library's own sources.
  6. Adds the remaining side plugins: the build-done callback, the
     duplicate-style plugin, the emit callback and the html-build callback.
  7. Defines the `V_LOCALE`, `V_SSR` and `SUPPORT_SSR_TAG` constants, unless a
     define plugin already sets `V_LOCALE`.

Modules:

* **Foundation:**
  * `Wrappers`: `Option`, `Result`.
  * `Strings`: occurrence, replace, split and join, with the split/join laws.
  * `JsValues`: the JavaScript values the code inspects, with truthiness, `||`
    and the JSON text of a string.
  * `LoaderChain`: a request as a `!`-separated list of segments.
* **Loader side:**
  * `Sentinels`: the `\"` escape.
  * `RegexForms`: the two regular expressions, as scanners.
  * `SourceRewriter`: the three passes and the loader entry.
* **Merge side:**
  * `Plugins`: descriptors, lookups, the duplicate check, the registry merge
    and the environment filter.
  * `Rules`: the rule rewrites.
  * `ConfigMerge`: the schema, the side plugins, the locale constants and
    `merge` itself.

Behaviour of the code that the model keeps and states as lemmas:

* A plugin that an earlier merge already registered is removed from its place
  and appended at the end of the registry. It is not replaced in place.
* The duplicate check runs on the supplied plugin list, not on the merged
  registry.
* A `require("!!babel-loader…")` request without `type=script` still gets the
  script loader after its first `!!babel-loader!`.
* Merging twice into the same webpack 2 configuration does not recognise
  rules it already rewrote.
  * A `.vue` rule written as a plain loader string gets a second `.vue` rule
    appended (`Rules.SecondVuePassAppends`).
  * A rule with a `use` list gets `vux-loader` prepended a second time
    (`Rules.SecondVuePassStacks`).
* Two adjacent loader-options plugins that carry framework options are not
  both removed, because `splice` inside `forEach` skips the next element.
  The same holds for two adjacent same-named registry entries.

## Model

| member | source | states |
|---|---|---|
| Plugins.Matching | src/index.js:98-103 | the filtered list holds exactly the plugins of the list with that name |
| Plugins.HasPluginIffNamed | src/index.js:98-103 | `hasPlugin` holds exactly when some plugin of the list carries the name |
| Plugins.FirstPlugin | src/index.js:105-110 | `getFirstPlugin` finds a plugin exactly when `hasPlugin` holds, and it is the earliest plugin with that name |
| Plugins.FirstMatchIsFirst | src/index.js:682-687 | `getOnePlugin`'s `matches[0]` is the plugin at the first index with that name; no earlier plugin has the name |
| Plugins.NormaliseEntries | src/index.js:156-165 | every string entry becomes a descriptor `{name}`, other entries are kept, and order and length are preserved |
| Plugins.Normalise | src/index.js:124-165 | without a framework options object the options are `{ssr: false}` and there are no plugins; missing options become `{buildEnvs: ['production'], ssr: false}`; supplied options gain `ssr: false` exactly when their `ssr` is undefined and are otherwise kept as given; the plugin list is the supplied entries normalised one by one, or empty; the registry starts empty |
| Plugins.FirstDuplicate | src/index.js:169-177 | there is no duplicate exactly when all names are distinct; a reported name occurs at least twice; it is the first repeated group in `for…in` order: the least repeated array-index name when there is one, else the repeated name whose first plugin comes first |
| Plugins.IndexNamesFirst | src/index.js:169-177 | for the names `x, x, 7, 7` the check reports `7`, not `x` |
| Plugins.Prepare | src/index.js:169-215 | the options preparation fails exactly when the supplied names are not distinct, with the message naming a plugin that occurs twice |
| Plugins.MergeWithPrevious | src/index.js:188-208 | new option keys override old ones and old keys survive; without previous options the registry is the new list; with distinct names the registry is the old one without the new names, followed by the new list |
| Plugins.ScanFromDistinct | src/index.js:194-200 | for one new plugin, the forEach+splice+push scan over a registry with distinct names removes the same-named entry and appends the new plugin; a name not found leaves the registry and the found flag as they were |
| Plugins.MergeOneDistinct | src/index.js:192-204 | merging one plugin into a registry with distinct names equals dropping its name and appending it, and keeps the names distinct |
| Plugins.MergeRegistryKeepsDistinct | src/index.js:192-205 | the merged registry keeps distinct names |
| Plugins.MergeRegistryShape | src/index.js:192-205 | with distinct old and new names, the merged registry is the old one without the new names, in order, followed by the new plugins in order |
| Plugins.MergeRegistryShapeWhenDistinct | src/index.js:192-205 | the same shape, stated for all inputs as an implication from distinct names |
| Plugins.AdjacentDuplicateSurvives | src/index.js:194-200 | when two adjacent registry entries share the new plugin's name, the second one survives the splice and the new plugin is appended after it |
| Plugins.PrepareTwice | src/index.js:179-208 | preparing a fresh copy of the same input again, with the first result as previous options, gives the same plugins and the same registry |
| Plugins.FilterByEnv | src/index.js:211-215 | the active list is the subsequence of the registry whose `envs` is undefined or a non-empty list containing the environment |
| Plugins.ApplyEnv | src/index.js:211-215 | the filter applies only when `env` is truthy and the registry is non-empty; otherwise the active list is unchanged |
| ConfigMerge.LastVux | src/index.js:180-186 | the previous options are those of the last loader-options plugin carrying some, else the configuration's `vux` field |
| ConfigMerge.LastVuxAppend | src/index.js:180-186 | plugins without framework options appended after a list do not change which options are found |
| ConfigMerge.PrepareOptions | src/index.js:169-227 | the prepared options fail exactly when the supplied names are not distinct |
| ConfigMerge.Finalise | src/index.js:217-227 | `projectRoot` defaults to the working directory when not truthy, `vueVersion` is read under the project root, `useVuxUI` is true, and other settings are kept |
| ConfigMerge.DetectSchema | src/index.js:229-248 | an explicit `isWebpack2` decides by truthiness; else a `rules` array means webpack 2 and a `loaders` array webpack 1; else webpack 1 exactly when the project declares a webpack version below 2 |
| ConfigMerge.LegacyVue | src/index.js:250-262 | for webpack 1, the `i18n` block goes through the no-op loader and other `vue.loaders` entries are kept |
| ConfigMerge.WithRuleList | src/index.js:264-266 | the rule list is written under the schema's key and the other key is untouched |
| ConfigMerge.KeptAndOwn | src/index.js:274-296 | for webpack 2, the old carriers are removed and a new loader-options plugin with the options is appended; for webpack 1, the plugin list is kept |
| ConfigMerge.DropFromSkips | src/index.js:283-287 | the forEach+splice removal equals dropping each carrier met and passing over the element right after it |
| ConfigMerge.DropVuxOptionsFilters | src/index.js:283-287 | without adjacent carriers, the removal leaves no carrier and keeps every other plugin |
| ConfigMerge.AdjacentCarrierSurvives | src/index.js:283-287 | of two adjacent carriers, the second survives the removal |
| ConfigMerge.OptionsOr | src/index.js:471 | `plugin.options || {}`: the descriptor's options when truthy, else the empty object; never falsy |
| ConfigMerge.ManifestPlugins | src/index.js:298-302 | exactly one inline-manifest plugin named `webpackManifest` when the descriptor is present, and none otherwise |
| ConfigMerge.ProgressPlugins | src/index.js:304-308 | exactly one progress bar when the descriptor is present, and none otherwise; it gets the first descriptor's options when they are truthy, else `{}` |
| ConfigMerge.LibraryDataPlugins | src/index.js:310-350 | for webpack 2 with `vux-ui`: first a loader-options plugin with `vuxMaps`, then one with `vuxLocales` holding the read locales exactly when they could be read (one or two plugins); nothing otherwise |
| ConfigMerge.EarlyPlugins | src/index.js:298-350 | the plugins added before the rules carry no framework options, in the source's order |
| ConfigMerge.Callbacks | src/index.js:460-464 | the callbacks are the `fn` fields of the same-named descriptors, one per descriptor, in order |
| ConfigMerge.DonePlugins | src/index.js:459-466 | exactly one done plugin when a `build-done-callback` is present, and none otherwise; its callbacks are the descriptors' `fn`s, in order |
| ConfigMerge.DuplicateStylePlugins | src/index.js:469-473 | exactly one duplicate-style plugin when its descriptor is present, and none otherwise; it gets the first descriptor's options when they are truthy, else `{}` |
| ConfigMerge.EmitPlugins | src/index.js:475-485 | exactly one emit plugin when a `build-emit-callback` is present, and none otherwise, with the first descriptor's `fn` |
| ConfigMerge.HtmlCallbackPlugins | src/index.js:487-490 | exactly one html-build-callback plugin when the descriptor is present, and none otherwise, given the first descriptor |
| ConfigMerge.LatePlugins | src/index.js:458-490 | the plugins added after the rules carry no framework options, in the source's order |
| ConfigMerge.RewriteRules | src/index.js:355-456 | the rule passes never shorten the rule list |
| ConfigMerge.VuxBabelRule | src/index.js:655-671 | the library rule tests `node_modules.*vux.src.*?js$`, includes the real path of `<root>/node_modules/vux/`, compiles with `babel-loader`, and has no `use` list, options or query |
| ConfigMerge.ResolveLocale | src/index.js:495-505 | `zh-CN` without the i18n plugin; its `vuxLocale` when static replace and locale are truthy; `MULTI` when static replace is `false`; empty otherwise |
| ConfigMerge.Json | src/index.js:526-528 | strings become their JSON string text and booleans `true`/`false` |
| JsValues.JsonString | src/index.js:526 | the JSON text of a string is the escaped string between double quotes |
| JsValues.EscapeChar | src/index.js:526 | one escaped character is `\` followed by its escape, or the character itself; no control character is left raw |
| JsValues.JsonEscape | src/index.js:526 | the escaped text is no shorter than the string and holds no raw control character |
| JsValues.NewlineEscaped | src/index.js:526 | a newline is written as the two characters `\n` |
| JsValues.JsonStringReadsBack | src/index.js:526 | parsing the JSON text of a string gives the string back |
| ConfigMerge.AddDefine | src/index.js:516-530 | the locale constants are appended exactly when no define plugin already sets a truthy `V_LOCALE`; otherwise the list is unchanged |
| ConfigMerge.AddDefineIdempotent | src/index.js:516-530 | after the define step `V_LOCALE` is defined, so a second define step adds nothing |
| ConfigMerge.LocaleReadsBack | src/index.js:495-530 | the defined `V_LOCALE` text parses as a JSON string back to the resolved locale, control characters included |
| ConfigMerge.Assemble | src/index.js:229-533 | webpack 1 records the options in `vux` and sets up `vue`; webpack 2 leaves both; the rule list under the schema's key is the rewritten one |
| ConfigMerge.Merge | src/index.js:113-533 | `merge` fails exactly when the supplied plugin names are not distinct, with the message naming a duplicate; otherwise it returns the assembled configuration |
| ConfigMerge.DefineKeepsPrefix | src/index.js:516-530 | the define step keeps the existing plugins as a prefix and adds no carrier |
| ConfigMerge.AssembledTail | src/index.js:274-530 | after the recorded options, no added plugin carries framework options |
| ConfigMerge.MergeRecordsOptions | src/index.js:180-296 | after a merge with distinct supplied plugin names (one that succeeds), the next merge finds exactly the options this merge prepared (for webpack 1, provided no old plugin carries options) |
| ConfigMerge.MergeDefinesLocale | src/index.js:507-530 | after a merge with distinct supplied plugin names (one that succeeds) some define plugin sets `V_LOCALE` |
| Rules.VueObjects | src/index.js:360-362 | the count is zero exactly when no `use` entry is a `vue-loader` object |
| Rules.RewriteVueRule | src/index.js:363-381 | webpack 1 or a rule without options, query or `vue-loader` use: loader becomes the loader string; webpack 2 with options or query: use becomes `['vux-loader', {vue-loader, options, query}]` and the three fields are deleted; webpack 2 with a `vue-loader` use: `vux-loader` is prepended; test and include are kept |
| Rules.RewriteVueRules | src/index.js:355-389 | vue rules are rewritten and other rules untouched in place; when no rule matched, exactly one `.vue` rule with the loader string is appended |
| Rules.VueRulesCarryVux | src/index.js:355-389 | after the pass every vue rule carries `vux-loader`, and some rule carries it |
| Rules.SecondVuePassStacks | src/index.js:377-379 | a second pass over a rule with a `vue-loader` use prepends `vux-loader` again |
| Rules.SecondVuePassAppends | src/index.js:363-388 | a rule once rewritten to a loader string is no longer a vue rule, so a second pass appends another `.vue` rule |
| Rules.AppendJsLoader | src/index.js:394-447 | a `use` headed by the family's loader gets the js loader pushed; a matching loader string becomes `<x>-loader!js`, or for webpack 2 with options or query a `use` list taking the options (preferred) or the query, deleting only the field taken; other rules are unchanged |
| Rules.AppendJsLoaders | src/index.js:394-447 | the pass rewrites each rule on its own, in place |
| Rules.JsLoaderRunsLast | src/index.js:394-447 | after the pass the js loader is the last of at least two loaders of the rule |
| Rules.JsStringFormStable | src/index.js:398 | a loader string already rewritten contains `!` and is not rewritten again |
| Rules.BabelSkipsTypeScriptRule | src/index.js:398-447 | a `ts` rule rewritten by the TypeScript pass is left alone by the Babel pass |
| Sentinels.EscapeRoundTrip | src/index.js:562-580 | escaping `\"` to the sentinel and back gives the text back when it does not contain `VUX` |
| Sentinels.MarkerBreaksRoundTrip | src/index.js:565-579 | the text `$VUX$` holds no escaped quote, so escaping keeps it, and unescaping turns it into `\"`: it does not come back from the round trip |
| Sentinels.EscapeKeepsAbsence | src/index.js:565-576 | escaping creates no occurrence of a word that shares no character with the sentinel |
| RegexForms.RequireMatch | src/index.js:568 | a `require\("(.*)"\)` match starts with `require("` and ends at the last `")` of its line; there is none when the line has no `")` |
| RegexForms.ImportMatch | src/index.js:573 | an `import\s<name>\sfrom\s"(.*?)"` match ends at the first `"` after the opening quote on the same line |
| RegexForms.ReplaceMatchesFixed | src/index.js:568-575 | a replacement that leaves each match alone leaves the text alone |
| RegexForms.NoOpeningFixes | src/index.js:568-575 | text without the pattern's opening word has no match |
| SourceRewriter.ScriptRewrite | src/index.js:535-560 | an expression without `type=script`, `require("!!babel-loader` or the `__vue_script__` babel import is returned verbatim |
| SourceRewriter.ScriptSegments | src/index.js:537-546 | with `type=script`, the segments of the result are each segment with the script loader in front when it contains `type=script`; removing the script loader gives the original segments |
| SourceRewriter.BabelRequireInsert | src/index.js:547-548 | the script loader goes after the first `!!babel-loader!` only, and the text is unchanged when there is none |
| SourceRewriter.BabelPiecesChain | src/index.js:551-555 | a segment equal to `babel-loader` becomes itself followed by the script loader, any other segment stays as it is, and removing the script loader gives the segment back |
| SourceRewriter.BabelSegments | src/index.js:549-557 | in the `__vue_script__` import form, the script loader goes after each segment equal to `babel-loader`, and nothing else changes |
| SourceRewriter.TemplateRewrite | src/index.js:583-600 | an expression without `type=template` is returned verbatim |
| SourceRewriter.TemplatePiecesChain | src/index.js:588-595 | one segment becomes the template loader before it when it has `type=template`, then itself, then the before-compiler loader when it contains `template-compiler/index` |
| SourceRewriter.TemplateSegments | src/index.js:585-598 | the segments of the result are the per-segment insertions in order; removing the two loaders gives the original segments |
| SourceRewriter.StyleRewrite | src/index.js:621-648 | an expression without `type=style` is returned verbatim |
| SourceRewriter.StylePiecesChain | src/index.js:624-642 | without theme variables, one segment becomes the style loader before it when it has `type=style`, then the after-less loader before it when it mentions `less-loader`, then itself |
| SourceRewriter.StyleSegments | src/index.js:622-646 | without theme variables, the segments of the result are the per-segment insertions in order, and removing the loaders gives the original segments |
| SourceRewriter.ThemedLessItem | src/index.js:628-640 | with theme variables, a `less-loader` segment keeps its text up to the first `?` and gets a quote-free params query, after the after-less loader |
| SourceRewriter.UnthemedLessItem | src/index.js:628-640 | without theme variables, a `less-loader` segment keeps its query and only gains the after-less loader in front |
| SourceRewriter.ThemedPiecesChain | src/index.js:624-642 | under a theme one segment becomes the same loaders as without a theme, and only the last piece's query differs |
| SourceRewriter.ThemedStyleSegments | src/index.js:622-646 | under a theme the segments of the result are the per-segment pieces in order; cut at their queries, they equal the segments of the unthemed result |
| SourceRewriter.BeforeQuery | src/index.js:637 | `item.split('?')[0]` is the prefix of the segment before its first `?` |
| SourceRewriter.SingleQuoted | src/index.js:636 | every `"` becomes `'` and every other character stays, position by position |
| SourceRewriter.StyleParams | src/index.js:630-636 | the params text is `{'modifyVars':`, the quoted variables, `,'sourceMap':true` exactly when source maps are asked for, and `}`; it holds no `"` |
| SourceRewriter.StyleParamsSourceMap | src/index.js:633-635 | the params text contains `,'sourceMap':true` exactly when the request mentions `sourceMap`, for variables that do not themselves contain that text |
| SourceRewriter.BeforeQueryUnique | src/index.js:637 | any `?`-free prefix followed by `?` or by the end of the request is its part before the query |
| SourceRewriter.FixDevStylePath | src/index.js:91-93 | text without `vux/src/styles/` is unchanged |
| SourceRewriter.FixDevStylePathBySplit | src/index.js:92 | the path fix equals splitting on `vux/src/styles/` and joining with `../styles/` |
| SourceRewriter.ThemeOf | src/index.js:75-84 | without a `less-theme` plugin there is no theme; with one, the lookup throws exactly when its `path` or the project root is not a string (`path.join`), and otherwise there is a theme exactly when the variables read from its file are truthy, carrying their JSON text |
| SourceRewriter.LoaderEntry | src/index.js:59-96 | empty source, or no framework options, returns the source; otherwise the loader throws exactly when the theme lookup throws |
| SourceRewriter.ThemeWithoutPathFails | src/index.js:75-84 | a `less-theme` plugin given by name only, without `path`, makes the loader throw on every non-empty module |
| SourceRewriter.EscapedPassIdentity | src/index.js:562-581 | escaping, scanning text with no request and unescaping gives the source back |
| SourceRewriter.NoRequestUnchanged | src/index.js:59-96 | module code with no `require("`, no `import`, no `VUX` and no dev style path comes out of the loader unchanged whenever the loader does not throw |
| JsValues.JsonEscapeRoundTrip | src/index.js:526 | JSON string decoding (section 7 of RFC 8259, without surrogate-pair escapes) undoes the string escaping of `JSON.stringify`, control characters included |
| Strings.SplitJoinIsReplaceAll | src/index.js:92 | splitting on a pattern and joining with a replacement is the global replace |
| Strings.JoinSplit | src/index.js:539-545 | joining the `!`-split pieces of a request with `!` gives the request back |
| Strings.SplitJoin | src/index.js:539-545 | splitting on `!` the join of `!`-free pieces gives the pieces back |
| LoaderChain.RewrittenSegments | src/index.js:539-545 | mapping each segment to a `!`-free chain and joining gives a request whose segments are the concatenated pieces |

## Left out

- The loader entry's calls into `loader-utils` are not modelled. These are `stringifyRequest`, `parseQuery` and `getLoaderConfig`. The loader paths they produce are parameters (`LoaderPaths`).
- `this.cacheable` and `this.addDependency` are not modelled; they are webpack callbacks.
- `getLessVariables` (`libs/get-less-variables`) is not part of this model. It is the parameter `readTheme`, which turns the `less-theme` descriptor's path into the variables value and the text `JSON.stringify` makes of that value (`LessVariables`).
- `SourceRewriter.ThemeOf`: the `TypeError` of `path.join` is given its fixed message prefix (`PathNotString`). Node also appends the value it received.
- `SourceRewriter.ThemedStyleSegments` and `SourceRewriter.ThemedPiecesChain` require a style loader request without `?` and variables text without `!`. Otherwise the source's `split('?')` or `split('!')` would cut inside them.
- `SourceRewriter.StyleParamsSourceMap` requires that the quoted variables do not themselves contain `,'sourceMap':true`; otherwise the entry is found whatever the request says.
- All file and package reads are parameters of `Environment`: the vue version, `package.json` with `compare-versions`, `map.json`, the YAML locales and `fs.realpathSync`.
- A missing `devDependencies` object in `package.json` throws in the source; the model has no such case.
- `path.resolve` and `path.join` are string concatenation with `/`.
- `getBabelLoader`'s fallback root is not modelled. That is `path.resolve(__dirname, '../../../')`, with its `.npm` adjustment. `merge` always passes the project root, which is never empty after `Finalise`.
- `process.env` updates and the `report` side effect (lines 141-150) are not modelled. `buildEnvs` only feeds them.
- The webpack plugin classes and their `apply` hooks are not modelled (lines 33-57). Plugins are tagged records (`WebpackPlugin`).
- `setWebpackConfig` (lines 673-680) is never called and is not modelled.
- `ConfigMerge.Assemble`: the webpack 1 merge through `webpack-merge` is a field replacement. `webpack-merge` would deep-merge an old `vux` field, concatenating its `allPlugins` arrays.
- `Plugins.PrepareTwice` holds for a fresh copy of the input. The source updates the caller's `vuxConfig` in place: `ssr` (line 138), the normalised `plugins` (line 157), `allPlugins` (line 207, the same array as `plugins`) and the filtered `plugins` (line 212). A caller that passes the same object twice hands the second merge these updated fields; the model returns new values and leaves its input as it was.
- The in-place updates of the previous options are not modelled. `Object.assign(oldVuxConfig.options, …)` (line 190) and the registry splices (lines 192-205) change the previous merge's objects; the model returns new values instead.
- The in-place updates of the old configuration are not modelled. `config` shares its `plugins` array and `module` object with `oldConfig`, so the carrier removal (line 284) and the rule passes (lines 365-378 and 396-414) change the caller's configuration too; the model returns a new configuration.
- `Plugins.MergeRegistryShape`: the simple shape is proved only for distinct old and new names. For registries with adjacent same-named entries the literal scan is modelled, and `AdjacentDuplicateSurvives` shows what differs.
- `ConfigMerge.DropVuxOptionsFilters`: "every carrier is removed" is proved only when no two carriers are adjacent, because the source skips the element after a removal (`AdjacentCarrierSurvives`).
- `ConfigMerge.MergeRecordsOptions`: for webpack 1 the round trip is stated only when no old plugin carries framework options. Such a plugin would win over the `vux` field in the next merge.
- `ConfigMerge.MergeRecordsOptions`: for webpack 1 it relies on the `vux` field being replaced by the new options. `webpack-merge` (line 292) deep-merges an old `vux` field instead and concatenates the two `allPlugins` arrays.
- `ConfigMerge.Merge` fails only for duplicate plugin names. The exceptions of the reads it depends on (a missing `package.json` or `map.json`, `fs.realpathSync` on a missing path) are not modelled, because the reads are parameters of `Environment`. Neither is the exception `compare-versions` throws (line 245) on a declared webpack version that is not semver once `^`/`~` are removed, such as `>=2.2.0`: `atLeastVersion2` is a total parameter.
- `ConfigMerge.RewriteRules` states only that no rule is lost. The individual passes carry the full contracts (`Rules.RewriteVueRules`, `Rules.AppendJsLoaders`).
- `ConfigMerge.Json`: a `vuxLocale` that is not a string is given the text `{}`. The source's `JSON.stringify` would render arrays and objects in full.
- A `rule.use` that is a string and not an array is not modelled. The source would index its characters. `Use` distinguishes only a list and other values.
- `rule.loader` of the ts and babel passes is read as `String(rule.loader)` for the `/ts/` and `/babel/` tests. `RegExp` objects and other loader values are covered by `ToJsString`.
- Replacement-string `$` patterns are not modelled. In the babel-require branch of the script pass, `String.prototype.replace` would expand `$&` and similar in the inserted loader path; it is inserted literally.
- The global regular-expression scan is modelled for the two forms the source uses. JavaScript regular expressions in general are not modelled.
- `SourceRewriter.EscapedPassIdentity` and `SourceRewriter.NoRequestUnchanged` are stated for text without `require("`/`import`. For text with requests the per-expression lemmas apply.
- `Sentinels.EscapeRoundTrip` requires that the text contains no `VUX`. Without that condition the round trip fails (`MarkerBreaksRoundTrip`).
- An exception thrown by the `throw` of the duplicate check is modelled as a `Failure` with the same message.
