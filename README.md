# vite-plugin-legacy: a verified model of the build step

vite-plugin-legacy gives a Vite build two bundles: the modern ES-module bundle Vite writes, and
a legacy bundle transpiled by Babel's preset-env and bundled by rollup. In the HTML, every
`<script type="module" src="…"></script>` tag of the main chunk becomes an inline loader. The
loader probes the browser and then loads exactly one of the two bundles.

The model covers the plugin's whole build step, with one module per concern:

- `Text` holds string predicates and ASCII `toLowerCase`.
- `PosixPath` holds `path.posix.basename` and `path.posix.resolve`, with the process working
  directory as a parameter.
- `LegacyName` holds the `.js` to `.legacy.js` rename.
- `BabelEnv` holds the plugin options and `getBabelEnv`.
- `Loader` holds the `syntaxTests` table and `createScriptFactory`. The loader is a small syntax
  tree of statements inside `try`/`catch`, with a renderer and a small-step run over an abstract
  browser.
- `HtmlRewrite` holds the global regular-expression replace and its callback.
- `Plugin` holds `configureBuild`, `createLegacyChunk` and the build hook. The hook is a `Build`
  class whose `assets` and `html` fields are updated in place.

Babel and rollup are function parameters that return an optional result.

## Model

| member | source | states |
|---|---|---|
| Text.Lower | src/plugin.ts:25 | `toLowerCase` keeps the length and lowers each ASCII capital, leaving every other character as it is |
| Text.LowerEqualsIff | src/plugin.ts:25 | a string lower-cases to a lower-case word exactly when it equals that word up to ASCII case |
| LegacyName.LegacyFileName | src/plugin.ts:122 | a name ending in `.js` keeps everything before that final `.js` and ends in `.legacy.js`; any other name is returned unchanged |
| LegacyName.RoundTrip | src/plugin.ts:122 | undoing the rename on the legacy name gives back the original `.js` name |
| LegacyName.Injective | src/plugin.ts:122 | two different `.js` names never get the same legacy name |
| LegacyName.StillJs | src/plugin.ts:122 | the legacy name is still a `.js` name and differs from the modern one |
| LegacyName.KeepsPlain | src/plugin.ts:122 | renaming a plain file name (no `/`, not `.` or `..`) gives a plain file name |
| LegacyName.Example | src/plugin.ts:122 | `app.abcd.js` becomes `app.abcd.legacy.js` and `app.js.js` becomes `app.js.legacy.js`; `app.mjs` and `style.css` are unchanged |
| PosixPath.Split | src/plugin.ts:40 | `split('/')` gives at least one piece, and no piece holds a `/` |
| PosixPath.Basename | src/plugin.ts:40 | the base name holds no `/` |
| PosixPath.SplitJoin | src/plugin.ts:40 | splitting a join of a non-empty list of slash-free segments gives the segments back (the empty list joins to `""`, which splits to `[""]`) |
| PosixPath.BasenameOfNormalized | src/plugin.ts:40 | the base name of `/d1/…/dn/f` is `f` |
| PosixPath.Resolve | src/plugin.ts:43 | `path.posix.resolve`: the right-to-left walk up to an absolute argument or the working directory, then normalisation; `ResolveAppend` and `SiblingInSameDirectory` state its results |
| PosixPath.Sibling | src/plugin.ts:43 | `path.posix.resolve(moduleId, '..', fileName)`; `SiblingInSameDirectory` proves it is the id's directory followed by `fileName` |
| PosixPath.SiblingInSameDirectory | src/plugin.ts:43 | for an absolute module id, `resolve(moduleId, '..', fileName)` is the id's normalised directory followed by `fileName`, whatever the working directory; so its directory is the id's directory and its base name is `fileName` |
| PosixPath.SiblingOfNormalized | src/plugin.ts:43 | the sibling of `/d1/…/dn/f` named `g` is `/d1/…/dn/g` |
| PosixPath.ResolveAppend | src/plugin.ts:118-123 | resolving arguments followed by a plain file name gives the resolved arguments' segments plus that name, so the base name is that name |
| PosixPath.FoldConcat | src/plugin.ts:43 | normalising two lists of pieces one after the other is the same as normalising their concatenation |
| PosixPath.SiblingQuoteFree | src/plugin.ts:43 | the sibling of a quote-free id and a quote-free name, under a quote-free working directory, is quote-free |
| BabelEnv.GetBabelEnv | src/plugin.ts:62-71 | `bugfixes` is true, `useBuiltIns` is `'usage'` and `corejs` is 3; `targets` is the given value, or `'defaults'` when absent; `ignoreBrowserslistConfig` is passed through, absent included |
| BabelEnv.SameEnvIff | src/plugin.ts:62-71 | two configurations give the same options exactly when they agree on the effective targets and on `ignoreBrowserslistConfig` |
| BabelEnv.AbsentTargetsAreDefaults | src/plugin.ts:63 | leaving `targets` out is the same as giving `'defaults'` |
| Loader.SyntaxTest | src/plugin.ts:53-60 | a target in the table gets its entry; any other target gets `undefined` |
| Loader.CreateScriptFactory | src/plugin.ts:77-82 | the factory captures the syntax probe for the target and the module probe `script.noModule.$` |
| Loader.LoaderScript | src/plugin.ts:86-96 | the statements of the template as a syntax tree: one element created before the `try`; the module probe, the syntax probe, `type = 'module'` and the modern `src` in it; the legacy `src` in the `catch`; one append after it; `ScriptShape` states this shape |
| Loader.Render | src/plugin.ts:84-99 | the dedented template text of a syntax tree; `RenderEndsWithTail` and `LoaderTextQuoteFree` state what it adds |
| Loader.LoaderText | src/plugin.ts:84-99 | the closure's result for two bundle ids; `LoaderTextQuoteFree` proves it adds no double quote, which the idempotence of the rewrite rests on |
| Loader.Run | src/plugin.ts:88-96 | the effect of the loader in a browser: statements in order, an exception in the `try` block running the `catch` block; `LoadsExactlyOneBundle` states its outcome |
| Loader.SrcLineIff | src/plugin.ts:92-94 | the rendered `script.src = '…'` line holds the bundle id as a plain single-quoted literal exactly when the id has no `'`, `\` or line break |
| Loader.ApostropheBreaksLiteral | src/plugin.ts:92 | for the id `/it's.js` the literal of the rendered line closes after `/it`, so the line is not a plain assignment of the id |
| Loader.LoadsExactlyOneBundle | src/plugin.ts:84-99 | running the loader appends exactly one script: the modern id as a module script when the browser supports modules and parses the syntax probe, otherwise the legacy id as a classic script |
| Loader.BranchesExclusive | src/plugin.ts:88-96 | for distinct ids, the modern bundle loads exactly when both probes pass and the legacy bundle exactly otherwise; only the modern one is a module script |
| Loader.ScriptShape | src/plugin.ts:87-96 | the modern id is assigned only in the `try` block, after its module probe and syntax probe; the legacy id is assigned only in the `catch` block; there is one `appendChild`, after the `try`/`catch` |
| Loader.ProbeIgnoresCase | src/plugin.ts:53-60 | the lower-cased target is in the table exactly when it is a case variant of `es2018`, `es2019` or `es2020`, and the probe is that year's entry, or `undefined` for any other target |
| Loader.ProbeExamples | src/plugin.ts:79 | `ES2019` and `es2019` both give `try{} catch{}`; `es2017` and `esnext` give `undefined` |
| Loader.LoaderTextQuoteFree | src/plugin.ts:84-99 | the loader text has no double quote when its probes and ids have none |
| Loader.RenderEndsWithTail | src/plugin.ts:97-98 | every rendered loader ends with the closing `})()` and `</script>` lines |
| HtmlRewrite.ModuleTag | src/plugin.ts:38 | the text the pattern matches for a capture `src`; `MatchAtIff` proves the matcher finds exactly these tags with a non-empty, quote-free `src` |
| HtmlRewrite.Replacement | src/plugin.ts:39-45 | the callback: the loader for the `src` and its sibling legacy id when the base name of `src` is the main chunk's file name, the matched tag itself otherwise; `RewriteStructured` and `ReplacementInert` state what it gives |
| HtmlRewrite.Rewrite | src/plugin.ts:37-46 | the global replace as a leftmost, non-overlapping scan; `RewriteIsScan` proves it is the scan's pieces with each match replaced by the callback's value, and `RewriteKeepsUnmanaged` that a document with no tag of the main chunk is unchanged |
| HtmlRewrite.Scan | src/plugin.ts:37-38 | the pieces the `g` scan cuts any document into; `ScanSpells` proves they spell the document and `ScanTags` that its tags are the pattern's captures |
| HtmlRewrite.ScanSpells | src/plugin.ts:37-38 | for every document, the matches and the characters between them, in order, spell the document |
| HtmlRewrite.ScanTags | src/plugin.ts:38 | every tag the scan finds has a non-empty, quote-free `src` |
| HtmlRewrite.RewriteIsScan | src/plugin.ts:37-46 | for every document, every match is replaced by the callback's value, not only the first, and every character outside the matches is kept, in order |
| HtmlRewrite.RewriteKeepsUnmanaged | src/plugin.ts:39-45 | any document in which no matched tag has the main chunk's base name is left byte for byte as it was |
| HtmlRewrite.NearMissInert | src/plugin.ts:38 | for a `src` without `<` and followed by text in which no suffix begins like `<script type="module" src="`, a tag with that `src` empty, or with such text between the closing quote of `src` and `></script>`, starts no match anywhere, whatever follows it |
| HtmlRewrite.NearMissExample | src/plugin.ts:38 | `<script type="module" src="/x.js" async></script>` starts no match anywhere |
| HtmlRewrite.InertConcat | src/plugin.ts:37-38 | inert texts side by side are inert |
| HtmlRewrite.BlockedInert | src/plugin.ts:38 | text each suffix of which disagrees with `<script type="module" src="` is inert |
| HtmlRewrite.QuoteFreeLen | src/plugin.ts:38 | `[^"]+` matches the longest quote-free prefix: that prefix is quote-free and stops at a `"` or at the end |
| HtmlRewrite.MatchAt | src/plugin.ts:38 | a match found at the start of the text is exactly the module tag of its `src` |
| HtmlRewrite.MatchAtIff | src/plugin.ts:38 | the pattern matches at the start of the text with a given `src` exactly when the text starts with the module tag of that non-empty, quote-free `src` |
| HtmlRewrite.InertPrefix | src/plugin.ts:37-38 | text where no tag can start passes through the replace unchanged, and what follows it is rewritten as if alone |
| HtmlRewrite.RewriteStructured | src/plugin.ts:37-46 | on a document of inert text (text at no position of which a match starts, whatever follows: stray tag text and near-miss tags included) and module tags, every tag is handled, not only the first: a tag whose `src` base name is the main chunk's file name becomes the loader for that `src` and its sibling legacy id, every other tag and all text stay as they were, and the order is kept |
| HtmlRewrite.NoManagedTagUnchanged | src/plugin.ts:39-45 | a document of inert text and module tags without a tag of the main chunk is left byte for byte as it was |
| HtmlRewrite.ReplacementInert | src/plugin.ts:84-99 | for a build's binding, the loader put in place of a quote-free `src` contains nothing where a module tag could start |
| HtmlRewrite.SettleFacts | src/plugin.ts:37-46 | the rewritten document is again inert text and module tags, and none of its tags belongs to the main chunk |
| HtmlRewrite.RewriteIdempotent | src/plugin.ts:37-46 | rewriting the rewritten document a second time changes nothing |
| HtmlRewrite.SingleTagRewrite | src/plugin.ts:37-46 | in a document with one module tag between inert texts, only the tag is replaced, by the callback's value |
| PosixPath.ExamplePaths | src/plugin.ts:40-43 | `/assets/app.abcd.js` has base name `app.abcd.js`, and its sibling `app.abcd.legacy.js` is `/assets/app.abcd.legacy.js` |
| HtmlRewrite.SingleEntryExample | src/plugin.ts:37-46 | `<body>` + the tag of `/assets/app.abcd.js` + `</body>`, for main chunk `app.abcd.js`, becomes `<body>` + the loader for `/assets/app.abcd.js` and `/assets/app.abcd.legacy.js` + `</body>` |
| Plugin.ConfigureBuild | src/plugin.ts:20-26 | no hook is returned exactly when `write` is false; a hook carries the preset options of the configuration and the loader factory of the lower-cased esbuild target |
| Plugin.ConfigureBuildIgnoresCase | src/plugin.ts:24-26 | esbuild targets that differ only in case give the same loader factory |
| Plugin.LegacyPathInAssetsDir | src/plugin.ts:118-123 | for a main-chunk name without `/`, the legacy path is the resolved `root/outDir/assetsDir` directory followed by the legacy name of the main chunk |
| Plugin.LegacyPath | src/plugin.ts:118-123 | `path.resolve(root, outDir, assetsDir, legacy name)`; `LegacyPathInAssetsDir` states where it lies and what it is called |
| Plugin.Plugins | src/plugin.ts:125-153 | the plugin list is commonJS with the build's source-map flag, then the legacy resolver over the transformed code, then terser; terser is present exactly when `minify` is set |
| Plugin.LegacyChunk | src/plugin.ts:102-170 | what `createLegacyChunk` returns or throws; `TransformFailureIff` and `LegacyChunkFacts` state when it fails and what chunk it gives |
| Plugin.TransformFailureIff | src/plugin.ts:114-116 | `createLegacyChunk` throws `[vite-plugin-legacy] Failed to transform modern bundle` exactly when Babel gives no result |
| Plugin.LegacyChunkFacts | src/plugin.ts:102-170 | a legacy chunk exists exactly when Babel and rollup both succeed; it holds rollup's output for the plugin list, and for a main-chunk name without `/` it is named with the legacy name of the main chunk |
| Plugin.CreateLegacyChunk | src/plugin.ts:102-170 | the step-by-step chunk builder, which pushes terser onto the plugin list when minifying, returns what `LegacyChunk` describes |
| Plugin.HookResult | src/plugin.ts:28-47 | the new assets and HTML of the hook, or the error it throws; `HookFailures`, `HookAppendsLegacyChunk` and `HookRewritesHtml` state them, and `Build.RunHook` is proved to reach them |
| Plugin.HookFailures | src/plugin.ts:29-34 | the hook throws without a main chunk, throws the transform error when Babel gives nothing, and succeeds exactly when there is a main chunk and its legacy chunk was built |
| Plugin.HookAppendsLegacyChunk | src/plugin.ts:29-36 | after a successful hook the old assets are unchanged and in order, followed by exactly one new chunk; for a main-chunk name without `/`, that chunk is named with the legacy name of the main chunk |
| Plugin.HookRewritesHtml | src/plugin.ts:20-46 | for a writing build, a main-chunk name without `/`, a quote-free working directory and HTML made of inert text (near-miss tags included) and module tags, the hook's HTML is the structured rewrite for the main chunk and its legacy name, and rewriting it once more changes nothing |
| Plugin.Build.RunHook | src/plugin.ts:28-47 | on failure the method reports the error and leaves `assets` and `html` as they were; on success it appends the legacy chunk to `assets` and rewrites `html`, as `HookResult` describes |

## Left out

- The Babel transform (`babel.transformAsync`) and the rollup bundle and generate calls are
  function parameters returning an optional result. The commonJS, terser and resolve/load plugins
  appear only as values in the plugin list. Their behaviour, `require.resolve` and the
  `core-js`/`regenerator-runtime` resolution are not modelled.
- Source maps (`inputSourceMap`, `map`, `sourcemapExcludeSources`) and `terserOption` are not
  modelled. Only the `sourcemap` flag is passed to the abstract transpiler and bundler.
- Async sequencing and Vite's plugin lifecycle are not modelled. The hook runs as one method, and an
  awaited call that throws is a `Failure` value.
- The process working directory is a parameter `cwd` of `path.resolve` and `path.posix.resolve`,
  required to be absolute, as a process directory always is. `path.resolve` is taken to be the
  posix one, and Windows paths are not modelled.
- `path.basename` is modelled as the posix base name. The win32 variant, which also splits at `\`,
  is not modelled.
- Text.Lower: `String.prototype.toLowerCase` is modelled for ASCII letters only. Other Unicode case mappings are
  not modelled.
- Loader.SyntaxTest: a key inherited from `Object.prototype` (such as `constructor`) would make
  `syntaxTests[target]` a function rather than `undefined`. The model treats such a key as
  missing.
- Loader.Render: `dedent` is modelled as the fixed indentation of the template after its common
  leading whitespace is removed. Its general whitespace rules are not modelled. Its last step,
  which turns each written `\n` into a line break, is not modelled either. So for a `src` that holds
  `\n`, `Render`, `LoaderText` and the equation of `HtmlRewrite.RewriteStructured` differ from the
  real loader text.
- The browser's meaning of `eval` and `script.noModule.$` is abstract. A `Browser` value says
  whether module scripts are supported and which code parses.
- HtmlRewrite.RewriteIdempotent: idempotence is proved only for documents made of inert text and
  module tags. A tag whose `src` itself contains a complete tag, as in
  `<script type="module" src="` + tag + `/app.js"></script>`, is matched differently on a second
  pass.
- Loader.LoadsExactlyOneBundle: `Run` executes the loader's syntax tree, not its rendered text. The
  template pastes the ids unescaped into single-quoted literals. For an id holding `'`, `\` or a
  line break the real script is a syntax error, or assigns another string, and it may load no
  bundle at all. `Loader.SrcLineIff` states for which ids the rendered line assigns the id.
  `dedent` also turns a written `\n` into a line break, and such an id holds a `\`, so it is one of
  the excluded ids.
- Loader.BranchesExclusive: it rests on the same run of the syntax tree. It describes the real
  loader only for ids without `'`, `\` or a line break.
- HtmlRewrite.RewriteStructured: inert text is text at no position of which a match starts,
  whatever follows. Text such as `<script type="module" src="/a` just before a tag is not inert
  on its own, because a continuation could complete it. `HtmlRewrite.RewriteIsScan` covers every
  document, such text included.
- HtmlRewrite.ReplacementInert: the quote-free working directory is a hypothesis (also of
  `PosixPath.SiblingQuoteFree` and `Plugin.HookRewritesHtml`), because the
  loader embeds the resolved legacy id.
- Plugin.HookAppendsLegacyChunk: the name of the new chunk is stated only for a main-chunk name
  without `/`, for the reason given on the `Plugin.LegacyChunkFacts` line.
- Plugin.HookRewritesHtml: it needs a main-chunk name without `/`, because the binding it states
  uses the legacy name of the main chunk.
- Plugin.LegacyPathInAssetsDir: it needs a main-chunk name without `/`; for other names the path
  resolves the name's own `/`-pieces as well.
- Plugin.LegacyChunkFacts: the legacy chunk's name is tied to the legacy name only for a plain main
  chunk file name, one without `/`. For `sub/app.js` rollup names the chunk `app.legacy.js`, while
  the legacy name is `sub/app.legacy.js`. Rollup names the output chunk by the base name of its `file`.
- The chunk file name is `output[0].fileName`, which for an `iife` build with a `file` option is
  the base name of that file. Other output chunks, such as emitted assets, are not modelled.

An esbuild target without a table entry does not drop the syntax probe. `syntaxTests[target]` is
then `undefined`, and the template prints it as `eval('undefined')`, which any browser parses. The
model keeps this: the probe is the text `undefined`.
