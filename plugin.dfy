/**
 * The plugin's build step: `configureBuild` returns no hook when nothing is written; otherwise the
 * hook transpiles the main chunk, bundles it into a legacy chunk named after it, appends that
 * chunk to the build's assets and rewrites the module tags of the HTML.
 */
module Plugin {
  import opened Wrappers
  import opened Text
  import PosixPath
  import LegacyName
  import BabelEnv
  import Loader
  import HtmlRewrite

  /** Vite's build options, as far as the plugin reads them. */
  datatype ViteConfig = ViteConfig(
    write: bool,
    esbuildTarget: string,
    sourcemap: bool,
    minify: bool,
    root: string,
    outDir: string,
    assetsDir: string)

  /** An output chunk: its file name and its code. */
  datatype Chunk = Chunk(fileName: string, code: string)

  /** What the returned hook has captured: Vite's options, the preset options and the loader factory. */
  datatype BuildHook = BuildHook(vite: ViteConfig, babelEnv: BabelEnv.EnvOptions, getLoader: Loader.ScriptFactory)

  /** Why a build hook throws. */
  datatype Failure =
    | MissingMainChunk               // `build.assets` is empty, so `mainChunk` is `undefined`
    | TransformFailed(message: string)
    | BundleFailed                   // rollup rejected the legacy input

  const TransformFailedMessage := "[vite-plugin-legacy] " + "Failed to transform modern bundle"

  /** `babel.transformAsync(code, { sourceMaps, presets: [[preset-env, env]] })`: the transformed
      code, or nothing when Babel gives no result. */
  type Transpiler = (string, BabelEnv.EnvOptions, bool) -> Option<string>

  /** The rollup plugins handed to the legacy bundle. */
  datatype RollupPlugin =
    | CommonJS(sourceMap: bool)
    | LegacyResolve(legacyPath: string, code: string)   // serves `code` as the module `legacyPath`
    | Terser

  /** `rollup({ input, plugins })` followed by `generate({ file: input, format: 'iife', sourcemap })`:
      the code of the first output chunk, or nothing when rollup throws. */
  type Bundler = (string, seq<RollupPlugin>, bool) -> Option<string>

  // ---------------------------------------------------------------- configureBuild

  /** `configureBuild`: no hook when the build writes nothing; otherwise a hook over the preset
      options for `config` and the loader factory for the lower-cased esbuild target. */
  function ConfigureBuild(config: BabelEnv.PluginConfig, vite: ViteConfig): (hook: Option<BuildHook>)
    ensures hook.None? <==> !vite.write
    ensures hook.Some? ==> hook.value.vite == vite && hook.value.babelEnv == BabelEnv.GetBabelEnv(config)
    ensures hook.Some? ==> hook.value.getLoader == Loader.CreateScriptFactory(Lower(vite.esbuildTarget))
  {
    if !vite.write then None
    else Some(BuildHook(vite, BabelEnv.GetBabelEnv(config), Loader.CreateScriptFactory(Lower(vite.esbuildTarget))))
  }

  /** Two esbuild targets that differ only in case give the same loader factory. */
  lemma ConfigureBuildIgnoresCase(config: BabelEnv.PluginConfig, a: ViteConfig, b: ViteConfig)
    requires a.write && b.write && EqualsIgnoreCase(a.esbuildTarget, b.esbuildTarget)
    ensures ConfigureBuild(config, a).value.getLoader == ConfigureBuild(config, b).value.getLoader
  {
    assert forall i :: 0 <= i < |a.esbuildTarget| ==> Lower(a.esbuildTarget)[i] == Lower(b.esbuildTarget)[i];
    assert Lower(a.esbuildTarget) == Lower(b.esbuildTarget);
  }

  /** The probes of the hook's loader carry no double quote, whatever the target. */
  lemma ConfigureBuildProbesQuoteFree(config: BabelEnv.PluginConfig, vite: ViteConfig)
    requires vite.write
    ensures QuoteFree(ConfigureBuild(config, vite).value.getLoader.syntaxTest)
    ensures QuoteFree(ConfigureBuild(config, vite).value.getLoader.moduleTest)
  {
    Loader.FactoryQuoteFree(Lower(vite.esbuildTarget));
  }

  // ---------------------------------------------------------------- createLegacyChunk

  /** `path.resolve(root, outDir, assetsDir, legacyName)`, with `cwd` as the process directory. */
  function LegacyPath(vite: ViteConfig, mainFileName: string, cwd: string): string
    requires PosixPath.Absolute(cwd)
  {
    PosixPath.Resolve([vite.root, vite.outDir, vite.assetsDir, LegacyName.LegacyFileName(mainFileName)], cwd)
  }

  /** The legacy file lies in `path.resolve(root, outDir, assetsDir)` and carries the legacy name. */
  lemma LegacyPathInAssetsDir(vite: ViteConfig, mainFileName: string, cwd: string)
    requires PosixPath.Absolute(cwd) && PosixPath.Plain(mainFileName)
    ensures PosixPath.Segments(LegacyPath(vite, mainFileName, cwd))
         == PosixPath.Segments(PosixPath.Resolve([vite.root, vite.outDir, vite.assetsDir], cwd))
            + [LegacyName.LegacyFileName(mainFileName)]
    ensures PosixPath.Basename(LegacyPath(vite, mainFileName, cwd)) == LegacyName.LegacyFileName(mainFileName)
  {
    LegacyName.KeepsPlain(mainFileName);
    var dirs := [vite.root, vite.outDir, vite.assetsDir];
    assert [vite.root, vite.outDir, vite.assetsDir, LegacyName.LegacyFileName(mainFileName)]
        == dirs + [LegacyName.LegacyFileName(mainFileName)];
    PosixPath.ResolveAppend(dirs, LegacyName.LegacyFileName(mainFileName), cwd);
  }

  /** The plugin list: commonJS, the resolver of the legacy input, and terser only when minifying. */
  function Plugins(vite: ViteConfig, legacyPath: string, code: string): (ps: seq<RollupPlugin>)
    ensures |ps| == (if vite.minify then 3 else 2)
    ensures ps[0] == CommonJS(vite.sourcemap) && ps[1] == LegacyResolve(legacyPath, code)
    ensures Terser in ps <==> vite.minify
  {
    [CommonJS(vite.sourcemap), LegacyResolve(legacyPath, code)] + (if vite.minify then [Terser] else [])
  }

  /** What `createLegacyChunk` returns or throws: the transform failure first, then the bundle's;
      the chunk rollup writes to `legacyPath` is named by its base name. */
  function LegacyChunk(main: Chunk, vite: ViteConfig, babelEnv: BabelEnv.EnvOptions,
                       transpile: Transpiler, bundle: Bundler, cwd: string): Result<Chunk, Failure>
    requires PosixPath.Absolute(cwd)
  {
    match transpile(main.code, babelEnv, vite.sourcemap)
    case None => Failure(TransformFailed(TransformFailedMessage))
    case Some(code) =>
      var legacyPath := LegacyPath(vite, main.fileName, cwd);
      match bundle(legacyPath, Plugins(vite, legacyPath, code), vite.sourcemap)
      case None => Failure(BundleFailed)
      case Some(out) => Success(Chunk(PosixPath.Basename(legacyPath), out))
  }

  /** Babel giving no result is exactly the case that throws the transform error, and then no
      legacy chunk exists. */
  lemma TransformFailureIff(main: Chunk, vite: ViteConfig, babelEnv: BabelEnv.EnvOptions,
                            transpile: Transpiler, bundle: Bundler, cwd: string)
    requires PosixPath.Absolute(cwd)
    ensures LegacyChunk(main, vite, babelEnv, transpile, bundle, cwd) == Failure(TransformFailed(TransformFailedMessage))
        <==> transpile(main.code, babelEnv, vite.sourcemap).None?
  {
  }

  /** A legacy chunk exists exactly when both Babel and rollup succeed; it is named after the main
      chunk and holds what rollup made of the transformed code with the plugin list. */
  lemma LegacyChunkFacts(main: Chunk, vite: ViteConfig, babelEnv: BabelEnv.EnvOptions,
                         transpile: Transpiler, bundle: Bundler, cwd: string)
    requires PosixPath.Absolute(cwd)
    ensures var r := LegacyChunk(main, vite, babelEnv, transpile, bundle, cwd);
      var t := transpile(main.code, babelEnv, vite.sourcemap);
      var legacyPath := LegacyPath(vite, main.fileName, cwd);
      && (r.Success? <==> t.Some? && bundle(legacyPath, Plugins(vite, legacyPath, t.value), vite.sourcemap).Some?)
      && (r.Success? && PosixPath.Plain(main.fileName) ==> r.value.fileName == LegacyName.LegacyFileName(main.fileName))
      && (r.Success? ==> r.value.code == bundle(legacyPath, Plugins(vite, legacyPath, t.value), vite.sourcemap).value)
  {
    if PosixPath.Plain(main.fileName) {
      LegacyPathInAssetsDir(vite, main.fileName, cwd);
    }
  }

  /** `createLegacyChunk`: transpile, give up without a result, build the plugin list (pushing terser
      when minifying) and bundle. */
  method CreateLegacyChunk(main: Chunk, vite: ViteConfig, babelEnv: BabelEnv.EnvOptions,
                           transpile: Transpiler, bundle: Bundler, cwd: string) returns (r: Result<Chunk, Failure>)
    requires PosixPath.Absolute(cwd)
    ensures r == LegacyChunk(main, vite, babelEnv, transpile, bundle, cwd)
  {
    var transformed := transpile(main.code, babelEnv, vite.sourcemap);
    if transformed.None? {
      return Failure(TransformFailed(TransformFailedMessage));
    }
    var legacyPath := LegacyPath(vite, main.fileName, cwd);
    var plugins := [CommonJS(vite.sourcemap), LegacyResolve(legacyPath, transformed.value)];
    if vite.minify {
      plugins := plugins + [Terser];
    }
    assert plugins == Plugins(vite, legacyPath, transformed.value);
    var output := bundle(legacyPath, plugins, vite.sourcemap);
    if output.None? {
      return Failure(BundleFailed);
    }
    r := Success(Chunk(PosixPath.Basename(legacyPath), output.value));
  }

  // ---------------------------------------------------------------- the build hook

  /** The build's assets and HTML. */
  datatype BuildState = BuildState(assets: seq<Chunk>, html: string)

  /** The binding of the replace callback for a main chunk and its legacy chunk. */
  function HookBinding(hook: BuildHook, main: Chunk, legacy: Chunk, cwd: string): HtmlRewrite.Binding {
    HtmlRewrite.Binding(main.fileName, legacy.fileName, hook.getLoader, cwd)
  }

  /** What the hook makes of a build: the first asset is the main chunk; its legacy chunk is
      appended and the HTML rewritten, or the hook throws and the build is left as it was. */
  function HookResult(st: BuildState, hook: BuildHook, transpile: Transpiler, bundle: Bundler, cwd: string): Result<BuildState, Failure>
    requires PosixPath.Absolute(cwd)
  {
    if st.assets == [] then Failure(MissingMainChunk)
    else
      var main := st.assets[0];
      match LegacyChunk(main, hook.vite, hook.babelEnv, transpile, bundle, cwd)
      case Failure(e) => Failure(e)
      case Success(legacy) =>
        Success(BuildState(st.assets + [legacy], HtmlRewrite.Rewrite(st.html, HookBinding(hook, main, legacy, cwd))))
  }

  /** The hook fails without a main chunk, and with the transform error when Babel gives nothing. */
  lemma HookFailures(st: BuildState, hook: BuildHook, transpile: Transpiler, bundle: Bundler, cwd: string)
    requires PosixPath.Absolute(cwd)
    ensures st.assets == [] ==> HookResult(st, hook, transpile, bundle, cwd) == Failure(MissingMainChunk)
    ensures st.assets != [] && transpile(st.assets[0].code, hook.babelEnv, hook.vite.sourcemap).None? ==>
      HookResult(st, hook, transpile, bundle, cwd) == Failure(TransformFailed(TransformFailedMessage))
    ensures HookResult(st, hook, transpile, bundle, cwd).Success? <==>
      st.assets != [] && LegacyChunk(st.assets[0], hook.vite, hook.babelEnv, transpile, bundle, cwd).Success?
  {
  }

  /** After a successful hook the old assets are still there, in order, followed by exactly one
      new chunk; for a main chunk named without a directory, it carries the legacy name. */
  lemma HookAppendsLegacyChunk(st: BuildState, hook: BuildHook, transpile: Transpiler, bundle: Bundler, cwd: string)
    requires PosixPath.Absolute(cwd)
    requires HookResult(st, hook, transpile, bundle, cwd).Success?
    ensures var after := HookResult(st, hook, transpile, bundle, cwd).value;
      && |after.assets| == |st.assets| + 1
      && after.assets[..|st.assets|] == st.assets
      && (PosixPath.Plain(st.assets[0].fileName) ==>
            after.assets[|st.assets|].fileName == LegacyName.LegacyFileName(st.assets[0].fileName))
  {
    LegacyChunkFacts(st.assets[0], hook.vite, hook.babelEnv, transpile, bundle, cwd);
    var after := HookResult(st, hook, transpile, bundle, cwd).value;
    assert after.assets[..|st.assets|] == st.assets;
  }

  /**
   * On HTML made of inert text and module tags, the hook of a writing build replaces exactly the
   * tags of the main chunk by their loaders, and running the rewrite once more on its result
   * changes nothing.
   */
  lemma HookRewritesHtml(config: BabelEnv.PluginConfig, vite: ViteConfig, st: BuildState, ps: seq<HtmlRewrite.Piece>,
                         transpile: Transpiler, bundle: Bundler, cwd: string)
    requires vite.write && PosixPath.Absolute(cwd) && QuoteFree(cwd)
    requires st.assets != [] && PosixPath.Plain(st.assets[0].fileName)
    requires st.html == HtmlRewrite.Flatten(ps) && HtmlRewrite.AllWellFormed(ps)
    requires HookResult(st, ConfigureBuild(config, vite).value, transpile, bundle, cwd).Success?
    ensures var hook := ConfigureBuild(config, vite).value;
      var main := st.assets[0];
      var b := HtmlRewrite.Binding(main.fileName, LegacyName.LegacyFileName(main.fileName), hook.getLoader, cwd);
      var after := HookResult(st, hook, transpile, bundle, cwd).value;
      && after.html == HtmlRewrite.EmitAll(ps, b)
      && HtmlRewrite.Rewrite(after.html, b) == after.html
  {
    var hook := ConfigureBuild(config, vite).value;
    var main := st.assets[0];
    LegacyChunkFacts(main, hook.vite, hook.babelEnv, transpile, bundle, cwd);
    var b := HtmlRewrite.Binding(main.fileName, LegacyName.LegacyFileName(main.fileName), hook.getLoader, cwd);
    ConfigureBuildProbesQuoteFree(config, vite);
    assert HtmlRewrite.BuildBinding(b);
    HtmlRewrite.RewriteStructured(ps, b);
    HtmlRewrite.RewriteIdempotent(ps, b);
  }

  /** A build whose assets and HTML the hook updates in place. */
  class Build {
    var assets: seq<Chunk>
    var html: string

    constructor (assets: seq<Chunk>, html: string)
      ensures this.assets == assets && this.html == html
    {
      this.assets := assets;
      this.html := html;
    }

    function State(): BuildState
      reads this
    {
      BuildState(assets, html)
    }

    /** The hook returned by `configureBuild`: the legacy chunk is made before anything changes,
        then pushed onto the assets, then the HTML is rewritten. */
    method RunHook(hook: BuildHook, transpile: Transpiler, bundle: Bundler, cwd: string) returns (outcome: Outcome<Failure>)
      requires PosixPath.Absolute(cwd)
      modifies this
      ensures var r := HookResult(old(State()), hook, transpile, bundle, cwd);
        && (outcome.Pass? <==> r.Success?)
        && (r.Success? ==> State() == r.value)
        && (r.Failure? ==> outcome == Fail(r.error) && State() == old(State()))
    {
      if assets == [] {
        return Fail(MissingMainChunk);
      }
      var main := assets[0];
      var legacy := CreateLegacyChunk(main, hook.vite, hook.babelEnv, transpile, bundle, cwd);
      if legacy.Failure? {
        return Fail(legacy.error);
      }
      assets := assets + [legacy.value];
      html := HtmlRewrite.Rewrite(html, HookBinding(hook, main, legacy.value, cwd));
      outcome := Pass;
    }
  }
}
