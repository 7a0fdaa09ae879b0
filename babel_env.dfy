/** The plugin's configuration and the `@babel/preset-env` options built from it (`getBabelEnv`). */
module BabelEnv {
  import opened Wrappers

  /** The shapes preset-env accepts for `targets`: one browserslist query, a list of queries,
      or a map from environment name to minimum version. */
  datatype Targets = Query(query: string) | QueryList(queries: seq<string>) | Versions(versions: map<string, string>)

  /** The plugin's options; `None` is an option left `undefined`. */
  datatype PluginConfig = PluginConfig(targets: Option<Targets>, ignoreBrowserslistConfig: Option<bool>)

  /** The options object handed to preset-env. */
  datatype EnvOptions = EnvOptions(
    bugfixes: bool,
    useBuiltIns: string,
    corejs: nat,
    targets: Targets,
    ignoreBrowserslistConfig: Option<bool>)

  /** The configuration the plugin uses when it is called with no argument (`config = {}`). */
  const EmptyConfig := PluginConfig(None, None)

  /** The browserslist query used when no `targets` are given. */
  const DefaultTargets := Query("defaults")

  function EffectiveTargets(config: PluginConfig): Targets {
    config.targets.GetOr(DefaultTargets)
  }

  /** `getBabelEnv`: `targets` defaults to `'defaults'`, `ignoreBrowserslistConfig` is passed through
      (still `undefined` when absent), and the bug-fix, usage-based core-js 3 settings are fixed. */
  function GetBabelEnv(config: PluginConfig): (env: EnvOptions)
    ensures env.bugfixes && env.useBuiltIns == "usage" && env.corejs == 3
    ensures config.targets.Some? ==> env.targets == config.targets.value
    ensures config.targets.None? ==> env.targets == DefaultTargets
    ensures env.ignoreBrowserslistConfig == config.ignoreBrowserslistConfig
  {
    EnvOptions(
      bugfixes := true,
      useBuiltIns := "usage",
      corejs := 3,
      targets := EffectiveTargets(config),
      ignoreBrowserslistConfig := config.ignoreBrowserslistConfig)
  }

  /** Two configurations give the same preset options exactly when they agree on the effective
      targets and on `ignoreBrowserslistConfig`: nothing else of the configuration reaches Babel. */
  lemma SameEnvIff(a: PluginConfig, b: PluginConfig)
    ensures GetBabelEnv(a) == GetBabelEnv(b) <==>
      EffectiveTargets(a) == EffectiveTargets(b) && a.ignoreBrowserslistConfig == b.ignoreBrowserslistConfig
  {
  }

  /** Leaving `targets` out is the same as asking for `'defaults'`; calling the plugin with no
      argument gives the `'defaults'` query and leaves `ignoreBrowserslistConfig` undefined. */
  lemma AbsentTargetsAreDefaults(ignore: Option<bool>)
    ensures GetBabelEnv(PluginConfig(None, ignore)) == GetBabelEnv(PluginConfig(Some(Query("defaults")), ignore))
    ensures GetBabelEnv(EmptyConfig) == EnvOptions(true, "usage", 3, Query("defaults"), None)
  {
  }
}
