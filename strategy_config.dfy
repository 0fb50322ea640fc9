/**
 * How a buckconfig section selects the build strategy of modern build rules, and how the
 * hybrid-local strategy reads its job counts and the flavoured section of its delegate.
 *
 * The configuration is an abstract lookup from (section, key) to an optional value, one per value
 * type it is read as.
 */
module StrategyConfig {
  import opened Wrappers

  /**
   * `ModernBuildRuleBuildStrategy`. NONE and DEFAULT are the two values the selection names;
   * every other constant is carried by its name.
   */
  datatype ModernBuildRuleBuildStrategy = NONE | DEFAULT | Named(name: string)

  /** The section of the modern build rule configuration (`ModernBuildRuleConfig.SECTION`). */
  const Section: string := "modern_build_rule"

  /** What the strategy selection reads from a buckconfig. */
  datatype BuckConfig = BuckConfig(
    getEnum: (string, string) -> Option<ModernBuildRuleBuildStrategy>,
    getInteger: (string, string) -> Option<int>,
    getFloat: (string, string) -> Option<real>,
    getValue: (string, string) -> Option<string>,
    numThreads: int)

  /** A hybrid-local setting lacks a key it requires. */
  datatype ConfigError = Requires(key: string, section: string)

  /** `Math.ceil` of a product, then the cast to `int`, on exact reals. */
  function Ceil(x: real): (r: int)
    ensures r as real >= x && (r - 1) as real < x
  {
    -((-x).Floor)
  }

  /** The section a flavoured configuration reads: `SECTION#flavor`. */
  function FlavoredSection(flavor: string): string {
    Section + "#" + flavor
  }

  datatype HybridLocalBuildStrategyConfig = HybridLocalBuildStrategyConfig(
    localJobs: int,
    localDelegateJobs: int,
    delegateJobs: int,
    delegate: StrategyConfigFromSection)

  /** `ModernBuildRuleStrategyConfigFromSection`: a buckconfig read through one section. */
  datatype StrategyConfigFromSection = StrategyConfigFromSection(config: BuckConfig, section: string)
  {
    /**
     * getBuildStrategy: NONE when remote execution is force-disabled; else the section's
     * `strategy`; else, only for the default section with remote execution auto-enabled, its
     * `experimental_strategy`; else DEFAULT.
     */
    function GetBuildStrategy(remoteExecutionAutoEnabled: bool, forceDisableRemoteExecution: bool)
      : ModernBuildRuleBuildStrategy
    {
      if forceDisableRemoteExecution then NONE
      else match config.getEnum(section, "strategy")
        case Some(strategy) => strategy
        case None =>
          if section == Section && remoteExecutionAutoEnabled then
            match config.getEnum(section, "experimental_strategy")
            case Some(strategy) => strategy
            case None => DEFAULT
          else DEFAULT
    }

    /** The configuration read from the section `SECTION#flavor` of the same buckconfig. */
    function GetFlavoredStrategyConfig(flavor: string): StrategyConfigFromSection {
      StrategyConfigFromSection(config, FlavoredSection(flavor))
    }

    /** The number of local jobs: a ratio of the thread count, else `local_jobs`, else the thread count. */
    function LocalJobs(): int {
      match config.getFloat(section, "local_jobs_ratio")
      case Some(ratio) => Ceil(config.numThreads as real * ratio)
      case None =>
        match config.getInteger(section, "local_jobs")
        case Some(n) => n
        case None => config.numThreads
    }

    /**
     * getHybridLocalConfig: the local job counts, then `delegate_jobs` and `delegate`, each
     * required in that order, and the delegate's flavoured configuration.
     */
    function GetHybridLocalConfig(): Result<HybridLocalBuildStrategyConfig, ConfigError> {
      var localJobs := LocalJobs();
      var localDelegateJobs := match config.getFloat(section, "local_delegate_jobs_ratio")
        case Some(ratio) => Ceil(localJobs as real * ratio)
        case None => localJobs;
      match config.getInteger(section, "delegate_jobs")
      case None => Err(Requires("delegate_jobs", section))
      case Some(remoteJobs) =>
        match config.getValue(section, "delegate")
        case None => Err(Requires("delegate", section))
        case Some(delegateFlavor) =>
          Ok(HybridLocalBuildStrategyConfig(localJobs, localDelegateJobs, remoteJobs, GetFlavoredStrategyConfig(delegateFlavor)))
    }
  }

  // ---------------------------------------------------------------------------------------------
  // Strategy selection

  /**
   * The precedence of the strategy settings: force-disabling wins over everything, an explicit
   * `strategy` over the auto-enabled experimental one, and DEFAULT is the fallback.
   */
  lemma StrategyPrecedence(c: StrategyConfigFromSection, autoEnabled: bool, forceDisable: bool)
    ensures var s := c.GetBuildStrategy(autoEnabled, forceDisable);
      var explicit, experimental := c.config.getEnum(c.section, "strategy"), c.config.getEnum(c.section, "experimental_strategy");
      (forceDisable ==> s == NONE)
      && (!forceDisable && explicit.Some? ==> s == explicit.value)
      && (!forceDisable && explicit.None? && c.section == Section && autoEnabled && experimental.Some? ==> s == experimental.value)
      && (!forceDisable && explicit.None? && (c.section != Section || !autoEnabled || experimental.None?) ==> s == DEFAULT)
  {
  }

  /** NONE is selected only if remote execution is force-disabled or a setting names NONE. */
  lemma NoneOnlyWhenAsked(c: StrategyConfigFromSection, autoEnabled: bool, forceDisable: bool)
    requires c.GetBuildStrategy(autoEnabled, forceDisable) == NONE
    ensures forceDisable || c.config.getEnum(c.section, "strategy") == Some(NONE)
      || (c.section == Section && autoEnabled && c.config.getEnum(c.section, "experimental_strategy") == Some(NONE))
  {
  }

  /** Outside the default section, auto-enabling remote execution makes no difference. */
  lemma AutoEnabledOnlyInDefaultSection(c: StrategyConfigFromSection, forceDisable: bool)
    requires c.section != Section
    ensures c.GetBuildStrategy(true, forceDisable) == c.GetBuildStrategy(false, forceDisable)
  {
  }

  // ---------------------------------------------------------------------------------------------
  // Flavoured sections

  /** A flavoured section starts with the default section name and a `#`, and ends with the flavor. */
  lemma FlavoredSectionShape(flavor: string)
    ensures var s := FlavoredSection(flavor);
      |s| == |Section| + 1 + |flavor| && s[..|Section|] == Section && s[|Section|] == '#'
      && s[|Section| + 1..] == flavor
  {
  }

  /** Different flavors read different sections, and none of them is the default section. */
  lemma FlavoredSectionsAreDistinct(f1: string, f2: string)
    ensures FlavoredSection(f1) == FlavoredSection(f2) <==> f1 == f2
    ensures FlavoredSection(f1) != Section
  {
    FlavoredSectionShape(f1);
    FlavoredSectionShape(f2);
    assert |FlavoredSection(f1)| != |Section|;
  }

  /**
   * A flavoured configuration never selects the experimental strategy: it reads its own
   * section's `strategy` or falls back to DEFAULT, whether remote execution was auto-enabled or not.
   */
  lemma FlavoredIgnoresAutoEnable(c: StrategyConfigFromSection, flavor: string, forceDisable: bool)
    ensures var f := c.GetFlavoredStrategyConfig(flavor);
      f.config == c.config && f.section == FlavoredSection(flavor)
      && f.GetBuildStrategy(true, forceDisable) == f.GetBuildStrategy(false, forceDisable)
      && (!forceDisable ==>
            f.GetBuildStrategy(true, false)
              == match c.config.getEnum(FlavoredSection(flavor), "strategy") case Some(s) => s case None => DEFAULT)
  {
    FlavoredSectionsAreDistinct(flavor, flavor);
  }

  // ---------------------------------------------------------------------------------------------
  // The hybrid-local configuration

  /**
   * The hybrid-local configuration fails exactly when `delegate_jobs` or `delegate` is missing,
   * naming `delegate_jobs` first; otherwise it carries the `delegate_jobs` count and the
   * configuration of the section flavoured by `delegate`.
   */
  lemma HybridRequiresDelegate(c: StrategyConfigFromSection)
    ensures var r := c.GetHybridLocalConfig();
      var jobs, flavor := c.config.getInteger(c.section, "delegate_jobs"), c.config.getValue(c.section, "delegate");
      (r.Err? <==> jobs.None? || flavor.None?)
      && (jobs.None? ==> r == Err(Requires("delegate_jobs", c.section)))
      && (jobs.Some? && flavor.None? ==> r == Err(Requires("delegate", c.section)))
      && (r.Ok? ==>
            r.value.delegateJobs == jobs.value
            && r.value.delegate == StrategyConfigFromSection(c.config, FlavoredSection(flavor.value)))
  {
  }

  /**
   * Without ratio keys the local job count is `local_jobs` if set and the thread count
   * otherwise, and the local delegate job count equals it.
   */
  lemma HybridJobsWithoutRatios(c: StrategyConfigFromSection)
    requires c.config.getFloat(c.section, "local_jobs_ratio").None?
    requires c.config.getFloat(c.section, "local_delegate_jobs_ratio").None?
    requires c.GetHybridLocalConfig().Ok?
    ensures var h := c.GetHybridLocalConfig().value;
      var n := c.config.getInteger(c.section, "local_jobs");
      h.localJobs == (if n.Some? then n.value else c.config.numThreads) && h.localDelegateJobs == h.localJobs
  {
  }

  /**
   * A `local_jobs_ratio` takes precedence over `local_jobs`: the ratio of the thread count,
   * rounded up. A `local_delegate_jobs_ratio` applies in turn to the local job count.
   */
  lemma HybridJobsWithRatios(c: StrategyConfigFromSection)
    requires c.GetHybridLocalConfig().Ok?
    ensures var h := c.GetHybridLocalConfig().value;
      var r1, r2 := c.config.getFloat(c.section, "local_jobs_ratio"), c.config.getFloat(c.section, "local_delegate_jobs_ratio");
      (r1.Some? ==>
         h.localJobs as real >= c.config.numThreads as real * r1.value
         && (h.localJobs - 1) as real < c.config.numThreads as real * r1.value)
      && (r2.Some? ==>
         h.localDelegateJobs as real >= h.localJobs as real * r2.value
         && (h.localDelegateJobs - 1) as real < h.localJobs as real * r2.value)
      && (r2.None? ==> h.localDelegateJobs == h.localJobs)
  {
  }
}
