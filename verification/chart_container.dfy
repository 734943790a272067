/** `ChartContainer` from the chart component: it turns the chart
    configuration into CSS custom properties, one `--color-<key>` per
    series, and sets them on its wrapper only once it has mounted. */
module ChartContainer {

  /** One series of the configuration: its legend label and the CSS
      value its colour variable is given. */
  datatype SeriesConfig = SeriesConfig(labelText: string, cssVariable: string)

  /** `Object.entries(config)`: each key with its series. JavaScript lists
      keys that are array indices (such as `"2020"`) first, in ascending
      numeric order, and the other keys in the order the object literal
      gives them; with distinct keys the record built from the entries
      does not depend on that order (`ColorVarsOrderFree`). */
  type ChartConfig = seq<(string, SeriesConfig)>

  /** An object holds each key once. */
  predicate DistinctKeys(config: ChartConfig)
  {
    forall i, j :: 0 <= i < j < |config| ==> config[i].0 != config[j].0
  }

  const ColorPrefix: string := "--color-"

  /** The custom property a key's colour is stored under. */
  function VarName(key: string): (name: string)
    ensures |name| == |ColorPrefix| + |key|
    ensures name[..|ColorPrefix|] == ColorPrefix && name[|ColorPrefix|..] == key
  {
    ColorPrefix + key
  }

  /** The keys of a configuration as custom property names. */
  function VarNames(config: ChartConfig): set<string>
  {
    set e | e in config :: VarName(e.0)
  }

  /** The reduction in the try block: starting from an empty record, each
      entry in turn sets `--color-<key>` to its series' `cssVariable`. */
  function ColorVars(config: ChartConfig): (vars: map<string, string>)
    ensures vars.Keys == VarNames(config)
  {
    if |config| == 0 then map[]
    else
      var front := config[..|config| - 1];
      var (key, series) := config[|config| - 1];
      assert VarNames(config) == VarNames(front) + {VarName(key)} by {
        assert config == front + [config[|config| - 1]];
      }
      ColorVars(front)[VarName(key) := series.cssVariable]
  }

  /** For every key `k` of the configuration, the record sends
      `--color-k` to that key's `cssVariable`. */
  lemma {:induction false} ColorVarsLookup(config: ChartConfig, i: nat)
    requires DistinctKeys(config) && i < |config|
    ensures ColorVars(config)[VarName(config[i].0)] == config[i].1.cssVariable
  {
    var n := |config| - 1;
    if i < n {
      var front := config[..n];
      assert DistinctKeys(front);
      ColorVarsLookup(front, i);
      assert front[i] == config[i];
      assert config[i].0 != config[n].0;
      VarNameInjective(config[i].0, config[n].0);
    }
  }

  /** The reduction in the catch block, written out again there. It runs
      only when the try block's reduction has thrown, over the same
      configuration, so it throws in the same way (see `Step`). */
  function FallbackVars(config: ChartConfig): (vars: map<string, string>)
    ensures vars.Keys == VarNames(config)
  {
    if |config| == 0 then map[]
    else
      var front := config[..|config| - 1];
      var (key, series) := config[|config| - 1];
      assert VarNames(config) == VarNames(front) + {VarName(key)} by {
        assert config == front + [config[|config| - 1]];
      }
      FallbackVars(front)[VarName(key) := series.cssVariable]
  }

  /** The fallback computes the same record as the try block. */
  lemma {:induction false} FallbackAgrees(config: ChartConfig)
    ensures FallbackVars(config) == ColorVars(config)
  {
    if |config| > 0 {
      FallbackAgrees(config[..|config| - 1]);
    }
  }

  /** With distinct keys, the order in which the entries are listed does
      not matter: two listings of the same entries give the same record. */
  lemma ColorVarsOrderFree(c1: ChartConfig, c2: ChartConfig)
    requires DistinctKeys(c1) && DistinctKeys(c2)
    requires forall e :: e in c1 <==> e in c2
    ensures ColorVars(c1) == ColorVars(c2)
  {
    var v1, v2 := ColorVars(c1), ColorVars(c2);
    assert VarNames(c1) == VarNames(c2);
    forall name | name in v1
      ensures v1[name] == v2[name]
    {
      var e :| e in c1 && VarName(e.0) == name;
      var i :| 0 <= i < |c1| && c1[i] == e;
      var j :| 0 <= j < |c2| && c2[j] == e;
      ColorVarsLookup(c1, i);
      ColorVarsLookup(c2, j);
    }
  }

  /** Distinct keys give distinct custom property names. */
  lemma VarNameInjective(a: string, b: string)
    ensures VarName(a) == VarName(b) <==> a == b
  {
  }

  /** The record has exactly one entry per key of the configuration. */
  lemma {:induction false} OneVariablePerKey(config: ChartConfig)
    requires DistinctKeys(config)
    ensures |ColorVars(config)| == |config|
  {
    if |config| > 0 {
      var front := config[..|config| - 1];
      assert DistinctKeys(front);
      OneVariablePerKey(front);
      var last := config[|config| - 1];
      assert VarName(last.0) !in ColorVars(front);
    }
  }

  /** Labels play no part: two configurations with the same keys and
      `cssVariable`s in the same order give the same record. */
  lemma {:induction false} LabelsIgnored(c1: ChartConfig, c2: ChartConfig)
    requires |c1| == |c2|
    requires forall i :: 0 <= i < |c1| ==> c1[i].0 == c2[i].0 && c1[i].1.cssVariable == c2[i].1.cssVariable
    ensures ColorVars(c1) == ColorVars(c2)
  {
    if |c1| > 0 {
      LabelsIgnored(c1[..|c1| - 1], c2[..|c2| - 1]);
    }
  }

  /** The component's state: the style record it renders with, and
      whether it has mounted. */
  datatype Container = Container(styleVars: map<string, string>, isMounted: bool)

  /** Before the first effect: an empty style record, not mounted. */
  const Initial := Container(map[], false)

  /** `Mounted` is the render in which the first effect's
      `setIsMounted(true)` has taken hold; `ConfigEffect` is a run of the
      second effect. `throws` says whether the configuration makes the
      reduction throw, which only a value outside the declared type can
      do (a missing configuration or entry, a throwing getter). */
  datatype Event = Mounted | ConfigEffect(config: ChartConfig, throws: bool)

  /** One event. The second effect returns at once unless mounted. When
      the reduction throws, the catch block runs the same reduction over
      the same configuration, throws again, and the error leaves the
      effect before `setStyleVars` is called: the state is unchanged. */
  function Step(s: Container, e: Event): (s': Container)
    ensures e.Mounted? ==> s' == s.(isMounted := true)
    ensures e.ConfigEffect? ==> s'.isMounted == s.isMounted
    ensures s'.styleVars != s.styleVars ==> s.isMounted && e.ConfigEffect? && !e.throws
    ensures e.ConfigEffect? && e.throws ==> s' == s
    ensures s.isMounted && e.ConfigEffect? && !e.throws ==> s'.styleVars == ColorVars(e.config)
  {
    match e
    case Mounted => s.(isMounted := true)
    case ConfigEffect(config, throws) =>
      if !s.isMounted || throws then s
      else s.(styleVars := ColorVars(config))
  }

  /** The state after a sequence of events, starting from the initial
      state. The component is mounted exactly when a `Mounted` event has
      happened. */
  function Run(events: seq<Event>): (s: Container)
    ensures s.isMounted <==> Mounted in events
  {
    if |events| == 0 then Initial
    else
      var front := events[..|events| - 1];
      assert events == front + [events[|events| - 1]];
      Step(Run(front), events[|events| - 1])
  }

  /** While the component is not mounted its style record stays empty,
      whatever runs of the second effect happen. */
  lemma {:induction false} UnmountedStaysEmpty(events: seq<Event>)
    ensures !Run(events).isMounted ==> Run(events).styleVars == map[]
  {
    if |events| > 0 {
      UnmountedStaysEmpty(events[..|events| - 1]);
    }
  }

  /** Once mounted, a run of the second effect that does not throw
      installs the record of the configuration it sees. */
  lemma MountedEffectInstalls(events: seq<Event>, config: ChartConfig)
    requires Run(events).isMounted
    ensures Run(events + [ConfigEffect(config, false)]).styleVars == ColorVars(config)
  {
    assert (events + [ConfigEffect(config, false)])[..|events|] == events;
  }

  /** A run of the second effect that throws changes nothing, mounted or
      not: the catch block throws as well. */
  lemma ThrowingEffectKeepsState(events: seq<Event>, config: ChartConfig)
    ensures Run(events + [ConfigEffect(config, true)]) == Run(events)
  {
    assert (events + [ConfigEffect(config, true)])[..|events|] == events;
  }

  /** The first commit: the second effect runs before the mount has taken
      hold and leaves the record empty; after the re-render it sets it. */
  lemma FirstCommit(config: ChartConfig, first: bool)
    ensures Run([ConfigEffect(config, first), Mounted]).styleVars == map[]
    ensures Run([ConfigEffect(config, first), Mounted, ConfigEffect(config, false)]).styleVars
      == ColorVars(config)
  {
    var events := [ConfigEffect(config, first), Mounted];
    assert events[..1] == [ConfigEffect(config, first)];
    assert [ConfigEffect(config, first)][..0] == [];
    assert Run([ConfigEffect(config, first)]) == Initial;
    assert Run(events) == Container(map[], true);
    MountedEffectInstalls(events, config);
    assert events + [ConfigEffect(config, false)]
      == [ConfigEffect(config, first), Mounted, ConfigEffect(config, false)];
  }

  /** The configuration the home page passes. */
  const PageConfig: ChartConfig := [
    ("coal", SeriesConfig("Coal", "--color-coal")),
    ("naturalGas", SeriesConfig("Natural Gas", "--color-naturalGas")),
    ("nuclear", SeriesConfig("Nuclear", "--color-nuclear")),
    ("renewables", SeriesConfig("Renewables", "--color-renewables")),
    ("petroleum", SeriesConfig("Petroleum", "--color-petroleum"))
  ]

  /** A configuration whose every `cssVariable` names its own key's
      custom property. */
  predicate NamesOwnVariable(config: ChartConfig)
  {
    forall i :: 0 <= i < |config| ==> config[i].1.cssVariable == VarName(config[i].0)
  }

  /** With such a configuration every custom property is set to its own
      name, not to a colour. */
  lemma SelfReferences(config: ChartConfig)
    requires DistinctKeys(config) && NamesOwnVariable(config)
    ensures forall name :: name in ColorVars(config) ==> ColorVars(config)[name] == name
  {
    var vars := ColorVars(config);
    forall name | name in vars
      ensures vars[name] == name
    {
      var e :| e in config && VarName(e.0) == name;
      var i :| 0 <= i < |config| && config[i] == e;
      ColorVarsLookup(config, i);
    }
  }

  /** The home page lists five different keys. */
  lemma PageConfigDistinct()
    ensures DistinctKeys(PageConfig)
  {
  }

  /** The property names of the home page's five keys. */
  lemma PageVarNames()
    ensures VarName("coal") == "--color-coal"
    ensures VarName("naturalGas") == "--color-naturalGas"
    ensures VarName("nuclear") == "--color-nuclear"
    ensures VarName("renewables") == "--color-renewables"
    ensures VarName("petroleum") == "--color-petroleum"
  {
  }

  /** Each series of the home page names its own key's property. */
  lemma PageConfigNamesOwnVariable()
    ensures NamesOwnVariable(PageConfig)
  {
    PageVarNames();
    forall i | 0 <= i < |PageConfig|
      ensures PageConfig[i].1.cssVariable == VarName(PageConfig[i].0)
    {
      if i == 0 {
      } else if i == 1 {
      } else if i == 2 {
      } else if i == 3 {
      } else {
      }
    }
  }

  /** The home page's configuration sets `--color-coal` to the text
      `--color-coal`, and likewise for the other four series. */
  lemma PageConfigSelfReferences()
    ensures forall name :: name in ColorVars(PageConfig) ==> ColorVars(PageConfig)[name] == name
  {
    PageConfigDistinct();
    PageConfigNamesOwnVariable();
    SelfReferences(PageConfig);
  }
}
