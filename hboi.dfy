/**
 The HBO-I professional-tasks query: a three-level table
 layer -> activity -> level -> record, reduced by up to three optional
 exact-match filters applied outer to inner (layer, activity, level).
 */
module Hboi {
  import opened Competency

  /** The five architecture layers that the command line accepts. */
  const ValidLayers: seq<string> :=
    ["Gebruikersinteractie", "Organisatieprocessen", "Infrastructuur", "Software", "Hardwareinterfacing"]

  /** The five professional activities that the command line accepts. */
  const ValidActivities: seq<string> :=
    ["Analyseren", "Adviseren", "Ontwerpen", "Realiseren", "Manage & Control"]

  type ActivityMap = map<string, LevelMap>
  type TaskTable = map<string, ActivityMap>

  datatype TaskError =
    | InvalidLevel(level: string)          // rejected by argparse `choices`
    | InvalidLayer(layer: string)          // not in ValidLayers
    | InvalidActivity(activity: string)    // not in ValidActivities
    | LoadFailed(reason: LoadFailure)      // the data file could not be loaded
    | LayerNotFound(layer: string)         // a valid layer that the table lacks
    | NoResults                            // the filters leave nothing

  /** A path (layer, activity, level) that leads to a record of `t`. */
  predicate HasPath(t: TaskTable, l: string, a: string, v: string)
  {
    l in t && a in t[l] && v in t[l][a]
  }

  /** A path satisfies every filter that was given. */
  predicate Selected(layer: Option<string>, activity: Option<string>, level: Option<string>,
                     l: string, a: string, v: string)
  {
    Matches(layer, l) && Matches(activity, a) && Matches(level, v)
  }

  /**
   Whether activity `a` (with level map `levels`) is put into `filtered_activities`:
   it matches the activity filter and, under a level filter, its reduced level map is
   not empty.
   */
  predicate KeepsActivity(a: string, levels: LevelMap, activity: Option<string>, level: Option<string>)
  {
    Matches(activity, a) && (!Given(level) || LevelFilter(levels, level) != map[])
  }

  /** `filtered_activities` for one layer once the inner loop is done. */
  function FilterActivities(acts: ActivityMap, activity: Option<string>, level: Option<string>): ActivityMap
  {
    map a | a in acts && KeepsActivity(a, acts[a], activity, level) :: LevelFilter(acts[a], level)
  }

  /** `result` once the outer loop over the (possibly narrowed) table is done. */
  function Reduce(data: TaskTable, activity: Option<string>, level: Option<string>): TaskTable
  {
    map l | l in data && FilterActivities(data[l], activity, level) != map[] :: FilterActivities(data[l], activity, level)
  }

  /**
   filter_tasks: a missing layer is an error, otherwise the reduction, and an empty
   reduction is an error too. This is the specification the loop below meets.
   */
  function FilterTasks(data: TaskTable, layer: Option<string>, activity: Option<string>, level: Option<string>)
    : (r: Result<TaskTable, TaskError>)
    ensures r.Ok? ==> r.value != map[]
    ensures r.Err? ==> r.error == NoResults || r.error.LayerNotFound?
    ensures (r.Err? && r.error.LayerNotFound?) <==> Given(layer) && layer.value !in data
    ensures r.Err? && r.error.LayerNotFound? ==> layer == Some(r.error.layer)
  {
    if Given(layer) && layer.value !in data then Err(LayerNotFound(layer.value))
    else
      var result := Reduce(Narrow(data, layer), activity, level);
      if result == map[] then Err(NoResults) else Ok(result)
  }

  /** The inner loop over one layer's activities. */
  method FilterLayer(acts: ActivityMap, activity: Option<string>, level: Option<string>)
    returns (filtered: ActivityMap)
    ensures filtered == FilterActivities(acts, activity, level)
  {
    filtered := map[];
    var todo := acts.Keys;
    while todo != {}
      invariant todo <= acts.Keys
      invariant forall a :: a in filtered <==> a in acts && a !in todo && KeepsActivity(a, acts[a], activity, level)
      invariant forall a :: a in filtered ==> filtered[a] == LevelFilter(acts[a], level)
      decreases todo
    {
      var name :| name in todo;
      var levels := acts[name];
      todo := todo - {name};
      if Given(activity) && name != activity.value {
        continue;
      }
      if Given(level) {
        var filteredLevels := KeepLevel(levels, level.value);
        if filteredLevels != map[] {
          filtered := filtered[name := filteredLevels];
        }
      } else {
        filtered := filtered[name := levels];
      }
    }
  }

  /** filter_tasks as the source runs it: narrow, then nested loops that build `result`. */
  method FilterTasksLoop(data: TaskTable, layer: Option<string>, activity: Option<string>, level: Option<string>)
    returns (r: Result<TaskTable, TaskError>)
    ensures r == FilterTasks(data, layer, activity, level)
  {
    var d := data;
    if Given(layer) {
      if layer.value !in data {
        return Err(LayerNotFound(layer.value));
      }
      d := map[layer.value := data[layer.value]];
    }
    var result: TaskTable := map[];
    var todo := d.Keys;
    while todo != {}
      invariant todo <= d.Keys
      invariant forall l :: l in result <==> l in d && l !in todo && FilterActivities(d[l], activity, level) != map[]
      invariant forall l :: l in result ==> result[l] == FilterActivities(d[l], activity, level)
      decreases todo
    {
      var layerName :| layerName in todo;
      var filteredActivities := FilterLayer(d[layerName], activity, level);
      if filteredActivities != map[] {
        result := result[layerName := filteredActivities];
      }
      todo := todo - {layerName};
    }
    assert result == Reduce(d, activity, level);
    if result == map[] {
      return Err(NoResults);
    }
    return Ok(result);
  }

  /*
   * What a successful filter_tasks result contains
   */

  /** Layer `l` of `t` has activity `a`. */
  predicate HasActivity(t: TaskTable, l: string, a: string)
  {
    l in t && a in t[l]
  }

  /** Layer `l` and activity `a` of `data` satisfy the layer and activity filters and, under a level filter, have that level. */
  predicate ActivityMatch(data: TaskTable, layer: Option<string>, activity: Option<string>, level: Option<string>,
                          l: string, a: string)
  {
    HasActivity(data, l, a) && Matches(layer, l) && Matches(activity, a) && (!Given(level) || level.value in data[l][a])
  }

  /** One matching layer/activity pair is enough for the reduction to keep both. */
  lemma MatchKept(data: TaskTable, layer: Option<string>, activity: Option<string>, level: Option<string>,
                  l: string, a: string)
    requires !Given(layer) || layer.value in data
    requires ActivityMatch(data, layer, activity, level, l, a)
    ensures HasActivity(Reduce(Narrow(data, layer), activity, level), l, a)
  {
    var d := Narrow(data, layer);
    assert l in d;
    assert a in FilterActivities(d[l], activity, level);
  }

  /** Conversely, a layer/activity pair of the reduction matches, and its level map is the table's, reduced. */
  lemma KeptMatches(data: TaskTable, layer: Option<string>, activity: Option<string>, level: Option<string>,
                    l: string, a: string)
    requires !Given(layer) || layer.value in data
    requires HasActivity(Reduce(Narrow(data, layer), activity, level), l, a)
    ensures ActivityMatch(data, layer, activity, level, l, a)
    ensures Reduce(Narrow(data, layer), activity, level)[l][a] == LevelFilter(data[l][a], level)
  {
  }

  /** A layer of the reduction is a layer of the table that matches the layer filter and keeps something. */
  lemma KeptLayer(data: TaskTable, layer: Option<string>, activity: Option<string>, level: Option<string>, l: string)
    requires !Given(layer) || layer.value in data
    requires l in Reduce(Narrow(data, layer), activity, level)
    ensures l in data && Matches(layer, l)
    ensures Reduce(Narrow(data, layer), activity, level)[l] != map[]
  {
  }

  /**
   Soundness and completeness at the leaves: a path is in the result exactly when it is
   in the table and matches every filter given, and the record there is unchanged.
   */
  lemma ResultPaths(data: TaskTable, layer: Option<string>, activity: Option<string>, level: Option<string>)
    requires FilterTasks(data, layer, activity, level).Ok?
    ensures var r := FilterTasks(data, layer, activity, level).value;
      forall l, a, v :: HasPath(r, l, a, v) <==> HasPath(data, l, a, v) && Selected(layer, activity, level, l, a, v)
    ensures var r := FilterTasks(data, layer, activity, level).value;
      forall l, a, v :: HasPath(r, l, a, v) ==> r[l][a][v] == data[l][a][v]
  {
    assert !Given(layer) || layer.value in data;
    var r := Reduce(Narrow(data, layer), activity, level);
    assert FilterTasks(data, layer, activity, level).value == r;
    forall l, a, v | HasPath(data, l, a, v) && Selected(layer, activity, level, l, a, v)
      ensures HasPath(r, l, a, v)
    {
      assert ActivityMatch(data, layer, activity, level, l, a);
      MatchKept(data, layer, activity, level, l, a);
      KeptMatches(data, layer, activity, level, l, a);
    }
    forall l, a, v | HasPath(r, l, a, v)
      ensures HasPath(data, l, a, v) && Selected(layer, activity, level, l, a, v) && r[l][a][v] == data[l][a][v]
    {
      KeptMatches(data, layer, activity, level, l, a);
    }
  }

  /**
   The shape of a successful result, level by level: every layer kept matches its filter
   and is non-empty, a layer/activity pair is kept exactly when it matches, and each
   innermost map is the table's own, cut to the one level when one is given.
   */
  lemma ResultShape(data: TaskTable, layer: Option<string>, activity: Option<string>, level: Option<string>)
    requires FilterTasks(data, layer, activity, level).Ok?
    ensures var r := FilterTasks(data, layer, activity, level).value;
      forall l :: l in r ==> l in data && Matches(layer, l) && r[l] != map[]
    ensures var r := FilterTasks(data, layer, activity, level).value;
      forall l, a :: HasActivity(r, l, a) <==> ActivityMatch(data, layer, activity, level, l, a)
    ensures var r := FilterTasks(data, layer, activity, level).value;
      forall l, a :: HasActivity(r, l, a) ==> r[l][a] == LevelFilter(data[l][a], level)
    ensures var r := FilterTasks(data, layer, activity, level).value;
      forall l, a :: HasActivity(r, l, a) && Given(level) ==>
        r[l][a] == map[level.value := data[l][a][level.value]]
  {
    assert !Given(layer) || layer.value in data;
    var r := Reduce(Narrow(data, layer), activity, level);
    assert FilterTasks(data, layer, activity, level).value == r;
    forall l | l in r
      ensures l in data && Matches(layer, l) && r[l] != map[]
    {
      KeptLayer(data, layer, activity, level, l);
    }
    forall l, a | ActivityMatch(data, layer, activity, level, l, a)
      ensures HasActivity(r, l, a)
    {
      MatchKept(data, layer, activity, level, l, a);
    }
    forall l, a | HasActivity(r, l, a)
      ensures ActivityMatch(data, layer, activity, level, l, a) && r[l][a] == LevelFilter(data[l][a], level)
    {
      KeptMatches(data, layer, activity, level, l, a);
    }
  }

  /** The filters leave nothing exactly when the layer exists (or is not asked for) and no layer/activity pair matches. */
  lemma NoResultsExactly(data: TaskTable, layer: Option<string>, activity: Option<string>, level: Option<string>)
    ensures FilterTasks(data, layer, activity, level) == Err(NoResults) <==>
      (!Given(layer) || layer.value in data) &&
      forall l, a :: !ActivityMatch(data, layer, activity, level, l, a)
  {
    if (!Given(layer) || layer.value in data) && exists l, a :: ActivityMatch(data, layer, activity, level, l, a) {
      var l, a :| ActivityMatch(data, layer, activity, level, l, a);
      MatchKept(data, layer, activity, level, l, a);
    }
    if FilterTasks(data, layer, activity, level).Ok? {
      assert !Given(layer) || layer.value in data;
      var r := Reduce(Narrow(data, layer), activity, level);
      assert FilterTasks(data, layer, activity, level).value == r;
      var l :| l in r;
      KeptLayer(data, layer, activity, level, l);
      var a :| a in r[l];
      KeptMatches(data, layer, activity, level, l, a);
    }
  }

  /**
   With no filter at all filter_tasks rebuilds the table: it keeps every layer that has
   at least one activity, unchanged, and drops the layers whose activity map is empty.
   */
  lemma NoFiltersDropEmptyLayers(data: TaskTable)
    ensures var kept := map l | l in data && data[l] != map[] :: data[l];
      FilterTasks(data, None, None, None) == if kept == map[] then Err(NoResults) else Ok(kept)
  {
    var kept := map l | l in data && data[l] != map[] :: data[l];
    forall l | l in data
      ensures FilterActivities(data[l], None, None) == data[l]
    {
      UnfilteredActivities(data[l]);
    }
    assert Reduce(data, None, None).Keys == kept.Keys;
    assert Reduce(data, None, None) == kept;
  }

  /** Without activity or level filter the inner loop copies every activity. */
  lemma UnfilteredActivities(acts: ActivityMap)
    ensures FilterActivities(acts, None, None) == acts
  {
    assert FilterActivities(acts, None, None).Keys == acts.Keys;
  }

  /** The edge case: a layer whose activity map is empty disappears from an unfiltered answer. */
  lemma EmptyLayerDropped(acts: ActivityMap)
    requires acts != map[]
    ensures FilterTasks(map["Software" := map[], "Infrastructuur" := acts], None, None, None)
      == Ok(map["Infrastructuur" := acts])
  {
    var data: TaskTable := map["Software" := map[], "Infrastructuur" := acts];
    NoFiltersDropEmptyLayers(data);
    var kept := map l | l in data && data[l] != map[] :: data[l];
    assert kept.Keys == {"Infrastructuur"};
    assert kept == map["Infrastructuur" := acts];
  }

  /*
   * Validation in main and the whole run
   */

  /**
   The checks before any data is read: argparse's level `choices` first, then the
   layer and the activity against their lists. An empty layer or activity is falsy and
   passes; membership is exact and case-sensitive.
   */
  function ValidateArgs(layer: Option<string>, activity: Option<string>, level: Option<string>): (r: Option<TaskError>)
    ensures r.None? <==>
      LevelAccepted(level) && (!Given(layer) || layer.value in ValidLayers) && (!Given(activity) || activity.value in ValidActivities)
    ensures r.Some? && r.value.InvalidLevel? ==> level == Some(r.value.level) && r.value.level !in LevelChoices
    ensures r.Some? && r.value.InvalidLayer? ==> LevelAccepted(level) && layer == Some(r.value.layer) && r.value.layer !in ValidLayers
    ensures r.Some? && r.value.InvalidActivity? ==>
      LevelAccepted(level) && (!Given(layer) || layer.value in ValidLayers) &&
      activity == Some(r.value.activity) && r.value.activity !in ValidActivities
    ensures r.Some? ==> r.value.InvalidLevel? || r.value.InvalidLayer? || r.value.InvalidActivity?
  {
    if !LevelAccepted(level) then Some(InvalidLevel(level.value))
    else if Given(layer) && layer.value !in ValidLayers then Some(InvalidLayer(layer.value))
    else if Given(activity) && activity.value !in ValidActivities then Some(InvalidActivity(activity.value))
    else None
  }

  /** main: validate, then use the loaded table (or report the load failure), then filter. */
  function Run(layer: Option<string>, activity: Option<string>, level: Option<string>,
               loaded: Result<TaskTable, LoadFailure>): (r: Result<TaskTable, TaskError>)
    ensures r.Ok? ==> ValidateArgs(layer, activity, level).None? && loaded.Ok? && r.value != map[]
    ensures ValidateArgs(layer, activity, level).Some? ==> r == Err(ValidateArgs(layer, activity, level).value)
    ensures ValidateArgs(layer, activity, level).None? && loaded.Ok? ==> r == FilterTasks(loaded.value, layer, activity, level)
    ensures ValidateArgs(layer, activity, level).None? && loaded.Err? ==> r == Err(LoadFailed(loaded.error))
  {
    match ValidateArgs(layer, activity, level)
    case Some(e) => Err(e)
    case None =>
      match loaded
      case Err(reason) => Err(LoadFailed(reason))
      case Ok(data) => FilterTasks(data, layer, activity, level)
  }

  /** A rejected argument ends the run before the table matters: any two loads give the same error. */
  lemma RejectionPrecedesLoad(layer: Option<string>, activity: Option<string>, level: Option<string>,
                              loaded1: Result<TaskTable, LoadFailure>, loaded2: Result<TaskTable, LoadFailure>)
    requires ValidateArgs(layer, activity, level).Some?
    ensures Run(layer, activity, level, loaded1) == Run(layer, activity, level, loaded2)
    ensures Run(layer, activity, level, loaded1).Err?
  {
  }

  /** Case or spacing variants of a valid name are rejected, never matched loosely. */
  lemma ExactNamesOnly()
    ensures ValidateArgs(Some("software"), None, None) == Some(InvalidLayer("software"))
    ensures ValidateArgs(None, Some("Realiseren "), None) == Some(InvalidActivity("Realiseren "))
    ensures ValidateArgs(Some("Software"), Some("Manage & Control"), Some("4")).None?
  {
  }

  /**
   The status the run ends with: 2 exactly when argparse refused the level, 1 for every
   other error, 0 on success (this last clause holds by the definition of ExitCode alone;
   the other two are what the run contributes).
   */
  lemma ExitStatus(layer: Option<string>, activity: Option<string>, level: Option<string>,
                   loaded: Result<TaskTable, LoadFailure>)
    ensures var r := Run(layer, activity, level, loaded);
      ExitCode(r, r.Err? && r.error.InvalidLevel?) == 0 <==> r.Ok?
    ensures var r := Run(layer, activity, level, loaded);
      ExitCode(r, r.Err? && r.error.InvalidLevel?) == 2 <==> !LevelAccepted(level)
    ensures var r := Run(layer, activity, level, loaded);
      ExitCode(r, r.Err? && r.error.InvalidLevel?) == 1 <==> LevelAccepted(level) && r.Err?
  {
  }

  /*
   * Tables of the framework's shape: every layer has the same activities, every
   * activity the same levels
   */

  /** One layer of such a table: exactly the activities `acs`, each with exactly the levels `vs`. */
  predicate LayerShape(acts: ActivityMap, acs: set<string>, vs: set<string>)
  {
    acts.Keys == acs && forall a :: a in acts ==> acts[a].Keys == vs
  }

  /** `data` has exactly the layers `ls`, each of the shape above. */
  predicate Rectangular(data: TaskTable, ls: set<string>, acs: set<string>, vs: set<string>)
  {
    data.Keys == ls && forall l :: l in data ==> LayerShape(data[l], acs, vs)
  }

  /** Each filter that is given names a key of its dimension. */
  predicate FiltersWithin(layer: Option<string>, activity: Option<string>, level: Option<string>,
                          ls: set<string>, acs: set<string>, vs: set<string>)
  {
    (!Given(layer) || layer.value in ls) && (!Given(activity) || activity.value in acs) && (!Given(level) || level.value in vs)
  }

  /** In a layer of that shape, any activity that passes its filter is a match. */
  lemma RectangularMatch(data: TaskTable, ls: set<string>, acs: set<string>, vs: set<string>,
                         layer: Option<string>, activity: Option<string>, level: Option<string>, l: string, a: string)
    requires l in data && LayerShape(data[l], acs, vs)
    requires FiltersWithin(layer, activity, level, ls, acs, vs)
    requires a in acs && Matches(layer, l) && Matches(activity, a)
    ensures ActivityMatch(data, layer, activity, level, l, a)
  {
    assert HasActivity(data, l, a);
  }

  /** On such a table every layer that passes the layer filter survives the reduction. */
  lemma RectangularLayersKept(data: TaskTable, ls: set<string>, acs: set<string>, vs: set<string>,
                              layer: Option<string>, activity: Option<string>, level: Option<string>)
    requires Rectangular(data, ls, acs, vs) && acs != {}
    requires FiltersWithin(layer, activity, level, ls, acs, vs)
    ensures forall l :: l in ls && Matches(layer, l) ==> l in Reduce(Narrow(data, layer), activity, level)
  {
    var a0 :| a0 in acs;
    var a1 := if Given(activity) then activity.value else a0;
    forall l | l in ls && Matches(layer, l)
      ensures l in Reduce(Narrow(data, layer), activity, level)
    {
      assert l in data && LayerShape(data[l], acs, vs);
      RectangularMatch(data, ls, acs, vs, layer, activity, level, l, a1);
      MatchKept(data, layer, activity, level, l, a1);
    }
  }

  /** On such a table the reduction's layers are the one asked for, or all of them. */
  lemma RectangularLayerKeys(data: TaskTable, ls: set<string>, acs: set<string>, vs: set<string>,
                             layer: Option<string>, activity: Option<string>, level: Option<string>)
    requires Rectangular(data, ls, acs, vs) && acs != {}
    requires FiltersWithin(layer, activity, level, ls, acs, vs)
    ensures Reduce(Narrow(data, layer), activity, level).Keys == (if Given(layer) then {layer.value} else ls)
  {
    var keys := if Given(layer) then {layer.value} else ls;
    RectangularLayersKept(data, ls, acs, vs, layer, activity, level);
    forall l | l in Reduce(Narrow(data, layer), activity, level)
      ensures l in keys
    {
      KeptLayer(data, layer, activity, level, l);
    }
  }

  /** On such a table the answer's layers are the one asked for, or all of them. */
  lemma RectangularLayers(data: TaskTable, ls: set<string>, acs: set<string>, vs: set<string>,
                          layer: Option<string>, activity: Option<string>, level: Option<string>)
    requires Rectangular(data, ls, acs, vs) && ls != {} && acs != {}
    requires FiltersWithin(layer, activity, level, ls, acs, vs)
    ensures FilterTasks(data, layer, activity, level).Ok?
    ensures FilterTasks(data, layer, activity, level).value.Keys == (if Given(layer) then {layer.value} else ls)
  {
    var r := Reduce(Narrow(data, layer), activity, level);
    var keys := if Given(layer) then {layer.value} else ls;
    RectangularLayerKeys(data, ls, acs, vs, layer, activity, level);
    var l0 :| l0 in keys;
    assert l0 in r;
    assert !Given(layer) || layer.value in data;
    assert FilterTasks(data, layer, activity, level) == Ok(r);
  }

  /** In a layer of that shape the reduction keeps the activity asked for, or all of them. */
  lemma RectangularActivities(data: TaskTable, ls: set<string>, acs: set<string>, vs: set<string>,
                              layer: Option<string>, activity: Option<string>, level: Option<string>, l: string)
    requires l in data && LayerShape(data[l], acs, vs)
    requires !Given(layer) || layer.value in data
    requires FiltersWithin(layer, activity, level, ls, acs, vs)
    requires l in Reduce(Narrow(data, layer), activity, level)
    ensures Reduce(Narrow(data, layer), activity, level)[l].Keys == (if Given(activity) then {activity.value} else acs)
  {
    var r := Reduce(Narrow(data, layer), activity, level);
    var acts := if Given(activity) then {activity.value} else acs;
    KeptLayer(data, layer, activity, level, l);
    forall a | a in acts
      ensures a in r[l]
    {
      RectangularMatch(data, ls, acs, vs, layer, activity, level, l, a);
      MatchKept(data, layer, activity, level, l, a);
    }
    forall a | a in r[l]
      ensures a in acts
    {
      KeptMatches(data, layer, activity, level, l, a);
    }
  }

  /** In a layer of that shape each activity of the answer keeps the level asked for, or all of them. */
  lemma RectangularLevels(data: TaskTable, ls: set<string>, acs: set<string>, vs: set<string>,
                          layer: Option<string>, activity: Option<string>, level: Option<string>, l: string, a: string)
    requires l in data && LayerShape(data[l], acs, vs)
    requires !Given(layer) || layer.value in data
    requires FiltersWithin(layer, activity, level, ls, acs, vs)
    requires HasActivity(Reduce(Narrow(data, layer), activity, level), l, a)
    ensures Reduce(Narrow(data, layer), activity, level)[l][a].Keys == (if Given(level) then {level.value} else vs)
  {
    KeptMatches(data, layer, activity, level, l, a);
  }

  /**
   On a table of this shape every query whose filters name keys of the table succeeds,
   and each dimension collapses to the one key asked for or keeps all its keys when no
   filter was given on it.
   */
  lemma RectangularCollapse(data: TaskTable, ls: set<string>, acs: set<string>, vs: set<string>,
                            layer: Option<string>, activity: Option<string>, level: Option<string>)
    requires Rectangular(data, ls, acs, vs) && ls != {} && acs != {}
    requires FiltersWithin(layer, activity, level, ls, acs, vs)
    ensures FilterTasks(data, layer, activity, level).Ok?
    ensures var r := FilterTasks(data, layer, activity, level).value;
      r.Keys == (if Given(layer) then {layer.value} else ls)
    ensures var r := FilterTasks(data, layer, activity, level).value;
      forall l :: l in r ==> r[l].Keys == (if Given(activity) then {activity.value} else acs)
    ensures var r := FilterTasks(data, layer, activity, level).value;
      forall l, a :: HasActivity(r, l, a) ==> r[l][a].Keys == (if Given(level) then {level.value} else vs)
  {
    RectangularLayers(data, ls, acs, vs, layer, activity, level);
    var r := Reduce(Narrow(data, layer), activity, level);
    forall l | l in r
      ensures r[l].Keys == (if Given(activity) then {activity.value} else acs)
    {
      KeptLayer(data, layer, activity, level, l);
      RectangularActivities(data, ls, acs, vs, layer, activity, level, l);
    }
    forall l, a | HasActivity(r, l, a)
      ensures r[l][a].Keys == (if Given(level) then {level.value} else vs)
    {
      KeptLayer(data, layer, activity, level, l);
      RectangularLevels(data, ls, acs, vs, layer, activity, level, l, a);
    }
  }

  /*
   * The table as shipped: all five layers, all five activities, all four levels
   */

  const LayerSet: set<string> := set x | x in ValidLayers
  const ActivitySet: set<string> := set x | x in ValidActivities

  /** The 5 x 5 x 4 table described by the framework. */
  predicate Complete(data: TaskTable)
  {
    Rectangular(data, LayerSet, ActivitySet, LevelSet)
  }

  /**
   On the complete table every query that passes validation succeeds, and each dimension
   collapses to the one key asked for or keeps all its keys when no filter was given.
   */
  lemma CompleteTableCollapse(data: TaskTable, layer: Option<string>, activity: Option<string>, level: Option<string>)
    requires Complete(data)
    requires ValidateArgs(layer, activity, level).None?
    ensures Run(layer, activity, level, Ok(data)).Ok?
    ensures var r := Run(layer, activity, level, Ok(data)).value;
      r.Keys == (if Given(layer) then {layer.value} else LayerSet)
    ensures var r := Run(layer, activity, level, Ok(data)).value;
      forall l :: l in r ==> r[l].Keys == (if Given(activity) then {activity.value} else ActivitySet)
    ensures var r := Run(layer, activity, level, Ok(data)).value;
      forall l, a :: HasActivity(r, l, a) ==> r[l][a].Keys == (if Given(level) then {level.value} else LevelSet)
  {
    assert "Software" in LayerSet && "Realiseren" in ActivitySet;
    assert FiltersWithin(layer, activity, level, LayerSet, ActivitySet, LevelSet);
    RectangularCollapse(data, LayerSet, ActivitySet, LevelSet, layer, activity, level);
  }

  /** With no filter the complete table comes back whole. */
  lemma CompleteTableUnfiltered(data: TaskTable)
    requires Complete(data)
    ensures Run(None, None, None, Ok(data)) == Ok(data)
  {
    forall l | l in data
      ensures data[l] != map[]
    {
      assert "Realiseren" in ActivitySet;
      assert "Realiseren" in data[l];
    }
    assert (map l | l in data && data[l] != map[] :: data[l]) == data;
    assert "Software" in LayerSet;
    NoFiltersDropEmptyLayers(data);
  }
}
