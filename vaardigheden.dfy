/**
 The student-skills query: a two-level table skill -> level -> record, reduced by up
 to two optional exact-match filters applied outer to inner (skill, level).
 */
module Vaardigheden {
  import opened Competency

  /** The ten skill names that the command line accepts. */
  const ValidSkills: seq<string> := [
    "Juiste kennis ontwikkelen", "Kwalitatief product maken", "Overzicht creëren",
    "Kritisch oordelen", "Samenwerken", "Boodschap delen", "Plannen",
    "Flexibel opstellen", "Pro-actief handelen", "Reflecteren"
  ]

  type SkillTable = map<string, LevelMap>

  datatype SkillError =
    | InvalidLevel(level: string)          // rejected by argparse `choices`
    | InvalidSkill(skill: string)          // not in ValidSkills
    | LoadFailed(reason: LoadFailure)      // the data file could not be loaded
    | SkillNotFound(skill: string)         // a valid skill that the table lacks
    | NoResults                            // the filters leave nothing

  /** A path (skill, level) that leads to a record of `t`. */
  predicate HasPath(t: SkillTable, s: string, v: string)
  {
    s in t && v in t[s]
  }

  /** `result` once the loop of the level branch is done: each skill cut to `level`, empty ones dropped. */
  function ReduceLevels(data: SkillTable, level: string): SkillTable
  {
    map s | s in data && KeepLevel(data[s], level) != map[] :: KeepLevel(data[s], level)
  }

  /** The answer before the emptiness test: the narrowed table, reduced under a level filter. */
  function Answer(data: SkillTable, skill: Option<string>, level: Option<string>): SkillTable
    requires !Given(skill) || skill.value in data
  {
    var d := Narrow(data, skill);
    if Given(level) then ReduceLevels(d, level.value) else d
  }

  /**
   filter_skills: a missing skill is an error; otherwise the narrowed table, reduced to
   one level when a level is given and returned as it is when none is, and an empty
   answer is an error too. This is the specification the loop below meets.
   */
  function FilterSkills(data: SkillTable, skill: Option<string>, level: Option<string>)
    : (r: Result<SkillTable, SkillError>)
    ensures r.Ok? ==> r.value != map[]
    ensures r.Err? ==> r.error == NoResults || r.error.SkillNotFound?
    ensures (r.Err? && r.error.SkillNotFound?) <==> Given(skill) && skill.value !in data
    ensures r.Err? && r.error.SkillNotFound? ==> skill == Some(r.error.skill)
  {
    if Given(skill) && skill.value !in data then Err(SkillNotFound(skill.value))
    else
      var result := Answer(data, skill, level);
      if result == map[] then Err(NoResults) else Ok(result)
  }

  /** filter_skills as the source runs it: narrow, then a loop that builds `result` under a level filter. */
  method FilterSkillsLoop(data: SkillTable, skill: Option<string>, level: Option<string>)
    returns (r: Result<SkillTable, SkillError>)
    ensures r == FilterSkills(data, skill, level)
  {
    var d := data;
    if Given(skill) {
      if skill.value !in data {
        return Err(SkillNotFound(skill.value));
      }
      d := map[skill.value := data[skill.value]];
    }
    var result: SkillTable := map[];
    if Given(level) {
      var todo := d.Keys;
      while todo != {}
        invariant todo <= d.Keys
        invariant forall s :: s in result <==> s in d && s !in todo && KeepLevel(d[s], level.value) != map[]
        invariant forall s :: s in result ==> result[s] == KeepLevel(d[s], level.value)
        decreases todo
      {
        var name :| name in todo;
        var filteredLevels := KeepLevel(d[name], level.value);
        if filteredLevels != map[] {
          result := result[name := filteredLevels];
        }
        todo := todo - {name};
      }
      assert result == ReduceLevels(d, level.value);
    } else {
      result := d;
    }
    if result == map[] {
      return Err(NoResults);
    }
    return Ok(result);
  }

  /*
   * What a successful filter_skills result contains
   */

  /** Skill `s` of `data` satisfies the skill filter and, under a level filter, has that level. */
  predicate SkillMatch(data: SkillTable, skill: Option<string>, level: Option<string>, s: string)
  {
    s in data && Matches(skill, s) && (!Given(level) || level.value in data[s])
  }

  /** A skill is in the answer exactly when it matches, and its level map is the table's, reduced. */
  lemma AnswerSkills(data: SkillTable, skill: Option<string>, level: Option<string>)
    requires !Given(skill) || skill.value in data
    ensures forall s :: s in Answer(data, skill, level) <==> SkillMatch(data, skill, level, s)
    ensures forall s :: s in Answer(data, skill, level) ==> Answer(data, skill, level)[s] == LevelFilter(data[s], level)
  {
    var r := Answer(data, skill, level);
    var d := Narrow(data, skill);
    forall s | SkillMatch(data, skill, level, s)
      ensures s in r
    {
      assert s in d;
      if Given(level) {
        assert d[s] == data[s];
        assert level.value in KeepLevel(d[s], level.value);
      }
    }
  }

  /**
   The shape of a successful result: a skill is kept exactly when it matches, its level
   map is the table's own cut to the one level when one is given, and with no level
   filter the narrowed table comes back as it is, empty level maps included.
   */
  lemma ResultShape(data: SkillTable, skill: Option<string>, level: Option<string>)
    requires FilterSkills(data, skill, level).Ok?
    ensures var r := FilterSkills(data, skill, level).value;
      forall s :: s in r <==> SkillMatch(data, skill, level, s)
    ensures var r := FilterSkills(data, skill, level).value;
      forall s :: s in r ==> r[s] == LevelFilter(data[s], level)
    ensures var r := FilterSkills(data, skill, level).value;
      forall s :: s in r && Given(level) ==> r[s] == map[level.value := data[s][level.value]]
    ensures !Given(level) ==> FilterSkills(data, skill, level).value == Narrow(data, skill)
    ensures Given(skill) ==> FilterSkills(data, skill, level).value.Keys == {skill.value}
  {
    assert !Given(skill) || skill.value in data;
    AnswerSkills(data, skill, level);
    var r := Answer(data, skill, level);
    if Given(skill) {
      var s :| s in r;
      assert s == skill.value;
    }
  }

  /**
   Soundness and completeness at the leaves: a path is in the result exactly when it is
   in the table and matches both filters, and the record there is unchanged.
   */
  lemma ResultPaths(data: SkillTable, skill: Option<string>, level: Option<string>)
    requires FilterSkills(data, skill, level).Ok?
    ensures var r := FilterSkills(data, skill, level).value;
      forall s, v :: HasPath(r, s, v) <==> HasPath(data, s, v) && Matches(skill, s) && Matches(level, v)
    ensures var r := FilterSkills(data, skill, level).value;
      forall s, v :: HasPath(r, s, v) ==> r[s][v] == data[s][v]
  {
    assert !Given(skill) || skill.value in data;
    AnswerSkills(data, skill, level);
    var r := Answer(data, skill, level);
    forall s, v | HasPath(data, s, v) && Matches(skill, s) && Matches(level, v)
      ensures HasPath(r, s, v)
    {
      assert SkillMatch(data, skill, level, s);
    }
  }

  /** The filters leave nothing exactly when the skill exists (or is not asked for) and no skill matches. */
  lemma NoResultsExactly(data: SkillTable, skill: Option<string>, level: Option<string>)
    ensures FilterSkills(data, skill, level) == Err(NoResults) <==>
      (!Given(skill) || skill.value in data) && forall s :: !SkillMatch(data, skill, level, s)
  {
    if !Given(skill) || skill.value in data {
      AnswerSkills(data, skill, level);
      if exists s :: SkillMatch(data, skill, level, s) {
        var s :| SkillMatch(data, skill, level, s);
        assert s in Answer(data, skill, level);
      }
    }
  }

  /** With no filter at all filter_skills hands the table back untouched, unless it is empty. */
  lemma NoFiltersIdentity(data: SkillTable)
    ensures FilterSkills(data, None, None) == if data == map[] then Err(NoResults) else Ok(data)
  {
  }

  /**
   The edge case: unlike the tasks query, a skill whose level map is empty is kept in
   an answer without level filter, with or without the skill filter.
   */
  lemma EmptyLevelsKept(levels: LevelMap)
    ensures FilterSkills(map["Plannen" := map[], "Samenwerken" := levels], None, None)
      == Ok(map["Plannen" := map[], "Samenwerken" := levels])
    ensures FilterSkills(map["Plannen" := map[], "Samenwerken" := levels], Some("Plannen"), None)
      == Ok(map["Plannen" := map[]])
    ensures FilterSkills(map["Plannen" := map[], "Samenwerken" := levels], Some("Plannen"), Some("2"))
      == Err(NoResults)
  {
    var data: SkillTable := map["Plannen" := map[], "Samenwerken" := levels];
    assert "Plannen" in data;
    var d := Narrow(data, Some("Plannen"));
    assert d.Keys == {"Plannen"};
    assert ReduceLevels(d, "2") == map[];
  }

  /*
   * Validation in main and the whole run
   */

  /**
   The checks before any data is read: argparse's level `choices` first, then the skill
   against its list. An empty skill is falsy and passes; membership is exact and
   case-sensitive.
   */
  function ValidateArgs(skill: Option<string>, level: Option<string>): (r: Option<SkillError>)
    ensures r.None? <==> LevelAccepted(level) && (!Given(skill) || skill.value in ValidSkills)
    ensures r.Some? && r.value.InvalidLevel? ==> level == Some(r.value.level) && r.value.level !in LevelChoices
    ensures r.Some? && r.value.InvalidSkill? ==> LevelAccepted(level) && skill == Some(r.value.skill) && r.value.skill !in ValidSkills
    ensures r.Some? ==> r.value.InvalidLevel? || r.value.InvalidSkill?
  {
    if !LevelAccepted(level) then Some(InvalidLevel(level.value))
    else if Given(skill) && skill.value !in ValidSkills then Some(InvalidSkill(skill.value))
    else None
  }

  /** main: validate, then use the loaded table (or report the load failure), then filter. */
  function Run(skill: Option<string>, level: Option<string>, loaded: Result<SkillTable, LoadFailure>)
    : (r: Result<SkillTable, SkillError>)
    ensures r.Ok? ==> ValidateArgs(skill, level).None? && loaded.Ok? && r.value != map[]
    ensures ValidateArgs(skill, level).Some? ==> r == Err(ValidateArgs(skill, level).value)
    ensures ValidateArgs(skill, level).None? && loaded.Ok? ==> r == FilterSkills(loaded.value, skill, level)
    ensures ValidateArgs(skill, level).None? && loaded.Err? ==> r == Err(LoadFailed(loaded.error))
  {
    match ValidateArgs(skill, level)
    case Some(e) => Err(e)
    case None =>
      match loaded
      case Err(reason) => Err(LoadFailed(reason))
      case Ok(data) => FilterSkills(data, skill, level)
  }

  /** A rejected argument ends the run before the table matters: any two loads give the same error. */
  lemma RejectionPrecedesLoad(skill: Option<string>, level: Option<string>,
                              loaded1: Result<SkillTable, LoadFailure>, loaded2: Result<SkillTable, LoadFailure>)
    requires ValidateArgs(skill, level).Some?
    ensures Run(skill, level, loaded1) == Run(skill, level, loaded2)
    ensures Run(skill, level, loaded1).Err?
  {
  }

  /** Case or accent variants of a valid name are rejected, and a bad level wins over a bad skill. */
  lemma ExactNamesOnly()
    ensures ValidateArgs(Some("samenwerken"), None) == Some(InvalidSkill("samenwerken"))
    ensures ValidateArgs(Some("Overzicht creeren"), None) == Some(InvalidSkill("Overzicht creeren"))
    ensures ValidateArgs(Some("nope"), Some("5")) == Some(InvalidLevel("5"))
    ensures ValidateArgs(Some("Overzicht creëren"), Some("1")).None?
  {
  }

  /**
   The status the run ends with: 2 exactly when argparse refused the level, 1 for every
   other error, 0 on success (this last clause holds by the definition of ExitCode alone;
   the other two are what the run contributes).
   */
  lemma ExitStatus(skill: Option<string>, level: Option<string>,
                   loaded: Result<SkillTable, LoadFailure>)
    ensures var r := Run(skill, level, loaded);
      ExitCode(r, r.Err? && r.error.InvalidLevel?) == 0 <==> r.Ok?
    ensures var r := Run(skill, level, loaded);
      ExitCode(r, r.Err? && r.error.InvalidLevel?) == 2 <==> !LevelAccepted(level)
    ensures var r := Run(skill, level, loaded);
      ExitCode(r, r.Err? && r.error.InvalidLevel?) == 1 <==> LevelAccepted(level) && r.Err?
  {
  }

  /*
   * Tables of the framework's shape: every skill has the same levels
   */

  /** `data` has exactly the skills `ss`, each with exactly the levels `vs`. */
  predicate Rectangular(data: SkillTable, ss: set<string>, vs: set<string>)
  {
    data.Keys == ss && forall s :: s in data ==> data[s].Keys == vs
  }

  /**
   On a table of this shape every query whose filters name keys of the table succeeds,
   and each dimension collapses to the one key asked for or keeps all its keys when no
   filter was given on it.
   */
  lemma RectangularCollapse(data: SkillTable, ss: set<string>, vs: set<string>,
                            skill: Option<string>, level: Option<string>)
    requires Rectangular(data, ss, vs) && ss != {}
    requires !Given(skill) || skill.value in ss
    requires !Given(level) || level.value in vs
    ensures FilterSkills(data, skill, level).Ok?
    ensures var r := FilterSkills(data, skill, level).value;
      r.Keys == (if Given(skill) then {skill.value} else ss)
    ensures var r := FilterSkills(data, skill, level).value;
      forall s :: s in r ==> r[s].Keys == (if Given(level) then {level.value} else vs)
  {
    var keys := if Given(skill) then {skill.value} else ss;
    AnswerSkills(data, skill, level);
    var r := Answer(data, skill, level);
    forall s | s in keys
      ensures s in r
    {
      assert SkillMatch(data, skill, level, s);
    }
    assert r.Keys == keys;
    var s0 :| s0 in keys;
    assert s0 in r;
  }

  const SkillSet: set<string> := set x | x in ValidSkills

  /** The 10 x 4 table described by the framework. */
  predicate Complete(data: SkillTable)
  {
    Rectangular(data, SkillSet, LevelSet)
  }

  /**
   On the complete table every query that passes validation succeeds, and each dimension
   collapses to the one key asked for or keeps all its keys when no filter was given.
   */
  lemma CompleteTableCollapse(data: SkillTable, skill: Option<string>, level: Option<string>)
    requires Complete(data)
    requires ValidateArgs(skill, level).None?
    ensures Run(skill, level, Ok(data)).Ok?
    ensures var r := Run(skill, level, Ok(data)).value;
      r.Keys == (if Given(skill) then {skill.value} else SkillSet)
    ensures var r := Run(skill, level, Ok(data)).value;
      forall s :: s in r ==> r[s].Keys == (if Given(level) then {level.value} else LevelSet)
  {
    assert "Plannen" in SkillSet;
    RectangularCollapse(data, SkillSet, LevelSet, skill, level);
  }
}
