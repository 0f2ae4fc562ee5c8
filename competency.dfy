/**
 Definitions shared by the two query tools of the Open-ICT competency
 framework: the record at the leaves of both tables, optional command-line
 filters with Python's truthiness, the four level keys, and the level
 reduction that both filters apply to an innermost level map.
 */
module Competency {

  datatype Option<+T> = None | Some(value: T)

  /** What a filter returns in place of printing to stderr and calling sys.exit(1). */
  datatype Result<+T, +E> = Ok(value: T) | Err(error: E)

  /** A leaf of either table: a mandatory title and an optional explanation. */
  datatype Record = Record(title: string, info: Option<string>)

  /** The three ways the (unmodelled) loader can fail; each ends the run with status 1. */
  datatype LoadFailure = DataFileNotFound | InvalidJson | Unreadable

  /** Level key -> record, the innermost map of both tables. */
  type LevelMap = map<string, Record>

  /**
   A filter argument counts only when it is truthy in Python: an omitted
   argument (None) and the empty string both mean "no restriction".
   */
  predicate Given(f: Option<string>)
  {
    f.Some? && f.value != ""
  }

  /** Key `k` survives filter `f`: no restriction, or exact (case-sensitive) equality. */
  predicate Matches(f: Option<string>, k: string)
  {
    !Given(f) || k == f.value
  }

  /** The `choices` that argparse accepts for `--level`. */
  const LevelChoices: seq<string> := ["1", "2", "3", "4"]

  /** The level choices as a set: the level keys of a complete table. */
  const LevelSet: set<string> := set x | x in LevelChoices

  /** argparse's check: an omitted level passes, a given one must be one of the choices. */
  predicate LevelAccepted(level: Option<string>)
  {
    level.None? || level.value in LevelChoices
  }

  /**
   The level comprehension of both filters, which keeps the entries whose key equals
   `level`: the result is the singleton entry for `level` when the map has it, and empty otherwise.
   */
  function KeepLevel(levels: LevelMap, level: string): (r: LevelMap)
    ensures level in levels ==> r == map[level := levels[level]]
    ensures level !in levels ==> r == map[]
  {
    var r := map lvl | lvl in levels && lvl == level :: levels[lvl];
    assert level in levels ==> r.Keys == {level};
    assert level !in levels ==> r.Keys == {};
    r
  }

  /** The level reduction applied to one innermost map: KeepLevel under a level filter, identity otherwise. */
  function LevelFilter(levels: LevelMap, level: Option<string>): (r: LevelMap)
    ensures r.Keys <= levels.Keys
    ensures forall v :: v in r ==> Matches(level, v) && r[v] == levels[v]
    ensures forall v :: v in levels && Matches(level, v) ==> v in r
  {
    if Given(level) then KeepLevel(levels, level.value) else levels
  }

  /**
   The first-level reduction of both filters: when a filter is given, the table is
   replaced by the one-entry map holding just that key and its value (the callers have already reported a missing key); the whole map otherwise.
   */
  function Narrow<V>(data: map<string, V>, key: Option<string>): (d: map<string, V>)
    requires !Given(key) || key.value in data
    ensures d.Keys <= data.Keys
    ensures forall k :: k in d ==> d[k] == data[k]
    ensures forall k :: k in data ==> (k in d <==> Matches(key, k))
  {
    if Given(key) then map[key.value := data[key.value]] else data
  }

  /**
   Process exit status of either tool: 0 on success, 2 when argparse rejected the
   command line, 1 for every error the script reports itself.
   */
  function ExitCode<T, E>(r: Result<T, E>, usageError: bool): nat
  {
    if r.Ok? then 0 else if usageError then 2 else 1
  }
}
