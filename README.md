# Open-ICT competency queries, modelled in Dafny

The Open-ICT competency framework ships two command-line query tools.

- `hboi.py` answers questions about the HBO-I professional tasks. Its table is nested three deep: architecture layer -> professional activity -> level -> record.
- `vaardigheden.py` answers questions about the student skills. Its table is nested two deep: skill -> level -> record.

Each tool takes optional filters (`--layer`, `--activity`, `--level` and `--skill`, `--level`). It checks them against fixed lists and cuts the loaded table down to the entries that match every filter given. It prints the answer as JSON, or reports an error and exits with a non-zero status.

This project models the filters `filter_tasks` and `filter_skills`, the argument checks in each `main`, and the exit status of the whole run. It proves that the answers are sound and complete, and what shape they have.

Files:

- `competency.dfy` (module `Competency`) holds what both tools share:
  - `Record`, the record at the leaves (title and optional explanation);
  - the `Option` and `Result` wrappers;
  - `Given` and `Matches`, which implement Python's truthiness test on filters: an omitted filter and an empty-string filter both mean "no restriction";
  - the four level choices;
  - `KeepLevel` and `LevelFilter`, the level comprehension;
  - `Narrow`, the first-level cut to the one entry a filter names.
- `hboi.dfy` (module `Hboi`) holds the tasks query.
  - `FilterTasks` is the pure specification of `filter_tasks`.
  - `FilterTasksLoop` and `FilterLayer` are the source's nested loops. They build `result` and `filtered_activities` key by key and are proved equal to that specification.
  - The module also holds the lemmas about the answer, `ValidateArgs`, `Run` and `ExitStatus`.
- `vaardigheden.dfy` (module `Vaardigheden`) is the same for the skills query: `FilterSkills`, the loop `FilterSkillsLoop` and their lemmas.

Errors that the source reports by printing to stderr and calling `sys.exit` are values of `TaskError` and `SkillError`. `Competency.ExitCode` maps a run's outcome to the process status, and `ExitStatus` in each module states which status each run ends with.

The loaded table is an input to `Run`, given as `Result<Table, LoadFailure>`. This makes it possible to state that a rejected argument ends the run whatever the data file holds.

Where the code and the tools' own documentation disagree, the model follows the code:

- The level is a string `"1"`..`"4"` (argparse `type=str` with `choices`), not an integer.
- An out-of-range level is rejected by argparse, which exits with status 2, not 1. Because argparse runs first, this rejection takes precedence over an invalid layer, activity or skill.
- The docstrings say that with no filters the complete dataset comes back unchanged. That holds for `filter_skills`, unless the table is empty, which gives NoResults (`Vaardigheden.NoFiltersIdentity`). `filter_tasks` instead rebuilds the table and drops every layer whose activity map is empty (`Hboi.NoFiltersDropEmptyLayers`, `Hboi.EmptyLayerDropped`). On a table of the framework's full shape the two agree (`Hboi.CompleteTableUnfiltered`).

## Model

| member | source | states |
|---|---|---|
| Competency.KeepLevel | plugins/open-ict/skills/competenties/scripts/hboi.py:142 | the level comprehension yields exactly the singleton entry for the level when the map has it, and the empty map otherwise |
| Competency.LevelFilter | plugins/open-ict/skills/competenties/scripts/hboi.py:140-148 | the per-activity level step keeps a sub-map of the levels: every kept level matches the filter and keeps its record, and every matching level is kept |
| Competency.Narrow | plugins/open-ict/skills/competenties/scripts/hboi.py:121-127 | the first-level cut keeps a sub-map with unchanged values, and a key of the data survives exactly when it matches the filter |
| Hboi.FilterTasks | plugins/open-ict/skills/competenties/scripts/hboi.py:118-159 | a success is never an empty map; the only errors are NoResults and LayerNotFound; LayerNotFound happens exactly when a layer is given that the data lacks, and it names that layer |
| Hboi.FilterLayer | plugins/open-ict/skills/competenties/scripts/hboi.py:132-148 | the inner loop over one layer's activities builds exactly `FilterActivities`: the activities that match and, under a level filter, still hold that level, each with its reduced level map |
| Hboi.FilterTasksLoop | plugins/open-ict/skills/competenties/scripts/hboi.py:118-159 | the narrowing followed by the nested loops and the emptiness test returns exactly `FilterTasks` |
| Hboi.MatchKept | plugins/open-ict/skills/competenties/scripts/hboi.py:131-152 | every layer/activity pair of the table that passes the layer and activity filters and holds the requested level appears in the reduction |
| Hboi.KeptMatches | plugins/open-ict/skills/competenties/scripts/hboi.py:131-152 | every layer/activity pair of the reduction is such a match, and its level map is the table's, level-filtered |
| Hboi.KeptLayer | plugins/open-ict/skills/competenties/scripts/hboi.py:151-152 | every layer of the reduction is a layer of the table that matches the layer filter, and it is never empty |
| Hboi.ResultPaths | plugins/open-ict/skills/competenties/scripts/hboi.py:131-152 | a (layer, activity, level) path is in the answer exactly when it is in the table and matches every filter given, and the record there is unchanged |
| Hboi.ResultShape | plugins/open-ict/skills/competenties/scripts/hboi.py:127-152 | every kept layer matches and is non-empty; a layer/activity pair is kept exactly when it matches; each innermost map is the table's own, and under a level filter it is exactly `{level: data[layer][activity][level]}` |
| Hboi.NoResultsExactly | plugins/open-ict/skills/competenties/scripts/hboi.py:155-157 | the NoResults error happens exactly when the layer filter is found (or absent) and no layer/activity pair matches all the filters |
| Hboi.NoFiltersDropEmptyLayers | plugins/open-ict/skills/competenties/scripts/hboi.py:131-157 | with no filter the answer is the table without its empty layers, or NoResults when nothing is left |
| Hboi.UnfilteredActivities | plugins/open-ict/skills/competenties/scripts/hboi.py:146-148 | with no activity or level filter the inner loop copies a layer's activities unchanged |
| Hboi.EmptyLayerDropped | plugins/open-ict/skills/competenties/scripts/hboi.py:151-152 | a layer with an empty activity map disappears from an unfiltered answer |
| Hboi.ValidateArgs | plugins/open-ict/skills/competenties/scripts/hboi.py:217-238 | the arguments pass exactly when the level is absent or one of "1".."4", and each non-empty layer and activity is exactly one of the listed names; each error names the offending value, and the level is checked first, then the layer, then the activity |
| Hboi.Run | plugins/open-ict/skills/competenties/scripts/hboi.py:225-247 | a successful run had valid arguments and a loaded table, and gives a non-empty answer; a rejected argument ends the run with exactly the validation error naming it; on valid arguments and a loaded table the run's outcome is exactly filter_tasks' outcome on that table, and on valid arguments and a failed load it is that load failure |
| Hboi.RejectionPrecedesLoad | plugins/open-ict/skills/competenties/scripts/hboi.py:225-241 | a rejected argument ends the run with the same error whatever the data file holds |
| Hboi.ExactNamesOnly | plugins/open-ict/skills/competenties/scripts/hboi.py:230-238 | a name differing in case or by a trailing space is rejected; exact names pass |
| Hboi.ExitStatus | plugins/open-ict/skills/competenties/scripts/hboi.py:17-20 | a tasks run ends with status 0 exactly on success (by the definition of the status), with status 2 exactly when the level is not one of the choices, and with 1 exactly when the level is accepted but the run fails |
| Hboi.RectangularMatch | plugins/open-ict/skills/competenties/scripts/hboi.py:131-145 | in a layer that has every activity with every level, each activity that passes its filter is a match |
| Hboi.RectangularLayersKept | plugins/open-ict/skills/competenties/scripts/hboi.py:131-152 | on a table of full shape every layer that passes the layer filter survives the reduction |
| Hboi.RectangularLayerKeys | plugins/open-ict/skills/competenties/scripts/hboi.py:121-152 | on a table of full shape the reduction's layers are the one asked for, or all of them |
| Hboi.RectangularLayers | plugins/open-ict/skills/competenties/scripts/hboi.py:118-159 | on a table of full shape a query whose filters name existing keys succeeds, and its layers are the one asked for or all of them |
| Hboi.RectangularActivities | plugins/open-ict/skills/competenties/scripts/hboi.py:134-152 | in a layer of full shape the answer keeps the activity asked for, or all of them |
| Hboi.RectangularLevels | plugins/open-ict/skills/competenties/scripts/hboi.py:140-148 | in a layer of full shape each kept activity keeps the level asked for, or all of them |
| Hboi.RectangularCollapse | plugins/open-ict/skills/competenties/scripts/hboi.py:118-159 | on a table of full shape every query whose filters name existing keys succeeds, and each dimension collapses to the key asked for or keeps all its keys |
| Hboi.CompleteTableCollapse | plugins/open-ict/skills/competenties/scripts/hboi.py:225-242 | on the 5 x 5 x 4 table every run that passes validation succeeds, and each dimension collapses to the key asked for or keeps all its keys |
| Hboi.CompleteTableUnfiltered | plugins/open-ict/skills/competenties/scripts/hboi.py:131-159 | on the 5 x 5 x 4 table a run with no filter returns the table unchanged |
| Vaardigheden.FilterSkills | plugins/open-ict/skills/competenties/scripts/vaardigheden.py:110-139 | a success is never an empty map; the only errors are NoResults and SkillNotFound; SkillNotFound happens exactly when a skill is given that the data lacks, and it names that skill |
| Vaardigheden.FilterSkillsLoop | plugins/open-ict/skills/competenties/scripts/vaardigheden.py:110-139 | the narrowing, the level loop (or the plain assignment without a level) and the emptiness test return exactly `FilterSkills` |
| Vaardigheden.AnswerSkills | plugins/open-ict/skills/competenties/scripts/vaardigheden.py:113-132 | a skill is in the answer exactly when it is in the table, matches the skill filter and, under a level filter, has that level; its level map is the table's, level-filtered |
| Vaardigheden.ResultShape | plugins/open-ict/skills/competenties/scripts/vaardigheden.py:113-132 | a skill is kept exactly when it matches; under a level filter each kept skill maps to exactly `{level: data[skill][level]}`; with no level filter the answer is the narrowed table itself, empty level maps included; with a skill filter the only key is that skill |
| Vaardigheden.ResultPaths | plugins/open-ict/skills/competenties/scripts/vaardigheden.py:113-132 | a (skill, level) path is in the answer exactly when it is in the table and matches both filters, and the record there is unchanged |
| Vaardigheden.NoResultsExactly | plugins/open-ict/skills/competenties/scripts/vaardigheden.py:135-137 | the NoResults error happens exactly when the skill filter is found (or absent) and no skill matches both filters |
| Vaardigheden.NoFiltersIdentity | plugins/open-ict/skills/competenties/scripts/vaardigheden.py:130-139 | with no filter the table comes back untouched, or NoResults when it is empty |
| Vaardigheden.EmptyLevelsKept | plugins/open-ict/skills/competenties/scripts/vaardigheden.py:130-132 | a skill with an empty level map is kept when no level is given, with or without the skill filter, and yields NoResults under a level filter |
| Vaardigheden.ValidateArgs | plugins/open-ict/skills/competenties/scripts/vaardigheden.py:187-202 | the arguments pass exactly when the level is absent or one of "1".."4", and a non-empty skill is exactly one of the ten names; each error names the offending value, and the level is checked first |
| Vaardigheden.Run | plugins/open-ict/skills/competenties/scripts/vaardigheden.py:195-211 | a successful run had valid arguments and a loaded table, and gives a non-empty answer; a rejected argument ends the run with exactly the validation error naming it; on valid arguments and a loaded table the run's outcome is exactly filter_skills' outcome on that table, and on valid arguments and a failed load it is that load failure |
| Vaardigheden.RejectionPrecedesLoad | plugins/open-ict/skills/competenties/scripts/vaardigheden.py:195-205 | a rejected argument ends the run with the same error whatever the data file holds |
| Vaardigheden.ExactNamesOnly | plugins/open-ict/skills/competenties/scripts/vaardigheden.py:187-202 | a name differing in case or accent is rejected, a bad level wins over a bad skill, and exact names pass |
| Vaardigheden.ExitStatus | plugins/open-ict/skills/competenties/scripts/vaardigheden.py:17-19 | a skills run ends with status 0 exactly on success (by the definition of the status), with status 2 exactly when the level is not one of the choices, and with 1 exactly when the level is accepted but the run fails |
| Vaardigheden.RectangularCollapse | plugins/open-ict/skills/competenties/scripts/vaardigheden.py:110-139 | on a table where every skill has the same levels, a query whose filters name existing keys succeeds, and each dimension collapses to the key asked for or keeps all its keys |
| Vaardigheden.CompleteTableCollapse | plugins/open-ict/skills/competenties/scripts/vaardigheden.py:195-206 | on the 10 x 4 table every run that passes validation succeeds, and each dimension collapses to the key asked for or keeps all its keys |

## Left out

- `load_data` (file existence, UTF-8 reading and JSON decoding) is not modelled. Its outcome is an input of `Run`: a typed table, or one of the three failures, each reported with status 1. The JSON's own schema is not checked by the source and is taken as given by the types.
- argparse itself is reduced to what it decides: the level `choices` and the status 2 on a rejection. Help text, the epilog, `--help` and unknown options are not modelled.
- Printing the answer with `json.dumps` (indentation, `ensure_ascii=False`, key order) is not modelled. Dafny maps have no order, so the order of keys in the printed JSON is not captured.
- The stderr message text is not modelled; each error is a datatype value naming the offending argument.
- `SCRIPT_DIR` and `DATA_DIR`, the location of the data files, are not modelled.
- Python's dict iteration order is not modelled. The loops take their keys from a set in an arbitrary order, and the result maps do not depend on that order.
