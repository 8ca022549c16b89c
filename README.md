# rero-invenio-base command-line core, modelled in Dafny

This project models three command groups of rero-invenio-base.

- The `utils` commands.
  - `check_license` checks every source file against a license text. It uses the helpers `delete_prefix`, `is_copyright`, `get_line`, `is_slash_directive`, `test_license` and `test_file`, the extension map built from the YAML configuration, and the per-file error tally that becomes the exit status.
  - `check_json` works on JSON files: the per-file report, the error count and the exit status.
- The `es index` commands.
  - `switch` moves every alias of an old index onto a new one.
  - `reindex` builds a request body.
  - `update_mapping` makes its close / put_settings / open / put_mapping calls for each index of the selected aliases and prints a report per index.
- The `es task` commands: `get`, `cancel` (with the `abort_if_false` confirmation callback) and `watch`.

The project has one module per source file, plus two shared modules.

- `Wrappers` (`wrappers.dfy`) holds `Option` and `Result`.
- `PyStr` (`pystr.dfy`) models the Python `str` operations the checker relies on:
  - `strip` / `rstrip` over the characters Python's `str.isspace` accepts, Unicode whitespace included;
  - `replace(p, "")`, scanning left to right;
  - `split(sep)` and `[-1]`.
- `LicenseCheck` (`license_check.dfy`) models `test_license` and its helpers. The method `TestLicense` keeps the cursor `linenbr`, the current `line` and the appended error list of the source. It is proved equal to the function `LicenseErrors`, which folds one `Step` per license line. The lemmas then state the checker's promises about `LicenseErrors`. `LicenseErrors` and `TestLicense` skip triple-slash directives as the code evidently intends; the code as written raises NameError on every JavaScript file that has a line other than a shebang (see "## Findings"), which `LicenseErrorsAsWritten` models and `LicenseErrorsAsWrittenMeaning` relates to the intended checker.
- `CliUtils` (`cli_utils.dfy`) covers:
  - the extension map: the method `BuildExtensions`, whose `setdefault` loop is proved equal to `ExtensionMap`;
  - `os.path.splitext`;
  - `test_file`;
  - the tallies of `check_license` and `check_json` (methods with loops, proved against `Tally`), and the exit status. The command methods `CheckLicense` and `CheckJson` end with the corrected status and print the corrected reports; the as-written status and reports are modelled beside them (see "## Findings").
- `IndexCommands` (`index_commands.dfy`) models the cluster as a class `Cluster`. The class holds:
  - the alias table, `map<index, set<alias>>`;
  - the log of requests it received;
  - the requests it answers with an exception;
  - the indices whose mapping update is not acknowledged.

  `SwitchIndex`, `UpdateIndex` and `UpdateMapping` are the commands. They are proved against the functions `Switch`, `SwitchRequests`, `Attempted`, `MappingRequests` and `ReportsFor`. `UpdateMapping` and `UpdateAlias` follow the intended reporting; the code as written reads a stale or unbound `res` after an exception (see "## Findings").
- `TaskCommands` (`task_commands.dfy`) models the cluster as the sequence of answers to successive `tasks.get` calls. `TaskWatch` is the polling loop. `TaskGet` and `TaskCancel` are the single-call commands.

What the model takes as parameters:

- **Files:** file contents arrive as sequences of lines.
- **Configuration:** the YAML configuration arrives as the ordered groups of `file_extensions`, the license text and the list of files.
- **Exceptions:** for the `index` commands, client exceptions are the cluster's set of failing requests. Every request of `switch` and `update_mapping` consults it, including the `get_alias` listing. For `task` they are `Raised` answers.
- **Sleeping:** it is not modelled, only the seconds it adds up to.

## Model

| member | source | states |
|---|---|---|
| `PyStr.TrimStartDropsLeadingSpace` | rero_invenio_base/cli/utils.py:126 | the left half of `strip` removes exactly the leading whitespace: the result is a suffix that starts with a non-space, and everything cut is whitespace |
| `PyStr.RStripDropsTrailingSpace` | rero_invenio_base/cli/utils.py:191 | `rstrip` removes exactly the trailing whitespace: the result is a prefix that ends with a non-space, and everything cut is whitespace |
| `PyStr.StripIsSlice` | rero_invenio_base/cli/utils.py:126 | `strip` gives a contiguous slice of the line with no whitespace at either end, and only whitespace lies outside it |
| `PyStr.StripIdempotent` | rero_invenio_base/cli/utils.py:126 | stripping twice is stripping once |
| `PyStr.RemoveAll` | rero_invenio_base/cli/utils.py:125 | `replace(prefix, "")` never lengthens the line |
| `PyStr.RemoveAllWithoutOccurrence` | rero_invenio_base/cli/utils.py:125 | a line where the prefix never occurs is unchanged by the replacement |
| `PyStr.RemoveAllAtFirstOccurrence` | rero_invenio_base/cli/utils.py:125 | the first occurrence is cut wherever it sits, and the scan goes on after it |
| `PyStr.Split` | rero_invenio_base/cli/utils.py:229 | `split(sep)` gives at least one piece |
| `PyStr.SplitPiecesWithoutSep` | rero_invenio_base/cli/utils.py:229 | no piece contains the separator |
| `PyStr.JoinSplit` | rero_invenio_base/cli/utils.py:229 | joining the pieces with the separator gives back the string, so splitting loses nothing |
| `PyStr.SplitWithoutSep` | rero_invenio_base/cli/utils.py:229 | a string without the separator splits into itself alone |
| `PyStr.SplitAtSep` | rero_invenio_base/cli/utils.py:229 | the first separator ends the first piece |
| `PyStr.LastPartIsSuffix` | rero_invenio_base/cli/utils.py:183 | `split(sep)[-1]` is the longest suffix without the separator: either the whole string, or what follows its last separator |
| `PyStr.LastPartAfterSep` | rero_invenio_base/cli/utils.py:183 | the last piece is the text after the last separator |
| `LicenseCheck.DeletePrefixWithoutOccurrence` | rero_invenio_base/cli/utils.py:122-126 | a line without the prefix is only stripped |
| `LicenseCheck.DeletePrefixInside` | rero_invenio_base/cli/utils.py:122-126 | the prefix is removed in the middle of a line too, not only at its start |
| `LicenseCheck.DeletePrefixTrimmed` | rero_invenio_base/cli/utils.py:122-126 | the result never starts or ends with whitespace; with no prefix (absent or empty), `delete_prefix` only strips |
| `LicenseCheck.GetLine` | rero_invenio_base/cli/utils.py:134-137 | definition of `get_line`: the prefix-stripped line and the next index, or IndexError past the end; what the loops built on it achieve is stated by `SkipLeading`, `SkipCopyright` and `CompareLine` |
| `LicenseCheck.IsJsIffSuffix` | rero_invenio_base/cli/utils.py:183 | a file counts as JavaScript exactly when its name is `js` or ends in `.js` |
| `LicenseCheck.WordRunMaximal` | rero_invenio_base/cli/utils.py:254 | `\w*` is greedy: the run is all word characters and stops at a non-word character or the end |
| `LicenseCheck.WordRunOfWord` | rero_invenio_base/cli/utils.py:254 | a word followed by a non-word character is matched exactly |
| `LicenseCheck.TripleSlashOfShape` | rero_invenio_base/cli/utils.py:254 | every line `/// <reference KEY="VALUE" />`, with KEY and VALUE made of word characters, matches the directive pattern |
| `LicenseCheck.TripleSlashHasShape` | rero_invenio_base/cli/utils.py:254 | every line that matches the directive pattern has that shape |
| `LicenseCheck.IsSlashDirectiveAsWritten` | rero_invenio_base/cli/utils.py:182-186 | definition of `is_slash_directive` as written (NameError for JavaScript files, since `re` is not imported; false otherwise); its consequence for `test_license` is `LicenseErrorsAsWrittenMeaning` |
| `LicenseCheck.JsDirectiveExample` | rero_invenio_base/cli/utils.py:182-186 | `app.js` starting with `/// <reference types="node" />`: the code raises where the directive was meant to be skipped |
| `LicenseCheck.FirstUnskippedAsWritten` | rero_invenio_base/cli/utils.py:195-201 | as written, the shebang loop stops only on a line that is not a shebang, and only for a file that is not JavaScript; otherwise it raises IndexError or NameError |
| `LicenseCheck.FirstUnskippedAsWrittenMeaning` | rero_invenio_base/cli/utils.py:182-201 | as written, the shebang loop agrees with the intended one on every file that is not JavaScript; on a JavaScript file it raises NameError exactly when some line from the cursor on is not a shebang, and IndexError otherwise |
| `LicenseCheck.LicenseErrorsAsWritten` | rero_invenio_base/cli/utils.py:188-223 | as written, `test_license` never returns a result for a JavaScript file |
| `LicenseCheck.LicenseErrorsAsWrittenMeaning` | rero_invenio_base/cli/utils.py:182-223 | as written, `test_license` is `LicenseErrors` on every file that is not JavaScript, so every property proved of `LicenseErrors` holds of the code there; a JavaScript file raises NameError when it has a line that is not a shebang, and IndexError otherwise |
| `LicenseCheck.JsFileAsWrittenRaises` | rero_invenio_base/cli/utils.py:182-223 | `app.js` with lines `x`, `y` passes the intended check against the license `y` and raises NameError as written |
| `LicenseCheck.FileLines` | rero_invenio_base/cli/utils.py:191 | definition of the right-stripped line list; used by `LicenseErrors` |
| `LicenseCheck.FirstUnskipped` | rero_invenio_base/cli/utils.py:195-201 | corrected: the header is the first line that is neither a shebang (raw text starting with `#!`) nor a directive, and every line before it is one of these; none when all are |
| `LicenseCheck.FirstUnskippedNone` | rero_invenio_base/cli/utils.py:198-201 | a file of skippable lines only has no header |
| `LicenseCheck.CopyrightRunEnd` | rero_invenio_base/cli/utils.py:211-212 | the first line from the cursor that does not start with `Copyright (C)` once stripped, every line before it being a copyright line; none when the run reaches the end |
| `LicenseCheck.Step` | rero_invenio_base/cli/utils.py:208-222 | one license line: the cursor never moves back or past the end, and a recorded error number lies between the line last read and the end |
| `LicenseCheck.SkipLeading` | rero_invenio_base/cli/utils.py:195-201 | corrected: the shebang loop returns the stripped header and the cursor just past it, as `FirstUnskipped` says; IndexError exactly when there is no header |
| `LicenseCheck.SkipCopyright` | rero_invenio_base/cli/utils.py:210-214 | the copyright loop steps the cursor back onto the first non-copyright line, as `CopyrightRunEnd` says; IndexError exactly when the run reaches the end of the file |
| `LicenseCheck.CompareLine` | rero_invenio_base/cli/utils.py:208-222 | one pass of the license loop records the error and leaves the cursor that `Step` gives, with `line` the stripped text under the cursor |
| `LicenseCheck.CompareAll` | rero_invenio_base/cli/utils.py:208-222 | the license loop gives the error numbers `Compare` gives, or its IndexError |
| `LicenseCheck.TestLicense` | rero_invenio_base/cli/utils.py:188-223 | corrected: `test_license` gives exactly `LicenseErrors`: the header error, then the errors of the license lines, or the IndexError the code raises |
| `LicenseCheck.CopyrightRunCollapses` | rero_invenio_base/cli/utils.py:210-215 | a copyright license line consumes the whole run of copyright lines. It fails exactly when the run reaches the end of the file, resumes on the line after the first non-copyright line, and records that line exactly when the license line is not the bare mark |
| `LicenseCheck.LongCopyrightLineAlwaysReported` | rero_invenio_base/cli/utils.py:214-218 | a copyright license line with more text than the bare mark is compared with the mark, so it is always reported |
| `LicenseCheck.CompareBounds` | rero_invenio_base/cli/utils.py:215-218 | at most one error per license line, each numbered between the line last read and the end of the file |
| `LicenseCheck.CompareAtEnd` | rero_invenio_base/cli/utils.py:219-222 | once the cursor is on the last line it stays there: every later plain license line is compared with the last line, and any error is numbered `len(lines)` |
| `LicenseCheck.CompareExactMatch` | rero_invenio_base/cli/utils.py:215-222 | plain license lines that equal the file's lines one for one record nothing |
| `LicenseCheck.LicenseErrorsBounds` | rero_invenio_base/cli/utils.py:190-218 | at most `len(license_lines) + 1` errors, none numbered before the header or past the end |
| `LicenseCheck.LicenseErrorsCrashes` | rero_invenio_base/cli/utils.py:195-207 | corrected: IndexError for an empty file, for a file whose lines are all skippable, and for a header on the last line |
| `LicenseCheck.TopOnlyAddsHeaderError` | rero_invenio_base/cli/utils.py:202-207 | the `top` check only adds its one error (numbered `linenbr+1`) in front; the line after the header is consumed and the comparison is the same with or without `top` |
| `LicenseCheck.MatchingFilePasses` | rero_invenio_base/cli/utils.py:188-223 | corrected: a file with an accepted header followed by the plain license lines has no error |
| `CliUtils.Keys` | rero_invenio_base/cli/utils.py:229-230 | definition of a group's keys (its comma-separated pieces, stripped); the map built from them is characterised by `ExtensionMapLookup` and `LookupFirstGroupWins` |
| `CliUtils.LookupExtend` | rero_invenio_base/cli/utils.py:228-230 | a later group only adds keys not already taken |
| `CliUtils.LookupFirstGroupWins` | rero_invenio_base/cli/utils.py:230 | a key listed by several groups maps to the settings of the first one (`setdefault`) |
| `CliUtils.LookupMissing` | rero_invenio_base/cli/utils.py:227-230 | a key is missing exactly when no group lists it |
| `CliUtils.ExtensionMapLookup` | rero_invenio_base/cli/utils.py:227-230 | the map holds exactly the listed keys, each with its first group's settings |
| `CliUtils.BuildExtensions` | rero_invenio_base/cli/utils.py:227-230 | the `setdefault` loop builds exactly `ExtensionMap` |
| `CliUtils.KeysOfPair` | rero_invenio_base/cli/utils.py:229-230 | `"py, js"` style groups give both stripped keys in order |
| `CliUtils.FileExtensionIsSuffix` | rero_invenio_base/cli/utils.py:260 | the extension is a dot-free suffix of the base name, preceded by a dot |
| `CliUtils.FileExtensionOfName` | rero_invenio_base/cli/utils.py:260 | `dir/stem.ext` has extension `ext` |
| `CliUtils.DotFileHasNoExtension` | rero_invenio_base/cli/utils.py:260 | a base name whose only dot is its leading one has no extension |
| `CliUtils.Jobs` | rero_invenio_base/cli/utils.py:256-279 | the globbed files come first, each with the extension of its name, then the configured files with their configured extension |
| `CliUtils.TestFile` | rero_invenio_base/cli/utils.py:159-180 | corrected: `test_file` contributes 0 or 1, and it is 1 exactly when `test_license` reports some line; a missing extension raises KeyError |
| `CliUtils.FileOutcomeAsWritten` | rero_invenio_base/cli/utils.py:159-180 | as written, `test_file` raises for every JavaScript file |
| `CliUtils.FileOutcomeAsWrittenMeaning` | rero_invenio_base/cli/utils.py:159-199 | as written, `test_file` gives the intended outcome for every file that is not JavaScript; a JavaScript file with a configured extension raises NameError when it has a line that is not a shebang, and IndexError otherwise |
| `CliUtils.TallyBound` | rero_invenio_base/cli/utils.py:257-281 | with each file counting 0 or 1, the total is at most the number of files |
| `CliUtils.TallyZero` | rero_invenio_base/cli/utils.py:257-281 | the total is 0 exactly when every file counts 0 |
| `CliUtils.TallyErr` | rero_invenio_base/cli/utils.py:257-281 | the command dies exactly when some file raises, and then with the first file's exception |
| `CliUtils.TallyCounts` | rero_invenio_base/cli/utils.py:257-281 | with each file counting 0 or 1, a total that does not fail is the number of files counting 1 |
| `CliUtils.Outcomes` | rero_invenio_base/cli/utils.py:258-279 | definition: one `test_file` outcome per file; summed by `CheckLicenseFiles` |
| `CliUtils.CheckLicenseFiles` | rero_invenio_base/cli/utils.py:257-279 | the loop sums the files' counts, stopping at the first exception, as `Tally` says |
| `CliUtils.CheckLicenseCountsFiles` | rero_invenio_base/cli/utils.py:257-281 | `tot_error_cnt` is the number of files whose check found an error, at most the number of files, and 0 exactly when every file passes |
| `CliUtils.ExitStatusAsWritten` | rero_invenio_base/cli/utils.py:281 | `sys.exit(n)` as written: the process status is `n` modulo 256, and 1 for an uncaught exception |
| `CliUtils.ExitStatusAsWrittenWraps` | rero_invenio_base/cli/utils.py:281 | 256 failing files exit with status 0, like no failing file |
| `CliUtils.ExitStatus` | rero_invenio_base/cli/utils.py:281 | the corrected status is below 256 |
| `CliUtils.ExitStatusMeaning` | rero_invenio_base/cli/utils.py:281 | the corrected status is 0 exactly when no file fails, and below 256 failures it equals the code's |
| `CliUtils.CheckLicense` | rero_invenio_base/cli/utils.py:225-281 | corrected: `check_license` exits with the capped status of the tally over the files, using the extension map and the license text split on newlines |
| `CliUtils.JsonErrorCount` | rero_invenio_base/cli/utils.py:63-95 | definition of `error_cnt`: 0 for a file already indented as dumped, 1 otherwise |
| `CliUtils.JsonReportAsWrittenMisreports` | rero_invenio_base/cli/utils.py:76-88 | as written, a well-indented file checked without `--verbose` is reported "Bad indentation" although it counts 0 |
| `CliUtils.JsonReportMeaning` | rero_invenio_base/cli/utils.py:76-93 | corrected report: "Bad indentation" exactly for badly indented files and "Invalid JSON" exactly for unparsable ones (without `--replace`); "Well indented" only with `--verbose`; nothing for a good file otherwise |
| `CliUtils.JsonReportsBound` | rero_invenio_base/cli/utils.py:64-93 | corrected: at most one report per file, exactly one with `--replace` or `--verbose`, each naming a checked file |
| `CliUtils.JsonReportsAsWritten` | rero_invenio_base/cli/utils.py:64-93 | as written, exactly one report per file |
| `CliUtils.JsonReportsAsWrittenOnePerFile` | rero_invenio_base/cli/utils.py:64-93 | as written, the k-th report names the k-th file and is its as-written report |
| `CliUtils.JsonOutcomes` | rero_invenio_base/cli/utils.py:64-95 | definition: one `error_cnt` per file; summed by `CheckJson`, characterised by `CheckJsonStatusCorrected` and `CheckJsonStatusAsWritten` |
| `CliUtils.CheckJson` | rero_invenio_base/cli/utils.py:63-97 | corrected: the loop prints the corrected reports and exits with the capped status of the sum of the counts |
| `CliUtils.CheckJsonStatusCorrected` | rero_invenio_base/cli/utils.py:63-97 | corrected: `check_json` exits 0 exactly when every file is well indented |
| `CliUtils.CheckJsonStatusAsWritten` | rero_invenio_base/cli/utils.py:63-97 | as written, `check_json` exits with the number of bad files modulo 256 |
| `CliUtils.CheckJsonOneFile` | tests/test_cli.py:28-46 | one well-indented file exits 0, and one badly indented file exits 1 |
| `IndexCommands.SwitchFails` | rero_invenio_base/cli/es/index.py:93-94 | on a cluster that answers every request, `switch` dies on an unknown old index (AttributeError on `None`), or on an unknown new index as soon as there is an alias to put, and in no other case |
| `IndexCommands.SwitchMovesAliases` | rero_invenio_base/cli/es/index.py:93-97 | after the switch, every alias of `old` is on `new` and none is left on `old`. Aliases already on `new` stay, and every other index is untouched |
| `IndexCommands.SwitchWithoutAliases` | rero_invenio_base/cli/es/index.py:93-95 | with no alias on `old`, the table is unchanged |
| `IndexCommands.SwitchOntoItself` | rero_invenio_base/cli/es/index.py:95-97 | switching an index onto itself deletes all its aliases, since each put is undone by the delete |
| `IndexCommands.MovedKeepsEachAlias` | rero_invenio_base/cli/es/index.py:96-97 | at every step of the loop, each original alias is bound to `old` or to `new` |
| `IndexCommands.SwitchRequests` | rero_invenio_base/cli/es/index.py:95-97 | two requests per alias |
| `IndexCommands.SwitchRequestsPutBeforeDelete` | rero_invenio_base/cli/es/index.py:95-97 | for each alias, in the order listed, the put on `new` immediately precedes the delete from `old` |
| `IndexCommands.ReindexCallReads` | rero_invenio_base/cli/es/index.py:43-54 | the body's source index is `source`. Its dest index is `destination` with `version_type` `external_gte`, the source has no version type, and the call does not wait for completion |
| `IndexCommands.PlannedCallsOrder` | rero_invenio_base/cli/es/index.py:153-159 | every call addresses the index and the last is put_mapping. put_settings is made exactly when the mapping has settings and the flag is set, and the order close, put_settings, open, put_mapping keeps an open index open |
| `IndexCommands.Attempted` | rero_invenio_base/cli/es/index.py:152-160 | the calls sent are a prefix of those planned |
| `IndexCommands.AttemptedStopsAtFault` | rero_invenio_base/cli/es/index.py:152-162 | every planned call is sent when none raises; otherwise sending stops right after the first one that raises |
| `IndexCommands.MappingReports` | rero_invenio_base/cli/es/index.py:160-169 | corrected: one report per index |
| `IndexCommands.MappingReportsMeaning` | rero_invenio_base/cli/es/index.py:160-169 | corrected: an index is reported updated exactly when its mapping update was acknowledged, and as an error exactly when its calls raised; each report names its index |
| `IndexCommands.MappingReportsAsWrittenMisreports` | rero_invenio_base/cli/es/index.py:160-169 | as written: an exception on the first index ends the command with UnboundLocalError; one on a later index is reported and then also reported as a success |
| `IndexCommands.MappingReportsAsWrittenDies` | rero_invenio_base/cli/es/index.py:152-163 | as written, an exception in the first index's calls always ends the command with UnboundLocalError |
| `IndexCommands.MappingReportsAsWrittenAgree` | rero_invenio_base/cli/es/index.py:152-169 | when no index's calls raise, the reports as written are exactly the corrected ones |
| `IndexCommands.Selected` | rero_invenio_base/cli/es/index.py:145-147 | the aliases given, or all of the registry's, in order, when none is given |
| `IndexCommands.TargetsOfKnown` | rero_invenio_base/cli/es/index.py:147-150 | for aliases the registry knows, their indices in order, and the command does not die |
| `IndexCommands.MappingOutcomes` | rero_invenio_base/cli/es/index.py:152-159 | each index's outcome is the exception of its first failing call, or whether its mapping update was acknowledged |
| `IndexCommands.Cluster.GetAliasTable` | rero_invenio_base/cli/es/index.py:93 | `get_alias` logs the request and answers with the alias table, or raises TransportError when the request fails. Either way nothing changes |
| `IndexCommands.Cluster.PutAliasOn` | rero_invenio_base/cli/es/index.py:96 | `put_alias` logs the request. A failing request raises TransportError and changes nothing. Otherwise it adds the alias to an existing index, or raises NotFoundError and changes nothing |
| `IndexCommands.Cluster.DeleteAliasFrom` | rero_invenio_base/cli/es/index.py:97 | `delete_alias` logs the request. A failing request raises TransportError and changes nothing. Otherwise it removes an alias the index has, or raises NotFoundError and changes nothing |
| `IndexCommands.Cluster.MoveAlias` | rero_invenio_base/cli/es/index.py:96-97 | one pass of the loop: put on `new`, then delete from `old`. The put raising (a failing request or a missing `new`) ends it before the delete with nothing changed. A failing delete leaves the alias on both indices |
| `IndexCommands.Cluster.SwitchIndex` | rero_invenio_base/cli/es/index.py:87-98 | a failing `get_alias` or a missing old index ends it after the listing, with nothing changed. On success the table is `Switch` of the table before, and the requests are the listing, then the put/delete pairs of every alias of `old` in the order listed. When no request fails, it fails exactly when `Switch` does, with the same error and nothing changed. Otherwise the aliases before the failing one are moved, and the failing one is left where it was (put failed) or on both indices (delete failed); the requests stop at the one that raised |
| `IndexCommands.Cluster.Call` | rero_invenio_base/cli/es/index.py:154-159 | a close/put_settings/open/put_mapping call is logged and answered, with the alias table unchanged |
| `IndexCommands.Cluster.UpdateIndex` | rero_invenio_base/cli/es/index.py:152-159 | the calls sent for one index are the planned ones up to the first that raises, and the result is that index's outcome |
| `IndexCommands.Cluster.UpdateAlias` | rero_invenio_base/cli/es/index.py:148-169 | corrected: the indices of one alias in order: their calls and one report each |
| `IndexCommands.Cluster.UpdateMapping` | rero_invenio_base/cli/es/index.py:143-169 | corrected: every index of every selected alias in order: the requests sent and one report each, until an alias the registry does not know ends the command with AttributeError |
| `TaskCommands.TaskGet` | rero_invenio_base/cli/es/task.py:51-67 | a non-empty `response` is shown first; otherwise the `task` description and status, when there is a `task` entry; otherwise the whole result. A client exception exits with 1, and only then is the status non-zero |
| `TaskCommands.TaskCancel` | rero_invenio_base/cli/es/task.py:79-100 | `abort_if_false` aborts exactly when the confirmation is false, and then no request is made; otherwise the result is printed, or a client exception ends it |
| `TaskCommands.CancelStatus` | rero_invenio_base/cli/es/task.py:95-100 | definition of the exit status of `task cancel`: 0 after a printed result, 1 otherwise; what `task cancel` does is stated by `TaskCancel` |
| `TaskCommands.ProgressOf` | rero_invenio_base/cli/es/task.py:118-121 | at most one progress block per incomplete poll |
| `TaskCommands.ProgressOfMeaning` | rero_invenio_base/cli/es/task.py:117-123 | a progress block is printed for exactly the incomplete polls that carry a `task` entry, showing interval × (the poll's position) seconds |
| `TaskCommands.WatchStatus` | rero_invenio_base/cli/es/task.py:126-130 | definition of the exit status of `task watch`: 0 after a finished watch, 1 otherwise; how the watch ends is stated by `TaskWatch` |
| `TaskCommands.TaskWatch` | rero_invenio_base/cli/es/task.py:108-130 | the watch ends only on a completed poll or an exception, and every earlier poll was incomplete. The polls made are 1 + the incomplete ones, the seconds are `interval` × the incomplete polls, and the final poll's `response` is printed. A negative interval fails at the first sleep |

## Left out

- **Filesystem work:** globbing (`get_files`, the directory walk of `check_json`), the `exclude` list and the `set` difference that makes the file order arbitrary. The files arrive as an ordered list of names with their lines.
- **Library calls in `check_json`:** reading YAML, `json.load` and `json.dumps`. The comparison's result arrives per file as `JsonState`. `--indent` affects the comparison and the rewrite; `--sort-keys` affects only the rewrite of `--replace`, which is not modelled.
- **Output formatting:** the `difflib` diff display (`show_diff`, `--verbose` in `check_license`), `--progress`, console colours and `pformat`.
- **`test_file`'s error message:** the printed error list is not modelled, only the 0 or 1 it returns.
- **Other `es index` commands:** `open`, `close` and `create` are single client calls or template diffs through `jsonpatch`, with nothing to state. The `reindex` response is printed, not modelled.
- **`update_mapping` file reads:** the mapping file is only modelled as whether it has a `settings` section. The request bodies are not modelled.
- **`switch` alias order:** the order in which the cluster lists an index's aliases is left open (chosen by `:|`). `SwitchIndex` reports it as a ghost `order`.
- IndexCommands.Cluster.SwitchIndex: states that `order` lists the aliases of `old`, without stating that it lists each exactly once.
- LicenseCheck.WordRunMaximal: `\w` is read as ASCII letters, digits and `_`, while Python 3 matches any Unicode word character on `str`; a line such as `/// <reference é="x" />` matches the pattern in Python but not `IsTripleSlash`. Unicode character classes are not part of this model.
- LicenseCheck.FirstUnskipped: models the intended shebang loop, which skips triple-slash directives; as written the loop raises NameError on a JavaScript file's first non-shebang line (`FirstUnskippedAsWritten`).
- LicenseCheck.SkipLeading: the loop uses the intended directive test; as written a JavaScript file raises NameError instead (`FirstUnskippedAsWrittenMeaning`).
- LicenseCheck.TestLicense: is proved equal to the intended `LicenseErrors`; `test_license` as written is `LicenseErrorsAsWritten`, which agrees on every file that is not JavaScript and raises on every JavaScript file.
- LicenseCheck.LicenseErrorsCrashes: names the IndexError inputs of the intended checker; as written, a JavaScript file with a header on its last line or with directive lines raises NameError instead (`LicenseErrorsAsWrittenMeaning`).
- LicenseCheck.MatchingFilePasses: holds of the code as written only for files that are not JavaScript; a matching JavaScript file raises NameError as written.
- CliUtils.TestFile: uses the intended `test_license`; as written a JavaScript file raises NameError, which ends the command (`FileOutcomeAsWrittenMeaning`).
- CliUtils.CheckLicense: ends with the corrected status (capped at 255) over the intended `test_file`; as written the status is the count modulo 256 (`ExitStatusAsWritten`) and the first JavaScript file ends the command with NameError.
- CliUtils.JsonReportsBound: is stated for the corrected reports, which say nothing about a good file checked without `--verbose`; as written every file gets exactly one report (`JsonReportsAsWrittenOnePerFile`).
- CliUtils.CheckJson: prints the corrected reports and ends with the corrected status; as written a good file without `--verbose` is reported "Bad indentation" and the status is the count modulo 256 (`CheckJsonStatusAsWritten`).
- CliUtils.CheckJsonStatusCorrected: is about the corrected status; as written, 256 bad files end with status 0.
- IndexCommands.Cluster.UpdateMapping: follows the intended control flow; as written, an exception in the first index's calls ends the command with UnboundLocalError and no later request is sent, and an exception in a later index's calls also reports the previous index's response (`MappingReportsAsWritten`, `MappingReportsAsWrittenAgree`).
- IndexCommands.Cluster.UpdateAlias: the same as `UpdateMapping`: as written, the loop over an alias's indices stops on the unbound `res` and reports a stale one.
- **`task list`:** a pass-through command with nothing to state.
- **`task watch` without end:** the command polls for ever when no poll completes; `TaskWatch` requires that some poll ends it, or that the interval is negative.
- TaskCommands.TaskCancel: click's exit status for an abort (1) is taken from click's documented behaviour; click itself is not part of this model.
- **JSON values in the task commands:** `Document` is a list of string pairs. A `task` entry that is empty counts as missing.
- **Out-of-scope modules:** `es alias`, `slm` and `snapshot` are pass-through client calls. `modules/tasks.py` runs arbitrary code on Celery workers. Command registration and the Flask proxy are glue. `chunk` (modules/utils.py) is not part of this model.

## Findings

| source | as written | input that shows it | evidently intended | confidence | as-written member | corrected member |
|---|---|---|---|---|---|---|
| rero_invenio_base/cli/utils.py:184 | `re.search` is called, but the module never imports `re` (imports at lines 20-28) | a file `app.js` whose first line is `/// <reference types="node" />`. Every `.js` file with a line that is not a shebang raises NameError; one of shebangs only raises IndexError | a triple-slash reference directive is skipped like a shebang | high; not executed | `LicenseCheck.LicenseErrorsAsWrittenMeaning`, with `LicenseCheck.JsFileAsWrittenRaises` | `LicenseCheck.IsSlashDirective`, with `LicenseCheck.TripleSlashOfShape` and `LicenseCheck.TripleSlashHasShape` |
| rero_invenio_base/cli/es/index.py:163 | `res` is read after the `except` block | first index's calls raise: `res` is unbound, UnboundLocalError. Indices `i`, `j` with `i` acknowledged and `j`'s calls raising: `j` is reported as an error and then as updated | an index whose calls raised gets only its error line | high; not executed | `IndexCommands.MappingReportsAsWrittenMisreports`, with `IndexCommands.MappingReportsAsWrittenDies` | `IndexCommands.MappingReports`, with `IndexCommands.MappingReportsMeaning` |
| rero_invenio_base/cli/utils.py:86-88 | the `else` branch prints "Bad indentation" whenever the file is not replaced and not (good and verbose) | a well-indented file checked without `--verbose`: it counts 0 (exit status 0) but is reported "Bad indentation" | a well-indented file is not reported as badly indented | medium; not executed | `CliUtils.JsonReportAsWrittenMisreports` | `CliUtils.JsonReportFor`, with `CliUtils.JsonReportMeaning` |
| rero_invenio_base/cli/utils.py:281 | `sys.exit(tot_error_cnt)` with an unbounded count; the process status is the count modulo 256 | 256 files with a license error: exit status 0, as if all passed | any failing file gives a non-zero status | medium; not executed | `CliUtils.ExitStatusAsWrittenWraps`, with `CliUtils.CheckJsonStatusAsWritten` | `CliUtils.ExitStatus`, with `CliUtils.ExitStatusMeaning` |
