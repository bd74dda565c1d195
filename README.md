# buildr core, modelled in Dafny

buildr is a small task runner. It reads `.buildr.properties` and renders the
environment descriptor `./.buildr/<env>/env.buildr` as a template. It parses
the result as YAML and stores every key, upper-cased and with `-` turned into
`_`, in the process-wide map `buildrEnvs`. After that it does one of two
things:

- `run` walks `./.buildr/<env>/`, renders every file whose path contains
  `.cmd.buildr` with that map as context, and runs each rendered body with
  `sh -c`.
- `build-env` writes `./.buildr/bin/Runfile`: a bash script that sets every
  entry inline and then calls `go run *.go`.

This project models the four pieces of sequential logic in `main.go`:

- `EnvResolver`: key normalisation and the merge loop of `parseBuildrEnvs`.
  The process-wide map is the class `BuildrEnvs`. Its `Merge` method visits
  the parsed entries in an order the model leaves open, because Go's map
  iteration order is random. The merge is specified by the predicate
  `MergedFrom`: every raw key's normal name ends up holding the value of
  *some* raw key with that normal form, and other names keep their values.
- `CommandCollector`: `getInterpolatedCmdFiles`. The walk is a sequence of
  visited paths, each flagged with whether `filepath.Walk` reported an error
  for it. Template parsing and execution is a total function `Renderer`,
  where `None` means "does not parse". The method `CollectCommands` is proved
  against the function `Collect`. `Collect` is then related to an independent
  filter-and-render definition `Matches` applied to the walk cut at the first
  stop.
- `Runfile`: the buffer assembly of `generateRunfile`. It is a loop over the
  map in unspecified order, proved against `RunfileText`. A parser
  `ParseRunfile` reads the text back and recovers the entries one by one.
- `Cli`: the argument switch of `main`, the stages each mode runs, the exit
  status, and `Execute`, which composes the pieces.
- `GoStrings`: ASCII models of `strings.Replace` (with one-character
  arguments), `strings.ToUpper` and `strings.Contains`.
- `Wrappers`: `Option`.

On one path the model follows what the code evidently means rather than
what it does. When `env.buildr` is missing or does not parse, the code
prints the error and carries on (main.go:95-97), which shows it means to go
on with an empty environment. It then executes the nil template it got back,
and that panics (see Findings). `Cli.ExitStatusAsWritten` models the code as
written. `Cli.ExitStatus` and `Cli.Execute` use the corrected behaviour: an
empty environment and the normal exit status.

Resolving the same environment is guaranteed to give the same map when no
two raw keys share a normal form (`EnvResolver.MergeDeterministic`,
`EnvResolver.MergeIdempotent`). When colliding keys carry different values,
either value can survive (`EnvResolver.MergeCollisionEitherValue`).

## Model

| member | source | states |
|---|---|---|
| GoStrings.ReplaceAll | main.go:111 | replacing `-` by `_` keeps the key's length |
| GoStrings.ReplaceAllAt | main.go:111 | each position holds `_` where the key had `-`, and the key's own character otherwise |
| GoStrings.ToUpper | main.go:111 | upper-casing keeps the length |
| GoStrings.ToUpperAt | main.go:111 | each position is the upper-case form of the input's character at that position |
| GoStrings.UpperChar | main.go:111 | an upper-cased character is never a lower-case ASCII letter; `a`..`z` map to `A`..`Z` in order; every other character comes back unchanged |
| EnvResolver.Normalize | main.go:111 | the shell-style name has the key's length |
| EnvResolver.NormalizeIsNormal | main.go:111 | a normalised key contains no `-` and no lower-case ASCII letter, and has the input's length |
| EnvResolver.NormalizeFixesExactlyNormal | main.go:111 | normalising leaves a key unchanged if and only if it has no `-` and no lower-case letter |
| EnvResolver.NormalizeIdempotent | main.go:111 | normalising twice equals normalising once |
| EnvResolver.NormalizeConcat | main.go:111 | normalisation works character by character: it distributes over concatenation |
| EnvResolver.NormalizeDatabaseHost | main.go:111 | the key `database-host` becomes `DATABASE_HOST` |
| EnvResolver.BuildrEnvs.constructor | main.go:38 | the process-wide map starts empty |
| EnvResolver.BuildrEnvs.Merge | main.go:110-112 | afterwards the keys are the old keys plus the normal names of the raw keys; each such name holds the value of some raw key with that normal form; every other name keeps its old value |
| EnvResolver.MergeDeterministic | main.go:110-112 | when no two raw keys share a normal form, the merged map is uniquely determined |
| EnvResolver.MergeIdempotent | main.go:110-112 | when no two raw keys share a normal form, merging the same document again changes nothing |
| EnvResolver.MergeCollisionEitherValue | main.go:110-112 | for raw keys `a-b` and `a_b`, both a merged map with `A_B`=`1` and one with `A_B`=`2` satisfy the merge contract |
| CommandCollector.CollectFrom | main.go:127-150 | what the walk callback collects from a position on: at most one command per remaining entry, each naming a command file and holding its rendering |
| CommandCollector.Collect | main.go:124-151 | the commands returned: no more than the walked paths, each naming a command file and holding its rendering |
| CommandCollector.CollectCommands | main.go:124-151 | the commands returned are exactly `Collect` of the walk: entries visited in order, stopping at the first walk error or unparsable command file, keeping what was already appended |
| CommandCollector.FirstStop | main.go:127-137 | the first position whose callback returns an error: no earlier entry stops, and the entry at that position does |
| CommandCollector.CollectIsMatchesBeforeStop | main.go:127-150 | the collected commands equal the rendered command files of the walk cut at the first stop, and nothing after the stop |
| CommandCollector.MatchesAppend | main.go:127-148 | collecting from two consecutive stretches of the walk gives the first stretch's commands followed by the second's |
| CommandCollector.CollectFromStep | main.go:132-147 | an entry that does not stop the walk contributes exactly its own rendered match, then collection continues with the next entry |
| CommandCollector.MatchPositionsExact | main.go:132 | the positions of marker paths are increasing, all hold the marker, and every marker path's position is among them |
| CommandCollector.MatchesInWalkOrder | main.go:132-145 | the k-th command comes from the k-th path carrying the marker, with its path and rendered text; positions increase; every marker path contributes and no other path does; count at most the number of walked paths |
| CommandCollector.CollectInWalkOrder | main.go:127-150 | the k-th collected command comes from the k-th marker path visited before the first stop, with its path and rendered text; those positions increase; every marker path before the stop contributes |
| CommandCollector.WalkErrorCutsOff | main.go:128-130 | a walk error at position i makes the result equal to collecting from the entries before i only |
| CommandCollector.ParseErrorCutsOff | main.go:133-137 | a command file that fails to parse at position i makes the result equal to collecting from the entries before i only |
| CommandCollector.NoCmdFileWithoutC | main.go:132 | a path without the letter `c` never passes the `.cmd.buildr` substring test |
| CommandCollector.MarkerSuffixIsCmdFile | main.go:132 | a path ending in `.cmd.buildr` always passes the substring test |
| CommandCollector.TwoCommandFilesInWalkOrder | main.go:127-150 | a walk of `./.buildr/test/` visiting the root, then `.buildr/test/a.cmd.buildr`, `.buildr/test/b.cmd.buildr` and the descriptor `.buildr/test/env.buildr`, yields the two rendered bodies in walk order and nothing for the root or the descriptor |
| Runfile.RunfileText | main.go:184-191 | the text starts with `#!/bin/bash` and the generated-file notice, ends with `go run *.go`, and holds exactly the entry fragments in between |
| Runfile.AssignmentsSnoc | main.go:187-189 | writing one more entry appends exactly its `K="V" ` fragment |
| Runfile.GenerateRunfile | main.go:181-191 | the buffer starts with the header and ends with `go run *.go`, and is the Runfile text for an iteration order that lists every environment key exactly once |
| Runfile.ParseAssignmentsInverse | main.go:187-189 | when keys have no `=` and values no `"`, the fragments split back into exactly the (key, value) pairs written, in order |
| Runfile.RunfileRoundTrip | main.go:184-191 | reading back a generated Runfile recovers exactly the written entries |
| Runfile.PairsAreEntries | main.go:187-189 | the pairs written are, one per position of the iteration order, that key and its value in the map |
| Cli.SelectMode | main.go:48-79 | no argument, `run`, `build-env` and any other first argument select the four modes, each exactly when its condition holds |
| Cli.Stages | main.go:47-79 | properties load first whenever a command is given; environment resolution happens exactly for `run` and `build-env`; commands run exactly for `run`; the Runfile is generated exactly for `build-env`; no stage repeats; environment resolution comes before running the commands or generating the Runfile |
| Cli.ExitStatus | main.go:47-79 | the status is 0 or 2; it is 0 exactly for `run` and for `build-env` whose Runfile write succeeded |
| Cli.ExitStatusAsWritten | main.go:93-119 | the status of the code as written is 0 or 2, and 0 exactly when the environment template loads and the corrected status is 0 |
| Cli.MissingEnvFilePanics | main.go:93-119 | as written, `run` with an unloadable `env.buildr` ends with status 2 where the corrected model gives 0 |
| Cli.AsWrittenAgreesWhenEnvLoads | main.go:93-119 | when the environment template loads, the as-written and the corrected exit statuses coincide |
| Cli.Execute | main.go:47-79 | the status is `ExitStatus`; `run` and `build-env` resolve the environment by the merge contract; `run` hands the executor exactly `Collect` of the walk; `build-env` produces the Runfile text for an order that lists every key once; other modes produce nothing; the stages it goes through are exactly `Stages` |

## Findings

| source | as written | input that shows it | evidently intended | confidence | as-written member | corrected member |
|---|---|---|---|---|---|---|
| main.go:93-119 | when `template.ParseFiles` fails, the error is printed, but the nil template is still passed to `execTemplate`; `(*html/template.Template).Execute` on nil dereferences it and panics, so the process exits with status 2 | `buildr run` with no `./.buildr/test/env.buildr` (lemma `Cli.MissingEnvFilePanics`) | print the error and carry on with an empty environment, finishing with status 0 | medium, not executed | Cli.ExitStatusAsWritten | Cli.ExitStatus |

## Left out

- Reading `.buildr.properties` and parsing YAML (main.go:82-90, 101-108). These are file I/O and an external library. The parsed environment document is an input `map<string, string>`, or `None` when its template cannot be loaded.
- Template parsing and execution with `html/template`, including its HTML escaping (main.go:93, 116-122, 133, 141). This is an external library. It becomes the abstract `Renderer`. Errors from `Execute` are ignored in the source, so they are not modelled.
- The traversal order of `filepath.Walk`. It depends on the filesystem, so the walk is an input sequence.
- Running the commands (`runCmds`, main.go:153-179): `sh -c`, `Start`, `CombinedOutput`, `Wait`, and the doubled output. This is process spawning and console output. The model stops at the command list handed to the executor.
- Creating `./.buildr/bin` and writing the Runfile (main.go:193-205). This is filesystem I/O. Only the success flag `writeOk`, which decides the exit status, is modelled.
- Console and coloured output, and parsing the `-e` flag with the `flag` package (main.go:33-44, 57, 65). These are UI and library code. The default environment name `test` is kept as a constant, used for the walked directory. A malformed flag after `run` or `build-env` makes `flag.ExitOnError` end the process with status 2, and `-h` ends it with status 0, after the properties are loaded (main.go:53) and before the environment is resolved (main.go:57, 65). With a bad flag the source goes through `[LoadProperties]` only, not the stages `Cli.Stages` gives. The model does not parse flags.
- Cli.ExitStatus: gives the status for well-formed flags only. Its "0 exactly for `run` or a written `build-env`" leaves out the exit with status 2 on a malformed flag and with status 0 on `-h`; `Cli.Execute` inherits this.
- Formatting non-string YAML values with `%s` (main.go:188). Values are modelled as strings.
- GoStrings.ToUpper: only ASCII letters are upper-cased. Characters outside ASCII are left unchanged, whereas Go applies Unicode case mapping to them.
- Runfile.RunfileRoundTrip: applies only to keys without `=` and values without `"`. The source does not quote or escape entries, so other texts cannot be split back uniquely.
