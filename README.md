# templater, modelled in Dafny

templater renders Go `text/template` files with values read from YAML files.
The values are wrapped under `Values`, so `{{ .Values.key }}` works as in Helm.
This project models the core of that program and proves properties about it:

- **Values** (`values.dfy`, module `ValueTree`): a YAML mapping is a `Tree`, which maps strings to `Value`s.
  - `Coalesce`: Helm's `CoalesceTables`. The destination wins every collision, and only two mappings are merged recursively.
  - `Prune`: drops a key from the lower-priority tree when the higher-priority tree marks that key's mapping with `__replace: true`.
  - `Strip`: removes the `__replace` markers at every depth.
- **Loading values** (`helper.dfy`, module `Helper`): `ParseYAMLValues` folds the `-f` files from last to first. Each step prunes, then coalesces. The result is stripped and wrapped under `Values`.
  - `MergeYaml`, `PruneReplaced` and `StripReplaceAnnotations` work on a `Table`, which is a Go map updated in place.
  - `ParseSetValues` applies `--set` strings in order and stops at the first one that fails.
  - Module `HelperExamples` proves the scenarios of `pkg/helper/helper_test.go`.
- **Paths** (`paths.dfy`, module `FilePaths`): Go's `filepath.Clean`, `Join`, `Dir`, `Abs` and `Rel`, on a path split at `/`.
- **include** (`include.dfy`, module `Include`): the `include` template function.
  - A relative path resolves against the directory of the template that makes the call.
  - The included template gets its own `include`, rebased to the included file's directory.
  - Every error names the resolved path.
- **main** (`templater.dfy`, module `Templater`):
  - How `processTemplate` reads standard input line by line with `bufio.Scanner`.
  - How it chooses the base directory for the root template's `include`.
  - How it chooses the output.
  - How directory mode maps each walked file to its output path.

## Model

| member | source | states |
|---|---|---|
| ValueTree.Coalesce | pkg/helper/helper.go:38-43 | the merged mapping has exactly the keys of both mappings |
| ValueTree.CoalesceKeepsDst | pkg/helper/helper.go:38-43 | map1 takes precedence: every value of the destination survives the merge, at every depth |
| ValueTree.CoalesceCompatibleIsUnion | pkg/helper/helper.go:38-43 | when every key both trees hold is a mapping on both sides, at every depth, the merge covers both trees |
| ValueTree.CoalesceKeepsUnderneath | pkg/helper/helper_test.go:10-31 | the merge is deep, not a replacement: besides all of the destination, it holds every key the source has and the destination lacks, at every depth below mappings both hold |
| HelperExamples.DeepMergeByDefault | pkg/helper/helper_test.go:10-31 | `class: {name: suresh}` over `class: {name: rajesh, grade: 10}` gives `class: {name: suresh, grade: 10}` |
| ValueTree.CoalesceIdentity | pkg/helper/helper.go:38-43 | merging with an empty mapping on either side gives back the other mapping |
| ValueTree.CoalesceIdempotent | pkg/helper/helper.go:38-43 | merging a tree with itself gives back the tree |
| ValueTree.Prune | pkg/helper/helper_test.go:33-55 | pruning removes from the source exactly the keys whose destination mapping is marked `__replace: true` |
| ValueTree.PruneWithoutMarks | pkg/helper/helper_test.go:10-31 | without any `__replace` marker, pruning changes nothing |
| ValueTree.MergeWithoutMarks | pkg/helper/helper_test.go:10-31 | without markers, a merge step is the plain deep merge |
| ValueTree.MergeKeepsAcc | pkg/helper/helper_test.go:33-55 | a merge step keeps every value the higher-priority files already set |
| ValueTree.MergeDescends | pkg/helper/helper_test.go:106-141 | a new key takes the source value; two unmarked mappings are pruned and merged recursively |
| ValueTree.ReplacedSubtreeKept | pkg/helper/helper_test.go:106-141 | a mapping marked `__replace: true`, at any depth, comes out of a merge step unchanged |
| ValueTree.Merge | pkg/helper/helper_test.go:83-87 | one step of the loop (prune, then merge) leaves exactly the top-level keys of the accumulator and of the file: a replaced key is kept from the accumulator |
| ValueTree.Strip | pkg/helper/helper_test.go:143-164 | stripping removes exactly the `__replace` key from a mapping |
| ValueTree.StripRemovesMarkers | pkg/helper/helper_test.go:143-164 | no `__replace` key is left at any depth after stripping |
| ValueTree.StripMarkerFree | pkg/helper/helper_test.go:143-164 | stripping a tree without markers changes nothing |
| ValueTree.StripIdempotent | pkg/helper/helper_test.go:143-164 | stripping twice is stripping once |
| ValueTree.StripKeepsCover | pkg/helper/helper_test.go:143-164 | stripping preserves which values one tree sets over another |
| ValueTree.CoversReflexive | pkg/helper/helper.go:38-43 | every tree covers itself (the precedence relation is reflexive) |
| ValueTree.CoversTransitive | pkg/helper/helper.go:38-43 | precedence carries through a chain of merges |
| Helper.Table.constructor | pkg/helper/helper.go:18-21 | a new table holds the given entries |
| Helper.MergeYaml | pkg/helper/helper.go:38-43 | map1 is updated in place to the coalesced mapping and is returned |
| Helper.PruneReplaced | pkg/helper/helper_test.go:33-55 | the source table is pruned in place against the destination |
| Helper.StripReplaceAnnotations | pkg/helper/helper_test.go:143-164 | the table is stripped in place |
| Helper.Fold | pkg/helper/helper.go:19-31 | when the loop gets through every file, each file was parsed and each file's top-level keys are in the result |
| Helper.Resolve | pkg/helper/helper.go:13-36 | loading fails exactly when the loop fails, with its error; an empty mapping for no files, otherwise the single key `Values` |
| Helper.FoldAsWritten | pkg/helper/helper.go:19-31 | the loop as written (merge without pruning) fails on exactly the same files, with the same error, as the corrected loop |
| Helper.ResolveAsWritten | pkg/helper/helper.go:13-36 | the load as written fails exactly when the corrected load fails, with the same error |
| Helper.ParseYAMLValues | pkg/helper/helper.go:13-36 | the loop from the last file to the first computes `Resolve`: an empty mapping for no files, the first failure met otherwise, else the stripped fold wrapped under `Values` |
| Helper.FoldFailureIsFinal | pkg/helper/helper.go:19-29 | once a later file fails, the earlier files are never read |
| Helper.FoldFailsAtLastBadFile | pkg/helper/helper.go:19-29 | loading fails exactly when some file cannot be read or parsed, and the error is that of the last such file |
| Helper.ResolveEmpty | pkg/helper/helper.go:14-16 | no values files gives an empty mapping, without `Values` |
| Helper.ResolveWrapsValues | pkg/helper/helper.go:33-35 | a successful load is one mapping under the single key `Values`, with no `__replace` left in it |
| Helper.FoldKeepsLaterFiles | pkg/helper/helper.go:19-31 | later files take precedence: the result covers the fold of every suffix of the file list |
| Helper.LastFileWins | pkg/helper/helper.go:19-31 | every value of the last file, stripped, appears in the result |
| Helper.ParseSetValues | pkg/helper/helper.go:45-54 | the `--set` strings are applied in order into the table until the first failure; then the table keeps what the failing string had written before its error, and the error is prefixed |
| Helper.ApplySetsAppend | pkg/helper/helper.go:47-53 | applying `a + b` is applying `a`, then `b` when `a` succeeded |
| Helper.ApplySetsError | pkg/helper/helper.go:48-51 | a failure comes from the first string that fails, applied to the table the strings before it left: the error is `failed parsing --set data: ` followed by its message, and the table is what that string had partly written |
| HelperExamples.TwoFilesReplace | pkg/helper/helper_test.go:166-187 | val1 and a `__replace` val2 give `class = {name: suresh}` |
| HelperExamples.AsWrittenIgnoresReplace | pkg/helper/helper.go:30 | the loop as written keeps `grade` and the `__replace` key, unlike the corrected load |
| HelperExamples.FoldVal2Val3 | pkg/helper/helper_test.go:57-104 | val2 over val3 merges `section` into the marked class |
| HelperExamples.FoldAllThree | pkg/helper/helper_test.go:57-104 | val1 under the marked class contributes nothing |
| HelperExamples.ThreeFilesReplaceInMiddle | pkg/helper/helper_test.go:189-217 | three files with `__replace` in the middle give `class = {name: suresh, section: A}` |
| HelperExamples.StripMiddleClass | pkg/helper/helper_test.go:57-104 | stripping the three-file result leaves `name` and `section` |
| HelperExamples.NestedPrune | pkg/helper/helper_test.go:106-141 | pruning drops the marked nested `config` from the source and keeps its sibling `version` |
| HelperExamples.NestedMerge | pkg/helper/helper_test.go:106-141 | the merge keeps the marked `config` whole and adds `version` beside it |
| HelperExamples.StripNestedConfig | pkg/helper/helper_test.go:106-141 | stripping the marked `config` leaves only `port: 8080` |
| HelperExamples.StripNestedMergedApp | pkg/helper/helper_test.go:106-141 | stripping the merged `app` leaves `config` without its marker, and `version` |
| HelperExamples.NestedReplace | pkg/helper/helper_test.go:106-141 | a marker on a nested mapping replaces only that mapping, and its siblings still merge |
| FilePaths.Clean | main.go:86 | cleaning keeps a path absolute or relative, and never gives the empty path (`.` instead) |
| FilePaths.Join | main.go:86 | the join is empty only when both parts are; it is absolute when its first non-empty part is |
| FilePaths.Dir | main.go:96 | the directory keeps the path absolute or relative and is never empty |
| FilePaths.Abs | main.go:49-53 | `Abs` fails exactly for a relative path when the working directory is unknown; otherwise the result is absolute when the path or the working directory is |
| FilePaths.Rel | main.go:203-206 | `Rel` fails when one path is absolute and the other is not, gives `.` for the same cleaned path, and always gives a relative path |
| FilePaths.CleanIsClean | main.go:86 | a cleaned path is in canonical form and keeps its absolute flag |
| FilePaths.CleanIdempotent | main.go:86 | cleaning a clean path changes nothing |
| FilePaths.CommonPrefix | main.go:203 | the length of the longest shared prefix of two element lists |
| FilePaths.Ups | main.go:203 | n `..` elements |
| FilePaths.JoinPlain | main.go:86 | joining a clean directory with plain names appends the names |
| FilePaths.DirPlain | main.go:96 | the directory of `dir/r/name` is `dir/r` |
| FilePaths.AbsIsAbsolute | main.go:49-53 | with an absolute working directory, `Abs` gives a clean absolute path whose directory is absolute |
| FilePaths.JoinUnder | main.go:209 | joining plain names to any directory appends them to its cleaned elements and gives a path that is already clean |
| FilePaths.RelOfJoin | main.go:203-209 | `Rel(base, Join(base, r))` is `r` for plain relative names |
| FilePaths.PushKeepsClean | main.go:86 | one step of cleaning keeps the stack in canonical form |
| FilePaths.CleanFromKeepsClean | main.go:86 | cleaning onto a canonical stack keeps it canonical |
| FilePaths.CleanFromAppend | main.go:86 | cleaning `s + t` is cleaning `s`, then `t` |
| FilePaths.CleanFromClean | main.go:86 | cleaning onto a stack that is already canonical appends the elements unchanged |
| FilePaths.PlainAfterClean | main.go:86 | appending plain names to a canonical stack keeps it canonical |
| Include.ResolvePath | main.go:82-87 | an absolute argument is used as written; the resolved path is absolute when the argument or the bound directory is |
| Include.Rebind | main.go:96-102 | the nested `include` is bound to a directory that is never empty and is absolute when the included file's path is |
| Include.Include | main.go:89-113 | a missing file fails, and every include error names the resolved path |
| Include.Render | main.go:110-113 | executing a body that holds a failing action fails; a body of literal text only never fails |
| Include.HopDir | main.go:96 | the directory of a file reached by plain names from a clean directory is that directory followed by all names but the last |
| Include.AbsoluteIncludeIgnoresBase | main.go:83-84 | an absolute include path does not depend on the calling template's directory |
| Include.ChainRenders | main.go:78-117 | when each template of a chain only includes the next one, the first include renders the last file's text |
| Include.HopPlain | main.go:82-102 | a plain relative include resolves under the base directory, and the nested `include` is rebased to the included file's directory |
| Include.ChainPlain | main.go:78-117 | a chain of relative includes resolves to the base directory followed by the directories of every intermediate include |
| Include.ChainPlainLonger | main.go:78-117 | the inductive step of the chain: the first hop, then the rest of the chain from the reached directory |
| Include.ChainElementsStep | main.go:96-102 | the elements of a longer chain are the first hop's directory followed by those of the rest |
| Include.ChainStep | main.go:96-102 | one include hop moves the base directory to the included file's directory |
| Include.NestedChainResolves | main.go:78-117 | from `/x`, `sub/child.tpl` including `grandchild.tpl` reaches `/x/sub/grandchild.tpl`, not `/x/grandchild.tpl` |
| Include.NestedFirstHop | main.go:82-87 | the first include from `/x` reads `/x/sub/child.tpl` |
| Include.NestedIncludeUsesIncludersDirectory | main.go:78-117 | rendering the nested example outputs the text of `/x/sub/grandchild.tpl` |
| Templater.LineEnd | main.go:26-31 | where the first line ends: at a newline, or at the end of the input |
| Templater.LineEndIsFirst | main.go:26-31 | no newline comes before where the first line ends |
| Templater.SplitAtLineEnd | main.go:26-31 | the input is the first line, its newline and the rest, and neither part gains a carriage return |
| Templater.ReadStdin | main.go:24-36 | standard input is the scanned lines, each followed by one newline, or the scanner's too-long error |
| Templater.ReassembleCons | main.go:28-31 | appending lines one at a time adds each line and its newline |
| Templater.DropCRWithoutCR | main.go:26-31 | a line without a carriage return is not changed |
| Templater.DropCR | main.go:26-31 | a line loses at most one carriage return, at its end |
| Templater.FirstLineIsLine | main.go:26-31 | a first line that fits the buffer is a token without a newline |
| Templater.ScanLines | main.go:26-33 | every token is shorter than `bufio.MaxScanTokenSize` and holds no newline, and there are no more tokens than input bytes |
| Templater.ScanStep | main.go:26-31 | the scanner yields the first line, then the lines after its newline |
| Templater.ReassembleRoundTrip | main.go:24-36 | without carriage returns or too-long lines, reading standard input gives back the input, with a final newline added when missing |
| Templater.ProcessTemplate | main.go:19-54 | standard input goes to standard output, with the notice when `-o` was given, and includes resolve from the working directory; a file is read, or an error is returned, and includes resolve from its absolute directory; output goes to the `-o` path or to standard output |
| Templater.RootIncludeIsSibling | main.go:48-53 | a relative include in the root template `/d/t.tpl` reads `/d/...`, wherever the process runs |
| Templater.WalkJobs | main.go:198-214 | the walk makes at most one `processTemplate` call per entry, and ends without error exactly when no entry has an error and, for every file, `Rel` and its `processTemplate` call succeed |
| Templater.OutputFor | main.go:207-210 | a file's output path is empty (standard output) exactly when no output path was given |
| Templater.WalkDirectory | main.go:197-214 | the walk callback's calls, in order, stopping at the first entry error, `Rel` failure or failing `processTemplate` call, whose error ends the walk |
| Templater.RunJobs | main.go:211 | calling `processTemplate` for a list of files until one fails makes a prefix of the calls; it ends without error exactly when every call succeeds, and then makes them all; otherwise the last call made is the first that failed, and its error is the walk's |
| Templater.OutputMirrorsInput | main.go:202-210 | the file `input/names` is written to the cleaned `-o` path followed by `names`, or to standard output when `-o` is missing |
| Templater.WalkRendersEveryFile | main.go:197-214 | when no entry of the walk (input directory, subdirectories and files) has an error, the walk calls `processTemplate` for its files, in walk order, each with its mirrored output path, skipping its directories, until the first call that fails |

## Left out

- `pruneReplaced` and `StripReplaceAnnotations` are modelled (`Helper.PruneReplaced`, `Helper.StripReplaceAnnotations`, on `ValueTree.Prune` and `ValueTree.Strip`), but their Go bodies are not among the source files: only `pkg/helper/helper_test.go` calls them. Their behaviour is taken from what those tests check.
- YAML parsing and `toYaml` are calls into `sigs.k8s.io/yaml`. The model takes each values file as already parsed, or as a read or parse error.
- `text/template`, the sprig functions and `tpl` are not modelled. A template body is a sequence of literal text, `include` calls, and calls that fail.
- Parsing a template is not modelled. A parse failure is an include file marked unparsable.
- File reads, `os.Getwd`, `os.MkdirAll`, `os.Create` and writing the output are not modelled. A file system is a map from path to content, and the working directory is a parameter.
- Flag parsing and `-v` are not modelled. The `-i ""` usage error and `os.Stat` are not modelled. The choice between single-file and directory mode is not modelled either.
- `cmd/app/main.go` is not modelled. It is an older copy of the entry point.
- `pkg/utils` is not part of this model.
- `filepath.Walk`'s traversal order is not modelled. The walk is given as its sequence of entries.
- Templater.WalkDirectory, Templater.WalkJobs, Templater.WalkRendersEveryFile: what one `processTemplate` call of the walk does is the `render` parameter, which gives its error or none. Its own steps are modelled by `Templater.ProcessTemplate`, not chained into the walk.
- ValueTree.Coalesce: does not model Helm deleting a key whose higher-priority value is null, or Helm's warnings on type mismatches.
- Helper.ParseSetValues: Helm's `strvals` parser is the `parseInto` parameter. Its syntax and type coercion are not modelled. Which pairs it has written when it fails is its own business: the model takes the partly written tree from it.
- ValueTree.Strip: does not descend into sequences. The body of `StripReplaceAnnotations` is not part of this model, so this part is a reading of the tests.
- Include.Render: recursion is bounded by a fuel parameter. A chain of includes deeper than the fuel ends in `DepthExhausted`, where Go would recurse until the stack runs out.
- Include.Include: like the source, an absolute argument is looked up exactly as written, without cleaning. In the model `/x/./a.tpl` and `/x/a.tpl` are different keys of the file system, where the operating system would open the same file.
- Templater.ReadStdin: read errors other than a too-long line are not modelled.
- Paths are sequences of names split at `/`. Volume names and the OS separator are not modelled.
- Go maps that share nested mappings are modelled as values. Aliasing between a nested mapping of one table and another table is not captured.

## Findings

| source | as written | input that shows it | evidently intended | confidence | as-written member | corrected member |
|---|---|---|---|---|---|---|
| pkg/helper/helper.go:30 | each step only calls `MergeYaml(data, values)`. There is no `pruneReplaced` before it and no `StripReplaceAnnotations` after the loop. | `-f val1.yaml -f val2.yaml` with val1 `class: {name: rajesh, grade: 10}` and val2 `class: {__replace: true, name: suresh}` gives `class: {__replace: true, name: suresh, grade: 10}` | `class: {name: suresh}`, which `TestParseYAMLValues_ReplaceIntegration` checks for: prune before each merge, then strip | not executed | HelperExamples.AsWrittenIgnoresReplace | HelperExamples.TwoFilesReplace |
