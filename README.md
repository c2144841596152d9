# vscode-copilot-utils, modelled in Dafny

This project models the string and data logic of the VS Code extension
`vscode-copilot-utils`, with the extension host and `simple-git` taken as inputs.
It covers three parts.

- **Git branch reports.** These come from `GitService` (`src/git/gitService.ts`) and its static twin `GitUtils` (`src/gitUtils.ts`).
  - `formatGitStatus` maps a status letter to a label.
  - The parser reads `git diff --name-status` output.
  - The main-branch resolution tries the configured name, `main`, `master`, the remote `HEAD branch:` line, and then an error.
  - `formatBranchChanges` groups the changes by label and emits at most `maxLineCount` file lines, with a "... and N more changes not shown" suffix.
  - The git client's answers are a `Host` value: the workspace state, the current branch, the branch list, the `git remote show origin` text and a diff function.
  - The settings are a `Settings` value.
- **The variable registries.** These are `VariableService` (`src/variables/variableService.ts`) and `CopilotVariableService` (`src/copilotVariableService.ts`).
  - Each is a class over a JavaScript `Map`, keyed by the lower-cased id.
  - Setting an existing key keeps its place in the key order; a new key goes last.
  - Lookups ignore case.
  - A handler that throws is turned into `Error retrieving #<id>: <message>`.
  - `processText` scans the `#[A-Za-z0-9_-]+` references and, for each one that has a value, replaces the first occurrence of its text in the current result.
  - A handler is modelled by how its call settles, as an `Outcome`: it returns a string or it throws.
- **The release script's version arithmetic** (`scripts/create-release.js`).
  - It validates the version type.
  - It bumps a `major.minor.patch` version (patch, minor or major).
  - It writes the version back into `package.json` and names the tag `v<version>`.

Modules, one concept each:

| module | file | what it holds |
|---|---|---|
| `Wrappers` | wrappers.dfy | `Option`, `Result` |
| `JsString` | jsstring.dfy | the JavaScript string operations the code relies on: `trim`, `split`, `join`, `indexOf`/`includes`, `replace` with a string pattern, ASCII `toLowerCase`, decimal text of numbers |
| `NameStatus` | name_status.dfy | `GitChange`, `formatGitStatus`, the diff parser |
| `GitHost` | git_host.dfy | the host/repository inputs, `getGit`, the settings lookup, the `HEAD branch:` extraction, the branch fallback after the configured name |
| `BranchReport` | branch_report.dfy | the grouping `reduce`, the nested output loops with `totalLines`/`reachedLimit`, the suffix and `trim` |
| `GitService`, `GitUtils` | git_service.dfy, git_utils.dfy | the entry points of the two git classes |
| `Registry` | registry.dfy | the insertion order of a `Map` |
| `Substitution` | substitution.dfy | the reference scanner, the lookup and the replace loop as written, and the in-place substitution it was meant to perform |
| `Variables`, `CopilotVariables` | variables.dfy, copilot_variables.dfy | the two registry classes |
| `Release` | release.dfy | the release script |

`GitUtils.formatGitStatus` (src/gitUtils.ts:88-109) and the parse chain of `GitUtils.getBranchChanges` (src/gitUtils.ts:141-159) are character for character the code of `GitService`. They are modelled once, by `NameStatus.FormatGitStatus` and `NameStatus.ParseDiff`, and `GitUtils.GetBranchChanges` uses them. The same holds for the grouping and output loops, which `GitUtils.FormatBranchChanges` shares with `GitService.FormatBranchChanges`. The two classes differ in where their settings come from:

- `GitService` reads `copilotUtils.git.defaultBranch` and `copilotUtils.git.maxLineCount` through `configService`;
- `GitUtils` reads `copilotVariables.defaultBranch` and `copilotVariables.maxLineCount`.

A missing (falsy) branch argument is written `""`.

## Model

| member | source | states |
|---|---|---|
| `NameStatus.FormatGitStatus` | src/git/gitService.ts:105-126 | A status whose first character is A, M, D, R, C, U, ? or ! maps to that letter's fixed label. An empty status, or one starting with any other character, comes back unchanged. |
| `NameStatus.FirstCharacterDecides` | src/git/gitService.ts:106 | Two statuses with the same known first character get the same label (`R100` reads as `R`). |
| `NameStatus.ParseLine` | src/git/gitService.ts:162-171 | The status holds no tab. When the line has a tab, `status + "\t" + file` rebuilds the line, with later tabs kept in the file. Without a tab the whole line is the status and the file is empty. `statusText` is `formatGitStatus(status)`. |
| `NameStatus.ParseLines` | src/git/gitService.ts:162-172 | One change per line, in the same order. |
| `NameStatus.ParseDiff` | src/git/gitService.ts:154-172 | Blank output gives `[]`. Otherwise the changes are the parsed non-blank lines of the text, and the early return agrees with the filter. |
| `NameStatus.BlankDiffHasNoLines` | src/git/gitService.ts:154-156 | A blank text has no non-blank line. |
| `NameStatus.NonBlankLinesMembers` | src/git/gitService.ts:161 | Every kept line is a line of the text and is not blank. |
| `NameStatus.NonBlankLines` | src/git/gitService.ts:160-161 | `filter((line) => line.trim() !== '')` keeps at most the lines it is given. |
| `NameStatus.NonBlankLinesKept` | src/git/gitService.ts:160-161 | Every line is kept exactly when no line is blank. |
| `NameStatus.NonBlankLinesAppend` | src/git/gitService.ts:159-161 | The filter distributes over concatenation, so kept lines stay in input order. |
| `GitHost.GetGit` | src/git/gitService.ts:30-46 | `getGit` succeeds exactly for an open repository. Otherwise it fails with "No workspace folder found" or "Not a Git repository". |
| `GitHost.TextSetting` | src/config/configService.ts:29-32 | `config.get<string>(key, fallback)`: the stored value when the key is set, the fallback otherwise. |
| `GitHost.NumberSetting` | src/config/configService.ts:29-32 | `config.get<number>(key, fallback)`: the stored value when the key is set, the fallback otherwise. |
| `GitHost.HeadBranchCapture` | src/git/gitService.ts:88-89 | The capture exists exactly when `HEAD branch: ` followed by a non-newline occurs somewhere. It is the non-empty rest of the line after the leftmost such occurrence and holds no newline. |
| `GitHost.CaptureIncludesLabel` | src/git/gitService.ts:87-89 | Whenever the pattern matches, the `includes('HEAD branch:')` guard holds. |
| `GitHost.FromRepository` | src/git/gitService.ts:70-97 | `main` if listed, else `master` if listed, else the trimmed remote HEAD branch when the remote text has one, else the error "Could not determine main branch". |
| `GitService.CurrentBranch` | src/git/gitService.ts:52-56 | The checked-out branch of an open repository, else the error `getGit` throws. |
| `GitService.MainBranch` | src/git/gitService.ts:62-98 | A non-empty configured name wins without consulting git. Then `getGit`'s error, `main`, `master`, and the repository fallback follow, in that order. |
| `GitService.SourceBranch` | src/git/gitService.ts:141 | `initialSourceBranch \|\| getCurrentBranch()`: a given branch is used as is; a missing one is the current branch, or `getGit`'s error. |
| `GitService.TargetBranch` | src/git/gitService.ts:144 | `initialTargetBranch \|\| getMainBranch()`: a given branch is used as is; a missing one is the configured name when set, otherwise the main-branch resolution. |
| `GitService.DefaultBranch` | src/config/configService.ts:78-80 | `git.defaultBranch` of the `copilotUtils` settings, `""` when unset. |
| `GitService.MaxLineCount` | src/config/configService.ts:86-88 | `git.maxLineCount` of the `copilotUtils` settings, 100 when unset. |
| `GitService.BranchChanges` | src/git/gitService.ts:134-173 | Without a repository the result is `getGit`'s error. An error in defaulting the source or the target branch is the result. Equal defaulted branches give `[]`. For different ones the result succeeds exactly when the diff of `target...source` does, is then its parsed non-blank lines, and otherwise is the diff's error. |
| `GitService.SourceDefaultsToCurrent` | src/git/gitService.ts:141 | A missing source branch behaves as the current branch. |
| `GitService.TargetDefaultsToMain` | src/git/gitService.ts:144 | A missing target behaves as the main branch, or fails with its error. |
| `GitService.FormatBranchChanges` | src/git/gitService.ts:179-247 | Every error becomes "Error getting branch changes: <message>". Current equal to main gives "Currently on <main> branch. No changes to compare.". No changes gives "No file changes detected between <current> and <main>". Otherwise the result is the grouped, truncated report. |
| `GitService.FormatWithSettings` | src/config/configService.ts:78-88 | With the default branch and line limit read from the `copilotUtils` settings, the five outcomes of `formatBranchChanges` follow: the current-branch error, the main-branch error, "Currently on <main> branch. No changes to compare.", the changes error, "No file changes detected between <current> and <main>", or the report. |
| `GitUtils.GetMainBranch` | src/gitUtils.ts:43-85 | The same priority chain as `GitService.MainBranch`, with the name read from `copilotVariables.defaultBranch`. |
| `GitUtils.DefaultBranch` | src/gitUtils.ts:45-46 | `copilotVariables.defaultBranch`, `""` when unset. |
| `GitUtils.GetBranchChanges` | src/gitUtils.ts:112-160 | Without a repository the result is `getGit`'s error. Equal branches give `[]`. For two given, different branches the result succeeds exactly when the diff does, and is then its parse and otherwise the diff's own error. |
| `GitUtils.MissingBranchesDefault` | src/gitUtils.ts:123-131 | A missing source is the current branch. A missing target is the main branch, or the main branch's error. |
| `GitUtils.MaxLineCount` | src/gitUtils.ts:192-193 | The limit is 100 when `copilotVariables.maxLineCount` is unset. |
| `GitUtils.FormatBranchChanges` | src/gitUtils.ts:163-232 | The same fixed messages, error text and report as `GitService`, with the `copilotVariables` settings. |
| `BranchReport.AddToExisting` | src/git/gitService.ts:200 | Pushing a file under an existing label appends it to that entry only. |
| `BranchReport.AddToNew` | src/git/gitService.ts:197-200 | A new label becomes a new last entry holding the one file. |
| `BranchReport.AddToSize` | src/git/gitService.ts:196-202 | One step of the `reduce` (`AddTo`) adds exactly one file to the record; with `GroupedSize` this fixes the size of `Grouped`. |
| `BranchReport.PushNew` | src/git/gitService.ts:197-200 | The record and its key order keep describing the entries after a new label is created. |
| `BranchReport.PushExisting` | src/git/gitService.ts:200 | The record and its key order keep describing the entries after a push onto an existing label. |
| `BranchReport.GroupByLabel` | src/git/gitService.ts:196-202 | The step-by-step `reduce` yields exactly the entries `Grouped(changes)`, in key-creation order. |
| `BranchReport.GroupedStatuses` | src/git/gitService.ts:196-202 | There is one entry per distinct label, in the order each label first appears, with no label twice. |
| `BranchReport.GroupedFiles` | src/git/gitService.ts:200 | Each entry lists exactly the files with its label, in input order, and is never empty. |
| `BranchReport.GroupedSize` | src/git/gitService.ts:196-202 | The entries together hold every change once: as many files as changes. |
| `BranchReport.DedupMembers` | src/git/gitService.ts:197-199 | First-appearance order lists each label once, and exactly the labels present. |
| `BranchReport.Render` | src/git/gitService.ts:213-231 | The layout never shows more file lines than the budget or than there are files. |
| `BranchReport.RenderFits` | src/git/gitService.ts:213-231 | A group that fits is shown whole, and the rest is laid out with the budget left over. |
| `BranchReport.RenderCut` | src/git/gitService.ts:216-228 | The first group that does not fit uses up the budget and ends the layout, marking it truncated. |
| `BranchReport.RenderShownCount` | src/git/gitService.ts:216-224 | The number of file lines shown is `min(budget, number of files)`. |
| `BranchReport.RenderItems` | src/git/gitService.ts:213-224 | The file lines shown are the first files of the groups, in group order and file order. |
| `BranchReport.RenderTruncated` | src/git/gitService.ts:217-219 | The limit is reached exactly when the groups hold more files than the budget. |
| `BranchReport.RenderHeaders` | src/git/gitService.ts:213-214 | Group k gets a header exactly when the groups before it hold no more files than the budget. So a group reached with the budget just used up is still announced, with no file under it. Each header shows the group's full size. |
| `BranchReport.TruncationSuffix` | src/git/gitService.ts:233-238 | For a non-empty change list the suffix appears exactly when there are more changes than `maxLineCount`. It then counts `changes.length - max(maxLineCount, 0)` hidden changes, which is positive: all of them when the limit is negative. |
| `BranchReport.Untrimmed` | src/git/gitService.ts:205-238 | The report before `trim` (`ReportText` is its `trim`) begins with "Changes between <current> and <main>:" and two newlines. |
| `BranchReport.ReportTruncatedText` | src/git/gitService.ts:233-238 | Past a non-negative limit the untrimmed report is the intro, the body and the suffix with `changes.length - maxLineCount`. |
| `BranchReport.ReportWithSuffix` | src/git/gitService.ts:233-240 | Past a non-negative limit, `trim` leaves the report as the intro, the body and the suffix. |
| `BranchReport.ReportWithoutSuffix` | src/git/gitService.ts:210-240 | Within the limit every change is listed and no suffix is added. |
| `BranchReport.TrimKeeps` | src/git/gitService.ts:240 | Text that starts with `C` and ends with `)` is unchanged by `trim`. |
| `BranchReport.TextAppend` | src/git/gitService.ts:214-230 | The text of two line lists in a row is the two texts in a row. |
| `BranchReport.BlockText` | src/git/gitService.ts:214-230 | One group contributes its header, its file lines and, if it fit, a blank line. |
| `BranchReport.AppendFiles` | src/git/gitService.ts:216-224 | The inner loop sets `reachedLimit` exactly when more files remain than the budget left. It appends the first files that fit and counts them in `totalLines`. |
| `BranchReport.AppendGroup` | src/git/gitService.ts:213-231 | One turn of the outer loop either ends the layout (limit reached) or emits a whole group, after which the blank line and the rest of the layout follow. |
| `BranchReport.RenderGroups` | src/git/gitService.ts:210-231 | The outer loop produces the intro followed by the layout's text, its shown-line count and its truncation flag. |
| `BranchReport.BuildReport` | src/git/gitService.ts:195-240 | The grouping, the loops, the suffix and `trim` yield `ReportText`. |
| `JsString.TrimEmptyIffBlank` | src/git/gitService.ts:154 | `trim()` is empty exactly for whitespace-only text. |
| `JsString.TrimStartSpec` | src/git/gitService.ts:240 | The leading whitespace is dropped and the rest kept. |
| `JsString.TrimEndSpec` | src/git/gitService.ts:240 | The trailing whitespace is dropped and the rest kept. |
| `JsString.TrimUnpadded` | src/git/gitService.ts:240 | Text with no whitespace at either end is unchanged by `trim()`. |
| `JsString.Split` | src/git/gitService.ts:163 | There is at least one part and no part holds the separator. Joining the parts gives the text back. There is one part exactly when the separator is absent. |
| `JsString.SplitBlank` | src/git/gitService.ts:160 | Splitting a blank text gives only blank lines. |
| `JsString.IndexOf` | src/git/gitService.ts:87 | `indexOf`, behind `includes('HEAD branch:')` and the search of `replace`, finds an occurrence exactly when one exists, and it is the first. |
| `JsString.ReplaceFirstAt` | src/variables/variableService.ts:160 | `replace` with a string pattern splices the value in at the first occurrence and keeps the rest. |
| `JsString.ReplaceFirstAbsent` | src/variables/variableService.ts:160 | Without an occurrence `replace` returns the text. |
| `JsString.LowerCase` | src/variables/variableService.ts:65 | The length is kept, and every ASCII capital is replaced by its small letter. |
| `JsString.LowerCaseIdempotent` | src/variables/variableService.ts:76 | Lower-casing a lower-cased key changes nothing, so lookups hit registered keys. |
| `JsString.ParseNatToString` | scripts/create-release.js:79 | `Number` of the decimal text of n is n, for n up to `Number.MAX_SAFE_INTEGER`. |
| `JsString.ToStringParseNat` | scripts/create-release.js:79 | `String(Number(d))` is `d` for digits without a leading zero that denote at most `Number.MAX_SAFE_INTEGER`. |
| `Registry.SetKeepsOrdered` | src/variables/variableService.ts:65 | `Map.set` with a lower-cased key keeps the key list duplicate-free and lower-cased. An existing key keeps its place; a new key goes last. |
| `Substitution.RunEndSpec` | src/variables/variableService.ts:144 | The greedy `+` takes a maximal run of name characters. |
| `Substitution.TokenAt` | src/variables/variableService.ts:144 | A match is `#` and at least one name character, running to the end of the run. |
| `Substitution.TokenAtSpec` | src/variables/variableService.ts:144 | The match is the text at its start and is not followed by a name character. |
| `Substitution.StartsDisjoint` | src/variables/variableService.ts:147 | The matches of the global pattern do not overlap, and each ends before any later one starts. |
| `Substitution.Matches` | src/variables/variableService.ts:147 | Every match is a whole reference. |
| `Substitution.MatchesFromStarts` | src/variables/variableService.ts:147 | The matches are the texts at the scan's start positions. |
| `Substitution.TokensAt` | src/variables/variableService.ts:147 | The texts at the given starts, one per start, in order. |
| `Substitution.MatchesOccur` | src/variables/variableService.ts:147 | The k-th match occurs at the k-th start and is not followed by a name character. |
| `Substitution.StartsFromComplete` | src/variables/variableService.ts:144-147 | The scan starts a match at exactly the positions holding `#` followed by a name character. |
| `Substitution.MatchesAreReferences` | src/variables/variableService.ts:144-147 | Position i starts a match exactly when a reference starts there. |
| `Substitution.NoMatchIffNoReference` | src/variables/variableService.ts:147-151 | `match` gives `null` exactly when no `#` is followed by a name character. |
| `Substitution.Name` | src/variables/variableService.ts:155 | `substring(1)` drops exactly the `#`: the match is `#` followed by the name. |
| `Substitution.ValueOf` | src/variables/variableService.ts:109-122 | No value for an unknown lower-cased id, the returned value for a handler that returns, and "Error retrieving #<id as given>: <message>" for one that throws. |
| `Substitution.ValueDollarFree` | src/variables/variableService.ts:156-160 | When no handler produces a `$`, no value inserted by `replace` holds one. |
| `Substitution.Resolved` | src/copilotVariableService.ts:58-66 | The number of `replace` calls is at most the number of matches. |
| `Substitution.NoneResolved` | src/copilotVariableService.ts:62-65 | No `replace` call happens exactly when no match's lower-cased name is registered. |
| `Substitution.RewriteStep` | src/variables/variableService.ts:154-162 | One turn of the loop replaces the first occurrence of the match when it has a value, skips it otherwise, and counts the replacement. |
| `Substitution.Rewrite` | src/variables/variableService.ts:154-162 | The replace loop over the matches, left to right; when no match has a value it returns the text it started from. |
| `Substitution.Processed` | src/copilotVariableService.ts:46-69 | What `processText` returns for a known text: the loop over its matches, and the text itself when no `replace` call happens. |
| `Substitution.NoReferenceUnchanged` | src/variables/variableService.ts:147-151 | Text with no reference is returned unchanged. |
| `Substitution.NothingRegisteredUnchanged` | src/variables/variableService.ts:154-162 | With nothing registered the output equals the input. |
| `Substitution.FirstOccurrenceInsideLongerReference` | src/variables/variableService.ts:160 | As written, with only `a` registered, `"#ab #a"` becomes `"Xb #a"`. The `#a` inside `#ab` is replaced and the real `#a` is left. |
| `Substitution.ExampleRewrite` | src/variables/variableService.ts:154-162 | The loop over `#ab`, `#a` skips the first match and replaces the first `#a` in the text. |
| `Substitution.ExampleReplace` | src/variables/variableService.ts:160 | `"#ab #a".replace("#a", "X")` is `"Xb #a"`. |
| `Substitution.ExampleMatches` | src/variables/variableService.ts:147 | The matches of `"#ab #a"` are `#ab` and `#a`. |
| `Substitution.ExpandFromShift` | src/variables/variableService.ts:154-162 | The intended substitution only looks ahead, so a prefix does not change how the rest expands. |
| `Substitution.ExpandPlain` | src/variables/variableService.ts:154-162 | Text without a reference expands to itself under the intended substitution. |
| `Substitution.WithoutReferenceExpandsToItself` | src/variables/variableService.ts:147-151 | The intended substitution `Expand` leaves text without a reference as it is, as the source does when `match` finds nothing. |
| `Substitution.ReplacedWhereItStands` | src/variables/variableService.ts:154-162 | Intended behaviour: in `p + t + q`, where p holds no reference and t is a whole reference, t is replaced in place by its value (or kept), and p and the expansion of q are untouched. |
| `Substitution.ExpandLongerReference` | src/variables/variableService.ts:160 | Under the intended substitution `"#ab #a"` becomes `"#ab X"`. |
| `Variables.VariableService.RegisterVariable` | src/variables/variableService.ts:64-68 | The handler is stored under the lower-cased id and replaces one registered under an id differing only in case. The id is then known. Every id with another lower-cased key keeps its handler. The key order follows `Map.set`. |
| `Variables.VariableService.HasVariable` | src/variables/variableService.ts:75-77 | True exactly when `getVariable` finds a handler, whatever the case of the id. |
| `Variables.VariableService.GetVariable` | src/variables/variableService.ts:100-102 | The handler stored under the lower-cased id, if any. |
| `Variables.VariableService.GetVariableIds` | src/variables/variableService.ts:91-93 | Every registered key exactly once. |
| `Variables.VariableService.GetVariables` | src/variables/variableService.ts:83-85 | The handlers in key order, one per id, each under its own lower-cased id. |
| `Variables.VariableService.GetVariableValue` | src/variables/variableService.ts:109-122 | `undefined` for an unknown id, the handler's value, or "Error retrieving #<id>: <message>". This agrees with `ValueOf` over the registered outcomes. |
| `Variables.VariableService.ProcessText` | src/variables/variableService.ts:129-173 | A non-empty argument is processed. An empty one falls back to the entered text, and an empty entry gives `""`. The result is the as-written replace loop over the matches. |
| `Variables.RegisterAndRetrieve` | src/test/extension.test.ts:69-84 | After registering `test-variable` it is known, its value is `test-value`, and it is among the listed variables. |
| `Variables.RegisterTwiceInOtherCase` | src/variables/variableService.ts:64-65 | Two ids differing only in case leave one key, and the second handler is the one found. |
| `CopilotVariables.CopilotVariableService.RegisterVariable` | src/copilotVariableService.ts:15-19 | The handler is stored under the lower-cased name, last write wins, and other names keep their presence and value. The key order follows `Map.set`. |
| `CopilotVariables.CopilotVariableService.HasVariable` | src/copilotVariableService.ts:22-24 | True exactly when a value is found for the name in any case. |
| `CopilotVariables.CopilotVariableService.GetVariableNames` | src/copilotVariableService.ts:27-29 | Every registered name once, all lower-cased. |
| `CopilotVariables.CopilotVariableService.GetVariableValue` | src/copilotVariableService.ts:32-43 | `undefined` for an unknown name, the handler's result, or "Error retrieving #<name>: <message>" when it throws. |
| `CopilotVariables.CopilotVariableService.ProcessText` | src/copilotVariableService.ts:46-69 | The result is the replace loop over the matches. It makes one replacement per match with a value, so at most one per match. With no replacement the text comes back unchanged. |
| `Release.ParseVersionType` | scripts/create-release.js:34-41 | A missing or empty argument and `patch` select a patch bump, and `minor` and `major` select theirs. Anything else is the error that makes the script exit with status 1. |
| `Release.Bumped` | scripts/create-release.js:82-95 | For fields below `Number.MAX_SAFE_INTEGER`, the bumped version is strictly newer in (major, minor, patch) order and its fields stay in the exact range. |
| `Release.BumpVersion` | scripts/create-release.js:80-95 | For fields below `Number.MAX_SAFE_INTEGER`, a major bump gives (M+1, 0, 0), a minor bump (M, m+1, 0), and a patch bump (M, m, p+1). |
| `Release.TagName` | scripts/create-release.js:115 | The tag starts with `v` and is at least `v0.0.0` long. |
| `Release.ParseFormat` | scripts/create-release.js:97 | `M.m.p` written to `package.json` reads back, through `split('.').map(Number)`, as the same version, for fields up to `Number.MAX_SAFE_INTEGER`. |
| `Release.FormatVersion` | scripts/create-release.js:97 | `${major}.${minor}.${patch}` splits on dots into exactly the three decimal texts of the numbers, for fields up to `Number.MAX_SAFE_INTEGER`. |
| `Release.FormatParse` | scripts/create-release.js:79-80 | A version of three canonical decimal fields, read by `split('.').map(Number)` (`ParseVersion`) and written back, is the same text, when each field denotes at most `Number.MAX_SAFE_INTEGER`. |
| `Release.NewTagDiffers` | scripts/create-release.js:115 | For fields below `Number.MAX_SAFE_INTEGER`, every bump yields a tag different from the current version's tag. |
| `Release.CreateRelease` | scripts/create-release.js:79-115 | For a version whose fields are below `Number.MAX_SAFE_INTEGER`, an invalid version type exits with status 1 and leaves `package.json` alone. Otherwise the bumped version is written back and read back as the bump, and the tag is `v` followed by that version. |

## Left out

- The VS Code host is not modelled:
  - command registration, event emitters and disposables;
  - the status bar, the clipboard and the information and error messages;
  - console logging.
  - `src/extension.ts`, `src/utils/statusBarManager.ts`, `src/lmTools/branchChangesTool.ts` and `src/variables/branchChangesVariable.ts` are not part of this model.
- `simple-git`, the workspace folders and `git.branch()`/`git.remote()`/`git.diff()` are inputs (`Host`, `Repo`), not calls.
  - A failure of `git.branch()` itself is not modelled.
  - A failing or non-string `git remote show origin` is `remoteShow == None`.
- The `GitUtils` guard `if (!gitResult)` is not modelled because it can never fire: `getGit` either throws or returns a value.
- `src/config/configService.ts` is not part of this model beyond its two keys and their defaults. A setting holding a non-number or a non-string is not modelled.
- The input box of `VariableService.processText` is the `entered` parameter: the text typed, or `""` when cancelled.
- Asynchrony is not modelled. Every `await` is taken as sequential, and a handler is the fixed `Outcome` of its call.
- An `Error` thrown by a handler is represented by its message. Any other thrown value is represented by the text `String(value)` gives, which is taken as given.
- `Substitution.Rewrite`, `Substitution.Processed`, `Substitution.RewriteStep`, `Variables.VariableService.ProcessText` and `CopilotVariables.CopilotVariableService.ProcessText` require that no handler value holds a `$`.
  - The `$&`, `$$` and `$n` replacement patterns of `String.prototype.replace` are not modelled.
  - With a `$` in a value the source may insert something other than the value.
- `JsString.LowerCase` folds only ASCII letters. Unicode case mapping is not modelled.
- Strings are sequences of characters. UTF-16 surrogate pairs are not modelled.
- `Release.CreateRelease` requires the version in `package.json` to split on dots into at least three pieces, the first three of decimal digits; further pieces are ignored, as the destructuring `let [major, minor, patch]` ignores them.
  - It also requires every field to be below `Number.MAX_SAFE_INTEGER` (2^53 - 1); see the next line.
  - An empty field reads as 0, like `Number('')`.
  - `Number` of other text (signs, spaces, `NaN`) is not modelled.
- JavaScript numbers are doubles, and the model covers only the range where they count exactly. Above 2^53, `++` may leave a field unchanged and `Number(text)` rounds; from 1e21 up, `String(n)` uses exponent notation. None of this is modelled, so these members promise nothing there:
  - `Release.Bumped`, `Release.BumpVersion`, `Release.NewTagDiffers` and `Release.CreateRelease` require every field below `Number.MAX_SAFE_INTEGER`. With a larger field the source can tag the old version again.
  - `Release.FormatVersion`, `Release.TagName` and `Release.ParseFormat` require every field at most `Number.MAX_SAFE_INTEGER`.
  - `Release.FormatParse` requires every field text to denote at most `Number.MAX_SAFE_INTEGER`, and a version text is accepted only under the same bound.
  - `JsString.ParseNatToString` and `JsString.ToStringParseNat` require the number to be at most `Number.MAX_SAFE_INTEGER`.
- `--push`, the git-status check, `execSync`, the file read and write, and the git commit, tag and push steps of the release script are not modelled.
- `maxLineCount` is an integer. A fractional limit is not modelled.
- The grouping record is modelled as a JavaScript `Map` that keeps key-creation order.
  - A real object lists integer-like keys such as `"1"` first, in numeric order.
  - A label that names an `Object.prototype` member, such as `constructor`, would not start from an empty entry.
  - `formatGitStatus` returns unknown statuses unchanged, so such labels can in principle reach the record. Neither effect is modelled.

## Findings

| source | as written | input that shows it | evidently intended | confidence | as-written member | corrected member |
|---|---|---|---|---|---|---|
| src/variables/variableService.ts:160 (likewise src/copilotVariableService.ts:64) | each match with a value replaces the first occurrence of its text anywhere in the current result | with only `a` registered (value `X`), `"#ab #a"` becomes `"Xb #a"`: the `#a` inside the unregistered `#ab` is replaced and the real reference `#a` is left | every reference replaced where it stands, so `"#ab #a"` becomes `"#ab X"` | high, derived by proof, not executed | `Substitution.FirstOccurrenceInsideLongerReference` | `Substitution.ReplacedWhereItStands` |

The same first-occurrence search can also hit text that an earlier value put into the result. For example, if `a` yields `#b`, then `"#a #b"` becomes `"Y #b"` rather than `"#b Y"`. The classes' `ProcessText` methods keep the behaviour as written, since that is what the extension does. `Substitution.Expand` is the intended substitution, proved to replace each reference in place (`ReplacedWhereItStands`) and shown on the same input (`ExpandLongerReference`).
