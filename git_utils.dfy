/**
 * The static `GitUtils` class: the same flow as `GitService`, line for line,
 * except that it reads its settings from the `copilotVariables` section and
 * checks a `getGit` result that is never undefined. It therefore reuses the
 * `GitService` definitions and supplies only its own settings.
 */
module GitUtils {
  import opened Wrappers
  import opened GitHost
  import opened NameStatus
  import opened BranchReport
  import GitService

  const DefaultBranchKey: string := "copilotVariables.defaultBranch"
  const MaxLineCountKey: string := "copilotVariables.maxLineCount"

  /** `config.get<string>('defaultBranch', '')`. */
  function DefaultBranch(settings: Settings): (r: string)
    ensures DefaultBranchKey !in settings.text ==> r == ""
    ensures DefaultBranchKey in settings.text ==> r == settings.text[DefaultBranchKey]
  {
    TextSetting(settings, DefaultBranchKey, "")
  }

  /** `config.get<number>('maxLineCount', 100)`. */
  function MaxLineCount(settings: Settings): (n: int)
    ensures MaxLineCountKey !in settings.number ==> n == 100
    ensures MaxLineCountKey in settings.number ==> n == settings.number[MaxLineCountKey]
  {
    NumberSetting(settings, MaxLineCountKey, 100)
  }

  /**
   * `GitUtils.getMainBranch`: the `copilotVariables.defaultBranch` setting
   * when it is non-empty; otherwise `getGit` must succeed, and then `main`,
   * `master`, the remote HEAD branch and the error follow in that order.
   */
  function GetMainBranch(host: Host, settings: Settings): (r: Result<string>)
    ensures DefaultBranch(settings) != "" ==> r == Ok(DefaultBranch(settings))
    ensures DefaultBranch(settings) == "" && !host.Repository? ==> r == Err(GetGit(host).error)
    ensures DefaultBranch(settings) == "" && host.Repository? ==> r == FromRepository(host.repo)
  {
    GitService.MainBranch(host, DefaultBranch(settings))
  }

  /**
   * `GitUtils.getBranchChanges(sourceBranch, targetBranch)`, `""` standing
   * for a missing argument: with both branches given and different, the
   * diff of `target...source` parsed line by line; equal branches give no
   * change.
   */
  function GetBranchChanges(host: Host, settings: Settings, source: string, target: string): (r: Result<seq<GitChange>>)
    ensures !host.Repository? ==> r == Err(GetGit(host).error)
    ensures host.Repository? && source != "" && source == target ==> r == Ok([])
    ensures host.Repository? && source != "" && target != "" && source != target ==>
              && (r.Ok? <==> host.repo.diff(target, source).Ok?)
              && (r.Ok? ==> r.value == ParseDiff(host.repo.diff(target, source).value))
              && (r.Err? ==> r.error == host.repo.diff(target, source).error)
  {
    GitService.BranchChanges(host, DefaultBranch(settings), source, target)
  }

  /** A missing source branch is the current branch, a missing target the main branch (or its error). */
  lemma MissingBranchesDefault(host: Host, settings: Settings, source: string, target: string)
    requires host.Repository?
    ensures GetBranchChanges(host, settings, "", target) == GetBranchChanges(host, settings, host.repo.current, target)
    ensures GetMainBranch(host, settings).Ok? ==>
              GetBranchChanges(host, settings, source, "") == GetBranchChanges(host, settings, source, GetMainBranch(host, settings).value)
    ensures GetMainBranch(host, settings).Err? ==>
              GetBranchChanges(host, settings, source, "") == Err(GetMainBranch(host, settings).error)
  {
    GitService.SourceDefaultsToCurrent(host, DefaultBranch(settings), target);
    GitService.TargetDefaultsToMain(host, DefaultBranch(settings), source);
  }

  /**
   * `GitUtils.formatBranchChanges`: the error, same-branch and no-change
   * messages of `GitService`, and otherwise the report with the limit read
   * from `copilotVariables.maxLineCount` (100 when unset).
   */
  method FormatBranchChanges(host: Host, settings: Settings) returns (text: string)
    ensures GitService.CurrentBranch(host).Err? ==> text == GitService.ErrorText(GitService.CurrentBranch(host).error)
    ensures GitService.CurrentBranch(host).Ok? && GitService.MainBranch(host, DefaultBranch(settings)).Err? ==>
              text == GitService.ErrorText(GitService.MainBranch(host, DefaultBranch(settings)).error)
    ensures GitService.CurrentBranch(host).Ok? && GitService.MainBranch(host, DefaultBranch(settings)).Ok? ==>
              var current := GitService.CurrentBranch(host).value;
              var main := GitService.MainBranch(host, DefaultBranch(settings)).value;
              var changes := GitService.BranchChanges(host, DefaultBranch(settings), current, main);
              && (current == main ==> text == GitService.SameBranchText(main))
              && (current != main && changes.Err? ==> text == GitService.ErrorText(changes.error))
              && (current != main && changes == Ok([]) ==> text == GitService.NoChangesText(current, main))
              && (current != main && changes.Ok? && changes.value != [] ==>
                    text == ReportText(current, main, changes.value, MaxLineCount(settings)))
  {
    text := GitService.FormatBranchChanges(host, DefaultBranch(settings), MaxLineCount(settings));
  }
}
