/**
 * The `GitService` flow: the current branch, the main branch, the changes
 * between two branches, and the text `formatBranchChanges` returns, with the
 * git client's answers taken from a `Host`.
 */
module GitService {
  import opened Wrappers
  import opened JsString
  import opened NameStatus
  import opened GitHost
  import opened BranchReport

  /** The settings `configService` reads, under the `copilotUtils` section, and their defaults. */
  const DefaultBranchKey: string := "copilotUtils.git.defaultBranch"
  const MaxLineCountKey: string := "copilotUtils.git.maxLineCount"
  const DefaultMaxLineCount: int := 100

  /** `getDefaultBranch`: `get<string>('git.defaultBranch', '')`. */
  function DefaultBranch(settings: Settings): (r: string)
    ensures DefaultBranchKey !in settings.text ==> r == ""
    ensures DefaultBranchKey in settings.text ==> r == settings.text[DefaultBranchKey]
  {
    TextSetting(settings, DefaultBranchKey, "")
  }

  /** `getMaxLineCount`: `get<number>('git.maxLineCount', 100)`. */
  function MaxLineCount(settings: Settings): (n: int)
    ensures MaxLineCountKey !in settings.number ==> n == 100
    ensures MaxLineCountKey in settings.number ==> n == settings.number[MaxLineCountKey]
  {
    NumberSetting(settings, MaxLineCountKey, DefaultMaxLineCount)
  }

  /** `getCurrentBranch`: the checked-out branch, or the error `getGit` throws. */
  function CurrentBranch(host: Host): (r: Result<string>)
    ensures r.Ok? <==> host.Repository?
    ensures r.Ok? ==> r.value == host.repo.current
    ensures r.Err? ==> r == Err(GetGit(host).error)
  {
    match GetGit(host)
    case Err(e) => Err(e)
    case Ok(repo) => Ok(repo.current)
  }

  /**
   * `getMainBranch`: a non-empty configured name wins without consulting git;
   * otherwise `getGit` must succeed, and then `main`, `master`, the remote
   * HEAD branch and the error follow in that order.
   */
  function MainBranch(host: Host, configured: string): (r: Result<string>)
    ensures configured != "" ==> r == Ok(configured)
    ensures configured == "" && !host.Repository? ==> r == Err(GetGit(host).error)
    ensures configured == "" && host.Repository? && "main" in host.repo.branches ==> r == Ok("main")
    ensures configured == "" && host.Repository? && "main" !in host.repo.branches && "master" in host.repo.branches ==>
              r == Ok("master")
    ensures configured == "" && host.Repository? && "main" !in host.repo.branches && "master" !in host.repo.branches ==>
              r == FromRepository(host.repo)
  {
    if configured != "" then Ok(configured)
    else
      match GetGit(host)
      case Err(e) => Err(e)
      case Ok(repo) => FromRepository(repo)
  }

  /** `initialSourceBranch || await this.getCurrentBranch()`. */
  function SourceBranch(host: Host, source: string): (r: Result<string>)
    ensures source != "" ==> r == Ok(source)
    ensures source == "" ==> r == CurrentBranch(host)
  {
    if source != "" then Ok(source) else CurrentBranch(host)
  }

  /** `initialTargetBranch || await this.getMainBranch()`. */
  function TargetBranch(host: Host, configured: string, target: string): (r: Result<string>)
    ensures target != "" ==> r == Ok(target)
    ensures target == "" ==> r == MainBranch(host, configured)
  {
    if target != "" then Ok(target) else MainBranch(host, configured)
  }

  /**
   * `getBranchChanges(source, target)`, with `""` standing for a missing
   * (falsy) argument: `getGit` first, then the defaults, then the diff of
   * `target...source` parsed line by line.
   */
  function BranchChanges(host: Host, configured: string, source: string, target: string): (r: Result<seq<GitChange>>)
    ensures !host.Repository? ==> r == Err(GetGit(host).error)
    ensures host.Repository? && source != "" && source == target ==> r == Ok([])
    ensures host.Repository? && SourceBranch(host, source).Err? ==> r == Err(SourceBranch(host, source).error)
    ensures host.Repository? && SourceBranch(host, source).Ok? && TargetBranch(host, configured, target).Err? ==>
              r == Err(TargetBranch(host, configured, target).error)
    ensures host.Repository? && SourceBranch(host, source).Ok? && TargetBranch(host, configured, target).Ok? ==>
              var src := SourceBranch(host, source).value;
              var tgt := TargetBranch(host, configured, target).value;
              && (src == tgt ==> r == Ok([]))
              && (src != tgt ==>
                    && (r.Ok? <==> host.repo.diff(tgt, src).Ok?)
                    && (r.Ok? ==> r.value == ParseDiff(host.repo.diff(tgt, src).value))
                    && (r.Err? ==> r.error == host.repo.diff(tgt, src).error))
    ensures r.Ok? && r.value != [] ==>
              && host.Repository?
              && SourceBranch(host, source).Ok?
              && TargetBranch(host, configured, target).Ok?
              && var src := SourceBranch(host, source).value;
                 var tgt := TargetBranch(host, configured, target).value;
                 && src != tgt
                 && host.repo.diff(tgt, src).Ok?
                 && r.value == ParseDiff(host.repo.diff(tgt, src).value)
                 && !IsBlank(host.repo.diff(tgt, src).value)
  {
    match GetGit(host)
    case Err(e) => Err(e)
    case Ok(repo) =>
      match SourceBranch(host, source)
      case Err(e) => Err(e)
      case Ok(src) =>
        match TargetBranch(host, configured, target)
        case Err(e) => Err(e)
        case Ok(tgt) =>
          if src == tgt then Ok([])
          else
            match repo.diff(tgt, src)
            case Err(e) => Err(e)
            case Ok(diff) => Ok(ParseDiff(diff))
  }

  /** A missing source branch is the current branch. */
  lemma SourceDefaultsToCurrent(host: Host, configured: string, target: string)
    requires host.Repository?
    ensures BranchChanges(host, configured, "", target) == BranchChanges(host, configured, host.repo.current, target)
  {
  }

  /** A missing target branch is the main branch, and a main branch that cannot be found is the error. */
  lemma TargetDefaultsToMain(host: Host, configured: string, source: string)
    requires host.Repository?
    ensures MainBranch(host, configured).Ok? ==>
              BranchChanges(host, configured, source, "") == BranchChanges(host, configured, source, MainBranch(host, configured).value)
    ensures MainBranch(host, configured).Err? ==>
              BranchChanges(host, configured, source, "") == Err(MainBranch(host, configured).error)
  {
  }

  function ErrorText(message: string): string {
    "Error getting branch changes: " + message
  }

  function SameBranchText(main: string): string {
    "Currently on " + main + " branch. No changes to compare."
  }

  function NoChangesText(current: string, main: string): string {
    "No file changes detected between " + current + " and " + main
  }

  /**
   * `formatBranchChanges` with the configured default branch and line limit:
   * every error becomes "Error getting branch changes: <message>", equal
   * branches and an empty change list give their fixed messages, and
   * otherwise the grouped, truncated report is returned.
   */
  method FormatBranchChanges(host: Host, configured: string, maxLineCount: int) returns (text: string)
    ensures CurrentBranch(host).Err? ==> text == ErrorText(CurrentBranch(host).error)
    ensures CurrentBranch(host).Ok? && MainBranch(host, configured).Err? ==>
              text == ErrorText(MainBranch(host, configured).error)
    ensures CurrentBranch(host).Ok? && MainBranch(host, configured).Ok? ==>
              var current := CurrentBranch(host).value;
              var main := MainBranch(host, configured).value;
              var changes := BranchChanges(host, configured, current, main);
              && (current == main ==> text == SameBranchText(main))
              && (current != main && changes.Err? ==> text == ErrorText(changes.error))
              && (current != main && changes == Ok([]) ==> text == NoChangesText(current, main))
              && (current != main && changes.Ok? && changes.value != [] ==>
                    text == ReportText(current, main, changes.value, maxLineCount))
  {
    var current := CurrentBranch(host);
    if current.Err? {
      return ErrorText(current.error);
    }
    var main := MainBranch(host, configured);
    if main.Err? {
      return ErrorText(main.error);
    }
    if current.value == main.value {
      return SameBranchText(main.value);
    }
    var changes := BranchChanges(host, configured, current.value, main.value);
    if changes.Err? {
      return ErrorText(changes.error);
    }
    if |changes.value| == 0 {
      return NoChangesText(current.value, main.value);
    }
    text := BuildReport(current.value, main.value, changes.value, maxLineCount);
  }

  /**
   * The entry point as the extension calls it: the default branch and the
   * line limit read from `copilotUtils.git` (`""` and 100 when unset).
   */
  method FormatWithSettings(host: Host, settings: Settings) returns (text: string)
    ensures CurrentBranch(host).Err? ==> text == ErrorText(CurrentBranch(host).error)
    ensures CurrentBranch(host).Ok? && MainBranch(host, DefaultBranch(settings)).Err? ==>
              text == ErrorText(MainBranch(host, DefaultBranch(settings)).error)
    ensures CurrentBranch(host).Ok? && MainBranch(host, DefaultBranch(settings)).Ok? ==>
              var current := CurrentBranch(host).value;
              var main := MainBranch(host, DefaultBranch(settings)).value;
              var changes := BranchChanges(host, DefaultBranch(settings), current, main);
              && (current == main ==> text == SameBranchText(main))
              && (current != main && changes.Err? ==> text == ErrorText(changes.error))
              && (current != main && changes == Ok([]) ==> text == NoChangesText(current, main))
              && (current != main && changes.Ok? && changes.value != [] ==>
                    text == ReportText(current, main, changes.value, MaxLineCount(settings)))
  {
    text := FormatBranchChanges(host, DefaultBranch(settings), MaxLineCount(settings));
  }
}
