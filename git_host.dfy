/**
 * What the git client reports, taken as input: whether a repository is open,
 * the current branch, the local branch list, the output of
 * `git remote show origin` and the result of `git diff --name-status`.
 * Also the default-branch fallback both git classes share, and the
 * `HEAD branch: ([^\n]+)` extraction from the remote output.
 */
module GitHost {
  import opened Wrappers
  import opened JsString

  /**
   * A repository as `simple-git` answers for it. `remoteShow` is `None` when
   * `git remote show origin` fails or answers no text; `diff(target, source)`
   * is the result of `git diff target...source --name-status`.
   */
  datatype Repo = Repo(
    current: string,
    branches: seq<string>,
    remoteShow: Option<string>,
    diff: (string, string) -> Result<string>)

  /** The workspace as the extension host presents it. */
  datatype Host = NoWorkspace | NotARepository | Repository(repo: Repo)

  /** The user settings the extension reads, by full key: text values and number values. */
  datatype Settings = Settings(text: map<string, string>, number: map<string, int>)

  /** `config.get<string>(key, fallback)`: the stored value, or the fallback when the key is unset. */
  function TextSetting(settings: Settings, key: string, fallback: string): (r: string)
    ensures key in settings.text ==> r == settings.text[key]
    ensures key !in settings.text ==> r == fallback
  {
    if key in settings.text then settings.text[key] else fallback
  }

  /** `config.get<number>(key, fallback)`. */
  function NumberSetting(settings: Settings, key: string, fallback: int): (n: int)
    ensures key in settings.number ==> n == settings.number[key]
    ensures key !in settings.number ==> n == fallback
  {
    if key in settings.number then settings.number[key] else fallback
  }

  /** `getGit`: the repository of the first workspace folder, or the error it throws. */
  function GetGit(host: Host): (r: Result<Repo>)
    ensures r.Ok? <==> host.Repository?
    ensures r.Ok? ==> r.value == host.repo
    ensures host.NoWorkspace? ==> r == Err("No workspace folder found")
    ensures host.NotARepository? ==> r == Err("Not a Git repository")
  {
    match host
    case NoWorkspace => Err("No workspace folder found")
    case NotARepository => Err("Not a Git repository")
    case Repository(repo) => Ok(repo)
  }

  const HeadPrefix: string := "HEAD branch: "

  /** `/HEAD branch: ([^\n]+)/` matches at index `i` of `s`. */
  predicate HeadMatchAt(s: string, i: nat) {
    i + |HeadPrefix| < |s| && s[i..i + |HeadPrefix|] == HeadPrefix && s[i + |HeadPrefix|] != '\n'
  }

  /** The end of the run of non-newline characters that starts at `j`. */
  function LineEnd(s: string, j: nat): (e: nat)
    requires j <= |s|
    ensures j <= e <= |s| && (e == |s| || s[e] == '\n')
    ensures forall k :: j <= k < e ==> s[k] != '\n'
    decreases |s| - j
  {
    if j == |s| || s[j] == '\n' then j else LineEnd(s, j + 1)
  }

  /** The leftmost index at or after `from` where the pattern matches. */
  function HeadMatchFrom(s: string, from: nat): (r: Option<nat>)
    ensures r.Some? ==> from <= r.value && HeadMatchAt(s, r.value)
    ensures r.Some? ==> forall j :: from <= j < r.value ==> !HeadMatchAt(s, j)
    ensures r.None? ==> forall j :: from <= j ==> !HeadMatchAt(s, j)
    decreases |s| - from
  {
    if from + |HeadPrefix| >= |s| then None
    else if HeadMatchAt(s, from) then Some(from)
    else HeadMatchFrom(s, from + 1)
  }

  /**
   * `match[1]` of `s.match(/HEAD branch: ([^\n]+)/)`: the rest of the line
   * after the leftmost `HEAD branch: ` that is followed by a character other
   * than a newline; `None` when the pattern does not match.
   */
  function HeadBranchCapture(s: string): (r: Option<string>)
    ensures r.Some? <==> exists i :: HeadMatchAt(s, i)
    ensures r.Some? ==> r.value != [] && '\n' !in r.value
    ensures r.Some? ==> exists i: nat :: HeadMatchAt(s, i) && (forall j: nat :: j < i ==> !HeadMatchAt(s, j))
                               && r.value == s[i + |HeadPrefix|..LineEnd(s, i + |HeadPrefix|)]
  {
    match HeadMatchFrom(s, 0)
    case None => None
    case Some(i) =>
      var c := s[i + |HeadPrefix|..LineEnd(s, i + |HeadPrefix|)];
      assert c[0] == s[i + |HeadPrefix|];
      assert forall k :: 0 <= k < |c| ==> c[k] == s[i + |HeadPrefix| + k];
      Some(c)
  }

  /** The `includes('HEAD branch:')` guard lets every match through. */
  lemma CaptureIncludesLabel(s: string)
    ensures HeadBranchCapture(s).Some? ==> Includes(s, "HEAD branch:")
  {
    var m := HeadMatchFrom(s, 0);
    if m.Some? {
      var i := m.value;
      var tag := "HEAD branch:";
      assert s[i..i + |HeadPrefix|] == HeadPrefix;
      assert s[i..i + 12] == tag by {
        assert s[i..i + 12] == s[i..i + |HeadPrefix|][..12];
      }
      assert OccursAt(s, tag, i);
    }
  }

  /**
   * What `getMainBranch` does once it holds a repository: `main` if it is a
   * local branch, else `master`, else the trimmed remote HEAD branch, else the
   * error "Could not determine main branch".
   */
  function FromRepository(repo: Repo): (r: Result<string>)
    ensures "main" in repo.branches ==> r == Ok("main")
    ensures "main" !in repo.branches && "master" in repo.branches ==> r == Ok("master")
    ensures "main" !in repo.branches && "master" !in repo.branches ==>
              (r.Ok? <==> repo.remoteShow.Some? && HeadBranchCapture(repo.remoteShow.value).Some?)
    ensures "main" !in repo.branches && "master" !in repo.branches && r.Ok? ==>
              r.value == Trim(HeadBranchCapture(repo.remoteShow.value).value)
    ensures r.Err? ==> r.error == "Could not determine main branch"
  {
    if "main" in repo.branches then Ok("main")
    else if "master" in repo.branches then Ok("master")
    else if repo.remoteShow.Some? && Includes(repo.remoteShow.value, "HEAD branch:") then
      match HeadBranchCapture(repo.remoteShow.value)
      case Some(name) => Ok(Trim(name))
      case None => Err("Could not determine main branch")
    else
      if repo.remoteShow.Some? then
        CaptureIncludesLabel(repo.remoteShow.value);
        Err("Could not determine main branch")
      else
        Err("Could not determine main branch")
  }
}
