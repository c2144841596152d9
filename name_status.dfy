/**
 * Status letters of `git diff --name-status` and the parser that turns its
 * output into change records (`formatGitStatus` and the parse chain of
 * `getBranchChanges`).
 */
module NameStatus {
  import opened JsString

  /** One changed file: the raw status field, the path and the readable label. */
  datatype GitChange = GitChange(status: string, file: string, statusText: string)

  /** The table of known status letters and their labels. */
  const StatusLabels: map<char, string> := map[
    'A' := "Added",
    'M' := "Modified",
    'D' := "Deleted",
    'R' := "Renamed",
    'C' := "Copied",
    'U' := "Updated but unmerged",
    '?' := "Untracked",
    '!' := "Ignored"
  ]

  /**
   * `formatGitStatus`: the label of the first character of the status; a
   * status that is empty or starts with any other character comes back as it is.
   */
  function FormatGitStatus(status: string): (r: string)
    ensures |status| > 0 && status[0] in StatusLabels ==> r == StatusLabels[status[0]]
    ensures (|status| == 0 || status[0] !in StatusLabels) ==> r == status
  {
    if |status| == 0 then status
    else match status[0]
      case 'A' => "Added"
      case 'M' => "Modified"
      case 'D' => "Deleted"
      case 'R' => "Renamed"
      case 'C' => "Copied"
      case 'U' => "Updated but unmerged"
      case '?' => "Untracked"
      case '!' => "Ignored"
      case _ => status
  }

  /** Only the first character decides the label: `R100` and `R` read alike. */
  lemma FirstCharacterDecides(s: string, t: string)
    requires |s| > 0 && |t| > 0 && s[0] == t[0] && s[0] in StatusLabels
    ensures FormatGitStatus(s) == FormatGitStatus(t)
  {
  }

  /**
   * One line of the diff: `const [status, ...fileParts] = line.split('\t')`,
   * with the file the remaining parts joined back with tabs. When the line has
   * a tab, status, tab and file rebuild it; otherwise the whole line is the
   * status and the file is empty.
   */
  function ParseLine(line: string): (c: GitChange)
    ensures '\t' !in c.status
    ensures '\t' in line ==> c.status + "\t" + c.file == line
    ensures '\t' !in line ==> c.status == line && c.file == ""
    ensures c.statusText == FormatGitStatus(c.status)
  {
    var parts := Split(line, '\t');
    var status := parts[0];
    var file := Join(parts[1..], '\t');
    assert |parts| > 1 ==> Join(parts, '\t') == parts[0] + "\t" + Join(parts[1..], '\t');
    GitChange(status, file, FormatGitStatus(status))
  }

  /** The non-blank lines of a text, in order (`split('\n').filter(line => line.trim() !== '')`). */
  function NonBlankLines(lines: seq<string>): (r: seq<string>)
    ensures |r| <= |lines|
  {
    if |lines| == 0 then []
    else (if Trim(lines[0]) != "" then [lines[0]] else []) + NonBlankLines(lines[1..])
  }

  /** The filter keeps only lines of the text, and only the ones that are not blank. */
  lemma {:induction false} NonBlankLinesMembers(lines: seq<string>)
    ensures forall k :: 0 <= k < |NonBlankLines(lines)| ==>
              NonBlankLines(lines)[k] in lines && !IsBlank(NonBlankLines(lines)[k])
  {
    if |lines| > 0 {
      TrimEmptyIffBlank(lines[0]);
      NonBlankLinesMembers(lines[1..]);
      var head := if Trim(lines[0]) != "" then [lines[0]] else [];
      var r := NonBlankLines(lines);
      forall k | 0 <= k < |r| ensures r[k] in lines && !IsBlank(r[k]) {
        if k >= |head| {
          assert r[k] == NonBlankLines(lines[1..])[k - |head|];
          assert lines[1..] <= lines[1..];
        }
      }
    }
  }

  /**
   * The parse section of `getBranchChanges`: blank output gives no change,
   * otherwise one change per non-blank line, in the order of the lines.
   */
  function ParseDiff(diff: string): (r: seq<GitChange>)
    ensures IsBlank(diff) ==> r == []
    ensures r == ParseLines(NonBlankLines(Split(diff, '\n')))
  {
    TrimEmptyIffBlank(diff);
    if diff == "" || Trim(diff) == "" then
      BlankDiffHasNoLines(diff);
      []
    else
      ParseLines(NonBlankLines(Split(diff, '\n')))
  }

  /** `.map(line => ...)`: one change per line, in the same order. */
  function ParseLines(lines: seq<string>): (r: seq<GitChange>)
    ensures |r| == |lines|
    ensures forall k :: 0 <= k < |r| ==> r[k] == ParseLine(lines[k])
  {
    seq(|lines|, k requires 0 <= k < |lines| => ParseLine(lines[k]))
  }

  /** The early return for blank output agrees with the filter: a blank text has no non-blank line. */
  lemma BlankDiffHasNoLines(diff: string)
    requires IsBlank(diff)
    ensures NonBlankLines(Split(diff, '\n')) == []
  {
    SplitBlank(diff, '\n');
    NoNonBlank(Split(diff, '\n'));
  }

  lemma {:induction false} NoNonBlank(lines: seq<string>)
    requires forall k :: 0 <= k < |lines| ==> IsBlank(lines[k])
    ensures NonBlankLines(lines) == []
  {
    if |lines| > 0 {
      TrimEmptyIffBlank(lines[0]);
      NoNonBlank(lines[1..]);
    }
  }

  /** A line that holds something besides whitespace is kept, and exactly once per occurrence. */
  lemma {:induction false} NonBlankLinesKept(lines: seq<string>)
    ensures |NonBlankLines(lines)| == |lines| <==> forall k :: 0 <= k < |lines| ==> !IsBlank(lines[k])
  {
    if |lines| > 0 {
      TrimEmptyIffBlank(lines[0]);
      NonBlankLinesKept(lines[1..]);
      if forall k :: 0 <= k < |lines| ==> !IsBlank(lines[k]) {
        assert forall k :: 0 <= k < |lines[1..]| ==> !IsBlank(lines[1..][k]) by {
          forall k | 0 <= k < |lines[1..]| ensures !IsBlank(lines[1..][k]) {
            assert lines[1..][k] == lines[k + 1];
          }
        }
      } else if !IsBlank(lines[0]) {
        var k :| 0 <= k < |lines| && IsBlank(lines[k]);
        assert IsBlank(lines[1..][k - 1]);
      }
    }
  }

  /** Filtering distributes over concatenation, so the kept lines stay in their input order. */
  lemma {:induction false} NonBlankLinesAppend(a: seq<string>, b: seq<string>)
    ensures NonBlankLines(a + b) == NonBlankLines(a) + NonBlankLines(b)
  {
    if |a| > 0 {
      assert (a + b)[1..] == a[1..] + b;
      NonBlankLinesAppend(a[1..], b);
    } else {
      assert a + b == b;
    }
  }
}
