/**
 * The text `formatBranchChanges` builds from a list of changes: files grouped
 * by status label in order of first appearance, at most `maxLineCount` file
 * lines in all, and a "more changes not shown" line when the limit cuts the
 * list short.
 */
module BranchReport {
  import opened JsString
  import opened NameStatus

  /** One entry of the grouping record: a status label and its files, in input order. */
  datatype Group = Group(status: string, files: seq<string>)

  // ---------------------------------------------------------------------------
  // Grouping (the `reduce` into a record)
  // ---------------------------------------------------------------------------

  /** The record after one more `acc[status].push(file)`: an existing entry grows, a new label goes last. */
  function AddTo(groups: seq<Group>, status: string, file: string): seq<Group>
  {
    if |groups| == 0 then [Group(status, [file])]
    else if groups[0].status == status then [Group(status, groups[0].files + [file])] + groups[1..]
    else [groups[0]] + AddTo(groups[1..], status, file)
  }

  /** The entries of the record once every change has been pushed. */
  function Grouped(changes: seq<GitChange>): seq<Group>
  {
    if |changes| == 0 then []
    else
      var c := changes[|changes| - 1];
      AddTo(Grouped(changes[..|changes| - 1]), c.statusText, c.file)
  }

  function Statuses(groups: seq<Group>): (r: seq<string>)
    ensures |r| == |groups| && forall k :: 0 <= k < |r| ==> r[k] == groups[k].status
  {
    seq(|groups|, k requires 0 <= k < |groups| => groups[k].status)
  }

  predicate Distinct(s: seq<string>) {
    forall i, j :: 0 <= i < j < |s| ==> s[i] != s[j]
  }

  /** The elements of `s`, each once, in the order of their first occurrence. */
  function Dedup(s: seq<string>): seq<string>
  {
    if |s| == 0 then []
    else
      var d := Dedup(s[..|s| - 1]);
      if s[|s| - 1] in d then d else d + [s[|s| - 1]]
  }

  function StatusTexts(changes: seq<GitChange>): (r: seq<string>)
    ensures |r| == |changes| && forall k :: 0 <= k < |r| ==> r[k] == changes[k].statusText
  {
    seq(|changes|, k requires 0 <= k < |changes| => changes[k].statusText)
  }

  /** The files of the changes carrying `status`, in input order. */
  function FilesWith(changes: seq<GitChange>, status: string): seq<string>
  {
    if |changes| == 0 then []
    else
      var c := changes[|changes| - 1];
      FilesWith(changes[..|changes| - 1], status) + (if c.statusText == status then [c.file] else [])
  }

  /** All files of the groups, group after group. */
  function Flatten(groups: seq<Group>): seq<string>
  {
    if |groups| == 0 then [] else groups[0].files + Flatten(groups[1..])
  }

  lemma {:induction false} AddToExisting(groups: seq<Group>, status: string, file: string, k: nat)
    requires Distinct(Statuses(groups)) && k < |groups| && groups[k].status == status
    ensures AddTo(groups, status, file) == groups[k := Group(status, groups[k].files + [file])]
  {
    if k > 0 {
      assert Statuses(groups[1..])[k - 1] == groups[k].status;
      assert groups[0].status != status by {
        assert Statuses(groups)[0] != Statuses(groups)[k];
      }
      assert Distinct(Statuses(groups[1..])) by {
        forall i, j | 0 <= i < j < |groups| - 1 ensures Statuses(groups[1..])[i] != Statuses(groups[1..])[j] {
          assert Statuses(groups)[i + 1] != Statuses(groups)[j + 1];
        }
      }
      AddToExisting(groups[1..], status, file, k - 1);
    }
  }

  lemma {:induction false} AddToNew(groups: seq<Group>, status: string, file: string)
    requires status !in Statuses(groups)
    ensures AddTo(groups, status, file) == groups + [Group(status, [file])]
  {
    if |groups| > 0 {
      assert Statuses(groups)[0] == groups[0].status;
      assert status !in Statuses(groups[1..]) by {
        forall k | 0 <= k < |groups| - 1 ensures Statuses(groups[1..])[k] != status {
          assert Statuses(groups)[k + 1] == groups[k + 1].status;
        }
      }
      AddToNew(groups[1..], status, file);
    }
  }

  lemma {:induction false} AddToSize(groups: seq<Group>, status: string, file: string)
    ensures |Flatten(AddTo(groups, status, file))| == |Flatten(groups)| + 1
  {
    if |groups| > 0 && groups[0].status != status {
      AddToSize(groups[1..], status, file);
    }
  }

  lemma {:induction false} DedupMembers(s: seq<string>)
    ensures Distinct(Dedup(s))
    ensures forall x :: x in Dedup(s) <==> x in s
  {
    if |s| > 0 {
      DedupMembers(s[..|s| - 1]);
      assert s == s[..|s| - 1] + [s[|s| - 1]];
    }
  }

  lemma {:induction false} FilesWithAbsent(changes: seq<GitChange>, status: string)
    requires status !in StatusTexts(changes)
    ensures FilesWith(changes, status) == []
  {
    if |changes| > 0 {
      var init := changes[..|changes| - 1];
      assert StatusTexts(changes)[|changes| - 1] == changes[|changes| - 1].statusText;
      assert status !in StatusTexts(init) by {
        forall k | 0 <= k < |init| ensures StatusTexts(init)[k] != status {
          assert StatusTexts(init)[k] == StatusTexts(changes)[k];
        }
      }
      FilesWithAbsent(init, status);
    }
  }

  lemma DistinctSnoc(s: seq<string>, x: string)
    requires Distinct(s) && x !in s
    ensures Distinct(s + [x])
  {
    forall i, j | 0 <= i < j < |s| + 1 ensures (s + [x])[i] != (s + [x])[j] {
      if j == |s| {
        assert (s + [x])[i] == s[i];
      }
    }
  }

  lemma GroupedSnoc(init: seq<GitChange>, c: GitChange)
    ensures Grouped(init + [c]) == AddTo(Grouped(init), c.statusText, c.file)
    ensures StatusTexts(init + [c]) == StatusTexts(init) + [c.statusText]
    ensures Dedup(StatusTexts(init + [c])) ==
              var d := Dedup(StatusTexts(init));
              if c.statusText in d then d else d + [c.statusText]
  {
    assert (init + [c])[..|init|] == init;
    assert StatusTexts(init + [c])[..|init|] == StatusTexts(init);
  }

  /** The grouping keeps one entry per distinct label, in order of first appearance. */
  lemma {:induction false} GroupedStatuses(changes: seq<GitChange>)
    ensures Statuses(Grouped(changes)) == Dedup(StatusTexts(changes))
    ensures Distinct(Statuses(Grouped(changes)))
  {
    if |changes| > 0 {
      var n := |changes|;
      var init := changes[..n - 1];
      var c := changes[n - 1];
      assert changes == init + [c];
      var g0 := Grouped(init);
      GroupedStatuses(init);
      GroupedSnoc(init, c);
      if c.statusText in Statuses(g0) {
        var k :| 0 <= k < |g0| && Statuses(g0)[k] == c.statusText;
        AddToExisting(g0, c.statusText, c.file, k);
        assert Statuses(Grouped(changes)) == Statuses(g0);
      } else {
        AddToNew(g0, c.statusText, c.file);
        DistinctSnoc(Statuses(g0), c.statusText);
        assert Statuses(Grouped(changes)) == Statuses(g0) + [c.statusText];
      }
    }
  }

  /** No file is lost or repeated by the grouping. */
  lemma {:induction false} GroupedSize(changes: seq<GitChange>)
    ensures |Flatten(Grouped(changes))| == |changes|
  {
    if |changes| > 0 {
      var c := changes[|changes| - 1];
      GroupedSize(changes[..|changes| - 1]);
      AddToSize(Grouped(changes[..|changes| - 1]), c.statusText, c.file);
    }
  }

  /** Each entry lists exactly the files carrying its label, in input order, and is never empty. */
  predicate FilesMatch(changes: seq<GitChange>, groups: seq<Group>) {
    forall k :: 0 <= k < |groups| ==> groups[k].files == FilesWith(changes, groups[k].status) && groups[k].files != []
  }

  lemma FilesWithLast(init: seq<GitChange>, c: GitChange, status: string)
    ensures FilesWith(init + [c], status) == FilesWith(init, status) + (if c.statusText == status then [c.file] else [])
  {
    assert (init + [c])[..|init|] == init;
  }

  lemma GroupedFilesExisting(init: seq<GitChange>, c: GitChange, g0: seq<Group>, k: nat)
    requires FilesMatch(init, g0) && Distinct(Statuses(g0))
    requires k < |g0| && g0[k].status == c.statusText
    ensures FilesMatch(init + [c], AddTo(g0, c.statusText, c.file))
  {
    AddToExisting(g0, c.statusText, c.file, k);
    var g := AddTo(g0, c.statusText, c.file);
    forall j | 0 <= j < |g| ensures g[j].files == FilesWith(init + [c], g[j].status) && g[j].files != [] {
      FilesWithLast(init, c, g[j].status);
      if j != k {
        assert Statuses(g0)[j] != Statuses(g0)[k];
      }
    }
  }

  lemma GroupedFilesNew(init: seq<GitChange>, c: GitChange, g0: seq<Group>)
    requires FilesMatch(init, g0) && c.statusText !in Statuses(g0) && c.statusText !in StatusTexts(init)
    ensures FilesMatch(init + [c], AddTo(g0, c.statusText, c.file))
  {
    AddToNew(g0, c.statusText, c.file);
    FilesWithAbsent(init, c.statusText);
    var g := AddTo(g0, c.statusText, c.file);
    forall j | 0 <= j < |g| ensures g[j].files == FilesWith(init + [c], g[j].status) && g[j].files != [] {
      FilesWithLast(init, c, g[j].status);
      if j < |g0| {
        assert Statuses(g0)[j] != c.statusText;
      }
    }
  }

  lemma {:induction false} GroupedFiles(changes: seq<GitChange>)
    ensures FilesMatch(changes, Grouped(changes))
  {
    if |changes| > 0 {
      var n := |changes|;
      var init := changes[..n - 1];
      var c := changes[n - 1];
      assert changes == init + [c];
      var g0 := Grouped(init);
      GroupedFiles(init);
      GroupedStatuses(init);
      DedupMembers(StatusTexts(init));
      if c.statusText in Statuses(g0) {
        var k :| 0 <= k < |g0| && Statuses(g0)[k] == c.statusText;
        GroupedFilesExisting(init, c, g0, k);
      } else {
        GroupedFilesNew(init, c, g0);
      }
    }
  }

  /** The record `acc`, with its keys in creation order `order`, holds the entries `groups`. */
  predicate Holds(groups: seq<Group>, order: seq<string>, acc: map<string, seq<string>>) {
    && |order| == |groups|
    && (forall k :: 0 <= k < |order| ==> order[k] in acc && groups[k] == Group(order[k], acc[order[k]]))
    && (forall key :: key in acc ==> key in order)
  }

  lemma PushNew(groups: seq<Group>, order: seq<string>, acc: map<string, seq<string>>, status: string, file: string)
    requires Holds(groups, order, acc) && status !in acc
    ensures Holds(AddTo(groups, status, file), order + [status], acc[status := [file]])
  {
    assert status !in Statuses(groups) by {
      forall k | 0 <= k < |groups| ensures Statuses(groups)[k] != status {
        assert order[k] in acc;
      }
    }
    AddToNew(groups, status, file);
    var acc' := acc[status := [file]];
    var groups' := groups + [Group(status, [file])];
    forall k | 0 <= k < |order| + 1
      ensures (order + [status])[k] in acc' && groups'[k] == Group((order + [status])[k], acc'[(order + [status])[k]])
    {
      if k < |order| {
        assert order[k] in acc;
      }
    }
  }

  lemma PushExisting(groups: seq<Group>, order: seq<string>, acc: map<string, seq<string>>, status: string, file: string)
    requires Holds(groups, order, acc) && Distinct(Statuses(groups)) && status in acc
    ensures Holds(AddTo(groups, status, file), order, acc[status := acc[status] + [file]])
  {
    var k :| 0 <= k < |order| && order[k] == status;
    assert Statuses(groups)[k] == status;
    AddToExisting(groups, status, file, k);
    var acc' := acc[status := acc[status] + [file]];
    var groups' := groups[k := Group(status, groups[k].files + [file])];
    forall j | 0 <= j < |order| ensures order[j] in acc' && groups'[j] == Group(order[j], acc'[order[j]]) {
      if j == k {
        assert groups[k] == Group(status, acc[status]);
      } else {
        assert Statuses(groups)[j] != Statuses(groups)[k];
        assert order[j] != status && groups'[j] == groups[j];
      }
    }
  }

  /**
   * The `reduce` of `formatBranchChanges` run step by step: `acc` is the
   * record from label to files, `order` the order in which its keys were
   * created, and the result lists its entries as `Object.entries` does.
   */
  method GroupByLabel(changes: seq<GitChange>) returns (groups: seq<Group>)
    ensures groups == Grouped(changes)
  {
    var order: seq<string> := [];
    var acc: map<string, seq<string>> := map[];
    var i := 0;
    while i < |changes|
      invariant 0 <= i <= |changes|
      invariant Holds(Grouped(changes[..i]), order, acc)
    {
      var c := changes[i];
      GroupedStatuses(changes[..i]);
      assert changes[..i + 1] == changes[..i] + [c];
      GroupedSnoc(changes[..i], c);
      if c.statusText !in acc {
        PushNew(Grouped(changes[..i]), order, acc, c.statusText, c.file);
        order := order + [c.statusText];
        acc := acc[c.statusText := [c.file]];
      } else {
        PushExisting(Grouped(changes[..i]), order, acc, c.statusText, c.file);
        acc := acc[c.statusText := acc[c.statusText] + [c.file]];
      }
      i := i + 1;
    }
    assert changes[..i] == changes;
    groups := seq(|order|, k requires 0 <= k < |order| => Group(order[k], acc[order[k]]));
  }

  // ---------------------------------------------------------------------------
  // Rendering (the nested loops with `totalLines` and `reachedLimit`)
  // ---------------------------------------------------------------------------

  /** A line of the report body: a group header, a file, or the blank line after a group. */
  datatype Line = Header(status: string, count: nat) | Item(file: string) | Gap

  function LineText(line: Line): string {
    match line
    case Header(status, count) => status + " (" + NatToString(count) + "):\n"
    case Item(file) => "  - " + file + "\n"
    case Gap => "\n"
  }

  function Text(lines: seq<Line>): string {
    if |lines| == 0 then "" else LineText(lines[0]) + Text(lines[1..])
  }

  function Items(files: seq<string>): (r: seq<Line>)
    ensures |r| == |files| && forall k :: 0 <= k < |r| ==> r[k] == Item(files[k])
  {
    seq(|files|, k requires 0 <= k < |files| => Item(files[k]))
  }

  /** The body lines, how many file lines were emitted, and whether the limit was reached. */
  datatype Layout = Layout(lines: seq<Line>, shown: nat, truncated: bool)

  /**
   * The body as the loops lay it out when `room` more file lines may be
   * emitted: a group that fits is printed whole and followed by a blank line;
   * the first group that does not fit gets its header (with its full size) and
   * as many files as still fit, and the layout stops there.
   */
  function Render(groups: seq<Group>, room: nat): (r: Layout)
    ensures r.shown <= room && r.shown <= |Flatten(groups)|
  {
    if |groups| == 0 then Layout([], 0, false)
    else
      var g := groups[0];
      if |g.files| <= room then
        var rest := Render(groups[1..], room - |g.files|);
        Layout(Block(g, g.files, true) + rest.lines, |g.files| + rest.shown, rest.truncated)
      else
        Layout(Block(g, g.files[..room], false), room, true)
  }

  /** A group that fits is laid out whole and the rest follows with the budget left over. */
  lemma RenderFits(groups: seq<Group>, left: nat)
    requires |groups| > 0 && |groups[0].files| <= left
    ensures Render(groups, left).shown == |groups[0].files| + Render(groups[1..], left - |groups[0].files|).shown
    ensures Render(groups, left).truncated == Render(groups[1..], left - |groups[0].files|).truncated
  {
  }

  /** The first group that does not fit uses up the budget and ends the layout. */
  lemma RenderCut(groups: seq<Group>, left: nat)
    requires |groups| > 0 && |groups[0].files| > left
    ensures Render(groups, left).shown == left && Render(groups, left).truncated
  {
  }

  /** The file-line budget a `maxLineCount` gives: a negative limit admits no file line. */
  function Room(maxLineCount: int): nat {
    if maxLineCount < 0 then 0 else maxLineCount
  }

  /** The files named by the item lines, in order. */
  function ItemFiles(lines: seq<Line>): seq<string> {
    if |lines| == 0 then []
    else (if lines[0].Item? then [lines[0].file] else []) + ItemFiles(lines[1..])
  }

  /** The header lines, in order. */
  function Headers(lines: seq<Line>): seq<Line> {
    if |lines| == 0 then []
    else (if lines[0].Header? then [lines[0]] else []) + Headers(lines[1..])
  }

  lemma {:induction false} TextAppend(a: seq<Line>, b: seq<Line>)
    ensures Text(a + b) == Text(a) + Text(b)
  {
    if |a| == 0 {
      assert a + b == b;
    } else {
      assert (a + b)[1..] == a[1..] + b;
      TextAppend(a[1..], b);
    }
  }

  lemma {:induction false} ItemFilesAppend(a: seq<Line>, b: seq<Line>)
    ensures ItemFiles(a + b) == ItemFiles(a) + ItemFiles(b)
  {
    if |a| == 0 {
      assert a + b == b;
    } else {
      var head := if a[0].Item? then [a[0].file] else [];
      assert (a + b)[0] == a[0] && (a + b)[1..] == a[1..] + b;
      ItemFilesAppend(a[1..], b);
      ConcatAssoc(head, ItemFiles(a[1..]), ItemFiles(b));
    }
  }

  lemma {:induction false} HeadersAppend(a: seq<Line>, b: seq<Line>)
    ensures Headers(a + b) == Headers(a) + Headers(b)
  {
    if |a| == 0 {
      assert a + b == b;
    } else {
      var head := if a[0].Header? then [a[0]] else [];
      assert (a + b)[0] == a[0] && (a + b)[1..] == a[1..] + b;
      HeadersAppend(a[1..], b);
      ConcatAssoc(head, Headers(a[1..]), Headers(b));
    }
  }

  lemma {:induction false} ItemsOnly(files: seq<string>)
    ensures ItemFiles(Items(files)) == files
    ensures Headers(Items(files)) == []
  {
    if |files| > 0 {
      assert Items(files)[1..] == Items(files[1..]);
      ItemsOnly(files[1..]);
    }
  }

  /** The lines one group contributes: its header, its shown files, and a blank line if it fit. */
  function Block(g: Group, shown: seq<string>, gap: bool): seq<Line> {
    [Header(g.status, |g.files|)] + Items(shown) + (if gap then [Gap] else [])
  }

  lemma BlockContents(g: Group, shown: seq<string>, gap: bool)
    ensures ItemFiles(Block(g, shown, gap)) == shown
    ensures Headers(Block(g, shown, gap)) == [Header(g.status, |g.files|)]
  {
    var head := [Header(g.status, |g.files|)];
    ItemsOnly(shown);
    ItemFilesAppend(head, Items(shown));
    ItemFilesAppend(head + Items(shown), if gap then [Gap] else []);
    HeadersAppend(head, Items(shown));
    HeadersAppend(head + Items(shown), if gap then [Gap] else []);
  }

  lemma {:induction false} FlattenPrefix(groups: seq<Group>, k: nat)
    requires 0 < k <= |groups|
    ensures Flatten(groups[..k]) == groups[0].files + Flatten(groups[1..][..k - 1])
  {
    assert groups[..k][1..] == groups[1..][..k - 1];
  }

  /** At most `room` file lines are emitted: `min(room, n)` for `n` files in all. */
  lemma {:induction false} RenderShownCount(groups: seq<Group>, room: nat)
    ensures Render(groups, room).shown == if |Flatten(groups)| < room then |Flatten(groups)| else room
  {
    if |groups| > 0 && |groups[0].files| <= room {
      RenderShownCount(groups[1..], room - |groups[0].files|);
    }
  }

  lemma PrefixOfAppend<T>(x: seq<T>, y: seq<T>, n: nat)
    requires n <= |y|
    ensures (x + y)[..|x| + n] == x + y[..n]
  {
  }

  lemma PrefixWithin<T>(x: seq<T>, y: seq<T>, n: nat)
    requires n <= |x|
    ensures (x + y)[..n] == x[..n]
  {
  }

  /** The file lines emitted are the first files of the groups, in group order. */
  lemma {:induction false} RenderItems(groups: seq<Group>, room: nat)
    ensures ItemFiles(Render(groups, room).lines) == Flatten(groups)[..Render(groups, room).shown]
  {
    if |groups| > 0 {
      var g := groups[0];
      var f := Flatten(groups[1..]);
      assert Flatten(groups) == g.files + f;
      if |g.files| <= room {
        var rest := Render(groups[1..], room - |g.files|);
        RenderItems(groups[1..], room - |g.files|);
        RenderFits(groups, room);
        assert Render(groups, room).lines == Block(g, g.files, true) + rest.lines;
        BlockContents(g, g.files, true);
        ItemFilesAppend(Block(g, g.files, true), rest.lines);
        PrefixOfAppend(g.files, f, rest.shown);
      } else {
        RenderCut(groups, room);
        BlockContents(g, g.files[..room], false);
        PrefixWithin(g.files, f, room);
      }
    }
  }

  /** The limit is reached exactly when the groups hold more files than the budget. */
  lemma {:induction false} RenderTruncated(groups: seq<Group>, room: nat)
    ensures Render(groups, room).truncated <==> |Flatten(groups)| > room
  {
    if |groups| > 0 && |groups[0].files| <= room {
      RenderTruncated(groups[1..], room - |groups[0].files|);
    }
  }

  /**
   * Group `k` gets its header exactly when the groups before it hold no more
   * files than the budget, so a group reached with the budget just used up is
   * still announced, with no file under it; every header shows the full size
   * of its group.
   */
  lemma {:induction false} RenderHeaders(groups: seq<Group>, room: nat)
    ensures |Headers(Render(groups, room).lines)| <= |groups|
    ensures forall k :: 0 <= k < |groups| ==>
              (k < |Headers(Render(groups, room).lines)| <==> |Flatten(groups[..k])| <= room)
    ensures forall k :: 0 <= k < |Headers(Render(groups, room).lines)| ==>
              Headers(Render(groups, room).lines)[k] == Header(groups[k].status, |groups[k].files|)
  {
    if |groups| > 0 {
      var g := groups[0];
      var L := Render(groups, room);
      assert groups[..0] == [];
      if |g.files| <= room {
        var rest := Render(groups[1..], room - |g.files|);
        RenderHeaders(groups[1..], room - |g.files|);
        BlockContents(g, g.files, true);
        HeadersAppend(Block(g, g.files, true), rest.lines);
        assert Headers(L.lines) == [Header(g.status, |g.files|)] + Headers(rest.lines);
        forall k | 1 <= k < |groups|
          ensures k < |Headers(L.lines)| <==> |Flatten(groups[..k])| <= room
        {
          FlattenPrefix(groups, k);
        }
      } else {
        BlockContents(g, g.files[..room], false);
        forall k | 1 <= k < |groups| ensures |Flatten(groups[..k])| > room {
          FlattenPrefix(groups, k);
        }
      }
    }
  }

  // ---------------------------------------------------------------------------
  // The whole report
  // ---------------------------------------------------------------------------

  function Intro(current: string, main: string): string {
    "Changes between " + current + " and " + main + ":\n\n"
  }

  function Suffix(hidden: int, maxLineCount: int): string {
    "\n... and " + IntToString(hidden) + " more changes not shown (limit: " + IntToString(maxLineCount) + " lines)"
  }

  /** The trimmed report: intro, body, and the suffix when the limit was reached. */
  function ReportText(current: string, main: string, changes: seq<GitChange>, maxLineCount: int): string {
    Trim(Untrimmed(current, main, changes, maxLineCount))
  }

  /** The report before the final `trim`. */
  function Untrimmed(current: string, main: string, changes: seq<GitChange>, maxLineCount: int): (r: string)
    ensures |Intro(current, main)| <= |r| && r[..|Intro(current, main)|] == Intro(current, main)
  {
    var layout := Render(Grouped(changes), Room(maxLineCount));
    var body := Intro(current, main) + Text(layout.lines);
    if layout.truncated then body + Suffix(|changes| - layout.shown, maxLineCount) else body
  }

  /**
   * For a non-empty change list: the suffix is added exactly when there are
   * more changes than `maxLineCount`, and then it counts the changes left out,
   * `|changes| - maxLineCount` (all of them when the limit is negative).
   */
  lemma TruncationSuffix(changes: seq<GitChange>, maxLineCount: int)
    requires |changes| > 0
    ensures Render(Grouped(changes), Room(maxLineCount)).truncated <==> |changes| > maxLineCount
    ensures Render(Grouped(changes), Room(maxLineCount)).truncated ==>
              |changes| - Render(Grouped(changes), Room(maxLineCount)).shown == |changes| - Room(maxLineCount) > 0
  {
    GroupedSize(changes);
    RenderTruncated(Grouped(changes), Room(maxLineCount));
    RenderShownCount(Grouped(changes), Room(maxLineCount));
  }

  /**
   * Past the limit the report ends with the suffix, which counts
   * `|changes| - maxLineCount` changes left out; `trim` leaves the text alone
   * since it starts with "Changes" and ends with "lines)".
   */
  lemma ReportWithSuffix(current: string, main: string, changes: seq<GitChange>, maxLineCount: int)
    requires 0 <= maxLineCount < |changes|
    ensures ReportText(current, main, changes, maxLineCount) ==
              Intro(current, main) + Text(Render(Grouped(changes), maxLineCount).lines)
              + Suffix(|changes| - maxLineCount, maxLineCount)
  {
    var body := Intro(current, main) + Text(Render(Grouped(changes), maxLineCount).lines);
    var suffix := Suffix(|changes| - maxLineCount, maxLineCount);
    ReportTruncatedText(current, main, changes, maxLineCount);
    BodyStart(current, main, Render(Grouped(changes), maxLineCount).lines);
    SuffixEnd(|changes| - maxLineCount, maxLineCount);
    TrimKeeps(body, suffix);
  }

  lemma ReportTruncatedText(current: string, main: string, changes: seq<GitChange>, maxLineCount: int)
    requires 0 <= maxLineCount < |changes|
    ensures Untrimmed(current, main, changes, maxLineCount) ==
              Intro(current, main) + Text(Render(Grouped(changes), maxLineCount).lines)
              + Suffix(|changes| - maxLineCount, maxLineCount)
  {
    var layout := Render(Grouped(changes), Room(maxLineCount));
    assert Room(maxLineCount) == maxLineCount;
    assert layout.truncated && |changes| - layout.shown == |changes| - maxLineCount by {
      TruncationSuffix(changes, maxLineCount);
    }
    var body := Intro(current, main) + Text(layout.lines);
    assert Untrimmed(current, main, changes, maxLineCount) == body + Suffix(|changes| - layout.shown, maxLineCount);
  }

  lemma BodyStart(current: string, main: string, lines: seq<Line>)
    ensures |Intro(current, main) + Text(lines)| > 0 && (Intro(current, main) + Text(lines))[0] == 'C'
  {
    EndsOfAppend(Intro(current, main), Text(lines));
    EndsOfAppend("Changes between ", current + " and " + main + ":\n\n");
  }

  lemma SuffixEnd(hidden: int, maxLineCount: int)
    ensures |Suffix(hidden, maxLineCount)| > 0 && Suffix(hidden, maxLineCount)[|Suffix(hidden, maxLineCount)| - 1] == ')'
  {
    EndsOfAppend("\n... and " + IntToString(hidden) + " more changes not shown (limit: " + IntToString(maxLineCount), " lines)");
  }

  /** Text that starts with a letter and ends with a parenthesis is left alone by `trim`. */
  lemma TrimKeeps(a: string, b: string)
    requires |a| > 0 && a[0] == 'C' && |b| > 0 && b[|b| - 1] == ')'
    ensures Trim(a + b) == a + b
  {
    EndsOfAppend(a, b);
    TrimUnpadded(a + b);
  }

  lemma EndsOfAppend<T>(a: seq<T>, b: seq<T>)
    ensures |a| > 0 ==> (a + b)[0] == a[0]
    ensures |b| > 0 ==> (a + b)[|a + b| - 1] == b[|b| - 1]
  {
  }

  /**
   * Within the limit every change is listed and no suffix is added (the
   * report is the trimmed intro and body).
   */
  lemma ReportWithoutSuffix(current: string, main: string, changes: seq<GitChange>, maxLineCount: int)
    requires |changes| <= maxLineCount
    ensures Render(Grouped(changes), maxLineCount).shown == |changes|
    ensures ReportText(current, main, changes, maxLineCount) ==
              Trim(Intro(current, main) + Text(Render(Grouped(changes), maxLineCount).lines))
  {
    GroupedSize(changes);
    RenderTruncated(Grouped(changes), maxLineCount);
    RenderShownCount(Grouped(changes), maxLineCount);
  }

  /** The lines of one group block, appended one string at a time, give the text of the block. */
  lemma ItemStep(files: seq<string>, j: nat)
    requires j < |files|
    ensures Text(Items(files[..j + 1])) == Text(Items(files[..j])) + LineText(Item(files[j]))
  {
    assert Items(files[..j + 1]) == Items(files[..j]) + [Item(files[j])];
    TextAppend(Items(files[..j]), [Item(files[j])]);
  }

  lemma BlockText(g: Group, shown: seq<string>, gap: bool)
    ensures Text(Block(g, shown, gap)) ==
              LineText(Header(g.status, |g.files|)) + Text(Items(shown)) + (if gap then "\n" else "")
  {
    var head := [Header(g.status, |g.files|)];
    TextAppend(head, Items(shown));
    TextAppend(head + Items(shown), if gap then [Gap] else []);
  }

  /**
   * The inner `for (const file of files)` loop: appends file lines while
   * `totalLines < maxLineCount`, and sets `reachedLimit` when a file is left over.
   */
  method AppendFiles(result: string, files: seq<string>, totalLines: int, maxLineCount: int)
    returns (out: string, total: int, reachedLimit: bool)
    requires 0 <= totalLines <= Room(maxLineCount)
    ensures reachedLimit <==> |files| > Room(maxLineCount) - totalLines
    ensures out == result + Text(Items(if reachedLimit then files[..Room(maxLineCount) - totalLines] else files))
    ensures total == totalLines + (if reachedLimit then Room(maxLineCount) - totalLines else |files|)
  {
    ghost var room: nat := Room(maxLineCount) - totalLines;
    out, total, reachedLimit := result, totalLines, false;
    var j := 0;
    while j < |files|
      invariant 0 <= j <= |files| && j <= room
      invariant total == totalLines + j
      invariant out == result + Text(Items(files[..j]))
      invariant !reachedLimit
    {
      if total >= maxLineCount {
        assert j == room;
        reachedLimit := true;
        break;
      }
      ItemStep(files, j);
      ConcatAssoc(result, Text(Items(files[..j])), LineText(Item(files[j])));
      out := out + LineText(Item(files[j]));
      total := total + 1;
      j := j + 1;
    }
    if !reachedLimit {
      assert files[..j] == files;
    }
  }

  lemma Glue4(before: string, a: string, b: string, c: string, d: string, whole: string)
    requires whole == a + b + c + d
    ensures before + a + b + c + d == before + whole
  {
    ConcatAssoc(before, a + b + c, d);
    ConcatAssoc(before, a + b, c);
    ConcatAssoc(before, a, b);
  }

  /**
   * One turn of the outer loop for a group that fits, seen from the text
   * built so far: its header, all its files and a blank line come before the
   * rest of the body.
   */
  lemma RenderStepFits(before: string, groups: seq<Group>, left: nat)
    requires |groups| > 0 && |groups[0].files| <= left
    ensures before + LineText(Header(groups[0].status, |groups[0].files|)) + Text(Items(groups[0].files)) + "\n"
              + Text(Render(groups[1..], left - |groups[0].files|).lines)
            == before + Text(Render(groups, left).lines)
  {
    var g := groups[0];
    var h := LineText(Header(g.status, |g.files|));
    var t := Text(Items(g.files));
    var rest := Render(groups[1..], left - |g.files|);
    assert Render(groups, left).lines == Block(g, g.files, true) + rest.lines;
    var whole := Text(Render(groups, left).lines);
    TextAppend(Block(g, g.files, true), rest.lines);
    BlockText(g, g.files, true);
    Glue4(before, h, t, "\n", Text(rest.lines), whole);
  }

  /** One turn of the outer loop for the group that does not fit: its header and the files that still fit. */
  lemma RenderStepCut(before: string, groups: seq<Group>, left: nat)
    requires |groups| > 0 && |groups[0].files| > left
    ensures before + LineText(Header(groups[0].status, |groups[0].files|)) + Text(Items(groups[0].files[..left]))
            == before + Text(Render(groups, left).lines)
  {
    var g := groups[0];
    BlockText(g, g.files[..left], false);
    ConcatAssoc(before, LineText(Header(g.status, |g.files|)), Text(Items(g.files[..left])));
  }

  /**
   * The outer `for (const [status, files] of Object.entries(...))` loop: a
   * header per group, its files, a blank line after a group that fit, and a
   * stop at the first group that reached the limit.
   */
  method RenderGroups(intro: string, groups: seq<Group>, maxLineCount: int)
    returns (result: string, totalLines: int, reachedLimit: bool)
    ensures result == intro + Text(Render(groups, Room(maxLineCount)).lines)
    ensures totalLines == Render(groups, Room(maxLineCount)).shown
    ensures reachedLimit == Render(groups, Room(maxLineCount)).truncated
  {
    ghost var room := Room(maxLineCount);
    ghost var layout := Render(groups, room);
    result, totalLines, reachedLimit := intro, 0, false;
    var i := 0;
    ghost var left: nat := room;
    while i < |groups|
      invariant 0 <= i <= |groups|
      invariant 0 <= totalLines <= room && left == room - totalLines
      invariant result + Text(Render(groups[i..], left).lines) == intro + Text(layout.lines)
      invariant totalLines + Render(groups[i..], left).shown == layout.shown
      invariant Render(groups[i..], left).truncated == layout.truncated
      invariant !reachedLimit
    {
      result, totalLines, reachedLimit := AppendGroup(result, groups[i], totalLines, maxLineCount, groups[i..], left);
      if reachedLimit {
        break;
      }
      assert groups[i..][1..] == groups[i + 1..];
      result := result + "\n";
      left := left - |groups[i].files|;
      i := i + 1;
    }
    if !reachedLimit {
      assert Render(groups[i..], left) == Layout([], 0, false);
      assert result + Text([]) == result;
    }
  }

  /**
   * One turn of the outer loop: the header of the group and its files up to
   * the limit. Seen from the layout of the groups still to come, either the
   * group fits (and the blank line and the rest follow) or it ends the layout.
   */
  method AppendGroup(result: string, g: Group, totalLines: int, maxLineCount: int, ghost pending: seq<Group>, ghost left: nat)
    returns (out: string, total: int, reachedLimit: bool)
    requires |pending| > 0 && pending[0] == g
    requires 0 <= totalLines <= Room(maxLineCount) && left == Room(maxLineCount) - totalLines
    ensures reachedLimit ==>
              && out == result + Text(Render(pending, left).lines)
              && total == totalLines + Render(pending, left).shown
              && Render(pending, left).truncated
    ensures !reachedLimit ==>
              && |g.files| <= left
              && total == totalLines + |g.files|
              && out + "\n" + Text(Render(pending[1..], left - |g.files|).lines) == result + Text(Render(pending, left).lines)
              && Render(pending, left).shown == |g.files| + Render(pending[1..], left - |g.files|).shown
              && Render(pending, left).truncated == Render(pending[1..], left - |g.files|).truncated
  {
    out := result + LineText(Header(g.status, |g.files|));
    out, total, reachedLimit := AppendFiles(out, g.files, totalLines, maxLineCount);
    if reachedLimit {
      RenderCut(pending, left);
      RenderStepCut(result, pending, left);
    } else {
      RenderFits(pending, left);
      RenderStepFits(result, pending, left);
    }
  }

  /**
   * The body of `formatBranchChanges` once the changes are known: the
   * `reduce`, the loops, then the suffix and `trim`.
   */
  method BuildReport(current: string, main: string, changes: seq<GitChange>, maxLineCount: int)
    returns (report: string)
    ensures report == ReportText(current, main, changes, maxLineCount)
  {
    var groups := GroupByLabel(changes);
    ghost var layout := Render(groups, Room(maxLineCount));
    var result, totalLines, reachedLimit := RenderGroups(Intro(current, main), groups, maxLineCount);
    if reachedLimit {
      result := result + Suffix(|changes| - totalLines, maxLineCount);
    }
    assert result == Untrimmed(current, main, changes, maxLineCount);
    report := Trim(result);
  }
}
