/**
 * The `#name` references that both variable services look for with the
 * global pattern `/#([a-zA-Z0-9\-_]+)/g`, the value a registered handler
 * yields for one of them, and the rewriting `processText` performs.
 */
module Substitution {
  import opened Wrappers
  import opened JsString

  /** A character of the class `[a-zA-Z0-9\-_]`. */
  predicate NameChar(c: char) {
    'a' <= c <= 'z' || 'A' <= c <= 'Z' || '0' <= c <= '9' || c == '-' || c == '_'
  }

  /** A whole reference: `#` and at least one name character. */
  predicate IsToken(t: string) {
    |t| >= 2 && t[0] == '#' && forall k :: 1 <= k < |t| ==> NameChar(t[k])
  }

  /** The pattern can start a match at `i`: a `#` followed by a name character. */
  predicate TokenStart(s: string, i: nat) {
    i + 1 < |s| && s[i] == '#' && NameChar(s[i + 1])
  }

  /** Where the run of name characters starting at `j` ends (the greedy `+`). */
  function RunEnd(s: string, j: nat): (e: nat)
    requires j <= |s|
    ensures j <= e <= |s|
    decreases |s| - j
  {
    if j < |s| && NameChar(s[j]) then RunEnd(s, j + 1) else j
  }

  /** The run is made of name characters and is not followed by one. */
  lemma {:induction false} RunEndSpec(s: string, j: nat)
    requires j <= |s|
    ensures forall k :: j <= k < RunEnd(s, j) ==> NameChar(s[k])
    ensures RunEnd(s, j) == |s| || !NameChar(s[RunEnd(s, j)])
    decreases |s| - j
  {
    if j < |s| && NameChar(s[j]) {
      RunEndSpec(s, j + 1);
    }
  }

  /** The match that starts at `i`: the `#` and the whole run after it. */
  function TokenAt(s: string, i: nat): (t: string)
    requires TokenStart(s, i)
    ensures IsToken(t) && |t| == RunEnd(s, i + 1) - i
  {
    RunEndSpec(s, i + 1);
    s[i..RunEnd(s, i + 1)]
  }

  /** The match is the text at `i`, and it is not followed by a name character. */
  lemma TokenAtSpec(s: string, i: nat)
    requires TokenStart(s, i)
    ensures OccursAt(s, TokenAt(s, i), i)
    ensures var end := i + |TokenAt(s, i)|; end == |s| || !NameChar(s[end])
  {
    RunEndSpec(s, i + 1);
  }

  /**
   * Where the matches of the global pattern start, searching from `from`:
   * after a match the search resumes at its end, otherwise one character on.
   */
  function StartsFrom(s: string, from: nat): (r: seq<nat>)
    requires from <= |s|
    ensures forall k :: 0 <= k < |r| ==> from <= r[k] && TokenStart(s, r[k])
    decreases |s| - from
  {
    if from == |s| then []
    else if TokenStart(s, from) then [from] + StartsFrom(s, RunEnd(s, from + 1))
    else StartsFrom(s, from + 1)
  }

  /** The matches do not overlap: each one ends before any later one starts. */
  lemma {:induction false} StartsDisjoint(s: string, from: nat)
    requires from <= |s|
    ensures forall k, l :: 0 <= k < l < |StartsFrom(s, from)| ==>
              StartsFrom(s, from)[k] + |TokenAt(s, StartsFrom(s, from)[k])| <= StartsFrom(s, from)[l]
    decreases |s| - from
  {
    if from < |s| {
      if TokenStart(s, from) {
        var e := RunEnd(s, from + 1);
        StartsDisjoint(s, e);
        var r := StartsFrom(s, from);
        var rest := StartsFrom(s, e);
        assert r == [from] + rest;
        forall k, l | 0 <= k < l < |r| ensures r[k] + |TokenAt(s, r[k])| <= r[l] {
          assert r[l] == rest[l - 1];
          if k > 0 {
            assert r[k] == rest[k - 1];
          }
        }
      } else {
        StartsDisjoint(s, from + 1);
        assert StartsFrom(s, from) == StartsFrom(s, from + 1);
      }
    }
  }

  function Starts(s: string): seq<nat> {
    StartsFrom(s, 0)
  }

  /** `text.match(variablePattern)`: the matched texts in order, `[]` standing for `null`. */
  function Matches(s: string): (r: seq<string>)
    ensures forall k :: 0 <= k < |r| ==> IsToken(r[k])
  {
    MatchesFrom(s, 0)
  }

  /** The matches of the global pattern from `from` on. */
  function MatchesFrom(s: string, from: nat): (r: seq<string>)
    requires from <= |s|
    ensures forall k :: 0 <= k < |r| ==> IsToken(r[k])
    decreases |s| - from
  {
    if from == |s| then []
    else if TokenStart(s, from) then [TokenAt(s, from)] + MatchesFrom(s, RunEnd(s, from + 1))
    else MatchesFrom(s, from + 1)
  }

  /** The matches are the texts at the start positions. */
  lemma {:induction false} MatchesFromStarts(s: string, from: nat)
    requires from <= |s|
    ensures MatchesFrom(s, from) == TokensAt(s, StartsFrom(s, from))
    decreases |s| - from
  {
    if from < |s| {
      if TokenStart(s, from) {
        var e := RunEnd(s, from + 1);
        MatchesFromStarts(s, e);
        var starts := StartsFrom(s, from);
        assert starts == [from] + StartsFrom(s, e) && starts[1..] == StartsFrom(s, e);
        assert TokensAt(s, starts) == [TokenAt(s, from)] + TokensAt(s, starts[1..]);
      } else {
        MatchesFromStarts(s, from + 1);
      }
    }
  }

  /** The match texts at the given start positions. */
  function TokensAt(s: string, starts: seq<nat>): (r: seq<string>)
    requires forall k :: 0 <= k < |starts| ==> TokenStart(s, starts[k])
    ensures |r| == |starts|
    ensures forall k :: 0 <= k < |r| ==> r[k] == TokenAt(s, starts[k])
  {
    if starts == [] then [] else [TokenAt(s, starts[0])] + TokensAt(s, starts[1..])
  }

  /** Each match is the text at its start position, and what follows it is not a name character. */
  lemma MatchesOccur(s: string, k: nat)
    requires k < |Matches(s)|
    ensures |Starts(s)| == |Matches(s)|
    ensures OccursAt(s, Matches(s)[k], Starts(s)[k])
    ensures var end := Starts(s)[k] + |Matches(s)[k]|; end == |s| || !NameChar(s[end])
  {
    MatchesFromStarts(s, 0);
    TokenAtSpec(s, Starts(s)[k]);
  }

  /**
   * The search finds every place the pattern can start: no `#` followed by
   * a name character is skipped, because a `#` is never inside a run.
   */
  lemma {:induction false} StartsFromComplete(s: string, from: nat, i: nat)
    requires from <= i < |s|
    ensures TokenStart(s, i) <==> i in StartsFrom(s, from)
    decreases |s| - from
  {
    if TokenStart(s, from) {
      var e := RunEnd(s, from + 1);
      if i == from {
      } else if i < e {
        RunEndSpec(s, from + 1);
        assert s[i] != '#';
        assert i !in StartsFrom(s, e);
      } else if i == e {
        if e < |s| {
          StartsFromComplete(s, e, i);
        }
      } else {
        StartsFromComplete(s, e, i);
      }
    } else if i == from {
      assert i !in StartsFrom(s, from + 1);
    } else {
      StartsFromComplete(s, from + 1, i);
    }
  }

  /** Every match is a `#` and a maximal run of name characters, in the order the references appear. */
  lemma MatchesAreReferences(s: string, i: nat)
    requires i < |s|
    ensures TokenStart(s, i) <==> i in Starts(s)
  {
    StartsFromComplete(s, 0, i);
  }

  /** `match` returns `null` exactly when no `#` is followed by a name character. */
  lemma NoMatchIffNoReference(s: string)
    ensures Matches(s) == [] <==> forall i: nat :: !TokenStart(s, i)
  {
    MatchesFromStarts(s, 0);
    if Matches(s) == [] {
      forall i: nat | TokenStart(s, i) ensures false {
        MatchesAreReferences(s, i);
      }
    } else {
      assert TokenStart(s, Starts(s)[0]);
    }
  }

  /** `match.substring(1)`: the reference without its `#`. */
  function Name(t: string): (id: string)
    requires IsToken(t)
    ensures t == "#" + id
  {
    t[1..]
  }

  /** What a thrown value turns into: an `Error`'s message or `String(error)` of anything else. */
  datatype Thrown = ErrorObject(message: string) | OtherValue(text: string)

  /** How a handler's `getValue()` settled: with a string, or by throwing. */
  datatype Outcome = Returns(value: string) | Throws(thrown: Thrown)

  function ThrownText(t: Thrown): string {
    match t
    case ErrorObject(m) => m
    case OtherValue(v) => v
  }

  /** The text a failing handler is replaced with, naming the id as it was asked for. */
  function RetrievalError(id: string, t: Thrown): string {
    "Error retrieving #" + id + ": " + ThrownText(t)
  }

  /**
   * `getVariableValue(id)` over the handlers' outcomes keyed by lower-cased
   * id: `undefined` for an unknown id, the value a handler returns, or the
   * error text when it throws.
   */
  function ValueOf(outcomes: map<string, Outcome>, id: string): (r: Option<string>)
    ensures LowerCase(id) !in outcomes <==> r.None?
    ensures LowerCase(id) in outcomes && outcomes[LowerCase(id)].Returns? ==>
              r == Some(outcomes[LowerCase(id)].value)
    ensures LowerCase(id) in outcomes && outcomes[LowerCase(id)].Throws? ==>
              r == Some(RetrievalError(id, outcomes[LowerCase(id)].thrown))
  {
    var key := LowerCase(id);
    if key !in outcomes then None
    else match outcomes[key]
      case Returns(v) => Some(v)
      case Throws(t) => Some(RetrievalError(id, t))
  }

  /** No handler produces a `$`, so `replace` inserts its values literally. */
  predicate DollarFree(outcomes: map<string, Outcome>) {
    forall key :: key in outcomes ==>
      match outcomes[key]
      case Returns(v) => '$' !in v
      case Throws(t) => '$' !in ThrownText(t)
  }

  /** A reference's name has no `$`, so neither has its value. */
  lemma ValueDollarFree(outcomes: map<string, Outcome>, t: string)
    requires DollarFree(outcomes) && IsToken(t)
    ensures ValueOf(outcomes, Name(t)).Some? ==> '$' !in ValueOf(outcomes, Name(t)).value
  {
    var id := Name(t);
    assert '$' !in id by {
      forall k | 0 <= k < |id| ensures id[k] != '$' {
        assert id[k] == t[k + 1];
      }
    }
    if LowerCase(id) in outcomes && outcomes[LowerCase(id)].Throws? {
      var r := RetrievalError(id, outcomes[LowerCase(id)].thrown);
      assert r == ("Error retrieving #" + id) + (": " + ThrownText(outcomes[LowerCase(id)].thrown));
    }
  }

  /** The loop of `processText`: each match with a value replaces the first occurrence of its text in the current result. */
  function Rewrite(result: string, matches: seq<string>, outcomes: map<string, Outcome>): (r: string)
    requires DollarFree(outcomes)
    requires forall k :: 0 <= k < |matches| ==> IsToken(matches[k])
    ensures Resolved(matches, outcomes) == 0 ==> r == result
    decreases |matches|
  {
    if matches == [] then result
    else
      var value := ValueOf(outcomes, Name(matches[0]));
      ValueDollarFree(outcomes, matches[0]);
      Rewrite(if value.Some? then ReplaceFirst(result, matches[0], value.value) else result, matches[1..], outcomes)
  }

  /** What `processText(text)` returns once the text is known; with no `replace` call it is the text itself. */
  function Processed(text: string, outcomes: map<string, Outcome>): (r: string)
    requires DollarFree(outcomes)
    ensures Resolved(Matches(text), outcomes) == 0 ==> r == text
  {
    Rewrite(text, Matches(text), outcomes)
  }

  /** How many matches have a value, that is, how many times `replace` is called. */
  function Resolved(matches: seq<string>, outcomes: map<string, Outcome>): (n: nat)
    requires forall k :: 0 <= k < |matches| ==> IsToken(matches[k])
    ensures n <= |matches|
    decreases |matches|
  {
    if matches == [] then 0
    else
      (if ValueOf(outcomes, Name(matches[0])).Some? then 1 else 0) + Resolved(matches[1..], outcomes)
  }

  /** No `replace` call happens exactly when no match names a registered key. */
  lemma {:induction false} NoneResolved(matches: seq<string>, outcomes: map<string, Outcome>)
    requires forall k :: 0 <= k < |matches| ==> IsToken(matches[k])
    ensures Resolved(matches, outcomes) == 0 <==> forall k :: 0 <= k < |matches| ==> LowerCase(Name(matches[k])) !in outcomes
    decreases |matches|
  {
    if matches != [] {
      NoneResolved(matches[1..], outcomes);
      assert forall k :: 1 <= k < |matches| ==> matches[k] == matches[1..][k - 1];
    }
  }

  /** One turn of the loop: the match at `i` is replaced when it has a value, and counted. */
  lemma RewriteStep(result: string, matches: seq<string>, i: nat, outcomes: map<string, Outcome>)
    requires DollarFree(outcomes)
    requires forall k :: 0 <= k < |matches| ==> IsToken(matches[k])
    requires i < |matches|
    ensures var value := ValueOf(outcomes, Name(matches[i]));
            && (value.Some? ==>
                  && '$' !in value.value
                  && Rewrite(result, matches[i..], outcomes)
                     == Rewrite(ReplaceFirst(result, matches[i], value.value), matches[i + 1..], outcomes))
            && (value.None? ==> Rewrite(result, matches[i..], outcomes) == Rewrite(result, matches[i + 1..], outcomes))
            && Resolved(matches[i..], outcomes) == (if value.Some? then 1 else 0) + Resolved(matches[i + 1..], outcomes)
  {
    assert matches[i..][0] == matches[i] && matches[i..][1..] == matches[i + 1..];
    ValueDollarFree(outcomes, matches[i]);
  }

  /** Text without a reference is returned as it is. */
  lemma NoReferenceUnchanged(text: string, outcomes: map<string, Outcome>)
    requires DollarFree(outcomes)
    requires forall i: nat :: !TokenStart(text, i)
    ensures Processed(text, outcomes) == text
  {
    NoMatchIffNoReference(text);
  }

  /** With no handler registered every reference stays as it is. */
  lemma NothingRegisteredUnchanged(text: string)
    ensures Processed(text, map[]) == text
  {
    NoneResolved(Matches(text), map[]);
  }

  /**
   * Matching by first occurrence can hit the inside of a longer reference:
   * with only `a` registered, the `#a` of `#ab` is replaced and the real
   * `#a` is left.
   */
  lemma FirstOccurrenceInsideLongerReference()
    ensures Processed("#ab #a", map["a" := Returns("X")]) == "Xb #a"
  {
    ExampleMatches();
    ExampleRewrite();
  }

  /** The loop over the two matches: `#ab` has no value, `#a` replaces the first `#a`. */
  lemma ExampleRewrite()
    ensures Rewrite("#ab #a", ["#ab", "#a"], map["a" := Returns("X")]) == "Xb #a"
  {
    var s := "#ab #a";
    var outcomes := map["a" := Returns("X")];
    ExampleValues();
    ExampleReplace();
    var m := ["#ab", "#a"];
    assert m[1..] == ["#a"];
    assert Rewrite(s, m, outcomes) == Rewrite(s, ["#a"], outcomes);
    assert Rewrite(s, ["#a"], outcomes) == Rewrite("Xb #a", [], outcomes);
  }

  /** `"#ab #a".replace("#a", "X")` finds the `#a` at the start of `#ab`. */
  lemma ExampleReplace()
    ensures ReplaceFirst("#ab #a", "#a", "X") == "Xb #a"
  {
    var s := "#ab #a";
    assert s[0..2] == "#a";
    assert IndexOfFrom(s, "#a", 0) == Some(0);
    assert s[..0] + "X" + s[2..] == "Xb #a";
  }

  /** The two references of the example text. */
  lemma ExampleMatches()
    ensures Matches("#ab #a") == ["#ab", "#a"]
  {
    var s := "#ab #a";
    assert RunEnd(s, 5) == 6;
    assert RunEnd(s, 1) == 3;
    assert TokenAt(s, 0) == s[0..3] == "#ab";
    assert TokenAt(s, 4) == s[4..6] == "#a";
    assert MatchesFrom(s, 4) == ["#a"];
    assert !TokenStart(s, 3);
    assert MatchesFrom(s, 3) == ["#a"];
  }

  /** In the example only `a` is registered. */
  lemma ExampleValues()
    ensures ValueOf(map["a" := Returns("X")], "ab") == None
    ensures ValueOf(map["a" := Returns("X")], "a") == Some("X")
    ensures Name("#ab") == "ab" && Name("#a") == "a"
  {
    assert LowerCase("ab") == "ab";
    assert LowerCase("a") == "a";
  }

  /** How the intended substitution looks a name up: `getVariableValue` over the outcomes. */
  type Lookup = string -> Option<string>

  function LookupIn(outcomes: map<string, Outcome>): Lookup {
    id => ValueOf(outcomes, id)
  }

  /**
   * The substitution `processText` is meant to perform: every reference is
   * replaced where it stands by its value, or kept when it has none.
   */
  function Expand(s: string, outcomes: map<string, Outcome>): string {
    ExpandFrom(s, 0, LookupIn(outcomes))
  }

  /** The intended substitution of `s` from index `from` on. */
  function ExpandFrom(s: string, from: nat, lookup: Lookup): string
    requires from <= |s|
    decreases |s| - from
  {
    if from == |s| then ""
    else Piece(s, from, lookup) + ExpandFrom(s, StepEnd(s, from), lookup)
  }

  /** What a whole reference becomes: its value, or the reference itself when it has none. */
  function Replacement(t: string, lookup: Lookup): string
    requires IsToken(t)
  {
    var value := lookup(Name(t));
    if value.Some? then value.value else t
  }

  /** Where one step of the scan from `from` ends: after a whole reference, or after one character. */
  function StepEnd(s: string, from: nat): (e: nat)
    requires from < |s|
    ensures from < e <= |s|
  {
    if TokenStart(s, from) then RunEnd(s, from + 1) else from + 1
  }

  /** What the text of one step becomes. */
  function Piece(s: string, from: nat, lookup: Lookup): string
    requires from < |s|
  {
    if TokenStart(s, from) then
      var end := RunEnd(s, from + 1);
      var value := lookup(s[from + 1..end]);
      if value.Some? then value.value else s[from..end]
    else [s[from]]
  }

  /** The expansion only looks ahead, so a prefix does not change how the rest expands. */
  lemma {:induction false} ExpandFromShift(x: string, y: string, j: nat, lookup: Lookup)
    requires j <= |y|
    ensures ExpandFrom(x + y, |x| + j, lookup) == ExpandFrom(y, j, lookup)
    decreases |y| - j
  {
    if j < |y| {
      var e := StepEnd(y, j);
      StepShift(x, y, j, lookup);
      ExpandFromShift(x, y, e, lookup);
      assert ExpandFrom(x + y, |x| + j, lookup) == Piece(y, j, lookup) + ExpandFrom(x + y, |x| + e, lookup);
    }
  }

  /** One step of the scan is the same with or without a prefix in front. */
  lemma StepShift(x: string, y: string, j: nat, lookup: Lookup)
    requires j < |y|
    ensures TokenStart(x + y, |x| + j) <==> TokenStart(y, j)
    ensures StepEnd(x + y, |x| + j) == |x| + StepEnd(y, j)
    ensures Piece(x + y, |x| + j, lookup) == Piece(y, j, lookup)
  {
    var s := x + y;
    var i := |x| + j;
    assert s[i] == y[j];
    assert i + 1 < |s| ==> s[i + 1] == y[j + 1];
    if TokenStart(y, j) {
      RunEndShift(x, y, j + 1);
      SliceShift(x, y, j, RunEnd(y, j + 1));
      SliceShift(x, y, j + 1, RunEnd(y, j + 1));
    }
  }

  lemma SliceShift(x: string, y: string, a: nat, b: nat)
    requires a <= b <= |y|
    ensures (x + y)[|x| + a..|x| + b] == y[a..b]
  {
  }

  lemma {:induction false} RunEndShift(x: string, y: string, j: nat)
    requires j <= |y|
    ensures RunEnd(x + y, |x| + j) == |x| + RunEnd(y, j)
    decreases |y| - j
  {
    if j < |y| && NameChar(y[j]) {
      assert (x + y)[|x| + j] == y[j];
      RunEndShift(x, y, j + 1);
    } else if j < |y| {
      assert (x + y)[|x| + j] == y[j];
    }
  }

  lemma SliceCons(s: string, from: nat, stop: nat)
    requires from < stop <= |s|
    ensures s[from..stop] == [s[from]] + s[from + 1..stop]
  {
  }

  /** Plain text without a reference expands to itself. */
  lemma {:induction false} ExpandPlain(s: string, from: nat, stop: nat, lookup: Lookup)
    requires from <= stop <= |s|
    requires forall i: nat :: from <= i < stop ==> !TokenStart(s, i)
    ensures ExpandFrom(s, from, lookup) == s[from..stop] + ExpandFrom(s, stop, lookup)
    decreases stop - from
  {
    if from < stop {
      assert !TokenStart(s, from);
      assert Piece(s, from, lookup) == [s[from]] && StepEnd(s, from) == from + 1;
      ExpandPlain(s, from + 1, stop, lookup);
      SliceCons(s, from, stop);
      ConcatAssoc([s[from]], s[from + 1..stop], ExpandFrom(s, stop, lookup));
    }
  }

  /** The intended substitution leaves a text without a reference as it is. */
  lemma WithoutReferenceExpandsToItself(s: string, outcomes: map<string, Outcome>)
    requires forall i: nat :: !TokenStart(s, i)
    ensures Expand(s, outcomes) == s
  {
    ExpandPlain(s, 0, |s|, LookupIn(outcomes));
    assert s[0..|s|] == s;
  }

  /**
   * The intended property: in `p + t + q`, with no reference in `p` and `t`
   * a whole reference, `t` is replaced in place by its value (or kept) and
   * the text around it is untouched.
   */
  lemma ReplacedWhereItStands(p: string, t: string, q: string, outcomes: map<string, Outcome>)
    requires forall i: nat :: !TokenStart(p, i)
    requires IsToken(t)
    requires q == [] || !NameChar(q[0])
    ensures Expand(p + t + q, outcomes)
         == p + Replacement(t, LookupIn(outcomes)) + Expand(q, outcomes)
  {
    var lookup := LookupIn(outcomes);
    PlainPrefix(p, t + q, lookup);
    ExpandFromShift(p, t + q, 0, lookup);
    TokenFirst(t, q, lookup);
    ConcatAssoc(p, t, q);
    ConcatAssoc(p, Replacement(t, lookup), ExpandFrom(q, 0, lookup));
  }

  /** A prefix without a reference, followed by a `#`, expands to itself. */
  lemma PlainPrefix(p: string, r: string, lookup: Lookup)
    requires forall i: nat :: !TokenStart(p, i)
    requires r != [] && r[0] == '#'
    ensures ExpandFrom(p + r, 0, lookup) == p + ExpandFrom(p + r, |p|, lookup)
  {
    var s := p + r;
    forall i: nat | i < |p| ensures !TokenStart(s, i) {
      if i + 1 < |p| {
        assert s[i] == p[i] && s[i + 1] == p[i + 1];
        assert !TokenStart(p, i);
      } else {
        assert s[i + 1] == r[0];
      }
    }
    ExpandPlain(s, 0, |p|, lookup);
    assert s[0..|p|] == p;
  }

  /** A text that starts with a whole reference expands to its replacement and then the rest. */
  lemma TokenFirst(t: string, q: string, lookup: Lookup)
    requires IsToken(t)
    requires q == [] || !NameChar(q[0])
    ensures ExpandFrom(t + q, 0, lookup) == Replacement(t, lookup) + ExpandFrom(q, 0, lookup)
  {
    var s := t + q;
    assert s[0] == '#' && s[1] == t[1];
    assert TokenStart(s, 0);
    RunEndRun(s, 1, |t|);
    assert s[0..|t|] == t;
    assert s[1..|t|] == Name(t);
    assert StepEnd(s, 0) == |t|;
    ExpandFromShift(t, q, 0, lookup);
  }

  lemma {:induction false} RunEndRun(s: string, j: nat, e: nat)
    requires j <= e <= |s|
    requires forall k :: j <= k < e ==> NameChar(s[k])
    requires e == |s| || !NameChar(s[e])
    ensures RunEnd(s, j) == e
    decreases e - j
  {
    if j < e {
      RunEndRun(s, j + 1, e);
    }
  }

  /** On the text that shows the difference, the intended substitution replaces the real `#a`. */
  lemma ExpandLongerReference()
    ensures Expand("#ab #a", map["a" := Returns("X")]) == "#ab X"
  {
    var lookup := LookupIn(map["a" := Returns("X")]);
    ExampleReplacements();
    assert "#ab #a" == "#ab" + " #a";
    TokenFirst("#ab", " #a", lookup);
    ExpandExampleTail();
  }

  lemma ExpandExampleTail()
    ensures Expand(" #a", map["a" := Returns("X")]) == " X"
  {
    var lookup := LookupIn(map["a" := Returns("X")]);
    ExampleReplacements();
    assert " #a" == " " + "#a";
    ExpandBlankFirst("#a", lookup);
    assert "#a" == "#a" + "";
    TokenFirst("#a", "", lookup);
    assert ExpandFrom("", 0, lookup) == "";
  }

  lemma ExampleReplacements()
    ensures Replacement("#ab", LookupIn(map["a" := Returns("X")])) == "#ab"
    ensures Replacement("#a", LookupIn(map["a" := Returns("X")])) == "X"
  {
    ExampleValues();
  }

  /** A space is copied and the scan goes on after it. */
  lemma ExpandBlankFirst(r: string, lookup: Lookup)
    ensures ExpandFrom(" " + r, 0, lookup) == " " + ExpandFrom(r, 0, lookup)
  {
    var s := " " + r;
    assert !TokenStart(s, 0);
    assert Piece(s, 0, lookup) == " " && StepEnd(s, 0) == 1;
    ExpandFromShift(" ", r, 0, lookup);
  }
}
