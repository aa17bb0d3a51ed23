/**
 * Grep over captured streams (Grep in internal/logcap/read.go): the first
 * matches of each stream, with merged context windows.
 */
module LogGrep {
  /** One line of the answer before formatting: a marker, or a 1-based numbered line. */
  datatype Out = Separator | Numbered(name: string, number: nat, text: string)

  /** A stream to search: its label and its lines. */
  datatype Stream = Stream(name: string, lines: seq<string>)

  // ---------------------------------------------------------------------------
  // Which lines are chosen
  // ---------------------------------------------------------------------------

  /** The first limit indices, from a given one on, whose line matches. */
  function FirstMatches(lines: seq<string>, matches: string -> bool, from: nat, limit: nat): (ms: seq<nat>)
    requires from <= |lines|
    ensures |ms| <= limit && Ascending(ms)
    ensures forall k :: 0 <= k < |ms| ==> from <= ms[k] < |lines| && matches(lines[ms[k]])
    decreases |lines| - from
  {
    if from == |lines| || limit == 0 then []
    else if matches(lines[from]) then
      var rest := FirstMatches(lines, matches, from + 1, limit - 1);
      assert forall i :: 1 <= i < |[from] + rest| ==> ([from] + rest)[i] == rest[i - 1];
      [from] + rest
    else FirstMatches(lines, matches, from + 1, limit)
  }

  predicate Ascending(ms: seq<nat>) {
    forall i, j :: 0 <= i < j < |ms| ==> ms[i] < ms[j]
  }

  /** Fewer than the limit are chosen only when every match is. */
  lemma {:induction false} EarlyMatchesAreChosen(lines: seq<string>, matches: string -> bool, from: nat, limit: nat, i: nat)
    requires from <= i < |lines| && matches(lines[i])
    ensures var ms := FirstMatches(lines, matches, from, limit);
      i in ms || (|ms| == limit && forall m :: m in ms ==> m < i)
    decreases |lines| - from
  {
    if limit > 0 && i > from {
      EarlyMatchesAreChosen(lines, matches, from + 1, if matches(lines[from]) then limit - 1 else limit, i);
    }
  }

  // ---------------------------------------------------------------------------
  // What a stream's windows print
  // ---------------------------------------------------------------------------

  function WindowStart(m: nat, context: nat): nat {
    if m < context then 0 else m - context
  }

  function WindowEnd(m: nat, context: nat, n: nat): (e: nat)
    requires m < n
    ensures m <= e < n
  {
    if m + context >= n then n - 1 else m + context
  }

  function NumberedLines(s: Stream, from: nat, to: nat): (out: seq<Out>)
    requires to <= |s.lines|
  {
    if from < to then NumberedLines(s, from, to - 1) + [Numbered(s.name, to, s.lines[to - 1])] else []
  }

  ghost predicate Chosen(s: Stream, ms: seq<nat>) {
    Ascending(ms) && forall k :: 0 <= k < |ms| ==> ms[k] < |s.lines|
  }

  /** Window k touches no earlier window of its stream. */
  ghost predicate Apart(s: Stream, ms: seq<nat>, context: nat, k: nat)
    requires Chosen(s, ms) && k < |ms|
  {
    forall i :: 0 <= i < k ==> WindowEnd(ms[i], context, |s.lines|) < WindowStart(ms[k], context)
  }

  /** One past the last line printed by the first k windows. */
  ghost function Covered(s: Stream, ms: seq<nat>, context: nat, k: nat): (n: nat)
    requires Chosen(s, ms) && k <= |ms|
    ensures n <= |s.lines|
  {
    if k == 0 then 0 else WindowEnd(ms[k - 1], context, |s.lines|) + 1
  }

  /** Where window k - 1 starts to print: after what is printed already. */
  ghost function PrintFrom(s: Stream, ms: seq<nat>, context: nat, k: nat): nat
    requires Chosen(s, ms) && 1 <= k <= |ms|
  {
    var start, covered := WindowStart(ms[k - 1], context), Covered(s, ms, context, k - 1);
    if start >= covered then start else covered
  }

  ghost function Marker(s: Stream, ms: seq<nat>, context: nat, k: nat): seq<Out>
    requires Chosen(s, ms) && 1 <= k <= |ms|
  {
    if context > 0 && k > 1 && WindowStart(ms[k - 1], context) >= Covered(s, ms, context, k - 1) then [Separator] else []
  }

  /** The lines the first k windows print: each window only what is not yet printed. */
  ghost function Windows(s: Stream, ms: seq<nat>, context: nat, k: nat): seq<Out>
    requires Chosen(s, ms) && k <= |ms|
  {
    if k == 0 then []
    else
      Windows(s, ms, context, k - 1) + Marker(s, ms, context, k)
      + NumberedLines(s, PrintFrom(s, ms, context, k), Covered(s, ms, context, k))
  }

  lemma WindowsMove(s: Stream, ms: seq<nat>, context: nat, i: nat, k: nat)
    requires Chosen(s, ms) && i <= k < |ms|
    ensures WindowStart(ms[i], context) <= WindowStart(ms[k], context)
    ensures WindowEnd(ms[i], context, |s.lines|) <= WindowEnd(ms[k], context, |s.lines|)
  {
    assert i < k ==> ms[i] < ms[k];
  }

  lemma ApartMeansBeyond(s: Stream, ms: seq<nat>, context: nat, k: nat)
    requires Chosen(s, ms) && 1 <= k < |ms|
    ensures Apart(s, ms, context, k) <==> WindowStart(ms[k], context) >= Covered(s, ms, context, k)
  {
    forall i | 0 <= i < k ensures WindowEnd(ms[i], context, |s.lines|) <= WindowEnd(ms[k - 1], context, |s.lines|) {
      WindowsMove(s, ms, context, i, k - 1);
    }
  }

  /** Some of the first k windows reaches line index j. */
  ghost predicate InSomeWindow(s: Stream, ms: seq<nat>, context: nat, k: nat, j: nat)
    requires Chosen(s, ms) && k <= |ms|
  {
    exists i :: 0 <= i < k && WindowStart(ms[i], context) <= j <= WindowEnd(ms[i], context, |s.lines|)
  }

  function LineNumbers(out: seq<Out>): seq<nat> {
    if out == [] then []
    else if out[|out| - 1].Separator? then LineNumbers(out[..|out| - 1])
    else LineNumbers(out[..|out| - 1]) + [out[|out| - 1].number]
  }

  lemma {:induction false} LineNumbersAppend(a: seq<Out>, b: seq<Out>)
    ensures LineNumbers(a + b) == LineNumbers(a) + LineNumbers(b)
  {
    if b == [] {
      assert a + b == a;
    } else {
      LineNumbersAppend(a, b[..|b| - 1]);
      assert (a + b)[..|a + b| - 1] == a + b[..|b| - 1];
    }
  }

  lemma {:induction false} NumberedLinesNumbers(s: Stream, from: nat, to: nat)
    requires to <= |s.lines|
    ensures LineNumbers(NumberedLines(s, from, to)) == Range(from, to)
  {
    if from < to {
      NumberedLinesNumbers(s, from, to - 1);
      LineNumbersAppend(NumberedLines(s, from, to - 1), [Numbered(s.name, to, s.lines[to - 1])]);
      OneNumber(s.name, to, s.lines[to - 1]);
    }
  }

  lemma OneNumber(name: string, number: nat, text: string)
    ensures LineNumbers([Numbered(name, number, text)]) == [number]
  {
    assert [Numbered(name, number, text)][..0] == [];
  }

  lemma {:induction false} NumberedLinesAreRight(s: Stream, from: nat, to: nat)
    requires to <= |s.lines|
    ensures AllRight(s, NumberedLines(s, from, to)) && forall o :: o in NumberedLines(s, from, to) ==> o.Numbered?
  {
    if from < to {
      NumberedLinesAreRight(s, from, to - 1);
    }
  }

  function Range(from: nat, to: nat): (r: seq<nat>)
    ensures |r| == if from < to then to - from else 0
    ensures forall i :: 0 <= i < |r| ==> r[i] == from + 1 + i
  {
    seq(if from < to then to - from else 0, i => from + 1 + i)
  }

  /** The numbers printed: strictly increasing, and exactly the union of the windows. */
  ghost predicate PrintsTheUnion(s: Stream, ms: seq<nat>, context: nat, k: nat, numbers: seq<nat>)
    requires Chosen(s, ms) && k <= |ms|
  {
    && Ascending(numbers)
    && (forall n: nat :: n in numbers <==> n > 0 && InSomeWindow(s, ms, context, k, n - 1))
    && (forall n: nat :: n in numbers ==> n <= Covered(s, ms, context, k))
  }

  ghost predicate RightText(s: Stream, o: Out) {
    o.Numbered? ==> o.name == s.name && 0 < o.number <= |s.lines| && o.text == s.lines[o.number - 1]
  }

  ghost predicate AllRight(s: Stream, out: seq<Out>) {
    forall o :: o in out ==> RightText(s, o)
  }

  lemma RightInThree(s: Stream, before: seq<Out>, marker: seq<Out>, lines: seq<Out>)
    requires AllRight(s, before) && AllRight(s, marker) && AllRight(s, lines)
    ensures AllRight(s, before + marker + lines)
  {
  }

  lemma OneMoreWindow(s: Stream, ms: seq<nat>, context: nat, k: nat, j: nat)
    requires Chosen(s, ms) && 1 <= k <= |ms|
    ensures InSomeWindow(s, ms, context, k, j) <==>
      InSomeWindow(s, ms, context, k - 1, j) ||
      (WindowStart(ms[k - 1], context) <= j && Covered(s, ms, context, k - 1) <= j < Covered(s, ms, context, k))
  {
    if k > 1 {
      WindowsMove(s, ms, context, k - 2, k - 1);
    }
    if WindowStart(ms[k - 1], context) <= j <= WindowEnd(ms[k - 1], context, |s.lines|) && j < Covered(s, ms, context, k - 1) {
      assert WindowStart(ms[k - 2], context) <= j <= WindowEnd(ms[k - 2], context, |s.lines|);
    }
    if InSomeWindow(s, ms, context, k - 1, j) {
      var i :| 0 <= i < k - 1 && WindowStart(ms[i], context) <= j <= WindowEnd(ms[i], context, |s.lines|);
      assert 0 <= i < k;
    }
  }

  lemma NumbersOfOneMoreWindow(s: Stream, ms: seq<nat>, context: nat, k: nat)
    requires Chosen(s, ms) && 1 <= k <= |ms|
    ensures LineNumbers(Windows(s, ms, context, k)) ==
      LineNumbers(Windows(s, ms, context, k - 1)) + Range(PrintFrom(s, ms, context, k), Covered(s, ms, context, k))
  {
    var before, sep := Windows(s, ms, context, k - 1), Marker(s, ms, context, k);
    NumberedLinesNumbers(s, PrintFrom(s, ms, context, k), Covered(s, ms, context, k));
    LineNumbersAppend(before + sep, NumberedLines(s, PrintFrom(s, ms, context, k), Covered(s, ms, context, k)));
    LineNumbersAppend(before, sep);
    assert LineNumbers(sep) == [];
    assert LineNumbers(before) + [] == LineNumbers(before);
  }

  lemma OneMoreWindowPrintsTheUnion(s: Stream, ms: seq<nat>, context: nat, k: nat, numbers: seq<nat>)
    requires Chosen(s, ms) && 1 <= k <= |ms| && PrintsTheUnion(s, ms, context, k - 1, numbers)
    ensures PrintsTheUnion(s, ms, context, k, numbers + Range(PrintFrom(s, ms, context, k), Covered(s, ms, context, k)))
  {
    var from, end := PrintFrom(s, ms, context, k), Covered(s, ms, context, k);
    if k > 1 {
      WindowsMove(s, ms, context, k - 2, k - 1);
    }
    AddNumbers(numbers, from, end);
    forall n: nat
      ensures n in numbers + Range(from, end) <==> n > 0 && InSomeWindow(s, ms, context, k, n - 1)
    {
      if n > 0 {
        OneMoreWindow(s, ms, context, k, n - 1);
      }
    }
  }

  /** Each stream prints the union of its windows, every line once, in increasing order. */
  lemma {:induction false} WindowsPrintTheUnion(s: Stream, ms: seq<nat>, context: nat, k: nat)
    requires Chosen(s, ms) && k <= |ms|
    ensures PrintsTheUnion(s, ms, context, k, LineNumbers(Windows(s, ms, context, k)))
    ensures AllRight(s, Windows(s, ms, context, k))
  {
    if k > 0 {
      WindowsPrintTheUnion(s, ms, context, k - 1);
      NumberedLinesAreRight(s, PrintFrom(s, ms, context, k), Covered(s, ms, context, k));
      RightInThree(s, Windows(s, ms, context, k - 1), Marker(s, ms, context, k),
                   NumberedLines(s, PrintFrom(s, ms, context, k), Covered(s, ms, context, k)));
      NumbersOfOneMoreWindow(s, ms, context, k);
      OneMoreWindowPrintsTheUnion(s, ms, context, k, LineNumbers(Windows(s, ms, context, k - 1)));
    }
  }

  /** A line is printed for a match, when the match is at most the context away from it. */
  ghost predicate NearMatch(s: Stream, matches: string -> bool, context: nat, j: nat) {
    exists m: nat :: m < |s.lines| && matches(s.lines[m]) && m - context <= j <= m + context
  }

  lemma InWindowMeansNear(s: Stream, ms: seq<nat>, context: nat, j: nat)
    requires Chosen(s, ms) && j < |s.lines|
    ensures InSomeWindow(s, ms, context, |ms|, j) <==> exists m :: m in ms && m - context <= j <= m + context
  {
    if i :| 0 <= i < |ms| && WindowStart(ms[i], context) <= j <= WindowEnd(ms[i], context, |s.lines|) {
      assert ms[i] in ms;
    }
    if m :| m in ms && m - context <= j <= m + context {
      var i :| 0 <= i < |ms| && ms[i] == m;
      assert WindowStart(ms[i], context) <= j <= WindowEnd(ms[i], context, |s.lines|);
    }
  }

  /** When the limit is not reached, the numbers printed are exactly those of the lines near a match. */
  lemma PrintsTheLinesNearMatches(s: Stream, matches: string -> bool, context: nat, limit: nat, n: nat)
    requires |FirstMatches(s.lines, matches, 0, limit)| < limit
    ensures var ms := FirstMatches(s.lines, matches, 0, limit);
      n in LineNumbers(Windows(s, ms, context, |ms|)) <==> 1 <= n <= |s.lines| && NearMatch(s, matches, context, n - 1)
  {
    var ms := FirstMatches(s.lines, matches, 0, limit);
    WindowsPrintTheUnion(s, ms, context, |ms|);
    forall m: nat | m < |s.lines| && matches(s.lines[m]) ensures m in ms {
      EarlyMatchesAreChosen(s.lines, matches, 0, limit, m);
    }
    if 1 <= n <= |s.lines| {
      InWindowMeansNear(s, ms, context, n - 1);
    }
  }

  /** Appending the numbers from + 1 .. end to numbers that stop at from or before. */
  lemma AddNumbers(ns: seq<nat>, from: nat, end: nat)
    requires Ascending(ns) && forall n: nat :: n in ns ==> n <= from
    ensures Ascending(ns + Range(from, end))
    ensures forall n: nat :: n in ns + Range(from, end) <==> n in ns || from < n <= end
  {
    var more := Range(from, end);
    assert forall i :: 0 <= i < |ns| ==> ns[i] in ns;
    forall n: nat | from < n <= end ensures n in more {
      assert more[n - from - 1] == n;
    }
  }

  // ---------------------------------------------------------------------------
  // Where the markers stand
  // ---------------------------------------------------------------------------

  /** A marker stands directly before the line of this number. */
  ghost predicate MarkedBefore(out: seq<Out>, number: nat) {
    exists p :: 0 <= p < |out| - 1 && out[p].Separator? && out[p + 1].Numbered? && out[p + 1].number == number
  }

  ghost predicate EndsInLine(out: seq<Out>) {
    out == [] || out[|out| - 1].Numbered?
  }

  lemma LinesMoveNoMarker(a: seq<Out>, b: seq<Out>, number: nat)
    requires EndsInLine(a) && forall o :: o in b ==> o.Numbered?
    ensures EndsInLine(a + b)
    ensures MarkedBefore(a + b, number) <==> MarkedBefore(a, number)
  {
    var ab := a + b;
    assert forall p :: |a| <= p < |ab| ==> ab[p] in b;
    if MarkedBefore(a, number) {
      var p :| 0 <= p < |a| - 1 && a[p].Separator? && a[p + 1].Numbered? && a[p + 1].number == number;
      assert ab[p] == a[p] && ab[p + 1] == a[p + 1];
    }
  }

  lemma OneMoreMarker(a: seq<Out>, b: seq<Out>, number: nat)
    requires EndsInLine(a) && b != [] && forall o :: o in b ==> o.Numbered?
    ensures EndsInLine(a + [Separator] + b)
    ensures MarkedBefore(a + [Separator] + b, number) <==> MarkedBefore(a, number) || number == b[0].number
  {
    var ab := a + [Separator] + b;
    assert forall p :: |a| < p < |ab| ==> ab[p] == b[p - |a| - 1] && ab[p] in b;
    assert ab[|a|] == Separator && ab[|a| + 1] == b[0];
    if MarkedBefore(a, number) {
      var p :| 0 <= p < |a| - 1 && a[p].Separator? && a[p + 1].Numbered? && a[p + 1].number == number;
      assert ab[p] == a[p] && ab[p + 1] == a[p + 1];
    }
  }

  lemma {:induction false} FirstNumber(s: Stream, from: nat, to: nat)
    requires from < to <= |s.lines|
    ensures NumberedLines(s, from, to) != [] && NumberedLines(s, from, to)[0] == Numbered(s.name, from + 1, s.lines[from])
  {
    if from < to - 1 {
      FirstNumber(s, from, to - 1);
    }
  }

  /** Some window among the first k, not the first, touches none before it and starts at this number. */
  ghost predicate StartsApart(s: Stream, ms: seq<nat>, context: nat, k: nat, number: nat)
    requires Chosen(s, ms) && k <= |ms|
  {
    exists i :: 1 <= i < k && Apart(s, ms, context, i) && number == WindowStart(ms[i], context) + 1
  }

  lemma OneMoreStart(s: Stream, ms: seq<nat>, context: nat, k: nat, number: nat)
    requires Chosen(s, ms) && 1 <= k <= |ms|
    ensures StartsApart(s, ms, context, k, number) <==>
      StartsApart(s, ms, context, k - 1, number) ||
      (k > 1 && Apart(s, ms, context, k - 1) && number == WindowStart(ms[k - 1], context) + 1)
  {
    if StartsApart(s, ms, context, k - 1, number) {
      var i :| 1 <= i < k - 1 && Apart(s, ms, context, i) && number == WindowStart(ms[i], context) + 1;
      assert 1 <= i < k;
    }
  }

  lemma OneMoreWindowMarks(s: Stream, ms: seq<nat>, context: nat, k: nat, number: nat, before: seq<Out>)
    requires Chosen(s, ms) && 1 <= k <= |ms| && EndsInLine(before)
    requires MarkedBefore(before, number) <==> context > 0 && StartsApart(s, ms, context, k - 1, number)
    ensures var out := before + Marker(s, ms, context, k) +
                       NumberedLines(s, PrintFrom(s, ms, context, k), Covered(s, ms, context, k));
      EndsInLine(out) && (MarkedBefore(out, number) <==> context > 0 && StartsApart(s, ms, context, k, number))
  {
    var from, end := PrintFrom(s, ms, context, k), Covered(s, ms, context, k);
    var more := NumberedLines(s, from, end);
    NumberedLinesAreRight(s, from, end);
    OneMoreStart(s, ms, context, k, number);
    if k > 1 {
      ApartMeansBeyond(s, ms, context, k - 1);
    }
    if Marker(s, ms, context, k) == [] {
      assert before + [] == before;
      LinesMoveNoMarker(before, more, number);
    } else {
      FirstNumber(s, from, end);
      OneMoreMarker(before, more, number);
    }
  }

  /**
   * With context, a marker stands exactly before each later window that shares
   * no line with an earlier one - also when the two windows merely abut.
   */
  lemma {:induction false} MarkersSeparateWindows(s: Stream, ms: seq<nat>, context: nat, k: nat, number: nat)
    requires Chosen(s, ms) && k <= |ms|
    ensures EndsInLine(Windows(s, ms, context, k))
    ensures MarkedBefore(Windows(s, ms, context, k), number) <==> context > 0 && StartsApart(s, ms, context, k, number)
  {
    if k > 0 {
      MarkersSeparateWindows(s, ms, context, k - 1, number);
      OneMoreWindowMarks(s, ms, context, k, number, Windows(s, ms, context, k - 1));
      WindowsOneMore(s, ms, context, k);
    }
  }

  lemma WindowsOneMore(s: Stream, ms: seq<nat>, context: nat, k: nat)
    requires Chosen(s, ms) && 1 <= k <= |ms|
    ensures Windows(s, ms, context, k) == Windows(s, ms, context, k - 1) + Marker(s, ms, context, k)
                                          + NumberedLines(s, PrintFrom(s, ms, context, k), Covered(s, ms, context, k))
  {
  }

  // The source's comment speaks of windows that do not abut what was printed before.

  /** Window k starts on the line right after window k - 1 ends. */
  ghost predicate Abuts(s: Stream, ms: seq<nat>, context: nat, k: nat)
    requires Chosen(s, ms) && 1 <= k < |ms|
  {
    WindowStart(ms[k], context) == WindowEnd(ms[k - 1], context, |s.lines|) + 1
  }

  ghost predicate Marked(s: Stream, ms: seq<nat>, context: nat, k: nat)
    requires Chosen(s, ms) && 1 <= k < |ms|
  {
    Marker(s, ms, context, k + 1) == [Separator]
  }

  /** What the comment asks for: a marker when the window neither overlaps nor abuts an earlier one. */
  ghost predicate MarkedByComment(s: Stream, ms: seq<nat>, context: nat, k: nat)
    requires Chosen(s, ms) && 1 <= k < |ms|
  {
    context > 0 && Apart(s, ms, context, k) && !Abuts(s, ms, context, k)
  }

  /** Two consecutive windows abut exactly when their matches are this far apart, and then the code marks them. */
  lemma AbuttingWindowsAreMarked(s: Stream, ms: seq<nat>, context: nat, k: nat)
    requires Chosen(s, ms) && 1 <= k < |ms|
    ensures Abuts(s, ms, context, k) <==> ms[k] - ms[k - 1] == 2 * context + 1
    ensures context > 0 && Abuts(s, ms, context, k) ==> Marked(s, ms, context, k) && Apart(s, ms, context, k)
  {
    assert ms[k - 1] < ms[k] < |s.lines|;
    ApartMeansBeyond(s, ms, context, k);
  }

  /** Code and comment agree on a stream exactly when no consecutive chosen matches are that far apart. */
  lemma CommentHoldsIff(s: Stream, ms: seq<nat>, context: nat)
    requires Chosen(s, ms) && context > 0
    ensures (forall k :: 1 <= k < |ms| ==> (Marked(s, ms, context, k) <==> MarkedByComment(s, ms, context, k)))
      <==> (forall k :: 1 <= k < |ms| ==> ms[k] - ms[k - 1] != 2 * context + 1)
  {
    forall k | 1 <= k < |ms|
      ensures (Marked(s, ms, context, k) <==> MarkedByComment(s, ms, context, k))
        <==> ms[k] - ms[k - 1] != 2 * context + 1
    {
      AbuttingWindowsAreMarked(s, ms, context, k);
      ApartMeansBeyond(s, ms, context, k);
    }
  }

  /** Four lines, the outer two matching, one line of context: the abutting windows are printed with a marker between. */
  lemma AbuttingExample()
    ensures var s := Stream("stdout", ["hit", "a", "b", "hit"]);
      Chosen(s, [0, 3]) && Abuts(s, [0, 3], 1, 1) &&
      Windows(s, [0, 3], 1, 2) == [
        Numbered("stdout", 1, "hit"), Numbered("stdout", 2, "a"), Separator,
        Numbered("stdout", 3, "b"), Numbered("stdout", 4, "hit")]
  {
    var s := Stream("stdout", ["hit", "a", "b", "hit"]);
    assert Windows(s, [0, 3], 1, 1) == NumberedLines(s, 0, 2);
    assert NumberedLines(s, 0, 1) == [Numbered("stdout", 1, "hit")];
    assert NumberedLines(s, 2, 3) == [Numbered("stdout", 3, "b")];
  }

  // ---------------------------------------------------------------------------
  // The loops
  // ---------------------------------------------------------------------------

  method CollectMatches(lines: seq<string>, matches: string -> bool, limit: nat) returns (ms: seq<nat>)
    requires limit > 0
    ensures ms == FirstMatches(lines, matches, 0, limit)
  {
    ms := [];
    var i := 0;
    while i < |lines|
      invariant 0 <= i <= |lines| && |ms| < limit
      invariant ms + FirstMatches(lines, matches, i, limit - |ms|) == FirstMatches(lines, matches, 0, limit)
    {
      if matches(lines[i]) {
        ms := ms + [i];
        if |ms| >= limit {
          break;
        }
      }
      i := i + 1;
    }
  }

  /** What was printed so far is flagged, from the last window's start on. */
  ghost predicate Flags(s: Stream, ms: seq<nat>, context: nat, k: nat, emitted: seq<bool>)
    requires Chosen(s, ms) && k <= |ms| && |emitted| == |s.lines|
  {
    && (forall j :: Covered(s, ms, context, k) <= j < |emitted| ==> !emitted[j])
    && (k > 0 ==> forall j :: WindowStart(ms[k - 1], context) <= j < Covered(s, ms, context, k) ==> emitted[j])
  }

  /** Whether no line from start to end was printed. */
  method NonePrinted(emitted: array<bool>, start: nat, end: nat) returns (gap: bool)
    requires start <= end < emitted.Length
    ensures gap <==> forall i :: start <= i <= end ==> !emitted[i]
  {
    gap := true;
    var j := start;
    while j <= end
      invariant start <= j <= end + 1 && gap && forall i :: start <= i < j ==> !emitted[i]
    {
      if emitted[j] {
        gap := false;
        break;
      }
      j := j + 1;
    }
  }

  /** Print, and flag, the lines from start to end that were not printed before: those from a point on. */
  method PrintNew(s: Stream, emitted: array<bool>, start: nat, end: nat, ghost from: nat, out: seq<Out>)
    returns (out': seq<Out>)
    requires start <= end < emitted.Length == |s.lines| && start <= from
    requires forall i :: start <= i <= end ==> (emitted[i] <==> i < from)
    modifies emitted
    ensures emitted[..] == old(emitted[..start]) + seq(end + 1 - start, i => true) + old(emitted[end + 1..])
    ensures out' == out + NumberedLines(s, from, end + 1)
  {
    out' := out;
    var j := start;
    while j <= end
      invariant start <= j <= end + 1
      invariant forall i :: 0 <= i < emitted.Length ==> emitted[i] == (old(emitted[i]) || start <= i < j)
      invariant out' == out + NumberedLines(s, from, j)
    {
      if !emitted[j] {
        emitted[j] := true;
        out' := out' + [Numbered(s.name, j + 1, s.lines[j])];
      }
      j := j + 1;
    }
  }

  /** A marker if there is context, this is not the first window, and none of its lines was printed. */
  method PrintMarker(s: Stream, ghost ms: seq<nat>, context: nat, ghost k: nat, m: nat, firstWindow: bool,
                     emitted: array<bool>, out: seq<Out>) returns (out': seq<Out>)
    requires Chosen(s, ms) && k < |ms| && m == ms[k] && firstWindow == (k == 0)
    requires emitted.Length == |s.lines| && Flags(s, ms, context, k, emitted[..]) && (k > 0 ==> out != [])
    ensures out' == out + Marker(s, ms, context, k + 1)
  {
    out' := out;
    var start, end := WindowStart(m, context), WindowEnd(m, context, |s.lines|);
    FlagsInWindow(s, ms, context, k, emitted[..]);
    if context > 0 && !firstWindow {
      var gap := NonePrinted(emitted, start, end);
      assert emitted[start] == emitted[..][start];
      if gap && |out'| > 0 {
        out' := out' + [Separator];
      }
    }
  }

  /** Print one window: its marker, then the lines not yet printed. */
  method PrintWindow(s: Stream, ghost ms: seq<nat>, context: nat, ghost k: nat, m: nat, firstWindow: bool,
                     emitted: array<bool>, out: seq<Out>) returns (out': seq<Out>)
    requires Chosen(s, ms) && k < |ms| && m == ms[k] && firstWindow == (k == 0)
    requires emitted.Length == |s.lines| && Flags(s, ms, context, k, emitted[..]) && (k > 0 ==> out != [])
    modifies emitted
    ensures Flags(s, ms, context, k + 1, emitted[..]) && out' != []
    ensures out' == out + Marker(s, ms, context, k + 1)
      + NumberedLines(s, PrintFrom(s, ms, context, k + 1), Covered(s, ms, context, k + 1))
  {
    out' := PrintMarker(s, ms, context, k, m, firstWindow, emitted, out);
    var start, end := WindowStart(m, context), WindowEnd(m, context, |s.lines|);
    FlagsInWindow(s, ms, context, k, emitted[..]);
    ghost var from := PrintFrom(s, ms, context, k + 1);
    assert forall i :: start <= i <= end ==> emitted[i] == emitted[..][i];
    out' := PrintNew(s, emitted, start, end, from, out');
    if k == 0 {
      FirstNumber(s, from, end + 1);
    }
  }

  /** In the next window, the flagged lines are those the windows before it reach. */
  lemma FlagsInWindow(s: Stream, ms: seq<nat>, context: nat, k: nat, flags: seq<bool>)
    requires Chosen(s, ms) && k < |ms| && |flags| == |s.lines| && Flags(s, ms, context, k, flags)
    ensures var start, end := WindowStart(ms[k], context), WindowEnd(ms[k], context, |s.lines|);
      && start <= end && Covered(s, ms, context, k) <= end + 1
      && (forall j :: start <= j <= end ==> (flags[j] <==> j < Covered(s, ms, context, k)))
  {
    if k > 0 {
      WindowsMove(s, ms, context, k - 1, k);
    }
  }

  /** One stream's windows, up to the match limit. */
  method PrintStream(s: Stream, ms: seq<nat>, context: nat, maxMatches: nat, matches: nat) returns (out: seq<Out>, matches': nat)
    requires Chosen(s, ms) && matches + |ms| <= maxMatches
    ensures out == Windows(s, ms, context, |ms|) && matches' == matches + |ms|
  {
    out, matches' := [], matches;
    var emitted := new bool[|s.lines|](i => false);
    var firstWindow := true;
    var k := 0;
    while k < |ms|
      invariant 0 <= k <= |ms| && matches' == matches + k && firstWindow == (k == 0) && (k > 0 ==> out != [])
      invariant Flags(s, ms, context, k, emitted[..]) && out == Windows(s, ms, context, k)
    {
      if matches' >= maxMatches {
        break;
      }
      out := PrintWindow(s, ms, context, k, ms[k], firstWindow, emitted, out);
      firstWindow := false;
      matches' := matches' + 1;
      k := k + 1;
    }
  }

  /** How many matches the first k streams use up: never more than the limit. */
  ghost function TotalChosen(streams: seq<Stream>, matches: string -> bool, limit: nat, k: nat): (n: nat)
    requires k <= |streams|
    ensures n <= limit
  {
    if k == 0 then 0
    else
      var before := TotalChosen(streams, matches, limit, k - 1);
      before + |FirstMatches(streams[k - 1].lines, matches, 0, limit - before)|
  }

  /** The matches chosen in stream k, out of what the earlier streams left of the limit. */
  ghost function ChosenIn(streams: seq<Stream>, matches: string -> bool, limit: nat, k: nat): (ms: seq<nat>)
    requires k < |streams|
    ensures Chosen(streams[k], ms) && TotalChosen(streams, matches, limit, k + 1) ==
      TotalChosen(streams, matches, limit, k) + |ms|
  {
    FirstMatches(streams[k].lines, matches, 0, limit - TotalChosen(streams, matches, limit, k))
  }

  ghost function AllWindows(streams: seq<Stream>, matches: string -> bool, limit: nat, context: nat, k: nat): seq<Out>
    requires k <= |streams|
  {
    if k == 0 then []
    else
      var ms := ChosenIn(streams, matches, limit, k - 1);
      AllWindows(streams, matches, limit, context, k - 1) + Windows(streams[k - 1], ms, context, |ms|)
  }

  const DEFAULT_MAX_MATCHES := 100

  function Limit(maxMatches: int): (n: nat)
    ensures n > 0 && n == if maxMatches > 0 then maxMatches else 100
  {
    if maxMatches <= 0 then DEFAULT_MAX_MATCHES else maxMatches
  }

  /** What the first k streams print and how many matches they use up. */
  ghost predicate Searched(streams: seq<Stream>, matches: string -> bool, limit: nat, context: nat, k: nat,
                           found: nat, out: seq<Out>)
    requires k <= |streams|
  {
    found == TotalChosen(streams, matches, limit, k) && out == AllWindows(streams, matches, limit, context, k)
  }

  method SearchStream(ghost streams: seq<Stream>, ghost k: nat, s: Stream, matches: string -> bool,
                      limit: nat, context: nat, found: nat, out: seq<Out>) returns (found': nat, out': seq<Out>)
    requires k < |streams| && s == streams[k]
    requires found < limit && Searched(streams, matches, limit, context, k, found, out)
    ensures found' <= limit && Searched(streams, matches, limit, context, k + 1, found', out')
  {
    var ms := CollectMatches(s.lines, matches, limit - found);
    OneMoreStream(streams, matches, limit, context, k, ms);
    if |ms| == 0 {
      return found, out;
    }
    var more;
    more, found' := PrintStream(s, ms, context, limit, found);
    out' := out + more;
  }

  method Grep(streams: seq<Stream>, matches: string -> bool, maxMatches: int, context: int) returns (out: seq<Out>)
    ensures out == AllWindows(streams, matches, Limit(maxMatches), if context < 0 then 0 else context, |streams|)
  {
    var limit := Limit(maxMatches);
    var around := if context < 0 then 0 else context;
    var found := 0;
    out := [];
    var k := 0;
    while k < |streams|
      invariant 0 <= k <= |streams| && found < limit && Searched(streams, matches, limit, around, k, found, out)
    {
      found, out := SearchStream(streams, k, streams[k], matches, limit, around, found, out);
      k := k + 1;
      if found >= limit {
        NothingAfterTheLimit(streams, matches, limit, around, k, |streams|);
        break;
      }
    }
  }

  lemma OneMoreStream(streams: seq<Stream>, matches: string -> bool, limit: nat, context: nat, k: nat, ms: seq<nat>)
    requires k < |streams| && ms == ChosenIn(streams, matches, limit, k)
    ensures AllWindows(streams, matches, limit, context, k + 1) ==
      AllWindows(streams, matches, limit, context, k) + Windows(streams[k], ms, context, |ms|)
    ensures ms == [] ==>
      AllWindows(streams, matches, limit, context, k + 1) == AllWindows(streams, matches, limit, context, k)
  {
    var before := AllWindows(streams, matches, limit, context, k);
    assert before + [] == before;
  }

  lemma NothingInTheNext(streams: seq<Stream>, matches: string -> bool, limit: nat, context: nat, k: nat)
    requires k < |streams| && TotalChosen(streams, matches, limit, k) == limit
    ensures TotalChosen(streams, matches, limit, k + 1) == limit
    ensures AllWindows(streams, matches, limit, context, k + 1) == AllWindows(streams, matches, limit, context, k)
  {
    var ms, before := ChosenIn(streams, matches, limit, k), AllWindows(streams, matches, limit, context, k);
    assert ms == [] && Windows(streams[k], ms, context, 0) == [];
    assert before + [] == before;
  }

  lemma {:induction false} NothingAfterTheLimit(streams: seq<Stream>, matches: string -> bool, limit: nat, context: nat, i: nat, k: nat)
    requires i <= k <= |streams| && TotalChosen(streams, matches, limit, i) == limit
    ensures TotalChosen(streams, matches, limit, k) == limit
    ensures AllWindows(streams, matches, limit, context, k) == AllWindows(streams, matches, limit, context, i)
    decreases k - i
  {
    if i < k {
      NothingInTheNext(streams, matches, limit, context, i);
      NothingAfterTheLimit(streams, matches, limit, context, i + 1, k);
    }
  }
}
