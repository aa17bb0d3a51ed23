/**
 * What the writer captured, as the reader gives it back: the two notions of a
 * line in internal/logcap/writer.go and internal/logcap/read.go meet on disk.
 */
module LogRoundTrip {
  import opened Prelude
  import opened LogReader
  import opened LogRotation
  import opened LogWriter

  function Redacted(redact: Bytes -> Bytes, lines: seq<Bytes>): (r: seq<Bytes>)
    ensures |r| == |lines| && forall i :: 0 <= i < |lines| ==> r[i] == redact(lines[i])
  {
    seq(|lines|, i requires 0 <= i < |lines| => redact(lines[i]))
  }

  /** Each line with its newline. */
  function Ended(lines: seq<Bytes>): (r: seq<Bytes>)
    ensures |r| == |lines| && forall i :: 0 <= i < |lines| ==> r[i] == lines[i] + [NEWLINE]
  {
    seq(|lines|, i requires 0 <= i < |lines| => lines[i] + [NEWLINE])
  }

  ghost predicate AllPlain(lines: seq<Bytes>) {
    forall l :: l in lines ==> Plain(l)
  }

  ghost predicate NewlineFree(lines: seq<Bytes>) {
    forall l :: l in lines ==> NEWLINE !in l
  }

  /** A redactor that puts no newline into a line. */
  ghost predicate KeepsLines(redact: Bytes -> Bytes) {
    forall b :: NEWLINE !in b ==> NEWLINE !in redact(b)
  }

  // ---------------------------------------------------------------------------
  // The file on disk
  // ---------------------------------------------------------------------------

  lemma PrefixIsNoLonger(ss: seq<Bytes>)
    requires ss != []
    ensures |Concat(ss)| == |Concat(ss[..|ss| - 1])| + |ss[|ss| - 1]|
  {
  }

  /** Emits that fit under the cap together, or meet no cap, all stay in the active file. */
  lemma {:induction false} AllFit(c: Config, ss: seq<Bytes>)
    requires c.maxFileBytes <= 0 || |Concat(ss)| <= c.maxFileBytes
    ensures EmittedAll(map[Active := []], c, ss) == map[Active := Concat(ss)]
  {
    if ss != [] {
      PrefixIsNoLonger(ss);
      AllFit(c, ss[..|ss| - 1]);
    }
  }

  lemma {:induction false} TerminatedMore(lines: seq<Bytes>, x: Bytes)
    ensures Terminated(lines + [x]) == Terminated(lines) + (x + [NEWLINE])
  {
    if lines == [] {
      assert [x][1..] == [];
      assert [] + [x] == [x];
    } else {
      TerminatedMore(lines[1..], x);
      assert (lines + [x])[1..] == lines[1..] + [x];
      Assoc(lines[0] + [NEWLINE], Terminated(lines[1..]), x + [NEWLINE]);
    }
  }

  lemma {:induction false} EndedConcat(lines: seq<Bytes>)
    ensures Concat(Ended(lines)) == Terminated(lines)
  {
    if lines != [] {
      var front, x := lines[..|lines| - 1], lines[|lines| - 1];
      EndedConcat(front);
      TerminatedMore(front, x);
      assert lines == front + [x];
      assert Ended(lines)[..|front|] == Ended(front);
    }
  }

  // ---------------------------------------------------------------------------
  // Reading it
  // ---------------------------------------------------------------------------

  lemma FirstTerminated(lines: seq<Bytes>)
    requires lines != [] && NEWLINE !in lines[0]
    ensures var s := Terminated(lines);
      s != [] && s[..LineEnd(s)] == lines[0] + [NEWLINE] && s[LineEnd(s)..] == Terminated(lines[1..])
  {
    var first, s := lines[0], Terminated(lines);
    assert s[..|first|] == first;
    LineEndIsHere(s, |first| + 1);
  }

  /** The reader's raw lines of newline-ended lines are those lines. */
  lemma {:induction false} RawLinesOfTerminated(lines: seq<Bytes>)
    requires NewlineFree(lines)
    ensures RawLines(Terminated(lines)) == Ended(lines)
  {
    if lines != [] {
      FirstTerminated(lines);
      RawLinesOfTerminated(lines[1..]);
      assert Ended(lines) == [lines[0] + [NEWLINE]] + Ended(lines[1..]);
    }
  }

  lemma LinesOnDisk(redact: Bytes -> Bytes, s: Bytes)
    requires KeepsLines(redact)
    ensures Concat(RenderedAll(redact, AsLines(Lines(s)))) == Terminated(Redacted(redact, Lines(s)))
    ensures NewlineFree(Redacted(redact, Lines(s)))
  {
    var lines := Redacted(redact, Lines(s));
    assert RenderedAll(redact, AsLines(Lines(s))) == Ended(lines);
    EndedConcat(lines);
    NewlinesAreOut(s);
  }

  /**
   * While nothing was rotated and no line was cut, reading the active file gives
   * the redacted lines of the input as the reader shows them; and those very
   * lines when they are plain. A line still waiting for its newline is not there yet.
   */
  lemma ReadsTheRedactedLines(c: Config, redact: Bytes -> Bytes, writes: seq<Bytes>)
    requires KeepsLines(redact) && NoOverlongBoundary(writes)
    requires c.maxFileBytes <= 0 || |Concat(RenderedAll(redact, ChunksOf(writes)))| <= c.maxFileBytes
    ensures var file := FilesFrom(map[Active := []], c, redact, writes)[Active];
      var lines := Redacted(redact, Lines(Concat(writes)));
      && ShownAll(RawLines(file)) == ShownAll(Ended(lines))
      && (AllPlain(lines) ==> ShownAll(RawLines(file)) == lines)
  {
    var lines := Redacted(redact, Lines(Concat(writes)));
    FilesAfterAreTheChunks(map[Active := []], c, redact, writes);
    AllFit(c, RenderedAll(redact, ChunksOf(writes)));
    LinesOfTheStream(writes);
    LinesOnDisk(redact, Concat(writes));
    RawLinesOfTerminated(lines);
    if AllPlain(lines) {
      WrittenLinesReadBack(lines);
    }
  }
}
