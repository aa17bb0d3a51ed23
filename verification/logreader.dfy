/**
 * Reading captured logs back (internal/logcap/read.go): bounded line reading
 * over a fragmenting buffered reader, and grep with merged context windows.
 */
module LogReader {
  import opened Prelude

  const CARRIAGE_RETURN: bv8 := 13
  const MAX_LINE_BYTES := 1024 * 1024

  /** The bytes of " ...[line truncated]". */
  const TRUNCATED_MARKER: Bytes :=
    [32, 46, 46, 46, 91, 108, 105, 110, 101, 32, 116, 114, 117, 110, 99, 97, 116, 101, 100, 93]

  // ---------------------------------------------------------------------------
  // What the lines of a file are
  // ---------------------------------------------------------------------------

  /** Where the first raw line ends: just after the first newline, or at the end. */
  function LineEnd(s: Bytes): (n: nat)
    ensures n <= |s| && (s != [] ==> n > 0)
    ensures n > 0 ==> NEWLINE !in s[..n - 1]
    ensures n < |s| ==> n > 0 && s[n - 1] == NEWLINE
  {
    if s == [] then 0
    else if s[0] == NEWLINE then 1
    else
      assert s == [s[0]] + s[1..];
      1 + LineEnd(s[1..])
  }

  function RawLines(s: Bytes): seq<Bytes>
    decreases |s|
  {
    if s == [] then [] else [s[..LineEnd(s)]] + RawLines(s[LineEnd(s)..])
  }

  function TrimOne(s: Bytes, b: bv8): Bytes {
    if s != [] && s[|s| - 1] == b then s[..|s| - 1] else s
  }

  /** A raw line cut to its first MAX_LINE_BYTES, its line ending removed, marked when it was cut. */
  function Shown(raw: Bytes): (line: Bytes)
    ensures |line| <= MAX_LINE_BYTES + |TRUNCATED_MARKER|
  {
    var cut := if |raw| > MAX_LINE_BYTES then raw[..MAX_LINE_BYTES] else raw;
    TrimOne(TrimOne(cut, NEWLINE), CARRIAGE_RETURN) + if |raw| > MAX_LINE_BYTES then TRUNCATED_MARKER else []
  }

  function ShownAll(raws: seq<Bytes>): (lines: seq<Bytes>)
    ensures |lines| == |raws| && forall i :: 0 <= i < |raws| ==> lines[i] == Shown(raws[i])
  {
    seq(|raws|, i requires 0 <= i < |raws| => Shown(raws[i]))
  }

  // ---------------------------------------------------------------------------
  // The buffered reader and the bounded line reader
  // ---------------------------------------------------------------------------

  datatype SliceEnd = AtNewline | BufferFull | AtEOF

  /** A reader over a file; where its buffer fills up is up to the environment. */
  class BufReader {
    const content: Bytes
    var pos: nat

    ghost predicate Valid()
      reads this
    {
      pos <= |content|
    }

    constructor (content: Bytes)
      ensures Valid() && this.content == content && pos == 0
    {
      this.content, pos := content, 0;
    }

    /**
     * Up to and including the next newline; or a fragment without one, of any
     * positive length, when the buffer fills first; or what is left at the end.
     * How much the buffer can still take is arbitrary.
     */
    method ReadSlice() returns (chunk: Bytes, end: SliceEnd)
      requires Valid()
      modifies this
      ensures Valid() && pos == old(pos) + |chunk| && chunk == content[old(pos)..pos]
      ensures end.AtNewline? ==> chunk != [] && chunk[|chunk| - 1] == NEWLINE && NEWLINE !in chunk[..|chunk| - 1]
      ensures end.BufferFull? ==> chunk != [] && NEWLINE !in chunk
      ensures end.AtEOF? ==> pos == |content| && NEWLINE !in chunk
    {
      var start := pos;
      var buffered: nat :| buffered > 0;
      while pos < |content| && content[pos] != NEWLINE && pos - start < buffered
        invariant start <= pos <= |content| && pos - start <= buffered && NEWLINE !in content[start..pos]
      {
        pos := pos + 1;
      }
      if pos - start == buffered {
        end := BufferFull;
      } else if pos < |content| {
        pos := pos + 1;
        end := AtNewline;
      } else {
        end := AtEOF;
      }
      chunk := content[start..pos];
      assert end.AtNewline? ==> chunk[..|chunk| - 1] == content[start..pos - 1];
    }
  }

  lemma LineEndIsHere(s: Bytes, n: nat)
    requires n <= |s| && (n > 0 ==> NEWLINE !in s[..n - 1])
    requires (n > 0 && s[n - 1] == NEWLINE) || n == |s|
    ensures LineEnd(s) == n
  {
    var m: int := LineEnd(s);
    assert forall k :: 0 <= k < n - 1 ==> s[k] == s[..n - 1][k] && s[k] != NEWLINE;
    assert forall k :: 0 <= k < m - 1 ==> s[k] == s[..m - 1][k] && s[k] != NEWLINE;
  }

  /** A newline-free stretch and a last chunk that ends at a newline or at the end make the line. */
  lemma LineEndsAt(content: Bytes, start: nat, seen: nat, pos: nat, chunk: Bytes)
    requires start + seen <= pos <= |content| && chunk == content[start + seen..pos]
    requires NEWLINE !in content[start..start + seen]
    requires (chunk != [] && chunk[|chunk| - 1] == NEWLINE && NEWLINE !in chunk[..|chunk| - 1]) ||
             (pos == |content| && NEWLINE !in chunk)
    ensures LineEnd(content[start..]) == pos - start
    ensures content[start..][..pos - start] == content[start..pos]
  {
    var rest, n := content[start..], pos - start;
    forall k | 0 <= k < n - 1 ensures rest[k] != NEWLINE {
      if k < seen {
        assert rest[k] == content[start..start + seen][k];
      } else {
        assert rest[k] == chunk[k - seen];
        assert k - seen < |chunk| - 1 ==> chunk[k - seen] == chunk[..|chunk| - 1][k - seen];
      }
    }
    if chunk != [] {
      assert rest[n - 1] == chunk[|chunk| - 1];
    }
    LineEndIsHere(rest, n);
  }

  /** Retain what fits of one more chunk. */
  function Retained(raw: Bytes): Bytes {
    if |raw| > MAX_LINE_BYTES then raw[..MAX_LINE_BYTES] else raw
  }

  method Retain(buf: Bytes, truncated: bool, chunk: Bytes, ghost before: Bytes)
    returns (buf': Bytes, truncated': bool)
    requires buf == Retained(before) && (truncated <==> |before| > MAX_LINE_BYTES)
    ensures buf' == Retained(before + chunk) && (truncated' <==> |before + chunk| > MAX_LINE_BYTES)
  {
    buf', truncated' := buf, truncated;
    if |buf| < MAX_LINE_BYTES {
      var room := MAX_LINE_BYTES - |buf|;
      if |chunk| > room {
        buf' := buf + chunk[..room];
        truncated' := true;
      } else {
        buf' := buf + chunk;
      }
    } else if |chunk| > 0 {
      truncated' := true;
    }
  }

  function Finished(buf: Bytes, truncated: bool): Bytes {
    TrimOne(TrimOne(buf, NEWLINE), CARRIAGE_RETURN) + if truncated then TRUNCATED_MARKER else []
  }

  method FinishLine(buf: Bytes, truncated: bool) returns (line: Bytes)
    ensures line == Finished(buf, truncated)
  {
    line := buf;
    if |line| > 0 && line[|line| - 1] == NEWLINE {
      line := line[..|line| - 1];
    }
    if |line| > 0 && line[|line| - 1] == CARRIAGE_RETURN {
      line := line[..|line| - 1];
    }
    if truncated {
      line := line + TRUNCATED_MARKER;
    } else {
      assert line + [] == line;
    }
  }

  /** From start to pos is the next line of the content, shown; there is none exactly at the end. */
  ghost predicate ReadsLine(content: Bytes, start: nat, pos: nat, line: Option<Bytes>, atEOF: bool)
    requires start <= pos <= |content|
  {
    var rest := content[start..];
    && pos == start + LineEnd(rest)
    && line == (if rest == [] then None else Some(Shown(rest[..LineEnd(rest)])))
    && (atEOF ==> pos == |content|) && (rest == [] ==> atEOF)
  }

  lemma RetainedShows(content: Bytes, start: nat, pos: nat, raw: Bytes, atEOF: bool)
    requires start <= pos <= |content| && pos == start + LineEnd(content[start..])
    requires raw == content[start..pos] && if atEOF then pos == |content| else raw != []
    ensures |Retained(raw)| == 0 <==> raw == []
    ensures ReadsLine(content, start, pos,
      if raw == [] then None else Some(Finished(Retained(raw), |raw| > MAX_LINE_BYTES)), atEOF)
  {
    assert raw == content[start..][..LineEnd(content[start..])];
  }

  /** What a reader answers for the bytes it has kept. */
  function Answer(buf: Bytes, truncated: bool, atEOF: bool): Option<Bytes> {
    if atEOF && |buf| == 0 then None else Some(Finished(buf, truncated))
  }

  /** The last chunk of a line completes it. */
  lemma LastChunk(content: Bytes, start: nat, pos: nat, seen: Bytes, chunk: Bytes, end: SliceEnd, buf: Bytes, truncated: bool)
    requires start + |seen| <= pos <= |content| && NEWLINE !in seen
    requires seen == content[start..start + |seen|] && chunk == content[start + |seen|..pos]
    requires buf == Retained(seen + chunk) && (truncated <==> |seen + chunk| > MAX_LINE_BYTES)
    requires match end
      case AtEOF => pos == |content| && NEWLINE !in chunk
      case AtNewline => chunk != [] && chunk[|chunk| - 1] == NEWLINE && NEWLINE !in chunk[..|chunk| - 1]
      case BufferFull => false
    ensures ReadsLine(content, start, pos, Answer(buf, truncated, end.AtEOF?), end.AtEOF?)
  {
    LineEndsAt(content, start, |seen|, pos, chunk);
    assert content[start..pos] == seen + chunk;
    RetainedShows(content, start, pos, seen + chunk, end.AtEOF?);
  }

  /** One line, however the reader fragments it. */
  method ReadLimitedLine(br: BufReader) returns (line: Option<Bytes>, atEOF: bool)
    requires br.Valid()
    modifies br
    ensures br.Valid()
    ensures old(br.pos) <= br.pos && ReadsLine(br.content, old(br.pos), br.pos, line, atEOF)
  {
    ghost var start := br.pos;
    var buf: Bytes := [];
    var truncated := false;
    while true
      invariant br.Valid() && start <= br.pos && NEWLINE !in br.content[start..br.pos]
      invariant buf == Retained(br.content[start..br.pos]) && (truncated <==> br.pos - start > MAX_LINE_BYTES)
      decreases |br.content| - br.pos
    {
      ghost var at := br.pos;
      var chunk, end := br.ReadSlice();
      buf, truncated := Retain(buf, truncated, chunk, br.content[start..at]);
      Joins(br.content, start, at, br.pos);
      if end.BufferFull? {
        continue;
      }
      LastChunk(br.content, start, br.pos, br.content[start..at], chunk, end, buf, truncated);
      if end.AtEOF? && |buf| == 0 {
        return None, true;
      }
      var finished := FinishLine(buf, truncated);
      return Some(finished), end.AtEOF?;
    }
  }

  lemma Joins(s: Bytes, a: nat, b: nat, c: nat)
    requires a <= b <= c <= |s|
    ensures s[a..b] + s[b..c] == s[a..c]
  {
  }

  /** The lines of a file; a file that does not exist has none. */
  method ReadAllLines(file: Option<Bytes>) returns (lines: seq<Bytes>)
    ensures lines == if file.None? then [] else ShownAll(RawLines(file.value))
  {
    lines := [];
    if file.None? {
      return;
    }
    var br := new BufReader(file.value);
    ghost var content := file.value;
    assert content[0..] == content;
    while true
      invariant br.Valid() && br.content == content
      invariant lines + ShownAll(RawLines(content[br.pos..])) == ShownAll(RawLines(content))
      decreases |content| - br.pos
    {
      ghost var rest := content[br.pos..];
      var line, atEOF := ReadLimitedLine(br);
      assert content[br.pos..] == rest[LineEnd(rest)..];
      if line.Some? {
        OneMoreLine(rest);
        Assoc(lines, [line.value], ShownAll(RawLines(content[br.pos..])));
        lines := lines + [line.value];
      }
      if atEOF {
        assert content[br.pos..] == [];
        return;
      }
    }
  }

  lemma OneMoreLine(s: Bytes)
    requires s != []
    ensures ShownAll(RawLines(s)) == [Shown(s[..LineEnd(s)])] + ShownAll(RawLines(s[LineEnd(s)..]))
  {
  }

  // ---------------------------------------------------------------------------
  // What the lines of a file mean
  // ---------------------------------------------------------------------------

  function Joined(parts: seq<Bytes>): Bytes {
    if parts == [] then [] else parts[0] + Joined(parts[1..])
  }

  /** Not empty, ending at its only newline; the last line of a file may lack one. */
  ghost predicate IsRawLine(raw: Bytes, last: bool) {
    raw != [] && NEWLINE !in raw[..|raw| - 1] && (raw[|raw| - 1] == NEWLINE || last)
  }

  /** The raw lines are the file, cut after every newline and nowhere else. */
  lemma {:induction false} RawLinesAreTheFile(s: Bytes)
    ensures Joined(RawLines(s)) == s
    ensures forall i :: 0 <= i < |RawLines(s)| ==> IsRawLine(RawLines(s)[i], i == |RawLines(s)| - 1)
    decreases |s|
  {
    if s != [] {
      var n := LineEnd(s);
      RawLinesAreTheFile(s[n..]);
      assert s == s[..n] + s[n..];
      assert s[..n][..n - 1] == s[..n - 1];
    }
  }

  /** A line a writer can get back unchanged. */
  ghost predicate Plain(line: Bytes) {
    |line| < MAX_LINE_BYTES && NEWLINE !in line && (line != [] ==> line[|line| - 1] != CARRIAGE_RETURN)
  }

  function Terminated(lines: seq<Bytes>): Bytes {
    if lines == [] then [] else lines[0] + [NEWLINE] + Terminated(lines[1..])
  }

  /** Lines written with newlines and read back are the same lines. */
  lemma {:induction false} WrittenLinesReadBack(lines: seq<Bytes>)
    requires forall l :: l in lines ==> Plain(l)
    ensures ShownAll(RawLines(Terminated(lines))) == lines
  {
    if lines != [] {
      FirstWritten(lines);
      WrittenLinesReadBack(lines[1..]);
      OneMoreLine(Terminated(lines));
      assert lines == [lines[0]] + lines[1..];
    }
  }

  lemma FirstWritten(lines: seq<Bytes>)
    requires lines != [] && Plain(lines[0])
    ensures var s := Terminated(lines);
      s != [] && Shown(s[..LineEnd(s)]) == lines[0] && s[LineEnd(s)..] == Terminated(lines[1..])
  {
    var first, s := lines[0], Terminated(lines);
    assert s[..|first|] == first;
    LineEndIsHere(s, |first| + 1);
    assert s[..|first| + 1] == first + [NEWLINE];
    PlainShows(first);
  }

  lemma OneRawLine(raw: Bytes)
    requires raw != [] && NEWLINE !in raw[..|raw| - 1]
    ensures ShownAll(RawLines(raw)) == [Shown(raw)]
  {
    LineEndIsHere(raw, |raw|);
    WholeAndNothing(raw);
    OneMoreLine(raw);
  }

  lemma WholeAndNothing(s: Bytes)
    ensures s[..|s|] == s && s[|s|..] == []
  {
  }

  lemma EndingShows(line: Bytes)
    requires |line| <= 1_048_574
    ensures Shown(line + [13, 10]) == line
  {
    var raw := line + [13, 10];
    assert raw[..|raw| - 1] == line + [13];
    assert (line + [13])[..|line|] == line;
    assert line + [] == line;
  }

  lemma NoEndingShows(line: Bytes)
    requires NEWLINE !in line && |line| <= 1_048_574 && line != [] && line[|line| - 1] != 13
    ensures Shown(line) == line
  {
    assert line + [] == line;
  }

  /** A line ending in carriage return and newline reads back without either; the last line needs no newline. */
  lemma LineEndingsAreRemoved(line: Bytes)
    requires NEWLINE !in line && |line| <= 1_048_574
    ensures ShownAll(RawLines(line + [13, 10])) == [line]
    ensures line != [] && line[|line| - 1] != 13 ==> ShownAll(RawLines(line)) == [line]
  {
    NoNewlineBefore(line);
    EndingShows(line);
    ReadsAsOne(line + [13, 10], line);
    if line != [] && line[|line| - 1] != 13 {
      NoEndingShows(line);
      ReadsAsOne(line, line);
    }
  }

  lemma ReadsAsOne(raw: Bytes, line: Bytes)
    requires raw != [] && NEWLINE !in raw[..|raw| - 1] && Shown(raw) == line
    ensures ShownAll(RawLines(raw)) == [line]
  {
    OneRawLine(raw);
  }

  lemma NoNewlineBefore(line: Bytes)
    requires NEWLINE !in line
    ensures var raw := line + [13, 10];
      NEWLINE !in raw[..|raw| - 1]
    ensures line != [] ==> NEWLINE !in line[..|line| - 1]
  {
    var raw := line + [13, 10];
    assert raw[..|raw| - 1] == line + [13];
  }

  lemma CutShows(raw: Bytes)
    requires |raw| > 1_048_576 && raw[1_048_575] != NEWLINE
    ensures var kept := if raw[1_048_575] == 13 then raw[..1_048_575] else raw[..1_048_576];
      Shown(raw) == kept + [32, 46, 46, 46, 91, 108, 105, 110, 101, 32, 116, 114, 117, 110, 99, 97, 116, 101, 100, 93]
  {
    var cut := raw[..1_048_576];
    assert cut[|cut| - 1] == raw[1_048_575];
    assert cut[..|cut| - 1] == raw[..1_048_575];
  }

  /** An overlong line reads back as its first mebibyte, less one trailing carriage return, and the marker. */
  lemma OverlongLineIsMarked(raw: Bytes)
    requires |raw| > 1_048_576 && NEWLINE !in raw[..|raw| - 1]
    ensures var kept := if raw[1_048_575] == 13 then raw[..1_048_575] else raw[..1_048_576];
      ShownAll(RawLines(raw)) ==
        [kept + [32, 46, 46, 46, 91, 108, 105, 110, 101, 32, 116, 114, 117, 110, 99, 97, 116, 101, 100, 93]]
  {
    OneRawLine(raw);
    assert raw[..|raw| - 1][1_048_575] == raw[1_048_575];
    CutShows(raw);
  }

  lemma PlainShows(line: Bytes)
    requires Plain(line)
    ensures Shown(line + [NEWLINE]) == line
  {
    var raw := line + [NEWLINE];
    assert raw[..|raw| - 1] == line;
    assert line + [] == line;
  }
}
