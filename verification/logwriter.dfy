/**
 * The capture sink of one process stream: line reassembly and redaction
 * (internal/logcap/writer.go) over size-driven rotation of a directory of
 * backups (internal/logcap/capturer.go).
 */
module LogWriter {
  import opened LogRotation
  import opened Prelude

  const MAX_PARTIAL_BYTES := 256 * 1024

  // ---------------------------------------------------------------------------
  // Line reassembly
  // ---------------------------------------------------------------------------

  /** One piece handed to the redactor: a complete line, or an overlong run without a newline. */
  datatype Chunk = Line(text: Bytes) | Flush(text: Bytes)

  /** The bytes of the input a chunk stands for. */
  function Raw(c: Chunk): Bytes {
    if c.Line? then c.text + [NEWLINE] else c.text
  }

  /** The bytes a chunk becomes on disk. */
  function Rendered(redact: Bytes -> Bytes, c: Chunk): Bytes {
    if c.Line? then redact(c.text) + [NEWLINE] else redact(c.text)
  }

  function RenderedAll(redact: Bytes -> Bytes, cs: seq<Chunk>): (r: seq<Bytes>)
    ensures |r| == |cs|
  {
    seq(|cs|, i requires 0 <= i < |cs| => Rendered(redact, cs[i]))
  }

  function RawAll(cs: seq<Chunk>): Bytes {
    if cs == [] then [] else RawAll(cs[..|cs| - 1]) + Raw(cs[|cs| - 1])
  }

  /** The position of the first newline, or -1. */
  method IndexNewline(data: Bytes) returns (i: int)
    ensures -1 <= i < |data|
    ensures i >= 0 ==> data[i] == NEWLINE && NEWLINE !in data[..i]
    ensures i == -1 ==> NEWLINE !in data
  {
    i := 0;
    while i < |data|
      invariant 0 <= i <= |data| && NEWLINE !in data[..i]
    {
      if data[i] == NEWLINE {
        return;
      }
      i := i + 1;
    }
    assert data[..|data|] == data;
    i := -1;
  }

  /** The complete lines of a stream, newest byte last, without their newlines. */
  ghost function Lines(s: Bytes): seq<Bytes> {
    if s == [] then []
    else if s[|s| - 1] == NEWLINE then Lines(s[..|s| - 1]) + [Tail(s[..|s| - 1])]
    else Lines(s[..|s| - 1])
  }

  /** What follows the last newline of a stream. */
  ghost function Tail(s: Bytes): Bytes {
    if s == [] || s[|s| - 1] == NEWLINE then []
    else Tail(s[..|s| - 1]) + [s[|s| - 1]]
  }

  ghost function AsLines(ls: seq<Bytes>): seq<Chunk> {
    seq(|ls|, i requires 0 <= i < |ls| => Line(ls[i]))
  }

  /** What one Write makes of the buffered partial line and its argument. */
  ghost function Chunks(data: Bytes): seq<Chunk> {
    AsLines(Lines(data)) + if |Tail(data)| > MAX_PARTIAL_BYTES then [Flush(Tail(data))] else []
  }

  ghost function Kept(data: Bytes): Bytes {
    if |Tail(data)| > MAX_PARTIAL_BYTES then [] else Tail(data)
  }

  lemma AsLinesAppend(a: seq<Bytes>, b: seq<Bytes>)
    ensures AsLines(a + b) == AsLines(a) + AsLines(b)
  {
  }

  lemma RawAllOne(c: Chunk)
    ensures RawAll([c]) == Raw(c)
  {
    assert [c][..0] == [];
  }

  lemma {:induction false} RawAllAppend(a: seq<Chunk>, b: seq<Chunk>)
    ensures RawAll(a + b) == RawAll(a) + RawAll(b)
  {
    if b == [] {
      assert a + b == a;
    } else {
      var front, last := b[..|b| - 1], b[|b| - 1];
      RawAllAppend(a, front);
      assert (a + b)[..|a + b| - 1] == a + front;
      Assoc(RawAll(a), RawAll(front), Raw(last));
    }
  }

  lemma {:induction false} LinesAndTailAreAll(s: Bytes)
    ensures RawAll(AsLines(Lines(s))) + Tail(s) == s
  {
    if s != [] {
      var front, last := s[..|s| - 1], s[|s| - 1];
      LinesAndTailAreAll(front);
      var before, tail := RawAll(AsLines(Lines(front))), Tail(front);
      Assoc(before, tail, [last]);
      assert s == front + [last];
      if last == NEWLINE {
        AsLinesAppend(Lines(front), [tail]);
        assert AsLines([tail]) == [Line(tail)];
        RawAllAppend(AsLines(Lines(front)), [Line(tail)]);
        RawAllOne(Line(tail));
      }
    }
  }

  lemma {:induction false} NewlinesAreOut(s: Bytes)
    ensures NEWLINE !in Tail(s) && forall l :: l in Lines(s) ==> NEWLINE !in l
  {
    if s != [] {
      NewlinesAreOut(s[..|s| - 1]);
    }
  }

  /** Reading on from the tail is reading on from the whole. */
  lemma {:induction false} ReadOn(s: Bytes, t: Bytes)
    ensures Lines(s + t) == Lines(s) + Lines(Tail(s) + t)
    ensures Tail(s + t) == Tail(Tail(s) + t)
  {
    if t == [] {
      assert s + t == s && Tail(s) + t == Tail(s);
      NewlinesAreOut(s);
      NoNewlineNoLine(Tail(s));
    } else {
      var front, b := t[..|t| - 1], t[|t| - 1];
      ReadOn(s, front);
      assert (s + t)[..|s + t| - 1] == s + front;
      assert (Tail(s) + t)[..|Tail(s) + t| - 1] == Tail(s) + front;
      assert (s + t)[|s + t| - 1] == b && (Tail(s) + t)[|Tail(s) + t| - 1] == b;
    }
  }

  lemma {:induction false} NoNewlineNoLine(s: Bytes)
    requires NEWLINE !in s
    ensures Lines(s) == [] && Tail(s) == s
  {
    if s != [] {
      NoNewlineNoLine(s[..|s| - 1]);
      assert s == s[..|s| - 1] + [s[|s| - 1]];
    }
  }

  lemma OneLine(l: Bytes)
    requires NEWLINE !in l
    ensures Lines(l + [NEWLINE]) == [l] && Tail(l + [NEWLINE]) == []
  {
    assert (l + [NEWLINE])[..|l|] == l;
    NoNewlineNoLine(l);
  }

  lemma AfterOneLine(l: Bytes, rest: Bytes)
    requires NEWLINE !in l
    ensures Lines(l + [NEWLINE] + rest) == [l] + Lines(rest)
    ensures Tail(l + [NEWLINE] + rest) == Tail(rest)
  {
    OneLine(l);
    ReadOn(l + [NEWLINE], rest);
    assert [] + rest == rest;
  }

  lemma CutAtNewline(t: Bytes, w: Bytes, j: nat)
    requires j < |w| && w[j] == NEWLINE
    ensures t + w == (t + w[..j]) + [NEWLINE] + w[j + 1..]
  {
  }

  /** Taking a first line off. */
  lemma FirstLine(data: Bytes, i: nat)
    requires i < |data| && data[i] == NEWLINE && NEWLINE !in data[..i]
    ensures Lines(data) == [data[..i]] + Lines(data[i + 1..])
    ensures Tail(data) == Tail(data[i + 1..])
  {
    CutAtNewline([], data, i);
    NothingBefore(data);
    NothingBefore(data[..i]);
    AfterOneLine(data[..i], data[i + 1..]);
  }

  lemma NothingBefore<T>(s: seq<T>)
    ensures [] + s == s
  {
  }

  /** The chunks and the partial line left after a sequence of Writes. */
  ghost function ChunksOf(writes: seq<Bytes>): seq<Chunk> {
    if writes == [] then []
    else
      var front := writes[..|writes| - 1];
      ChunksOf(front) + Chunks(PartialAfter(front) + writes[|writes| - 1])
  }

  ghost function PartialAfter(writes: seq<Bytes>): Bytes {
    if writes == [] then []
    else Kept(PartialAfter(writes[..|writes| - 1]) + writes[|writes| - 1])
  }

  lemma NothingMore<T>(s: seq<T>)
    ensures s + [] == s
  {
  }

  lemma OneWriteKeepsAll(data: Bytes)
    ensures RawAll(Chunks(data)) + Kept(data) == data
  {
    LinesAndTailAreAll(data);
    var ls, tail := AsLines(Lines(data)), Tail(data);
    if |tail| > MAX_PARTIAL_BYTES {
      RawAllAppend(ls, [Flush(tail)]);
      RawAllOne(Flush(tail));
      NothingMore(RawAll(Chunks(data)));
    } else {
      NothingMore(ls);
    }
  }

  /** The raw chunks and the buffered partial together are exactly the input, however it is split. */
  lemma {:induction false} NothingLostNothingAdded(writes: seq<Bytes>)
    ensures RawAll(ChunksOf(writes)) + PartialAfter(writes) == Concat(writes)
  {
    if writes != [] {
      var front, w := writes[..|writes| - 1], writes[|writes| - 1];
      NothingLostNothingAdded(front);
      var data := PartialAfter(front) + w;
      OneWriteKeepsAll(data);
      RawAllAppend(ChunksOf(front), Chunks(data));
      Assoc(RawAll(ChunksOf(front)), RawAll(Chunks(data)), Kept(data));
      Assoc(RawAll(ChunksOf(front)), PartialAfter(front), w);
    }
  }

  /** The buffered partial is bounded and holds no newline; no line and no flush holds one either. */
  lemma {:induction false} PartialIsBounded(writes: seq<Bytes>)
    ensures |PartialAfter(writes)| <= MAX_PARTIAL_BYTES && NEWLINE !in PartialAfter(writes)
    ensures forall c :: c in ChunksOf(writes) ==>
      NEWLINE !in c.text && (c.Flush? ==> |c.text| > MAX_PARTIAL_BYTES)
  {
    if writes != [] {
      var front, w := writes[..|writes| - 1], writes[|writes| - 1];
      PartialIsBounded(front);
      NewlinesAreOut(PartialAfter(front) + w);
    }
  }

  /** No write ends with an unterminated run longer than the bound. */
  ghost predicate NoOverlongBoundary(writes: seq<Bytes>) {
    forall k :: 0 <= k <= |writes| ==> FitsAfter(writes[..k])
  }

  ghost predicate FitsAfter(writes: seq<Bytes>) {
    |Tail(Concat(writes))| <= MAX_PARTIAL_BYTES
  }

  /**
   * The chunks are the lines of the stream, and the partial its tail, exactly
   * when no write ends inside an overlong line; otherwise some line was cut.
   */
  lemma {:induction false} LinesOfTheStream(writes: seq<Bytes>)
    ensures NoOverlongBoundary(writes) ==>
      ChunksOf(writes) == AsLines(Lines(Concat(writes))) && PartialAfter(writes) == Tail(Concat(writes))
    ensures !NoOverlongBoundary(writes) ==> exists c :: c in ChunksOf(writes) && c.Flush?
  {
    if writes != [] {
      var front, w := writes[..|writes| - 1], writes[|writes| - 1];
      LinesOfTheStream(front);
      OneMoreBoundary(writes);
      if NoOverlongBoundary(front) {
        OneMoreWrite(Concat(front), w);
        if |Tail(Concat(writes))| > MAX_PARTIAL_BYTES {
          assert Flush(Tail(Concat(writes))) in ChunksOf(writes);
        }
      } else {
        var c :| c in ChunksOf(front) && c.Flush?;
        assert c in ChunksOf(writes);
      }
    }
  }

  lemma OneMoreBoundary(writes: seq<Bytes>)
    requires writes != []
    ensures NoOverlongBoundary(writes) <==>
      NoOverlongBoundary(writes[..|writes| - 1]) && FitsAfter(writes)
  {
    var front := writes[..|writes| - 1];
    forall k | 0 <= k <= |front| ensures FitsAfter(front[..k]) <==> FitsAfter(writes[..k]) {
      assert front[..k] == writes[..k];
    }
    assert writes[..|writes|] == writes;
  }

  lemma OneMoreWrite(s: Bytes, w: Bytes)
    ensures Tail(s + w) == Tail(Tail(s) + w)
    ensures AsLines(Lines(s + w)) == AsLines(Lines(s)) + AsLines(Lines(Tail(s) + w))
    ensures |Tail(s + w)| <= MAX_PARTIAL_BYTES ==>
      Chunks(Tail(s) + w) == AsLines(Lines(Tail(s) + w)) && Kept(Tail(s) + w) == Tail(s + w)
    ensures |Tail(s + w)| > MAX_PARTIAL_BYTES ==> Flush(Tail(s + w)) in Chunks(Tail(s) + w)
  {
    ReadOn(s, w);
    AsLinesAppend(Lines(s), Lines(Tail(s) + w));
    AtOnce(Tail(s) + w);
  }

  lemma AtOnce(data: Bytes)
    ensures |Tail(data)| <= MAX_PARTIAL_BYTES ==> Chunks(data) == AsLines(Lines(data)) && Kept(data) == Tail(data)
    ensures |Tail(data)| > MAX_PARTIAL_BYTES ==> Flush(Tail(data)) in Chunks(data)
  {
  }

  // ---------------------------------------------------------------------------
  // Which streams hide how they were split
  // ---------------------------------------------------------------------------

  /** Every terminated line fits the partial buffer, and what follows the last one is at most one byte longer. */
  ghost predicate SplitProof(s: Bytes) {
    (forall l :: l in Lines(s) ==> |l| <= MAX_PARTIAL_BYTES) && |Tail(s)| <= MAX_PARTIAL_BYTES + 1
  }

  lemma {:induction false} FirstNewline(s: Bytes) returns (i: nat)
    requires NEWLINE in s
    ensures i < |s| && s[i] == NEWLINE && NEWLINE !in s[..i]
  {
    var front := s[..|s| - 1];
    if NEWLINE in front {
      i := FirstNewline(front);
      assert s[..i] == front[..i];
    } else {
      i := |s| - 1;
    }
  }

  /** What waits for its newline fits, when the line it begins does, or the tail it begins is at most one byte over. */
  lemma WaitFits(t: Bytes, w: Bytes)
    requires NEWLINE !in t && w != [] && SplitProof(t + w)
    ensures |t| <= MAX_PARTIAL_BYTES
  {
    if NEWLINE in w {
      var j := FirstNewline(w);
      CutAtNewline(t, w, j);
      AfterOneLine(t + w[..j], w[j + 1..]);
      assert Lines(t + w)[0] == t + w[..j];
    } else {
      NoNewlineNoLine(t + w);
    }
  }

  /** Inside a split-proof stream, nothing longer than the buffer waits for its newline. */
  lemma WaitingPartFits(p: Bytes, w: Bytes)
    requires w != [] && SplitProof(p + w)
    ensures SplitProof(p) && |Tail(p)| <= MAX_PARTIAL_BYTES
  {
    ReadOn(p, w);
    NewlinesAreOut(p);
    InEither(Lines(p), Lines(Tail(p) + w));
    WaitFits(Tail(p), w);
  }

  lemma InEither(a: seq<Bytes>, b: seq<Bytes>)
    ensures forall l :: l in a + b <==> l in a || l in b
  {
  }

  lemma NothingWaiting(kept: Bytes)
    requires NEWLINE !in kept && |kept| <= MAX_PARTIAL_BYTES
    ensures Chunks(kept) == [] && Kept(kept) == kept
  {
    NoNewlineNoLine(kept);
  }

  /** The chunks of a stream in one write, cut in two where nothing too long waits. */
  lemma ChunksInTwo(p: Bytes, w: Bytes)
    requires |Tail(p)| <= MAX_PARTIAL_BYTES
    ensures Kept(p) == Tail(p) && Chunks(p) + Chunks(Tail(p) + w) == Chunks(p + w) && Kept(Tail(p) + w) == Kept(p + w)
  {
    var d := Tail(p) + w;
    ReadOn(p, w);
    AtOnce(p);
    AsLinesAppend(Lines(p), Lines(d));
    Assoc(AsLines(Lines(p)), AsLines(Lines(d)), if |Tail(d)| > MAX_PARTIAL_BYTES then [Flush(Tail(d))] else []);
  }

  /** A split-proof stream gives the chunks of one write, however it is split. */
  lemma {:induction false} SplitsAreOneWrite(writes: seq<Bytes>)
    requires SplitProof(Concat(writes))
    ensures ChunksOf(writes) == Chunks(Concat(writes)) && PartialAfter(writes) == Kept(Concat(writes))
  {
    if writes != [] {
      var front, w := writes[..|writes| - 1], writes[|writes| - 1];
      var p := Concat(front);
      if w == [] {
        NothingMore(p);
        SplitsAreOneWrite(front);
        NothingMore(PartialAfter(front));
        NewlinesAreOut(p);
        NothingWaiting(PartialAfter(front));
        NothingMore(ChunksOf(front));
      } else {
        WaitingPartFits(p, w);
        SplitsAreOneWrite(front);
        ChunksInTwo(p, w);
      }
    }
  }

  /** The same stream gives the same chunks and the same partial, for any two splits. */
  lemma SplitDoesNotShow(writes: seq<Bytes>, other: seq<Bytes>)
    requires Concat(writes) == Concat(other) && SplitProof(Concat(writes))
    ensures ChunksOf(writes) == ChunksOf(other) && PartialAfter(writes) == PartialAfter(other)
  {
    SplitsAreOneWrite(writes);
    SplitsAreOneWrite(other);
  }

  /** A line of a stream is what waits for its newline just before it. */
  lemma {:induction false} LineWasWaiting(s: Bytes, n: nat) returns (k: nat)
    requires n < |Lines(s)|
    ensures k < |s| && Lines(s[..k]) == Lines(s)[..n] && Tail(s[..k]) == Lines(s)[n]
  {
    var front := s[..|s| - 1];
    if n < |Lines(front)| {
      k := LineWasWaiting(front, n);
      assert s[..k] == front[..k];
    } else {
      k := |s| - 1;
    }
  }

  /** Cut where too much waits, the chunk after the lines before the cut is a flush of what waits. */
  lemma CutInTheWait(s: Bytes, k: nat)
    requires k <= |s| && |Tail(s[..k])| > MAX_PARTIAL_BYTES
    ensures Concat([s[..k], s[k..]]) == s
    ensures var n, cs := |Lines(s[..k])|, ChunksOf([s[..k], s[k..]]);
      n < |cs| && cs[n] == Flush(Tail(s[..k]))
  {
    var a, b := s[..k], s[k..];
    assert [a, b][..1] == [a];
    OneWrite(a);
    OneConcat(a);
    assert a + b == s;
    assert ChunksOf([a, b]) == Chunks(a) + Chunks(PartialAfter([a]) + b);
  }

  /** Every other stream has a split that differs from the single write. */
  lemma OverlongLineDependsOnTheSplit(s: Bytes) returns (writes: seq<Bytes>)
    requires !SplitProof(s)
    ensures Concat(writes) == s == Concat([s]) && ChunksOf(writes) != ChunksOf([s])
  {
    OneWrite(s);
    OneConcat(s);
    if l :| l in Lines(s) && |l| > MAX_PARTIAL_BYTES {
      var n :| 0 <= n < |Lines(s)| && Lines(s)[n] == l;
      var k := LineWasWaiting(s, n);
      CutInTheWait(s, k);
      writes := [s[..k], s[k..]];
      assert ChunksOf([s])[n] == Line(l);
    } else {
      var k := |s| - 1;
      LongTailWaits(s);
      CutInTheWait(s, k);
      writes := [s[..k], s[k..]];
      assert ChunksOf([s])[|Lines(s)|] == Flush(Tail(s));
    }
  }

  lemma LongTailWaits(s: Bytes)
    requires |Tail(s)| > 0
    ensures s != [] && Lines(s[..|s| - 1]) == Lines(s) && |Tail(s[..|s| - 1])| == |Tail(s)| - 1
  {
  }

  /** How a stream is split never shows in its chunks exactly when the stream is split-proof. */
  lemma SplitNeverShowsIff(s: Bytes)
    ensures (forall writes, other :: Concat(writes) == s && Concat(other) == s ==> ChunksOf(writes) == ChunksOf(other))
      <==> SplitProof(s)
  {
    if SplitProof(s) {
      forall writes, other | Concat(writes) == s && Concat(other) == s ensures ChunksOf(writes) == ChunksOf(other) {
        SplitDoesNotShow(writes, other);
      }
    } else {
      var writes := OverlongLineDependsOnTheSplit(s);
    }
  }

  lemma OneConcat(w: Bytes)
    ensures Concat([w]) == w
  {
  }

  lemma OneWrite(w: Bytes)
    ensures ChunksOf([w]) == Chunks(w) && PartialAfter([w]) == Kept(w)
  {
    assert [] + w == w;
  }

  lemma OnlyALine(text: Bytes)
    requires NEWLINE !in text
    ensures Chunks(text + [NEWLINE]) == [Line(text)]
  {
    NoNewlineNoLine(text);
    assert (text + [NEWLINE])[..|text|] == text;
    assert Lines(text + [NEWLINE]) == [text];
  }

  // ---------------------------------------------------------------------------
  // The writer object
  // ---------------------------------------------------------------------------

  class RotatingWriter {
    const dir: LogDir
    const redact: Bytes -> Bytes
    var size: int
    var partial: Bytes
    var closed: bool

    /** size is the length of the active file while the writer is open. */
    ghost predicate Valid()
      reads this, dir
    {
      dir.config.maxFiles >= 1 && (!closed ==> Active in dir.files && size == |dir.files[Active]|)
    }

    /** Open for appending; the active file is created when absent. */
    constructor (dir: LogDir, redact: Bytes -> Bytes)
      requires dir.config.maxFiles >= 1
      modifies dir
      ensures Valid() && this.dir == dir && this.redact == redact && !closed && partial == []
      ensures dir.files == if Active in old(dir.files) then old(dir.files) else old(dir.files)[Active := []]
    {
      this.dir, this.redact := dir, redact;
      partial, closed := [], false;
      size := if Active in dir.files then |dir.files[Active]| else 0;
      new;
      if Active !in dir.files {
        dir.files := dir.files[Active := []];
      }
    }

    method Rotate()
      requires Valid() && !closed
      modifies this`size, dir
      ensures Valid() && dir.files == Rotated(old(dir.files), dir.config)[Active := []]
      ensures Lookup(dir.files, Backup(1, dir.config.compress)) == Some(old(dir.files)[Active])
    {
      dir.RotateNow();
      RotatedHolds(old(dir.files), dir.config, Active);
      dir.files := dir.files[Active := []];
      size := 0;
    }

    method Emit(s: Bytes)
      requires Valid() && !closed
      modifies this`size, dir
      ensures Valid() && dir.files == Emitted(old(dir.files), dir.config, s)
      ensures var was, cap := old(dir.files)[Active], dir.config.maxFileBytes;
        if cap > 0 && |was| > 0 && |was| + |s| > cap then
          dir.files[Active] == s && Lookup(dir.files, Backup(1, dir.config.compress)) == Some(was)
        else dir.files == old(dir.files)[Active := was + s]
    {
      if dir.config.maxFileBytes > 0 && size > 0 && size + |s| > dir.config.maxFileBytes {
        Rotate();
      }
      assert [] + s == s;
      dir.files := dir.files[Active := dir.files[Active] + s];
      size := size + |s|;
    }

    /** None when the writer is closed; otherwise the whole argument is taken. */
    method Write(p: Bytes) returns (n: Option<nat>)
      requires Valid()
      modifies this, dir
      ensures Valid() && closed == old(closed)
      ensures closed ==> n == None && dir.files == old(dir.files) && partial == old(partial)
      ensures !closed ==> n == Some(|p|) && partial == Kept(old(partial) + p)
      ensures !closed ==>
        dir.files == EmittedAll(old(dir.files), dir.config, RenderedAll(redact, Chunks(old(partial) + p)))
    {
      if closed {
        return None;
      }
      var data := partial + p;
      ghost var all := data;
      ghost var done: seq<Chunk> := [];
      partial := [];
      while true
        invariant Valid() && !closed
        invariant done + Chunks(data) == Chunks(all) && Kept(data) == Kept(all)
        invariant dir.files == EmittedAll(old(dir.files), dir.config, RenderedAll(redact, done))
        decreases |data|
      {
        var i := IndexNewline(data);
        if i < 0 {
          NoMoreLines(data);
          if |data| > MAX_PARTIAL_BYTES {
            OneMoreChunk(old(dir.files), dir.config, redact, done, Flush(data));
            Emit(redact(data));
            partial := [];
          } else {
            NothingMore(done);
            partial := data;
          }
          return Some(|p|);
        }
        var line := data[..i];
        TakeFirstChunk(all, done, data, i);
        OneMoreChunk(old(dir.files), dir.config, redact, done, Line(line));
        data := data[i + 1..];
        Emit(redact(line) + [NEWLINE]);
        done := done + [Line(line)];
      }
    }

    /** Flush the partial line, without a cap check, and close. */
    method Close()
      requires Valid()
      modifies this, dir
      ensures Valid() && closed
      ensures old(closed) ==> dir.files == old(dir.files)
      ensures !old(closed) ==> dir.files == Flushed(old(dir.files), redact, old(partial)) && partial == []
      ensures !old(closed) && old(partial) == [] ==> dir.files == old(dir.files)
      ensures !old(closed) && old(partial) != [] ==>
        dir.files == old(dir.files)[Active := old(dir.files)[Active] + redact(old(partial))]
    {
      if closed {
        return;
      }
      closed := true;
      if |partial| > 0 {
        dir.files := dir.files[Active := dir.files[Active] + redact(partial)];
        partial := [];
      }
    }
  }

  lemma FirstChunk(data: Bytes, i: nat)
    requires i < |data| && data[i] == NEWLINE && NEWLINE !in data[..i]
    ensures Chunks(data) == [Line(data[..i])] + Chunks(data[i + 1..])
    ensures Kept(data) == Kept(data[i + 1..])
  {
    FirstLine(data, i);
    AsLinesAppend([data[..i]], Lines(data[i + 1..]));
    assert AsLines([data[..i]]) == [Line(data[..i])];
    var flushed := if |Tail(data)| > MAX_PARTIAL_BYTES then [Flush(Tail(data))] else [];
    Assoc([Line(data[..i])], AsLines(Lines(data[i + 1..])), flushed);
  }

  lemma TakeFirstChunk(all: Bytes, done: seq<Chunk>, data: Bytes, i: nat)
    requires i < |data| && data[i] == NEWLINE && NEWLINE !in data[..i]
    requires done + Chunks(data) == Chunks(all) && Kept(data) == Kept(all)
    ensures (done + [Line(data[..i])]) + Chunks(data[i + 1..]) == Chunks(all) && Kept(data[i + 1..]) == Kept(all)
  {
    FirstChunk(data, i);
    Assoc(done, [Line(data[..i])], Chunks(data[i + 1..]));
  }

  lemma NoMoreLines(data: Bytes)
    requires NEWLINE !in data
    ensures |data| > MAX_PARTIAL_BYTES ==> Chunks(data) == [Flush(data)] && Kept(data) == []
    ensures |data| <= MAX_PARTIAL_BYTES ==> Chunks(data) == [] && Kept(data) == data
  {
    NoNewlineNoLine(data);
  }

  lemma OneMoreChunk(fs: Files, c: Config, redact: Bytes -> Bytes, done: seq<Chunk>, chunk: Chunk)
    requires Active in fs
    ensures EmittedAll(fs, c, RenderedAll(redact, done + [chunk])) ==
      Emitted(EmittedAll(fs, c, RenderedAll(redact, done)), c, Rendered(redact, chunk))
  {
    var rendered := RenderedAll(redact, done + [chunk]);
    assert rendered[..|done|] == RenderedAll(redact, done);
  }

  lemma {:induction false} EmittedInTwo(fs: Files, c: Config, a: seq<Bytes>, b: seq<Bytes>)
    requires Active in fs
    ensures EmittedAll(fs, c, a + b) == EmittedAll(EmittedAll(fs, c, a), c, b)
  {
    if b == [] {
      assert a + b == a;
    } else {
      EmittedInTwo(fs, c, a, b[..|b| - 1]);
      assert (a + b)[..|a + b| - 1] == a + b[..|b| - 1];
    }
  }

  /** The directory after a sequence of Writes, each as its contract says. */
  ghost function FilesFrom(fs: Files, c: Config, redact: Bytes -> Bytes, writes: seq<Bytes>): (r: Files)
    requires Active in fs
    ensures Active in r
  {
    if writes == [] then fs
    else
      var front := writes[..|writes| - 1];
      EmittedAll(FilesFrom(fs, c, redact, front), c, RenderedAll(redact, Chunks(PartialAfter(front) + writes[|writes| - 1])))
  }

  lemma RenderedInTwo(redact: Bytes -> Bytes, a: seq<Chunk>, b: seq<Chunk>)
    ensures RenderedAll(redact, a + b) == RenderedAll(redact, a) + RenderedAll(redact, b)
  {
  }

  lemma MoreChunks(fs: Files, c: Config, redact: Bytes -> Bytes, a: seq<Chunk>, b: seq<Chunk>)
    requires Active in fs
    ensures EmittedAll(fs, c, RenderedAll(redact, a + b)) ==
      EmittedAll(EmittedAll(fs, c, RenderedAll(redact, a)), c, RenderedAll(redact, b))
  {
    RenderedInTwo(redact, a, b);
    EmittedInTwo(fs, c, RenderedAll(redact, a), RenderedAll(redact, b));
  }

  lemma {:induction false} FilesAfterAreTheChunks(fs: Files, c: Config, redact: Bytes -> Bytes, writes: seq<Bytes>)
    requires Active in fs
    ensures FilesFrom(fs, c, redact, writes) == EmittedAll(fs, c, RenderedAll(redact, ChunksOf(writes)))
  {
    if writes != [] {
      var front := writes[..|writes| - 1];
      FilesAfterAreTheChunks(fs, c, redact, front);
      MoreChunks(fs, c, redact, ChunksOf(front), Chunks(PartialAfter(front) + writes[|writes| - 1]));
    }
  }

  /** Without a newline, what is longer than the buffer reaches the file redacted, and what fits waits. */
  lemma OverlongRunReachesTheFile(fs: Files, c: Config, redact: Bytes -> Bytes, run: Bytes)
    requires Active in fs && NEWLINE !in run
    ensures |run| <= 256 * 1024 ==> FilesFrom(fs, c, redact, [run]) == fs && PartialAfter([run]) == run
    ensures |run| > 256 * 1024 ==>
      var was, now, text := fs[Active], FilesFrom(fs, c, redact, [run])[Active], redact(run);
      && PartialAfter([run]) == []
      && now == if c.maxFileBytes > 0 && was != [] && |was| + |text| > c.maxFileBytes then text else was + text
  {
    OneWrite(run);
    NoMoreLines(run);
    FilesAfterAreTheChunks(fs, c, redact, [run]);
    if |run| > MAX_PARTIAL_BYTES {
      NothingBefore<Chunk>([Flush(run)]);
      OneMoreChunk(fs, c, redact, [], Flush(run));
      assert RenderedAll(redact, []) == [];
    } else {
      assert RenderedAll(redact, []) == [];
    }
  }

  // ---------------------------------------------------------------------------
  // The last flush and the cap
  // ---------------------------------------------------------------------------

  /** The directory after Close flushed a partial line. */
  function Flushed(fs: Files, redact: Bytes -> Bytes, partial: Bytes): (r: Files)
    requires Active in fs
    ensures Active in r
  {
    if |partial| > 0 then fs[Active := fs[Active] + redact(partial)] else fs
  }

  /**
   * After the flush the active file is within the cap, or is the flushed piece
   * alone, exactly when an emit of that piece would not have rotated first.
   */
  lemma FlushKeepsTheCapIff(fs: Files, c: Config, redact: Bytes -> Bytes, partial: Bytes)
    requires Active in fs && c.maxFileBytes > 0 && |partial| > 0
    ensures var active := Flushed(fs, redact, partial)[Active];
      (|active| <= c.maxFileBytes || active == redact(partial))
      <==> !MustRotate(c, |fs[Active]|, |redact(partial)|)
  {
    assert |fs[Active]| == 0 ==> fs[Active] + redact(partial) == redact(partial);
  }

  /** Under every cap: a line that fills the active file, one more byte, and Close. */
  lemma FlushCanPassTheCap(c: Config)
    requires c.maxFileBytes > 0
    ensures var id := (b: Bytes) => b;
      var writes := [seq(c.maxFileBytes - 1, i => 65) + [NEWLINE], [66]];
      var fs := FilesFrom(map[Active := []], c, id, writes);
      && |fs[Active]| == c.maxFileBytes && PartialAfter(writes) == [66]
      && |Flushed(fs, id, PartialAfter(writes))[Active]| == c.maxFileBytes + 1
      && Flushed(fs, id, PartialAfter(writes))[Active] != [66]
  {
    var id := (b: Bytes) => b;
    var line: Bytes := seq(c.maxFileBytes - 1, i => 65);
    var first := line + [NEWLINE];
    FillsTheFile(c, id, line);
    assert [first, [66]][..1] == [first];
    NothingMore<bv8>([66]);
    assert [] + [66] == [66];
    NothingWaiting([66]);
    assert RenderedAll(id, []) == [];
  }

  lemma FillsTheFile(c: Config, id: Bytes -> Bytes, line: Bytes)
    requires c.maxFileBytes > 0 && NEWLINE !in line && id(line) == line
    ensures PartialAfter([line + [NEWLINE]]) == []
    ensures FilesFrom(map[Active := []], c, id, [line + [NEWLINE]])[Active] == line + [NEWLINE]
  {
    var w := line + [NEWLINE];
    OneWrite(w);
    OnlyALine(line);
    OneLine(line);
    FilesAfterAreTheChunks(map[Active := []], c, id, [w]);
    assert RenderedAll(id, [Line(line)]) == [w];
    assert [w][..0] == [];
    assert [] + w == w;
  }

  // ---------------------------------------------------------------------------
  // Sessions: open, write, close, and open again
  // ---------------------------------------------------------------------------

  /** What a session's writes put into the directory. */
  ghost function WrittenPuts(redact: Bytes -> Bytes, writes: seq<Bytes>): seq<Put> {
    Emits(RenderedAll(redact, ChunksOf(writes)))
  }

  /** What closing it puts there. */
  ghost function ClosingPuts(redact: Bytes -> Bytes, writes: seq<Bytes>): seq<Put> {
    if |PartialAfter(writes)| > 0 then [Append(redact(PartialAfter(writes)))] else []
  }

  ghost function SessionPuts(redact: Bytes -> Bytes, sessions: seq<seq<Bytes>>): seq<Put> {
    if sessions == [] then []
    else
      var last := sessions[|sessions| - 1];
      SessionPuts(redact, sessions[..|sessions| - 1]) + (WrittenPuts(redact, last) + ClosingPuts(redact, last))
  }

  /** The directory after closed sessions on a fresh stream, each opened on what the one before left. */
  ghost function FilesAfterSessions(c: Config, redact: Bytes -> Bytes, sessions: seq<seq<Bytes>>): (fs: Files)
    ensures Active in fs
  {
    if sessions == [] then map[Active := []]
    else
      var last := sessions[|sessions| - 1];
      Flushed(FilesFrom(FilesAfterSessions(c, redact, sessions[..|sessions| - 1]), c, redact, last), redact, PartialAfter(last))
  }

  lemma WritesArePuts(fs: Files, c: Config, redact: Bytes -> Bytes, writes: seq<Bytes>)
    requires Active in fs
    ensures FilesFrom(fs, c, redact, writes) == AfterPuts(fs, c, WrittenPuts(redact, writes))
  {
    FilesAfterAreTheChunks(fs, c, redact, writes);
    EmitsAreEmitted(fs, c, RenderedAll(redact, ChunksOf(writes)));
  }

  lemma SessionIsPuts(fs: Files, c: Config, redact: Bytes -> Bytes, writes: seq<Bytes>)
    requires Active in fs
    ensures Flushed(FilesFrom(fs, c, redact, writes), redact, PartialAfter(writes)) ==
      AfterPuts(fs, c, WrittenPuts(redact, writes) + ClosingPuts(redact, writes))
  {
    WritesArePuts(fs, c, redact, writes);
    PutsInTwo(fs, c, WrittenPuts(redact, writes), ClosingPuts(redact, writes));
    OnePut(AfterPuts(fs, c, WrittenPuts(redact, writes)), c, Append(redact(PartialAfter(writes))));
  }

  lemma OnePut(fs: Files, c: Config, put: Put)
    requires Active in fs
    ensures AfterPuts(fs, c, [put]) == AfterPut(fs, c, put)
  {
    assert [put][..0] == [];
  }

  lemma {:induction false} SessionsArePuts(c: Config, redact: Bytes -> Bytes, sessions: seq<seq<Bytes>>)
    ensures FilesAfterSessions(c, redact, sessions) == AfterPuts(map[Active := []], c, SessionPuts(redact, sessions))
  {
    if sessions != [] {
      var front, last := sessions[..|sessions| - 1], sessions[|sessions| - 1];
      SessionsArePuts(c, redact, front);
      SessionIsPuts(FilesAfterSessions(c, redact, front), c, redact, last);
      PutsInTwo(map[Active := []], c, SessionPuts(redact, front), WrittenPuts(redact, last) + ClosingPuts(redact, last));
    }
  }

  /**
   * End to end, over any number of closed sessions and an open one: backups and
   * active file read back as a suffix of the redacted chunks and the redacted
   * last partials, cut between them; and the raw chunks and partial of a session
   * are exactly what was written in it.
   */
  lemma DiskHoldsTheRedactedStream(c: Config, redact: Bytes -> Bytes, sessions: seq<seq<Bytes>>, writes: seq<Bytes>)
    returns (k: nat)
    requires c.maxFiles >= 1
    ensures var puts := SessionPuts(redact, sessions) + WrittenPuts(redact, writes);
      k <= |puts| && ReadsAs(FilesFrom(FilesAfterSessions(c, redact, sessions), c, redact, writes), c, Texts(puts), k)
    ensures forall session :: session in sessions + [writes] ==>
      RawAll(ChunksOf(session)) + PartialAfter(session) == Concat(session)
  {
    var before := SessionPuts(redact, sessions);
    SessionsArePuts(c, redact, sessions);
    WritesArePuts(FilesAfterSessions(c, redact, sessions), c, redact, writes);
    PutsInTwo(map[Active := []], c, before, WrittenPuts(redact, writes));
    k := DirectoryIsASuffix(c, before + WrittenPuts(redact, writes));
    forall session | session in sessions + [writes]
      ensures RawAll(ChunksOf(session)) + PartialAfter(session) == Concat(session)
    {
      NothingLostNothingAdded(session);
    }
  }
}
