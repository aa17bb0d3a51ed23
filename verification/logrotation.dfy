/**
 * Rotation of one stream's log files (internal/logcap/capturer.go): the active
 * file and its numbered backups, plain or gzipped. A file is its content; gzip
 * relabels a file and keeps the content.
 */
module LogRotation {
  import opened Prelude

  datatype Name = Active | Backup(index: nat, gz: bool)

  type Files = map<Name, Bytes>

  datatype Config = Config(maxFileBytes: int, maxFiles: nat, compress: bool)

  const DEFAULT_MAX_FILE_MB := 10
  const DEFAULT_MAX_FILES := 5

  /** What a new capturer works with: there is always a backup slot and a positive cap. */
  function NewConfig(maxFileMB: int, maxFiles: int): (c: Config)
    ensures c.maxFiles >= 1 && c.maxFileBytes >= 1024 * 1024 && c.compress
    ensures c.maxFiles == if maxFiles > 0 then maxFiles else 5
    ensures c.maxFileBytes == if maxFileMB > 0 then maxFileMB * 1_048_576 else 10_485_760
  {
    Config((if maxFileMB <= 0 then DEFAULT_MAX_FILE_MB else maxFileMB) * 1024 * 1024,
           if maxFiles <= 0 then DEFAULT_MAX_FILES else maxFiles, true)
  }

  function Concat(parts: seq<Bytes>): Bytes {
    if parts == [] then [] else Concat(parts[..|parts| - 1]) + parts[|parts| - 1]
  }

  function Lookup(fs: Files, n: Name): Option<Bytes> {
    if n in fs then Some(fs[n]) else None
  }

  // ---------------------------------------------------------------------------
  // rotateNow
  // ---------------------------------------------------------------------------

  /** What each name holds after a rotation, in terms of what the names held before. */
  function AfterRotation(fs: Files, c: Config, n: Name): Option<Bytes> {
    match n
    case Active => None
    case Backup(i, gz) =>
      if i == 1 then (if gz == c.compress then Lookup(fs, Active) else None)
      else if 2 <= i <= c.maxFiles then Lookup(fs, Backup(i - 1, gz))
      else Lookup(fs, n)
  }

  /** The rotated directory as a map; only these names can hold anything. */
  function Rotated(fs: Files, c: Config): Files {
    var names := fs.Keys + {Backup(1, c.compress)} + (set n | n in fs && n.Backup? :: Backup(n.index + 1, n.gz));
    map n | n in names && AfterRotation(fs, c, n).Some? :: AfterRotation(fs, c, n).value
  }

  lemma RotatedHolds(fs: Files, c: Config, n: Name)
    ensures Lookup(Rotated(fs, c), n) == AfterRotation(fs, c, n)
  {
    if n.Backup? && 2 <= n.index <= c.maxFiles && Backup(n.index - 1, n.gz) in fs {
      var m := Backup(n.index - 1, n.gz);
      assert n == Backup(m.index + 1, m.gz);
    }
  }

  lemma RotatedPlainly(fs: Files, c: Config)
    requires c.maxFiles >= 1
    ensures var gs := Rotated(fs, c);
      && Active !in gs && Backup(1, !c.compress) !in gs && Lookup(gs, Backup(1, c.compress)) == Lookup(fs, Active)
      && (forall i: nat, gz :: 2 <= i <= c.maxFiles ==> Lookup(gs, Backup(i, gz)) == Lookup(fs, Backup(i - 1, gz)))
      && forall i: nat, gz :: i == 0 || i > c.maxFiles ==> Lookup(gs, Backup(i, gz)) == Lookup(fs, Backup(i, gz))
  {
    forall n ensures Lookup(Rotated(fs, c), n) == AfterRotation(fs, c, n) {
      RotatedHolds(fs, c, n);
    }
    assert Lookup(Rotated(fs, c), Active) == None && Lookup(Rotated(fs, c), Backup(1, !c.compress)) == None;
  }

  lemma SameLookupsSameFiles(fs: Files, gs: Files)
    requires forall n :: Lookup(fs, n) == Lookup(gs, n)
    ensures fs == gs
  {
    forall n ensures (n in fs <==> n in gs) && (n in fs ==> fs[n] == gs[n]) {
      assert Lookup(fs, n) == Lookup(gs, n);
    }
  }

  /** os.Rename: replaces the target; a missing source changes nothing. */
  function Renamed(fs: Files, src: Name, dst: Name): Files {
    if src in fs then (fs - {src})[dst := fs[src]] else fs
  }

  class LogDir {
    const config: Config
    var files: Files

    constructor (config: Config, files: Files)
      ensures this.config == config && this.files == files
    {
      this.config, this.files := config, files;
    }

    method Rename(src: Name, dst: Name)
      modifies this
      ensures files == Renamed(old(files), src, dst)
    {
      files := Renamed(files, src, dst);
    }

    /** Move slot i, in either form, to the free slot i + 1. */
    method ShiftOne(i: nat)
      requires i >= 1 && Lookup(files, Backup(i + 1, false)) == None && Lookup(files, Backup(i + 1, true)) == None
      modifies this
      ensures forall n :: Lookup(files, n) == Moved(old(files), i, n)
    {
      Rename(Backup(i, false), Backup(i + 1, false));
      Rename(Backup(i, true), Backup(i + 1, true));
    }

    /** Drop the oldest backup and shift the others up one slot, oldest first. */
    method ShiftBackups()
      requires config.maxFiles >= 1
      modifies this
      ensures forall m :: Lookup(files, m) == Shifted(old(files), config.maxFiles, 0, m)
    {
      var n := config.maxFiles;
      files := files - {Backup(n, false)};
      files := files - {Backup(n, true)};
      var i := n - 1;
      while i >= 1
        invariant 0 <= i < n
        invariant forall m :: Lookup(files, m) == Shifted(old(files), n, i, m)
      {
        ShiftOne(i);
        i := i - 1;
      }
    }

    /** Shift the backups up one slot, oldest first, and move the active file into the first. */
    method RotateNow()
      requires config.maxFiles >= 1
      modifies this
      ensures files == Rotated(old(files), config)
      ensures Active !in files && Backup(1, !config.compress) !in files
      ensures Lookup(files, Backup(1, config.compress)) == Lookup(old(files), Active)
      ensures forall i: nat, gz :: 2 <= i <= config.maxFiles ==>
        Lookup(files, Backup(i, gz)) == Lookup(old(files), Backup(i - 1, gz))
      ensures forall i: nat, gz :: i == 0 || i > config.maxFiles ==>
        Lookup(files, Backup(i, gz)) == Lookup(old(files), Backup(i, gz))
    {
      ShiftBackups();
      ghost var n, shifted := config.maxFiles, files;
      if Active in files {
        Rename(Active, Backup(1, false));
        if config.compress {
          Rename(Backup(1, false), Backup(1, true));
        }
      }
      forall m ensures Lookup(files, m) == Lookup(Rotated(old(files), config), m) {
        RotatedHolds(old(files), config, m);
        assert Lookup(shifted, m) == Shifted(old(files), n, 0, m);
        assert Lookup(shifted, Active) == Shifted(old(files), n, 0, Active);
      }
      SameLookupsSameFiles(files, Rotated(old(files), config));
      RotatedPlainly(old(files), config);
    }

    /** Rotate a file that reached the threshold; a missing file needs nothing. */
    method RotateOne() returns (rotated: bool)
      requires config.maxFiles >= 1
      modifies this
      ensures rotated <==> Active in old(files) && |old(files)[Active]| >= config.maxFileBytes
      ensures files == if rotated then Rotated(old(files), config) else old(files)
    {
      if Active !in files || |files[Active]| < config.maxFileBytes {
        return false;
      }
      RotateNow();
      rotated := true;
    }
  }

  ghost function Moved(fs: Files, i: nat, name: Name): Option<Bytes> {
    if name.Backup? && name.index == i then None
    else if name.Backup? && name.index == i + 1 then Lookup(fs, Backup(i, name.gz))
    else Lookup(fs, name)
  }

  /** A name once the slots above i have been shifted: slot i + 1 is free. */
  ghost function Shifted(fs: Files, n: nat, i: nat, name: Name): Option<Bytes> {
    if name.Backup? && name.index == i + 1 then None
    else if name.Backup? && i + 2 <= name.index <= n then Lookup(fs, Backup(name.index - 1, name.gz))
    else Lookup(fs, name)
  }

  // ---------------------------------------------------------------------------
  // Writing with a size cap
  // ---------------------------------------------------------------------------

  predicate MustRotate(c: Config, size: int, added: int) {
    c.maxFileBytes > 0 && size > 0 && size + added > c.maxFileBytes
  }

  /** The directory after one chunk is written to the active file, rotating first at the cap. */
  function Emitted(fs: Files, c: Config, s: Bytes): Files
    requires Active in fs
  {
    if MustRotate(c, |fs[Active]|, |s|) then Rotated(fs, c)[Active := s]
    else fs[Active := fs[Active] + s]
  }

  function EmittedAll(fs: Files, c: Config, ss: seq<Bytes>): (r: Files)
    requires Active in fs
    ensures Active in r
  {
    if ss == [] then fs else Emitted(EmittedAll(fs, c, ss[..|ss| - 1]), c, ss[|ss| - 1])
  }

  /**
   * What a writer does to the directory: an emit rotates first at the cap, the
   * append of a last partial line does not.
   */
  datatype Put = Emit(text: Bytes) | Append(text: Bytes)

  function AfterPut(fs: Files, c: Config, put: Put): (r: Files)
    requires Active in fs
    ensures Active in r
  {
    match put
    case Emit(s) => Emitted(fs, c, s)
    case Append(s) => fs[Active := fs[Active] + s]
  }

  function AfterPuts(fs: Files, c: Config, puts: seq<Put>): (r: Files)
    requires Active in fs
    ensures Active in r
  {
    if puts == [] then fs else AfterPut(AfterPuts(fs, c, puts[..|puts| - 1]), c, puts[|puts| - 1])
  }

  function Texts(puts: seq<Put>): (ss: seq<Bytes>)
    ensures |ss| == |puts| && forall i :: 0 <= i < |puts| ==> ss[i] == puts[i].text
  {
    seq(|puts|, i requires 0 <= i < |puts| => puts[i].text)
  }

  function Emits(ss: seq<Bytes>): (puts: seq<Put>)
    ensures |puts| == |ss| && forall i :: 0 <= i < |ss| ==> puts[i] == Emit(ss[i])
  {
    seq(|ss|, i requires 0 <= i < |ss| => Emit(ss[i]))
  }

  lemma {:induction false} EmitsAreEmitted(fs: Files, c: Config, ss: seq<Bytes>)
    requires Active in fs
    ensures AfterPuts(fs, c, Emits(ss)) == EmittedAll(fs, c, ss)
  {
    if ss != [] {
      EmitsAreEmitted(fs, c, ss[..|ss| - 1]);
      assert Emits(ss)[..|ss| - 1] == Emits(ss[..|ss| - 1]);
    }
  }

  lemma OneMorePut(fs: Files, c: Config, puts: seq<Put>, put: Put)
    requires Active in fs
    ensures AfterPuts(fs, c, puts + [put]) == AfterPut(AfterPuts(fs, c, puts), c, put)
  {
    assert (puts + [put])[..|puts|] == puts;
  }

  lemma {:induction false} PutsInTwo(fs: Files, c: Config, a: seq<Put>, b: seq<Put>)
    requires Active in fs
    ensures AfterPuts(fs, c, a + b) == AfterPuts(AfterPuts(fs, c, a), c, b)
  {
    if b == [] {
      assert a + b == a;
    } else {
      var front, last := b[..|b| - 1], b[|b| - 1];
      PutsInTwo(fs, c, a, front);
      OneMorePut(fs, c, a + front, last);
      assert a + b == a + front + [last];
    }
  }

  /** After every emit the active file is within the cap, or is a single oversized chunk. */
  lemma ActiveWithinCap(fs: Files, c: Config, ss: seq<Bytes>)
    requires Active in fs && c.maxFileBytes > 0 && ss != []
    ensures var active := EmittedAll(fs, c, ss)[Active];
      |active| <= c.maxFileBytes || active == ss[|ss| - 1]
  {
    var before := EmittedAll(fs, c, ss[..|ss| - 1]);
    assert before[Active] == [] ==> before[Active] + ss[|ss| - 1] == ss[|ss| - 1];
  }

  // ---------------------------------------------------------------------------
  // What the directory remembers
  // ---------------------------------------------------------------------------

  /** What was put so far, grouped into the rotated segments, oldest first, and the active one. */
  datatype History = History(segments: seq<seq<Bytes>>, active: seq<Bytes>)

  ghost function Flat(segments: seq<seq<Bytes>>): seq<Bytes> {
    if segments == [] then [] else Flat(segments[..|segments| - 1]) + segments[|segments| - 1]
  }

  ghost function Recorded(h: History, c: Config, s: Bytes): History {
    if MustRotate(c, |Concat(h.active)|, |s|) then History(h.segments + [h.active], [s])
    else h.(active := h.active + [s])
  }

  ghost function RecordedPut(h: History, c: Config, put: Put): History {
    if put.Emit? then Recorded(h, c, put.text) else h.(active := h.active + [put.text])
  }

  ghost function HistoryOf(c: Config, puts: seq<Put>): History {
    if puts == [] then History([], []) else RecordedPut(HistoryOf(c, puts[..|puts| - 1]), c, puts[|puts| - 1])
  }

  /** Backup slot j holds the j-th most recently rotated segment, in exactly one form. */
  ghost predicate SlotHolds(fs: Files, h: History, j: nat) {
    if 1 <= j <= |h.segments| then
      exists gz :: Lookup(fs, Backup(j, gz)) == Some(Concat(h.segments[|h.segments| - j])) && Lookup(fs, Backup(j, !gz)) == None
    else Lookup(fs, Backup(j, false)) == None && Lookup(fs, Backup(j, true)) == None
  }

  ghost predicate Remembers(fs: Files, c: Config, h: History) {
    && Lookup(fs, Active) == Some(Concat(h.active))
    && (forall j: nat :: j <= c.maxFiles ==> SlotHolds(fs, h, j))
    && forall j: nat, gz :: j > c.maxFiles ==> Lookup(fs, Backup(j, gz)) == None
  }

  lemma ConcatAppend(ss: seq<Bytes>, s: Bytes)
    ensures Concat(ss + [s]) == Concat(ss) + s
  {
    assert (ss + [s])[..|ss|] == ss;
  }

  lemma AppendRemembers(fs: Files, c: Config, h: History, s: Bytes)
    requires Remembers(fs, c, h)
    ensures Remembers(fs[Active := fs[Active] + s], c, h.(active := h.active + [s]))
  {
    var fs', h' := fs[Active := fs[Active] + s], h.(active := h.active + [s]);
    ConcatAppend(h.active, s);
    forall n | n != Active ensures Lookup(fs', n) == Lookup(fs, n) {
    }
    forall j: nat | j <= c.maxFiles ensures SlotHolds(fs', h', j) {
      assert SlotHolds(fs, h, j);
    }
  }

  lemma RotationRemembers(fs: Files, c: Config, h: History, s: Bytes)
    requires c.maxFiles >= 1 && Remembers(fs, c, h)
    ensures Remembers(Rotated(fs, c)[Active := s], c, History(h.segments + [h.active], [s]))
  {
    var fs', h' := Rotated(fs, c)[Active := s], History(h.segments + [h.active], [s]);
    assert Concat([s]) == s;
    forall n | n != Active ensures Lookup(fs', n) == AfterRotation(fs, c, n) {
      RotatedHolds(fs, c, n);
    }
    forall j: nat | j <= c.maxFiles ensures SlotHolds(fs', h', j) {
      RotationMovesSlot(fs, fs', c, h, h', j);
    }
  }

  lemma EmitRemembers(fs: Files, c: Config, h: History, s: Bytes)
    requires c.maxFiles >= 1 && Remembers(fs, c, h)
    ensures Remembers(Emitted(fs, c, s), c, Recorded(h, c, s))
  {
    if MustRotate(c, |fs[Active]|, |s|) {
      RotationRemembers(fs, c, h, s);
    } else {
      AppendRemembers(fs, c, h, s);
    }
  }

  lemma RotationMovesSlot(fs: Files, fs': Files, c: Config, h: History, h': History, j: nat)
    requires c.maxFiles >= 1 && Remembers(fs, c, h) && j <= c.maxFiles
    requires forall n :: n != Active ==> Lookup(fs', n) == AfterRotation(fs, c, n)
    requires h'.segments == h.segments + [h.active]
    ensures SlotHolds(fs', h', j)
  {
    assert Lookup(fs', Backup(j, false)) == AfterRotation(fs, c, Backup(j, false));
    assert Lookup(fs', Backup(j, true)) == AfterRotation(fs, c, Backup(j, true));
    if j >= 2 {
      assert SlotHolds(fs, h, j - 1);
    } else if j == 0 {
      assert SlotHolds(fs, h, 0);
    } else {
      assert Lookup(fs', Backup(1, c.compress)) == Some(Concat(h.active)) && Lookup(fs', Backup(1, !c.compress)) == None;
    }
  }

  lemma PutRemembers(fs: Files, c: Config, h: History, put: Put)
    requires c.maxFiles >= 1 && Remembers(fs, c, h)
    ensures Remembers(AfterPut(fs, c, put), c, RecordedPut(h, c, put))
  {
    if put.Emit? {
      EmitRemembers(fs, c, h, put.text);
    } else {
      AppendRemembers(fs, c, h, put.text);
    }
  }

  /** From an empty stream, every emit and every append keeps the slots what they should be. */
  lemma {:induction false} DirectoryRemembers(c: Config, puts: seq<Put>)
    requires c.maxFiles >= 1
    ensures Remembers(AfterPuts(map[Active := []], c, puts), c, HistoryOf(c, puts))
  {
    if puts == [] {
      var fs: Files := map[Active := []];
      forall j: nat | j <= c.maxFiles ensures SlotHolds(fs, History([], []), j) {
        assert Lookup(fs, Backup(j, false)) == None && Lookup(fs, Backup(j, true)) == None;
      }
    } else {
      var front, put := puts[..|puts| - 1], puts[|puts| - 1];
      DirectoryRemembers(c, front);
      PutRemembers(AfterPuts(map[Active := []], c, front), c, HistoryOf(c, front), put);
    }
  }

  ghost function Everything(h: History): seq<Bytes> {
    Flat(h.segments) + h.active
  }

  lemma RecordOne(h: History, c: Config, put: Put)
    ensures Everything(RecordedPut(h, c, put)) == Everything(h) + [put.text]
  {
    assert (h.segments + [h.active])[..|h.segments|] == h.segments;
    Assoc(Flat(h.segments), h.active, [put.text]);
  }

  lemma TextsOfMore(puts: seq<Put>)
    requires puts != []
    ensures Texts(puts) == Texts(puts[..|puts| - 1]) + [puts[|puts| - 1].text]
  {
  }

  /** Grouping loses and reorders nothing. */
  lemma {:induction false} HistoryIsThePuts(c: Config, puts: seq<Put>)
    ensures Everything(HistoryOf(c, puts)) == Texts(puts)
  {
    if puts != [] {
      HistoryIsThePuts(c, puts[..|puts| - 1]);
      RecordOne(HistoryOf(c, puts[..|puts| - 1]), c, puts[|puts| - 1]);
      TextsOfMore(puts);
    }
  }

  // ---------------------------------------------------------------------------
  // Reading a directory back
  // ---------------------------------------------------------------------------

  /** The content of backup slot j, whichever form it is in. */
  ghost function SlotText(fs: Files, j: nat): Bytes {
    if Backup(j, false) in fs then fs[Backup(j, false)]
    else if Backup(j, true) in fs then fs[Backup(j, true)]
    else []
  }

  /** Slots j, j - 1, ..., 1 in that order, oldest first. */
  ghost function BackupText(fs: Files, j: nat): Bytes {
    if j == 0 then [] else SlotText(fs, j) + BackupText(fs, j - 1)
  }

  lemma {:induction false} ConcatTwo(a: seq<Bytes>, b: seq<Bytes>)
    ensures Concat(a + b) == Concat(a) + Concat(b)
  {
    if b == [] {
      assert a + b == a;
    } else {
      ConcatTwo(a, b[..|b| - 1]);
      assert (a + b)[..|a + b| - 1] == a + b[..|b| - 1];
      Assoc(Concat(a), Concat(b[..|b| - 1]), b[|b| - 1]);
    }
  }

  lemma {:induction false} FlatTwo(a: seq<seq<Bytes>>, b: seq<seq<Bytes>>)
    ensures Flat(a + b) == Flat(a) + Flat(b)
  {
    if b == [] {
      assert a + b == a;
    } else {
      FlatTwo(a, b[..|b| - 1]);
      assert (a + b)[..|a + b| - 1] == a + b[..|b| - 1];
      Assoc(Flat(a), Flat(b[..|b| - 1]), b[|b| - 1]);
    }
  }

  lemma SlotReadsBack(fs: Files, h: History, j: nat)
    requires j >= 1 && SlotHolds(fs, h, j)
    ensures SlotText(fs, j) == if j <= |h.segments| then Concat(h.segments[|h.segments| - j]) else []
  {
    assert Lookup(fs, Backup(j, false)).None? <==> Backup(j, false) !in fs;
    assert Lookup(fs, Backup(j, true)).None? <==> Backup(j, true) !in fs;
  }

  /** The last j segments, or all there are. */
  ghost function Recent(segments: seq<seq<Bytes>>, j: nat): seq<seq<Bytes>> {
    if j <= |segments| then segments[|segments| - j..] else segments
  }

  lemma OneMoreSegment(segments: seq<seq<Bytes>>, j: nat)
    requires 1 <= j <= |segments|
    ensures Concat(Flat(Recent(segments, j))) == Concat(segments[|segments| - j]) + Concat(Flat(Recent(segments, j - 1)))
  {
    var first, rest := segments[|segments| - j], Recent(segments, j - 1);
    assert Recent(segments, j) == [first] + rest;
    FlatTwo([first], rest);
    assert Flat([first]) == first;
    ConcatTwo(first, Flat(rest));
  }

  lemma NoMoreSegments(segments: seq<seq<Bytes>>, j: nat)
    requires j > |segments|
    ensures Recent(segments, j) == Recent(segments, j - 1)
  {
  }

  lemma OneMoreSlot(fs: Files, h: History, j: nat)
    requires j >= 1 && SlotHolds(fs, h, j) && BackupText(fs, j - 1) == Concat(Flat(Recent(h.segments, j - 1)))
    ensures BackupText(fs, j) == Concat(Flat(Recent(h.segments, j)))
  {
    SlotReadsBack(fs, h, j);
    if j <= |h.segments| {
      OneMoreSegment(h.segments, j);
    } else {
      NoMoreSegments(h.segments, j);
    }
  }

  /** Slots j..1 read as the last j segments rotated. */
  lemma {:induction false} BackupsReadBack(fs: Files, c: Config, h: History, j: nat)
    requires Remembers(fs, c, h) && j <= c.maxFiles
    ensures BackupText(fs, j) == Concat(Flat(Recent(h.segments, j)))
  {
    if j == 0 {
      assert Recent(h.segments, 0) == [];
    } else {
      BackupsReadBack(fs, c, h, j - 1);
      OneMoreSlot(fs, h, j);
    }
  }

  /** The directory reads as the last of what was put, from k on. */
  ghost predicate ReadsAs(fs: Files, c: Config, ss: seq<Bytes>, k: nat)
    requires Active in fs && k <= |ss|
  {
    BackupText(fs, c.maxFiles) + fs[Active] == Concat(ss[k..])
  }

  /**
   * Backups and active file, oldest first, read as a suffix of everything ever
   * put there, cut at a boundary; and as all of it while no more segments were
   * rotated than there are slots.
   */
  lemma DirectoryIsASuffix(c: Config, puts: seq<Put>) returns (k: nat)
    requires c.maxFiles >= 1
    ensures k <= |puts| && ReadsAs(AfterPuts(map[Active := []], c, puts), c, Texts(puts), k)
    ensures |HistoryOf(c, puts).segments| <= c.maxFiles ==> k == 0
  {
    var fs, h := AfterPuts(map[Active := []], c, puts), HistoryOf(c, puts);
    DirectoryRemembers(c, puts);
    HistoryIsThePuts(c, puts);
    BackupsReadBack(fs, c, h, c.maxFiles);
    k := SuffixOfHistory(c.maxFiles, h, Texts(puts));
  }

  /** The last n segments and the active one are a suffix of all of them. */
  lemma SuffixOfHistory(n: nat, h: History, ss: seq<Bytes>) returns (k: nat)
    requires Everything(h) == ss
    ensures k <= |ss| && Concat(Flat(Recent(h.segments, n))) + Concat(h.active) == Concat(ss[k..])
    ensures |h.segments| <= n ==> k == 0
  {
    var lost := if n <= |h.segments| then |h.segments| - n else 0;
    var gone, there := h.segments[..lost], Recent(h.segments, n);
    assert h.segments == gone + there;
    FlatTwo(gone, there);
    Assoc(Flat(gone), Flat(there), h.active);
    k := |Flat(gone)|;
    assert ss[k..] == Flat(there) + h.active;
    ConcatTwo(Flat(there), h.active);
  }
}
