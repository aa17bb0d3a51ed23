/**
 * The process store's optimistic updates (internal/store/sqlite/sqlite.go):
 * Create, Get and UpdateWithCAS over the processes table, and every run of
 * writers that read, edit and save concurrently.
 */
module CasStore {
  import opened Prelude
  import opened Timestamps

  /** The columns a writer may change; rest stands for those nothing here depends on. */
  datatype Content = Content(name: string, projectID: string, successorID: string, command: seq<string>,
                             status: string, desired: string, rest: string)

  datatype Process = Process(id: string, content: Content, createdAt: Time, updatedAt: Time)

  /** A table row: the timestamps are texts. */
  datatype Row = Row(content: Content, createdAt: string, updatedAt: string)

  type Rows = map<string, Row>

  const ZERO_TIME: Time := Instant(1, 1, 1, 0, 0, 0, 0)

  const STATUSES := {"starting", "running", "unhealthy", "stopping", "exited", "failed", "crashed"}
  const DESIRED := {"running", "stopped"}

  predicate IsValid(c: Content) {
    && c.name != "" && |c.command| > 0 && "" !in c.command
    && (c.status == "" || c.status in STATUSES) && (c.desired == "" || c.desired in DESIRED)
  }

  predicate SameLiveName(c: Content, d: Content) {
    c.successorID == "" == d.successorID && c.projectID == d.projectID && c.name == d.name
  }

  /** The unique index over rows without a successor would refuse this content for this id. */
  predicate NameTaken(rows: Rows, id: string, c: Content) {
    exists other :: other in rows && other != id && SameLiveName(c, rows[other].content)
  }

  ghost predicate LiveNamesDistinct(rows: Rows) {
    forall a, b :: a in rows && b in rows && a != b ==> !SameLiveName(rows[a].content, rows[b].content)
  }

  datatype Outcome = Written | MissingID | MissingToken | Invalid | NotFound | Conflict

  /** The clock, unless it has not passed the token yet. */
  function TokenAfter(token: Time, now: Time): (t: Time)
    ensures Nanos(t) > Nanos(token) && Nanos(t) >= Nanos(now)
    ensures Nanos(now) > Nanos(token) ==> t == now
    ensures Nanos(now) <= Nanos(token) ==> Nanos(t) == Nanos(token) + 1
  {
    NextIsOneLater(token);
    if Nanos(now) > Nanos(token) then now else Next(token)
  }

  /** What a call leaves behind: its outcome, the table and the caller's struct. */
  datatype Effect = Effect(outcome: Outcome, rows: Rows, p: Process)

  function CreateEffect(rows: Rows, p: Process, now: Time): Effect {
    var createdAt := if p.createdAt == ZERO_TIME then now else p.createdAt;
    if !IsValid(p.content) then Effect(Invalid, rows, p)
    else if p.id == "" then Effect(MissingID, rows, p)
    else if p.id in rows || NameTaken(rows, p.id, p.content) then Effect(Conflict, rows, p)
    else Effect(Written, rows[p.id := Row(p.content, FmtTime(createdAt), FmtTime(now))],
                p.(createdAt := createdAt, updatedAt := now))
  }

  function SaveEffect(rows: Rows, p: Process, now: Time): Effect {
    var updatedAt := TokenAfter(p.updatedAt, now);
    if p.id == "" then Effect(MissingID, rows, p)
    else if p.updatedAt == ZERO_TIME then Effect(MissingToken, rows, p)
    else if !IsValid(p.content) then Effect(Invalid, rows, p)
    else if p.id !in rows then Effect(NotFound, rows, p)
    else if rows[p.id].updatedAt != FmtTime(p.updatedAt) || NameTaken(rows, p.id, p.content) then Effect(Conflict, rows, p)
    else Effect(Written, rows[p.id := Row(p.content, rows[p.id].createdAt, FmtTime(updatedAt))], p.(updatedAt := updatedAt))
  }

  /** The last-writer-wins write: no token. */
  function UpdateEffect(rows: Rows, p: Process, now: Time): Effect {
    if p.id == "" then Effect(MissingID, rows, p)
    else if !IsValid(p.content) then Effect(Invalid, rows, p)
    else if p.id !in rows then Effect(NotFound, rows, p)
    else if NameTaken(rows, p.id, p.content) then Effect(Conflict, rows, p)
    else Effect(Written, rows[p.id := Row(p.content, rows[p.id].createdAt, FmtTime(now))], p.(updatedAt := now))
  }

  function Loaded(rows: Rows, id: string): Option<Process> {
    if id !in rows then None
    else
      match (ParseTime(rows[id].createdAt), ParseTime(rows[id].updatedAt))
      case (Some(c), Some(u)) => Some(Process(id, rows[id].content, c, u))
      case _ => None
  }

  // What a write does, case by case.

  /** The id, the token and the content of a struct are as a save wants them. */
  ghost predicate WellFormed(p: Process) {
    p.id != "" && p.updatedAt != ZERO_TIME && IsValid(p.content)
  }

  /** Another live row has the name in the project. */
  ghost predicate NameHeld(rows: Rows, id: string, c: Content) {
    c.successorID == "" && exists other ::
      other in rows && other != id && rows[other].content.successorID == "" &&
      rows[other].content.projectID == c.projectID && rows[other].content.name == c.name
  }

  /** The other rows are as they were. */
  ghost predicate OnlyRow(was: Rows, rows: Rows, id: string) {
    rows.Keys == was.Keys + {id} && forall other :: other in was && other != id ==> rows[other] == was[other]
  }

  ghost predicate SaveAnswers(was: Rows, p: Process, outcome: Outcome) {
    && (outcome == NotFound <==> WellFormed(p) && p.id !in was)
    && (outcome == Written <==>
          WellFormed(p) && p.id in was && was[p.id].updatedAt == FmtTime(p.updatedAt) && !NameHeld(was, p.id, p.content))
    && (outcome == Conflict <==>
          WellFormed(p) && p.id in was && (was[p.id].updatedAt != FmtTime(p.updatedAt) || NameHeld(was, p.id, p.content)))
  }

  ghost predicate SaveLeaves(was: Rows, p: Process, now: Time, written: bool, rows: Rows, after: Process) {
    if !written then rows == was && after == p
    else
      && OnlyRow(was, rows, p.id) && p.id in was && rows[p.id].content == p.content == after.content && after.id == p.id
      && rows[p.id].createdAt == was[p.id].createdAt && after.createdAt == p.createdAt
      && rows[p.id].updatedAt == FmtTime(after.updatedAt)
      && Nanos(after.updatedAt) == if Nanos(now) > Nanos(p.updatedAt) then Nanos(now) else Nanos(p.updatedAt) + 1
  }

  ghost predicate CreatedPlainly(was: Rows, p: Process, now: Time, outcome: Outcome, rows: Rows, after: Process) {
    && (outcome == Written <==> p.id != "" && IsValid(p.content) && p.id !in was && !NameHeld(was, p.id, p.content))
    && (outcome == Conflict <==> p.id != "" && IsValid(p.content) && (p.id in was || NameHeld(was, p.id, p.content)))
    && (outcome != Written ==> rows == was && after == p)
    && (outcome == Written ==>
          && OnlyRow(was, rows, p.id) && rows[p.id].content == p.content == after.content && after.id == p.id
          && after.createdAt == (if p.createdAt == ZERO_TIME then now else p.createdAt) && after.updatedAt == now
          && rows[p.id].createdAt == FmtTime(after.createdAt) && rows[p.id].updatedAt == FmtTime(now))
  }

  ghost predicate UpdatedPlainly(was: Rows, p: Process, now: Time, outcome: Outcome, rows: Rows, after: Process) {
    && (outcome == NotFound <==> p.id != "" && IsValid(p.content) && p.id !in was)
    && (outcome == Written <==> p.id != "" && IsValid(p.content) && p.id in was && !NameHeld(was, p.id, p.content))
    && (outcome != Written ==> rows == was && after == p)
    && (outcome == Written ==>
          && OnlyRow(was, rows, p.id) && rows[p.id].content == p.content && after == p.(updatedAt := now)
          && rows[p.id].createdAt == was[p.id].createdAt && rows[p.id].updatedAt == FmtTime(now))
  }

  lemma NameTakenMeansHeld(rows: Rows, id: string, c: Content)
    ensures NameTaken(rows, id, c) <==> NameHeld(rows, id, c)
  {
  }

  lemma SaveAnswersPlainly(rows: Rows, p: Process, now: Time)
    ensures SaveAnswers(rows, p, SaveEffect(rows, p, now).outcome)
  {
    NameTakenMeansHeld(rows, p.id, p.content);
  }

  lemma SaveLeavesPlainly(rows: Rows, p: Process, now: Time)
    ensures var e := SaveEffect(rows, p, now);
      SaveLeaves(rows, p, now, e.outcome == Written, e.rows, e.p)
  {
  }

  lemma CreateMeans(rows: Rows, p: Process, now: Time)
    ensures var e := CreateEffect(rows, p, now);
      CreatedPlainly(rows, p, now, e.outcome, e.rows, e.p)
  {
    NameTakenMeansHeld(rows, p.id, p.content);
  }

  /** What Create and a save wrote, Get reads back, exactly for the years the layout was made for. */
  lemma WrittenReadsBack(rows: Rows, p: Process, now: Time)
    ensures var e := CreateEffect(rows, p, now);
      e.outcome == Written ==>
        (Loaded(e.rows, p.id) == Some(e.p) <==> FourDigitYear(e.p.createdAt) && FourDigitYear(now))
    ensures var e := SaveEffect(rows, p, now);
      e.outcome == Written && rows[p.id].createdAt == FmtTime(p.createdAt) ==>
        (Loaded(e.rows, p.id) == Some(e.p) <==> FourDigitYear(p.createdAt) && FourDigitYear(e.p.updatedAt))
  {
    var c, s := CreateEffect(rows, p, now), SaveEffect(rows, p, now);
    CreateMeans(rows, p, now);
    SaveLeavesPlainly(rows, p, now);
    ParseUndoesFmt(now);
    ParseUndoesFmt(c.p.createdAt);
    ParseUndoesFmt(p.createdAt);
    ParseUndoesFmt(s.p.updatedAt);
  }

  /** The struct a caller passes by pointer. */
  class Record {
    var p: Process

    constructor (p: Process)
      ensures this.p == p
    {
      this.p := p;
    }
  }

  class Store {
    var rows: Rows

    ghost predicate Valid()
      reads this
    {
      LiveNamesDistinct(rows)
    }

    constructor ()
      ensures Valid() && rows == map[]
    {
      rows := map[];
    }

    method Create(r: Record?, now: Time) returns (outcome: Outcome)
      requires Valid()
      modifies this, r
      ensures Valid()
      ensures r == null ==> outcome == MissingID && rows == old(rows)
      ensures r != null ==> Effect(outcome, rows, r.p) == CreateEffect(old(rows), old(r.p), now)
      ensures r != null ==> CreatedPlainly(old(rows), old(r.p), now, outcome, rows, r.p)
    {
      if r == null {
        return MissingID;
      }
      CreateMeans(rows, r.p, now);
      if !IsValid(r.p.content) {
        return Invalid;
      }
      if r.p.id == "" {
        return MissingID;
      }
      var createdAt := r.p.createdAt;
      if createdAt == ZERO_TIME {
        createdAt := now;
      }
      var unique := Insert(r.p.id, Row(r.p.content, FmtTime(createdAt), FmtTime(now)));
      if !unique {
        return Conflict;
      }
      r.p := r.p.(createdAt := createdAt, updatedAt := now);
      outcome := Written;
    }

    /** INSERT under the primary key and the live-name index. */
    method Insert(id: string, row: Row) returns (unique: bool)
      requires Valid()
      modifies this
      ensures Valid()
      ensures unique <==> id !in old(rows) && !NameTaken(old(rows), id, row.content)
      ensures rows == if unique then old(rows)[id := row] else old(rows)
      ensures unique <==> id !in old(rows) && !NameHeld(old(rows), id, row.content)
    {
      NameTakenMeansHeld(rows, id, row.content);
      unique := id !in rows && !NameTaken(rows, id, row.content);
      if unique {
        rows := rows[id := row];
      }
    }

    /** UPDATE ... WHERE id = ? AND updated_at = ?, refused by the live-name index. */
    method UpdateWhere(id: string, token: string, content: Content, updatedAt: string)
      returns (unique: bool, affected: nat)
      requires Valid()
      modifies this
      ensures Valid()
      ensures var found := id in old(rows) && old(rows)[id].updatedAt == token;
        && (unique <==> !found || !NameTaken(old(rows), id, content))
        && affected == (if found && unique then 1 else 0)
        && rows == if affected == 1 then old(rows)[id := Row(content, old(rows)[id].createdAt, updatedAt)] else old(rows)
    {
      unique, affected := true, 0;
      if id in rows && rows[id].updatedAt == token {
        unique := !NameTaken(rows, id, content);
        if unique {
          rows, affected := rows[id := Row(content, rows[id].createdAt, updatedAt)], 1;
        }
      }
    }

    method UpdateWithCAS(r: Record?, now: Time) returns (outcome: Outcome)
      requires Valid()
      modifies this, r
      ensures Valid()
      ensures r == null ==> outcome == MissingID && rows == old(rows)
      ensures r != null ==> Effect(outcome, rows, r.p) == SaveEffect(old(rows), old(r.p), now)
      ensures r != null ==>
        SaveAnswers(old(rows), old(r.p), outcome) && SaveLeaves(old(rows), old(r.p), now, outcome == Written, rows, r.p)
    {
      if r != null {
        SaveAnswersPlainly(rows, r.p, now);
        SaveLeavesPlainly(rows, r.p, now);
      }
      if r == null || r.p.id == "" {
        return MissingID;
      }
      if r.p.updatedAt == ZERO_TIME {
        return MissingToken;
      }
      if !IsValid(r.p.content) {
        return Invalid;
      }
      var token := r.p.updatedAt;
      var updatedAt := now;
      if !(Nanos(updatedAt) > Nanos(token)) {
        updatedAt := Next(token);
      }
      var unique, affected := UpdateWhere(r.p.id, FmtTime(token), r.p.content, FmtTime(updatedAt));
      if !unique {
        return Conflict;
      }
      if affected == 0 {
        if r.p.id !in rows {
          return NotFound;
        }
        return Conflict;
      }
      r.p := r.p.(updatedAt := updatedAt);
      outcome := Written;
    }

    method Update(r: Record?, now: Time) returns (outcome: Outcome)
      requires Valid()
      modifies this, r
      ensures Valid()
      ensures r == null ==> outcome == MissingID && rows == old(rows)
      ensures r != null ==> Effect(outcome, rows, r.p) == UpdateEffect(old(rows), old(r.p), now)
      ensures r != null ==> UpdatedPlainly(old(rows), old(r.p), now, outcome, rows, r.p)
    {
      if r != null {
        NameTakenMeansHeld(rows, r.p.id, r.p.content);
      }
      if r == null || r.p.id == "" {
        return MissingID;
      }
      if !IsValid(r.p.content) {
        return Invalid;
      }
      if r.p.id !in rows {
        return NotFound;
      }
      if NameTaken(rows, r.p.id, r.p.content) {
        return Conflict;
      }
      rows := rows[r.p.id := Row(r.p.content, rows[r.p.id].createdAt, FmtTime(now))];
      r.p := r.p.(updatedAt := now);
      outcome := Written;
    }

    /** None stands for a missing row and for timestamps that cannot be read back. */
    method Get(id: string) returns (p: Option<Process>)
      ensures p == Loaded(rows, id)
    {
      if id !in rows {
        return None;
      }
      var createdAt, updatedAt := ParseTime(rows[id].createdAt), ParseTime(rows[id].updatedAt);
      if createdAt.None? || updatedAt.None? {
        return None;
      }
      p := Some(Process(id, rows[id].content, createdAt.value, updatedAt.value));
    }
  }

  // ---------------------------------------------------------------------------
  // Every run: writers create, load, edit and save under any clock
  // ---------------------------------------------------------------------------

  type Edit = Content -> Content

  /** A persisted state of a row: the version its writer started from, and the edits that writer made. */
  datatype Version = Version(content: Content, at: Time, from: nat, edits: seq<Edit>)

  /** A writer's struct: the version it was read from or written as, and the edits since. */
  datatype Copy = Copy(p: Process, base: nat, edits: seq<Edit>)

  datatype World = World(rows: Rows, versions: map<string, seq<Version>>, copies: map<nat, Copy>)

  datatype Move =
    | Insert(writer: nat, p: Process, now: Time)
    | Load(writer: nat, id: string)
    | Change(writer: nat, edit: Edit)
    | Save(writer: nat, now: Time)

  ghost function Applied(edits: seq<Edit>, c: Content): Content {
    if edits == [] then c else edits[|edits| - 1](Applied(edits[..|edits| - 1], c))
  }

  ghost function Moved(w: World, m: Move): World {
    match m
    case Insert(writer, p, now) =>
      var e := CreateEffect(w.rows, p, now);
      if e.outcome != Written then w
      else World(e.rows, w.versions[p.id := [Version(p.content, now, 0, [])]], w.copies[writer := Copy(e.p, 0, [])])
    case Load(writer, id) =>
      var p := Loaded(w.rows, id);
      if p == None || id !in w.versions || w.versions[id] == [] then w
      else w.(copies := w.copies[writer := Copy(p.value, |w.versions[id]| - 1, [])])
    case Change(writer, edit) =>
      if writer !in w.copies then w
      else
        var c := w.copies[writer];
        w.(copies := w.copies[writer := Copy(c.p.(content := edit(c.p.content)), c.base, c.edits + [edit])])
    case Save(writer, now) =>
      if writer !in w.copies || w.copies[writer].p.id !in w.versions then w
      else Saved(w, writer, SaveEffect(w.rows, w.copies[writer].p, now))
  }

  /** What a writer's save leaves: when written, a further version, of which the writer now holds a copy. */
  ghost function Saved(w: World, writer: nat, e: Effect): World
    requires writer in w.copies && w.copies[writer].p.id in w.versions
  {
    var c := w.copies[writer];
    var vs := w.versions[c.p.id];
    if e.outcome != Written then w
    else World(e.rows, w.versions[c.p.id := vs + [Version(c.p.content, e.p.updatedAt, c.base, c.edits)]],
               w.copies[writer := Copy(e.p, |vs|, [])])
  }

  ghost function Run(moves: seq<Move>): World {
    if moves == [] then World(map[], map[], map[]) else Moved(Run(moves[..|moves| - 1]), moves[|moves| - 1])
  }

  /** Every version was computed from the one before it, and is newer. */
  ghost predicate Chained(vs: seq<Version>) {
    vs != [] && forall k :: 0 < k < |vs| ==> Follows(vs, k)
  }

  ghost predicate Follows(vs: seq<Version>, k: nat)
    requires 0 < k < |vs|
  {
    && vs[k].from == k - 1
    && Nanos(vs[k - 1].at) < Nanos(vs[k].at)
    && vs[k].content == Applied(vs[k].edits, vs[k - 1].content)
  }

  ghost predicate Persisted(row: Row, vs: seq<Version>) {
    Chained(vs) && row.content == vs[|vs| - 1].content && row.updatedAt == FmtTime(vs[|vs| - 1].at)
  }

  ghost predicate Taken(c: Copy, vs: seq<Version>) {
    c.base < |vs| && c.p.updatedAt == vs[c.base].at && c.p.content == Applied(c.edits, vs[c.base].content)
  }

  ghost predicate Inv(w: World) {
    && w.versions.Keys == w.rows.Keys
    && LiveNamesDistinct(w.rows)
    && (forall id :: id in w.rows ==> Persisted(w.rows[id], w.versions[id]))
    && (forall writer :: writer in w.copies ==> Held(w, w.copies[writer]))
  }

  ghost predicate Held(w: World, c: Copy) {
    c.p.id in w.versions && Taken(c, w.versions[c.p.id])
  }

  lemma {:induction false} LaterVersion(vs: seq<Version>, a: nat, b: nat)
    requires Chained(vs) && a < b < |vs|
    ensures Nanos(vs[a].at) < Nanos(vs[b].at)
  {
    if a < b - 1 {
      LaterVersion(vs, a, b - 1);
    }
    assert Follows(vs, b);
  }

  /** The token in the row is a copy's token exactly when the copy is of the latest version. */
  lemma TokenIsTheVersion(row: Row, vs: seq<Version>, c: Copy)
    requires Persisted(row, vs) && Taken(c, vs)
    ensures row.updatedAt == FmtTime(c.p.updatedAt) <==> c.base == |vs| - 1
  {
    if row.updatedAt == FmtTime(c.p.updatedAt) {
      TextTellsTheInstant(vs[|vs| - 1].at, c.p.updatedAt);
      if c.base < |vs| - 1 {
        LaterVersion(vs, c.base, |vs| - 1);
      }
    }
  }

  lemma OneMoreVersion(vs: seq<Version>, v: Version)
    requires Chained(vs) && v.from == |vs| - 1 && Nanos(vs[|vs| - 1].at) < Nanos(v.at)
    requires v.content == Applied(v.edits, vs[|vs| - 1].content)
    ensures Chained(vs + [v])
  {
    var more := vs + [v];
    forall k | 0 < k < |more| ensures Follows(more, k) {
      assert k < |vs| ==> Follows(vs, k);
    }
  }

  lemma NamesStayDistinct(rows: Rows, id: string, row: Row)
    requires LiveNamesDistinct(rows) && !NameTaken(rows, id, row.content)
    ensures LiveNamesDistinct(rows[id := row])
  {
  }

  /** Copies stay what they are when a row gets a new version. */
  lemma StillHeld(w: World, id: string, more: seq<Version>, c: Copy)
    requires Held(w, c) && (id in w.versions ==> w.versions[id] <= more)
    ensures Held(w.(versions := w.versions[id := more]), c)
  {
    if c.p.id == id {
      assert more[c.base] == w.versions[id][c.base];
    }
  }

  /** A row written with a further version, and its writer's copy moved on to it. */
  lemma CommitKeepsInv(w: World, id: string, row: Row, more: seq<Version>, writer: nat, copy: Copy)
    requires Inv(w) && !NameTaken(w.rows, id, row.content)
    requires id in w.versions ==> w.versions[id] <= more
    requires Persisted(row, more) && copy.p.id == id && Taken(copy, more)
    ensures Inv(World(w.rows[id := row], w.versions[id := more], w.copies[writer := copy]))
  {
    var u := World(w.rows[id := row], w.versions[id := more], w.copies[writer := copy]);
    NamesStayDistinct(w.rows, id, row);
    forall other | other in u.copies ensures Held(u, u.copies[other]) {
      if other != writer {
        StillHeld(w, id, more, w.copies[other]);
      }
    }
  }

  /** What a save that is written has found and left. */
  lemma SaveWrites(rows: Rows, p: Process, now: Time) returns (row: Row, at: Time)
    requires SaveEffect(rows, p, now).outcome == Written
    ensures p.id in rows && rows[p.id].updatedAt == FmtTime(p.updatedAt) && !NameTaken(rows, p.id, p.content)
    ensures SaveEffect(rows, p, now) == Effect(Written, rows[p.id := row], p.(updatedAt := at))
    ensures row.content == p.content && row.updatedAt == FmtTime(at) && Nanos(at) > Nanos(p.updatedAt)
  {
    var e := SaveEffect(rows, p, now);
    row, at := e.rows[p.id], e.p.updatedAt;
  }

  /** A save under the row's token was of the latest version, and persists the next one. */
  lemma SavedFromTheLatest(row: Row, vs: seq<Version>, c: Copy, saved: Row, at: Time) returns (more: seq<Version>)
    requires Persisted(row, vs) && Taken(c, vs) && row.updatedAt == FmtTime(c.p.updatedAt)
    requires saved.content == c.p.content && saved.updatedAt == FmtTime(at) && Nanos(at) > Nanos(c.p.updatedAt)
    ensures more == vs + [Version(c.p.content, at, c.base, c.edits)]
    ensures c.base == |vs| - 1 && Persisted(saved, more) && Taken(Copy(c.p.(updatedAt := at), |vs|, []), more)
  {
    TokenIsTheVersion(row, vs, c);
    var v := Version(c.p.content, at, c.base, c.edits);
    OneMoreVersion(vs, v);
    more := vs + [v];
    assert more[|vs|] == v;
  }

  lemma SaveKeepsInv(w: World, writer: nat, now: Time)
    requires Inv(w)
    ensures Inv(Moved(w, Save(writer, now)))
  {
    if writer in w.copies {
      var c := w.copies[writer];
      assert Held(w, c);
      if SaveEffect(w.rows, c.p, now).outcome == Written {
        var row, at := SaveWrites(w.rows, c.p, now);
        var more := SavedFromTheLatest(w.rows[c.p.id], w.versions[c.p.id], c, row, at);
        CommitKeepsInv(w, c.p.id, row, more, writer, Copy(c.p.(updatedAt := at), |more| - 1, []));
      }
    }
  }

  lemma InsertKeepsInv(w: World, writer: nat, p: Process, now: Time)
    requires Inv(w)
    ensures Inv(Moved(w, Insert(writer, p, now)))
  {
    var e := CreateEffect(w.rows, p, now);
    if e.outcome == Written {
      CommitKeepsInv(w, p.id, e.rows[p.id], [Version(p.content, now, 0, [])], writer, Copy(e.p, 0, []));
    }
  }

  lemma LoadedIsTheLatest(row: Row, vs: seq<Version>, rows: Rows, id: string)
    requires Persisted(row, vs) && id in rows && rows[id] == row && Loaded(rows, id).Some?
    ensures var p := Loaded(rows, id).value;
      p.id == id && Taken(Copy(p, |vs| - 1, []), vs)
  {
    ParseUndoesFmt(vs[|vs| - 1].at);
  }

  lemma CopyKeepsInv(w: World, writer: nat, copy: Copy)
    requires Inv(w) && Held(w, copy)
    ensures Inv(w.(copies := w.copies[writer := copy]))
  {
    var u := w.(copies := w.copies[writer := copy]);
    forall other | other in u.copies ensures Held(u, u.copies[other]) {
      assert other != writer ==> Held(w, w.copies[other]);
    }
  }

  lemma LoadKeepsInv(w: World, writer: nat, id: string)
    requires Inv(w)
    ensures Inv(Moved(w, Load(writer, id)))
  {
    var p := Loaded(w.rows, id);
    if p.Some? {
      assert Persisted(w.rows[id], w.versions[id]);
      LoadedIsTheLatest(w.rows[id], w.versions[id], w.rows, id);
      CopyKeepsInv(w, writer, Copy(p.value, |w.versions[id]| - 1, []));
    }
  }

  lemma ChangeKeepsInv(w: World, writer: nat, edit: Edit)
    requires Inv(w)
    ensures Inv(Moved(w, Change(writer, edit)))
  {
    if writer in w.copies {
      var c := w.copies[writer];
      assert Held(w, c);
      assert (c.edits + [edit])[..|c.edits|] == c.edits;
      CopyKeepsInv(w, writer, Copy(c.p.(content := edit(c.p.content)), c.base, c.edits + [edit]));
    }
  }

  lemma MoveKeepsInv(w: World, m: Move)
    requires Inv(w)
    ensures Inv(Moved(w, m))
  {
    match m
    case Insert(writer, p, now) => InsertKeepsInv(w, writer, p, now);
    case Load(writer, id) => LoadKeepsInv(w, writer, id);
    case Change(writer, edit) => ChangeKeepsInv(w, writer, edit);
    case Save(writer, now) => SaveKeepsInv(w, writer, now);
  }

  lemma {:induction false} RunKeepsInv(moves: seq<Move>)
    ensures Inv(Run(moves))
  {
    if moves != [] {
      RunKeepsInv(moves[..|moves| - 1]);
      MoveKeepsInv(Run(moves[..|moves| - 1]), moves[|moves| - 1]);
    }
  }

  // ---------------------------------------------------------------------------
  // What every run guarantees
  // ---------------------------------------------------------------------------

  /** The persisted times of a row strictly increase, and each version was computed from the one before it. */
  lemma VersionsFollowEachOther(moves: seq<Move>, id: string, a: nat, b: nat)
    requires id in Run(moves).rows && id in Run(moves).versions && a < b < |Run(moves).versions[id]|
    ensures var vs := Run(moves).versions[id];
      && vs[b].from == b - 1
      && Nanos(vs[a].at) < Nanos(vs[b].at)
      && Run(moves).rows[id].updatedAt == FmtTime(vs[|vs| - 1].at)
  {
    var vs := Run(moves).versions[id];
    RunKeepsInv(moves);
    assert Persisted(Run(moves).rows[id], vs);
    LaterVersion(vs, a, b);
    assert Follows(vs, b);
  }

  /** One save, in terms of the row it finds. */
  lemma SaveOutcome(rows: Rows, p: Process, now: Time)
    requires p.id in rows
    ensures SaveEffect(rows, p, now).outcome == Written <==>
      rows[p.id].updatedAt == FmtTime(p.updatedAt) && Acceptable(rows, p)
    ensures SaveEffect(rows, p, now).outcome != Written ==> SaveEffect(rows, p, now).rows == rows
  {
  }

  /** A save is written exactly when it is of the latest version and the content is acceptable. */
  lemma SaveWrittenIff(w: World, writer: nat, now: Time)
    requires Inv(w) && writer in w.copies
    ensures var c := w.copies[writer];
      && c.p.id in w.versions
      && (SaveEffect(w.rows, c.p, now).outcome == Written <==>
          c.base == |w.versions[c.p.id]| - 1 && Acceptable(w.rows, c.p))
      && (SaveEffect(w.rows, c.p, now).outcome != Written ==> Moved(w, Save(writer, now)) == w)
  {
    var c := w.copies[writer];
    assert Held(w, c);
    assert Persisted(w.rows[c.p.id], w.versions[c.p.id]);
    TokenIsTheVersion(w.rows[c.p.id], w.versions[c.p.id], c);
    SaveOutcome(w.rows, c.p, now);
    if SaveEffect(w.rows, c.p, now).outcome != Written {
      UnwrittenMovesNothing(w, writer, now);
    }
  }

  lemma UnwrittenMovesNothing(w: World, writer: nat, now: Time)
    requires writer in w.copies && SaveEffect(w.rows, w.copies[writer].p, now).outcome != Written
    ensures Moved(w, Save(writer, now)) == w
  {
  }

  predicate Acceptable(rows: Rows, p: Process) {
    p.id != "" && p.updatedAt != ZERO_TIME && IsValid(p.content) && !NameTaken(rows, p.id, p.content)
  }

  ghost function AllEdits(vs: seq<Version>): seq<Edit> {
    if |vs| <= 1 then [] else AllEdits(vs[..|vs| - 1]) + vs[|vs| - 1].edits
  }

  lemma {:induction false} AppliedInTwo(a: seq<Edit>, b: seq<Edit>, c: Content)
    ensures Applied(a + b, c) == Applied(b, Applied(a, c))
  {
    if b == [] {
      assert a + b == a;
    } else {
      assert (a + b)[..|a + b| - 1] == a + b[..|b| - 1];
      AppliedInTwo(a, b[..|b| - 1], c);
    }
  }

  lemma {:induction false} ChainApplies(vs: seq<Version>)
    requires Chained(vs)
    ensures vs[|vs| - 1].content == Applied(AllEdits(vs), vs[0].content)
  {
    if |vs| > 1 {
      var front := vs[..|vs| - 1];
      forall k | 0 < k < |front| ensures Follows(front, k) {
        assert Follows(vs, k);
      }
      ChainApplies(front);
      assert Follows(vs, |vs| - 1);
      AppliedInTwo(AllEdits(front), vs[|vs| - 1].edits, vs[0].content);
    }
  }

  /** The row holds the created content with the edits of every successful save applied in order: none is lost. */
  lemma NoUpdateIsLost(moves: seq<Move>, id: string)
    requires id in Run(moves).rows
    ensures id in Run(moves).versions && Run(moves).versions[id] != []
    ensures var vs := Run(moves).versions[id];
      Run(moves).rows[id].content == Applied(AllEdits(vs), vs[0].content)
  {
    RunKeepsInv(moves);
    assert Persisted(Run(moves).rows[id], Run(moves).versions[id]);
    ChainApplies(Run(moves).versions[id]);
  }

  // ---------------------------------------------------------------------------
  // At most one of the writers that share a version gets through
  // ---------------------------------------------------------------------------

  ghost function From(w: World, moves: seq<Move>): World {
    if moves == [] then w else Moved(From(w, moves[..|moves| - 1]), moves[|moves| - 1])
  }

  /** The writer neither reads a row again nor creates one. */
  ghost predicate KeepsItsCopy(m: Move, writer: nat) {
    (m.Load? || m.Insert?) ==> m.writer != writer
  }

  /** The row has moved on since the writer's copy was taken. */
  ghost predicate Stale(w: World, writer: nat, id: string, token: Time) {
    && writer in w.copies && id in w.versions
    && w.copies[writer].p.id == id && w.copies[writer].p.updatedAt == token
    && w.copies[writer].base < |w.versions[id]| - 1
  }

  lemma WrongToken(rows: Rows, p: Process, now: Time)
    requires p.id in rows && rows[p.id].updatedAt != FmtTime(p.updatedAt)
    ensures var e := SaveEffect(rows, p, now);
      && e.outcome != Written && e.rows == rows && e.p == p
      && (p.id != "" && p.updatedAt != ZERO_TIME && IsValid(p.content) ==> e.outcome == Conflict)
  {
  }

  lemma StaleToken(w: World, writer: nat, id: string, token: Time)
    requires Inv(w) && Stale(w, writer, id, token)
    ensures id in w.rows && w.rows[id].updatedAt != FmtTime(token)
  {
    var c := w.copies[writer];
    assert Persisted(w.rows[id], w.versions[id]) && Held(w, c);
    TokenIsTheVersion(w.rows[id], w.versions[id], c);
  }

  lemma StaleIsNotWritten(w: World, writer: nat, id: string, token: Time, now: Time)
    requires Inv(w) && Stale(w, writer, id, token)
    ensures var p := w.copies[writer].p;
      && SaveEffect(w.rows, p, now).outcome != Written
      && (id != "" && token != ZERO_TIME && IsValid(p.content) ==> SaveEffect(w.rows, p, now).outcome == Conflict)
      && Moved(w, Save(writer, now)) == w
  {
    StaleToken(w, writer, id, token);
    WrongToken(w.rows, w.copies[writer].p, now);
  }

  lemma SavedKeepsStale(w: World, saver: nat, e: Effect, writer: nat, id: string, token: Time)
    requires Stale(w, writer, id, token) && saver != writer
    requires saver in w.copies && w.copies[saver].p.id in w.versions
    ensures Stale(Saved(w, saver, e), writer, id, token)
  {
  }

  lemma InsertKeepsStale(w: World, other: nat, p: Process, now: Time, writer: nat, id: string, token: Time)
    requires Inv(w) && Stale(w, writer, id, token) && other != writer
    ensures Stale(Moved(w, Insert(other, p, now)), writer, id, token)
  {
    var e := CreateEffect(w.rows, p, now);
    assert e.outcome == Written ==> p.id != id;
  }

  lemma SomeonesSaveKeepsStale(w: World, other: nat, now: Time, writer: nat, id: string, token: Time)
    requires Stale(w, writer, id, token) && other != writer
    ensures Stale(Moved(w, Save(other, now)), writer, id, token)
  {
    if other in w.copies && w.copies[other].p.id in w.versions {
      SavedKeepsStale(w, other, SaveEffect(w.rows, w.copies[other].p, now), writer, id, token);
    }
  }

  lemma SaveKeepsStale(w: World, other: nat, now: Time, writer: nat, id: string, token: Time)
    requires Inv(w) && Stale(w, writer, id, token)
    ensures Stale(Moved(w, Save(other, now)), writer, id, token)
  {
    if other == writer {
      StaleIsNotWritten(w, writer, id, token, now);
    } else {
      SomeonesSaveKeepsStale(w, other, now, writer, id, token);
    }
  }

  lemma StaysStale(w: World, m: Move, writer: nat, id: string, token: Time)
    requires Inv(w) && Stale(w, writer, id, token) && KeepsItsCopy(m, writer)
    ensures Stale(Moved(w, m), writer, id, token)
  {
    match m
    case Insert(other, p, now) => InsertKeepsStale(w, other, p, now, writer, id, token);
    case Load(other, i) =>
    case Change(other, edit) =>
    case Save(other, now) => SaveKeepsStale(w, other, now, writer, id, token);
  }

  lemma {:induction false} StaleForever(w: World, moves: seq<Move>, writer: nat, id: string, token: Time)
    requires Inv(w) && Stale(w, writer, id, token)
    requires forall k :: 0 <= k < |moves| ==> KeepsItsCopy(moves[k], writer)
    ensures Inv(From(w, moves)) && Stale(From(w, moves), writer, id, token)
  {
    if moves != [] {
      var front := moves[..|moves| - 1];
      StaleForever(w, front, writer, id, token);
      MoveKeepsInv(From(w, front), moves[|moves| - 1]);
      StaysStale(From(w, front), moves[|moves| - 1], writer, id, token);
    }
  }

  lemma SavedMakesOthersStale(w: World, winner: nat, e: Effect, loser: nat, id: string)
    requires winner in w.copies && loser in w.copies && winner != loser && id in w.versions
    requires w.copies[winner].p.id == w.copies[loser].p.id == id && Taken(w.copies[loser], w.versions[id])
    requires e.outcome == Written
    ensures Stale(Saved(w, winner, e), loser, id, w.copies[loser].p.updatedAt)
  {
  }

  lemma WinnerMakesOthersStale(w: World, winner: nat, now: Time, loser: nat, id: string)
    requires Inv(w) && winner in w.copies && loser in w.copies && winner != loser
    requires w.copies[winner].p.id == w.copies[loser].p.id == id
    requires SaveEffect(w.rows, w.copies[winner].p, now).outcome == Written
    ensures Stale(Moved(w, Save(winner, now)), loser, id, w.copies[loser].p.updatedAt)
  {
    assert Held(w, w.copies[loser]);
    SavedMakesOthersStale(w, winner, SaveEffect(w.rows, w.copies[winner].p, now), loser, id);
  }

  /**
   * Once one writer's save is written, every other writer that had a copy of the
   * row conflicts, whatever happens in between and however it edits its copy,
   * until it loads the row again.
   */
  lemma OthersConflict(w: World, winner: nat, loser: nat, now: Time, moves: seq<Move>, later: Time)
    requires Inv(w) && winner in w.copies && loser in w.copies && winner != loser
    requires w.copies[winner].p.id == w.copies[loser].p.id
    requires SaveEffect(w.rows, w.copies[winner].p, now).outcome == Written
    requires forall k :: 0 <= k < |moves| ==> KeepsItsCopy(moves[k], loser)
    ensures var u := From(Moved(w, Save(winner, now)), moves);
      && loser in u.copies && u.copies[loser].p.updatedAt == w.copies[loser].p.updatedAt
      && SaveEffect(u.rows, u.copies[loser].p, later).outcome != Written
      && (IsValid(u.copies[loser].p.content) && w.copies[loser].p.updatedAt != ZERO_TIME ==>
          SaveEffect(u.rows, u.copies[loser].p, later).outcome == Conflict)
  {
    var id, token := w.copies[loser].p.id, w.copies[loser].p.updatedAt;
    var v := Moved(w, Save(winner, now));
    SaveKeepsInv(w, winner, now);
    WinnerMakesOthersStale(w, winner, now, loser, id);
    StaleForever(v, moves, loser, id, token);
    StaleIsNotWritten(From(v, moves), loser, id, token, later);
  }

  /**
   * Why the runs above have no plain Update. After a written Update any copy of
   * the row, whatever version it was taken from, passes the token check exactly
   * when the clock stood at the copy's own token: not moved since, or set back.
   */
  lemma SaveAfterUpdateWrittenIff(rows: Rows, update: Process, now: Time, held: Process, later: Time)
    requires update.id == held.id && UpdateEffect(rows, update, now).outcome == Written
    requires Acceptable(UpdateEffect(rows, update, now).rows, held)
    ensures SaveEffect(UpdateEffect(rows, update, now).rows, held, later).outcome == Written <==> now == held.updatedAt
  {
    if FmtTime(now) == FmtTime(held.updatedAt) {
      TextTellsTheInstant(now, held.updatedAt);
    }
  }

  /** So an Update under a clock set back revives a stale copy, whose save then overwrites it. */
  lemma UpdateCanReviveAStaleCopy(rows: Rows, update: Process, held: Process, later: Time)
    requires update.id == held.id && held.id in rows && rows[held.id].updatedAt != FmtTime(held.updatedAt)
    requires UpdateEffect(rows, update, held.updatedAt).outcome == Written
    requires Acceptable(UpdateEffect(rows, update, held.updatedAt).rows, held)
    ensures SaveEffect(rows, held, later).outcome != Written
    ensures var e := SaveEffect(UpdateEffect(rows, update, held.updatedAt).rows, held, later);
      e.outcome == Written && e.rows[held.id].content == held.content
  {
    SaveAfterUpdateWrittenIff(rows, update, held.updatedAt, held, later);
  }
}
