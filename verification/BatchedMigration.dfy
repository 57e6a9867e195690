/**
 * Migrations that fill a column batch by batch: a loop that repeats while batches come back full,
 * retrying failed statements, up to ten in a row.
 */
module BatchedMigration {
  import opened FileDomain
  import opened FiniteSets

  const BATCH_SIZE: nat := 1000
  const MAX_ATTEMPTS: nat := 10

  /** A migration: which rows its batch query selects, and what its update makes of one. */
  datatype Migration<!Row> = Migration(eligible: Row -> bool, fill: Row -> Row)

  /** An update either takes a row out of the selection or leaves it as it was. */
  ghost predicate WellPosed<Row(!new)>(m: Migration<Row>) {
    forall r: Row :: m.eligible(r) ==> m.fill(r) == r || !m.eligible(m.fill(r))
  }

  function Eligible<Row>(m: Migration<Row>, rows: map<nat, Row>): set<nat> {
    set id | id in rows && m.eligible(rows[id])
  }

  /** The selected rows the update cannot take out of the selection. */
  ghost function Stubborn<Row>(m: Migration<Row>, rows: map<nat, Row>): set<nat> {
    set id | id in rows && m.eligible(rows[id]) && m.fill(rows[id]) == rows[id]
  }

  function Fill<Row>(m: Migration<Row>, rows: map<nat, Row>, ids: set<nat>): map<nat, Row> {
    map id | id in rows :: if id in ids then m.fill(rows[id]) else rows[id]
  }

  /** The database's side: which rows each LIMIT lets through, and which calls fail. */
  datatype Database = Database(limit: (set<nat>, nat) -> set<nat>, fails: nat -> bool)

  ghost predicate Plausible(db: Database) {
    forall s: set<nat>, call: nat ::
      db.limit(s, call) <= s && |db.limit(s, call)| == if |s| < BATCH_SIZE then |s| else BATCH_SIZE
  }

  datatype Outcome = Completed | GaveUp

  /** What the loop has done so far: the rows in `done` are filled, and only those. */
  ghost predicate Progress<Row(!new)>(m: Migration<Row>, before: map<nat, Row>, rows: map<nat, Row>, done: set<nat>) {
    && done <= Eligible(m, before)
    && rows == Fill(m, before, done)
    && Eligible(m, rows) == Eligible(m, before) - (done - Stubborn(m, before))
  }

  lemma BatchStep<Row(!new)>(m: Migration<Row>, before: map<nat, Row>, rows: map<nat, Row>, done: set<nat>,
                             batch: set<nat>)
    requires WellPosed(m) && Progress(m, before, rows, done) && batch <= Eligible(m, rows)
    ensures Progress(m, before, Fill(m, rows, batch), done + batch)
  {
    forall id | id in before && id in batch ensures rows[id] == before[id] {}
    assert Fill(m, rows, batch) == Fill(m, before, done + batch);
  }

  // ----- The loop as a machine ---------------------------------------------------------------

  /** What the loop knows between two passes: the table, the failures in a row, the calls made, the rows counted. */
  datatype Loop<Row> =
    | Looping(rows: map<nat, Row>, attempts: nat, call: nat, total: nat)
    | Stopped(outcome: Outcome, rows: map<nat, Row>, call: nat, total: nat)

  /** One pass of the do/while loop. */
  ghost function Pass<Row(!new)>(m: Migration<Row>, db: Database, s: Loop<Row>): Loop<Row> {
    match s
    case Stopped(_, _, _, _) => s
    case Looping(rows, attempts, call, total) =>
      if db.fails(call) then
        if attempts + 1 >= MAX_ATTEMPTS then Stopped(GaveUp, rows, call + 1, total)
        else Looping(rows, attempts + 1, call + 1, total)
      else
        var batch := db.limit(Eligible(m, rows), call);
        if |batch| == BATCH_SIZE then Looping(Fill(m, rows, batch), 0, call + 1, total + |batch|)
        else Stopped(Completed, Fill(m, rows, batch), call + 1, total + |batch|)
  }

  ghost function After<Row(!new)>(m: Migration<Row>, db: Database, rows: map<nat, Row>, passes: nat): Loop<Row> {
    if passes == 0 then Looping(rows, 0, 0, 0) else Pass(m, db, After(m, db, rows, passes - 1))
  }

  lemma AfterNext<Row(!new)>(m: Migration<Row>, db: Database, rows: map<nat, Row>, n: nat)
    ensures After(m, db, rows, n + 1) == Pass(m, db, After(m, db, rows, n))
  {}

  lemma {:induction false} StoppedStays<Row(!new)>(m: Migration<Row>, db: Database, rows: map<nat, Row>, n: nat, k: nat)
    requires n <= k && After(m, db, rows, n).Stopped?
    ensures After(m, db, rows, k) == After(m, db, rows, n)
    decreases k
  {
    if n < k {
      StoppedStays(m, db, rows, n, k - 1);
      AfterNext(m, db, rows, k - 1);
    }
  }

  class Table<Row(!new)> {
    var rows: map<nat, Row>

    constructor (rows: map<nat, Row>)
      ensures this.rows == rows
    {
      this.rows := rows;
    }

    /** One successful call of the batch update. */
    method RunBatch(m: Migration<Row>, db: Database, call: nat) returns (updated: nat)
      modifies this
      ensures var batch := db.limit(Eligible(m, old(rows)), call);
              rows == Fill(m, old(rows), batch) && updated == |batch|
    {
      var batch := db.limit(Eligible(m, rows), call);
      rows := Fill(m, rows, batch);
      return |batch|;
    }

    /** The do/while loop, which is known to stop within `passes` passes. */
    method RunLoop(m: Migration<Row>, db: Database, ghost passes: nat)
      returns (outcome: Outcome, totalUpdated: nat, ghost calls: nat)
      requires After(m, db, rows, passes).Stopped?
      modifies this
      ensures After(m, db, old(rows), calls) == Stopped(outcome, rows, calls, totalUpdated)
    {
      ghost var before := rows;
      var call: nat, attempts: nat, updated: nat := 0, 0, BATCH_SIZE;
      totalUpdated := 0;
      while updated == BATCH_SIZE
        invariant After(m, db, before, call)
                  == if updated == BATCH_SIZE then Looping(rows, attempts, call, totalUpdated)
                     else Stopped(Completed, rows, call, totalUpdated)
        decreases updated == BATCH_SIZE, passes - call
      {
        if passes <= call { StoppedStays(m, db, before, passes, call); }
        AfterNext(m, db, before, call);
        if db.fails(call) {
          attempts := attempts + 1;
          call := call + 1;
          if attempts >= MAX_ATTEMPTS {
            return GaveUp, totalUpdated, call;
          }
          updated := BATCH_SIZE;
        } else {
          updated := RunBatch(m, db, call);
          totalUpdated := totalUpdated + updated;
          attempts := 0;
          call := call + 1;
        }
      }
      return Completed, totalUpdated, call;
    }

    /**
     * The migration, on every table and database on which the loop ends: StallsIff says which these are. Unless it
     * gives up it has filled every selected row.
     */
    method Up(m: Migration<Row>, db: Database)
      returns (outcome: Outcome, totalUpdated: nat, ghost done: set<nat>, ghost calls: nat)
      requires WellPosed(m) && Plausible(db) && Ends(m, db, rows)
      modifies this
      ensures After(m, db, old(rows), calls) == Stopped(outcome, rows, calls, totalUpdated)
      ensures Progress(m, old(rows), rows, done)
      ensures outcome == Completed ==>
                && done == Eligible(m, old(rows)) && Eligible(m, rows) == Stubborn(m, old(rows))
                && |Stubborn(m, old(rows))| < BATCH_SIZE
      ensures Stubborn(m, old(rows)) == {} ==> totalUpdated == |done|
      ensures outcome == GaveUp ==> calls >= MAX_ATTEMPTS && FailsTen(db, calls - MAX_ATTEMPTS)
    {
      ghost var before := rows;
      ghost var passes: nat :| After(m, db, before, passes).Stopped?;
      outcome, totalUpdated, calls := RunLoop(m, db, passes);
      done := LoopIsSound(m, db, before, calls);
      if outcome == Completed { AllDone(m, before, rows, done); }
    }
  }

  ghost predicate Ends<Row(!new)>(m: Migration<Row>, db: Database, rows: map<nat, Row>) {
    exists n: nat :: After(m, db, rows, n).Stopped?
  }

  /** The rows still to be filled that the update can fill. */
  ghost function Pending<Row(!new)>(m: Migration<Row>, before: map<nat, Row>, done: set<nat>): set<nat> {
    Eligible(m, before) - Stubborn(m, before) - done
  }

  lemma AllDone<Row(!new)>(m: Migration<Row>, before: map<nat, Row>, rows: map<nat, Row>, done: set<nat>)
    requires Progress(m, before, rows, done) && done == Eligible(m, before)
    ensures Eligible(m, rows) == Stubborn(m, before)
  {}

  lemma NothingDone<Row(!new)>(m: Migration<Row>, rows: map<nat, Row>)
    ensures Progress(m, rows, rows, {})
  {
    assert Fill(m, rows, {}) == rows;
  }

  /** What one answer of the batch query means for the rows still to fill. */
  lemma BatchTaken<Row(!new)>(m: Migration<Row>, before: map<nat, Row>, rows: map<nat, Row>, done: set<nat>,
                              batch: set<nat>)
    requires Progress(m, before, rows, done) && batch <= Eligible(m, rows)
    requires |batch| == if |Eligible(m, rows)| < BATCH_SIZE then |Eligible(m, rows)| else BATCH_SIZE
    ensures |batch| < BATCH_SIZE ==> done + batch == Eligible(m, before)
    ensures Stubborn(m, before) == {} ==> |done + batch| == |done| + |batch|
    ensures |Stubborn(m, before)| < BATCH_SIZE && |batch| == BATCH_SIZE ==>
              Pending(m, before, done + batch) < Pending(m, before, done)
    ensures |Stubborn(m, before)| >= BATCH_SIZE ==> |batch| == BATCH_SIZE
  {
    var stubborn := Stubborn(m, before);
    assert stubborn <= Eligible(m, rows);
    SubsetSize(stubborn, Eligible(m, rows));
    SubsetSize(batch, Eligible(m, rows));
    if |stubborn| < BATCH_SIZE && |batch| == BATCH_SIZE {
      if batch <= stubborn { SubsetSize(batch, stubborn); }
      var id :| id in batch && id !in stubborn;
      assert id in Pending(m, before, done) && id !in Pending(m, before, done + batch);
    }
  }

  // ----- When the loop ends ------------------------------------------------------------------

  /** Whatever the loop has been through, it has only filled selected rows, and counts the failures just before. */
  ghost predicate Sound<Row(!new)>(m: Migration<Row>, db: Database, before: map<nat, Row>, s: Loop<Row>,
                            done: set<nat>) {
    && Progress(m, before, s.rows, done)
    && (s.Looping? ==>
          && s.attempts < MAX_ATTEMPTS && s.attempts <= s.call
          && forall k :: s.call - s.attempts <= k < s.call ==> db.fails(k))
    && (s.Stopped? && s.outcome == Completed ==> done == Eligible(m, before) && |Stubborn(m, before)| < BATCH_SIZE)
    && (s.Stopped? && s.outcome == GaveUp ==> s.call >= MAX_ATTEMPTS && FailsTen(db, s.call - MAX_ATTEMPTS))
    && (Stubborn(m, before) == {} ==> s.total == |done|)
  }

  ghost predicate FailsTen(db: Database, call: nat) {
    forall k :: call <= k < call + 10 ==> db.fails(k)
  }

  /** The rows filled after one more pass. */
  ghost function Handled<Row(!new)>(m: Migration<Row>, db: Database, s: Loop<Row>, done: set<nat>): set<nat>
    requires s.Looping?
  {
    if db.fails(s.call) then done else done + db.limit(Eligible(m, s.rows), s.call)
  }

  /** A pass that goes on has fewer rows to fill, or one more failure behind it. */
  ghost predicate Advances<Row(!new)>(m: Migration<Row>, before: map<nat, Row>, s: Loop<Row>, done: set<nat>,
                                      next: Loop<Row>, now: set<nat>)
    requires s.Looping?
  {
    |Stubborn(m, before)| < BATCH_SIZE && next.Looping? ==>
      || Pending(m, before, now) < Pending(m, before, done)
      || (now == done && next.attempts == s.attempts + 1)
  }

  lemma PassIsSound<Row(!new)>(m: Migration<Row>, db: Database, before: map<nat, Row>, s: Loop<Row>, done: set<nat>)
    requires WellPosed(m) && Plausible(db) && s.Looping? && Sound(m, db, before, s, done)
    ensures Sound(m, db, before, Pass(m, db, s), Handled(m, db, s, done))
    ensures Advances(m, before, s, done, Pass(m, db, s), Handled(m, db, s, done))
  {
    if db.fails(s.call) {
      if s.attempts + 1 >= MAX_ATTEMPTS { assert FailsTen(db, s.call + 1 - MAX_ATTEMPTS); }
    } else {
      var batch := db.limit(Eligible(m, s.rows), s.call);
      BatchTaken(m, before, s.rows, done, batch);
      BatchStep(m, before, s.rows, done, batch);
    }
  }

  lemma {:induction false} LoopIsSound<Row(!new)>(m: Migration<Row>, db: Database, rows: map<nat, Row>, n: nat)
    returns (done: set<nat>)
    requires WellPosed(m) && Plausible(db)
    ensures Sound(m, db, rows, After(m, db, rows, n), done)
  {
    if n == 0 {
      done := {};
      NothingDone(m, rows);
    } else {
      done := LoopIsSound(m, db, rows, n - 1);
      var s := After(m, db, rows, n - 1);
      if s.Looping? {
        PassIsSound(m, db, rows, s, done);
        done := Handled(m, db, s, done);
      }
    }
  }

  lemma {:induction false} LoopStops<Row(!new)>(m: Migration<Row>, db: Database, rows: map<nat, Row>, n: nat,
                                                s: Loop<Row>, done: set<nat>)
    returns (passes: nat)
    requires WellPosed(m) && Plausible(db) && |Stubborn(m, rows)| < BATCH_SIZE
    requires s == After(m, db, rows, n) && Sound(m, db, rows, s, done)
    ensures After(m, db, rows, passes).Stopped?
    decreases Pending(m, rows, done), if s.Looping? then MAX_ATTEMPTS - s.attempts else 0
  {
    if s.Stopped? {
      passes := n;
    } else {
      PassIsSound(m, db, rows, s, done);
      AfterNext(m, db, rows, n);
      var s' := Pass(m, db, s);
      if s'.Stopped? {
        passes := n + 1;
      } else {
        passes := LoopStops(m, db, rows, n + 1, s', Handled(m, db, s, done));
      }
    }
  }

  /**
   * The loop completes only if fewer rows than a batch are stubborn. Unless ten calls in a row fail, when it gives
   * up, that is also when it ends at all: with a whole batch of stubborn rows it goes on for ever.
   */
  lemma StallsIff<Row(!new)>(m: Migration<Row>, db: Database, rows: map<nat, Row>)
    requires WellPosed(m) && Plausible(db)
    ensures (exists n: nat :: After(m, db, rows, n).Stopped? && After(m, db, rows, n).outcome == Completed) ==>
              |Stubborn(m, rows)| < 1000
    ensures (forall call: nat :: !FailsTen(db, call)) ==>
              (Ends(m, db, rows) <==> |Stubborn(m, rows)| < 1000)
    ensures |Stubborn(m, rows)| < 1000 ==> Ends(m, db, rows)
  {
    forall n: nat | After(m, db, rows, n).Stopped?
      ensures After(m, db, rows, n).outcome == Completed ==> |Stubborn(m, rows)| < BATCH_SIZE
      ensures After(m, db, rows, n).outcome == GaveUp ==> exists call: nat :: FailsTen(db, call)
    {
      var done := LoopIsSound(m, db, rows, n);
    }
    if |Stubborn(m, rows)| < BATCH_SIZE {
      NothingDone(m, rows);
      var n := LoopStops(m, db, rows, 0, Looping(rows, 0, 0, 0), {});
    }
  }

  // ----- The three migrations ----------------------------------------------------------------

  datatype FileRow = FileRow(size: nat, fileId: Option<string>, status: FileStatus, folderId: Option<nat>,
                             folderUuid: Option<nat>)
  datatype Thumbnail = Thumbnail(fileId: Option<nat>, fileUuid: Option<nat>)

  /** Zero-size files lose their file id. */
  function FixZeroSize(): Migration<FileRow> {
    Migration((r: FileRow) => r.size == 0 && r.fileId.Some? && r.status != Deleted, (r: FileRow) => r.(fileId := None))
  }

  /** Files take the uuid of the folder their folder id names; `uuids` is the folders table. */
  function PopulateFolderUuid(uuids: map<nat, Option<nat>>): Migration<FileRow> {
    Migration(
      (r: FileRow) => r.folderUuid.None? && r.folderId.Some? && r.folderId.value in uuids && r.status != Deleted,
      (r: FileRow) => if r.folderId.Some? && r.folderId.value in uuids then r.(folderUuid := uuids[r.folderId.value])
                      else r)
  }

  /** Thumbnails take the uuid of the file their file id names. */
  function PopulateFileUuid(uuids: map<nat, Option<nat>>): Migration<Thumbnail> {
    Migration(
      (r: Thumbnail) => r.fileUuid.None? && r.fileId.Some? && r.fileId.value in uuids,
      (r: Thumbnail) => if r.fileId.Some? && r.fileId.value in uuids then r.(fileUuid := uuids[r.fileId.value]) else r)
  }

  /** Each is well posed, and its stubborn rows are those whose source uuid is null: none for the first. */
  lemma MigrationsAreWellPosed(folders: map<nat, Option<nat>>, files: map<nat, Option<nat>>, rows: map<nat, FileRow>,
                               thumbnails: map<nat, Thumbnail>)
    ensures WellPosed(FixZeroSize()) && WellPosed(PopulateFolderUuid(folders)) && WellPosed(PopulateFileUuid(files))
    ensures Stubborn(FixZeroSize(), rows) == {}
    ensures Stubborn(PopulateFolderUuid(folders), rows)
            == set id | id in Eligible(PopulateFolderUuid(folders), rows) && folders[rows[id].folderId.value].None?
    ensures Stubborn(PopulateFileUuid(files), thumbnails)
            == set id | id in Eligible(PopulateFileUuid(files), thumbnails) && files[thumbnails[id].fileId.value].None?
  {}

  /** What each has done when it completes: `done` are then all the rows its query selects. */
  lemma FixZeroSizeDid(before: map<nat, FileRow>, rows: map<nat, FileRow>, done: set<nat>)
    requires Progress(FixZeroSize(), before, rows, done) && done == Eligible(FixZeroSize(), before)
    ensures rows.Keys == before.Keys
    ensures forall id :: id in before ==>
              var r := before[id];
              rows[id] == if r.size == 0 && r.status != Deleted then r.(fileId := None) else r
  {}

  /** Every file left without a folder uuid that has a folder is given the uuid of the folder of its own id. */
  lemma PopulateFolderUuidDid(folders: map<nat, Option<nat>>, before: map<nat, FileRow>, rows: map<nat, FileRow>,
                              done: set<nat>)
    requires Progress(PopulateFolderUuid(folders), before, rows, done)
    requires done == Eligible(PopulateFolderUuid(folders), before)
    ensures rows.Keys == before.Keys
    ensures forall id :: id in before ==>
              var r := before[id];
              if r.folderUuid.None? && r.status != Deleted && r.folderId.Some? && r.folderId.value in folders
              then rows[id] == r.(folderUuid := folders[r.folderId.value])
              else rows[id] == r
  {}

  /** Every thumbnail left without a file uuid that has a file is given the uuid of the file of its own id. */
  lemma PopulateFileUuidDid(files: map<nat, Option<nat>>, before: map<nat, Thumbnail>, rows: map<nat, Thumbnail>,
                            done: set<nat>)
    requires Progress(PopulateFileUuid(files), before, rows, done) && done == Eligible(PopulateFileUuid(files), before)
    ensures rows.Keys == before.Keys
    ensures forall id :: id in before ==>
              var r := before[id];
              rows[id] == if r.fileUuid.None? && r.fileId.Some? && r.fileId.value in files
                          then r.(fileUuid := files[r.fileId.value]) else r
  {}
}
