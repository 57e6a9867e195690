/**
 * Incremental storage usage. Instead of summing a user's live files, the service keeps a ledger of
 * period deltas and adds the change since the last recorded period. Time is in microseconds, as the
 * tables hold it; the application's dates are whole milliseconds, the database's NOW() is not. A day
 * is a whole number of both, and a usage row carries the number of the day it covers.
 */
module UsageLedger {
  import opened FileDomain
  import opened Sums

  const MS := 1000
  const DAY := 86_400_000 * MS

  function DayOf(t: int): int { t / DAY }
  function StartOfDay(day: int): int { day * DAY }

  /** The last date of a day, a millisecond before the next. */
  function EndOfDay(day: int): int { StartOfDay(day + 1) - MS }

  /** What a statement stamps rows with: a date made by the application, or the database's own NOW(). */
  datatype Clock = Application | Database

  function Stamp(clock: Clock, now: int): int {
    match clock
    case Application => now - now % MS
    case Database => now
  }

  /** A day is 24 hours, and a date before midnight leaves a millisecond. */
  lemma DayHas24Hours(day: int, t: int)
    ensures StartOfDay(day + 1) - StartOfDay(day) == 24 * 60 * 60 * 1_000_000
    ensures EndOfDay(day) + 1000 == StartOfDay(day + 1)
    ensures StartOfDay(day) <= t < StartOfDay(day + 1) <==> DayOf(t) == day
  {}

  datatype FileRow = FileRow(uuid: nat, user: nat, createdAt: int, updatedAt: int, size: nat, status: FileStatus)

  datatype UsageType = Daily | Replacement
  datatype Usage = Usage(user: nat, kind: UsageType, day: int, delta: int)

  datatype State = State(files: seq<FileRow>, usages: seq<Usage>, now: int)

  // ----- The queries -------------------------------------------------------------------------

  /** One row's term in sumFileSizeDeltaBetweenDates: the CASE under the WHERE. */
  function BetweenWeight(user: nat, since: int, until: int): FileRow -> int {
    (r: FileRow) =>
      if r.user == user
         && (since <= r.createdAt <= until
             || (r.status == Deleted && r.createdAt < since && since <= r.updatedAt <= until))
      then
        if r.status != Deleted then r.size
        else if r.createdAt < since then 0 - r.size
        else if r.updatedAt > until then r.size
        else 0
      else 0
  }

  /** One row's term in sumFileSizeDeltaFromDate. */
  function FromWeight(user: nat, since: int): FileRow -> int {
    (r: FileRow) =>
      if r.user == user
         && ((r.status != Deleted && since <= r.createdAt) || (r.status == Deleted && since <= r.updatedAt))
      then
        if r.status != Deleted then r.size
        else if r.createdAt < since then 0 - r.size
        else 0
      else 0
  }

  /** One row's term in createFirstUsageCalculation, run on the day that starts at `today`. */
  function FirstWeight(user: nat, today: int): FileRow -> int {
    (r: FileRow) =>
      if r.user == user && r.createdAt < today then
        if r.status != Deleted || (r.status == Deleted && r.updatedAt >= today) then r.size else 0
      else 0
  }

  function SumBetween(files: seq<FileRow>, user: nat, since: int, until: int): int {
    Sum(files, BetweenWeight(user, since, until))
  }

  function SumFrom(files: seq<FileRow>, user: nat, since: int): int {
    Sum(files, FromWeight(user, since))
  }

  /** getLatestTemporalUsage: the greatest day among the user's daily rows. */
  function LatestDaily(usages: seq<Usage>, user: nat): Option<int> {
    if usages == [] then None
    else
      var rest := LatestDaily(usages[1..], user);
      var u := usages[0];
      if u.user == user && u.kind == Daily && (rest.None? || rest.value < u.day) then Some(u.day) else rest
  }

  function DeltaWeight(user: nat): Usage -> int {
    (u: Usage) => if u.user == user then u.delta else 0
  }

  /** calculateAggregatedUsage over a ledger of daily and replacement rows. */
  function Aggregated(usages: seq<Usage>, user: nat): int {
    Sum(usages, DeltaWeight(user))
  }

  /** The start of the period not yet covered by the ledger: getNextPeriodStartDate of the latest row. */
  function OpenStart(usages: seq<Usage>, user: nat): Option<int> {
    match LatestDaily(usages, user)
    case None => None
    case Some(day) => Some(StartOfDay(day + 1))
  }

  /** The number getUserUsedStorageIncrementally answers with. */
  function Reported(s: State, user: nat): int {
    match OpenStart(s.usages, user)
    case None =>
      var today := StartOfDay(DayOf(s.now));
      Sum(s.files, FirstWeight(user, today)) + SumFrom(s.files, user, today)
    case Some(open) =>
      Aggregated(s.usages, user) + SumFrom(s.files, user, open)
  }

  /** The rows getUserUsedStorageIncrementally appends to the ledger. */
  function QueryRows(s: State, user: nat, backfillFails: bool): seq<Usage> {
    var today := DayOf(s.now);
    match OpenStart(s.usages, user)
    case None => [Usage(user, Daily, today - 1, Sum(s.files, FirstWeight(user, StartOfDay(today))))]
    case Some(open) =>
      if DayOf(open) == today || backfillFails then []
      else [Usage(user, Daily, today - 1, SumBetween(s.files, user, open, EndOfDay(today - 1)))]
  }

  // ----- The writers -------------------------------------------------------------------------

  function TrashRow(user: nat, uuids: set<nat>, now: int): FileRow -> FileRow {
    (r: FileRow) =>
      if r.user == user && r.uuid in uuids && r.status == Exists then r.(status := Trashed, updatedAt := now) else r
  }

  function RestoreRow(user: nat, uuid: nat, now: int): FileRow -> FileRow {
    (r: FileRow) =>
      if r.user == user && r.uuid == uuid && r.status != Deleted then r.(status := Exists, updatedAt := now) else r
  }

  /** deleteFilesByUser: no status filter, so a DELETED row is stamped again. */
  function DeleteByUserRow(user: nat, uuids: set<nat>, now: int): FileRow -> FileRow {
    (r: FileRow) =>
      if r.user == user && r.uuid in uuids then r.(status := Deleted, updatedAt := now) else r
  }

  /** The filtered deletes: by uuid or folder with a date, or a batch of trashed rows with NOW(). */
  function DeleteLiveRow(uuids: set<nat>, now: int): FileRow -> FileRow {
    (r: FileRow) =>
      if r.uuid in uuids && r.status != Deleted then r.(status := Deleted, updatedAt := now) else r
  }

  /** mark_deleted_files_v3 on the files of a removed folder: by folder alone, whatever their status or owner. */
  function FolderRemovedRow(uuids: set<nat>, now: int): FileRow -> FileRow {
    (r: FileRow) => if r.uuid in uuids then r.(status := Deleted, updatedAt := now) else r
  }

  /** destroyDeletedFilesByUuids keeps every row that is not both named and DELETED. */
  function NotPurged(uuids: set<nat>): FileRow -> bool {
    (r: FileRow) => !(r.uuid in uuids && r.status == Deleted)
  }

  /** findByUuid restricted to the user: the index of the row, or the length of the table. */
  function IndexOf(files: seq<FileRow>, user: nat, uuid: nat): (i: nat)
    ensures i <= |files|
    ensures i < |files| ==> files[i].user == user && files[i].uuid == uuid
    ensures forall j :: 0 <= j < i ==> !(files[j].user == user && files[j].uuid == uuid)
  {
    if files == [] then 0
    else if files[0].user == user && files[0].uuid == uuid then 0
    else 1 + IndexOf(files[1..], user, uuid)
  }

  /**
   * The ledger row of addFileReplacementDelta. `recorded` is false when no row is written for the
   * change of size: the lock was not acquired, the write failed and was logged, or the file was versioned.
   */
  function ReplacementRows(s: State, file: FileRow, newSize: nat, recorded: bool): seq<Usage> {
    match LatestDaily(s.usages, file.user)
    case None => []
    case Some(day) =>
      if !recorded || newSize == file.size || DayOf(file.createdAt) > day then []
      else [Usage(file.user, Replacement, DayOf(s.now), newSize - file.size)]
  }

  /** One row changed by the user: what findByUuid then updateByUuidAndUserId do. */
  function UpdateAt(files: seq<FileRow>, user: nat, uuid: nat, f: FileRow -> FileRow): seq<FileRow> {
    var i := IndexOf(files, user, uuid);
    if i == |files| then files else files[i := f(files[i])]
  }

  function ReplaceRow(newSize: nat, now: int): FileRow -> FileRow {
    (r: FileRow) => if r.status == Exists then r.(size := newSize, updatedAt := now) else r
  }

  /** restoreFileVersion's write: it does not look at the file's status, and writes no usage row. */
  function RestoreVersionRow(size: nat, now: int): FileRow -> FileRow {
    (r: FileRow) => r.(size := size, updatedAt := now)
  }

  /**
   * The writers of the files table, the clock and the usage query. `Restore` stands for every update that leaves
   * a live file existing, a move or a renaming; `FolderRemoved` names the files of the folder removed.
   */
  datatype Step =
    | Tick(us: nat)
    | Create(user: nat, uuid: nat, size: nat)
    | Trash(user: nat, uuids: set<nat>)
    | Restore(user: nat, uuid: nat)
    | DeleteByUser(user: nat, uuids: set<nat>)
    | DeleteLive(uuids: set<nat>, clock: Clock)
    | FolderRemoved(uuids: set<nat>)
    | Replace(user: nat, uuid: nat, newSize: nat, recorded: bool)
    | RestoreVersion(user: nat, uuid: nat, size: nat)
    | Purge(uuids: set<nat>)
    | QueryUsage(user: nat, backfillFails: bool)

  function Apply(s: State, step: Step): State {
    match step
    case Tick(us) => s.(now := s.now + us)
    case Create(user, uuid, size) =>
      var date := Stamp(Application, s.now);
      s.(files := s.files + [FileRow(uuid, user, date, date, size, Exists)])
    case Trash(user, uuids) => s.(files := MapRows(s.files, TrashRow(user, uuids, Stamp(Application, s.now))))
    case Restore(user, uuid) => s.(files := MapRows(s.files, RestoreRow(user, uuid, Stamp(Application, s.now))))
    case DeleteByUser(user, uuids) =>
      s.(files := MapRows(s.files, DeleteByUserRow(user, uuids, Stamp(Application, s.now))))
    case DeleteLive(uuids, clock) => s.(files := MapRows(s.files, DeleteLiveRow(uuids, Stamp(clock, s.now))))
    case FolderRemoved(uuids) => s.(files := MapRows(s.files, FolderRemovedRow(uuids, Stamp(Database, s.now))))
    case Replace(user, uuid, newSize, recorded) =>
      var i := IndexOf(s.files, user, uuid);
      if i == |s.files| || s.files[i].status != Exists then s
      else s.(files := UpdateAt(s.files, user, uuid, ReplaceRow(newSize, Stamp(Application, s.now))),
              usages := s.usages + ReplacementRows(s, s.files[i], newSize, recorded))
    case RestoreVersion(user, uuid, size) =>
      s.(files := UpdateAt(s.files, user, uuid, RestoreVersionRow(size, Stamp(Application, s.now))))
    case Purge(uuids) => s.(files := Filter(s.files, NotPurged(uuids)))
    case QueryUsage(user, backfillFails) => s.(usages := s.usages + QueryRows(s, user, backfillFails))
  }

  // ----- What the numbers mean ---------------------------------------------------------------

  /** The plain answer: the sizes of the user's files that are not DELETED. */
  function LiveWeight(user: nat): FileRow -> int {
    (r: FileRow) => if r.user == user && r.status != Deleted then r.size else 0
  }

  function LiveUsage(files: seq<FileRow>, user: nat): int {
    Sum(files, LiveWeight(user))
  }

  /** Usage at the instant `t`, read off the stamps: created before `t` and not deleted before `t`. */
  function UsageAtWeight(user: nat, t: int): FileRow -> int {
    (r: FileRow) =>
      if r.user == user && r.createdAt < t && !(r.status == Deleted && r.updatedAt < t) then r.size else 0
  }

  function UsageAt(files: seq<FileRow>, user: nat, t: int): int {
    Sum(files, UsageAtWeight(user, t))
  }

  /** A closed period's delta is the difference of usage at its two ends. */
  lemma BetweenIsDifference(files: seq<FileRow>, user: nat, since: int, until: int)
    requires since <= until + 1
    ensures SumBetween(files, user, since, until) == UsageAt(files, user, until + 1) - UsageAt(files, user, since)
  {
    SumAdds(files, UsageAtWeight(user, since), BetweenWeight(user, since, until), UsageAtWeight(user, until + 1));
  }

  /** The open period's delta is the difference of usage now and at its start. */
  lemma FromIsDifference(files: seq<FileRow>, user: nat, since: int)
    ensures SumFrom(files, user, since) == LiveUsage(files, user) - UsageAt(files, user, since)
  {
    SumAdds(files, UsageAtWeight(user, since), FromWeight(user, since), LiveWeight(user));
  }

  /** Two closed periods and what lies between them add up to one, and a closed period and an open one likewise. */
  lemma PeriodsTelescope(files: seq<FileRow>, user: nat, a: int, b: int, c: int, d: int)
    requires a <= b + 1 <= c <= d + 1
    ensures SumBetween(files, user, a, b) + SumBetween(files, user, b + 1, c - 1) + SumBetween(files, user, c, d)
            == SumBetween(files, user, a, d)
    ensures SumBetween(files, user, a, b) + SumBetween(files, user, b + 1, c - 1) + SumFrom(files, user, c)
            == SumFrom(files, user, a)
    ensures c == b + 1 ==> SumBetween(files, user, b + 1, c - 1) == 0
  {
    BetweenIsDifference(files, user, a, b);
    BetweenIsDifference(files, user, b + 1, c - 1);
    BetweenIsDifference(files, user, c, d);
    BetweenIsDifference(files, user, a, d);
    FromIsDifference(files, user, a);
    FromIsDifference(files, user, c);
  }

  /** What no period covers when a day is closed at its last date: the rest of its last millisecond. */
  function GapDelta(files: seq<FileRow>, user: nat, today: int): int {
    SumBetween(files, user, EndOfDay(today - 1) + 1, StartOfDay(today) - 1)
  }

  lemma GapIsDifference(files: seq<FileRow>, user: nat, today: int)
    ensures GapDelta(files, user, today)
            == UsageAt(files, user, StartOfDay(today)) - UsageAt(files, user, EndOfDay(today - 1) + 1)
  {
    BetweenIsDifference(files, user, EndOfDay(today - 1) + 1, StartOfDay(today) - 1);
  }

  /** Files are created by the application, so at whole milliseconds. */
  ghost predicate CreatedOnDates(files: seq<FileRow>) {
    forall r :: r in files ==> r.createdAt % MS == 0
  }

  /** A file with a size that the database stamped as deleted in the last fraction of the day before. */
  predicate DeletedInGap(r: FileRow, user: nat, today: int) {
    && r.user == user && r.status == Deleted && r.createdAt < StartOfDay(today)
    && EndOfDay(today - 1) < r.updatedAt < StartOfDay(today) && r.size > 0
  }

  /** Dates leave the rest of a millisecond empty. */
  lemma NoDateInGap(t: int, today: int)
    requires t % MS == 0
    ensures t < StartOfDay(today) <==> t <= EndOfDay(today - 1)
  {
    assert StartOfDay(today) == MS * (86_400_000 * today);
  }

  lemma GapWeight(r: FileRow, user: nat, today: int)
    requires r.createdAt % MS == 0
    ensures BetweenWeight(user, EndOfDay(today - 1) + 1, StartOfDay(today) - 1)(r)
            == if DeletedInGap(r, user, today) then 0 - r.size else 0
  {
    NoDateInGap(r.createdAt, today);
  }

  /** The gap is empty exactly when no such deletion fell into it. */
  lemma GapIsDeletions(files: seq<FileRow>, user: nat, today: int)
    requires CreatedOnDates(files)
    ensures GapDelta(files, user, today) == 0 <==> forall r :: r in files ==> !DeletedInGap(r, user, today)
  {
    forall r | r in files { GapWeight(r, user, today); }
    SumNonPositive(files, BetweenWeight(user, EndOfDay(today - 1) + 1, StartOfDay(today) - 1));
  }

  lemma FirstIsUsageAt(files: seq<FileRow>, user: nat, today: int)
    ensures Sum(files, FirstWeight(user, today)) == UsageAt(files, user, today)
  {
    SumAdds(files, FirstWeight(user, today), NoWeight(), UsageAtWeight(user, today));
    NoWeightSums(files);
  }

  function NoWeight(): FileRow -> int { (r: FileRow) => 0 }

  lemma {:induction false} NoWeightSums(files: seq<FileRow>)
    ensures Sum(files, NoWeight()) == 0
  {
    if files != [] { NoWeightSums(files[1..]); }
  }

  /** A ledger that has been started has an open period that has started; one that has not has no rows. */
  ghost predicate Grounded(s: State, user: nat) {
    match OpenStart(s.usages, user)
    case None => forall u :: u in s.usages ==> u.user != user
    case Some(open) => open <= s.now
  }

  /** How far the ledger is off: what it sums to, less the usage at the start of the open period. */
  function Drift(s: State, user: nat): int {
    match OpenStart(s.usages, user)
    case None => 0
    case Some(open) => Aggregated(s.usages, user) - UsageAt(s.files, user, open)
  }

  ghost predicate Conserved(s: State, user: nat) {
    Grounded(s, user) && Drift(s, user) == 0
  }

  /** The fast answer is the plain one, off by the drift of the ledger. */
  lemma ReportedIsLive(s: State, user: nat)
    ensures Reported(s, user) == LiveUsage(s.files, user) + Drift(s, user)
  {
    match OpenStart(s.usages, user)
    case None =>
      var today := StartOfDay(DayOf(s.now));
      FirstIsUsageAt(s.files, user, today);
      FromIsDifference(s.files, user, today);
    case Some(open) =>
      FromIsDifference(s.files, user, open);
  }

  // ----- Which steps change what is past -----------------------------------------------------

  /** A deletion stamped before `t`, of a file created before `t` and with a size. */
  predicate DeletedBefore(r: FileRow, user: nat, t: int) {
    r.user == user && r.status == Deleted && r.createdAt < t && r.updatedAt < t && r.size > 0
  }

  /** The condition, on the state before a step, under which it leaves usage at an earlier instant as it was. */
  ghost predicate KeepsUsageAt(s: State, user: nat, t: int, step: Step) {
    match step
    case DeleteByUser(u, uuids) =>
      u == user ==> forall r :: r in s.files && r.uuid in uuids ==> !DeletedBefore(r, user, t)
    case FolderRemoved(uuids) =>
      forall r :: r in s.files && r.uuid in uuids ==> !DeletedBefore(r, user, t)
    case Replace(u, uuid, newSize, _) =>
      var i := IndexOf(s.files, u, uuid);
      u == user && i < |s.files| && s.files[i].status == Exists && s.files[i].createdAt < t ==>
        newSize == s.files[i].size
    case RestoreVersion(u, uuid, size) =>
      var i := IndexOf(s.files, u, uuid);
      u == user && i < |s.files| && s.files[i].createdAt < t ==>
        size == if s.files[i].status == Deleted && s.files[i].updatedAt < t then 0 else s.files[i].size
    case Purge(uuids) =>
      forall r :: r in s.files && r.user == user && r.uuid in uuids && r.status == Deleted ==>
        r.createdAt < t <= r.updatedAt ==> r.size == 0
    case _ => true
  }

  /** An update under which no row's weight falls. */
  lemma RaisedUsageAt(files: seq<FileRow>, f: FileRow -> FileRow, user: nat, t: int)
    requires forall r :: r in files ==> UsageAtWeight(user, t)(r) <= UsageAtWeight(user, t)(f(r))
    ensures UsageAt(MapRows(files, f), user, t) == UsageAt(files, user, t)
            <==> forall r :: r in files ==> UsageAtWeight(user, t)(r) == UsageAtWeight(user, t)(f(r))
  {
    var w, after := UsageAtWeight(user, t), MapRows(files, f);
    SumSqueeze(files, after, w);
    if forall i :: 0 <= i < |files| ==> w(files[i]) == w(after[i]) {
      forall r | r in files ensures w(r) == w(f(r)) {
        var i :| 0 <= i < |files| && files[i] == r;
        assert after[i] == f(files[i]);
      }
    }
  }

  lemma MarkedUsageAt(s: State, user: nat, t: int, step: Step)
    requires t <= Stamp(Application, s.now)
    requires step.Trash? || step.Restore? || step.DeleteByUser? || step.DeleteLive? || step.FolderRemoved?
    ensures UsageAt(Apply(s, step).files, user, t) == UsageAt(s.files, user, t) <==> KeepsUsageAt(s, user, t, step)
  {
    match step {
      case Trash(u, uuids) => RaisedUsageAt(s.files, TrashRow(u, uuids, Stamp(Application, s.now)), user, t);
      case Restore(u, uuid) => RaisedUsageAt(s.files, RestoreRow(u, uuid, Stamp(Application, s.now)), user, t);
      case DeleteLive(uuids, clock) => RaisedUsageAt(s.files, DeleteLiveRow(uuids, Stamp(clock, s.now)), user, t);
      case DeleteByUser(u, uuids) =>
        RaisedUsageAt(s.files, DeleteByUserRow(u, uuids, Stamp(Application, s.now)), user, t);
        assert forall r :: r in s.files && r.uuid in uuids && u == user ==>
          (DeletedBefore(r, user, t) <==>
             UsageAtWeight(user, t)(r)
             != UsageAtWeight(user, t)(DeleteByUserRow(u, uuids, Stamp(Application, s.now))(r)));
      case FolderRemoved(uuids) =>
        RaisedUsageAt(s.files, FolderRemovedRow(uuids, Stamp(Database, s.now)), user, t);
        assert forall r :: r in s.files && r.uuid in uuids ==>
          (DeletedBefore(r, user, t) <==>
             UsageAtWeight(user, t)(r) != UsageAtWeight(user, t)(FolderRemovedRow(uuids, Stamp(Database, s.now))(r)));
    }
  }

  lemma UpdatedUsageAt(files: seq<FileRow>, u: nat, uuid: nat, f: FileRow -> FileRow, user: nat, t: int)
    ensures var i, w := IndexOf(files, u, uuid), UsageAtWeight(user, t);
            UsageAt(UpdateAt(files, u, uuid, f), user, t)
              == UsageAt(files, user, t) + if i < |files| then w(f(files[i])) - w(files[i]) else 0
  {
    var i := IndexOf(files, u, uuid);
    if i < |files| { SumUpdate(files, i, f(files[i]), UsageAtWeight(user, t)); }
  }

  /** A step leaves usage at an earlier instant as it was exactly when its condition holds. */
  lemma StepKeepsUsageAt(s: State, user: nat, t: int, step: Step)
    requires t <= Stamp(Application, s.now)
    ensures UsageAt(Apply(s, step).files, user, t) == UsageAt(s.files, user, t) <==> KeepsUsageAt(s, user, t, step)
  {
    match step
    case Tick(_) =>
    case QueryUsage(_, _) =>
    case Create(u, uuid, size) =>
      var row := FileRow(uuid, u, Stamp(Application, s.now), Stamp(Application, s.now), size, Exists);
      SumAppend(s.files, [row], UsageAtWeight(user, t));
      assert Sum([row][1..], UsageAtWeight(user, t)) == 0;
    case Replace(u, uuid, newSize, _) =>
      UpdatedUsageAt(s.files, u, uuid, ReplaceRow(newSize, Stamp(Application, s.now)), user, t);
    case RestoreVersion(u, uuid, size) =>
      UpdatedUsageAt(s.files, u, uuid, RestoreVersionRow(size, Stamp(Application, s.now)), user, t);
    case Purge(uuids) => SumFilter(s.files, NotPurged(uuids), UsageAtWeight(user, t));
    case _ => MarkedUsageAt(s, user, t, step);
  }

  // ----- Which steps keep the ledger sound ---------------------------------------------------

  /** Whether a query by the user closes the open period, with a row for yesterday. */
  predicate Closes(s: State, user: nat, step: Step, open: int) {
    step.QueryUsage? && step.user == user && !step.backfillFails && DayOf(open) != DayOf(s.now)
  }

  /**
   * What each step must avoid, checkable beforehand. A ledger is thrown off exactly by a step that changes
   * usage at the start of the open period, other than a replacement that is recorded (by stamping again a
   * deletion already recorded, by a resize with no row, or by destroying a deletion not yet recorded), and by
   * closing the period when the last millisecond of yesterday holds a change after its first instant.
   */
  ghost predicate Safe(s: State, user: nat, step: Step) {
    match OpenStart(s.usages, user)
    case None => true
    case Some(open) =>
      && ((step.Replace? && step.recorded) || KeepsUsageAt(s, user, open, step))
      && (Closes(s, user, step, open) ==> GapDelta(s.files, user, DayOf(s.now)) == 0)
  }

  lemma {:induction false} LatestDailyAppend(usages: seq<Usage>, u: Usage, user: nat)
    ensures LatestDaily(usages + [u], user) ==
            if u.user == user && u.kind == Daily
               && (LatestDaily(usages, user).None? || LatestDaily(usages, user).value < u.day)
            then Some(u.day) else LatestDaily(usages, user)
  {
    if usages == [] {
      assert LatestDaily([u][1..], user) == None;
    } else {
      LatestDailyAppend(usages[1..], u, user);
      assert (usages + [u])[1..] == usages[1..] + [u];
    }
  }

  lemma AppendUsage(usages: seq<Usage>, u: Usage, user: nat)
    ensures Aggregated(usages + [u], user) == Aggregated(usages, user) + if u.user == user then u.delta else 0
  {
    SumAppend(usages, [u], DeltaWeight(user));
    assert Sum([u][1..], DeltaWeight(user)) == 0;
  }

  lemma {:induction false} NoRowsNoSum(usages: seq<Usage>, user: nat)
    requires forall u :: u in usages ==> u.user != user
    ensures LatestDaily(usages, user) == None && Aggregated(usages, user) == 0
  {
    if usages != [] { NoRowsNoSum(usages[1..], user); }
  }

  /** The open period starts at a date, which no later stamp precedes. */
  lemma OpenPrecedesStamps(s: State, user: nat)
    requires Grounded(s, user) && OpenStart(s.usages, user).Some?
    ensures OpenStart(s.usages, user).value <= Stamp(Application, s.now)
  {
    var open := OpenStart(s.usages, user).value;
    assert open == DAY * (open / DAY) == MS * (86_400_000 * (open / DAY));
  }

  lemma ReplaceKeepsDrift(s: State, user: nat, u: nat, uuid: nat, newSize: nat, recorded: bool, open: int)
    requires OpenStart(s.usages, user) == Some(open) && Grounded(s, user)
    ensures var s' := Apply(s, Replace(u, uuid, newSize, recorded));
            && Grounded(s', user)
            && (Drift(s', user) == Drift(s, user) <==> Safe(s, user, Replace(u, uuid, newSize, recorded)))
  {
    var i := IndexOf(s.files, u, uuid);
    if i < |s.files| && s.files[i].status == Exists {
      OpenPrecedesStamps(s, user);
      UpdatedUsageAt(s.files, u, uuid, ReplaceRow(newSize, Stamp(Application, s.now)), user, open);
      var rows := ReplacementRows(s, s.files[i], newSize, recorded);
      if rows != [] {
        assert rows == [rows[0]];
        LatestDailyAppend(s.usages, rows[0], user);
        AppendUsage(s.usages, rows[0], user);
      } else {
        assert s.usages + rows == s.usages;
      }
    }
  }

  /** An open period that started on an earlier day has a last date before today. */
  lemma EarlierDay(day: int, now: int)
    requires StartOfDay(day) <= now && DayOf(StartOfDay(day)) != DayOf(now)
    ensures day < DayOf(now) && StartOfDay(day) <= EndOfDay(DayOf(now) - 1) + 1 && StartOfDay(DayOf(now)) <= now
  {}

  /** Closing the open period costs the ledger what the gap before today holds. */
  lemma ClosingDrifts(s: State, user: nat, open: int, rows: seq<Usage>)
    requires Grounded(s, user) && OpenStart(s.usages, user) == Some(open) && DayOf(open) != DayOf(s.now)
    requires rows == [Usage(user, Daily, DayOf(s.now) - 1, SumBetween(s.files, user, open, EndOfDay(DayOf(s.now) - 1)))]
    ensures var s' := s.(usages := s.usages + rows);
            Grounded(s', user) && Drift(s', user) == Drift(s, user) - GapDelta(s.files, user, DayOf(s.now))
  {
    var day, today := LatestDaily(s.usages, user).value + 1, DayOf(s.now);
    EarlierDay(day, s.now);
    LatestDailyAppend(s.usages, rows[0], user);
    assert OpenStart(s.usages + rows, user) == Some(StartOfDay(today));
    AppendUsage(s.usages, rows[0], user);
    BetweenIsDifference(s.files, user, open, EndOfDay(today - 1));
    GapIsDifference(s.files, user, today);
  }

  lemma FirstRowDrifts(s: State, user: nat, rows: seq<Usage>)
    requires Grounded(s, user) && OpenStart(s.usages, user) == None
    requires rows == [Usage(user, Daily, DayOf(s.now) - 1, Sum(s.files, FirstWeight(user, StartOfDay(DayOf(s.now)))))]
    ensures var s' := s.(usages := s.usages + rows); Grounded(s', user) && Drift(s', user) == 0
  {
    LatestDailyAppend(s.usages, rows[0], user);
    AppendUsage(s.usages, rows[0], user);
    NoRowsNoSum(s.usages, user);
    FirstIsUsageAt(s.files, user, StartOfDay(DayOf(s.now)));
  }

  /** A query moves its own user's drift alone, by what the gap before today holds when it closes the period. */
  lemma QueryDrifts(s: State, user: nat, u: nat, backfillFails: bool)
    requires Grounded(s, user)
    ensures var s', open := Apply(s, QueryUsage(u, backfillFails)), OpenStart(s.usages, user);
            && Grounded(s', user)
            && Drift(s', user) == Drift(s, user)
                 - if open.Some? && Closes(s, user, QueryUsage(u, backfillFails), open.value)
                   then GapDelta(s.files, user, DayOf(s.now)) else 0
  {
    var rows := QueryRows(s, u, backfillFails);
    if rows == [] {
      assert s.usages + rows == s.usages;
    } else if u != user {
      assert rows == [rows[0]];
      LatestDailyAppend(s.usages, rows[0], user);
      AppendUsage(s.usages, rows[0], user);
    } else {
      match OpenStart(s.usages, user)
      case None => FirstRowDrifts(s, user, rows);
      case Some(open) => ClosingDrifts(s, user, open, rows);
    }
  }

  /** Every step leaves the ledger as far off as it was exactly when it is safe. */
  lemma StepKeepsDrift(s: State, user: nat, step: Step)
    requires Grounded(s, user)
    ensures Grounded(Apply(s, step), user)
    ensures Drift(Apply(s, step), user) == Drift(s, user) <==> Safe(s, user, step)
  {
    match OpenStart(s.usages, user)
    case None => StepBeforeLedger(s, user, step);
    case Some(open) =>
      OpenPrecedesStamps(s, user);
      match step
      case Replace(u, uuid, newSize, recorded) => ReplaceKeepsDrift(s, user, u, uuid, newSize, recorded, open);
      case QueryUsage(u, backfillFails) => QueryDrifts(s, user, u, backfillFails);
      case _ => StepKeepsUsageAt(s, user, open, step);
  }

  lemma StepBeforeLedger(s: State, user: nat, step: Step)
    requires Grounded(s, user) && OpenStart(s.usages, user).None?
    ensures Grounded(Apply(s, step), user) && Drift(Apply(s, step), user) == 0
  {
    match step
    case QueryUsage(u, backfillFails) => QueryDrifts(s, user, u, backfillFails);
    case Replace(u, uuid, newSize, recorded) =>
      var i := IndexOf(s.files, u, uuid);
      if i < |s.files| && s.files[i].status == Exists {
        var rows := ReplacementRows(s, s.files[i], newSize, recorded);
        if rows != [] {
          assert rows == [rows[0]];
          LatestDailyAppend(s.usages, rows[0], user);
          if u == user { assert false; }
        } else {
          assert s.usages + rows == s.usages;
        }
      }
    case _ =>
  }

  /** A sound ledger stays sound exactly under the safe steps. */
  lemma StepConserves(s: State, user: nat, step: Step)
    requires Conserved(s, user)
    ensures Conserved(Apply(s, step), user) <==> Safe(s, user, step)
  {
    StepKeepsDrift(s, user, step);
  }

  // ----- Whole runs --------------------------------------------------------------------------

  function Run(s: State, steps: seq<Step>): State
    decreases |steps|
  {
    if steps == [] then s else Run(Apply(s, steps[0]), steps[1..])
  }

  ghost predicate SafeRun(s: State, user: nat, steps: seq<Step>)
    decreases |steps|
  {
    steps == [] || (Safe(s, user, steps[0]) && SafeRun(Apply(s, steps[0]), user, steps[1..]))
  }

  /** A safe run leaves the ledger as far off as it was: sound if it was sound. */
  lemma {:induction false} RunKeepsDrift(s: State, user: nat, steps: seq<Step>)
    requires Grounded(s, user) && SafeRun(s, user, steps)
    ensures Grounded(Run(s, steps), user) && Drift(Run(s, steps), user) == Drift(s, user)
    decreases |steps|
  {
    if steps != [] {
      StepKeepsDrift(s, user, steps[0]);
      RunKeepsDrift(Apply(s, steps[0]), user, steps[1..]);
    }
  }

  // ----- What each step does, written out ----------------------------------------------------

  /** The rows of a table after an UPDATE: those that meet the condition are rewritten, the others are as they were. */
  ghost predicate Updated(before: seq<FileRow>, after: seq<FileRow>, where: FileRow -> bool, row: FileRow -> FileRow) {
    && |after| == |before|
    && forall i :: 0 <= i < |before| ==> after[i] == if where(before[i]) then row(before[i]) else before[i]
  }

  /** The place of the user's file of that uuid: the first such row, and on a table keyed by uuid the only one. */
  ghost predicate IsFile(files: seq<FileRow>, user: nat, uuid: nat, i: int) {
    && 0 <= i < |files| && files[i].user == user && files[i].uuid == uuid
    && forall j :: 0 <= j < i ==> !(files[j].user == user && files[j].uuid == uuid)
  }

  /** The user's file of that uuid is rewritten if it meets the condition, and no other row. */
  ghost predicate UpdatedFile(before: seq<FileRow>, after: seq<FileRow>, user: nat, uuid: nat, where: FileRow -> bool,
                              row: FileRow -> FileRow)
  {
    && |after| == |before|
    && forall i :: 0 <= i < |before| ==>
         after[i] == if IsFile(before, user, uuid, i) && where(before[i]) then row(before[i]) else before[i]
  }

  lemma FileIsAtIndex(files: seq<FileRow>, user: nat, uuid: nat, i: int)
    ensures IsFile(files, user, uuid, i) <==> 0 <= i < |files| && i == IndexOf(files, user, uuid)
  {}

  /** Some daily row of the user covers the day or a later one. */
  predicate CoveredBy(usages: seq<Usage>, user: nat, day: int) {
    exists u :: u in usages && u.user == user && u.kind == Daily && day <= u.day
  }

  /** Each step in the terms of its statement. */
  ghost predicate Effect(s: State, step: Step, s': State) {
    var date := s.now - s.now % 1000;
    && s'.now == s.now + (if step.Tick? then step.us else 0)
    && (!step.Replace? && !step.QueryUsage? ==> s'.usages == s.usages)
    && match step
       case Tick(_) => s'.files == s.files
       case Create(user, uuid, size) => s'.files == s.files + [FileRow(uuid, user, date, date, size, Exists)]
       case Trash(user, uuids) =>
         Updated(s.files, s'.files, (r: FileRow) => r.user == user && r.uuid in uuids && r.status == Exists,
                 (r: FileRow) => r.(status := Trashed, updatedAt := date))
       case Restore(user, uuid) =>
         Updated(s.files, s'.files, (r: FileRow) => r.user == user && r.uuid == uuid && r.status != Deleted,
                 (r: FileRow) => r.(status := Exists, updatedAt := date))
       case DeleteByUser(user, uuids) =>
         Updated(s.files, s'.files, (r: FileRow) => r.user == user && r.uuid in uuids,
                 (r: FileRow) => r.(status := Deleted, updatedAt := date))
       case DeleteLive(uuids, clock) =>
         Updated(s.files, s'.files, (r: FileRow) => r.uuid in uuids && r.status != Deleted,
                 (r: FileRow) => r.(status := Deleted, updatedAt := if clock.Database? then s.now else date))
       case FolderRemoved(uuids) =>
         Updated(s.files, s'.files, (r: FileRow) => r.uuid in uuids,
                 (r: FileRow) => r.(status := Deleted, updatedAt := s.now))
       case Replace(user, uuid, newSize, recorded) => ReplaceEffect(s, user, uuid, newSize, recorded, s')
       case RestoreVersion(user, uuid, size) =>
         UpdatedFile(s.files, s'.files, user, uuid, (r: FileRow) => true,
                     (r: FileRow) => r.(size := size, updatedAt := date))
       case Purge(uuids) =>
         && LeavesOut(s.files, s'.files)
         && forall r :: r in s'.files <==> r in s.files && !(r.uuid in uuids && r.status == Deleted)
       case QueryUsage(user, backfillFails) => QueryEffect(s, user, backfillFails, s')
  }

  /** A replacement writes a row for the change of size of an existing file no newer than some daily row. */
  ghost predicate ReplaceEffect(s: State, user: nat, uuid: nat, newSize: nat, recorded: bool, s': State) {
    && UpdatedFile(s.files, s'.files, user, uuid, (r: FileRow) => r.status == Exists,
                   (r: FileRow) => r.(size := newSize, updatedAt := s.now - s.now % 1000))
    && (forall i :: IsFile(s.files, user, uuid, i) && Recorded(s, s.files[i], newSize, recorded) ==>
          s'.usages == s.usages + [Usage(user, Replacement, s.now / 86_400_000_000, newSize - s.files[i].size)])
    && ((forall i :: IsFile(s.files, user, uuid, i) ==> !Recorded(s, s.files[i], newSize, recorded)) ==>
          s'.usages == s.usages)
  }

  ghost predicate Recorded(s: State, r: FileRow, newSize: nat, recorded: bool) {
    && recorded && r.status == Exists && newSize != r.size
    && CoveredBy(s.usages, r.user, r.createdAt / 86_400_000_000)
  }

  /** A query writes one daily row, for yesterday, unless one covers yesterday already or the backfill fails. */
  ghost predicate QueryEffect(s: State, user: nat, backfillFails: bool, s': State) {
    var today := s.now / 86_400_000_000;
    var asked := exists u :: u in s.usages && u.user == user && u.kind == Daily;
    && s'.files == s.files
    && (Grounded(s, user) ==>
          if asked && (backfillFails || CoveredBy(s.usages, user, today - 1)) then s'.usages == s.usages
          else |s'.usages| == |s.usages| + 1 && s.usages <= s'.usages
               && s'.usages[|s.usages|] == Usage(user, Daily, today - 1, s'.usages[|s.usages|].delta))
  }

  lemma {:induction false} LatestIsGreatest(usages: seq<Usage>, user: nat)
    ensures LatestDaily(usages, user).None? <==> forall u :: u in usages ==> !(u.user == user && u.kind == Daily)
    ensures LatestDaily(usages, user).Some? ==>
              forall day: int :: day <= LatestDaily(usages, user).value <==> CoveredBy(usages, user, day)
  {
    if usages != [] {
      LatestIsGreatest(usages[1..], user);
      assert usages == [usages[0]] + usages[1..];
      forall day: int
        ensures CoveredBy(usages, user, day) <==>
                CoveredBy(usages[1..], user, day)
                || (usages[0].user == user && usages[0].kind == Daily && day <= usages[0].day)
      {}
    }
  }

  lemma UpdateAtEffect(files: seq<FileRow>, user: nat, uuid: nat, f: FileRow -> FileRow, where: FileRow -> bool,
                       row: FileRow -> FileRow)
    requires forall r: FileRow :: f(r) == if where(r) then row(r) else r
    ensures UpdatedFile(files, UpdateAt(files, user, uuid, f), user, uuid, where, row)
  {
    forall i { FileIsAtIndex(files, user, uuid, i); }
  }

  lemma ReplaceHasEffect(s: State, user: nat, uuid: nat, newSize: nat, recorded: bool)
    ensures ReplaceEffect(s, user, uuid, newSize, recorded, Apply(s, Replace(user, uuid, newSize, recorded)))
  {
    var date := s.now - s.now % 1000;
    UpdateAtEffect(s.files, user, uuid, ReplaceRow(newSize, date), (r: FileRow) => r.status == Exists,
                   (r: FileRow) => r.(size := newSize, updatedAt := date));
    LatestIsGreatest(s.usages, user);
    assert s.usages + [] == s.usages;
    forall i { FileIsAtIndex(s.files, user, uuid, i); }
    var i := IndexOf(s.files, user, uuid);
    var files := Apply(s, Replace(user, uuid, newSize, recorded)).files;
    assert files == UpdateAt(s.files, user, uuid, ReplaceRow(newSize, date));
    if i < |s.files| && s.files[i].status == Exists {
      assert CoveredBy(s.usages, user, DayOf(s.files[i].createdAt))
        <==> LatestDaily(s.usages, user).Some? && DayOf(s.files[i].createdAt) <= LatestDaily(s.usages, user).value;
    }
  }

  lemma QueryHasEffect(s: State, user: nat, backfillFails: bool)
    ensures QueryEffect(s, user, backfillFails, Apply(s, QueryUsage(user, backfillFails)))
  {
    LatestIsGreatest(s.usages, user);
    assert s.usages + [] == s.usages;
    if Grounded(s, user) && OpenStart(s.usages, user).Some? {
      var day, today := LatestDaily(s.usages, user).value, DayOf(s.now);
      if DayOf(StartOfDay(day + 1)) != today { EarlierDay(day + 1, s.now); }
    }
  }

  lemma PurgeHasEffect(files: seq<FileRow>, uuids: set<nat>)
    ensures LeavesOut(files, Filter(files, NotPurged(uuids)))
    ensures forall r ::
              r in Filter(files, NotPurged(uuids)) <==> r in files && !(r.uuid in uuids && r.status == Deleted)
  {
    PurgeLeavesOut(files, uuids);
    forall r { FilterKeeps(files, NotPurged(uuids), r); }
  }

  lemma {:induction false} FilterKeeps(files: seq<FileRow>, keep: FileRow -> bool, r: FileRow)
    ensures r in Filter(files, keep) <==> r in files && keep(r)
  {
    if files != [] {
      FilterKeeps(files[1..], keep, r);
      assert files == [files[0]] + files[1..];
    }
  }

  /** Every step does what its statement says. */
  lemma StepHasEffect(s: State, step: Step)
    ensures Effect(s, step, Apply(s, step))
  {
    match step
    case Replace(user, uuid, newSize, recorded) => ReplaceHasEffect(s, user, uuid, newSize, recorded);
    case RestoreVersion(user, uuid, size) =>
      var date := s.now - s.now % 1000;
      UpdateAtEffect(s.files, user, uuid, RestoreVersionRow(size, date), (r: FileRow) => true,
                     (r: FileRow) => r.(size := size, updatedAt := date));
    case Purge(uuids) => PurgeHasEffect(s.files, uuids);
    case QueryUsage(user, backfillFails) => QueryHasEffect(s, user, backfillFails);
    case _ =>
  }

  // ----- What each step does to live usage ---------------------------------------------------

  /** The live files among those named, of one user. */
  function NamedLiveWeight(user: nat, uuids: set<nat>): FileRow -> int {
    (r: FileRow) => if r.user == user && r.uuid in uuids && r.status != Deleted then r.size else 0
  }

  function OthersLiveWeight(user: nat, uuids: set<nat>): FileRow -> int {
    (r: FileRow) => if r.user == user && r.uuid !in uuids && r.status != Deleted then r.size else 0
  }

  /** Deleting the files named takes exactly the live ones among them out of the user's usage. */
  lemma DeletedIsSubtracted(files: seq<FileRow>, f: FileRow -> FileRow, user: nat, uuids: set<nat>)
    requires forall r :: r in files ==> f(r).user == r.user
    requires forall r :: r in files ==> LiveWeight(user)(f(r)) == OthersLiveWeight(user, uuids)(r)
    ensures LiveUsage(MapRows(files, f), user) == LiveUsage(files, user) - Sum(files, NamedLiveWeight(user, uuids))
  {
    SumMapped(files, f, LiveWeight(user), OthersLiveWeight(user, uuids));
    SumAdds(files, NamedLiveWeight(user, uuids), OthersLiveWeight(user, uuids), LiveWeight(user));
  }

  /** Trashing and restoring move nothing; creating adds, deleting subtracts what was live, resizing adds the growth. */
  function LiveChange(s: State, user: nat, step: Step): int {
    match step
    case Create(u, _, size) => if u == user then size else 0
    case DeleteByUser(u, uuids) => if u == user then 0 - Sum(s.files, NamedLiveWeight(user, uuids)) else 0
    case DeleteLive(uuids, _) => 0 - Sum(s.files, NamedLiveWeight(user, uuids))
    case FolderRemoved(uuids) => 0 - Sum(s.files, NamedLiveWeight(user, uuids))
    case Replace(u, uuid, newSize, _) =>
      var i := IndexOf(s.files, u, uuid);
      if u == user && i < |s.files| && s.files[i].status == Exists then newSize - s.files[i].size else 0
    case RestoreVersion(u, uuid, size) =>
      var i := IndexOf(s.files, u, uuid);
      if u == user && i < |s.files| && s.files[i].status != Deleted then size - s.files[i].size else 0
    case _ => 0
  }

  lemma UpdatedLiveUsage(files: seq<FileRow>, u: nat, uuid: nat, f: FileRow -> FileRow, user: nat)
    ensures var i, w := IndexOf(files, u, uuid), LiveWeight(user);
            LiveUsage(UpdateAt(files, u, uuid, f), user)
              == LiveUsage(files, user) + if i < |files| then w(f(files[i])) - w(files[i]) else 0
  {
    var i := IndexOf(files, u, uuid);
    if i < |files| { SumUpdate(files, i, f(files[i]), LiveWeight(user)); }
  }

  lemma StepMovesLiveUsage(s: State, user: nat, step: Step)
    ensures LiveUsage(Apply(s, step).files, user) == LiveUsage(s.files, user) + LiveChange(s, user, step)
  {
    var date := Stamp(Application, s.now);
    match step
    case Tick(_) =>
    case QueryUsage(_, _) =>
    case Create(u, uuid, size) =>
      SumAppend(s.files, [FileRow(uuid, u, date, date, size, Exists)], LiveWeight(user));
      SumOne(FileRow(uuid, u, date, date, size, Exists), LiveWeight(user));
    case Trash(u, uuids) => SumMapped(s.files, TrashRow(u, uuids, date), LiveWeight(user), LiveWeight(user));
    case Restore(u, uuid) => SumMapped(s.files, RestoreRow(u, uuid, date), LiveWeight(user), LiveWeight(user));
    case DeleteByUser(u, uuids) =>
      if u == user { DeletedIsSubtracted(s.files, DeleteByUserRow(u, uuids, date), user, uuids); }
      else { SumMapped(s.files, DeleteByUserRow(u, uuids, date), LiveWeight(user), LiveWeight(user)); }
    case DeleteLive(uuids, clock) =>
      DeletedIsSubtracted(s.files, DeleteLiveRow(uuids, Stamp(clock, s.now)), user, uuids);
    case FolderRemoved(uuids) =>
      DeletedIsSubtracted(s.files, FolderRemovedRow(uuids, Stamp(Database, s.now)), user, uuids);
    case Replace(u, uuid, newSize, _) => UpdatedLiveUsage(s.files, u, uuid, ReplaceRow(newSize, date), user);
    case RestoreVersion(u, uuid, size) => UpdatedLiveUsage(s.files, u, uuid, RestoreVersionRow(size, date), user);
    case Purge(uuids) =>
      PurgeLeavesOut(s.files, uuids);
      LeftOutIsNotLive(s.files, Filter(s.files, NotPurged(uuids)), user);
  }

  function TotalChange(s: State, user: nat, steps: seq<Step>): int
    decreases |steps|
  {
    if steps == [] then 0 else LiveChange(s, user, steps[0]) + TotalChange(Apply(s, steps[0]), user, steps[1..])
  }

  lemma {:induction false} RunMovesLiveUsage(s: State, user: nat, steps: seq<Step>)
    ensures LiveUsage(Run(s, steps).files, user) == LiveUsage(s.files, user) + TotalChange(s, user, steps)
    decreases |steps|
  {
    if steps != [] {
      StepMovesLiveUsage(s, user, steps[0]);
      RunMovesLiveUsage(Apply(s, steps[0]), user, steps[1..]);
    }
  }

  /**
   * Usage conservation: after any safe run from an empty ledger the fast answer is the plain one, and it is what the
   * user had at the start with every step's change added.
   */
  lemma UsageConservation(files: seq<FileRow>, now: int, user: nat, steps: seq<Step>)
    requires SafeRun(State(files, [], now), user, steps)
    ensures var s := Run(State(files, [], now), steps); Reported(s, user) == LiveUsage(s.files, user)
    ensures Reported(Run(State(files, [], now), steps), user)
            == LiveUsage(files, user) + TotalChange(State(files, [], now), user, steps)
  {
    var s0 := State(files, [], now);
    RunKeepsDrift(s0, user, steps);
    ReportedIsLive(Run(s0, steps), user);
    RunMovesLiveUsage(s0, user, steps);
  }

  /**
   * Asking changes nobody else's answer, and the asker's by exactly what the gap before today holds, when it
   * closes the period; so a backfill changes no answer if and only if the query is safe.
   */
  lemma QueryMovesAnswer(s: State, user: nat, u: nat, backfillFails: bool)
    requires u == user ==> Grounded(s, user)
    ensures var s', open := Apply(s, QueryUsage(u, backfillFails)), OpenStart(s.usages, user);
            && Reported(s', user) == Reported(s, user)
                 - (if open.Some? && Closes(s, user, QueryUsage(u, backfillFails), open.value)
                    then GapDelta(s.files, user, DayOf(s.now)) else 0)
            && (Reported(s', user) == Reported(s, user) <==> Safe(s, user, QueryUsage(u, backfillFails)))
  {
    if u == user {
      QueryDrifts(s, user, u, backfillFails);
      ReportedIsLive(s, user);
      ReportedIsLive(Apply(s, QueryUsage(u, backfillFails)), user);
    } else {
      var rows := QueryRows(s, u, backfillFails);
      if rows == [] {
        assert s.usages + rows == s.usages;
      } else {
        assert rows == [rows[0]];
        LatestDailyAppend(s.usages, rows[0], user);
        AppendUsage(s.usages, rows[0], user);
      }
    }
  }

  // ----- Purges ------------------------------------------------------------------------------

  /** Deletions stamped before `cutoff`, as the hard-delete job picks them. */
  ghost predicate StampedBefore(files: seq<FileRow>, uuids: set<nat>, cutoff: int) {
    forall r :: r in files && r.uuid in uuids && r.status == Deleted ==> r.updatedAt < cutoff
  }

  /** `b` is `a` with some DELETED rows left out. */
  ghost predicate LeavesOut(a: seq<FileRow>, b: seq<FileRow>)
    decreases |a|
  {
    if a == [] then b == []
    else (b != [] && a[0] == b[0] && LeavesOut(a[1..], b[1..])) || (a[0].status == Deleted && LeavesOut(a[1..], b))
  }

  lemma {:induction false} PurgeLeavesOut(files: seq<FileRow>, uuids: set<nat>)
    ensures LeavesOut(files, Filter(files, NotPurged(uuids)))
  {
    if files != [] {
      PurgeLeavesOut(files[1..], uuids);
      var rest := Filter(files[1..], NotPurged(uuids));
      assert ([files[0]] + rest)[1..] == rest;
      if !NotPurged(uuids)(files[0]) { assert Filter(files, NotPurged(uuids)) == rest; }
    }
  }

  lemma {:induction false} LeftOutMembers(a: seq<FileRow>, b: seq<FileRow>, r: FileRow)
    requires LeavesOut(a, b) && r in b
    ensures r in a
    decreases |a|
  {
    if b != [] && a[0] == b[0] && LeavesOut(a[1..], b[1..]) {
      if r != b[0] { LeftOutMembers(a[1..], b[1..], r); }
    } else {
      LeftOutMembers(a[1..], b, r);
    }
  }

  lemma {:induction false} MappedLeavesOut(a: seq<FileRow>, b: seq<FileRow>, f: FileRow -> FileRow)
    requires LeavesOut(a, b) && forall r: FileRow :: r.status == Deleted ==> f(r).status == Deleted
    ensures LeavesOut(MapRows(a, f), MapRows(b, f))
    decreases |a|
  {
    if a != [] {
      assert MapRows(a, f)[1..] == MapRows(a[1..], f);
      if b != [] && a[0] == b[0] && LeavesOut(a[1..], b[1..]) {
        assert MapRows(b, f)[1..] == MapRows(b[1..], f);
        MappedLeavesOut(a[1..], b[1..], f);
      } else {
        MappedLeavesOut(a[1..], b, f);
      }
    }
  }

  lemma {:induction false} FilteredLeavesOut(a: seq<FileRow>, b: seq<FileRow>, uuids: set<nat>)
    requires LeavesOut(a, b)
    ensures LeavesOut(Filter(a, NotPurged(uuids)), Filter(b, NotPurged(uuids)))
    decreases |a|
  {
    if a != [] {
      var restA := Filter(a[1..], NotPurged(uuids));
      assert ([a[0]] + restA)[1..] == restA;
      if !NotPurged(uuids)(a[0]) { assert Filter(a, NotPurged(uuids)) == restA; }
      if b != [] && a[0] == b[0] && LeavesOut(a[1..], b[1..]) {
        var restB := Filter(b[1..], NotPurged(uuids));
        assert ([b[0]] + restB)[1..] == restB;
        if !NotPurged(uuids)(b[0]) { assert Filter(b, NotPurged(uuids)) == restB; }
        FilteredLeavesOut(a[1..], b[1..], uuids);
      } else {
        FilteredLeavesOut(a[1..], b, uuids);
      }
    }
  }

  lemma {:induction false} AppendedLeavesOut(a: seq<FileRow>, b: seq<FileRow>, row: FileRow)
    requires LeavesOut(a, b)
    ensures LeavesOut(a + [row], b + [row])
    decreases |a|
  {
    if a != [] {
      assert (a + [row])[1..] == a[1..] + [row];
      if b != [] && a[0] == b[0] && LeavesOut(a[1..], b[1..]) {
        assert (b + [row])[1..] == b[1..] + [row];
        AppendedLeavesOut(a[1..], b[1..], row);
      } else {
        AppendedLeavesOut(a[1..], b, row);
      }
    }
  }

  lemma {:induction false} LeftOutIsNotLive(a: seq<FileRow>, b: seq<FileRow>, user: nat)
    requires LeavesOut(a, b)
    ensures LiveUsage(a, user) == LiveUsage(b, user)
    decreases |a|
  {
    if a != [] {
      if b != [] && a[0] == b[0] && LeavesOut(a[1..], b[1..]) {
        LeftOutIsNotLive(a[1..], b[1..], user);
      } else {
        LeftOutIsNotLive(a[1..], b, user);
      }
    }
  }

  /** A file's uuid is its key. */
  ghost predicate UniqueUuids(files: seq<FileRow>) {
    forall i, j :: 0 <= i < j < |files| ==> files[i].uuid != files[j].uuid
  }

  /** The same row is found in both tables, or only a DELETED one in the larger. */
  lemma {:induction false} FoundLeavesOut(a: seq<FileRow>, b: seq<FileRow>, user: nat, uuid: nat)
    requires LeavesOut(a, b) && UniqueUuids(a)
    ensures var i, j := IndexOf(a, user, uuid), IndexOf(b, user, uuid);
            && (j < |b| ==> i < |a| && a[i] == b[j])
            && (i < |a| && j == |b| ==> a[i].status == Deleted)
    decreases |a|
  {
    if a != [] {
      if b != [] && a[0] == b[0] && LeavesOut(a[1..], b[1..]) {
        FoundLeavesOut(a[1..], b[1..], user, uuid);
      } else {
        FoundLeavesOut(a[1..], b, user, uuid);
      }
    }
  }

  lemma UpdateAtHead(files: seq<FileRow>, user: nat, uuid: nat, f: FileRow -> FileRow)
    requires files != []
    ensures UpdateAt(files, user, uuid, f)
            == if files[0].user == user && files[0].uuid == uuid then [f(files[0])] + files[1..]
               else [files[0]] + UpdateAt(files[1..], user, uuid, f)
  {}

  lemma ConsLeavesOut(x: FileRow, a: seq<FileRow>, y: FileRow, b: seq<FileRow>)
    requires LeavesOut(a, b)
    ensures x == y ==> LeavesOut([x] + a, [y] + b)
    ensures x.status == Deleted ==> LeavesOut([x] + a, b)
  {
    assert ([x] + a)[1..] == a && ([y] + b)[1..] == b;
  }

  lemma {:induction false} UpdatedLeavesOut(a: seq<FileRow>, b: seq<FileRow>, user: nat, uuid: nat,
                                            f: FileRow -> FileRow)
    requires LeavesOut(a, b) && UniqueUuids(a)
    requires forall r: FileRow :: r.status == Deleted ==> f(r).status == Deleted
    ensures LeavesOut(UpdateAt(a, user, uuid, f), UpdateAt(b, user, uuid, f))
    decreases |a|
  {
    if a != [] {
      UpdateAtHead(a, user, uuid, f);
      var here := a[0].user == user && a[0].uuid == uuid;
      var restA := if here then a[1..] else UpdateAt(a[1..], user, uuid, f);
      var x := if here then f(a[0]) else a[0];
      if b != [] && a[0] == b[0] && LeavesOut(a[1..], b[1..]) {
        UpdatedLeavesOut(a[1..], b[1..], user, uuid, f);
        UpdateAtHead(b, user, uuid, f);
        ConsLeavesOut(x, restA, x, if here then b[1..] else UpdateAt(b[1..], user, uuid, f));
      } else if here {
        FoundLeavesOut(a[1..], b, user, uuid);
        ConsLeavesOut(x, a[1..], x, b);
      } else {
        UpdatedLeavesOut(a[1..], b, user, uuid, f);
        ConsLeavesOut(x, restA, x, UpdateAt(b, user, uuid, f));
      }
    }
  }

  /** Ledgers that differ in their deltas alone. */
  ghost predicate SameShape(a: seq<Usage>, b: seq<Usage>) {
    |a| == |b| && forall i :: 0 <= i < |a| ==> a[i].user == b[i].user && a[i].kind == b[i].kind && a[i].day == b[i].day
  }

  lemma {:induction false} SameLatest(a: seq<Usage>, b: seq<Usage>, user: nat)
    requires SameShape(a, b)
    ensures LatestDaily(a, user) == LatestDaily(b, user)
  {
    if a != [] { SameLatest(a[1..], b[1..], user); }
  }

  /** `b` is where `a` would be had some DELETED files been destroyed earlier. */
  ghost predicate Purged(a: State, b: State) {
    && LeavesOut(a.files, b.files) && SameShape(a.usages, b.usages) && a.now == b.now
    && UniqueUuids(a.files) && CreatedOnDates(a.files)
  }

  /** A created file's uuid is new. */
  ghost predicate Fresh(s: State, step: Step) {
    step.Create? ==> forall r :: r in s.files ==> r.uuid != step.uuid
  }

  lemma {:induction false} FilterMembers(files: seq<FileRow>, keep: FileRow -> bool, r: FileRow)
    requires r in Filter(files, keep)
    ensures r in files
  {
    if r in Filter(files[1..], keep) { FilterMembers(files[1..], keep, r); }
  }

  lemma {:induction false} FilterUnique(files: seq<FileRow>, keep: FileRow -> bool)
    requires UniqueUuids(files)
    ensures UniqueUuids(Filter(files, keep))
  {
    if files != [] {
      FilterUnique(files[1..], keep);
      forall r | r in Filter(files[1..], keep) ensures r.uuid != files[0].uuid { FilterMembers(files[1..], keep, r); }
    }
  }

  lemma StepKeepsUnique(s: State, step: Step)
    requires UniqueUuids(s.files) && CreatedOnDates(s.files) && Fresh(s, step)
    ensures UniqueUuids(Apply(s, step).files) && CreatedOnDates(Apply(s, step).files)
  {
    if step.Purge? {
      var keep := NotPurged(step.uuids);
      FilterUnique(s.files, keep);
      forall r | r in Filter(s.files, keep) ensures r in s.files { FilterMembers(s.files, keep, r); }
    }
  }

  lemma StepKeepsPurged(a: State, b: State, step: Step)
    requires Purged(a, b) && Fresh(a, step)
    ensures Purged(Apply(a, step), Apply(b, step))
  {
    StepKeepsUnique(a, step);
    var date := Stamp(Application, a.now);
    match step
    case Tick(_) =>
    case Create(user, uuid, size) =>
      AppendedLeavesOut(a.files, b.files, FileRow(uuid, user, date, date, size, Exists));
    case Trash(user, uuids) => MappedLeavesOut(a.files, b.files, TrashRow(user, uuids, date));
    case Restore(user, uuid) => MappedLeavesOut(a.files, b.files, RestoreRow(user, uuid, date));
    case DeleteByUser(user, uuids) => MappedLeavesOut(a.files, b.files, DeleteByUserRow(user, uuids, date));
    case DeleteLive(uuids, clock) => MappedLeavesOut(a.files, b.files, DeleteLiveRow(uuids, Stamp(clock, a.now)));
    case FolderRemoved(uuids) => MappedLeavesOut(a.files, b.files, FolderRemovedRow(uuids, Stamp(Database, a.now)));
    case Replace(user, uuid, newSize, _) =>
      UpdatedLeavesOut(a.files, b.files, user, uuid, ReplaceRow(newSize, date));
      FoundLeavesOut(a.files, b.files, user, uuid);
      SameLatest(a.usages, b.usages, user);
    case RestoreVersion(user, uuid, size) =>
      UpdatedLeavesOut(a.files, b.files, user, uuid, RestoreVersionRow(size, date));
    case Purge(uuids) => FilteredLeavesOut(a.files, b.files, uuids);
    case QueryUsage(user, _) => SameLatest(a.usages, b.usages, user);
  }

  /** What is safe with the destroyed rows still there is safe without them. */
  lemma SafeWhenPurged(a: State, b: State, user: nat, step: Step)
    requires Purged(a, b) && Safe(a, user, step)
    ensures Safe(b, user, step)
  {
    SameLatest(a.usages, b.usages, user);
    forall r | r in b.files ensures r in a.files { LeftOutMembers(a.files, b.files, r); }
    match step
    case Replace(u, uuid, _, _) => FoundLeavesOut(a.files, b.files, u, uuid);
    case RestoreVersion(u, uuid, _) => FoundLeavesOut(a.files, b.files, u, uuid);
    case QueryUsage(_, _) =>
      GapIsDeletions(a.files, user, DayOf(a.now));
      GapIsDeletions(b.files, user, DayOf(b.now));
    case _ =>
  }

  ghost predicate FreshRun(s: State, steps: seq<Step>)
    decreases |steps|
  {
    steps == [] || (Fresh(s, steps[0]) && FreshRun(Apply(s, steps[0]), steps[1..]))
  }

  lemma {:induction false} RunKeepsPurged(a: State, b: State, user: nat, steps: seq<Step>)
    requires Purged(a, b) && FreshRun(a, steps) && SafeRun(a, user, steps)
    ensures Purged(Run(a, steps), Run(b, steps)) && SafeRun(b, user, steps)
    decreases |steps|
  {
    if steps != [] {
      StepKeepsPurged(a, b, steps[0]);
      SafeWhenPurged(a, b, user, steps[0]);
      RunKeepsPurged(Apply(a, steps[0]), Apply(b, steps[0]), user, steps[1..]);
    }
  }

  /**
   * Purge safety: destroying deletions that the ledger has recorded changes the answer neither now nor in any
   * later state, whatever the ledger is off by. The later run need be safe only as if nothing had been destroyed.
   */
  lemma PurgeSafety(s: State, user: nat, uuids: set<nat>, steps: seq<Step>)
    requires Grounded(s, user) && Safe(s, user, Purge(uuids)) && UniqueUuids(s.files) && CreatedOnDates(s.files)
    requires SafeRun(s, user, steps) && FreshRun(s, steps)
    ensures Reported(Run(Apply(s, Purge(uuids)), steps), user) == Reported(Run(s, steps), user)
  {
    var b := Apply(s, Purge(uuids));
    PurgeLeavesOut(s.files, uuids);
    StepKeepsDrift(s, user, Purge(uuids));
    RunKeepsPurged(s, b, user, steps);
    RunKeepsDrift(s, user, steps);
    RunKeepsDrift(b, user, steps);
    ReportedIsLive(Run(s, steps), user);
    ReportedIsLive(Run(b, steps), user);
    LeftOutIsNotLive(Run(s, steps).files, Run(b, steps).files, user);
  }

  /** At the purge itself: the answer stays if and only if the purge is safe. */
  lemma PurgeIsInvisibleIff(s: State, user: nat, uuids: set<nat>)
    requires Grounded(s, user)
    ensures Reported(Apply(s, Purge(uuids)), user) == Reported(s, user) <==> Safe(s, user, Purge(uuids))
  {
    var b := Apply(s, Purge(uuids));
    StepKeepsDrift(s, user, Purge(uuids));
    PurgeLeavesOut(s.files, uuids);
    LeftOutIsNotLive(s.files, b.files, user);
    ReportedIsLive(s, user);
    ReportedIsLive(b, user);
  }

  /** The job's cutoff makes a purge safe when it lies no later than the start of the open period. */
  lemma CutoffIsSafe(s: State, user: nat, uuids: set<nat>, cutoff: int)
    requires StampedBefore(s.files, uuids, cutoff)
    requires OpenStart(s.usages, user).Some? ==> cutoff <= OpenStart(s.usages, user).value
    ensures Safe(s, user, Purge(uuids))
  {}

  /** So for the hard-delete job: what it destroys by a cutoff before the open period is never missed. */
  lemma JobPurgeSafety(s: State, user: nat, uuids: set<nat>, cutoff: int, steps: seq<Step>)
    requires Grounded(s, user) && StampedBefore(s.files, uuids, cutoff)
    requires OpenStart(s.usages, user).Some? ==> cutoff <= OpenStart(s.usages, user).value
    requires UniqueUuids(s.files) && CreatedOnDates(s.files) && SafeRun(s, user, steps) && FreshRun(s, steps)
    ensures Reported(Run(Apply(s, Purge(uuids)), steps), user) == Reported(Run(s, steps), user)
  {
    CutoffIsSafe(s, user, uuids, cutoff);
    PurgeSafety(s, user, uuids, steps);
  }

  // ----- Where it goes wrong -----------------------------------------------------------------

  /** A versioned replacement leaves the answer short by the growth of a file older than the open period. */
  lemma UnrecordedReplacementDrift(s: State, user: nat, uuid: nat, newSize: nat)
    requires Grounded(s, user) && OpenStart(s.usages, user).Some?
    requires IndexOf(s.files, user, uuid) < |s.files|
    requires s.files[IndexOf(s.files, user, uuid)].status == Exists
    ensures var file := s.files[IndexOf(s.files, user, uuid)];
            var s' := Apply(s, Replace(user, uuid, newSize, false));
            Drift(s', user) == Drift(s, user)
              - if file.createdAt < OpenStart(s.usages, user).value then newSize - file.size else 0
  {
    var open := OpenStart(s.usages, user).value;
    OpenPrecedesStamps(s, user);
    assert Apply(s, Replace(user, uuid, newSize, false)).usages == s.usages;
    UpdatedUsageAt(s.files, user, uuid, ReplaceRow(newSize, Stamp(Application, s.now)), user, open);
  }

  /** A version restored onto a file older than the open period leaves the answer off by the change of what counted. */
  lemma RestoredVersionDrift(s: State, user: nat, uuid: nat, size: nat)
    requires Grounded(s, user) && OpenStart(s.usages, user).Some?
    requires IndexOf(s.files, user, uuid) < |s.files|
    ensures var file, open := s.files[IndexOf(s.files, user, uuid)], OpenStart(s.usages, user).value;
            var counted := if file.status == Deleted && file.updatedAt < open then 0 else file.size;
            Drift(Apply(s, RestoreVersion(user, uuid, size)), user) == Drift(s, user)
              - if file.createdAt < open then size - counted else 0
  {
    OpenPrecedesStamps(s, user);
    var open := OpenStart(s.usages, user).value;
    UpdatedUsageAt(s.files, user, uuid, RestoreVersionRow(size, Stamp(Application, s.now)), user, open);
  }

  /** Every step of the run leaves usage at `t` as it was. */
  ghost predicate KeepsHistory(s: State, user: nat, t: int, steps: seq<Step>)
    decreases |steps|
  {
    steps == [] || (KeepsUsageAt(s, user, t, steps[0]) && KeepsHistory(Apply(s, steps[0]), user, t, steps[1..]))
  }

  lemma {:induction false} UsageAtKept(s: State, user: nat, t: int, steps: seq<Step>)
    requires t <= Stamp(Application, s.now) && KeepsHistory(s, user, t, steps)
    ensures UsageAt(Run(s, steps).files, user, t) == UsageAt(s.files, user, t)
    decreases |steps|
  {
    if steps != [] {
      StepKeepsUsageAt(s, user, t, steps[0]);
      UsageAtKept(Apply(s, steps[0]), user, t, steps[1..]);
    }
  }

  /** UsageAt read from the stamps of a later table is what the user's live files summed to back then. */
  lemma UsageAtIsHistory(s: State, user: nat, t: int, steps: seq<Step>)
    requires forall r :: r in s.files ==> r.createdAt < t && (r.status == Deleted ==> r.updatedAt < t)
    requires t <= Stamp(Application, s.now) && KeepsHistory(s, user, t, steps)
    ensures UsageAt(Run(s, steps).files, user, t) == LiveUsage(s.files, user)
  {
    UsageAtKept(s, user, t, steps);
    SumAdds(s.files, UsageAtWeight(user, t), NoWeight(), LiveWeight(user));
    NoWeightSums(s.files);
  }

  /** A file deleted in a recorded period and again later, by its user or with its folder, makes the answer negative. */
  lemma DeletingTwiceCountsTwice()
    ensures var s := State([FileRow(7, 1, 0, DAY, 5, Deleted)], [Usage(1, Daily, 2, 0)], 3 * DAY);
            && Conserved(s, 1) && LiveUsage(s.files, 1) == 0
            && Reported(Apply(s, DeleteByUser(1, {7})), 1) == -5
            && Reported(Apply(s, FolderRemoved({7})), 1) == -5
  {
    var row, daily := FileRow(7, 1, 0, DAY, 5, Deleted), Usage(1, Daily, 2, 0);
    var s := State([row], [daily], 3 * DAY);
    OneDailyRow(daily);
    SumOne(row, UsageAtWeight(1, 3 * DAY));
    SumOne(row, LiveWeight(1));
    SumOne(row.(updatedAt := 3 * DAY), FromWeight(1, 3 * DAY));
    assert Apply(s, DeleteByUser(1, {7})).files == [row.(updatedAt := 3 * DAY)] == Apply(s, FolderRemoved({7})).files;
  }

  lemma OneDailyRow(daily: Usage)
    requires daily.kind == Daily
    ensures OpenStart([daily], daily.user) == Some(StartOfDay(daily.day + 1))
    ensures Aggregated([daily], daily.user) == daily.delta
  {
    assert LatestDaily([daily][1..], daily.user) == None;
    SumOne(daily, DeltaWeight(daily.user));
  }

  /** A file the database deleted in the last half of the last millisecond of day 2, and a ledger up to day 1. */
  function BeforeMidnight(size: nat): State {
    State([FileRow(7, 1, 0, StartOfDay(3) - 500, size, Deleted)], [Usage(1, Daily, 1, size)], StartOfDay(3))
  }

  lemma GapBeforeMidnight(size: nat)
    ensures GapDelta(BeforeMidnight(size).files, 1, 3) == 0 - size
    ensures LiveUsage(BeforeMidnight(size).files, 1) == 0
    ensures UsageAt(BeforeMidnight(size).files, 1, StartOfDay(2)) == size
  {
    var row := FileRow(7, 1, 0, StartOfDay(3) - 500, size, Deleted);
    SumOne(row, UsageAtWeight(1, StartOfDay(2)));
    SumOne(row, LiveWeight(1));
    SumOne(row, BetweenWeight(1, EndOfDay(2) + 1, StartOfDay(3) - 1));
  }

  /** Such a deletion counts until the day is closed, and then is lost: the answer is too high by the size for ever. */
  lemma DeletionBeforeMidnightIsLost(size: nat)
    ensures var s := BeforeMidnight(size);
            && Conserved(s, 1) && LiveUsage(s.files, 1) == 0 && Reported(s, 1) == 0
            && Reported(Apply(s, QueryUsage(1, false)), 1) == size
  {
    var s := BeforeMidnight(size);
    GapBeforeMidnight(size);
    OneDailyRow(s.usages[0]);
    assert OpenStart(s.usages, 1) == Some(StartOfDay(2)) && DayOf(s.now) == 3;
    ReportedIsLive(s, 1);
    QueryMovesAnswer(s, 1, 1, false);
  }

  // ----- The store ---------------------------------------------------------------------------

  /** From one state to the next, whose ledgers moved: exactly those of the users for whom the step is not safe. */
  ghost predicate DriftsUnlessSafe(s: State, s': State, step: Step) {
    forall v: nat :: Grounded(s, v) ==> Grounded(s', v) && (Drift(s', v) == Drift(s, v) <==> Safe(s, v, step))
  }

  ghost predicate LiveUsageMoves(s: State, s': State, step: Step) {
    forall v: nat :: LiveUsage(s'.files, v) == LiveUsage(s.files, v) + LiveChange(s, v, step)
  }

  lemma AppliedDrifts(s: State, step: Step)
    ensures Effect(s, step, Apply(s, step))
    ensures DriftsUnlessSafe(s, Apply(s, step), step) && LiveUsageMoves(s, Apply(s, step), step)
  {
    StepHasEffect(s, step);
    forall v: nat { StepMovesLiveUsage(s, v, step); }
    forall v: nat | Grounded(s, v)
      ensures Grounded(Apply(s, step), v) && (Drift(Apply(s, step), v) == Drift(s, v) <==> Safe(s, v, step))
    {
      StepKeepsDrift(s, v, step);
    }
  }

  lemma DailyDrifts(s: State, user: nat, day: int, delta: int, v: nat)
    ensures var s' := s.(usages := s.usages + [Usage(user, Daily, day, delta)]);
            && (v != user ==> Drift(s', v) == Drift(s, v))
            && (v == user && (OpenStart(s.usages, user).None? || OpenStart(s.usages, user).value <= StartOfDay(day)) ==>
                  Drift(s', v) == Aggregated(s.usages, v) + delta - UsageAt(s.files, v, StartOfDay(day + 1)))
  {
    LatestDailyAppend(s.usages, Usage(user, Daily, day, delta), v);
    AppendUsage(s.usages, Usage(user, Daily, day, delta), v);
  }

  /** The files and usages tables and the clock, changed in place by the repositories and use cases. */
  class UsageStore {
    var files: seq<FileRow>
    var usages: seq<Usage>
    var now: int

    ghost function View(): State
      reads this
    {
      State(files, usages, now)
    }

    constructor (files: seq<FileRow>, now: int)
      ensures View() == State(files, [], now)
      ensures forall v: nat :: Conserved(View(), v)
    {
      this.files := files;
      this.usages := [];
      this.now := now;
    }

    /** A row for a later day leaves the ledger off by what its delta misses of the usage when that day ends. */
    method CreateDailyUsage(user: nat, day: int, delta: int)
      modifies this`usages
      ensures usages == old(usages) + [Usage(user, Daily, day, delta)]
      ensures forall v: nat :: v != user ==> Drift(View(), v) == old(Drift(View(), v))
      ensures (OpenStart(old(usages), user).None? || OpenStart(old(usages), user).value <= StartOfDay(day)) ==>
                Drift(View(), user) == Aggregated(old(usages), user) + delta - UsageAt(files, user, StartOfDay(day + 1))
    {
      ghost var s := View();
      usages := usages + [Usage(user, Daily, day, delta)];
      assert View() == s.(usages := s.usages + [Usage(user, Daily, day, delta)]);
      forall v: nat ensures v != user ==> Drift(View(), v) == Drift(s, v) { DailyDrifts(s, user, day, delta, v); }
      DailyDrifts(s, user, day, delta, user);
    }

    /** Closing the open period moves its start to today, and the asker's answer by what the gap before today holds. */
    method BackfillUsageUntilYesterday(user: nat, startDate: int)
      modifies this`usages
      ensures usages == old(usages)
              + [Usage(user, Daily, DayOf(now) - 1, SumBetween(files, user, startDate, EndOfDay(DayOf(now) - 1)))]
      ensures OpenStart(old(usages), user) == Some(startDate) && DayOf(startDate) < DayOf(now) ==>
                && OpenStart(usages, user) == Some(StartOfDay(DayOf(now)))
                && forall v: nat :: Reported(View(), v)
                     == old(Reported(View(), v)) - if v == user then GapDelta(files, user, DayOf(now)) else 0
    {
      ghost var s, closes := View(), OpenStart(usages, user) == Some(startDate) && DayOf(startDate) < DayOf(now);
      if closes {
        forall v: nat ensures Reported(Apply(s, QueryUsage(user, false)), v)
                              == Reported(s, v) - if v == user then GapDelta(files, user, DayOf(now)) else 0
        {
          QueryMovesAnswer(s, v, user, false);
        }
      }
      var yesterday := DayOf(now) - 1;
      var gapDelta := SumBetween(files, user, startDate, EndOfDay(yesterday));
      LatestDailyAppend(usages, Usage(user, Daily, yesterday, gapDelta), user);
      CreateDailyUsage(user, yesterday, gapDelta);
      assert closes ==> View() == Apply(s, QueryUsage(user, false));
    }

    method GetUserUsedStorageIncrementally(user: nat, backfillFails: bool) returns (total: int)
      modifies this`usages
      ensures total == LiveUsage(files, user) + old(Drift(View(), user))
      ensures View() == Apply(old(View()), QueryUsage(user, backfillFails))
      ensures QueryEffect(old(View()), user, backfillFails, View())
      ensures old(Grounded(View(), user)) ==>
                forall v: nat :: Reported(View(), v) == old(Reported(View(), v))
                                 <==> old(Safe(View(), v, QueryUsage(user, backfillFails)))
    {
      ReportedIsLive(View(), user);
      QueryHasEffect(View(), user, backfillFails);
      ghost var s := View();
      if Grounded(s, user) {
        forall v: nat ensures Reported(Apply(s, QueryUsage(user, backfillFails)), v) == Reported(s, v)
                              <==> Safe(s, v, QueryUsage(user, backfillFails))
        {
          QueryMovesAnswer(s, v, user, backfillFails);
        }
      }
      var latest := LatestDaily(usages, user);
      if latest.None? {
        var today := StartOfDay(DayOf(now));
        var firstDelta := Sum(files, FirstWeight(user, today));
        CreateDailyUsage(user, DayOf(now) - 1, firstDelta);
        var deltaToday := SumFrom(files, user, today);
        return firstDelta + deltaToday;
      }
      var aggregated := Aggregated(usages, user);
      var nextStart := StartOfDay(latest.value + 1);
      var deltaSinceLast := SumFrom(files, user, nextStart);
      if DayOf(nextStart) != DayOf(now) {
        if !backfillFails {
          BackfillUsageUntilYesterday(user, nextStart);
        }
      }
      total := aggregated + deltaSinceLast;
    }

    method CreateFile(user: nat, uuid: nat, size: nat)
      modifies this`files
      ensures View() == Apply(old(View()), Create(user, uuid, size))
      ensures Effect(old(View()), Create(user, uuid, size), View())
      ensures LiveUsageMoves(old(View()), View(), Create(user, uuid, size))
      ensures DriftsUnlessSafe(old(View()), View(), Create(user, uuid, size))
    {
      AppliedDrifts(View(), Create(user, uuid, size));
      var date := Stamp(Application, now);
      files := files + [FileRow(uuid, user, date, date, size, Exists)];
    }

    method UpdateFilesStatusToTrashedByUuid(user: nat, uuids: set<nat>)
      modifies this`files
      ensures View() == Apply(old(View()), Trash(user, uuids))
      ensures Effect(old(View()), Trash(user, uuids), View())
      ensures LiveUsageMoves(old(View()), View(), Trash(user, uuids))
      ensures DriftsUnlessSafe(old(View()), View(), Trash(user, uuids))
    {
      AppliedDrifts(View(), Trash(user, uuids));
      files := MapRows(files, TrashRow(user, uuids, Stamp(Application, now)));
    }

    /** The write of moveFile, which brings a trashed file back. */
    method MoveFile(user: nat, uuid: nat)
      modifies this`files
      ensures View() == Apply(old(View()), Restore(user, uuid))
      ensures Effect(old(View()), Restore(user, uuid), View())
      ensures LiveUsageMoves(old(View()), View(), Restore(user, uuid))
      ensures DriftsUnlessSafe(old(View()), View(), Restore(user, uuid))
    {
      AppliedDrifts(View(), Restore(user, uuid));
      files := MapRows(files, RestoreRow(user, uuid, Stamp(Application, now)));
    }

    method DeleteFilesByUser(user: nat, uuids: set<nat>)
      modifies this`files
      ensures View() == Apply(old(View()), DeleteByUser(user, uuids))
      ensures Effect(old(View()), DeleteByUser(user, uuids), View())
      ensures LiveUsageMoves(old(View()), View(), DeleteByUser(user, uuids))
      ensures DriftsUnlessSafe(old(View()), View(), DeleteByUser(user, uuids))
    {
      AppliedDrifts(View(), DeleteByUser(user, uuids));
      files := MapRows(files, DeleteByUserRow(user, uuids, Stamp(Application, now)));
    }

    /** The filtered deletes; a batch of trashed rows is stamped by the database. */
    method DeleteLiveFiles(uuids: set<nat>, clock: Clock)
      modifies this`files
      ensures View() == Apply(old(View()), DeleteLive(uuids, clock))
      ensures Effect(old(View()), DeleteLive(uuids, clock), View())
      ensures LiveUsageMoves(old(View()), View(), DeleteLive(uuids, clock))
      ensures DriftsUnlessSafe(old(View()), View(), DeleteLive(uuids, clock))
      ensures forall v: nat :: old(Grounded(View(), v)) ==> Drift(View(), v) == old(Drift(View(), v))
    {
      AppliedDrifts(View(), DeleteLive(uuids, clock));
      files := MapRows(files, DeleteLiveRow(uuids, Stamp(clock, now)));
    }

    /** The folder trigger's update of the files in the folder, which are those named. */
    method MarkFilesOfRemovedFolder(uuids: set<nat>)
      modifies this`files
      ensures View() == Apply(old(View()), FolderRemoved(uuids))
      ensures Effect(old(View()), FolderRemoved(uuids), View())
      ensures LiveUsageMoves(old(View()), View(), FolderRemoved(uuids))
      ensures DriftsUnlessSafe(old(View()), View(), FolderRemoved(uuids))
    {
      AppliedDrifts(View(), FolderRemoved(uuids));
      files := MapRows(files, FolderRemovedRow(uuids, Stamp(Database, now)));
    }

    method DestroyDeletedFilesByUuids(uuids: set<nat>)
      modifies this`files
      ensures View() == Apply(old(View()), Purge(uuids))
      ensures Effect(old(View()), Purge(uuids), View())
      ensures LiveUsageMoves(old(View()), View(), Purge(uuids))
      ensures DriftsUnlessSafe(old(View()), View(), Purge(uuids))
    {
      AppliedDrifts(View(), Purge(uuids));
      files := Filter(files, NotPurged(uuids));
    }

    method ReplaceFile(user: nat, uuid: nat, newSize: nat, recorded: bool)
      modifies this`files, this`usages
      ensures View() == Apply(old(View()), Replace(user, uuid, newSize, recorded))
      ensures Effect(old(View()), Replace(user, uuid, newSize, recorded), View())
      ensures LiveUsageMoves(old(View()), View(), Replace(user, uuid, newSize, recorded))
      ensures DriftsUnlessSafe(old(View()), View(), Replace(user, uuid, newSize, recorded))
    {
      ghost var s' := Apply(View(), Replace(user, uuid, newSize, recorded));
      AppliedDrifts(View(), Replace(user, uuid, newSize, recorded));
      var i := IndexOf(files, user, uuid);
      if i == |files| || files[i].status != Exists {
        return;
      }
      var before := files[i];
      files := files[i := before.(size := newSize, updatedAt := Stamp(Application, now))];
      var latest := LatestDaily(usages, user);
      if latest.Some? && newSize != before.size && recorded {
        if DayOf(before.createdAt) <= latest.value {
          usages := usages + [Usage(user, Replacement, DayOf(now), newSize - before.size)];
        }
      }
      assert View() == s';
    }

    method RestoreFileVersion(user: nat, uuid: nat, size: nat) returns (found: bool)
      modifies this`files
      ensures found <==> exists r :: r in old(files) && r.user == user && r.uuid == uuid
      ensures View() == Apply(old(View()), RestoreVersion(user, uuid, size))
      ensures Effect(old(View()), RestoreVersion(user, uuid, size), View())
      ensures LiveUsageMoves(old(View()), View(), RestoreVersion(user, uuid, size))
      ensures DriftsUnlessSafe(old(View()), View(), RestoreVersion(user, uuid, size))
    {
      AppliedDrifts(View(), RestoreVersion(user, uuid, size));
      var i := IndexOf(files, user, uuid);
      if i == |files| {
        return false;
      }
      files := files[i := files[i].(size := size, updatedAt := Stamp(Application, now))];
      found := true;
    }
  }
}
