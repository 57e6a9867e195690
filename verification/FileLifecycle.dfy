/**
 * The life of a file row, from creation to physical removal, with the outbox a trigger fills so that
 * the network object of every deleted file is removed too.
 */
module FileLifecycle {
  import opened FileDomain

  datatype Row = Row(user: nat, folder: nat, plainName: string, fileType: Option<string>, size: nat,
                     fileId: Option<string>, status: FileStatus, removed: bool)

  type Files = map<nat, Row>

  /** The outbox: a row per deleted file, keyed by its uuid, holding the network id to remove. */
  type Outbox = map<nat, string>

  datatype State = State(files: Files, outbox: Outbox)

  // ----- Strings -----------------------------------------------------------------------------

  /** The characters String.prototype.trim removes. */
  predicate IsSpace(c: char) {
    c in {'\t', '\n', '\U{000B}', '\U{000C}', '\r', ' ', '\U{00A0}', '\U{1680}', '\U{2028}', '\U{2029}', '\U{202F}',
          '\U{205F}', '\U{3000}', '\U{FEFF}'} || '\U{2000}' <= c <= '\U{200A}'
  }

  /** They are 25 code points. */
  lemma SpacesAreTrimmed(c: char)
    ensures IsSpace(c) <==>
            var n := c as int;
            || 9 <= n <= 13 || n == 32 || n == 160 || n == 5760 || 8192 <= n <= 8202
            || n == 8232 || n == 8233 || n == 8239 || n == 8287 || n == 12288 || n == 65279
  {}

  predicate Blank(s: string) { forall i :: 0 <= i < |s| ==> IsSpace(s[i]) }

  /** isStringEmpty: missing or blank. */
  predicate IsStringEmpty(s: Option<string>) { s.None? || Blank(s.value) }

  function SetPlainName(name: string): string { if Blank(name) then "" else name }
  function SetType(fileType: Option<string>): Option<string> { if IsStringEmpty(fileType) then None else fileType }

  predicate IsFilenameValid(r: Row) { !(Blank(r.plainName) && IsStringEmpty(r.fileType)) }

  predicate IsDeleted(r: Row) { r.status == Deleted || r.removed }

  // ----- Name collisions ---------------------------------------------------------------------

  /** A null type and an empty one name the same kind of file. */
  function NormalType(fileType: Option<string>): string {
    match fileType case Some(t) => t case None => ""
  }

  predicate SameName(a: Row, b: Row) {
    && a.status == Exists && b.status == Exists && a.user == b.user && a.folder == b.folder
    && a.plainName == b.plainName && NormalType(a.fileType) == NormalType(b.fileType)
  }

  /** The type condition of findByPlainNameAndFolderId. */
  predicate TypeMatches(stored: Option<string>, asked: Option<string>) {
    if IsStringEmpty(asked) then stored == None || stored == Some("") else stored == asked
  }

  predicate Found(files: Files, r: Row) {
    exists v :: v in files && files[v].status == Exists && files[v].user == r.user && files[v].folder == r.folder
                && files[v].plainName == r.plainName && TypeMatches(files[v].fileType, r.fileType)
  }

  /** The unique index over (plain_name, type, folder_id) of existing files; a null type never collides. */
  predicate IndexRefuses(files: Files, u: nat, r: Row) {
    r.status == Exists && r.fileType.Some?
    && exists v :: v in files && v != u && files[v].status == Exists && files[v].folder == r.folder
                   && files[v].plainName == r.plainName && files[v].fileType == r.fileType
  }

  // ----- The trigger and the bulk updates ----------------------------------------------------

  /** The condition under which file_deleted_trigger inserts for a row. */
  predicate Fires(outbox: Outbox, u: nat, before: Row, after: Row) {
    before.status != Deleted && after.status == Deleted && before.fileId.Some? && u !in outbox
  }

  datatype Bulk =
    | Trash(user: nat, uuids: set<nat>)
    | DeleteByUser(user: nat, uuids: set<nat>)
    | DeleteTrashedBatch(user: nat, chosen: set<nat>)
    | RemoveInFolders(folders: set<nat>)
    | DeleteByUuid(uuids: set<nat>)
    | ExpireTrash(chosen: set<nat>)
    | FolderRemoved(folder: nat)

  /**
   * The WHERE of each statement; `chosen` is what its LIMIT let through. The last is mark_deleted_files_v3's on
   * the files of a folder being removed.
   */
  predicate Selects(b: Bulk, u: nat, r: Row) {
    match b
    case Trash(user, uuids) => r.user == user && u in uuids && r.status == Exists
    case DeleteByUser(user, uuids) => r.user == user && u in uuids
    case DeleteTrashedBatch(user, chosen) => r.user == user && r.status == Trashed && u in chosen
    case RemoveInFolders(folders) => r.folder in folders && r.status != Deleted
    case DeleteByUuid(uuids) => u in uuids && r.status != Deleted
    case ExpireTrash(chosen) => r.status == Trashed && u in chosen
    case FolderRemoved(folder) => r.folder == folder
  }

  /** The SET of each statement. deleteUserTrashedFilesBatch leaves `removed` alone. */
  function Rewrite(b: Bulk, r: Row): Row {
    match b
    case Trash(_, _) => r.(status := Trashed)
    case DeleteTrashedBatch(_, _) => r.(status := Deleted)
    case RemoveInFolders(_) => r.(status := Deleted, removed := true, fileId := if r.size == 0 then None else r.fileId)
    case _ => r.(status := Deleted, removed := true)
  }

  function Selected(files: Files, b: Bulk): set<nat> {
    set u | u in files && Selects(b, u, files[u])
  }

  function BulkFiles(files: Files, b: Bulk): Files {
    map u | u in files :: if Selects(b, u, files[u]) then Rewrite(b, files[u]) else files[u]
  }

  /** The outbox after one statement: the trigger fires once for each of its rows. */
  function BulkOutbox(s: State, b: Bulk): Outbox {
    OutboxAfter(s, b, Selected(s.files, b))
  }

  /** What the trigger would queue if the statement reached every row. */
  function Queue(s: State, b: Bulk): Outbox {
    map u | u in s.files && Fires(s.outbox, u, s.files[u], Rewrite(b, s.files[u])) :: s.files[u].fileId.value
  }

  function Restricted(q: Outbox, rows: set<nat>): Outbox {
    map u | u in q && u in rows :: q[u]
  }

  function OutboxAfter(s: State, b: Bulk, rows: set<nat>): Outbox {
    s.outbox + Restricted(Queue(s, b), rows)
  }

  function Bulked(s: State, b: Bulk): State {
    State(BulkFiles(s.files, b), BulkOutbox(s, b))
  }

  // ----- The use cases -----------------------------------------------------------------------

  datatype Answer = Done | NotFound | Forbidden | BadRequest | Conflict | Unprocessable | LimitReached | UniqueViolation

  /** A row of the folders table, as the lookup by uuid finds it. */
  datatype Folder = Folder(id: nat, owner: nat, removed: bool)

  /** A row of the file_versions table, as the lookup by id finds it. */
  datatype Version = Version(file: nat, size: nat, networkFileId: Option<string>, live: bool)

  /** What a request carries. `allowed` stands for the user's limits on empty and large files. */
  datatype Step =
    | CreateFile(uuid: nat, user: nat, folder: Option<Folder>, plainName: string, fileType: Option<string>, size: nat,
                 fileId: Option<string>, allowed: bool)
    | UpdateFileMetaData(uuid: nat, user: nat, newName: Option<string>, newType: Option<string>)
    | MoveFile(uuid: nat, user: nat, folder: Option<Folder>, newName: Option<string>, newType: Option<string>)
    | ReplaceFile(uuid: nat, user: nat, size: nat, fileId: Option<string>, allowed: bool)
    | RestoreVersion(uuid: nat, user: nat, version: Option<Version>)
    | DeleteFilePermanently(uuid: nat, user: nat)
    | BulkUpdate(b: Bulk)
    | DestroyDeleted(uuids: set<nat>)

  /** The validator on file id and size: an id, of at most 24 characters, exactly when there is content. */
  predicate ValidFileId(size: nat, fileId: Option<string>) {
    if size == 0 then fileId.None? || fileId.value == ""
    else fileId.Some? && 0 < |fileId.value| <= 24
  }

  predicate Owned(files: Files, user: nat, u: nat) {
    u in files && files[u].user == user
  }

  /** findByUuid or findOneBy under each use case's own conditions, then its checks, in order. */
  function AnswerTo(s: State, step: Step): Answer {
    match step
    case CreateFile(u, user, folder, name, fileType, size, fileId, allowed) =>
      if !ValidFileId(size, fileId) then BadRequest
      else if folder.None? then NotFound
      else if folder.value.owner != user then Forbidden
      else if Found(s.files, NewRow(step)) then Conflict
      else if !allowed then LimitReached
      else if u in s.files || IndexRefuses(s.files, u, NewRow(step)) then UniqueViolation
      else Done
    case UpdateFileMetaData(u, user, name, fileType) =>
      if IsStringEmpty(name) && IsStringEmpty(fileType) then BadRequest
      else if !Owned(s.files, user, u) || s.files[u].status != Exists then NotFound
      else if Found(s.files, Renamed(s.files[u], name, fileType)) then Conflict
      else if IndexRefuses(s.files, u, Renamed(s.files[u], name, fileType)) then UniqueViolation
      else Done
    case MoveFile(u, user, folder, name, fileType) =>
      if !Owned(s.files, user, u) || IsDeleted(s.files[u]) then Unprocessable
      else if folder.None? then NotFound
      else if folder.value.owner != user then Forbidden
      else if folder.value.removed then Unprocessable
      else
        var r := Moved(s.files[u], folder.value.id, name, fileType);
        if !IsFilenameValid(r) then BadRequest
        else if Found(s.files, r) then Conflict
        else if IndexRefuses(s.files, u, r) then UniqueViolation
        else Done
    case ReplaceFile(u, user, size, fileId, allowed) =>
      if !ValidFileId(size, fileId) then BadRequest
      else if !Owned(s.files, user, u) then NotFound
      else if s.files[u].status != Exists then BadRequest
      else if !allowed then LimitReached
      else Done
    case RestoreVersion(u, user, version) =>
      if !Owned(s.files, user, u) || version.None? then NotFound
      else if version.value.file != u then Conflict
      else if !version.value.live then BadRequest
      else Done
    case DeleteFilePermanently(u, user) =>
      if u !in s.files || s.files[u].removed then NotFound
      else if s.files[u].user != user then Forbidden
      else Done
    case BulkUpdate(_) => Done
    case DestroyDeleted(_) => Done
  }

  function NewRow(step: Step): Row
    requires step.CreateFile? && step.folder.Some?
  {
    Row(step.user, step.folder.value.id, step.plainName, step.fileType, step.size,
        if step.size == 0 then None else step.fileId, Exists, false)
  }

  /** File.build over the request: name and type are normalised as they are set. */
  function Renamed(r: Row, name: Option<string>, fileType: Option<string>): Row {
    r.(plainName := SetPlainName(if name.Some? then name.value else r.plainName),
       fileType := SetType(if fileType.Some? then fileType else r.fileType))
  }

  function Moved(r: Row, folder: nat, name: Option<string>, fileType: Option<string>): Row {
    Renamed(r, name, fileType).(folder := folder, status := Exists)
  }

  /** restoreFileVersion's write to the file row: it does not look at the file's status. */
  function RestoredRow(r: Row, v: Version): Row {
    r.(size := v.size, fileId := v.networkFileId)
  }

  function Apply(s: State, step: Step): State {
    if AnswerTo(s, step) != Done then s
    else
      match step
      case CreateFile(u, _, _, _, _, _, _, _) => s.(files := s.files[u := NewRow(step)])
      case UpdateFileMetaData(u, _, name, fileType) => s.(files := s.files[u := Renamed(s.files[u], name, fileType)])
      case MoveFile(u, _, folder, name, fileType) =>
        s.(files := s.files[u := Moved(s.files[u], folder.value.id, name, fileType)])
      case ReplaceFile(u, _, size, fileId, _) =>
        s.(files := s.files[u := s.files[u].(size := size, fileId := if size == 0 then None else fileId)])
      case RestoreVersion(u, _, version) => s.(files := s.files[u := RestoredRow(s.files[u], version.value)])
      case DeleteFilePermanently(u, user) => Bulked(s, DeleteByUser(user, {u}))
      case BulkUpdate(b) => Bulked(s, b)
      case DestroyDeleted(uuids) =>
        s.(files := map u | u in s.files && !(u in uuids && s.files[u].status == Deleted) :: s.files[u])
  }

  // ----- The invariant -----------------------------------------------------------------------

  ghost predicate RowsSound(files: Files) {
    forall u :: u in files ==>
      && (files[u].removed ==> files[u].status == Deleted)
      && (files[u].size == 0 <==> files[u].fileId.None?)
  }

  /** No two existing files of a user share folder, name and type. */
  ghost predicate NamesUnique(files: Files) {
    forall u, v :: u in files && v in files && u != v ==> !SameName(files[u], files[v])
  }

  /** A file has an outbox entry exactly when it is DELETED with content, and the entry carries its network id. */
  ghost predicate OutboxExact(s: State) {
    forall u :: u in s.files ==>
      && (u in s.outbox <==> s.files[u].status == Deleted && s.files[u].fileId.Some?)
      && (u in s.outbox ==> s.files[u].fileId == Some(s.outbox[u]))
  }

  ghost predicate Inv(s: State) {
    RowsSound(s.files) && NamesUnique(s.files) && OutboxExact(s)
  }

  /** What restoring a version onto a file must find: an id exactly when it has content, and a DELETED file's own. */
  ghost predicate Restorable(s: State, u: nat, v: Version) {
    && (v.size == 0 <==> v.networkFileId.None?)
    && (u in s.files && s.files[u].status == Deleted ==> s.files[u].fileId == v.networkFileId)
  }

  /**
   * The steps that keep the invariant: a new file's uuid is fresh, as no earlier file, destroyed or not, has had
   * it, and a version is restored where it may be. Nothing is asked of the others.
   */
  ghost predicate Lawful(s: State, step: Step) {
    && (step.CreateFile? ==> step.uuid !in s.outbox)
    && (step.RestoreVersion? && AnswerTo(s, step) == Done ==> Restorable(s, step.uuid, step.version.value))
  }

  predicate BlankNotEmpty(fileType: Option<string>) {
    fileType.Some? && fileType.value != "" && Blank(fileType.value)
  }

  /**
   * The application's check finds every collision, save one kind: a type of only blanks is looked up as
   * no type but stored as it came, so a second file with that very type passes.
   */
  lemma CheckMissesIff(files: Files, r: Row)
    requires r.status == Exists
    ensures (exists v :: v in files && SameName(files[v], r)) && !Found(files, r)
            <==> BlankNotEmpty(r.fileType) && !Found(files, r)
                 && exists v :: v in files && SameName(files[v], r) && files[v].fileType == r.fileType
    ensures !BlankNotEmpty(r.fileType) ==> (Found(files, r) <==> exists v :: v in files && SameName(files[v], r))
  {
    if exists v :: v in files && SameName(files[v], r) {
      var v :| v in files && SameName(files[v], r);
      if !BlankNotEmpty(r.fileType) { assert TypeMatches(files[v].fileType, r.fileType); }
    }
    if !BlankNotEmpty(r.fileType) && Found(files, r) {
      var v :| v in files && files[v].status == Exists && files[v].user == r.user && files[v].folder == r.folder
               && files[v].plainName == r.plainName && TypeMatches(files[v].fileType, r.fileType);
      assert SameName(files[v], r);
    }
  }

  /** The application's check and the unique index together refuse every row that would collide. */
  lemma CollisionIsRefused(files: Files, u: nat, r: Row)
    requires r.status == Exists && !Found(files, r) && !IndexRefuses(files, u, r)
    ensures forall v :: v in files && v != u ==> !SameName(files[v], r)
  {
    CheckMissesIff(files, r);
  }

  lemma PutKeepsNames(files: Files, u: nat, r: Row)
    requires NamesUnique(files) && (r.status == Exists ==> !Found(files, r) && !IndexRefuses(files, u, r))
    ensures NamesUnique(files[u := r])
  {
    if r.status == Exists { CollisionIsRefused(files, u, r); }
    var after := files[u := r];
    forall a, b | a in after && b in after && a != b ensures !SameName(after[a], after[b]) {
      if b == u { assert a in files; } else if a == u { assert !SameName(files[b], r); }
    }
  }

  lemma BulkKeepsNames(files: Files, b: Bulk)
    requires NamesUnique(files)
    ensures NamesUnique(BulkFiles(files, b))
  {
    var after := BulkFiles(files, b);
    forall u, v | u in after && v in after && u != v ensures !SameName(after[u], after[v]) {
      assert !SameName(files[u], files[v]);
    }
  }

  /** What a statement does to one row and to its place in the outbox. */
  lemma BulkKeepsRow(s: State, b: Bulk, u: nat)
    requires RowsSound(s.files) && OutboxExact(s) && u in s.files
    ensures var r, outbox := BulkFiles(s.files, b)[u], BulkOutbox(s, b);
            && (r.removed ==> r.status == Deleted) && (r.size == 0 <==> r.fileId.None?)
            && (u in outbox <==> r.status == Deleted && r.fileId.Some?)
            && (u in outbox ==> r.fileId == Some(outbox[u]))
  {
    assert u in BulkOutbox(s, b) <==> u in s.outbox || (u in Selected(s.files, b) && u in Queue(s, b));
  }

  lemma BulkKeepsInv(s: State, b: Bulk)
    requires Inv(s)
    ensures Inv(Bulked(s, b))
  {
    BulkKeepsNames(s.files, b);
    forall u | u in s.files { BulkKeepsRow(s, b, u); }
  }

  lemma StepKeepsNames(s: State, step: Step)
    requires NamesUnique(s.files)
    ensures NamesUnique(Apply(s, step).files)
  {
    if AnswerTo(s, step) == Done {
      match step
      case CreateFile(u, _, _, _, _, _, _, _) => PutKeepsNames(s.files, u, NewRow(step));
      case UpdateFileMetaData(u, _, name, fileType) => PutKeepsNames(s.files, u, Renamed(s.files[u], name, fileType));
      case MoveFile(u, _, folder, name, fileType) =>
        PutKeepsNames(s.files, u, Moved(s.files[u], folder.value.id, name, fileType));
      case ReplaceFile(u, _, size, fileId, _) => ResizeKeepsNames(s.files, u, size, if size == 0 then None else fileId);
      case RestoreVersion(u, _, v) => ResizeKeepsNames(s.files, u, v.value.size, v.value.networkFileId);
      case DeleteFilePermanently(u, user) => BulkKeepsNames(s.files, DeleteByUser(user, {u}));
      case BulkUpdate(b) => BulkKeepsNames(s.files, b);
      case DestroyDeleted(_) =>
    }
  }

  lemma StepKeepsInv(s: State, step: Step)
    requires Inv(s) && Lawful(s, step)
    ensures Inv(Apply(s, step))
  {
    StepKeepsNames(s, step);
    match step
    case DeleteFilePermanently(u, user) => BulkKeepsInv(s, DeleteByUser(user, {u}));
    case BulkUpdate(b) => BulkKeepsInv(s, b);
    case _ =>
  }

  lemma ResizeKeepsNames(files: Files, u: nat, size: nat, fileId: Option<string>)
    requires u in files && NamesUnique(files)
    ensures NamesUnique(files[u := files[u].(size := size, fileId := fileId)])
  {
    var after := files[u := files[u].(size := size, fileId := fileId)];
    forall a, b | a in after && b in after && a != b ensures !SameName(after[a], after[b]) {
      assert !SameName(files[a], files[b]);
    }
  }

  /** A DELETED file stays DELETED for as long as its row exists, and under lawful steps with the same network id. */
  lemma DeletedIsNeverLeft(s: State, step: Step, u: nat)
    requires Inv(s) && u in s.files && s.files[u].status == Deleted && u in Apply(s, step).files
    ensures Apply(s, step).files[u].status == Deleted
    ensures Lawful(s, step) ==> Apply(s, step).files[u].fileId == s.files[u].fileId
  {
    match step
    case DeleteFilePermanently(v, user) => BulkKeepsDeleted(s, DeleteByUser(user, {v}), u);
    case BulkUpdate(b) => BulkKeepsDeleted(s, b, u);
    case _ =>
  }

  lemma BulkKeepsDeleted(s: State, b: Bulk, u: nat)
    requires u in s.files && s.files[u].status == Deleted
    ensures Bulked(s, b).files[u].status == Deleted && Bulked(s, b).files[u].fileId == s.files[u].fileId
  {}

  /** An accepted move or renaming leaves the file existing, under a name a second request would find taken. */
  lemma RepeatIsRefused(s: State, step: Step)
    requires (step.MoveFile? || step.UpdateFileMetaData?) && AnswerTo(s, step) == Done
    ensures var s' := Apply(s, step);
            && s'.files[step.uuid].status == Exists
            && (step.newName.Some? && !Blank(step.newName.value) ==>
                  s'.files[step.uuid].plainName == step.newName.value)
            && (step.newType.Some? && !Blank(step.newType.value) ==> s'.files[step.uuid].fileType == step.newType)
            && (step.MoveFile? ==> s'.files[step.uuid].folder == step.folder.value.id)
            && s'.files - {step.uuid} == s.files - {step.uuid} && s'.outbox == s.outbox
            && AnswerTo(s', step) == Conflict
  {
    var s' := Apply(s, step);
    var again := if step.MoveFile? then Moved(s'.files[step.uuid], step.folder.value.id, step.newName, step.newType)
                 else Renamed(s'.files[step.uuid], step.newName, step.newType);
    assert again == s'.files[step.uuid];
    assert TypeMatches(again.fileType, again.fileType);
    assert Found(s'.files, again);
  }

  function CreateAs(step: Step, uuid: nat): Step
    requires step.CreateFile?
  {
    CreateFile(uuid, step.user, step.folder, step.plainName, step.fileType, step.size, step.fileId, step.allowed)
  }

  /** A second file of the same name is refused by the check, or, its type being blanks, by the index. */
  lemma SecondCreateIsRefused(s: State, step: Step, uuid: nat)
    requires step.CreateFile? && AnswerTo(s, step) == Done && uuid != step.uuid
    ensures AnswerTo(Apply(s, step), CreateAs(step, uuid))
            == if BlankNotEmpty(step.fileType) then UniqueViolation else Conflict
  {
    var files := Apply(s, step).files;
    assert NewRow(CreateAs(step, uuid)) == files[step.uuid];
    if BlankNotEmpty(step.fileType) {
      forall v | v in files && v != step.uuid ensures files[v] == s.files[v] {}
      assert IndexRefuses(files, uuid, files[step.uuid]);
    } else {
      assert TypeMatches(step.fileType, step.fileType);
      assert Found(files, files[step.uuid]);
    }
  }

  /**
   * A DELETED file is refused every change by its owner. It can be deleted once more exactly when
   * `removed` is unset, as emptying the trash in batches leaves it.
   */
  lemma DeletedIsRefused(s: State, step: Step, u: nat)
    requires u in s.files && s.files[u].status == Deleted
    requires step.UpdateFileMetaData? || step.MoveFile? || step.ReplaceFile? || step.DeleteFilePermanently?
    requires step.uuid == u && step.user == s.files[u].user
    ensures step.DeleteFilePermanently? ==> (AnswerTo(s, step) == Done <==> !s.files[u].removed)
    ensures !step.DeleteFilePermanently? ==>
              AnswerTo(s, step) in {NotFound, BadRequest, Unprocessable} && Apply(s, step) == s
  {}

  /** From s to s', a row the step keeps is queued exactly when it turns DELETED with content. */
  ghost predicate QueuesRow(s: State, s': State, u: nat) {
    && (u in s.outbox ==> u in s'.outbox && s'.outbox[u] == s.outbox[u])
    && (u in s'.outbox && u !in s.outbox <==>
          && u in s.files && u in s'.files && s.files[u].fileId.Some?
          && s.files[u].status != Deleted && s'.files[u].status == Deleted)
    && (u in s'.outbox && u !in s.outbox ==> s.files[u].fileId == Some(s'.outbox[u]))
  }

  lemma BulkQueuesRow(s: State, b: Bulk, u: nat)
    requires OutboxExact(s)
    ensures QueuesRow(s, Bulked(s, b), u)
  {
    assert u in BulkOutbox(s, b) <==> u in s.outbox || (u in Selected(s.files, b) && u in Queue(s, b));
  }

  /** One step queues exactly the files with content it turns DELETED, under their ids, and rewrites no entry. */
  lemma StepQueuesExactly(s: State, step: Step)
    requires Inv(s)
    ensures forall u :: QueuesRow(s, Apply(s, step), u)
  {
    forall u ensures QueuesRow(s, Apply(s, step), u) {
      match step
      case DeleteFilePermanently(v, user) => BulkQueuesRow(s, DeleteByUser(user, {v}), u);
      case BulkUpdate(b) => BulkQueuesRow(s, b, u);
      case _ =>
    }
  }

  // ----- Whole runs --------------------------------------------------------------------------

  function Run(s: State, steps: seq<Step>): State
    decreases |steps|
  {
    if steps == [] then s else Run(Apply(s, steps[0]), steps[1..])
  }

  ghost predicate LawfulRun(s: State, steps: seq<Step>)
    decreases |steps|
  {
    steps == [] || (Lawful(s, steps[0]) && LawfulRun(Apply(s, steps[0]), steps[1..]))
  }

  /** In every state of every run the rows are sound, names are unique and the outbox is exact. */
  lemma {:induction false} RunKeepsInv(s: State, steps: seq<Step>)
    requires Inv(s) && LawfulRun(s, steps)
    ensures Inv(Run(s, steps))
    ensures forall u :: u in s.outbox ==> u in Run(s, steps).outbox && Run(s, steps).outbox[u] == s.outbox[u]
    decreases |steps|
  {
    if steps != [] {
      StepKeepsInv(s, steps[0]);
      StepQueuesExactly(s, steps[0]);
      assert forall u :: u in s.outbox ==> QueuesRow(s, Apply(s, steps[0]), u);
      RunKeepsInv(Apply(s, steps[0]), steps[1..]);
    }
  }

  /** The states a run goes through. */
  function Trace(s: State, steps: seq<Step>): seq<State>
    decreases |steps|
  {
    [s] + if steps == [] then [] else Trace(Apply(s, steps[0]), steps[1..])
  }

  /** What a trace keeps about one file: each state is sound, and each step queues the file or leaves it. */
  ghost predicate QueuesAlong(states: seq<State>, u: nat) {
    && (forall k :: 0 <= k < |states| ==> OutboxExact(states[k]))
    && (forall k :: 0 < k < |states| ==> QueuesRow(states[k - 1], states[k], u))
  }

  lemma {:induction false} TraceQueues(s: State, steps: seq<Step>, u: nat)
    requires Inv(s) && LawfulRun(s, steps)
    ensures var states := Trace(s, steps);
            |states| == |steps| + 1 && states[0] == s && states[|steps|] == Run(s, steps) && QueuesAlong(states, u)
    decreases |steps|
  {
    if steps != [] {
      var s', rest := Apply(s, steps[0]), steps[1..];
      StepKeepsInv(s, steps[0]);
      StepQueuesExactly(s, steps[0]);
      TraceQueues(s', rest, u);
      assert QueuesRow(s, s', u);
    }
  }

  /** The k-th step of a trace turns the file DELETED while it carries the network id `id`. */
  ghost predicate TurnsAt(states: seq<State>, k: nat, u: nat, id: string) {
    && 0 < k < |states|
    && u in states[k - 1].files && states[k - 1].files[u].status != Deleted && states[k - 1].files[u].fileId == Some(id)
    && u in states[k].files && states[k].files[u].status == Deleted
  }

  lemma {:induction false} QueuedStays(states: seq<State>, u: nat, j: nat, k: nat)
    requires QueuesAlong(states, u) && j <= k < |states| && u in states[j].outbox
    ensures u in states[k].outbox && states[k].outbox[u] == states[j].outbox[u]
    decreases k
  {
    if j < k {
      QueuedStays(states, u, j, k - 1);
      assert QueuesRow(states[k - 1], states[k], u);
    }
  }

  /** Turning DELETED queues the file, which was not queued until then. */
  lemma TurnQueues(states: seq<State>, u: nat, k: nat, id: string)
    requires QueuesAlong(states, u) && TurnsAt(states, k, u, id)
    ensures u !in states[k - 1].outbox && u in states[k].outbox && states[k].outbox[u] == id
  {
    assert QueuesRow(states[k - 1], states[k], u);
  }

  lemma {:induction false} QueuedTurned(states: seq<State>, u: nat, k: nat) returns (turn: nat)
    requires QueuesAlong(states, u) && k < |states| && u !in states[0].outbox && u in states[k].outbox
    ensures TurnsAt(states, turn, u, states[k].outbox[u])
    decreases k
  {
    assert QueuesRow(states[k - 1], states[k], u);
    if u in states[k - 1].outbox { turn := QueuedTurned(states, u, k - 1); } else { turn := k; }
  }

  /** Over a whole run a file is queued under an id exactly when a step turned it DELETED carrying that id. */
  lemma RunQueuesExactly(s: State, steps: seq<Step>, u: nat, id: string)
    requires Inv(s) && LawfulRun(s, steps) && u !in s.outbox
    ensures u in Run(s, steps).outbox && Run(s, steps).outbox[u] == id
            <==> exists k: nat :: TurnsAt(Trace(s, steps), k, u, id)
  {
    TraceQueues(s, steps, u);
    var states := Trace(s, steps);
    if u in Run(s, steps).outbox {
      var k := QueuedTurned(states, u, |steps|);
    }
    forall k: nat | TurnsAt(states, k, u, id)
      ensures u in Run(s, steps).outbox && Run(s, steps).outbox[u] == id
    {
      TurnQueues(states, u, k, id);
      QueuedStays(states, u, k, |steps|);
    }
  }

  lemma TurnsOnceAlong(states: seq<State>, u: nat, j: nat, id: string, k: nat, other: string)
    requires QueuesAlong(states, u) && TurnsAt(states, j, u, id) && TurnsAt(states, k, u, other)
    ensures j >= k && (j == k ==> id == other)
  {
    TurnQueues(states, u, j, id);
    TurnQueues(states, u, k, other);
    if j < k { QueuedStays(states, u, j, k - 1); }
  }

  /** No file is turned DELETED, and so queued, twice. */
  lemma TurnsOnce(s: State, steps: seq<Step>, u: nat, j: nat, id: string, k: nat, other: string)
    requires Inv(s) && LawfulRun(s, steps)
    requires TurnsAt(Trace(s, steps), j, u, id) && TurnsAt(Trace(s, steps), k, u, other)
    ensures j == k && id == other
  {
    TraceQueues(s, steps, u);
    TurnsOnceAlong(Trace(s, steps), u, j, id, k, other);
    TurnsOnceAlong(Trace(s, steps), u, k, other, j, id);
  }

  // ----- Restoring a version -----------------------------------------------------------------

  /** Restoring a version keeps the invariant if and only if the version is restorable onto the file. */
  lemma RestoreKeepsInvIff(s: State, step: Step)
    requires Inv(s) && step.RestoreVersion? && AnswerTo(s, step) == Done
    ensures Inv(Apply(s, step)) <==> Restorable(s, step.uuid, step.version.value)
  {
    if Lawful(s, step) {
      StepKeepsInv(s, step);
    } else {
      var u, s' := step.uuid, Apply(s, step);
      assert u in s'.files && s'.outbox == s.outbox && s'.files[u] == RestoredRow(s.files[u], step.version.value);
    }
  }

  // ----- The store ---------------------------------------------------------------------------

  /** The files once the statement has reached `rows`. */
  function FilesAfter(files: Files, b: Bulk, rows: set<nat>): Files {
    map u | u in files :: if u in rows then Rewrite(b, files[u]) else files[u]
  }

  /** Reaching one more row of a statement. */
  lemma RowAfter(files: Files, b: Bulk, rows: set<nat>, u: nat)
    requires u in files && u !in rows
    ensures FilesAfter(files, b, rows)[u] == files[u]
    ensures FilesAfter(files, b, rows + {u}) == FilesAfter(files, b, rows)[u := Rewrite(b, files[u])]
  {}

  lemma RestrictedAfter(q: Outbox, rows: set<nat>, u: nat)
    ensures Restricted(q, rows + {u}) == if u in q then Restricted(q, rows)[u := q[u]] else Restricted(q, rows)
  {
    var next := Restricted(q, rows + {u});
    if u in q { assert next == Restricted(q, rows)[u := q[u]]; } else { assert next == Restricted(q, rows); }
  }

  lemma OverlayPut(base: Outbox, m: Outbox, u: nat, id: string)
    ensures base + m[u := id] == (base + m)[u := id]
  {}

  /** The trigger decides the same whether it sees the outbox at the start or at this row. */
  lemma FiresOnce(s: State, b: Bulk, rows: set<nat>, u: nat, before: Row, after: Row)
    requires u !in rows
    ensures Fires(OutboxAfter(s, b, rows), u, before, after) <==> Fires(s.outbox, u, before, after)
  {
    assert u !in Restricted(Queue(s, b), rows);
  }

  lemma FiresAfter(s: State, b: Bulk, rows: set<nat>, u: nat)
    requires u in s.files && u !in rows
    ensures var outbox := OutboxAfter(s, b, rows);
            OutboxAfter(s, b, rows + {u}) ==
              if Fires(outbox, u, s.files[u], Rewrite(b, s.files[u])) then outbox[u := s.files[u].fileId.value]
              else outbox
  {
    var q := Queue(s, b);
    FiresOnce(s, b, rows, u, s.files[u], Rewrite(b, s.files[u]));
    RestrictedAfter(q, rows, u);
    if u in q { OverlayPut(s.outbox, Restricted(q, rows), u, q[u]); }
  }

  /** The tables once the statement has reached `rows`. */
  ghost predicate Reached(s: State, b: Bulk, rows: set<nat>, files: Files, outbox: Outbox) {
    files == FilesAfter(s.files, b, rows) && outbox == OutboxAfter(s, b, rows)
  }

  lemma ReachNone(s: State, b: Bulk)
    ensures Reached(s, b, {}, s.files, s.outbox)
  {
    assert OutboxAfter(s, b, {}) == s.outbox;
  }

  lemma ReachNext(s: State, b: Bulk, rows: set<nat>, u: nat, files: Files, outbox: Outbox, outbox': Outbox)
    requires u in s.files && u !in rows && Reached(s, b, rows, files, outbox)
    requires outbox'
             == if Fires(outbox, u, files[u], Rewrite(b, files[u])) then outbox[u := files[u].fileId.value] else outbox
    ensures files[u] == s.files[u]
    ensures Reached(s, b, rows + {u}, files[u := Rewrite(b, files[u])], outbox')
  {
    RowAfter(s.files, b, rows, u);
    FiresAfter(s, b, rows, u);
  }

  lemma ReachAll(s: State, b: Bulk, files: Files, outbox: Outbox)
    requires Reached(s, b, Selected(s.files, b), files, outbox)
    ensures State(files, outbox) == Bulked(s, b)
  {
    assert files == BulkFiles(s.files, b);
  }

  // ----- Each statement and use case, written out ---------------------------------------------

  /** An UPDATE: the rows that meet the condition are rewritten and counted, the others are as they were. */
  ghost predicate Updated(before: Files, after: Files, count: nat, where: (nat, Row) -> bool, row: Row -> Row) {
    && after.Keys == before.Keys
    && (forall u :: u in before ==> after[u] == if where(u, before[u]) then row(before[u]) else before[u])
    && count == |set u | u in before && where(u, before[u])|
  }

  /** Each statement in its own terms. The trash batches and the folder clean-up differ in what they set. */
  ghost predicate BulkDid(b: Bulk, before: Files, after: Files, count: nat) {
    match b
    case Trash(user, uuids) =>
      Updated(before, after, count, (u: nat, r: Row) => r.user == user && u in uuids && r.status == Exists,
              (r: Row) => r.(status := Trashed))
    case DeleteByUser(user, uuids) =>
      Updated(before, after, count, (u: nat, r: Row) => r.user == user && u in uuids,
              (r: Row) => r.(status := Deleted, removed := true))
    case DeleteTrashedBatch(user, chosen) =>
      Updated(before, after, count, (u: nat, r: Row) => r.user == user && u in chosen && r.status == Trashed,
              (r: Row) => r.(status := Deleted))
    case RemoveInFolders(folders) =>
      Updated(before, after, count, (u: nat, r: Row) => r.folder in folders && r.status != Deleted,
              (r: Row) => r.(status := Deleted, removed := true, fileId := if r.size == 0 then None else r.fileId))
    case DeleteByUuid(uuids) =>
      Updated(before, after, count, (u: nat, r: Row) => u in uuids && r.status != Deleted,
              (r: Row) => r.(status := Deleted, removed := true))
    case ExpireTrash(chosen) =>
      Updated(before, after, count, (u: nat, r: Row) => u in chosen && r.status == Trashed,
              (r: Row) => r.(status := Deleted, removed := true))
    case FolderRemoved(folder) =>
      Updated(before, after, count, (u: nat, r: Row) => r.folder == folder,
              (r: Row) => r.(status := Deleted, removed := true))
  }

  lemma UpdatedBy(files: Files, b: Bulk, where: (nat, Row) -> bool, row: Row -> Row)
    requires forall u: nat, r: Row :: where(u, r) <==> Selects(b, u, r)
    requires forall r: Row :: row(r) == Rewrite(b, r)
    ensures Updated(files, BulkFiles(files, b), |Selected(files, b)|, where, row)
  {
    assert Selected(files, b) == set u | u in files && where(u, files[u]);
  }

  lemma BulkIsLiteral(files: Files, b: Bulk)
    ensures BulkDid(b, files, BulkFiles(files, b), |Selected(files, b)|)
  {
    var delete := (r: Row) => r.(status := Deleted, removed := true);
    match b
    case Trash(user, uuids) =>
      UpdatedBy(files, b, (u: nat, r: Row) => r.user == user && u in uuids && r.status == Exists,
                (r: Row) => r.(status := Trashed));
    case DeleteByUser(user, uuids) =>
      UpdatedBy(files, b, (u: nat, r: Row) => r.user == user && u in uuids, delete);
    case DeleteTrashedBatch(user, chosen) =>
      UpdatedBy(files, b, (u: nat, r: Row) => r.user == user && u in chosen && r.status == Trashed,
                (r: Row) => r.(status := Deleted));
    case RemoveInFolders(folders) =>
      UpdatedBy(files, b, (u: nat, r: Row) => r.folder in folders && r.status != Deleted,
                (r: Row) => r.(status := Deleted, removed := true, fileId := if r.size == 0 then None else r.fileId));
    case DeleteByUuid(uuids) => UpdatedBy(files, b, (u: nat, r: Row) => u in uuids && r.status != Deleted, delete);
    case ExpireTrash(chosen) => UpdatedBy(files, b, (u: nat, r: Row) => u in chosen && r.status == Trashed, delete);
    case FolderRemoved(folder) => UpdatedBy(files, b, (u: nat, r: Row) => r.folder == folder, delete);
  }

  /** A request's text as it is stored: nothing when it is missing or blank. */
  function Text(s: Option<string>, stored: Option<string>): Option<string> {
    match s
    case Some(t) => if Blank(t) then None else s
    case None => if stored.None? || Blank(stored.value) then None else stored
  }

  /** An existing file of the user has the name in the folder, and the type, no type and '' being one. */
  ghost predicate NameTaken(files: Files, user: nat, folder: nat, name: string, fileType: Option<string>) {
    exists v :: v in files && files[v].status == Exists && files[v].user == user && files[v].folder == folder
                && files[v].plainName == name && SameType(files[v].fileType, fileType)
  }

  /** Asked for no type, or one of blanks, the stored type is missing or empty; else it is the very type. */
  predicate SameType(stored: Option<string>, asked: Option<string>) {
    if asked.None? || Blank(asked.value) then stored.None? || stored.value == "" else stored == asked
  }

  /** Another existing file of the folder, whoever owns it, has the name and this very type. */
  ghost predicate KeyTaken(files: Files, u: nat, folder: nat, name: string, fileType: Option<string>) {
    && fileType.Some?
    && exists v :: v in files && v != u && files[v].status == Exists && files[v].folder == folder
                   && files[v].plainName == name && files[v].fileType == fileType
  }

  /** An id of at most 24 characters for content, and none without. */
  predicate GoodId(size: nat, fileId: Option<string>) {
    if size > 0 then fileId.Some? && fileId.value != "" && |fileId.value| <= 24
    else fileId.None? || fileId.value == ""
  }

  ghost predicate CreateDid(s: State, uuid: nat, user: nat, folder: Option<Folder>, name: string,
                            fileType: Option<string>, size: nat, fileId: Option<string>, allowed: bool,
                            answer: Answer, s': State)
  {
    var good := GoodId(size, fileId);
    var mine := good && folder.Some? && folder.value.owner == user;
    && (answer == BadRequest <==> !good)
    && (answer == NotFound <==> good && folder.None?)
    && (answer == Forbidden <==> good && folder.Some? && folder.value.owner != user)
    && (answer == Conflict <==> mine && NameTaken(s.files, user, folder.value.id, name, fileType))
    && (answer == LimitReached <==> mine && !NameTaken(s.files, user, folder.value.id, name, fileType) && !allowed)
    && (answer == UniqueViolation <==>
          && mine && !NameTaken(s.files, user, folder.value.id, name, fileType) && allowed
          && (uuid in s.files || KeyTaken(s.files, uuid, folder.value.id, name, fileType)))
    && (answer == Done <==>
          && mine && allowed && !NameTaken(s.files, user, folder.value.id, name, fileType)
          && uuid !in s.files && !KeyTaken(s.files, uuid, folder.value.id, name, fileType))
    && (answer == Done ==>
          s' == State(s.files[uuid := Row(user, folder.value.id, name, fileType, size,
                                             if size == 0 then None else fileId, Exists, false)], s.outbox))
    && (answer != Done ==> s' == s)
  }

  /** The name and type that a move or a renaming asks for, the old ones where it asks for none. */
  function NewName(r: Row, name: Option<string>): string {
    match Text(name, Some(r.plainName)) case Some(t) => t case None => ""
  }

  function NewType(r: Row, fileType: Option<string>): Option<string> { Text(fileType, r.fileType) }

  /** What it writes: these, existence, and a move the folder; the owner, the size and the network id stay. */
  function NamedAs(r: Row, name: Option<string>, fileType: Option<string>, folder: nat): Row {
    Row(r.user, folder, NewName(r, name), NewType(r, fileType), r.size, r.fileId, Exists, r.removed)
  }

  ghost predicate UpdateDid(s: State, uuid: nat, user: nat, name: Option<string>, fileType: Option<string>,
                            answer: Answer, s': State)
  {
    var named := Text(name, None).Some? || Text(fileType, None).Some?;
    if !named then answer == BadRequest && s' == s
    else if !(uuid in s.files && s.files[uuid].user == user && s.files[uuid].status == Exists)
      then answer == NotFound && s' == s
    else
      var r := s.files[uuid];
      if NameTaken(s.files, user, r.folder, NewName(r, name), NewType(r, fileType)) then answer == Conflict && s' == s
      else if KeyTaken(s.files, uuid, r.folder, NewName(r, name), NewType(r, fileType))
        then answer == UniqueViolation && s' == s
      else answer == Done && s' == State(s.files[uuid := NamedAs(r, name, fileType, r.folder)], s.outbox)
  }

  ghost predicate MoveDid(s: State, uuid: nat, user: nat, folder: Option<Folder>, name: Option<string>,
                          fileType: Option<string>, answer: Answer, s': State)
  {
    if !(uuid in s.files && s.files[uuid].user == user && s.files[uuid].status != Deleted && !s.files[uuid].removed)
      then answer == Unprocessable && s' == s
    else if folder.None? then answer == NotFound && s' == s
    else if folder.value.owner != user then answer == Forbidden && s' == s
    else if folder.value.removed then answer == Unprocessable && s' == s
    else
      var r, to := s.files[uuid], folder.value.id;
      if NewName(r, name) == "" && NewType(r, fileType).None? then answer == BadRequest && s' == s
      else if NameTaken(s.files, user, to, NewName(r, name), NewType(r, fileType)) then answer == Conflict && s' == s
      else if KeyTaken(s.files, uuid, to, NewName(r, name), NewType(r, fileType))
        then answer == UniqueViolation && s' == s
      else answer == Done && s' == State(s.files[uuid := NamedAs(r, name, fileType, to)], s.outbox)
  }

  ghost predicate ReplaceDid(s: State, uuid: nat, user: nat, size: nat, fileId: Option<string>, allowed: bool,
                             answer: Answer, s': State)
  {
    var mine := uuid in s.files && s.files[uuid].user == user;
    && (answer == NotFound <==> GoodId(size, fileId) && !mine)
    && (answer == BadRequest <==> !GoodId(size, fileId) || (mine && s.files[uuid].status != Exists))
    && (answer == Done <==> GoodId(size, fileId) && mine && s.files[uuid].status == Exists && allowed)
    && (answer == Done ==>
          var row := s.files[uuid].(size := size, fileId := if size == 0 then None else fileId);
          s' == State(s.files[uuid := row], s.outbox))
    && (answer != Done ==> s' == s)
  }

  ghost predicate RestoreDid(s: State, uuid: nat, user: nat, version: Option<Version>, answer: Answer, s': State) {
    var found := uuid in s.files && s.files[uuid].user == user && version.Some?;
    && (answer == NotFound <==> !found)
    && (answer == Conflict <==> found && version.value.file != uuid)
    && (answer == BadRequest <==> found && version.value.file == uuid && !version.value.live)
    && (answer == Done ==>
          && found && version.value.file == uuid && version.value.live
          && var row := s.files[uuid].(size := version.value.size, fileId := version.value.networkFileId);
             s' == State(s.files[uuid := row], s.outbox))
    && (answer != Done ==> s' == s)
  }

  /** The file is DELETED and removed, no other row changes, and its id is queued if it had one and was not DELETED. */
  ghost predicate DeleteDid(s: State, uuid: nat, user: nat, answer: Answer, s': State) {
    && (answer == NotFound <==> uuid !in s.files || s.files[uuid].removed)
    && (answer == Forbidden <==> uuid in s.files && !s.files[uuid].removed && s.files[uuid].user != user)
    && (answer == Done <==> uuid in s.files && !s.files[uuid].removed && s.files[uuid].user == user)
    && (answer == Done ==>
          && s'.files == s.files[uuid := s.files[uuid].(status := Deleted, removed := true)]
          && s'.outbox == if s.files[uuid].status != Deleted && s.files[uuid].fileId.Some? && uuid !in s.outbox
                          then s.outbox[uuid := s.files[uuid].fileId.value] else s.outbox)
    && (answer != Done ==> s' == s)
  }

  /** The answer to each request, and what it leaves. */
  ghost predicate UseCaseDid(s: State, step: Step, answer: Answer, s': State) {
    match step
    case CreateFile(uuid, user, folder, name, fileType, size, fileId, allowed) =>
      CreateDid(s, uuid, user, folder, name, fileType, size, fileId, allowed, answer, s')
    case UpdateFileMetaData(uuid, user, name, fileType) => UpdateDid(s, uuid, user, name, fileType, answer, s')
    case MoveFile(uuid, user, folder, name, fileType) => MoveDid(s, uuid, user, folder, name, fileType, answer, s')
    case ReplaceFile(uuid, user, size, fileId, allowed) => ReplaceDid(s, uuid, user, size, fileId, allowed, answer, s')
    case RestoreVersion(uuid, user, version) => RestoreDid(s, uuid, user, version, answer, s')
    case DeleteFilePermanently(uuid, user) => DeleteDid(s, uuid, user, answer, s')
    case BulkUpdate(b) => exists count: nat :: BulkDid(b, s.files, s'.files, count)
    case DestroyDeleted(uuids) =>
      && s'.outbox == s.outbox
      && (forall u :: u in s'.files <==> u in s.files && !(u in uuids && s.files[u].status == Deleted))
      && forall u :: u in s'.files ==> s'.files[u] == s.files[u]
  }

  lemma FoundIsNameTaken(files: Files, r: Row)
    ensures Found(files, r) <==> NameTaken(files, r.user, r.folder, r.plainName, r.fileType)
  {}

  lemma CreateIsLiteral(s: State, step: Step)
    requires step.CreateFile?
    ensures UseCaseDid(s, step, AnswerTo(s, step), Apply(s, step))
  {
    if step.folder.Some? { FoundIsNameTaken(s.files, NewRow(step)); }
  }

  lemma UpdateIsLiteral(s: State, step: Step)
    requires step.UpdateFileMetaData?
    ensures UseCaseDid(s, step, AnswerTo(s, step), Apply(s, step))
  {
    if step.uuid in s.files { FoundIsNameTaken(s.files, Renamed(s.files[step.uuid], step.newName, step.newType)); }
  }

  lemma MoveIsLiteral(s: State, step: Step)
    requires step.MoveFile?
    ensures UseCaseDid(s, step, AnswerTo(s, step), Apply(s, step))
  {
    if step.uuid in s.files && step.folder.Some? {
      FoundIsNameTaken(s.files, Moved(s.files[step.uuid], step.folder.value.id, step.newName, step.newType));
    }
  }

  lemma DeleteIsLiteral(s: State, step: Step)
    requires step.DeleteFilePermanently?
    ensures UseCaseDid(s, step, AnswerTo(s, step), Apply(s, step))
  {
    var u, user := step.uuid, step.user;
    if AnswerTo(s, step) == Done {
      var b := DeleteByUser(user, {u});
      RestrictedAfter(Queue(s, b), {}, u);
      assert Selected(s.files, b) == {} + {u} == {u};
      assert Restricted(Queue(s, b), {}) == map[];
      assert BulkFiles(s.files, b) == s.files[u := s.files[u].(status := Deleted, removed := true)];
    }
  }

  /** Every use case answers and writes what it should. */
  lemma UseCaseIsLiteral(s: State, step: Step)
    ensures UseCaseDid(s, step, AnswerTo(s, step), Apply(s, step))
  {
    match step
    case CreateFile(_, _, _, _, _, _, _, _) => CreateIsLiteral(s, step);
    case UpdateFileMetaData(_, _, _, _) => UpdateIsLiteral(s, step);
    case MoveFile(_, _, _, _, _) => MoveIsLiteral(s, step);
    case DeleteFilePermanently(_, _) => DeleteIsLiteral(s, step);
    case BulkUpdate(b) => BulkIsLiteral(s.files, b);
    case ReplaceFile(_, _, size, fileId, _) => assert GoodId(size, fileId) <==> ValidFileId(size, fileId);
    case _ =>
  }

  /** What a use case owes: a lawful one keeps the invariant, and each queues exactly the files it turns DELETED. */
  ghost predicate Honours(s: State, s': State, step: Step) {
    Inv(s) ==> (Lawful(s, step) ==> Inv(s')) && forall u: nat :: QueuesRow(s, s', u)
  }

  lemma StepHonours(s: State, step: Step)
    ensures Honours(s, Apply(s, step), step)
    ensures UseCaseDid(s, step, AnswerTo(s, step), Apply(s, step))
  {
    UseCaseIsLiteral(s, step);
    if Inv(s) {
      StepQueuesExactly(s, step);
      if Lawful(s, step) { StepKeepsInv(s, step); }
    }
  }

  class FileStore {
    var files: Files
    var outbox: Outbox

    ghost function View(): State
      reads this
    {
      State(files, outbox)
    }

    constructor ()
      ensures View() == State(map[], map[]) && Inv(View())
    {
      files := map[];
      outbox := map[];
    }

    /**
     * file_deleted_trigger. Fired for a row whose update neither revives it nor, deleting it, changes its id, it
     * keeps the outbox exact.
     */
    method FileDeletedTrigger(u: nat, before: Row, after: Row)
      modifies this`outbox
      ensures outbox
              == if Fires(old(outbox), u, before, after) then old(outbox)[u := before.fileId.value] else old(outbox)
      ensures old(OutboxExact(View())) && u in files && files[u] == before
              && (before.status == Deleted ==> after.status == Deleted)
              && (after.status == Deleted ==> after.fileId == before.fileId)
              ==> OutboxExact(State(files[u := after], outbox))
    {
      if before.status != Deleted && after.status == Deleted && before.fileId.Some? {
        if u !in outbox {
          outbox := outbox[u := before.fileId.value];
        }
      }
    }

    /** One row of the statement below, which has reached `done`. */
    method UpdateRow(b: Bulk, u: nat, ghost s: State, ghost done: set<nat>)
      requires Reached(s, b, done, files, outbox) && u in s.files && u !in done
      modifies this
      ensures Reached(s, b, done + {u}, files, outbox)
    {
      ghost var outbox0 := outbox;
      RowAfter(s.files, b, done, u);
      var before := files[u];
      var after := Rewrite(b, before);
      FileDeletedTrigger(u, before, after);
      ReachNext(s, b, done, u, files, outbox0, outbox);
      files := files[u := after];
    }

    /** One UPDATE statement: row after row, the trigger firing for each, in whatever order. */
    method BulkUpdateFiles(b: Bulk) returns (updatedCount: nat)
      modifies this
      ensures View() == Bulked(old(View()), b)
      ensures updatedCount == |Selected(old(files), b)|
      ensures BulkDid(b, old(files), files, updatedCount)
    {
      ghost var s, rows := View(), Selected(files, b);
      var todo := Selected(files, b);
      updatedCount := |todo|;
      ghost var done: set<nat> := {};
      ReachNone(s, b);
      while todo != {}
        invariant done == rows - todo && todo <= rows
        invariant Reached(s, b, done, files, outbox)
        decreases todo
      {
        var u :| u in todo;
        UpdateRow(b, u, s, done);
        todo, done := todo - {u}, done + {u};
      }
      assert done == rows;
      ReachAll(s, b, files, outbox);
      BulkIsLiteral(s.files, b);
    }

    method CreateFile(uuid: nat, user: nat, folder: Option<Folder>, plainName: string, fileType: Option<string>,
                      size: nat, fileId: Option<string>, allowed: bool)
      returns (answer: Answer)
      modifies this`files
      ensures var step := Step.CreateFile(uuid, user, folder, plainName, fileType, size, fileId, allowed);
              answer == AnswerTo(old(View()), step) && View() == Apply(old(View()), step)
              && Honours(old(View()), View(), step) && UseCaseDid(old(View()), step, answer, View())
    {
      StepHonours(View(), Step.CreateFile(uuid, user, folder, plainName, fileType, size, fileId, allowed));
      if !ValidFileId(size, fileId) {
        return BadRequest;
      }
      if folder.None? {
        return NotFound;
      }
      if folder.value.owner != user {
        return Forbidden;
      }
      var newFileId := if size == 0 then None else fileId;
      var newFile := Row(user, folder.value.id, plainName, fileType, size, newFileId, Exists, false);
      if Found(files, newFile) {
        return Conflict;
      }
      if !allowed {
        return LimitReached;
      }
      if uuid in files || IndexRefuses(files, uuid, newFile) {
        return UniqueViolation;
      }
      files := files[uuid := newFile];
      answer := Done;
    }

    method UpdateFileMetaData(uuid: nat, user: nat, newName: Option<string>, newType: Option<string>)
      returns (answer: Answer)
      modifies this`files
      ensures answer == AnswerTo(old(View()), Step.UpdateFileMetaData(uuid, user, newName, newType))
      ensures View() == Apply(old(View()), Step.UpdateFileMetaData(uuid, user, newName, newType))
      ensures Honours(old(View()), View(), Step.UpdateFileMetaData(uuid, user, newName, newType))
      ensures UseCaseDid(old(View()), Step.UpdateFileMetaData(uuid, user, newName, newType), answer, View())
    {
      StepHonours(View(), Step.UpdateFileMetaData(uuid, user, newName, newType));
      if IsStringEmpty(newName) && IsStringEmpty(newType) {
        return BadRequest;
      }
      if !Owned(files, user, uuid) || files[uuid].status != Exists {
        return NotFound;
      }
      var file := files[uuid];
      var plainName := if newName.Some? then newName.value else file.plainName;
      var fileType := if newType.Some? then newType else file.fileType;
      file := file.(plainName := SetPlainName(plainName), fileType := SetType(fileType));
      if Found(files, file) {
        return Conflict;
      }
      if IndexRefuses(files, uuid, file) {
        return UniqueViolation;
      }
      files := files[uuid := file];
      answer := Done;
    }

    method ReplaceFile(uuid: nat, user: nat, size: nat, fileId: Option<string>, allowed: bool) returns (answer: Answer)
      modifies this`files
      ensures answer == AnswerTo(old(View()), Step.ReplaceFile(uuid, user, size, fileId, allowed))
      ensures View() == Apply(old(View()), Step.ReplaceFile(uuid, user, size, fileId, allowed))
      ensures Honours(old(View()), View(), Step.ReplaceFile(uuid, user, size, fileId, allowed))
      ensures UseCaseDid(old(View()), Step.ReplaceFile(uuid, user, size, fileId, allowed), answer, View())
    {
      StepHonours(View(), Step.ReplaceFile(uuid, user, size, fileId, allowed));
      if !ValidFileId(size, fileId) {
        return BadRequest;
      }
      if !Owned(files, user, uuid) {
        return NotFound;
      }
      if files[uuid].status != Exists {
        return BadRequest;
      }
      if !allowed {
        return LimitReached;
      }
      var newFileId := if size == 0 then None else fileId;
      files := files[uuid := files[uuid].(size := size, fileId := newFileId)];
      answer := Done;
    }

    method RestoreFileVersion(uuid: nat, user: nat, version: Option<Version>) returns (answer: Answer)
      modifies this`files
      ensures answer == AnswerTo(old(View()), Step.RestoreVersion(uuid, user, version))
      ensures View() == Apply(old(View()), Step.RestoreVersion(uuid, user, version))
      ensures Honours(old(View()), View(), Step.RestoreVersion(uuid, user, version))
      ensures UseCaseDid(old(View()), Step.RestoreVersion(uuid, user, version), answer, View())
      ensures old(Inv(View())) && answer == Done ==> (Inv(View()) <==> old(Restorable(View(), uuid, version.value)))
    {
      StepHonours(View(), Step.RestoreVersion(uuid, user, version));
      if !Owned(files, user, uuid) {
        return NotFound;
      }
      if version.None? {
        return NotFound;
      }
      if version.value.file != uuid {
        return Conflict;
      }
      if !version.value.live {
        return BadRequest;
      }
      if Inv(View()) { RestoreKeepsInvIff(View(), Step.RestoreVersion(uuid, user, version)); }
      files := files[uuid := files[uuid].(size := version.value.size, fileId := version.value.networkFileId)];
      answer := Done;
    }

    method MoveFile(uuid: nat, user: nat, folder: Option<Folder>, newName: Option<string>, newType: Option<string>)
      returns (answer: Answer)
      modifies this`files
      ensures answer == AnswerTo(old(View()), Step.MoveFile(uuid, user, folder, newName, newType))
      ensures View() == Apply(old(View()), Step.MoveFile(uuid, user, folder, newName, newType))
      ensures Honours(old(View()), View(), Step.MoveFile(uuid, user, folder, newName, newType))
      ensures UseCaseDid(old(View()), Step.MoveFile(uuid, user, folder, newName, newType), answer, View())
    {
      StepHonours(View(), Step.MoveFile(uuid, user, folder, newName, newType));
      if !Owned(files, user, uuid) || IsDeleted(files[uuid]) {
        return Unprocessable;
      }
      if folder.None? {
        return NotFound;
      }
      if folder.value.owner != user {
        return Forbidden;
      }
      if folder.value.removed {
        return Unprocessable;
      }
      var file := files[uuid];
      var plainName := if newName.Some? then newName.value else file.plainName;
      var fileType := if newType.Some? then newType else file.fileType;
      file := file.(plainName := SetPlainName(plainName), fileType := SetType(fileType));
      if !IsFilenameValid(file) {
        return BadRequest;
      }
      var moved := file.(folder := folder.value.id, status := Exists);
      if Found(files, moved) {
        return Conflict;
      }
      if IndexRefuses(files, uuid, moved) {
        return UniqueViolation;
      }
      files := files[uuid := moved];
      answer := Done;
    }

    method DeleteFilePermanently(uuid: nat, user: nat) returns (answer: Answer)
      modifies this
      ensures answer == AnswerTo(old(View()), Step.DeleteFilePermanently(uuid, user))
      ensures View() == Apply(old(View()), Step.DeleteFilePermanently(uuid, user))
      ensures Honours(old(View()), View(), Step.DeleteFilePermanently(uuid, user))
      ensures UseCaseDid(old(View()), Step.DeleteFilePermanently(uuid, user), answer, View())
    {
      StepHonours(View(), Step.DeleteFilePermanently(uuid, user));
      if uuid !in files || files[uuid].removed {
        return NotFound;
      }
      if files[uuid].user != user {
        return Forbidden;
      }
      var count := BulkUpdateFiles(DeleteByUser(user, {uuid}));
      answer := Done;
    }
  }
}
