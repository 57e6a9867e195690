/**
 * Keyset-paged synchronisation: a client asks for the files changed after an instant, page by page in
 * (updated_at, uuid) order, while writers keep restamping rows. Stamps are in microseconds, as the
 * table holds them; the cursor carries the stamp at the millisecond resolution of a date string.
 */
module KeysetSync {
  import opened FileDomain
  import opened FiniteSets

  const MS := 1000

  datatype Row = Row(user: nat, status: FileStatus, updatedAt: int, body: string)
  datatype Key = Key(stamp: int, uuid: nat)

  type Table = map<nat, Row>
  type Where = Row -> bool

  /** The row comparison ("updated_at", "uuid") < (...). */
  predicate Less(a: Key, b: Key) {
    a.stamp < b.stamp || (a.stamp == b.stamp && a.uuid < b.uuid)
  }

  function KeyOf(table: Table, u: nat): Key
    requires u in table
  {
    Key(table[u].updatedAt, u)
  }

  /** toISOString keeps milliseconds: the cursor's stamp is the row's, rounded down. */
  function CursorOf(k: Key): Key { Key(k.stamp - k.stamp % MS, k.uuid) }

  predicate WholeMs(t: int) { t % MS == 0 }

  // ----- ORDER BY ----------------------------------------------------------------------------

  ghost predicate Ascending(ks: seq<Key>) {
    forall i, j :: 0 <= i < j < |ks| ==> Less(ks[i], ks[j])
  }

  ghost predicate IsLeast(k: Key, ks: set<Key>) {
    k in ks && forall x :: x in ks && x != k ==> Less(k, x)
  }

  lemma {:induction false} LeastExists(ks: set<Key>)
    requires ks != {}
    ensures exists k :: IsLeast(k, ks)
  {
    var k :| k in ks;
    if ks == {k} {
      assert IsLeast(k, ks);
    } else {
      LeastExists(ks - {k});
      var m :| IsLeast(m, ks - {k});
      forall x | x in ks && x != k && x != m ensures Less(m, x) { assert x in ks - {k}; }
      assert IsLeast(if Less(m, k) then m else k, ks);
    }
  }

  ghost function Least(ks: set<Key>): (k: Key)
    requires ks != {}
    ensures IsLeast(k, ks)
  {
    LeastExists(ks);
    var k :| IsLeast(k, ks);
    k
  }

  /** ORDER BY updated_at ASC, uuid ASC over the selected keys. */
  ghost function OrderBy(ks: set<Key>): (r: seq<Key>)
    ensures Ascending(r)
    ensures |r| == |ks|
    ensures forall k :: k in r <==> k in ks
  {
    if ks == {} then []
    else
      var k := Least(ks);
      var rest := OrderBy(ks - {k});
      assert forall x :: x in rest ==> Less(k, x);
      [k] + rest
  }

  lemma {:induction false} AscendingIsUnique(a: seq<Key>, b: seq<Key>)
    requires Ascending(a) && Ascending(b) && |a| == |b|
    requires forall k :: k in a <==> k in b
    ensures a == b
  {
    if a != [] {
      assert a[0] in b;
      assert b[0] in a;
      var i :| 0 <= i < |b| && b[i] == a[0];
      var j :| 0 <= j < |a| && a[j] == b[0];
      assert a[0] == b[0];
      forall k ensures k in a[1..] <==> k in b[1..] {
        if k in a[1..] { assert k in a && k != a[0]; }
        if k in b[1..] { assert k in b && k != b[0]; }
      }
      AscendingIsUnique(a[1..], b[1..]);
    }
  }

  // ----- The paged query ---------------------------------------------------------------------

  /** Past the cursor, or on the first page past the date. */
  predicate Beyond(k: Key, after: int, cursor: Option<Key>) {
    match cursor
    case Some(c) => Less(c, k)
    case None => after < k.stamp
  }

  /** The WHERE clause: the caller's filter and the position test. */
  ghost function Selected(table: Table, where: Where, after: int, cursor: Option<Key>): (ks: set<Key>)
    ensures forall k :: k in ks <==>
              k.uuid in table && k == KeyOf(table, k.uuid) && where(table[k.uuid]) && Beyond(k, after, cursor)
  {
    set u | u in table && where(table[u]) && Beyond(KeyOf(table, u), after, cursor) :: KeyOf(table, u)
  }

  datatype Page = Page(keys: seq<Key>, hasMore: bool)

  /** LIMIT pageSize + 1: one row more than the page is fetched to learn whether there are more. */
  function Limit(sorted: seq<Key>, pageSize: nat): Page {
    var rows := if |sorted| > pageSize + 1 then sorted[..pageSize + 1] else sorted;
    var hasMore := |rows| > pageSize;
    Page(if hasMore then rows[..pageSize] else rows, hasMore)
  }

  lemma LimitKeepsInitialSegment(sorted: seq<Key>, pageSize: nat)
    requires Ascending(sorted)
    ensures var p := Limit(sorted, pageSize);
            && Ascending(p.keys)
            && (p.hasMore <==> |sorted| > pageSize)
            && p.keys == (if p.hasMore then sorted[..pageSize] else sorted)
            && (forall k :: k in p.keys ==> k in sorted)
            && (p.hasMore && p.keys != [] ==>
                  forall k :: k in sorted && k !in p.keys ==> Less(p.keys[|p.keys| - 1], k))
  {
    var p := Limit(sorted, pageSize);
    if p.hasMore && p.keys != [] {
      forall k | k in sorted && k !in p.keys
        ensures Less(p.keys[|p.keys| - 1], k)
      {
        var i :| 0 <= i < |sorted| && sorted[i] == k;
        assert sorted == sorted[..pageSize] + sorted[pageSize..];
      }
    }
  }

  /** findFilesWithCursorWhereUpdatedAfter. */
  ghost function FindPage(table: Table, where: Where, after: int, pageSize: nat, cursor: Option<Key>): Page {
    Limit(OrderBy(Selected(table, where, after, cursor)), pageSize)
  }

  /** A page holds every selected key up to its last one, and all of them when there are no more. */
  lemma PageIsInitialSegment(table: Table, where: Where, after: int, pageSize: nat, cursor: Option<Key>)
    ensures var p := FindPage(table, where, after, pageSize, cursor);
            var selected := Selected(table, where, after, cursor);
            && Ascending(p.keys)
            && (forall k :: k in p.keys ==> k in selected)
            && (p.hasMore <==> |selected| > pageSize)
            && (p.hasMore ==> |p.keys| == pageSize)
            && (!p.hasMore ==> forall k :: k in selected ==> k in p.keys)
            && (p.hasMore && p.keys != [] ==>
                  forall k :: k in selected && k !in p.keys ==> Less(p.keys[|p.keys| - 1], k))
  {
    LimitKeepsInitialSegment(OrderBy(Selected(table, where, after, cursor)), pageSize);
  }

  // ----- The use case ------------------------------------------------------------------------

  datatype SyncCursor = SyncCursor(key: Key, status: Option<FileStatus>)
  datatype Token = NoToken | Garbled | Token(cursor: SyncCursor)
  datatype SyncError = InvalidCursor | StatusMismatch
  datatype SyncResult =
    | Refused(error: SyncError)
    | Served(files: seq<(nat, Row)>, hasMore: bool, next: Option<SyncCursor>)

  function UserFilter(user: nat, status: Option<FileStatus>): Where {
    (r: Row) => r.user == user && (status.None? || r.status == status.value)
  }

  ghost function RowsOf(table: Table, keys: seq<Key>): (r: seq<(nat, Row)>)
    requires forall k :: k in keys ==> k.uuid in table
    ensures |r| == |keys| && forall i :: 0 <= i < |keys| ==> r[i] == (keys[i].uuid, table[keys[i].uuid])
  {
    seq(|keys|, i requires 0 <= i < |keys| => (keys[i].uuid, table[keys[i].uuid]))
  }

  /** getFilesUpdatedAfterWithCursor. */
  ghost function GetFilesUpdatedAfter(table: Table, user: nat, status: Option<FileStatus>, after: int,
                                      pageSize: nat, token: Token): SyncResult {
    if token.Garbled? then Refused(InvalidCursor)
    else if token.Token? && token.cursor.status != status then Refused(StatusMismatch)
    else
      var cursor := if token.Token? then Some(token.cursor.key) else None;
      PageIsInitialSegment(table, UserFilter(user, status), after, pageSize, cursor);
      var p := FindPage(table, UserFilter(user, status), after, pageSize, cursor);
      var next := if p.hasMore && p.keys != [] then Some(SyncCursor(CursorOf(p.keys[|p.keys| - 1]), status)) else None;
      Served(RowsOf(table, p.keys), p.hasMore, next)
  }

  /** The files of the user, of the status asked for if one is. */
  predicate Asked(r: Row, user: nat, status: Option<FileStatus>) {
    r.user == user && match status case None => true case Some(wanted) => r.status == wanted
  }

  /** Past a cursor by stamp, then by uuid; without one, past the date. */
  predicate Onward(stamp: int, uuid: nat, after: int, token: Token) {
    match token
    case Token(c) => c.key.stamp < stamp || (c.key.stamp == stamp && c.key.uuid < uuid)
    case _ => after < stamp
  }

  /** The uuids the request asks for from the token on. */
  ghost function Rest(table: Table, user: nat, status: Option<FileStatus>, after: int, token: Token): set<nat> {
    set u | u in table && Asked(table[u], user, status) && Onward(table[u].updatedAt, u, after, token)
  }

  predicate After(f: (nat, Row), g: (nat, Row)) {
    f.1.updatedAt < g.1.updatedAt || (f.1.updatedAt == g.1.updatedAt && f.0 < g.0)
  }

  /** Stored rows that were asked for, in order of stamp and uuid, and before all that are left over. */
  ghost predicate LeastOf(table: Table, rest: set<nat>, files: seq<(nat, Row)>) {
    && (forall f :: f in files ==> f.0 in rest && f.0 in table && f.1 == table[f.0])
    && (forall i, j :: 0 <= i < j < |files| ==> After(files[i], files[j]))
    && (files != [] ==>
          forall u :: u in rest && u in table && (u, table[u]) !in files ==> After(files[|files| - 1], (u, table[u])))
  }

  /**
   * An answer in full: the least of the rows asked for that are left, a page of them if there are more than that and
   * else all; and then the place of the last one, to the millisecond.
   */
  ghost predicate ServedInFull(table: Table, user: nat, status: Option<FileStatus>, after: int, pageSize: nat,
                               token: Token, r: SyncResult)
    requires r.Served?
  {
    var rest := Rest(table, user, status, after, token);
    && LeastOf(table, rest, r.files)
    && (r.hasMore <==> |rest| > pageSize)
    && (r.hasMore ==> |r.files| == pageSize)
    && (!r.hasMore ==> forall u :: u in rest && u in table ==> (u, table[u]) in r.files)
    && r.next == if r.hasMore && r.files != [] then Some(PlaceOf(r.files[|r.files| - 1], status)) else None
  }

  function PlaceOf(f: (nat, Row), status: Option<FileStatus>): SyncCursor {
    SyncCursor(Key(f.1.updatedAt - f.1.updatedAt % 1000, f.0), status)
  }

  lemma RestIsSelected(table: Table, user: nat, status: Option<FileStatus>, after: int, token: Token, ks: set<Key>)
    requires !token.Garbled? && ks == Selected(table, UserFilter(user, status), after, CursorIn(token))
    ensures var rest := Rest(table, user, status, after, token);
            && (forall u :: u in rest <==> u in table && KeyOf(table, u) in ks)
            && |rest| == |ks|
  {
    var rest := Rest(table, user, status, after, token);
    assert ks == set u | u in rest :: KeyOf(table, u);
    KeysCount(table, rest);
  }

  lemma {:induction false} KeysCount(table: Table, us: set<nat>)
    requires us <= table.Keys
    ensures |set u | u in us :: KeyOf(table, u)| == |us|
    decreases us
  {
    if us != {} {
      var u :| u in us;
      KeysCount(table, us - {u});
      assert (set v | v in us :: KeyOf(table, v)) == (set v | v in us - {u} :: KeyOf(table, v)) + {KeyOf(table, u)};
      assert KeyOf(table, u) !in (set v | v in us - {u} :: KeyOf(table, v));
    }
  }

  /** Ascending keys, the least of those selected, give rows that are the least of the rest. */
  lemma PageIsLeast(table: Table, keys: seq<Key>, selected: set<Key>, rest: set<nat>)
    requires forall k :: k in keys ==> k in selected && k.uuid in table && k == KeyOf(table, k.uuid)
    requires Ascending(keys) && forall u :: u in rest <==> u in table && KeyOf(table, u) in selected
    requires keys != [] ==> forall k :: k in selected && k !in keys ==> Less(keys[|keys| - 1], k)
    ensures LeastOf(table, rest, RowsOf(table, keys))
  {
    var files := RowsOf(table, keys);
    FilesOfKeys(table, keys);
    forall i, j | 0 <= i < j < |files| ensures After(files[i], files[j]) {
      assert keys[i] in keys && keys[j] in keys && Less(keys[i], keys[j]);
    }
    if files != [] {
      var last := keys[|keys| - 1];
      assert last in keys;
      forall u | u in rest && u in table && (u, table[u]) !in files ensures After(files[|files| - 1], (u, table[u])) {
        assert Less(last, KeyOf(table, u));
      }
    }
  }

  /** getFilesUpdatedAfterWithCursor, in the request's own terms. */
  lemma GetFilesIsLiteral(table: Table, user: nat, status: Option<FileStatus>, after: int, pageSize: nat, token: Token)
    ensures var r := GetFilesUpdatedAfter(table, user, status, after, pageSize, token);
            && (r == Refused(InvalidCursor) <==> token == Garbled)
            && (r == Refused(StatusMismatch) <==> token.Token? && token.cursor.status != status)
            && (r.Served? ==> ServedInFull(table, user, status, after, pageSize, token, r))
  {
    if !token.Garbled? && (token.Token? ==> token.cursor.status == status) {
      ServesInFull(table, user, status, after, pageSize, token);
    }
  }

  lemma LastPlace(table: Table, keys: seq<Key>, status: Option<FileStatus>)
    requires keys != [] && forall k :: k in keys ==> k.uuid in table && k == KeyOf(table, k.uuid)
    ensures PlaceOf(RowsOf(table, keys)[|keys| - 1], status) == SyncCursor(CursorOf(keys[|keys| - 1]), status)
  {
    assert keys[|keys| - 1] in keys;
  }

  /** Every selected key is on a page that is the last. */
  lemma LastPageIsAll(table: Table, keys: seq<Key>, selected: set<Key>, rest: set<nat>)
    requires forall k :: k in keys ==> k in selected && k.uuid in table && k == KeyOf(table, k.uuid)
    requires forall k :: k in selected ==> k in keys
    requires forall u :: u in rest <==> u in table && KeyOf(table, u) in selected
    ensures forall u :: u in rest && u in table ==> (u, table[u]) in RowsOf(table, keys)
  {
    FilesOfKeys(table, keys);
  }

  lemma PageServesRest(table: Table, user: nat, status: Option<FileStatus>, after: int, pageSize: nat, token: Token)
    requires !token.Garbled?
    ensures var p := FindPage(table, UserFilter(user, status), after, pageSize, CursorIn(token));
            var rest, files := Rest(table, user, status, after, token), RowsOf(table, p.keys);
            && LeastOf(table, rest, files) && (p.hasMore <==> |rest| > pageSize) && (p.hasMore ==> |files| == pageSize)
            && (!p.hasMore ==> forall u :: u in rest && u in table ==> (u, table[u]) in files)
            && forall k :: k in p.keys ==> k.uuid in table && k == KeyOf(table, k.uuid)
  {
    var where, cursor := UserFilter(user, status), CursorIn(token);
    var selected, rest := Selected(table, where, after, cursor), Rest(table, user, status, after, token);
    var p := FindPage(table, where, after, pageSize, cursor);
    PageIsInitialSegment(table, where, after, pageSize, cursor);
    RestIsSelected(table, user, status, after, token, selected);
    PageIsLeast(table, p.keys, selected, rest);
    if !p.hasMore { LastPageIsAll(table, p.keys, selected, rest); }
  }

  lemma ServesInFull(table: Table, user: nat, status: Option<FileStatus>, after: int, pageSize: nat, token: Token)
    requires !token.Garbled? && (token.Token? ==> token.cursor.status == status)
    ensures var r := GetFilesUpdatedAfter(table, user, status, after, pageSize, token);
            r.Served? && ServedInFull(table, user, status, after, pageSize, token, r)
  {
    PageServesRest(table, user, status, after, pageSize, token);
    var p := FindPage(table, UserFilter(user, status), after, pageSize, CursorIn(token));
    if p.keys != [] { LastPlace(table, p.keys, status); }
  }

  lemma FilesOfKeys(table: Table, keys: seq<Key>)
    requires forall k :: k in keys ==> k.uuid in table && k == KeyOf(table, k.uuid)
    ensures forall f :: f in RowsOf(table, keys) <==> f.0 in table && f.1 == table[f.0] && KeyOf(table, f.0) in keys
  {
    var files := RowsOf(table, keys);
    forall f | f in files ensures f.0 in table && f.1 == table[f.0] && KeyOf(table, f.0) in keys {
      var i :| 0 <= i < |files| && files[i] == f;
      assert keys[i] in keys;
    }
    forall f: (nat, Row) | f.0 in table && f.1 == table[f.0] && KeyOf(table, f.0) in keys ensures f in files {
      var i :| 0 <= i < |keys| && keys[i] == KeyOf(table, f.0);
      assert files[i] == f;
    }
  }

  // ----- The protocol ------------------------------------------------------------------------

  /** What a client asked for, and how much of it a page holds. */
  datatype Request = Request(user: nat, status: Option<FileStatus>, after: int, pageSize: nat)

  datatype Client = Client(replica: Table, token: Token, done: bool)

  /** `clock` is at or above every stamp so far; `gone` holds the uuids destroyed since the client started. */
  datatype Sys = Sys(table: Table, clock: int, gone: set<nat>, client: Client)

  datatype Event =
    | Read
    | Write(uuid: nat, row: Row)
    | Destroy(uuid: nat)

  /** The client stores what it is served and follows the cursor until there is none. */
  ghost function Receive(c: Client, served: SyncResult): Client {
    match served
    case Refused(_) => c.(done := true)
    case Served(files, hasMore, next) =>
      Client(Store(c.replica, files), if next.Some? then Token(next.value) else c.token, next.None?)
  }

  ghost function Store(replica: Table, files: seq<(nat, Row)>): Table
    decreases |files|
  {
    if files == [] then replica else Store(replica[files[0].0 := files[0].1], files[1..])
  }

  ghost function Next(q: Request, s: Sys, e: Event): Sys {
    match e
    case Read =>
      if s.client.done then s
      else
        var result := GetFilesUpdatedAfter(s.table, q.user, q.status, q.after, q.pageSize, s.client.token);
        s.(client := Receive(s.client, result))
    case Write(u, row) =>
      s.(table := s.table[u := row], clock := if row.updatedAt > s.clock then row.updatedAt else s.clock)
    case Destroy(u) => s.(table := s.table - {u}, gone := s.gone + {u})
  }

  /** The uuids the client is owed: the rows matching the request, stamped after its date. */
  predicate Owed(q: Request, table: Table, u: nat) {
    u in table && UserFilter(q.user, q.status)(table[u]) && q.after < table[u].updatedAt
  }

  ghost predicate AtOrBelow(k: Key, c: Key) { k == c || Less(k, c) }

  /** At or below its cursor, the client's replica is current. */
  ghost predicate CurrentUpTo(q: Request, s: Sys, c: Key) {
    forall u :: Owed(q, s.table, u) && AtOrBelow(KeyOf(s.table, u), c) ==>
      u in s.client.replica && s.client.replica[u] == s.table[u]
  }

  /**
   * Everything in the replica is a matching row not stamped before the date, or a destroyed one. The
   * date itself is only admitted because the cursor's stamp is rounded down.
   */
  ghost predicate NothingForeign(q: Request, s: Sys) {
    forall u :: u in s.client.replica && u !in s.gone ==>
      u in s.table && UserFilter(q.user, q.status)(s.table[u]) && q.after <= s.table[u].updatedAt
  }

  /** The client holds exactly what it is owed, row for row. */
  ghost predicate Synced(q: Request, s: Sys) {
    forall u :: Owed(q, s.table, u) ==> u in s.client.replica && s.client.replica[u] == s.table[u]
  }

  ghost predicate Inv(q: Request, s: Sys) {
    && (forall u :: u in s.table ==> s.table[u].updatedAt <= s.clock)
    && NothingForeign(q, s)
    && match s.client.token
       case NoToken => true
       case Garbled => false
       case Token(t) =>
         t.status == q.status && q.after <= t.key.stamp <= s.clock && CurrentUpTo(q, s, t.key)
  }

  /**
   * The condition, on the state before an event, under which it keeps what the client is promised. A written row
   * that the client holds still matches, with a stamp not before the date; and a matching row is stamped above the
   * cursor, unless the client has that very row. Nothing is asked of reads and destructions.
   */
  ghost predicate Harmless(q: Request, s: Sys, e: Event) {
    match e
    case Write(u, row) =>
      var matches := UserFilter(q.user, q.status)(row);
      && (u in s.client.replica && u !in s.gone ==> matches && q.after <= row.updatedAt)
      && (s.client.token.Token? && matches && q.after < row.updatedAt ==>
            || Less(s.client.token.cursor.key, Key(row.updatedAt, u))
            || (u in s.client.replica && s.client.replica[u] == row))
    case _ => true
  }

  /** A write that stamps above everything so far and moves no row in or out of the filter. */
  ghost predicate Orderly(q: Request, s: Sys, e: Event) {
    match e
    case Write(u, row) =>
      && s.clock < row.updatedAt
      && (u in s.table ==> UserFilter(q.user, q.status)(s.table[u]) == UserFilter(q.user, q.status)(row))
    case _ => true
  }

  lemma {:induction false} StoreLooksUp(replica: Table, files: seq<(nat, Row)>, table: Table)
    requires forall f :: f in files ==> f.0 in table && table[f.0] == f.1
    ensures var r := Store(replica, files);
            && (forall u :: u in r <==> u in replica || exists f :: f in files && f.0 == u)
            && (forall f :: f in files ==> r[f.0] == f.1)
            && (forall u :: u in r ==> (u in replica && r[u] == replica[u]) || (u in table && r[u] == table[u]))
            && (forall u :: u in r && u in replica && u in table && replica[u] == table[u] ==> r[u] == table[u])
            && (forall u :: u in replica && (forall f :: f in files ==> f.0 != u) ==> u in r && r[u] == replica[u])
    decreases |files|
  {
    if files != [] {
      StoreLooksUp(replica[files[0].0 := files[0].1], files[1..], table);
      var r := Store(replica, files);
      var r0 := replica[files[0].0 := files[0].1];
      assert files == [files[0]] + files[1..];
      forall u ensures u in r <==> u in replica || exists f :: f in files && f.0 == u {
        if u in r && u !in replica {
          if u == files[0].0 { assert files[0] in files; } else {
            assert u !in r0;
            var f :| f in files[1..] && f.0 == u;
            assert f in files;
          }
        }
        if exists f :: f in files && f.0 == u {
          var f :| f in files && f.0 == u;
          if f != files[0] { assert f in files[1..]; }
        }
      }
    }
  }

  ghost function CursorIn(token: Token): Option<Key> {
    if token.Token? then Some(token.cursor.key) else None
  }

  ghost function PageFor(q: Request, s: Sys): Page {
    FindPage(s.table, UserFilter(q.user, q.status), q.after, q.pageSize, CursorIn(s.client.token))
  }

  ghost function SelectedFor(q: Request, s: Sys): set<Key> {
    Selected(s.table, UserFilter(q.user, q.status), q.after, CursorIn(s.client.token))
  }

  /** What a read does when the token is in order: store the page and take its last key as the cursor. */
  ghost predicate Reads(q: Request, s: Sys, s': Sys) {
    var p := PageFor(q, s);
    && (forall k :: k in p.keys ==> k.uuid in s.table && k == KeyOf(s.table, k.uuid))
    && (p.hasMore ==> p.keys != [])
    && s' == s.(client := Client(
         Store(s.client.replica, RowsOf(s.table, p.keys)),
         if p.hasMore then Token(SyncCursor(CursorOf(p.keys[|p.keys| - 1]), q.status)) else s.client.token,
         !p.hasMore))
  }

  /** A page holds stored rows, and is not empty when there are more. */
  lemma PageFits(q: Request, s: Sys)
    requires q.pageSize >= 1
    ensures forall k :: k in PageFor(q, s).keys ==> k.uuid in s.table && k == KeyOf(s.table, k.uuid)
    ensures PageFor(q, s).hasMore ==> PageFor(q, s).keys != []
  {
    PageIsInitialSegment(s.table, UserFilter(q.user, q.status), q.after, q.pageSize, CursorIn(s.client.token));
  }

  lemma ServesPage(q: Request, s: Sys)
    requires TokenFits(q, s) && q.pageSize >= 1
    ensures forall k :: k in PageFor(q, s).keys ==> k.uuid in s.table
    ensures PageFor(q, s).hasMore ==> PageFor(q, s).keys != []
    ensures var p := PageFor(q, s);
            GetFilesUpdatedAfter(s.table, q.user, q.status, q.after, q.pageSize, s.client.token)
            == Served(RowsOf(s.table, p.keys), p.hasMore,
                      if p.hasMore then Some(SyncCursor(CursorOf(p.keys[|p.keys| - 1]), q.status)) else None)
  {
    PageFits(q, s);
  }

  lemma ReadReads(q: Request, s: Sys)
    requires TokenFits(q, s) && !s.client.done && q.pageSize >= 1
    ensures Reads(q, s, Next(q, s, Read))
  {
    PageFits(q, s);
    ServesPage(q, s);
  }

  /** Storing a page leaves the replica current wherever it was, and on every key of the page. */
  lemma PageIsStored(table: Table, keys: seq<Key>, replica: Table)
    requires forall k :: k in keys ==> k.uuid in table && k == KeyOf(table, k.uuid)
    ensures var r := Store(replica, RowsOf(table, keys));
            && (forall k :: k in keys ==> k.uuid in r && r[k.uuid] == table[k.uuid])
            && (forall u :: u in table && u in replica && replica[u] == table[u] ==> u in r && r[u] == table[u])
            && (forall u :: u in r && u !in replica ==> u in table && KeyOf(table, u) in keys)
            && (forall u :: u in table && u in replica && KeyOf(table, u) !in keys ==> u in r && r[u] == replica[u])
  {
    var files := RowsOf(table, keys);
    var r := Store(replica, files);
    assert forall f :: f in files ==> f.0 in table && table[f.0] == f.1;
    StoreLooksUp(replica, files, table);
    forall k | k in keys ensures k.uuid in r && r[k.uuid] == table[k.uuid] {
      var i :| 0 <= i < |keys| && keys[i] == k;
      assert files[i] in files;
    }
    forall u | u in r && u !in replica ensures u in table && KeyOf(table, u) in keys {
      var f :| f in files && f.0 == u;
      var i :| 0 <= i < |files| && files[i] == f;
      assert keys[i] in keys;
    }
  }

  lemma RoundingDown(after: int, k: Key)
    requires WholeMs(after) && after <= k.stamp
    ensures after <= CursorOf(k).stamp <= k.stamp
  {}

  lemma AtOrBelowRounded(a: Key, k: Key)
    requires AtOrBelow(a, CursorOf(k))
    ensures AtOrBelow(a, k)
  {}

  lemma ReadKeepsForeign(q: Request, s: Sys, s': Sys)
    requires Inv(q, s) && WholeMs(q.after) && Reads(q, s, s')
    ensures NothingForeign(q, s')
  {
    var p := PageFor(q, s);
    PageIsStored(s.table, p.keys, s.client.replica);
    PageIsInitialSegment(s.table, UserFilter(q.user, q.status), q.after, q.pageSize, CursorIn(s.client.token));
    forall u | u in s'.client.replica && u !in s'.gone
      ensures u in s.table && UserFilter(q.user, q.status)(s.table[u]) && q.after <= s.table[u].updatedAt
    {
      if u !in s.client.replica { assert KeyOf(s.table, u) in SelectedFor(q, s); }
    }
  }

  /** After a read every owed row that was on the page, or already behind the cursor, is current. */
  lemma ReadCovers(q: Request, s: Sys, s': Sys, u: nat)
    requires Inv(q, s) && Reads(q, s, s') && Owed(q, s.table, u)
    requires KeyOf(s.table, u) in PageFor(q, s).keys || KeyOf(s.table, u) !in SelectedFor(q, s)
    ensures u in s'.client.replica && s'.client.replica[u] == s.table[u]
  {
    UnselectedIsBehind(q, s, u);
    PageIsStored(s.table, PageFor(q, s).keys, s.client.replica);
  }

  lemma ReadToTheEnd(q: Request, s: Sys, s': Sys)
    requires Inv(q, s) && Reads(q, s, s') && s'.client.done
    ensures Synced(q, s')
  {
    PageIsInitialSegment(s.table, UserFilter(q.user, q.status), q.after, q.pageSize, CursorIn(s.client.token));
    forall u | Owed(q, s.table, u) ensures u in s'.client.replica && s'.client.replica[u] == s.table[u] {
      ReadCovers(q, s, s', u);
    }
  }

  lemma ReadOn(q: Request, s: Sys, s': Sys)
    requires Inv(q, s) && WholeMs(q.after) && Reads(q, s, s') && !s'.client.done
    ensures s'.client.token.Token? && q.after <= s'.client.token.cursor.key.stamp <= s.clock
    ensures CurrentUpTo(q, s', s'.client.token.cursor.key)
  {
    PageIsInitialSegment(s.table, UserFilter(q.user, q.status), q.after, q.pageSize, CursorIn(s.client.token));
    ReadMovesCursor(q, s, s');
    var last := Last(PageFor(q, s).keys);
    assert last in PageFor(q, s).keys && last in SelectedFor(q, s);
    RoundingDown(q.after, last);
    forall u | Owed(q, s.table, u) && AtOrBelow(KeyOf(s.table, u), CursorOf(last))
      ensures u in s'.client.replica && s'.client.replica[u] == s.table[u]
    {
      AtOrBelowRounded(KeyOf(s.table, u), last);
      ReadCovers(q, s, s', u);
    }
  }

  /** A read keeps the replica current, and finishes it when no more rows are left. */
  lemma ReadKeepsInv(q: Request, s: Sys, s': Sys)
    requires Inv(q, s) && WholeMs(q.after) && Reads(q, s, s')
    ensures Inv(q, s')
    ensures s'.client.done ==> Synced(q, s')
  {
    ReadKeepsForeign(q, s, s');
    if s'.client.done { ReadToTheEnd(q, s, s'); } else { ReadOn(q, s, s'); }
  }

  /** An owed row the page query skips lies at or below the cursor. */
  lemma UnselectedIsBehind(q: Request, s: Sys, u: nat)
    requires Owed(q, s.table, u) && !s.client.token.Garbled?
    ensures KeyOf(s.table, u) in SelectedFor(q, s) ||
            (CursorIn(s.client.token).Some? && AtOrBelow(KeyOf(s.table, u), CursorIn(s.client.token).value))
  {}

  lemma WriteKeepsInvIff(q: Request, s: Sys, u: nat, row: Row)
    requires Inv(q, s)
    ensures Inv(q, Next(q, s, Write(u, row))) <==> Harmless(q, s, Write(u, row))
  {
    var s' := Next(q, s, Write(u, row));
    assert s'.table[u] == row && s'.client == s.client && s'.gone == s.gone;
    if Inv(q, s') && s.client.token.Token? && Owed(q, s'.table, u) {
      assert CurrentUpTo(q, s', s.client.token.cursor.key);
    }
  }

  /** Each event keeps the promise if and only if it is harmless. */
  lemma EventKeepsInvIff(q: Request, s: Sys, e: Event)
    requires Inv(q, s) && WholeMs(q.after) && q.pageSize >= 1
    ensures Inv(q, Next(q, s, e)) <==> Harmless(q, s, e)
  {
    match e
    case Read => if !s.client.done { ReadReads(q, s); ReadKeepsInv(q, s, Next(q, s, Read)); }
    case Write(u, row) => WriteKeepsInvIff(q, s, u, row);
    case Destroy(u) =>
  }

  ghost function RunEvents(q: Request, s: Sys, events: seq<Event>): Sys
    decreases |events|
  {
    if events == [] then s else RunEvents(q, Next(q, s, events[0]), events[1..])
  }

  ghost predicate HarmlessRun(q: Request, s: Sys, events: seq<Event>)
    decreases |events|
  {
    events == [] || (Harmless(q, s, events[0]) && HarmlessRun(q, Next(q, s, events[0]), events[1..]))
  }

  ghost predicate OrderlyRun(q: Request, s: Sys, events: seq<Event>)
    decreases |events|
  {
    events == [] || (Orderly(q, s, events[0]) && OrderlyRun(q, Next(q, s, events[0]), events[1..]))
  }

  /** The promise holds in every state of a run. */
  ghost predicate KeptThroughout(q: Request, s: Sys, events: seq<Event>)
    decreases |events|
  {
    Inv(q, s) && (events == [] || KeptThroughout(q, Next(q, s, events[0]), events[1..]))
  }

  /** A run keeps the promise in every state if and only if every one of its writes is harmless. */
  lemma {:induction false} RunKeepsInvIff(q: Request, s: Sys, events: seq<Event>)
    requires Inv(q, s) && WholeMs(q.after) && q.pageSize >= 1
    ensures KeptThroughout(q, s, events) <==> HarmlessRun(q, s, events)
    ensures HarmlessRun(q, s, events) ==> Inv(q, RunEvents(q, s, events))
    decreases |events|
  {
    if events != [] {
      EventKeepsInvIff(q, s, events[0]);
      if Harmless(q, s, events[0]) {
        RunKeepsInvIff(q, Next(q, s, events[0]), events[1..]);
      }
    }
  }

  // ----- Which writes are harmless -----------------------------------------------------------

  lemma OrderlyIsHarmless(q: Request, s: Sys, e: Event)
    requires Inv(q, s) && Orderly(q, s, e)
    ensures Harmless(q, s, e)
  {}

  /** Strictly rising stamps that leave the filter's rows in it are enough. */
  lemma {:induction false} OrderlyRunIsHarmless(q: Request, s: Sys, events: seq<Event>)
    requires Inv(q, s) && WholeMs(q.after) && q.pageSize >= 1 && OrderlyRun(q, s, events)
    ensures HarmlessRun(q, s, events)
    decreases |events|
  {
    if events != [] {
      OrderlyIsHarmless(q, s, events[0]);
      EventKeepsInvIff(q, s, events[0]);
      OrderlyRunIsHarmless(q, Next(q, s, events[0]), events[1..]);
    }
  }

  /** The rows of one statement do not disturb each other: it is harmless exactly when each of its writes is. */
  lemma {:induction false} StatementIsHarmlessIff(q: Request, s: Sys, writes: seq<Event>)
    requires forall e :: e in writes ==> e.Write?
    ensures HarmlessRun(q, s, writes) <==> forall e :: e in writes ==> Harmless(q, s, e)
    decreases |writes|
  {
    if writes != [] {
      var s' := Next(q, s, writes[0]);
      assert writes[0] in writes && s'.client == s.client && s'.gone == s.gone;
      StatementIsHarmlessIff(q, s', writes[1..]);
      assert writes == [writes[0]] + writes[1..];
      forall e | e in writes[1..] ensures Harmless(q, s', e) <==> Harmless(q, s, e) { assert e in writes; }
    }
  }

  /** A statement may stamp any number of rows with one date, if that lies above every earlier stamp. */
  lemma SharedStampIsHarmless(q: Request, s: Sys, writes: seq<Event>, t: int)
    requires Inv(q, s) && s.clock < t
    requires forall e :: e in writes ==> e.Write? && e.row.updatedAt == t && Orderly(q, s, e)
    ensures HarmlessRun(q, s, writes)
  {
    forall e | e in writes ensures Harmless(q, s, e) { OrderlyIsHarmless(q, s, e); }
    StatementIsHarmlessIff(q, s, writes);
  }

  /** A row the client does not hold may enter the filter, or leave it, however it was stamped before. */
  lemma UnheldRowIsHarmless(q: Request, s: Sys, u: nat, row: Row)
    requires Inv(q, s) && u !in s.client.replica
    requires UserFilter(q.user, q.status)(row) ==> s.clock < row.updatedAt
    ensures Harmless(q, s, Write(u, row))
  {}

  ghost predicate Fresh(s: Sys) {
    && (forall u :: u in s.table ==> s.table[u].updatedAt <= s.clock)
    && s.gone == {} && s.client == Client(map[], NoToken, false)
  }

  /** The rows the client is owed, as a table. */
  function OwedRows(q: Request, table: Table): Table {
    map u | u in table && Owed(q, table, u) :: table[u]
  }

  /** With nothing destroyed and no row stamped on the request's very date, synced means equal. */
  lemma SyncedIsEqual(q: Request, s: Sys)
    requires Synced(q, s) && NothingForeign(q, s) && s.gone == {}
    requires forall u :: u in s.table ==> s.table[u].updatedAt != q.after
    ensures s.client.replica == OwedRows(q, s.table)
    ensures forall u :: u in s.client.replica <==>
              && u in s.table && s.table[u].user == q.user && (q.status.Some? ==> s.table[u].status == q.status.value)
              && q.after < s.table[u].updatedAt
    ensures forall u :: u in s.client.replica && u in s.table ==> s.client.replica[u] == s.table[u]
  {
    assert forall u :: u in s.client.replica ==> Owed(q, s.table, u);
  }

  /**
   * Synchronisation under concurrent writes: in any harmless run the replica is current at or below the
   * cursor at every step, and the read that finds no more rows leaves it owing nothing.
   */
  lemma SyncProtocol(q: Request, s0: Sys, events: seq<Event>)
    requires Fresh(s0) && WholeMs(q.after) && q.pageSize >= 1 && HarmlessRun(q, s0, events)
    ensures var s := RunEvents(q, s0, events);
            && (s.client.token.Token? ==> CurrentUpTo(q, s, s.client.token.cursor.key))
            && NothingForeign(q, s)
            && (!s.client.done && Next(q, s, Read).client.done ==>
                  Synced(q, Next(q, s, Read)) && NothingForeign(q, Next(q, s, Read)))
    ensures var s := RunEvents(q, s0, events);
            && HoldsOnlyAsked(q, s)
            && (s.client.token.Token? ==> HoldsAllTo(q, s, s.client.token.cursor.key))
            && (!s.client.done && Next(q, s, Read).client.done ==>
                  HoldsOnlyAsked(q, Next(q, s, Read)) && HoldsAll(q, Next(q, s, Read)))
  {
    RunKeepsInvIff(q, s0, events);
    var s := RunEvents(q, s0, events);
    HoldingIsLiteral(q, s);
    if !s.client.done {
      ReadReads(q, s);
      ReadKeepsInv(q, s, Next(q, s, Read));
      HoldingIsLiteral(q, Next(q, s, Read));
    }
  }

  /** Whatever the client holds, destroyed files apart, is a file of the user, of the status asked for. */
  ghost predicate HoldsOnlyAsked(q: Request, s: Sys) {
    forall u :: u in s.client.replica && u !in s.gone ==>
      && u in s.table && s.table[u].user == q.user && (q.status.Some? ==> s.table[u].status == q.status.value)
      && q.after <= s.table[u].updatedAt
  }

  /** The client holds, as it is, every file of the user and status changed after the date. */
  ghost predicate HoldsAll(q: Request, s: Sys) {
    forall u :: u in s.table && s.table[u].user == q.user && (q.status.Some? ==> s.table[u].status == q.status.value)
                && q.after < s.table[u].updatedAt ==>
      u in s.client.replica && s.client.replica[u] == s.table[u]
  }

  /** Likewise those stamped no later than the place, the uuid deciding between equal stamps. */
  ghost predicate HoldsAllTo(q: Request, s: Sys, place: Key) {
    forall u :: u in s.table && s.table[u].user == q.user && (q.status.Some? ==> s.table[u].status == q.status.value)
                && q.after < s.table[u].updatedAt
                && (s.table[u].updatedAt < place.stamp || (s.table[u].updatedAt == place.stamp && u <= place.uuid)) ==>
      u in s.client.replica && s.client.replica[u] == s.table[u]
  }

  lemma HoldingIsLiteral(q: Request, s: Sys)
    ensures NothingForeign(q, s) <==> HoldsOnlyAsked(q, s)
    ensures Synced(q, s) <==> HoldsAll(q, s)
    ensures forall place :: CurrentUpTo(q, s, place) <==> HoldsAllTo(q, s, place)
  {}

  /** Writes and destructions touch their row of the table alone, and the client not at all. */
  lemma WriterHasEffect(q: Request, s: Sys, e: Event)
    requires !e.Read?
    ensures var s' := Next(q, s, e);
            && s'.client == s.client && s'.table - {e.uuid} == s.table - {e.uuid}
            && (e.Write? ==> e.uuid in s'.table && s'.table[e.uuid] == e.row && s'.gone == s.gone)
            && (e.Destroy? ==> e.uuid !in s'.table && s'.gone == s.gone + {e.uuid})
  {}

  /** A read stores the files it is served over what the client held, and takes the place it is given. */
  lemma ReadHasEffect(q: Request, s: Sys, u: nat)
    requires TokenFits(q, s) && !s.client.done && q.pageSize >= 1
    ensures var r := GetFilesUpdatedAfter(s.table, q.user, q.status, q.after, q.pageSize, s.client.token);
            var s' := Next(q, s, Read);
            && r.Served? && s'.table == s.table && s'.gone == s.gone && (s'.client.done <==> !r.hasMore)
            && (r.hasMore ==> r.next.Some? && s'.client.token == Token(r.next.value))
            && (if exists f :: f in r.files && f.0 == u
                then u in s.table && u in s'.client.replica && s'.client.replica[u] == s.table[u]
                else (u in s'.client.replica <==> u in s.client.replica)
                     && (u in s.client.replica ==> s'.client.replica[u] == s.client.replica[u]))
  {
    ServesPage(q, s);
    PageFits(q, s);
    var files := RowsOf(s.table, PageFor(q, s).keys);
    FilesOfKeys(s.table, PageFor(q, s).keys);
    StoreLooksUp(s.client.replica, files, s.table);
  }

  /** So it is, in particular, when every write stamps strictly above all before it and respects the filter. */
  lemma SyncUnderRisingStamps(q: Request, s0: Sys, events: seq<Event>)
    requires Fresh(s0) && WholeMs(q.after) && q.pageSize >= 1 && OrderlyRun(q, s0, events)
    ensures HarmlessRun(q, s0, events) && KeptThroughout(q, s0, events)
  {
    OrderlyRunIsHarmless(q, s0, events);
    RunKeepsInvIff(q, s0, events);
  }

  // ----- Where the promise ends --------------------------------------------------------------

  /** A write behind the cursor is lost, and only such a write: the guard is the new key's place. */
  lemma WriteIsSeenIffAboveCursor(q: Request, s: Sys, u: nat, row: Row)
    requires Inv(q, s) && s.client.token.Token?
    requires UserFilter(q.user, q.status)(row) && q.after < row.updatedAt
    requires !(u in s.client.replica && s.client.replica[u] == row)
    ensures CurrentUpTo(q, Next(q, s, Write(u, row)), s.client.token.cursor.key)
            <==> Less(s.client.token.cursor.key, Key(row.updatedAt, u))
  {
    var s' := Next(q, s, Write(u, row));
    if !Less(s.client.token.cursor.key, Key(row.updatedAt, u)) {
      assert Owed(q, s'.table, u) && AtOrBelow(KeyOf(s'.table, u), s.client.token.cursor.key);
    }
  }

  ghost predicate TokenFits(q: Request, s: Sys) {
    !s.client.token.Garbled? && (s.client.token.Token? ==> s.client.token.cursor.status == q.status)
  }

  lemma ReadSkipsUnmatched(q: Request, s: Sys, u: nat)
    requires TokenFits(q, s) && q.pageSize >= 1
    requires u in s.table && !UserFilter(q.user, q.status)(s.table[u]) && u in s.client.replica
    ensures TokenFits(q, Next(q, s, Read))
    ensures var r := Next(q, s, Read).client.replica; u in r && r[u] == s.client.replica[u]
  {
    if !s.client.done {
      ReadReads(q, s);
      PageIsInitialSegment(s.table, UserFilter(q.user, q.status), q.after, q.pageSize, CursorIn(s.client.token));
      PageIsStored(s.table, PageFor(q, s).keys, s.client.replica);
    }
  }

  lemma {:induction false} UnmatchedIsNeverCorrected(q: Request, s: Sys, u: nat, events: seq<Event>)
    requires TokenFits(q, s) && q.pageSize >= 1
    requires u in s.table && !UserFilter(q.user, q.status)(s.table[u]) && u in s.client.replica
    requires forall e :: e in events ==> !(e.Write? && e.uuid == u) && !(e.Destroy? && e.uuid == u)
    ensures var s' := RunEvents(q, s, events);
            && u in s'.client.replica && s'.client.replica[u] == s.client.replica[u]
            && u in s'.table && s'.table[u] == s.table[u]
    decreases |events|
  {
    if events != [] {
      assert events[0] in events;
      if events[0].Read? { ReadSkipsUnmatched(q, s, u); }
      UnmatchedIsNeverCorrected(q, Next(q, s, events[0]), u, events[1..]);
    }
  }

  /**
   * Under a status filter a write can move a row out of the filter, however late its stamp. The copy
   * the client already holds then stays as it was for the rest of the run.
   */
  lemma EscapedRowStaysStale(q: Request, s: Sys, u: nat, row: Row, events: seq<Event>)
    requires TokenFits(q, s) && q.pageSize >= 1 && u in s.client.replica
    requires q.status.Some? && row.status != q.status.value
    requires forall e :: e in events ==> !(e.Write? && e.uuid == u) && !(e.Destroy? && e.uuid == u)
    ensures var s' := RunEvents(q, s, [Write(u, row)] + events);
            && u in s'.table && s'.table[u] == row
            && u in s'.client.replica && s'.client.replica[u] == s.client.replica[u]
  {
    assert ([Write(u, row)] + events)[1..] == events;
    UnmatchedIsNeverCorrected(q, Next(q, s, Write(u, row)), u, events);
  }

  /** A table of one row, and a client that has not read yet. */
  function LoneRow(u: nat, row: Row): Sys {
    Sys(map[u := row], row.updatedAt, {}, Client(map[], NoToken, false))
  }

  lemma LoneRowIsRead(q: Request, u: nat, row: Row)
    requires q.pageSize >= 1 && UserFilter(q.user, q.status)(row) && q.after < row.updatedAt
    ensures var s := Next(q, LoneRow(u, row), Read);
            s.table == map[u := row] && s.gone == {} && u in s.client.replica && s.client.replica[u] == row
  {
    var s0, k := LoneRow(u, row), Key(row.updatedAt, u);
    var where := UserFilter(q.user, q.status);
    ReadReads(q, s0);
    PageIsInitialSegment(s0.table, where, q.after, q.pageSize, None);
    var keys := PageFor(q, s0).keys;
    assert Selected(s0.table, where, q.after, None) == {k};
    assert k in keys;
    PageIsStored(s0.table, keys, s0.client.replica);
  }

  /** That input occurs: a client of a status filter reads a row, which is then trashed, restored or deleted. */
  lemma EscapeIsReachable(q: Request, u: nat, row: Row, later: Row)
    requires q.pageSize >= 1 && UserFilter(q.user, q.status)(row) && q.after < row.updatedAt < later.updatedAt
    requires q.status.Some? && later.status != q.status.value
    ensures Fresh(LoneRow(u, row)) && !HarmlessRun(q, LoneRow(u, row), [Read, Write(u, later)])
    ensures var s := RunEvents(q, LoneRow(u, row), [Read, Write(u, later)]);
            && u in s.table && s.table[u] == later
            && u in s.client.replica && s.client.replica[u] == row && !NothingForeign(q, s)
  {
    LoneRowIsRead(q, u, row);
    var s1 := Next(q, LoneRow(u, row), Read);
    assert [Read, Write(u, later)][1..] == [Write(u, later)] && [Write(u, later)][1..] == [];
    assert RunEvents(q, LoneRow(u, row), [Read, Write(u, later)]) == RunEvents(q, s1, [Write(u, later)]);
    var s2 := Next(q, s1, Write(u, later));
    assert RunEvents(q, s1, [Write(u, later)]) == RunEvents(q, s2, []) == s2;
    assert !Harmless(q, s1, Write(u, later));
  }

  // ----- Paging over a table that stands still -----------------------------------------------

  /** Every matching stamp is a whole millisecond, as those written from a JavaScript date are. */
  ghost predicate OnGrid(table: Table, where: Where) {
    forall u :: u in table && where(table[u]) ==> WholeMs(table[u].updatedAt)
  }

  lemma LastIsOwnCursor(table: Table, where: Where, after: int, cursor: Option<Key>, k: Key)
    requires OnGrid(table, where) && k in Selected(table, where, after, cursor)
    ensures CursorOf(k) == k
  {}

  lemma {:induction false} BelowLast(keys: seq<Key>, k: Key)
    requires Ascending(keys) && k in keys
    ensures !Less(keys[|keys| - 1], k)
  {
    var i :| 0 <= i < |keys| && keys[i] == k;
  }

  /** Beyond a page's last key lies what the page left over; the date test is no longer needed. */
  lemma BeyondLast(table: Table, where: Where, after: int, cursor: Option<Key>, keys: seq<Key>, k: Key)
    requires Ascending(keys) && keys != [] && forall x :: x in keys ==> x in Selected(table, where, after, cursor)
    requires forall x :: x in Selected(table, where, after, cursor) && x !in keys ==> Less(keys[|keys| - 1], x)
    ensures k in Selected(table, where, after, Some(keys[|keys| - 1]))
            <==> k in Selected(table, where, after, cursor) && k !in keys
  {
    assert keys[|keys| - 1] in Selected(table, where, after, cursor);
    if k in keys { BelowLast(keys, k); }
  }

  lemma NextPageStartsAfterLast(table: Table, where: Where, after: int, pageSize: nat, cursor: Option<Key>)
    requires OnGrid(table, where) && pageSize >= 1 && FindPage(table, where, after, pageSize, cursor).hasMore
    ensures var p := FindPage(table, where, after, pageSize, cursor);
            var last := p.keys[|p.keys| - 1];
            && CursorOf(last) == last
            && Selected(table, where, after, Some(last)) == Selected(table, where, after, cursor) - SetOf(p.keys)
            && Selected(table, where, after, Some(last)) < Selected(table, where, after, cursor)
  {
    PageIsInitialSegment(table, where, after, pageSize, cursor);
    var keys := FindPage(table, where, after, pageSize, cursor).keys;
    var selected := Selected(table, where, after, cursor);
    var last := keys[|keys| - 1];
    assert last in selected;
    LastIsOwnCursor(table, where, after, cursor, last);
    forall k { BeyondLast(table, where, after, cursor, keys, k); }
    assert last !in Selected(table, where, after, Some(last));
  }

  /** The keys of all pages, one after another. */
  ghost function AllPages(table: Table, where: Where, after: int, pageSize: nat, cursor: Option<Key>): seq<Key>
    requires OnGrid(table, where) && pageSize >= 1
    decreases Selected(table, where, after, cursor)
  {
    var p := FindPage(table, where, after, pageSize, cursor);
    if !p.hasMore then p.keys
    else
      NextPageStartsAfterLast(table, where, after, pageSize, cursor);
      p.keys + AllPages(table, where, after, pageSize, Some(CursorOf(p.keys[|p.keys| - 1])))
  }

  lemma TailMembers(sorted: seq<Key>, n: nat, k: Key)
    requires Ascending(sorted) && n <= |sorted|
    ensures k in sorted[n..] <==> k in sorted && k !in sorted[..n]
  {
    assert sorted == sorted[..n] + sorted[n..];
  }

  lemma SplitsInto(sorted: seq<Key>, n: nat, tail: seq<Key>)
    requires Ascending(sorted) && Ascending(tail) && n <= |sorted|
    requires forall k :: k in tail <==> k in sorted && k !in sorted[..n]
    ensures sorted == sorted[..n] + tail
  {
    forall k ensures k in sorted[n..] <==> k in tail { TailMembers(sorted, n, k); }
    SameMembersSameLength(sorted[n..], tail);
    AscendingIsUnique(sorted[n..], tail);
    assert sorted == sorted[..n] + sorted[n..];
  }

  lemma OrderBySplits(ks: set<Key>, n: nat, rest: set<Key>)
    requires n <= |ks| && rest == ks - SetOf(OrderBy(ks)[..n])
    ensures OrderBy(ks) == OrderBy(ks)[..n] + OrderBy(rest)
  {
    SplitsInto(OrderBy(ks), n, OrderBy(rest));
  }

  lemma SameMembersSameLength(a: seq<Key>, b: seq<Key>)
    requires Ascending(a) && Ascending(b)
    requires forall k :: k in a <==> k in b
    ensures |a| == |b|
  {
    SetOfSize(a);
    SetOfSize(b);
    assert SetOf(a) == SetOf(b);
  }

  /** Concatenated, the pages are exactly the matching rows in order, each once, whatever the page size. */
  lemma {:induction false} PagesAreTheOrderedRows(table: Table, where: Where, after: int, pageSize: nat,
                                                  cursor: Option<Key>)
    requires OnGrid(table, where) && pageSize >= 1
    ensures AllPages(table, where, after, pageSize, cursor) == OrderBy(Selected(table, where, after, cursor))
    decreases Selected(table, where, after, cursor)
  {
    var p := FindPage(table, where, after, pageSize, cursor);
    LimitKeepsInitialSegment(OrderBy(Selected(table, where, after, cursor)), pageSize);
    if p.hasMore {
      NextPageStartsAfterLast(table, where, after, pageSize, cursor);
      var last := p.keys[|p.keys| - 1];
      PagesAreTheOrderedRows(table, where, after, pageSize, Some(last));
      OrderBySplits(Selected(table, where, after, cursor), pageSize, Selected(table, where, after, Some(last)));
    }
  }

  ghost function ReadMany(q: Request, s: Sys, n: nat): Sys
    decreases n
  {
    if n == 0 then s else ReadMany(q, Next(q, s, Read), n - 1)
  }

  ghost predicate Finishes(q: Request, s: Sys) {
    exists n: nat :: ReadMany(q, s, n).client.done
  }

  lemma FinishesLater(q: Request, s: Sys)
    requires Finishes(q, Next(q, s, Read))
    ensures Finishes(q, s)
  {
    var n: nat :| ReadMany(q, Next(q, s, Read), n).client.done;
    assert ReadMany(q, s, n + 1).client.done;
  }

  function RoundedDown(t: int): int { t - t % MS }

  /** The matching rows stamped within one millisecond. */
  ghost function Within(table: Table, where: Where, ms: int): set<Key> {
    set u | u in table && where(table[u]) && RoundedDown(table[u].updatedAt) == ms :: KeyOf(table, u)
  }

  /** Every millisecond that holds a finer stamp holds fewer matching rows than a page does. */
  ghost predicate Sparse(table: Table, where: Where, pageSize: nat) {
    forall u :: u in table && where(table[u]) && !WholeMs(table[u].updatedAt) ==>
      |Within(table, where, RoundedDown(table[u].updatedAt))| < pageSize
  }

  ghost function Last(keys: seq<Key>): Key
    requires keys != []
  {
    keys[|keys| - 1]
  }

  /** More keys than lie in the last one's millisecond begin in an earlier one. */
  lemma KeysSpan(keys: seq<Key>, here: set<Key>) returns (k: Key)
    requires Ascending(keys) && |keys| > |here|
    requires forall x :: x in keys && RoundedDown(x.stamp) == RoundedDown(Last(keys).stamp) ==> x in here
    ensures k in keys && RoundedDown(k.stamp) < RoundedDown(Last(keys).stamp)
  {
    SetOfSize(keys);
    if SetOf(keys) <= here {
      SubsetSize(SetOf(keys), here);
      assert false;
    }
    k :| k in SetOf(keys) && k !in here;
    BelowLast(keys, k);
    RoundingKeepsOrder(k.stamp, Last(keys).stamp);
  }

  lemma RoundingKeepsOrder(a: int, b: int)
    requires a <= b
    ensures RoundedDown(a) <= RoundedDown(b)
  {}

  /** The rounded cursor is behind a key passed over, and not behind the one it replaces. */
  lemma CursorMovesUp(cursor: Key, last: Key, passed: Key)
    requires WholeMs(cursor.stamp) && Less(cursor, last) && Less(cursor, passed)
    requires if WholeMs(last.stamp) then passed == last else RoundedDown(passed.stamp) < RoundedDown(last.stamp)
    ensures !Less(CursorOf(last), passed) && Less(cursor, CursorOf(last))
  {
    assert CursorOf(last).stamp == RoundedDown(last.stamp);
    RoundingKeepsOrder(cursor.stamp, last.stamp);
    RoundingKeepsOrder(cursor.stamp, passed.stamp);
    assert RoundedDown(cursor.stamp) == cursor.stamp;
  }

  /** From a cursor on a whole millisecond each full page moves the cursor up, past at least one row of it. */
  lemma PageAdvances(table: Table, where: Where, after: int, cursor: Key, keys: seq<Key>)
    requires Ascending(keys) && keys != [] && WholeMs(cursor.stamp) && Sparse(table, where, |keys|)
    requires forall k :: k in keys ==> k in Selected(table, where, after, Some(cursor))
    ensures Selected(table, where, after, Some(CursorOf(Last(keys)))) < Selected(table, where, after, Some(cursor))
  {
    var last := Last(keys);
    assert last in keys;
    var passed := last;
    if !WholeMs(last.stamp) {
      var here := Within(table, where, RoundedDown(last.stamp));
      forall x | x in keys && RoundedDown(x.stamp) == RoundedDown(last.stamp) ensures x in here {
        assert x in Selected(table, where, after, Some(cursor));
      }
      passed := KeysSpan(keys, here);
    }
    assert passed in Selected(table, where, after, Some(cursor));
    CursorMovesUp(cursor, last, passed);
    HigherCursorSelectsLess(table, where, after, cursor, CursorOf(last));
    assert passed !in Selected(table, where, after, Some(CursorOf(last)));
  }

  lemma HigherCursorSelectsLess(table: Table, where: Where, after: int, low: Key, high: Key)
    requires Less(low, high)
    ensures Selected(table, where, after, Some(high)) <= Selected(table, where, after, Some(low))
  {}

  /** A token the server has issued: its stamp is a whole millisecond. */
  ghost predicate Issued(token: Token) {
    token.Token? && WholeMs(token.cursor.key.stamp)
  }

  lemma ReadMovesCursor(q: Request, s: Sys, s': Sys)
    requires Reads(q, s, s') && !s'.client.done
    ensures TokenFits(q, s') && s'.table == s.table && PageFor(q, s).hasMore && PageFor(q, s).keys != []
    ensures Issued(s'.client.token) && CursorIn(s'.client.token) == Some(CursorOf(Last(PageFor(q, s).keys)))
  {
    var p := PageFor(q, s);
    assert p.hasMore && s'.client.token == Token(SyncCursor(CursorOf(Last(p.keys)), q.status));
    CursorIsWhole(Last(p.keys));
  }

  lemma CursorIsWhole(k: Key)
    ensures WholeMs(CursorOf(k).stamp)
  {}

  lemma ReadAdvances(q: Request, s: Sys, s': Sys)
    requires TokenFits(q, s) && Issued(s.client.token)
    requires Reads(q, s, s') && !s'.client.done && Sparse(s.table, UserFilter(q.user, q.status), q.pageSize)
    ensures SelectedFor(q, s') < SelectedFor(q, s)
  {
    var where, cursor := UserFilter(q.user, q.status), CursorIn(s.client.token);
    ReadMovesCursor(q, s, s');
    PageIsInitialSegment(s.table, where, q.after, q.pageSize, cursor);
    PageAdvances(s.table, where, q.after, cursor.value, PageFor(q, s).keys);
  }

  /**
   * Over a table that stands still reading comes to an end, if every millisecond with a finer stamp in it has
   * fewer matching rows than a page: always, when all stamps are whole milliseconds.
   */
  lemma {:induction false} ReadingFinishes(q: Request, s: Sys)
    requires TokenFits(q, s) && q.pageSize >= 1 && Sparse(s.table, UserFilter(q.user, q.status), q.pageSize)
    ensures Finishes(q, s)
    decreases !Issued(s.client.token), SelectedFor(q, s), 1
  {
    if s.client.done {
      assert ReadMany(q, s, 0).client.done;
    } else {
      ReadReads(q, s);
      ReadingFinishesFrom(q, s, Next(q, s, Read));
      FinishesLater(q, s);
    }
  }

  lemma {:induction false} ReadingFinishesFrom(q: Request, s: Sys, s': Sys)
    requires TokenFits(q, s) && Reads(q, s, s') && q.pageSize >= 1
    requires Sparse(s.table, UserFilter(q.user, q.status), q.pageSize)
    ensures Finishes(q, s')
    decreases !Issued(s.client.token), SelectedFor(q, s), 0
  {
    if s'.client.done {
      assert ReadMany(q, s', 0).client.done;
    } else {
      ReadMovesCursor(q, s, s');
      if Issued(s.client.token) { ReadAdvances(q, s, s'); }
      ReadingFinishes(q, s');
    }
  }

  /** All matching rows carry one stamp, as the rows of one bulk UPDATE do. */
  ghost predicate BulkStamped(q: Request, table: Table, t: int) {
    forall u :: u in table && UserFilter(q.user, q.status)(table[u]) ==> table[u].updatedAt == t
  }

  /** The matching rows stamped after an instant. */
  ghost function StampedAfter(table: Table, where: Where, t: int): (ks: set<Key>)
    ensures forall k :: k in ks <==> k.uuid in table && k == KeyOf(table, k.uuid) && where(table[k.uuid]) && t < k.stamp
  {
    set u | u in table && where(table[u]) && t < table[u].updatedAt :: KeyOf(table, u)
  }

  /** Those of them within the millisecond that starts at the instant. */
  ghost function Finer(table: Table, where: Where, ms: int): set<Key> {
    set k | k in StampedAfter(table, where, ms) && RoundedDown(k.stamp) == ms
  }

  /** A millisecond with a page of finer stamps in it, and more than a page of rows from there on. */
  ghost predicate Dense(table: Table, where: Where, pageSize: nat, ms: int) {
    |Finer(table, where, ms)| >= pageSize && |StampedAfter(table, where, ms)| > pageSize
  }

  /** The client is reading, and has not passed the millisecond. */
  ghost predicate Before(q: Request, table: Table, client: Client, ms: int) {
    var where, cursor := UserFilter(q.user, q.status), CursorIn(client.token);
    && !client.done && !client.token.Garbled? && (client.token.Token? ==> client.token.cursor.status == q.status)
    && if cursor.Some? then cursor.value.stamp <= ms
       else StampedAfter(table, where, ms) <= Selected(table, where, q.after, None)
  }

  /** A page of the least selected keys that leaves some over cannot reach past a page of finer ones. */
  lemma DensePageStays(keys: seq<Key>, selected: set<Key>, finer: set<Key>, ms: int)
    requires Ascending(keys) && keys != [] && |finer| >= |keys| && finer <= selected
    requires forall k :: k in finer ==> RoundedDown(k.stamp) == ms
    requires forall k :: k in selected && k !in keys ==> Less(Last(keys), k)
    ensures RoundedDown(Last(keys).stamp) <= ms
  {
    var last := Last(keys);
    if RoundedDown(last.stamp) > ms {
      forall k | k in finer ensures k in SetOf(keys) - {last} {
        if k.stamp >= last.stamp { RoundingKeepsOrder(last.stamp, k.stamp); }
      }
      SetOfSize(keys);
      assert last in SetOf(keys);
      SubsetSize(finer, SetOf(keys) - {last});
    }
  }

  lemma DenseReadStays(q: Request, s: Sys, s': Sys, ms: int)
    requires Dense(s.table, UserFilter(q.user, q.status), q.pageSize, ms) && q.pageSize >= 1
    requires Before(q, s.table, s.client, ms) && Reads(q, s, s')
    ensures s'.table == s.table && Before(q, s.table, s'.client, ms)
  {
    var where := UserFilter(q.user, q.status);
    PageIsInitialSegment(s.table, where, q.after, q.pageSize, CursorIn(s.client.token));
    var selected, onward := SelectedFor(q, s), StampedAfter(s.table, where, ms);
    assert onward <= selected;
    SubsetSize(onward, selected);
    assert PageFor(q, s).hasMore;
    ReadMovesCursor(q, s, s');
    DensePageStays(PageFor(q, s).keys, selected, Finer(s.table, where, ms), ms);
  }

  lemma DenseNextStays(q: Request, s: Sys, ms: int)
    requires Dense(s.table, UserFilter(q.user, q.status), q.pageSize, ms) && q.pageSize >= 1
    requires Before(q, s.table, s.client, ms)
    ensures Next(q, s, Read).table == s.table && Before(q, s.table, Next(q, s, Read).client, ms)
  {
    ReadReads(q, s);
    DenseReadStays(q, s, Next(q, s, Read), ms);
  }

  lemma {:induction false} ReadManyKeeps(q: Request, s: Sys, n: nat, keeps: Sys -> bool)
    requires keeps(s) && forall x :: keeps(x) ==> keeps(Next(q, x, Read))
    ensures keeps(ReadMany(q, s, n))
    decreases n
  {
    if n > 0 { ReadManyKeeps(q, Next(q, s, Read), n - 1, keeps); }
  }

  /** A client that comes to a dense millisecond reads for ever, on any table that stands still. */
  lemma DenseNeverFinishes(q: Request, s: Sys, ms: int)
    requires Dense(s.table, UserFilter(q.user, q.status), q.pageSize, ms) && q.pageSize >= 1
    requires Before(q, s.table, s.client, ms)
    ensures !Finishes(q, s)
  {
    var keeps := (x: Sys) => x.table == s.table && Before(q, s.table, x.client, ms);
    forall x | keeps(x) ensures keeps(Next(q, x, Read)) { DenseNextStays(q, x, ms); }
    forall n: nat ensures !ReadMany(q, s, n).client.done { ReadManyKeeps(q, s, n, keeps); }
  }

  /**
   * The cursor's resolution matters: over rows stamped together by one database clock reading, a
   * client finishes exactly when that stamp is a whole millisecond or the rows fit in one page.
   */
  lemma BulkFinishesIff(q: Request, s: Sys, t: int)
    requires BulkStamped(q, s.table, t) && q.after < t && q.pageSize >= 1
    requires s.client.token == NoToken && !s.client.done
    ensures Finishes(q, s) <==> WholeMs(t) || |SelectedFor(q, s)| <= q.pageSize
  {
    if WholeMs(t) {
      ReadingFinishes(q, s);
    } else if |SelectedFor(q, s)| <= q.pageSize {
      ReadReads(q, s);
      PageIsInitialSegment(s.table, UserFilter(q.user, q.status), q.after, q.pageSize, None);
      assert ReadMany(q, Next(q, s, Read), 0).client.done;
      FinishesLater(q, s);
    } else {
      var where, ms := UserFilter(q.user, q.status), RoundedDown(t);
      assert StampedAfter(s.table, where, ms) == SelectedFor(q, s) == Finer(s.table, where, ms);
      DenseNeverFinishes(q, s, ms);
    }
  }
}
