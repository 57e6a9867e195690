/**
 * The migration that renames duplicate file names before the unique index is created. Rows are held
 * in ascending id order, so ORDER BY id is table order.
 */
module RenameDuplicates {
  import opened FileDomain
  import opened Sums

  datatype Row = Row(id: nat, plainName: Option<string>, fileType: Option<string>, folderId: Option<int>,
                     userId: Option<int>, status: FileStatus)

  /** GROUP BY plain_name, COALESCE(type, ''), folder_id, user_id: nulls group together. */
  datatype Key = Key(name: string, fileType: string, folderId: Option<int>, userId: Option<int>)

  predicate Candidate(r: Row) { r.status == Exists && r.plainName.Some? }

  function Coalesce(s: Option<string>): string {
    match s case Some(v) => v case None => ""
  }

  function KeyOf(r: Row): Key
    requires Candidate(r)
  {
    Key(r.plainName.value, Coalesce(r.fileType), r.folderId, r.userId)
  }

  predicate SameKey(a: Row, b: Row) {
    Candidate(a) && Candidate(b) && KeyOf(a) == KeyOf(b)
  }

  /** The SQL `=`: never true of a null. */
  predicate SqlEq<T(==)>(a: Option<T>, b: Option<T>) { a.Some? && b.Some? && a == b }

  predicate SamePlace(r: Row, key: Key) {
    r.status == Exists && SqlEq(r.folderId, key.folderId) && SqlEq(r.userId, key.userId)
  }

  /** The WHERE of the inner query. */
  predicate Matches(r: Row, key: Key) {
    SamePlace(r, key) && r.plainName == Some(key.name) && Coalesce(r.fileType) == key.fileType
  }

  predicate Keyed(key: Key) { key.folderId.Some? && key.userId.Some? }

  // ----- The suffixed names ------------------------------------------------------------------

  function Digit(d: nat): char
    requires d < 10
  {
    ('0' as int + d) as char
  }

  function Digits(n: nat): string {
    if n < 10 then [Digit(n)] else Digits(n / 10) + [Digit(n % 10)]
  }

  function NumberOf(s: string): int {
    if s == "" then 0 else NumberOf(s[..|s| - 1]) * 10 + (s[|s| - 1] as int - '0' as int)
  }

  lemma {:induction false} DigitsDenote(n: nat)
    ensures NumberOf(Digits(n)) == n
  {
    if n < 10 {
      assert [Digit(n)][..0] == "";
    } else {
      DigitsDenote(n / 10);
      assert Digits(n)[..|Digits(n)| - 1] == Digits(n / 10);
    }
  }

  /** They are decimal digits, and only 0 begins with '0'. */
  lemma {:induction false} DigitsAreDecimal(n: nat)
    ensures Digits(n) != "" && forall i :: 0 <= i < |Digits(n)| ==> '0' <= Digits(n)[i] <= '9'
    ensures n > 0 ==> Digits(n)[0] != '0'
  {
    if n >= 10 { DigitsAreDecimal(n / 10); }
  }

  function Suffixed(name: string, suffix: nat): string {
    name + " (" + Digits(suffix) + ")"
  }

  lemma SuffixesDiffer(name: string, a: nat, b: nat)
    requires Suffixed(name, a) == Suffixed(name, b)
    ensures a == b
  {
    assert Suffixed(name, a)[|name| + 2..|Suffixed(name, a)| - 1] == Digits(a);
    assert Suffixed(name, b)[|name| + 2..|Suffixed(name, b)| - 1] == Digits(b);
    DigitsDenote(a);
    DigitsDenote(b);
  }

  predicate Taken(rows: seq<Row>, name: string, key: Key) {
    exists i :: 0 <= i < |rows| && SamePlace(rows[i], key) && rows[i].plainName == Some(name)
  }

  ghost predicate SuffixedFrom(plainName: Option<string>, base: string, suffix: nat) {
    exists k: nat :: k >= suffix && plainName == Some(Suffixed(base, k))
  }

  /** The rows that can still make a suffix taken; each taken suffix uses one up. */
  ghost function Blockers(rows: seq<Row>, key: Key, suffix: nat): set<int> {
    set i | 0 <= i < |rows| && SamePlace(rows[i], key) && SuffixedFrom(rows[i].plainName, key.name, suffix)
  }

  lemma TakenUsesUpABlocker(rows: seq<Row>, key: Key, suffix: nat)
    requires Taken(rows, Suffixed(key.name, suffix), key)
    ensures Blockers(rows, key, suffix + 1) < Blockers(rows, key, suffix)
  {
    var i :| 0 <= i < |rows| && SamePlace(rows[i], key) && rows[i].plainName == Some(Suffixed(key.name, suffix));
    assert SuffixedFrom(rows[i].plainName, key.name, suffix);
    assert i in Blockers(rows, key, suffix);
    if i in Blockers(rows, key, suffix + 1) {
      var k: nat :| k >= suffix + 1 && rows[i].plainName == Some(Suffixed(key.name, k));
      SuffixesDiffer(key.name, suffix, k);
    }
    forall j | j in Blockers(rows, key, suffix + 1) ensures j in Blockers(rows, key, suffix) {
      var k: nat :| k >= suffix + 1 && rows[j].plainName == Some(Suffixed(key.name, k));
      assert k >= suffix;
    }
  }

  // ----- The groups --------------------------------------------------------------------------

  /** The inner query: the matching rows in id order. */
  function Members(rows: seq<Row>, key: Key): (m: seq<nat>)
    ensures forall i, j :: 0 <= i < j < |m| ==> m[i] < m[j]
    ensures forall i: nat :: i in m <==> i < |rows| && Matches(rows[i], key)
  {
    MembersFrom(rows, key, |rows|)
  }

  function MembersFrom(rows: seq<Row>, key: Key, n: nat): (m: seq<nat>)
    requires n <= |rows|
    ensures forall i, j :: 0 <= i < j < |m| ==> m[i] < m[j]
    ensures forall i: nat :: i in m <==> i < n && Matches(rows[i], key)
  {
    if n == 0 then []
    else
      var rest := MembersFrom(rows, key, n - 1);
      assert forall i :: 0 <= i < |rest| ==> rest[i] in rest;
      rest + if Matches(rows[n - 1], key) then [n - 1] else []
  }

  /** A row whose key an earlier row already has. */
  predicate LaterDuplicate(rows: seq<Row>, i: nat) {
    i < |rows| && exists j :: 0 <= j < i && SameKey(rows[j], rows[i])
  }

  ghost predicate Repeated(rows: seq<Row>, key: Key) {
    exists i: nat :: LaterDuplicate(rows, i) && KeyOf(rows[i]) == key
  }

  /** The outer query's answer, in any order: each repeated key once. */
  ghost predicate ListsDuplicates(rows: seq<Row>, groups: seq<Key>) {
    && (forall i, j :: 0 <= i < j < |groups| ==> groups[i] != groups[j])
    && (forall key :: key in groups <==> Repeated(rows, key))
  }

  /** A group's share of the count: one less than its size, nothing for a group no row can match. */
  function Excess(rows: seq<Row>): Key -> int {
    (key: Key) => if Members(rows, key) == [] then 0 else |Members(rows, key)| - 1
  }

  // ----- What the migration has done so far --------------------------------------------------

  /** The name with a number from 2 on after it, in parentheses. */
  ghost predicate Numbered(name: string, base: string) {
    exists k: nat :: k >= 2 && name == base + " (" + Digits(k) + ")"
  }

  /** Only names changed, to numbered ones, and exactly the names of the rows in `done`. */
  ghost predicate RenamedExactly(before: seq<Row>, rows: seq<Row>, done: set<nat>) {
    && |rows| == |before|
    && forall i: nat :: i < |rows| ==>
         && rows[i] == before[i].(plainName := rows[i].plainName)
         && (i in done ==> Candidate(rows[i]) && Candidate(before[i]))
         && (i in done ==> Numbered(rows[i].plainName.value, before[i].plainName.value))
         && (rows[i].plainName != before[i].plainName <==> i in done)
  }

  /** A new name is the only one of its kind among the live files of its folder and user. */
  ghost predicate NewNamesFresh(rows: seq<Row>, done: set<nat>) {
    forall i: nat, j: nat :: i < |rows| && j < |rows| && i != j && i in done && rows[j].status == Exists
                             && SqlEq(rows[i].folderId, rows[j].folderId) && SqlEq(rows[i].userId, rows[j].userId) ==>
      rows[i].plainName != rows[j].plainName
  }

  ghost predicate Progress(before: seq<Row>, rows: seq<Row>, done: set<nat>) {
    RenamedExactly(before, rows, done) && NewNamesFresh(rows, done)
  }

  /** The rows to be renamed once the keys in `handled` are dealt with. */
  ghost function Due(before: seq<Row>, handled: set<Key>): set<nat> {
    set i | 0 <= i < |before| && LaterDuplicate(before, i) && Keyed(KeyOf(before[i])) && KeyOf(before[i]) in handled
  }

  /** Renaming a row to a free name is one more step of progress. */
  lemma RenameStep(before: seq<Row>, rows: seq<Row>, done: set<nat>, key: Key, i: nat, name: string)
    requires Progress(before, rows, done) && i < |rows| && i !in done && SamePlace(rows[i], key)
    requires Candidate(rows[i]) && !Taken(rows, name, key) && Numbered(name, rows[i].plainName.value)
    ensures Progress(before, rows[i := rows[i].(plainName := Some(name))], done + {i})
  {
    var after := rows[i := rows[i].(plainName := Some(name))];
    assert rows[i].plainName != Some(name);
    forall a: nat, b: nat | a < |after| && b < |after| && a != b && a in done + {i} && after[b].status == Exists
                            && SqlEq(after[a].folderId, after[b].folderId) && SqlEq(after[a].userId, after[b].userId)
      ensures after[a].plainName != after[b].plainName
    {
      if a == i {
        assert SamePlace(rows[b], key);
      } else if b == i {
        assert SamePlace(rows[a], key);
      }
    }
  }

  /** Handling other keys leaves a repeated key's members where they were. */
  lemma MembersStay(before: seq<Row>, rows: seq<Row>, handled: set<Key>, key: Key)
    requires Progress(before, rows, Due(before, handled)) && key !in handled && Repeated(before, key)
    ensures Members(rows, key) == Members(before, key)
  {
    var done := Due(before, handled);
    var later: nat :| LaterDuplicate(before, later) && KeyOf(before[later]) == key;
    var j :| 0 <= j < later && SameKey(before[j], before[later]);
    assert j !in done;
    forall i: nat | i < |rows| ensures Matches(rows[i], key) <==> Matches(before[i], key) {
      if i in done && Keyed(key) {
        assert i != j;
      }
    }
    MembersAgree(rows, before, key, |rows|);
  }

  lemma {:induction false} MembersAgree(a: seq<Row>, b: seq<Row>, key: Key, n: nat)
    requires |a| == |b| && n <= |a| && forall i: nat :: i < |a| ==> (Matches(a[i], key) <==> Matches(b[i], key))
    ensures MembersFrom(a, key, n) == MembersFrom(b, key, n)
  {
    if n > 0 { MembersAgree(a, b, key, n - 1); }
  }

  /** In a keyed group, the rows due are all members but the first. */
  lemma DueInGroup(before: seq<Row>, key: Key, i: nat)
    requires i in Members(before, key)
    ensures LaterDuplicate(before, i) <==> i != Members(before, key)[0]
    ensures Keyed(key) && Candidate(before[i]) && KeyOf(before[i]) == key
  {
    var m := Members(before, key);
    if i != m[0] {
      assert m[0] in m && SameKey(before[m[0]], before[i]);
      var k :| 0 <= k < |m| && m[k] == i;
    }
    if LaterDuplicate(before, i) {
      var j :| 0 <= j < i && SameKey(before[j], before[i]);
      assert j in m;
      var k :| 0 <= k < |m| && m[k] == j;
    }
  }

  /** The rows renamed when `k` members of the group at hand have been visited. */
  ghost function DoneInGroup(before: seq<Row>, handled: set<Key>, key: Key, k: nat): set<nat>
    requires k <= |Members(before, key)|
  {
    Due(before, handled) + set i | 1 <= i < k :: Members(before, key)[i]
  }

  lemma GroupDone(before: seq<Row>, handled: set<Key>, key: Key)
    requires key !in handled
    ensures DoneInGroup(before, handled, key, |Members(before, key)|) == Due(before, handled + {key})
  {
    var m := Members(before, key);
    forall i: nat
      ensures i in Due(before, handled + {key}) <==> i in DoneInGroup(before, handled, key, |m|)
    {
      if i in m { DueInGroup(before, key, i); }
      if i in Due(before, handled + {key}) && KeyOf(before[i]) == key { assert i in m; }
    }
  }

  lemma DoneNext(before: seq<Row>, handled: set<Key>, key: Key, k: nat)
    requires key !in handled && 1 <= k < |Members(before, key)|
    ensures var i := Members(before, key)[k];
            i !in DoneInGroup(before, handled, key, k)
            && DoneInGroup(before, handled, key, k + 1) == DoneInGroup(before, handled, key, k) + {i}
  {
    var m := Members(before, key);
    assert m[k] in m;
    DueInGroup(before, key, m[k]);
  }

  /** The rows renamed in a group number one less than the members visited. */
  lemma {:induction false} DoneCount(before: seq<Row>, handled: set<Key>, key: Key, k: nat)
    requires key !in handled && k <= |Members(before, key)|
    ensures |DoneInGroup(before, handled, key, k)| == |Due(before, handled)| + if k == 0 then 0 else k - 1
    decreases k
  {
    if k <= 1 {
      KeepFirst(before, handled, key, k);
    } else {
      DoneCount(before, handled, key, k - 1);
      DoneNext(before, handled, key, k - 1);
    }
  }

  lemma KeepFirst(before: seq<Row>, handled: set<Key>, key: Key, k: nat)
    requires k <= 1 && k <= |Members(before, key)|
    ensures DoneInGroup(before, handled, key, k) == Due(before, handled)
  {}

  /** Visiting member `k` renames it and no other row. */
  lemma VisitMember(before: seq<Row>, rows: seq<Row>, handled: set<Key>, key: Key, k: nat, name: string)
    requires key !in handled && 1 <= k < |Members(before, key)|
    requires Progress(before, rows, DoneInGroup(before, handled, key, k)) && !Taken(rows, name, key)
    requires Numbered(name, key.name)
    ensures var i := Members(before, key)[k];
            && i < |rows|
            && Progress(before, rows[i := rows[i].(plainName := Some(name))], DoneInGroup(before, handled, key, k + 1))
  {
    var m := Members(before, key);
    assert m[k] in m;
    DueInGroup(before, key, m[k]);
    DoneNext(before, handled, key, k);
    RenameStep(before, rows, DoneInGroup(before, handled, key, k), key, m[k], name);
  }

  // ----- Which number each member gets --------------------------------------------------------

  /** An existing file of the same folder and user already has the key's name with this number. */
  ghost predicate NameInUse(rows: seq<Row>, key: Key, n: nat) {
    exists i :: 0 <= i < |rows| && BearsNumber(rows[i], key, n)
  }

  ghost predicate BearsNumber(r: Row, key: Key, n: nat) {
    && r.status == Exists && r.plainName == Some(key.name + " (" + Digits(n) + ")")
    && r.folderId.Some? && r.folderId == key.folderId && r.userId.Some? && r.userId == key.userId
  }

  lemma TakenIsInUse(rows: seq<Row>, key: Key, n: nat)
    ensures Taken(rows, Suffixed(key.name, n), key) <==> NameInUse(rows, key, n)
  {}

  ghost predicate FirstFree(rows: seq<Row>, key: Key, start: nat, number: nat) {
    forall n: nat :: start <= n <= number ==> (NameInUse(rows, key, n) <==> n < number)
  }

  /** The numbers of the members visited: 1 for the first, for each later one the first free after its predecessor's. */
  ghost predicate Numbers(entry: seq<Row>, key: Key, numbers: seq<nat>) {
    && (numbers != [] ==> numbers[0] == 1)
    && forall j :: 1 <= j < |numbers| ==>
         numbers[j - 1] < numbers[j] && FirstFree(entry, key, numbers[j - 1] + 1, numbers[j])
  }

  /** The members visited bear their numbers, the first none; all other rows are as they were. */
  ghost predicate Bear(entry: seq<Row>, rows: seq<Row>, key: Key, members: seq<nat>, numbers: seq<nat>) {
    && |rows| == |entry| && |numbers| <= |members|
    && (forall i: nat :: i < |rows| && i !in members[..|numbers|] ==> rows[i] == entry[i])
    && forall j :: 0 <= j < |numbers| ==>
         members[j] < |rows| && rows[members[j]] == Renumbered(entry[members[j]], key.name, j, numbers[j])
  }

  function Renumbered(r: Row, name: string, j: nat, number: nat): Row {
    if j == 0 then r else r.(plainName := Some(name + " (" + Digits(number) + ")"))
  }

  lemma {:induction false} NumbersGrow(numbers: seq<nat>, i: nat, j: nat)
    requires i <= j < |numbers| && forall x :: 1 <= x < |numbers| ==> numbers[x - 1] < numbers[x]
    ensures numbers[i] <= numbers[j]
    decreases j
  {
    if i < j { NumbersGrow(numbers, i, j - 1); }
  }

  /** A row that bears a larger number than the members do bore it before the loop, and still does. */
  lemma BearsAsBefore(entry: seq<Row>, rows: seq<Row>, key: Key, members: seq<nat>, numbers: seq<nat>, n: nat, i: nat)
    requires Bear(entry, rows, key, members, numbers) && i < |rows|
    requires forall j :: 0 <= j < |numbers| ==> entry[members[j]].plainName == Some(key.name) && numbers[j] < n
    ensures BearsNumber(rows[i], key, n) <==> BearsNumber(entry[i], key, n)
  {
    assert |Suffixed(key.name, n)| > |key.name|;
    if i in members[..|numbers|] {
      var j :| 0 <= j < |numbers| && members[j] == i;
      if j > 0 && Suffixed(key.name, numbers[j]) == Suffixed(key.name, n) { SuffixesDiffer(key.name, numbers[j], n); }
    }
  }

  lemma InUseAsBefore(entry: seq<Row>, rows: seq<Row>, key: Key, members: seq<nat>, numbers: seq<nat>, n: nat)
    requires Bear(entry, rows, key, members, numbers)
    requires forall j :: 0 <= j < |numbers| ==> entry[members[j]].plainName == Some(key.name) && numbers[j] < n
    ensures NameInUse(rows, key, n) <==> NameInUse(entry, key, n)
  {
    forall i: nat | i < |rows| ensures BearsNumber(rows[i], key, n) <==> BearsNumber(entry[i], key, n) {
      BearsAsBefore(entry, rows, key, members, numbers, n, i);
    }
  }

  lemma NumbersSnoc(entry: seq<Row>, key: Key, numbers: seq<nat>, number: nat)
    requires numbers != [] && Numbers(entry, key, numbers)
    requires var last := numbers[|numbers| - 1]; last < number && FirstFree(entry, key, last + 1, number)
    ensures Numbers(entry, key, numbers + [number])
  {}

  /** The first number free for the next member, as the table stands, is the first free before the loop. */
  lemma NextNumber(entry: seq<Row>, rows: seq<Row>, key: Key, members: seq<nat>, numbers: seq<nat>, number: nat)
    requires numbers != [] && Bear(entry, rows, key, members, numbers) && Numbers(entry, key, numbers)
    requires forall j :: 0 <= j < |numbers| ==> entry[members[j]].plainName == Some(key.name)
    requires var last := numbers[|numbers| - 1]; last < number && FirstFree(rows, key, last + 1, number)
    ensures Numbers(entry, key, numbers + [number])
  {
    var last := |numbers| - 1;
    forall j | 0 <= j < |numbers| ensures numbers[j] <= numbers[last] { NumbersGrow(numbers, j, last); }
    forall n: nat | numbers[last] + 1 <= n <= number ensures NameInUse(entry, key, n) <==> n < number {
      InUseAsBefore(entry, rows, key, members, numbers, n);
    }
    NumbersSnoc(entry, key, numbers, number);
  }

  lemma NextBears(entry: seq<Row>, rows: seq<Row>, after: seq<Row>, key: Key, members: seq<nat>, numbers: seq<nat>,
                  number: nat)
    requires |numbers| < |members| && forall i, j :: 0 <= i < j < |members| ==> members[i] < members[j]
    requires Bear(entry, rows, key, members, numbers) && members[|numbers|] < |rows|
    requires var i := members[|numbers|]; after == rows[i := Renumbered(rows[i], key.name, |numbers|, number)]
    ensures Bear(entry, after, key, members, numbers + [number])
  {
    var k, all := |numbers|, numbers + [number];
    assert members[..k + 1] == members[..k] + [members[k]];
    assert members[k] !in members[..k];
    forall j | 0 <= j < |all|
      ensures members[j] < |after| && after[members[j]] == Renumbered(entry[members[j]], key.name, j, all[j])
    {
      if j < k { assert members[j] != members[k] && all[j] == numbers[j]; }
    }
    forall i: nat | i < |after| && i !in members[..k + 1] ensures after[i] == entry[i] {}
  }

  /** What one pass of the renaming loop does: the first member only takes up number 1. */
  ghost predicate Pass(key: Key, i: nat, j: nat, before: seq<Row>, after: seq<Row>, last: nat, number: nat) {
    if j == 0 then after == before && number == 1
    else
      && i < |before| && after == before[i := before[i].(plainName := Some(key.name + " (" + Digits(number) + ")"))]
      && last < number && FirstFree(before, key, last + 1, number)
  }

  /** The tables and numbers of the passes made. */
  ghost predicate Passes(key: Key, members: seq<nat>, tables: seq<seq<Row>>, numbers: seq<nat>) {
    && |numbers| <= |members| && |tables| == |numbers| + 1
    && forall j :: 0 <= j < |numbers| ==>
         Pass(key, members[j], j, tables[j], tables[j + 1], if j == 0 then 0 else numbers[j - 1], numbers[j])
  }

  lemma PassesSnoc(key: Key, members: seq<nat>, tables: seq<seq<Row>>, numbers: seq<nat>, table: seq<Row>, number: nat)
    requires Passes(key, members, tables, numbers) && |numbers| < |members|
    requires var k := |numbers|;
             Pass(key, members[k], k, tables[k], table, if k == 0 then 0 else numbers[k - 1], number)
    ensures Passes(key, members, tables + [table], numbers + [number])
  {}

  lemma PassesPrefix(key: Key, members: seq<nat>, tables: seq<seq<Row>>, numbers: seq<nat>, k: nat)
    requires Passes(key, members, tables, numbers) && k <= |numbers|
    ensures Passes(key, members, tables[..k + 1], numbers[..k])
  {}

  lemma PassKeeps(entry: seq<Row>, rows: seq<Row>, after: seq<Row>, key: Key, members: seq<nat>, numbers: seq<nat>,
                  number: nat)
    requires |numbers| < |members| && forall i, j :: 0 <= i < j < |members| ==> members[i] < members[j]
    requires forall j :: 0 <= j < |members| ==> members[j] < |entry| && entry[members[j]].plainName == Some(key.name)
    requires Bear(entry, rows, key, members, numbers) && Numbers(entry, key, numbers)
    requires var k := |numbers|; Pass(key, members[k], k, rows, after, if k == 0 then 0 else numbers[k - 1], number)
    ensures Bear(entry, after, key, members, numbers + [number]) && Numbers(entry, key, numbers + [number])
  {
    if numbers != [] { NextNumber(entry, rows, key, members, numbers, number); }
    NextBears(entry, rows, after, key, members, numbers, number);
  }

  /** So the members bear their numbers, each the first free after its predecessor's before the loop. */
  lemma {:induction false} PassesNumber(key: Key, members: seq<nat>, tables: seq<seq<Row>>, numbers: seq<nat>)
    requires Passes(key, members, tables, numbers) && members == Members(tables[0], key)
    ensures Bear(tables[0], tables[|numbers|], key, members, numbers) && Numbers(tables[0], key, numbers)
    decreases |numbers|
  {
    if numbers != [] {
      var k := |numbers| - 1;
      PassesPrefix(key, members, tables, numbers, k);
      PassesNumber(key, members, tables[..k + 1], numbers[..k]);
      forall j | 0 <= j < |members|
        ensures members[j] < |tables[0]| && tables[0][members[j]].plainName == Some(key.name)
      {
        assert members[j] in members;
      }
      PassKeeps(tables[0], tables[k], tables[k + 1], key, members, numbers[..k], numbers[k]);
      assert numbers == numbers[..k] + [numbers[k]];
    }
  }

  // ----- The whole migration, written out -----------------------------------------------------

  /** Two existing files of one name, kind, folder and user. */
  predicate Twins(a: Row, b: Row) {
    && a.status == Exists && b.status == Exists && a.plainName.Some? && a.plainName == b.plainName
    && (a.fileType == b.fileType || (a.fileType in {None, Some("")} && b.fileType in {None, Some("")}))
    && a.folderId == b.folderId && a.userId == b.userId
  }

  /** Exactly the rows with a folder, a user and an earlier twin change, and those only in name, by a number. */
  ghost predicate LaterTwinsRenamed(before: seq<Row>, after: seq<Row>) {
    && |after| == |before|
    && forall i :: 0 <= i < |before| ==>
         if before[i].folderId.Some? && before[i].userId.Some? && exists j :: 0 <= j < i && Twins(before[j], before[i])
         then exists k: nat :: k >= 2
                && after[i] == before[i].(plainName := Some(before[i].plainName.value + " (" + Digits(k) + ")"))
         else after[i] == before[i]
  }

  ghost predicate TwinsOnlyWithoutPlace(rows: seq<Row>) {
    forall i, j :: 0 <= i < j < |rows| && Twins(rows[i], rows[j]) ==> rows[i].folderId.None? || rows[i].userId.None?
  }

  lemma TwinsIsSameKey(a: Row, b: Row)
    ensures Twins(a, b) <==> SameKey(a, b)
  {}

  lemma RenamedIsLiteral(before: seq<Row>, after: seq<Row>)
    requires Progress(before, after, ToRename(before))
    ensures LaterTwinsRenamed(before, after) && TwinsOnlyWithoutPlace(after)
  {
    forall a: Row, b: Row { TwinsIsSameKey(a, b); }
    forall i: nat | i < |before|
      ensures i in ToRename(before) <==>
              && before[i].folderId.Some? && before[i].userId.Some?
              && exists j :: 0 <= j < i && Twins(before[j], before[i])
    {}
    forall i: nat, j: nat | i < j < |after| && Twins(after[i], after[j])
      ensures after[i].folderId.None? || after[i].userId.None?
    {
      PairsLeft(before, after, i, j);
    }
  }

  // ----- The migration -----------------------------------------------------------------------

  class FilesTable {
    var rows: seq<Row>

    constructor (rows: seq<Row>)
      ensures this.rows == rows
    {
      this.rows := rows;
    }

    /** The innermost loop: try suffix after suffix until the name is free. */
    method FreeSuffix(key: Key, start: nat) returns (suffix: nat)
      ensures start <= suffix && !Taken(rows, Suffixed(key.name, suffix), key)
      ensures forall k :: start <= k < suffix ==> Taken(rows, Suffixed(key.name, k), key)
    {
      suffix := start;
      while Taken(rows, Suffixed(key.name, suffix), key)
        invariant start <= suffix
        invariant forall k :: start <= k < suffix ==> Taken(rows, Suffixed(key.name, k), key)
        decreases Blockers(rows, key, suffix)
      {
        TakenUsesUpABlocker(rows, key, suffix);
        suffix := suffix + 1;
      }
    }

    /** Rename one member to the first free suffix from `start` on. */
    method RenameMember(key: Key, start: nat, i: nat, ghost before: seq<Row>, ghost handled: set<Key>, ghost k: nat)
      returns (suffix: nat)
      requires key !in handled && 1 <= k < |Members(before, key)| && i == Members(before, key)[k] && start >= 2
      requires Progress(before, rows, DoneInGroup(before, handled, key, k))
      modifies this
      ensures Progress(before, rows, DoneInGroup(before, handled, key, k + 1)) && start <= suffix
      ensures i < |old(rows)|
      ensures rows == old(rows)[i := old(rows)[i].(plainName := Some(key.name + " (" + Digits(suffix) + ")"))]
      ensures FirstFree(old(rows), key, start, suffix)
    {
      suffix := FreeSuffix(key, start);
      var name := Suffixed(key.name, suffix);
      assert Numbered(name, key.name);
      VisitMember(before, rows, handled, key, k, name);
      forall n: nat | start <= n <= suffix ensures NameInUse(rows, key, n) <==> n < suffix {
        TakenIsInUse(rows, key, n);
      }
      rows := rows[i := rows[i].(plainName := Some(name))];
    }

    /**
     * The renaming loop over one group: the first member keeps its name, and each later one gets the first number
     * after its predecessor's whose name no existing file of the folder and user bore before the loop.
     */
    method RenameGroup(key: Key, ghost before: seq<Row>, ghost handled: set<Key>)
      returns (renamed: nat, ghost numbers: seq<nat>)
      requires Progress(before, rows, Due(before, handled))
      requires key !in handled && Repeated(before, key)
      modifies this
      ensures Progress(before, rows, Due(before, handled + {key}))
      ensures renamed == Excess(before)(key)
      ensures |Due(before, handled + {key})| == |Due(before, handled)| + renamed
      ensures |numbers| == |Members(before, key)| && Numbers(old(rows), key, numbers)
      ensures Bear(old(rows), rows, key, Members(before, key), numbers)
    {
      ghost var entry, tables := rows, [rows];
      MembersStay(before, rows, handled, key);
      var members := Members(rows, key);
      var suffix := 1;
      renamed, numbers := 0, [];
      KeepFirst(before, handled, key, 0);
      for k := 0 to |members|
        invariant members == Members(before, key)
        invariant Progress(before, rows, DoneInGroup(before, handled, key, k))
        invariant Passes(key, members, tables, numbers) && |numbers| == k && tables[0] == entry && tables[k] == rows
        invariant suffix == (if k == 0 then 1 else numbers[k - 1] + 1) && (k == 0 <==> suffix == 1) && suffix >= 1
        invariant renamed == if k == 0 then 0 else k - 1
      {
        if suffix > 1 {
          suffix := RenameMember(key, suffix, members[k], before, handled, k);
          renamed := renamed + 1;
        } else {
          KeepFirst(before, handled, key, 0);
          KeepFirst(before, handled, key, 1);
        }
        PassesSnoc(key, members, tables, numbers, rows, suffix);
        tables, numbers := tables + [rows], numbers + [suffix];
        suffix := suffix + 1;
      }
      PassesNumber(key, members, tables, numbers);
      DoneCount(before, handled, key, |members|);
      GroupDone(before, handled, key);
    }

    /** The outer loop over the repeated keys, listed by the first query in whatever order. */
    method RenameAll(groups: seq<Key>) returns (renamed: nat)
      requires ListsDuplicates(rows, groups)
      modifies this
      ensures Progress(old(rows), rows, ToRename(old(rows)))
      ensures renamed == Sum(groups, Excess(old(rows))) == |ToRename(old(rows))|
      ensures LaterTwinsRenamed(old(rows), rows) && TwinsOnlyWithoutPlace(rows)
    {
      ghost var before := rows;
      ghost var handled := {};
      renamed := 0;
      assert Due(before, {}) == {};
      for g := 0 to |groups|
        invariant handled == KeySet(groups[..g])
        invariant Progress(before, rows, Due(before, handled))
        invariant renamed == Sum(groups[..g], Excess(before)) == |Due(before, handled)|
      {
        assert groups[g] in groups && groups[g] !in groups[..g];
        var count, _ := RenameGroup(groups[g], before, handled);
        renamed := renamed + count;
        handled := handled + {groups[g]};
        SumOneMore(groups, g, before);
      }
      assert groups[..|groups|] == groups;
      AllDue(before, groups, handled);
      RenamedIsLiteral(before, rows);
    }

    /** The whole migration. */
    method Up() returns (renamed: nat)
      modifies this
      ensures Progress(old(rows), rows, ToRename(old(rows)))
      ensures renamed == |ToRename(old(rows))|
      ensures Duplicated(rows) <==> NullDuplicated(old(rows))
      ensures LaterTwinsRenamed(old(rows), rows) && TwinsOnlyWithoutPlace(rows)
    {
      var groups := DuplicateKeys(rows, |rows|);
      renamed := RenameAll(groups);
      CleanUnlessNull(old(rows), rows);
    }
  }

  /** The outer query's answer in order of first repetition. */
  function DuplicateKeys(rows: seq<Row>, n: nat): (groups: seq<Key>)
    requires n <= |rows|
    ensures forall i, j :: 0 <= i < j < |groups| ==> groups[i] != groups[j]
    ensures forall key :: key in groups <==> exists i: nat :: i < n && LaterDuplicate(rows, i) && KeyOf(rows[i]) == key
  {
    if n == 0 then []
    else
      var rest := DuplicateKeys(rows, n - 1);
      if LaterDuplicate(rows, n - 1) && KeyOf(rows[n - 1]) !in rest then rest + [KeyOf(rows[n - 1])] else rest
  }

  /** Two live files share name, normalised type, folder and user, nulls counting as equal. */
  ghost predicate Duplicated(rows: seq<Row>) {
    exists i: nat :: LaterDuplicate(rows, i)
  }

  /** Some duplicates have no folder or no user. */
  ghost predicate NullDuplicated(rows: seq<Row>) {
    exists i: nat :: LaterDuplicate(rows, i) && !Keyed(KeyOf(rows[i]))
  }

  /** A pair survives the migration as duplicates exactly when it was one with a null folder or user. */
  lemma PairsLeft(before: seq<Row>, after: seq<Row>, i: nat, j: nat)
    requires Progress(before, after, ToRename(before)) && i < j < |before|
    ensures SameKey(after[i], after[j]) <==> SameKey(before[i], before[j]) && !Keyed(KeyOf(before[i]))
  {
    var done := ToRename(before);
    if SameKey(before[i], before[j]) {
      assert LaterDuplicate(before, j);
      if !Keyed(KeyOf(before[i])) { assert i !in done && j !in done; }
    }
  }

  lemma CleanUnlessNull(before: seq<Row>, after: seq<Row>)
    requires Progress(before, after, ToRename(before))
    ensures Duplicated(after) <==> NullDuplicated(before)
  {
    if Duplicated(after) {
      var j: nat :| LaterDuplicate(after, j);
      var i :| 0 <= i < j && SameKey(after[i], after[j]);
      PairsLeft(before, after, i, j);
      assert LaterDuplicate(before, j);
    }
    if NullDuplicated(before) {
      var j: nat :| LaterDuplicate(before, j) && !Keyed(KeyOf(before[j]));
      var i :| 0 <= i < j && SameKey(before[i], before[j]);
      PairsLeft(before, after, i, j);
      assert LaterDuplicate(after, j);
    }
  }

  ghost function KeySet(keys: seq<Key>): set<Key> { set k | k in keys }

  lemma SumOneMore(groups: seq<Key>, g: nat, before: seq<Row>)
    requires g < |groups|
    ensures Sum(groups[..g + 1], Excess(before)) == Sum(groups[..g], Excess(before)) + Excess(before)(groups[g])
    ensures KeySet(groups[..g + 1]) == KeySet(groups[..g]) + {groups[g]}
  {
    assert groups[..g + 1] == groups[..g] + [groups[g]];
    SumAppend(groups[..g], [groups[g]], Excess(before));
    assert Sum([groups[g]][1..], Excess(before)) == 0;
  }

  /** The rows renamed in the end: the later duplicates whose folder and user are known. */
  ghost function ToRename(before: seq<Row>): set<nat> {
    set i | 0 <= i < |before| && LaterDuplicate(before, i) && Keyed(KeyOf(before[i]))
  }

  lemma AllDue(before: seq<Row>, groups: seq<Key>, handled: set<Key>)
    requires ListsDuplicates(before, groups) && handled == KeySet(groups)
    ensures Due(before, handled) == ToRename(before)
  {
    forall i: nat | LaterDuplicate(before, i) ensures KeyOf(before[i]) in handled {
      assert Repeated(before, KeyOf(before[i]));
    }
  }
}
