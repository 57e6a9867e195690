/**
 * File-version retention. Versions beyond a user's limits are deleted in batches, and every batch ranks
 * the surviving versions afresh: the ranking may break ties differently and the clock may have moved.
 */
module VersionRetention {
  import opened FiniteSets

  const DAY_MS := 86_400_000

  datatype VersionStatus = Exists | Deleted

  datatype Version = Version(fileId: nat, userId: nat, networkFileId: string, size: nat, createdAt: int,
                             status: VersionStatus)

  type Table = map<nat, Version>

  datatype Queued = Queued(networkFileId: string, size: nat)

  /** What is deleted: everything, or what exceeds the limits. A limit of 0 is off. */
  datatype Policy = All | ByLimits(retentionDays: nat, maxVersions: nat)

  predicate Survives(t: Table, user: nat, id: nat) {
    id in t && t[id].userId == user && t[id].status == Exists
  }

  function Survivors(t: Table, user: nat): set<nat> {
    set id | id in t && Survives(t, user, id)
  }

  predicate Expired(v: Version, policy: Policy, now: int) {
    policy.ByLimits? && policy.retentionDays > 0 && v.createdAt < now - policy.retentionDays * DAY_MS
  }

  predicate Capped(policy: Policy) { policy.ByLimits? && policy.maxVersions > 0 }

  // ----- ROW_NUMBER() OVER (PARTITION BY file_id ORDER BY created_at DESC) -------------------

  /** Per file, the surviving versions in rank order. Ties may fall either way. */
  type Ranking = map<nat, seq<nat>>

  ghost predicate Ranks(t: Table, s: set<nat>, f: nat, order: seq<nat>)
    requires s <= t.Keys
  {
    && NoRepeats(order)
    && (forall id :: id in order <==> id in s && t[id].fileId == f)
    && (forall i, j :: 0 <= i < j < |order| ==> t[order[i]].createdAt >= t[order[j]].createdAt)
  }

  ghost predicate ValidRanking(t: Table, s: set<nat>, r: Ranking)
    requires s <= t.Keys
  {
    && (forall id :: id in s ==> t[id].fileId in r)
    && (forall f :: f in r ==> Ranks(t, s, f, r[f]))
  }

  predicate RankedOver(order: seq<nat>, max: nat, id: nat) {
    |order| > max && id in order[max..]
  }

  ghost function Doomed(t: Table, s: set<nat>, r: Ranking, policy: Policy, now: int): set<nat>
    requires s <= t.Keys && ValidRanking(t, s, r)
  {
    set id | id in s
             && (policy.All? || Expired(t[id], policy, now)
                 || (Capped(policy) && RankedOver(r[t[id].fileId], policy.maxVersions, id)))
  }

  ghost predicate IsNewest(t: Table, ids: set<nat>, m: nat)
    requires ids <= t.Keys
  {
    m in ids && forall id :: id in ids ==> t[id].createdAt <= t[m].createdAt
  }

  lemma {:induction false} NewestExists(t: Table, ids: set<nat>) returns (m: nat)
    requires ids != {} && ids <= t.Keys
    ensures IsNewest(t, ids, m)
  {
    m :| m in ids;
    if ids != {m} {
      var other := NewestExists(t, ids - {m});
      assert forall id :: id in ids ==> id == m || id in ids - {m};
      if t[m].createdAt < t[other].createdAt { m := other; }
    }
  }

  lemma {:induction false} OrderExists(t: Table, s: set<nat>, f: nat) returns (order: seq<nat>)
    requires s <= t.Keys
    ensures Ranks(t, s, f, order)
    decreases s
  {
    var group := set id | id in s && t[id].fileId == f;
    if group == {} {
      order := [];
      assert forall id :: id in s && t[id].fileId == f ==> id in group;
    } else {
      var m := NewestExists(t, group);
      var rest := OrderExists(t, s - {m}, f);
      order := [m] + rest;
      assert forall i :: 0 <= i < |rest| ==> rest[i] in rest;
      assert forall i :: 0 <= i < |rest| ==> rest[i] in group;
    }
  }

  /** Every set of versions can be ranked. */
  lemma {:induction false} RankingExists(t: Table, s: set<nat>, files: set<nat>) returns (r: Ranking)
    requires s <= t.Keys
    ensures r.Keys == files
    ensures forall f: nat :: f in files ==> Ranks(t, s, f, r[f])
    decreases files
  {
    if files == {} {
      r := map[];
    } else {
      var f :| f in files;
      var order := OrderExists(t, s, f);
      var rest := RankingExists(t, s, files - {f});
      r := rest[f := order];
      assert files == (files - {f}) + {f};
    }
  }

  // ----- Why batches add up to the policy ----------------------------------------------------

  /** The survivors of a version's file that are at least as new as it. */
  ghost function AtLeastAsNew(t: Table, s: set<nat>, v: nat): set<nat>
    requires s <= t.Keys && v in t
  {
    set u | u in s && t[u].fileId == t[v].fileId && t[u].createdAt >= t[v].createdAt
  }

  /** Every version deleted so far is expired, or still has a full complement of versions as new. */
  ghost predicate Justified(t: Table, e: set<nat>, s: set<nat>, policy: Policy, now: int)
    requires s <= e <= t.Keys
  {
    policy.All? ||
    forall v :: v in e - s ==>
      Expired(t[v], policy, now) || (Capped(policy) && |AtLeastAsNew(t, s, v)| >= policy.maxVersions)
  }

  /** A version ranked over the cap is outlasted: the top of its file is as new and is not ranked over the cap. */
  lemma TopOutlasts(t: Table, s: set<nat>, r: Ranking, policy: Policy, now: int, u: nat, b: set<nat>)
    requires s <= t.Keys && ValidRanking(t, s, r) && Capped(policy) && u in s
    requires b <= Doomed(t, s, r, policy, now)
    requires RankedOver(r[t[u].fileId], policy.maxVersions, u) && !Expired(t[u], policy, now)
    ensures |AtLeastAsNew(t, s - b, u)| >= policy.maxVersions
  {
    var order, max := r[t[u].fileId], policy.maxVersions;
    var top := SetOf(order[..max]);
    SetOfSize(order[..max]);
    var j :| max <= j < |order| && order[j] == u;
    forall id | id in top ensures id in AtLeastAsNew(t, s - b, u) {
      var i :| 0 <= i < max && order[i] == id;
      assert id in order;
      assert t[id].createdAt >= t[u].createdAt;
      assert NoRepeats(order);
      assert forall k :: max <= k < |order| ==> order[k] != order[i];
      assert id !in order[max..];
    }
    SubsetSize(top, AtLeastAsNew(t, s - b, u));
  }

  /** A batch keeps every deletion justified, whatever the tie-breaks and however late the clock. */
  lemma BatchKeepsJustified(t: Table, e: set<nat>, s: set<nat>, r: Ranking, policy: Policy, before: int, now: int,
                            b: set<nat>)
    requires s <= e <= t.Keys && before <= now && ValidRanking(t, s, r)
    requires Justified(t, e, s, policy, before) && b <= Doomed(t, s, r, policy, now)
    ensures Justified(t, e, s - b, policy, now)
  {
    if policy.ByLimits? {
      forall v | v in e - (s - b)
        ensures Expired(t[v], policy, now) || (Capped(policy) && |AtLeastAsNew(t, s - b, v)| >= policy.maxVersions)
      {
        if !Expired(t[v], policy, now) {
          if v in b {
            TopOutlasts(t, s, r, policy, now, v, b);
          } else if forall u :: u in AtLeastAsNew(t, s, v) ==> u !in b {
            SubsetSize(AtLeastAsNew(t, s, v), AtLeastAsNew(t, s - b, v));
          } else {
            var u :| u in AtLeastAsNew(t, s, v) && u in b;
            TopOutlasts(t, s, r, policy, now, u, b);
            SubsetSize(AtLeastAsNew(t, s - b, u), AtLeastAsNew(t, s - b, v));
          }
        }
      }
    }
  }

  /** The survivors are within the limits: none expired, none over the cap of its file. */
  ghost predicate WithinLimits(t: Table, s: set<nat>, policy: Policy, now: int)
    requires s <= t.Keys
  {
    && (policy.All? ==> s == {})
    && (forall id :: id in s ==> !Expired(t[id], policy, now))
    && (Capped(policy) ==> forall f: nat :: |OfFile(t, s, f)| <= policy.maxVersions)
  }

  ghost function OfFile(t: Table, s: set<nat>, f: nat): set<nat>
    requires s <= t.Keys
  {
    set id | id in s && t[id].fileId == f
  }

  /** Once every doomed version is gone the rest is within the limits. */
  lemma UndoomedIsWithinLimits(t: Table, s: set<nat>, r: Ranking, policy: Policy, now: int)
    requires s <= t.Keys && ValidRanking(t, s, r)
    ensures WithinLimits(t, s - Doomed(t, s, r, policy, now), policy, now)
  {
    var kept := s - Doomed(t, s, r, policy, now);
    if Capped(policy) {
      forall f: nat ensures |OfFile(t, kept, f)| <= policy.maxVersions {
        if f in r {
          UndoomedOfFile(t, s, r, policy, now, f);
        } else {
          assert OfFile(t, kept, f) == {};
        }
      }
    }
  }

  lemma UndoomedOfFile(t: Table, s: set<nat>, r: Ranking, policy: Policy, now: int, f: nat)
    requires s <= t.Keys && ValidRanking(t, s, r) && Capped(policy) && f in r
    ensures |OfFile(t, s - Doomed(t, s, r, policy, now), f)| <= policy.maxVersions
  {
    var n := if |r[f]| > policy.maxVersions then policy.maxVersions else |r[f]|;
    var top := r[f][..n];
    SetOfSize(top);
    forall id | id in OfFile(t, s - Doomed(t, s, r, policy, now), f) ensures id in SetOf(top) {
      assert id in r[f];
      assert r[f] == top + r[f][n..];
    }
    SubsetSize(OfFile(t, s - Doomed(t, s, r, policy, now), f), SetOf(top));
  }

  /** No two of a file's versions were created at the same instant. */
  ghost predicate DistinctTimes(t: Table, e: set<nat>)
    requires e <= t.Keys
  {
    forall u, v :: u in e && v in e && u != v && t[u].fileId == t[v].fileId ==> t[u].createdAt != t[v].createdAt
  }

  ghost function Newer(t: Table, e: set<nat>, v: nat): set<nat>
    requires e <= t.Keys && v in t
  {
    set u | u in e && t[u].fileId == t[v].fileId && t[u].createdAt > t[v].createdAt
  }

  /** The one-shot policy: what a single undisturbed pass over all versions would keep. */
  ghost function OneShotKept(t: Table, e: set<nat>, policy: Policy, now: int): set<nat>
    requires e <= t.Keys
  {
    set v | v in e && policy.ByLimits? && !Expired(t[v], policy, now)
            && (Capped(policy) ==> |Newer(t, e, v)| < policy.maxVersions)
  }

  /** Justified deletions that stop within the limits keep exactly what one pass would, times being distinct. */
  lemma DrainIsOneShot(t: Table, e: set<nat>, s: set<nat>, policy: Policy, now: int)
    requires s <= e <= t.Keys && DistinctTimes(t, e)
    requires Justified(t, e, s, policy, now) && WithinLimits(t, s, policy, now)
    ensures s == OneShotKept(t, e, policy, now)
  {
    forall v | v in s ensures v in OneShotKept(t, e, policy, now) {
      if Capped(policy) && |Newer(t, e, v)| >= policy.maxVersions { NewerAllSurvive(t, e, s, policy, now, v); }
    }
    forall v | v in e - s ensures v !in OneShotKept(t, e, policy, now) {
      if policy.ByLimits? && !Expired(t[v], policy, now) {
        assert AtLeastAsNew(t, s, v) <= Newer(t, e, v);
        SubsetSize(AtLeastAsNew(t, s, v), Newer(t, e, v));
      }
    }
  }

  /** A survivor within the limits cannot have a full complement of newer versions behind it. */
  lemma NewerAllSurvive(t: Table, e: set<nat>, s: set<nat>, policy: Policy, now: int, v: nat)
    requires s <= e <= t.Keys && v in s && Capped(policy)
    requires Justified(t, e, s, policy, now) && WithinLimits(t, s, policy, now)
    ensures |Newer(t, e, v)| < policy.maxVersions
  {
    var file := OfFile(t, s, t[v].fileId);
    if Newer(t, e, v) <= s {
      assert Newer(t, e, v) <= file - {v};
      SubsetSize(Newer(t, e, v), file - {v});
    } else {
      var u :| u in Newer(t, e, v) && u !in s;
      assert !Expired(t[u], policy, now);
      assert AtLeastAsNew(t, s, u) <= file - {v};
      SubsetSize(AtLeastAsNew(t, s, u), file - {v});
    }
  }

  /** Stability: taking any doomed versions away leaves the one-shot verdict on the rest unchanged. */
  lemma BatchLeavesVerdict(t: Table, e: set<nat>, b: set<nat>, policy: Policy, now: int)
    requires e <= t.Keys && DistinctTimes(t, e) && b <= e - OneShotKept(t, e, policy, now)
    ensures (e - b) - OneShotKept(t, e - b, policy, now) == (e - OneShotKept(t, e, policy, now)) - b
  {
    forall v | v in e - b
      ensures v in OneShotKept(t, e, policy, now) <==> v in OneShotKept(t, e - b, policy, now)
    {
      SubsetSize(Newer(t, e - b, v), Newer(t, e, v));
      if Capped(policy) && !Expired(t[v], policy, now) && |Newer(t, e, v)| >= policy.maxVersions {
        var order := OrderExists(t, e, t[v].fileId);
        TopIsKept(t, e, b, policy, now, v, order);
      }
    }
  }

  lemma TopIsKept(t: Table, e: set<nat>, b: set<nat>, policy: Policy, now: int, v: nat, order: seq<nat>)
    requires e <= t.Keys && DistinctTimes(t, e) && v in e && Capped(policy) && !Expired(t[v], policy, now)
    requires b <= e - OneShotKept(t, e, policy, now) && Ranks(t, e, t[v].fileId, order)
    requires |Newer(t, e, v)| >= policy.maxVersions
    ensures |Newer(t, e - b, v)| >= policy.maxVersions
  {
    var max := policy.maxVersions;
    var at :| 0 <= at < |order| && order[at] == v;
    NewerIsPrefix(t, e, order, at);
    assert |Newer(t, e, v)| == at;
    SetOfSize(order[..max]);
    var top := SetOf(order[..max]);
    forall id | id in top ensures id in Newer(t, e - b, v) {
      var i :| 0 <= i < max && order[i] == id;
      NewerIsPrefix(t, e, order, i);
      assert id in order;
      assert t[id].createdAt >= t[v].createdAt && id != v;
      assert id in OneShotKept(t, e, policy, now);
    }
    SubsetSize(top, Newer(t, e - b, v));
  }

  /** With distinct times, the versions newer than the one at rank `at` are those ranked before it. */
  lemma NewerIsPrefix(t: Table, e: set<nat>, order: seq<nat>, at: nat)
    requires e <= t.Keys && DistinctTimes(t, e) && at < |order| && order[at] in e
    requires Ranks(t, e, t[order[at]].fileId, order)
    ensures |Newer(t, e, order[at])| == at
  {
    SetOfSize(order[..at]);
    assert forall i :: 0 <= i < |order| ==> order[i] in order;
    forall id ensures id in Newer(t, e, order[at]) <==> id in order[..at] {
      if id in Newer(t, e, order[at]) {
        assert id in order;
        var i :| 0 <= i < |order| && order[i] == id;
        assert i < at;
      }
      if id in order[..at] {
        var i :| 0 <= i < at && order[i] == id;
      }
    }
    assert Newer(t, e, order[at]) == SetOf(order[..at]);
  }

  /** With distinct times, what a batch is taken from is what the one-shot policy would not keep. */
  lemma DoomedIsOneShot(t: Table, s: set<nat>, r: Ranking, policy: Policy, now: int)
    requires s <= t.Keys && ValidRanking(t, s, r) && DistinctTimes(t, s)
    ensures Doomed(t, s, r, policy, now) == s - OneShotKept(t, s, policy, now)
  {
    if Capped(policy) {
      forall v | v in s
        ensures RankedOver(r[t[v].fileId], policy.maxVersions, v) <==> |Newer(t, s, v)| >= policy.maxVersions
      {
        var order := r[t[v].fileId];
        assert v in order;
        var at :| 0 <= at < |order| && order[at] == v;
        NewerIsPrefix(t, s, order, at);
        assert at >= policy.maxVersions ==> order[policy.maxVersions..][at - policy.maxVersions] == v;
      }
    }
  }

  /** Stability of the query: after any batch, however it ranks afresh, the doomed are the old ones less the batch. */
  lemma BatchLeavesDoomed(t: Table, s: set<nat>, r: Ranking, b: set<nat>, again: Ranking, policy: Policy, now: int)
    requires s <= t.Keys && ValidRanking(t, s, r) && DistinctTimes(t, s) && b <= Doomed(t, s, r, policy, now)
    requires ValidRanking(t, s - b, again)
    ensures Doomed(t, s - b, again, policy, now) == Doomed(t, s, r, policy, now) - b
  {
    DoomedIsOneShot(t, s, r, policy, now);
    DoomedIsOneShot(t, s - b, again, policy, now);
    BatchLeavesVerdict(t, s, b, policy, now);
  }

  // ----- The outbox and the bytes ------------------------------------------------------------

  /** The rows after the status of `ids` became DELETED. */
  function MarkDeleted(t: Table, ids: set<nat>): Table {
    map id | id in t :: if id in ids then t[id].(status := Deleted) else t[id]
  }

  /** insert_into_deleted_file_versions, fired for each row of `ids`: only sized versions, each once. */
  function Enqueue(outbox: map<nat, Queued>, t: Table, ids: set<nat>): map<nat, Queued> {
    map id | id in outbox.Keys + (set x | x in ids && x in t && t[x].size > 0) ::
      if id in outbox then outbox[id] else Queued(t[id].networkFileId, t[id].size)
  }

  function Sizes(t: Table): map<nat, nat> { map id | id in t :: t[id].size }
  function QueuedSizes(outbox: map<nat, Queued>): map<nat, nat> { map id | id in outbox :: outbox[id].size }

  /** SUM(size) over the rows named. */
  ghost function Total(sizes: map<nat, nat>, ids: set<nat>): nat
    requires ids <= sizes.Keys
  {
    if ids == {} then 0
    else
      var id :| id in ids;
      sizes[id] + Total(sizes, ids - {id})
  }

  lemma {:induction false} TotalLess(sizes: map<nat, nat>, ids: set<nat>, id: nat)
    requires ids <= sizes.Keys && id in ids
    ensures Total(sizes, ids) == sizes[id] + Total(sizes, ids - {id})
    decreases ids
  {
    var x :| x in ids && Total(sizes, ids) == sizes[x] + Total(sizes, ids - {x});
    if x != id {
      TotalLess(sizes, ids - {x}, id);
      TotalLess(sizes, ids - {id}, x);
      assert ids - {x} - {id} == ids - {id} - {x};
    }
  }

  lemma {:induction false} TotalSplits(sizes: map<nat, nat>, ids: set<nat>, part: set<nat>)
    requires part <= ids <= sizes.Keys
    ensures Total(sizes, ids) == Total(sizes, part) + Total(sizes, ids - part)
    decreases part
  {
    if part == {} {
      assert ids - part == ids;
    } else {
      var id :| id in part;
      TotalLess(sizes, ids, id);
      TotalLess(sizes, part, id);
      TotalSplits(sizes, ids - {id}, part - {id});
      assert (ids - {id}) - (part - {id}) == ids - part;
    }
  }

  /** Dropping the rows of size 0 drops no bytes. */
  lemma {:induction false} TotalOfSized(sizes: map<nat, nat>, ids: set<nat>, other: map<nat, nat>, sized: set<nat>)
    requires ids <= sizes.Keys && sized <= other.Keys
    requires forall id :: id in sized <==> id in ids && sizes[id] > 0
    requires forall id :: id in sized ==> other[id] == sizes[id]
    ensures Total(other, sized) == Total(sizes, ids)
    decreases ids
  {
    if ids != {} {
      var id :| id in ids;
      TotalLess(sizes, ids, id);
      if id in sized { TotalLess(other, sized, id); } else { assert sized - {id} == sized; }
      TotalOfSized(sizes, ids - {id}, other, sized - {id});
    }
  }

  /** Conservation of bytes: what a user's versions lose is exactly what the outbox gains. */
  lemma BytesMoveToOutbox(t: Table, user: nat, deleted: set<nat>, outbox: map<nat, Queued>)
    requires deleted <= Survivors(t, user) && deleted !! outbox.Keys
    ensures var after := Enqueue(outbox, t, deleted);
            Total(Sizes(t), Survivors(t, user)) ==
              Total(Sizes(t), Survivors(MarkDeleted(t, deleted), user))
              + Total(QueuedSizes(after), after.Keys - outbox.Keys)
  {
    var after := Enqueue(outbox, t, deleted);
    MarkedSurvivors(t, deleted, user);
    TotalSplits(Sizes(t), Survivors(t, user), deleted);
    TotalOfSized(Sizes(t), deleted, QueuedSizes(after), after.Keys - outbox.Keys);
  }

  // ----- The store ---------------------------------------------------------------------------

  /**
   * What the database and the network decide: how each query breaks ties, what its clock reads, which
   * attempts fail, and which rows a LIMIT without ORDER BY lets through. Attempts are numbered.
   */
  datatype Environment = Environment(rank: (Table, nat) -> Ranking, clock: nat -> int, fails: nat -> bool,
                                     limit: (set<nat>, nat, nat) -> set<nat>)

  ghost predicate Plausible(env: Environment, user: nat) {
    && (forall t: Table, n: nat :: ValidRanking(t, Survivors(t, user), env.rank(t, n)))
    && (forall m: nat, n: nat :: m <= n ==> env.clock(m) <= env.clock(n))
    && (forall ids: set<nat>, most: nat, n: nat :: AtMost(env.limit(ids, most, n), ids, most))
  }

  /** What a LIMIT returns. */
  ghost predicate AtMost(chosen: set<nat>, ids: set<nat>, limit: nat) {
    chosen <= ids && |chosen| == if |ids| < limit then |ids| else limit
  }

  predicate IsLeast(ids: set<nat>, m: nat) {
    m in ids && forall x :: x in ids ==> m <= x
  }

  lemma {:induction false} LeastExists(ids: set<nat>) returns (m: nat)
    requires ids != {}
    ensures IsLeast(ids, m)
  {
    m :| m in ids;
    if ids != {m} {
      var k := LeastExists(ids - {m});
      assert forall x :: x in ids ==> x == m || x in ids - {m};
      if k < m { m := k; }
    }
  }

  lemma SomeLeast(ids: set<nat>)
    requires ids != {}
    ensures exists m :: IsLeast(ids, m)
  {
    var m := LeastExists(ids);
  }

  /** ORDER BY id ASC LIMIT limit. */
  function LowestIds(ids: set<nat>, limit: nat): (r: set<nat>)
    ensures r <= ids
    ensures |r| == if |ids| < limit then |ids| else limit
    ensures forall x, y :: x in r && y in ids && y !in r ==> x < y
    decreases limit
  {
    if ids == {} || limit == 0 then {}
    else
      SomeLeast(ids);
      var m :| IsLeast(ids, m);
      var rest := LowestIds(ids - {m}, limit - 1);
      assert m !in rest;
      {m} + rest
  }

  lemma JustifiedLater(t: Table, e: set<nat>, s: set<nat>, policy: Policy, before: int, now: int)
    requires s <= e <= t.Keys && before <= now && Justified(t, e, s, policy, before)
    ensures Justified(t, e, s, policy, now)
  {}

  /** Marking other rows changes neither a ranking nor who is doomed. */
  lemma MarkedRowsRankAlike(t: Table, gone: set<nat>, s: set<nat>, r: Ranking, policy: Policy, now: int)
    requires s <= t.Keys && ValidRanking(MarkDeleted(t, gone), s, r)
    ensures ValidRanking(t, s, r)
    ensures Doomed(t, s, r, policy, now) == Doomed(MarkDeleted(t, gone), s, r, policy, now)
  {
    var m := MarkDeleted(t, gone);
    forall f | f in r ensures Ranks(t, s, f, r[f]) {
      assert Ranks(m, s, f, r[f]);
      assert forall i :: 0 <= i < |r[f]| ==> r[f][i] in r[f];
    }
  }

  lemma MarkedSurvivors(t: Table, gone: set<nat>, user: nat)
    requires gone <= Survivors(t, user)
    ensures Survivors(MarkDeleted(t, gone), user) == Survivors(t, user) - gone
  {
    forall id ensures id in Survivors(MarkDeleted(t, gone), user) <==> id in Survivors(t, user) - gone {
      assert id in t ==> (Survives(MarkDeleted(t, gone), user, id) <==> Survives(t, user, id) && id !in gone);
    }
  }

  lemma MarkedTwice(t: Table, a: set<nat>, b: set<nat>)
    ensures MarkDeleted(MarkDeleted(t, a), b) == MarkDeleted(t, a + b)
  {}

  lemma EnqueuedTwice(outbox: map<nat, Queued>, t: Table, a: set<nat>, b: set<nat>)
    ensures Enqueue(Enqueue(outbox, t, a), MarkDeleted(t, a), b) == Enqueue(outbox, t, a + b)
  {
    var twice, once := Enqueue(Enqueue(outbox, t, a), MarkDeleted(t, a), b), Enqueue(outbox, t, a + b);
    assert twice.Keys == once.Keys;
  }

  /** One successful batch extends a justified deletion; a short one brings the user within the limits. */
  lemma BatchStep(t: Table, e: set<nat>, s: set<nat>, r: Ranking, policy: Policy, before: int, now: int,
                  batchSize: nat, batch: set<nat>)
    requires s <= e <= t.Keys && before <= now && ValidRanking(t, s, r) && Justified(t, e, s, policy, before)
    requires AtMost(batch, Doomed(t, s, r, policy, now), batchSize)
    ensures batch <= s
    ensures Justified(t, e, s - batch, policy, now)
    ensures |batch| < batchSize ==> WithinLimits(t, s - batch, policy, now)
  {
    BatchKeepsJustified(t, e, s, r, policy, before, now, batch);
    if |batch| < batchSize {
      SameSizeSubset(batch, Doomed(t, s, r, policy, now));
      UndoomedIsWithinLimits(t, s, r, policy, now);
    }
  }

  lemma SameSizeSubset(a: set<nat>, b: set<nat>)
    requires a <= b && |a| == |b|
    ensures a == b
  {
    if a != b {
      var x :| x in b && x !in a;
      SubsetSize(a, b - {x});
    }
  }

  /** The doomed among the rows not yet marked, ranked as the marked table is. */
  lemma AttemptDooms(t0: Table, user: nat, done: set<nat>, policy: Policy, env: Environment, attempt: nat)
    requires Plausible(env, user) && done <= Survivors(t0, user)
    ensures var m := MarkDeleted(t0, done);
            var s := Survivors(t0, user) - done;
            var r := env.rank(m, attempt);
            && Survivors(m, user) == s && ValidRanking(m, s, r) && ValidRanking(t0, s, r)
            && Doomed(m, s, r, policy, env.clock(attempt)) == Doomed(t0, s, r, policy, env.clock(attempt))
  {
    MarkedSurvivors(t0, done, user);
    MarkedRowsRankAlike(t0, done, Survivors(t0, user) - done, env.rank(MarkDeleted(t0, done), attempt), policy,
                        env.clock(attempt));
  }

  lemma NothingDeleted(t: Table, outbox: map<nat, Queued>, e: set<nat>, policy: Policy, now: int)
    requires e <= t.Keys
    ensures MarkDeleted(t, {}) == t && Enqueue(outbox, t, {}) == outbox && Justified(t, e, e - {}, policy, now)
  {
    assert Enqueue(outbox, t, {}).Keys == outbox.Keys;
  }

  lemma FewerLeft(e: set<nat>, a: set<nat>, b: set<nat>)
    requires a <= b <= e
    ensures |e - b| == |e - a| - (|b| - |a|)
  {
    assert e - a == (e - b) + (b - a);
    assert b == a + (b - a);
  }

  /** A finished drain, however many batches it took, has deleted what the first query selected before its LIMIT. */
  lemma DrainTakesTheDoomed(t: Table, user: nat, deleted: set<nat>, policy: Policy, env: Environment, now: int)
    requires Plausible(env, user) && deleted <= Survivors(t, user) && DistinctTimes(t, Survivors(t, user))
    requires Justified(t, Survivors(t, user), Survivors(t, user) - deleted, policy, now)
    requires WithinLimits(t, Survivors(t, user) - deleted, policy, now)
    ensures Survivors(t, user) - deleted == OneShotKept(t, Survivors(t, user), policy, now)
    ensures deleted == Doomed(t, Survivors(t, user), env.rank(t, 0), policy, now)
  {
    var e := Survivors(t, user);
    DrainIsOneShot(t, e, e - deleted, policy, now);
    DoomedIsOneShot(t, e, env.rank(t, 0), policy, now);
    assert deleted == e - (e - deleted);
  }

  // ----- What a batch and a drain do, written out ----------------------------------------------

  /** Only existing versions of the user become DELETED, no other column and no other row changes. */
  ghost predicate DeletesOwn(before: Table, after: Table, user: nat, deleted: set<nat>) {
    && after.Keys == before.Keys
    && (forall id :: id in deleted ==> id in before && before[id].userId == user && before[id].status == Exists)
    && forall id :: id in before ==> after[id] == if id in deleted then before[id].(status := Deleted) else before[id]
  }

  /** The outbox gains the sized versions deleted, each under its own network id and size, and loses nothing. */
  ghost predicate QueuesOwn(before: Table, outbox: map<nat, Queued>, after: map<nat, Queued>, deleted: set<nat>) {
    && (forall id :: id in outbox ==> id in after && after[id] == outbox[id])
    && (forall id :: id in after && id !in outbox ==>
          && id in deleted && id in before && before[id].size > 0
          && after[id].networkFileId == before[id].networkFileId && after[id].size == before[id].size)
    && forall id :: id in deleted && id in before && before[id].size > 0 ==> id in after
  }

  /** The version exceeds its age limit. */
  predicate TooOld(v: Version, policy: Policy, now: int) {
    policy.ByLimits? && policy.retentionDays > 0 && v.createdAt < now - policy.retentionDays * 24 * 60 * 60 * 1000
  }

  /** The user's other existing versions of the same file that are at least as new. */
  ghost function AsNew(t: Table, user: nat, v: nat): set<nat>
    requires v in t
  {
    set u | u in t && u != v && t[u].userId == user && t[u].status == Exists
            && t[u].fileId == t[v].fileId && t[u].createdAt >= t[v].createdAt
  }

  /** Everything a batch deletes is called for: by the policy, by age, or by a capful of versions as new. */
  ghost predicate CalledFor(t: Table, user: nat, policy: Policy, now: int, deleted: set<nat>) {
    forall v :: v in deleted && v in t ==>
      || policy.All? || TooOld(t[v], policy, now)
      || (policy.maxVersions > 0 && |AsNew(t, user, v)| >= policy.maxVersions)
  }

  /** The user's existing versions of a file. */
  ghost function Own(t: Table, user: nat, f: nat): set<nat> {
    set id | id in t && t[id].userId == user && t[id].status == Exists && t[id].fileId == f
  }

  /** Nothing of the user is left that the policy calls to delete. */
  ghost predicate NothingLeft(t: Table, user: nat, policy: Policy, now: int) {
    && (policy.All? ==> forall id :: id in t ==> !(t[id].userId == user && t[id].status == Exists))
    && (forall id :: id in t && t[id].userId == user && t[id].status == Exists ==> !TooOld(t[id], policy, now))
    && (policy.ByLimits? && policy.maxVersions > 0 ==> forall f: nat :: |Own(t, user, f)| <= policy.maxVersions)
  }

  /** The user's existing versions of the same file that are newer. */
  ghost function NewerOwn(t: Table, user: nat, v: nat): set<nat>
    requires v in t
  {
    set u | u in t && t[u].userId == user && t[u].status == Exists
            && t[u].fileId == t[v].fileId && t[u].createdAt > t[v].createdAt
  }

  /** Of the user's existing versions exactly the newest maxVersions of each file that are not too old are left. */
  ghost predicate KeepsNewest(before: Table, after: Table, user: nat, policy: Policy, now: int) {
    after.Keys == before.Keys
    && forall id :: id in before && before[id].userId == user && before[id].status == Exists ==>
         (after[id].status == Exists <==>
            && policy.ByLimits? && !TooOld(before[id], policy, now)
            && (policy.maxVersions > 0 ==> |NewerOwn(before, user, id)| < policy.maxVersions))
  }

  lemma BatchIsLiteral(t: Table, outbox: map<nat, Queued>, user: nat, deleted: set<nat>)
    requires deleted <= Survivors(t, user)
    ensures DeletesOwn(t, MarkDeleted(t, deleted), user, deleted)
    ensures QueuesOwn(t, outbox, Enqueue(outbox, t, deleted), deleted)
  {
    forall id | id in deleted ensures id in t && t[id].userId == user && t[id].status == Exists {
      assert Survives(t, user, id);
    }
  }

  /** A version ranked over the cap comes after as many others of its file, none of them older. */
  lemma RankedOverIsCalledFor(t: Table, user: nat, r: Ranking, v: nat, max: nat)
    requires ValidRanking(t, Survivors(t, user), r) && v in Survivors(t, user) && max > 0
    requires RankedOver(r[t[v].fileId], max, v)
    ensures |AsNew(t, user, v)| >= max
  {
    var order := r[t[v].fileId];
    var top := order[..max];
    var j :| max <= j < |order| && order[j] == v;
    SetOfSize(top);
    forall id | id in SetOf(top) ensures id in AsNew(t, user, v) {
      var i :| 0 <= i < max && order[i] == id;
      assert id in order && t[id].createdAt >= t[v].createdAt && order[i] != order[j];
      assert Survives(t, user, id);
    }
    SubsetSize(SetOf(top), AsNew(t, user, v));
  }

  lemma DoomedAreCalledFor(t: Table, user: nat, r: Ranking, policy: Policy, now: int, deleted: set<nat>)
    requires ValidRanking(t, Survivors(t, user), r) && deleted <= Doomed(t, Survivors(t, user), r, policy, now)
    ensures CalledFor(t, user, policy, now, deleted)
  {
    forall v | v in deleted && !policy.All? && !TooOld(t[v], policy, now)
      ensures policy.maxVersions > 0 && |AsNew(t, user, v)| >= policy.maxVersions
    {
      assert v in Survivors(t, user) && !Expired(t[v], policy, now);
      RankedOverIsCalledFor(t, user, r, v, policy.maxVersions);
    }
  }

  lemma WithinLimitsIsLiteral(t: Table, user: nat, policy: Policy, now: int)
    requires WithinLimits(t, Survivors(t, user), policy, now)
    ensures NothingLeft(t, user, policy, now)
  {
    forall id | id in t && t[id].userId == user && t[id].status == Exists ensures id in Survivors(t, user) {
      assert Survives(t, user, id);
    }
    if policy.ByLimits? && policy.maxVersions > 0 {
      forall f: nat ensures |Own(t, user, f)| <= policy.maxVersions {
        forall id ensures id in Own(t, user, f) <==> id in OfFile(t, Survivors(t, user), f) {
          if id in OfFile(t, Survivors(t, user), f) { assert Survives(t, user, id); }
        }
        assert Own(t, user, f) == OfFile(t, Survivors(t, user), f);
      }
    }
  }

  lemma OneShotIsLiteral(t: Table, user: nat, deleted: set<nat>, policy: Policy, now: int)
    requires deleted <= Survivors(t, user)
    requires Survivors(t, user) - deleted == OneShotKept(t, Survivors(t, user), policy, now)
    ensures KeepsNewest(t, MarkDeleted(t, deleted), user, policy, now)
  {
    var e := Survivors(t, user);
    forall id | id in t && t[id].userId == user && t[id].status == Exists
      ensures id !in deleted <==>
              && policy.ByLimits? && !TooOld(t[id], policy, now)
              && (policy.maxVersions > 0 ==> |NewerOwn(t, user, id)| < policy.maxVersions)
    {
      assert Survives(t, user, id) && id in e;
      forall u ensures u in NewerOwn(t, user, id) <==> u in Newer(t, e, id) {
        if u in NewerOwn(t, user, id) { assert Survives(t, user, u); }
        if u in Newer(t, e, id) { assert Survives(t, user, u); }
      }
      assert NewerOwn(t, user, id) == Newer(t, e, id);
      assert id !in deleted <==> id in e - deleted;
    }
  }

  /** What a batch has done, and what a finished drain has. */
  lemma BatchLaws(t: Table, outbox: map<nat, Queued>, user: nat, r: Ranking, policy: Policy, now: int, batch: set<nat>)
    requires ValidRanking(t, Survivors(t, user), r) && batch <= Doomed(t, Survivors(t, user), r, policy, now)
    ensures DeletesOwn(t, MarkDeleted(t, batch), user, batch)
    ensures QueuesOwn(t, outbox, Enqueue(outbox, t, batch), batch)
    ensures CalledFor(t, user, policy, now, batch)
  {
    BatchIsLiteral(t, outbox, user, batch);
    DoomedAreCalledFor(t, user, r, policy, now, batch);
  }

  lemma DrainLaws(t: Table, user: nat, deleted: set<nat>, policy: Policy, env: Environment, now: int)
    requires Plausible(env, user) && deleted <= Survivors(t, user)
    requires Justified(t, Survivors(t, user), Survivors(t, user) - deleted, policy, now)
    requires WithinLimits(t, Survivors(t, user) - deleted, policy, now)
    ensures NothingLeft(MarkDeleted(t, deleted), user, policy, now)
    ensures Survivors(MarkDeleted(t, deleted), user) == Survivors(t, user) - deleted
    ensures DistinctTimes(t, Survivors(t, user)) ==>
              && KeepsNewest(t, MarkDeleted(t, deleted), user, policy, now)
              && Survivors(t, user) - deleted == OneShotKept(t, Survivors(t, user), policy, now)
              && deleted == Doomed(t, Survivors(t, user), env.rank(t, 0), policy, now)
  {
    LimitsAfterMarking(t, user, deleted, policy, now);
    WithinLimitsIsLiteral(MarkDeleted(t, deleted), user, policy, now);
    MarkedSurvivors(t, deleted, user);
    if DistinctTimes(t, Survivors(t, user)) {
      DrainTakesTheDoomed(t, user, deleted, policy, env, now);
      OneShotIsLiteral(t, user, deleted, policy, now);
    }
  }

  /** Being within the limits is about the rows that are left, which deleting others does not touch. */
  lemma LimitsAfterMarking(t: Table, user: nat, deleted: set<nat>, policy: Policy, now: int)
    requires deleted <= Survivors(t, user) && WithinLimits(t, Survivors(t, user) - deleted, policy, now)
    ensures WithinLimits(MarkDeleted(t, deleted), Survivors(MarkDeleted(t, deleted), user), policy, now)
  {
    var m := MarkDeleted(t, deleted);
    MarkedSurvivors(t, deleted, user);
    if Capped(policy) {
      forall f: nat ensures |OfFile(m, Survivors(m, user), f)| <= policy.maxVersions {
        assert OfFile(m, Survivors(m, user), f) == OfFile(t, Survivors(t, user) - deleted, f);
      }
    }
  }

  datatype Outcome = Completed(deletedCount: nat) | Failed(deletedCount: nat)

  class VersionStore {
    var table: Table
    var outbox: map<nat, Queued>

    constructor (table: Table, outbox: map<nat, Queued>)
      ensures this.table == table && this.outbox == outbox
    {
      this.table := table;
      this.outbox := outbox;
    }

    /** The subquery: the versions a batch is to delete. */
    method SelectBatch(user: nat, policy: Policy, limit: nat, env: Environment, attempt: nat) returns (chosen: set<nat>)
      requires Plausible(env, user)
      ensures var s := Survivors(table, user);
              var doomed := Doomed(table, s, env.rank(table, attempt), policy, env.clock(attempt));
              AtMost(chosen, doomed, limit)
              && (policy.ByLimits? ==> forall x, y :: x in chosen && y in doomed && y !in chosen ==> x < y)
    {
      var s := Survivors(table, user);
      var r := env.rank(table, attempt);
      var now := env.clock(attempt);
      var doomed := set id | id in s
                             && (policy.All? || Expired(table[id], policy, now)
                                 || (Capped(policy) && RankedOver(r[table[id].fileId], policy.maxVersions, id)));
      chosen := if policy.All? then env.limit(doomed, limit, attempt) else LowestIds(doomed, limit);
    }

    /** deleteUserVersionsByLimits, or deleteUserVersionsBatch, which does not order, under the policy All. */
    method DeleteBatch(user: nat, policy: Policy, limit: nat, env: Environment, attempt: nat)
      returns (count: nat, ghost batch: set<nat>)
      requires Plausible(env, user)
      modifies this
      ensures var s := Survivors(old(table), user);
              var doomed := Doomed(old(table), s, env.rank(old(table), attempt), policy, env.clock(attempt));
              AtMost(batch, doomed, limit)
              && (policy.ByLimits? ==> forall x, y :: x in batch && y in doomed && y !in batch ==> x < y)
      ensures count == |batch|
      ensures table == MarkDeleted(old(table), batch)
      ensures outbox == Enqueue(old(outbox), old(table), batch)
      ensures DeletesOwn(old(table), table, user, batch) && QueuesOwn(old(table), old(outbox), outbox, batch)
      ensures CalledFor(old(table), user, policy, env.clock(attempt), batch)
    {
      var chosen := SelectBatch(user, policy, limit, env, attempt);
      BatchLaws(table, outbox, user, env.rank(table, attempt), policy, env.clock(attempt), chosen);
      batch := chosen;
      count := |chosen|;
      outbox := Enqueue(outbox, table, chosen);
      table := MarkDeleted(table, chosen);
    }

    /** What has been done to the tables since they were `t0` and `o0`: exactly `deleted` was deleted and queued. */
    ghost predicate Deleted(t0: Table, o0: map<nat, Queued>, user: nat, deleted: set<nat>)
      reads this
    {
      && deleted <= Survivors(t0, user)
      && table == MarkDeleted(t0, deleted)
      && outbox == Enqueue(o0, t0, deleted)
    }

    /** One successful attempt within processBatchesWithRetry. */
    method Attempt(user: nat, policy: Policy, batchSize: nat, env: Environment, attempt: nat,
                   ghost t0: Table, ghost o0: map<nat, Queued>, ghost done: set<nat>, ghost last: nat)
      returns (count: nat, ghost deleted: set<nat>)
      requires Plausible(env, user) && last <= attempt && Deleted(t0, o0, user, done)
      requires Justified(t0, Survivors(t0, user), Survivors(t0, user) - done, policy, env.clock(last))
      modifies this
      ensures Deleted(t0, o0, user, deleted) && done <= deleted && |deleted| == |done| + count && count <= batchSize
      ensures Justified(t0, Survivors(t0, user), Survivors(t0, user) - deleted, policy, env.clock(attempt))
      ensures count < batchSize ==> WithinLimits(t0, Survivors(t0, user) - deleted, policy, env.clock(attempt))
    {
      AttemptDooms(t0, user, done, policy, env, attempt);
      ghost var s := Survivors(t0, user) - done;
      ghost var r := env.rank(table, attempt);
      ghost var batch;
      count, batch := DeleteBatch(user, policy, batchSize, env, attempt);
      BatchStep(t0, Survivors(t0, user), s, r, policy, env.clock(last), env.clock(attempt), batchSize, batch);
      MarkedTwice(t0, done, batch);
      EnqueuedTwice(o0, t0, done, batch);
      deleted := done + batch;
      assert s - batch == Survivors(t0, user) - deleted;
    }

    /** The inner loop of processBatchesWithRetry: one batch, tried up to three times. */
    method BatchWithRetries(user: nat, policy: Policy, batchSize: nat, env: Environment, firstAttempt: nat,
                            ghost t0: Table, ghost o0: map<nat, Queued>, ghost done: set<nat>, ghost last: nat)
      returns (success: bool, count: nat, nextAttempt: nat, ghost deleted: set<nat>)
      requires Plausible(env, user) && last <= firstAttempt && Deleted(t0, o0, user, done)
      requires Justified(t0, Survivors(t0, user), Survivors(t0, user) - done, policy, env.clock(last))
      modifies this
      ensures firstAttempt < nextAttempt && Deleted(t0, o0, user, deleted)
      ensures Justified(t0, Survivors(t0, user), Survivors(t0, user) - deleted, policy, env.clock(nextAttempt - 1))
      ensures success ==> done <= deleted && |deleted| == |done| + count && count <= batchSize
      ensures success && count < batchSize ==>
                WithinLimits(t0, Survivors(t0, user) - deleted, policy, env.clock(nextAttempt - 1))
      ensures !success ==> deleted == done && nextAttempt == firstAttempt + 3
      ensures !success ==> forall k :: firstAttempt <= k < nextAttempt ==> env.fails(k)
      ensures success ==> nextAttempt <= firstAttempt + 3 && !env.fails(nextAttempt - 1)
      ensures DeletesOwn(t0, table, user, deleted) && QueuesOwn(t0, o0, outbox, deleted)
    {
      var attempt := firstAttempt;
      var retries := 0;
      while retries < 3
        invariant retries <= 3 && attempt == firstAttempt + retries
        invariant Deleted(t0, o0, user, done)
        invariant forall k :: firstAttempt <= k < attempt ==> env.fails(k)
      {
        if !env.fails(attempt) {
          count, deleted := Attempt(user, policy, batchSize, env, attempt, t0, o0, done, last);
          BatchIsLiteral(t0, o0, user, deleted);
          return true, count, attempt + 1, deleted;
        }
        retries := retries + 1;
        attempt := attempt + 1;
      }
      ghost var e := Survivors(t0, user);
      JustifiedLater(t0, e, e - done, policy, env.clock(last), env.clock(attempt - 1));
      BatchIsLiteral(t0, o0, user, done);
      return false, 0, attempt, done;
    }

    /** One pass of the outer loop: a batch that succeeds deletes `processed` more, one that fails thrice nothing. */
    method NextBatch(user: nat, policy: Policy, batchSize: nat, env: Environment, attempt: nat, ghost failing: nat,
                     ghost t0: Table, ghost o0: map<nat, Queued>, ghost done: set<nat>, ghost last: nat)
      returns (success: bool, processed: nat, next: nat, ghost deleted: set<nat>)
      requires Plausible(env, user) && last <= attempt && Deleted(t0, o0, user, done)
      requires Justified(t0, Survivors(t0, user), Survivors(t0, user) - done, policy, env.clock(last))
      requires batchSize == 0 ==> attempt <= failing
      requires batchSize == 0 ==> env.fails(failing) && env.fails(failing + 1) && env.fails(failing + 2)
      modifies this
      ensures attempt < next && Deleted(t0, o0, user, deleted)
      ensures Justified(t0, Survivors(t0, user), Survivors(t0, user) - deleted, policy, env.clock(next - 1))
      ensures success ==> |deleted| == |done| + processed && processed <= batchSize
      ensures success ==> |Survivors(t0, user) - deleted| == |Survivors(t0, user) - done| - processed
      ensures success && processed < batchSize ==>
                WithinLimits(t0, Survivors(t0, user) - deleted, policy, env.clock(next - 1))
      ensures !success ==> deleted == done && next >= 3
      ensures !success ==> env.fails(next - 1) && env.fails(next - 2) && env.fails(next - 3)
      ensures success && batchSize == 0 ==> next <= failing
    {
      success, processed, next, deleted := BatchWithRetries(user, policy, batchSize, env, attempt, t0, o0, done, last);
      if success { FewerLeft(Survivors(t0, user), done, deleted); }
    }

    /** The outer loop of processBatchesWithRetry. */
    method DrainBatches(user: nat, policy: Policy, batchSize: nat, env: Environment, ghost failing: nat)
      returns (outcome: Outcome, ghost deleted: set<nat>, ghost last: nat)
      requires Plausible(env, user)
      requires batchSize == 0 ==> env.fails(failing) && env.fails(failing + 1) && env.fails(failing + 2)
      modifies this
      ensures Deleted(old(table), old(outbox), user, deleted)
      ensures outcome.deletedCount == |deleted|
      ensures var e := Survivors(old(table), user); Justified(old(table), e, e - deleted, policy, env.clock(last))
      ensures outcome.Completed? ==>
                WithinLimits(old(table), Survivors(old(table), user) - deleted, policy, env.clock(last))
      ensures outcome.Failed? ==> last >= 2 && env.fails(last) && env.fails(last - 1) && env.fails(last - 2)
    {
      ghost var t0, o0, e := table, outbox, Survivors(table, user);
      var total: nat := 0;
      var attempt: nat := 0;
      var processed := batchSize;
      deleted, last := {}, 0;
      NothingDeleted(t0, o0, e, policy, env.clock(0));
      while processed == batchSize
        invariant e == Survivors(t0, user)
        invariant Deleted(t0, o0, user, deleted) && total == |deleted| && last <= attempt
        invariant Justified(t0, e, e - deleted, policy, env.clock(last))
        invariant processed < batchSize ==> WithinLimits(t0, e - deleted, policy, env.clock(last))
        invariant processed <= batchSize
        invariant batchSize == 0 ==> attempt <= failing
        decreases if batchSize == 0 then failing - attempt else |e - deleted|, processed == batchSize
      {
        var success;
        success, processed, attempt, deleted :=
          NextBatch(user, policy, batchSize, env, attempt, failing, t0, o0, deleted, last);
        last := attempt - 1;
        if !success {
          outcome := Failed(total);
          return;
        }
        total := total + processed;
      }
      outcome := Completed(total);
    }

    /**
     * processBatchesWithRetry: batch after batch, until one comes back short or fails three times. Batches of size 0
     * never come back short: then only three failures in a row, of which `failing` is the first, can end it.
     */
    method ProcessBatchesWithRetry(user: nat, policy: Policy, batchSize: nat, env: Environment, ghost failing: nat)
      returns (outcome: Outcome, ghost deleted: set<nat>, ghost last: nat)
      requires Plausible(env, user)
      requires batchSize == 0 ==> env.fails(failing) && env.fails(failing + 1) && env.fails(failing + 2)
      modifies this
      ensures Deleted(old(table), old(outbox), user, deleted)
      ensures outcome.deletedCount == |deleted|
      ensures var e := Survivors(old(table), user); Justified(old(table), e, e - deleted, policy, env.clock(last))
      ensures outcome.Completed? ==>
                WithinLimits(old(table), Survivors(old(table), user) - deleted, policy, env.clock(last))
      ensures outcome.Completed? && DistinctTimes(old(table), Survivors(old(table), user)) ==>
                Survivors(table, user) == OneShotKept(old(table), Survivors(old(table), user), policy, env.clock(last))
      ensures outcome.Completed? && DistinctTimes(old(table), Survivors(old(table), user)) ==>
                var e := Survivors(old(table), user);
                deleted == Doomed(old(table), e, env.rank(old(table), 0), policy, env.clock(last))
      ensures DeletesOwn(old(table), table, user, deleted) && QueuesOwn(old(table), old(outbox), outbox, deleted)
      ensures outcome.Completed? ==> NothingLeft(table, user, policy, env.clock(last))
      ensures outcome.Completed? && DistinctTimes(old(table), Survivors(old(table), user)) ==>
                KeepsNewest(old(table), table, user, policy, env.clock(last))
      ensures outcome.Failed? ==> last >= 2 && env.fails(last) && env.fails(last - 1) && env.fails(last - 2)
    {
      ghost var t0, o0 := table, outbox;
      outcome, deleted, last := DrainBatches(user, policy, batchSize, env, failing);
      BatchIsLiteral(t0, o0, user, deleted);
      if outcome.Completed? { DrainLaws(t0, user, deleted, policy, env, env.clock(last)); }
    }
  }
}
