/**
 * Removing a folder must remove everything below it. Two mechanisms do this: a database trigger that
 * re-fires itself, and a cleanup job that works in batches over a window of removal times, whose own
 * updates fire the trigger too.
 */
module FolderCascade {
  import opened FileDomain
  import opened FiniteSets

  datatype Folder = Folder(parent: Option<nat>, removed: bool, deleted: bool, updatedAt: int)
  datatype File = File(folder: nat, status: FileStatus, removed: bool)

  type Folders = map<nat, Folder>
  type Files = map<nat, File>

  predicate ChildOf(t: Folders, c: nat, p: nat) {
    c in t && t[c].parent == Some(p)
  }

  predicate LiveChildOf(t: Folders, c: nat, p: nat) {
    ChildOf(t, c, p) && !t[c].removed
  }

  // ----- The closure -------------------------------------------------------------------------

  /** The folder or one of its `n` nearest ancestors is removed. */
  predicate RemovedWithin(t: Folders, u: nat, n: nat)
    decreases n
  {
    u in t && (t[u].removed || (n > 0 && t[u].parent.Some? && RemovedWithin(t, t[u].parent.value, n - 1)))
  }

  /** The folder is removed or lies, at any depth, below a removed one. */
  ghost predicate Below(t: Folders, u: nat) {
    exists n: nat :: RemovedWithin(t, u, n)
  }

  // ----- The batch queries -------------------------------------------------------------------

  /** A window of update times; a missing bound is open. */
  datatype Window = Window(start: Option<int>, until: Option<int>)

  predicate InWindow(f: Folder, w: Window) {
    && (w.start.Some? ==> w.start.value <= f.updatedAt)
    && (w.until.Some? ==> f.updatedAt < w.until.value)
  }

  const ALWAYS := Window(None, None)

  /** getDeletedFoldersWithNotDeletedChildren, before its LIMIT. */
  function WithLiveChildren(t: Folders, w: Window): set<nat> {
    set u | u in t && t[u].removed && InWindow(t[u], w) && (exists c :: c in t && LiveChildOf(t, c, u))
  }

  /** markChildFoldersAsRemoved. */
  function MarkChildren(t: Folders, parents: set<nat>, now: int): Folders {
    map c | c in t ::
      if t[c].parent.Some? && t[c].parent.value in parents && !t[c].removed
      then t[c].(removed := true, deleted := true, updatedAt := now)
      else t[c]
  }

  predicate LiveFileIn(files: Files, f: nat, u: nat) {
    f in files && files[f].folder == u && files[f].status != Deleted
  }

  /** getDeletedFoldersWithNotDeletedFiles, before its LIMIT. */
  function WithLiveFiles(t: Folders, files: Files, w: Window): set<nat> {
    set u | u in t && t[u].removed && InWindow(t[u], w) && (exists f :: f in files && LiveFileIn(files, f, u))
  }

  /** markFilesInFolderAsRemoved. */
  function MarkFiles(files: Files, parents: set<nat>): Files {
    map f | f in files ::
      if files[f].folder in parents && files[f].status != Deleted
      then files[f].(status := Deleted, removed := true)
      else files[f]
  }

  // ----- Live paths --------------------------------------------------------------------------

  /** A path of live folders from `u` down to `x`. */
  ghost predicate LivePath(t: Folders, u: nat, x: nat, path: seq<nat>) {
    && |path| >= 1 && path[0] == u && path[|path| - 1] == x
    && (forall i :: 0 <= i < |path| ==> path[i] in t && !t[path[i]].removed)
    && (forall i :: 0 < i < |path| ==> t[path[i]].parent == Some(path[i - 1]))
  }

  ghost predicate LiveUnder(t: Folders, u: nat, x: nat) {
    exists path :: LivePath(t, u, x, path)
  }

  /** The folders removed between two states of the table. */
  ghost function Newly(t: Folders, after: Folders): set<nat> {
    set x | x in t && x in after && !t[x].removed && after[x].removed
  }

  /** What lies on a live path is live, and so is its parent unless it is the path's start. */
  lemma LiveParent(t: Folders, r: nat, x: nat)
    requires LiveUnder(t, r, x)
    ensures x in t && !t[x].removed
    ensures x == r || (t[x].parent.Some? && t[x].parent.value in t && !t[t[x].parent.value].removed)
  {
    var path :| LivePath(t, r, x, path);
    if |path| > 1 { assert t[path[|path| - 1]].parent == Some(path[|path| - 2]); }
  }

  /** Below a removed folder's live child everything lies below the removed folder. */
  lemma {:induction false} PathUnderRemoved(t: Folders, p: nat, c: nat, x: nat, path: seq<nat>)
    requires p in t && t[p].removed && ChildOf(t, c, p) && LivePath(t, c, x, path)
    ensures RemovedWithin(t, x, |path|)
    decreases |path|
  {
    if |path| == 1 {
      assert RemovedWithin(t, p, 0);
    } else {
      PathUnderRemoved(t, p, c, path[|path| - 2], path[..|path| - 1]);
    }
  }

  // ----- Any order of batches reaches the closure --------------------------------------------

  /** The rows that markChildFoldersAsRemoved selects. */
  function LiveChildren(t: Folders, parents: set<nat>): set<nat> {
    set c | c in t && t[c].parent.Some? && t[c].parent.value in parents && !t[c].removed
  }

  /**
   * What removing `roots` did, with the trigger on or off: they are removed, other folders may have been, each
   * along live folders from one of them, and every row not removed by this is as it was.
   */
  ghost predicate Spread(t: Folders, after: Folders, roots: set<nat>) {
    && after.Keys == t.Keys
    && (forall x :: x in t ==> after[x].parent == t[x].parent)
    && (forall x :: x in t && (t[x].removed || !after[x].removed) ==> after[x] == t[x])
    && (forall r :: r in roots && r in t ==> after[r].removed)
    && (forall x :: x in Newly(t, after) ==> exists r :: r in roots && LiveUnder(t, r, x))
  }

  /** With the trigger off, marking the children of some folders spreads no further than to them. */
  lemma PlainBatchSpreads(t: Folders, b: set<nat>, now: int)
    ensures Spread(t, MarkChildren(t, b, now), LiveChildren(t, b))
    ensures var after := MarkChildren(t, b, now);
            forall x :: x in t ==>
              if !t[x].removed && exists p :: p in b && t[x].parent == Some(p)
              then after[x] == t[x].(removed := true, deleted := true, updatedAt := now)
              else after[x] == t[x]
  {
    forall x | x in Newly(t, MarkChildren(t, b, now)) ensures x in LiveChildren(t, b) && LiveUnder(t, x, x) {
      assert LivePath(t, x, x, [x]);
    }
  }

  lemma {:induction false} RemovedStays(t: Folders, after: Folders, roots: set<nat>, u: nat, n: nat)
    requires Spread(t, after, roots) && RemovedWithin(t, u, n)
    ensures RemovedWithin(after, u, n)
    decreases n
  {
    if !t[u].removed { RemovedStays(t, after, roots, t[u].parent.value, n - 1); }
  }

  lemma {:induction false} RemovedWasBelow(t: Folders, after: Folders, b: set<nat>, u: nat, n: nat)
    requires b <= WithLiveChildren(t, ALWAYS) && Spread(t, after, LiveChildren(t, b)) && RemovedWithin(after, u, n)
    ensures Below(t, u)
    decreases n
  {
    if t[u].removed {
      assert RemovedWithin(t, u, 0);
    } else if after[u].removed {
      assert u in Newly(t, after);
      var c :| c in LiveChildren(t, b) && LiveUnder(t, c, u);
      var path :| LivePath(t, c, u, path);
      PathUnderRemoved(t, t[c].parent.value, c, u, path);
    } else {
      RemovedWasBelow(t, after, b, t[u].parent.value, n - 1);
      var m: nat :| RemovedWithin(t, t[u].parent.value, m);
      assert RemovedWithin(t, u, m + 1);
    }
  }

  /** Removing the children of any selected folders moves no folder into or out of the closure. */
  lemma BatchKeepsClosure(t: Folders, after: Folders, b: set<nat>, u: nat)
    requires b <= WithLiveChildren(t, ALWAYS) && Spread(t, after, LiveChildren(t, b))
    ensures Below(after, u) <==> Below(t, u)
  {
    if Below(after, u) {
      var n: nat :| RemovedWithin(after, u, n);
      RemovedWasBelow(t, after, b, u, n);
    }
    if Below(t, u) {
      var n: nat :| RemovedWithin(t, u, n);
      RemovedStays(t, after, LiveChildren(t, b), u, n);
    }
  }

  function Live(t: Folders): set<nat> {
    set u | u in t && !t[u].removed
  }

  lemma BatchShrinksLive(t: Folders, after: Folders, b: set<nat>)
    requires b <= WithLiveChildren(t, ALWAYS) && b != {} && Spread(t, after, LiveChildren(t, b))
    ensures Live(after) < Live(t)
  {
    var p :| p in b;
    var c :| c in t && LiveChildOf(t, c, p);
    assert c in LiveChildren(t, b);
    assert c in Live(t) && c !in Live(after);
  }

  /** A live folder in the closure means that some removed folder still has a live child. */
  lemma {:induction false} UnsettledIfLiveBelow(t: Folders, u: nat, n: nat)
    requires RemovedWithin(t, u, n) && !t[u].removed
    ensures WithLiveChildren(t, ALWAYS) != {}
    decreases n
  {
    var p := t[u].parent.value;
    if t[p].removed {
      assert LiveChildOf(t, u, p);
      assert p in WithLiveChildren(t, ALWAYS);
    } else {
      UnsettledIfLiveBelow(t, p, n - 1);
    }
  }

  /** A run of non-empty batches, each chosen from what is then selected. */
  ghost predicate IsRun(tables: seq<Folders>, batches: seq<set<nat>>) {
    && |tables| == |batches| + 1
    && forall i :: 0 <= i < |batches| ==>
         && batches[i] != {} && batches[i] <= WithLiveChildren(tables[i], ALWAYS)
         && Spread(tables[i], tables[i + 1], LiveChildren(tables[i], batches[i]))
  }

  lemma {:induction false} RunBound(tables: seq<Folders>, batches: seq<set<nat>>, k: nat, u: nat)
    requires IsRun(tables, batches) && k <= |batches|
    ensures k + |Live(tables[k])| <= |Live(tables[0])| && tables[k].Keys == tables[0].Keys
    ensures Below(tables[k], u) <==> Below(tables[0], u)
    decreases k
  {
    if k > 0 {
      RunBound(tables, batches, k - 1, u);
      BatchShrinksLive(tables[k - 1], tables[k], batches[k - 1]);
      ProperSubsetSize(Live(tables[k]), Live(tables[k - 1]));
      BatchKeepsClosure(tables[k - 1], tables[k], batches[k - 1], u);
    }
  }

  /** The tables that batches leave with the trigger off. */
  function PlainTables(t: Folders, batches: seq<set<nat>>, now: int): seq<Folders>
    decreases |batches|
  {
    [t] + if batches == [] then [] else PlainTables(MarkChildren(t, batches[0], now), batches[1..], now)
  }

  /** Each batch is chosen from what the query then selects. */
  ghost predicate Selecting(t: Folders, batches: seq<set<nat>>, now: int)
    decreases |batches|
  {
    batches == [] || (
    && batches[0] != {} && batches[0] <= WithLiveChildren(t, ALWAYS)
    && Selecting(MarkChildren(t, batches[0], now), batches[1..], now))
  }

  lemma ConsIsRun(t: Folders, tables: seq<Folders>, batches: seq<set<nat>>)
    requires batches != [] && IsRun(tables, batches[1..])
    requires batches[0] != {} && batches[0] <= WithLiveChildren(t, ALWAYS)
    requires Spread(t, tables[0], LiveChildren(t, batches[0]))
    ensures IsRun([t] + tables, batches)
  {
    var all := [t] + tables;
    forall i | 0 <= i < |batches|
      ensures batches[i] != {} && batches[i] <= WithLiveChildren(all[i], ALWAYS)
      ensures Spread(all[i], all[i + 1], LiveChildren(all[i], batches[i]))
    {
      if i > 0 { assert all[i] == tables[i - 1] && all[i + 1] == tables[i] && batches[i] == batches[1..][i - 1]; }
    }
  }

  /** The select and the update alone make a run; with the trigger on, MarkChildFoldersAsRemoved makes one too. */
  lemma {:induction false} PlainBatchesAreRun(t: Folders, batches: seq<set<nat>>, now: int)
    requires Selecting(t, batches, now)
    ensures IsRun(PlainTables(t, batches, now), batches) && PlainTables(t, batches, now)[0] == t
    decreases |batches|
  {
    if batches != [] {
      var t' := MarkChildren(t, batches[0], now);
      PlainBatchesAreRun(t', batches[1..], now);
      PlainBatchSpreads(t, batches[0], now);
      ConsIsRun(t, PlainTables(t', batches[1..], now), batches);
    }
  }

  lemma SettledIsClosure(t: Folders, u: nat)
    requires u in t && WithLiveChildren(t, ALWAYS) == {}
    ensures t[u].removed <==> Below(t, u)
  {
    if t[u].removed { assert RemovedWithin(t, u, 0); }
    if Below(t, u) {
      var n: nat :| RemovedWithin(t, u, n);
      if !t[u].removed { UnsettledIfLiveBelow(t, u, n); }
    }
  }

  /**
   * The cascade is a fixpoint: any run of batches is at most as long as there are live folders, and a
   * run that can go no further has removed exactly the closure, whatever the batches were.
   */
  lemma CascadeIsClosure(tables: seq<Folders>, batches: seq<set<nat>>)
    requires IsRun(tables, batches)
    ensures |batches| <= |Live(tables[0])|
    ensures var t, end := tables[0], tables[|batches|];
            WithLiveChildren(end, ALWAYS) == {} ==> forall u :: u in t && u in end ==> (end[u].removed <==> Below(t, u))
  {
    var t, end := tables[0], tables[|batches|];
    RunBound(tables, batches, |batches|, 0);
    if WithLiveChildren(end, ALWAYS) == {} {
      forall u | u in t ensures end[u].removed <==> Below(t, u) {
        RunBound(tables, batches, |batches|, u);
        SettledIsClosure(end, u);
      }
    }
  }

  // ----- The recursive trigger ---------------------------------------------------------------

  /** What firing the trigger did: removed flags only rose, each for a folder under `u`, and leaving no live child. */
  ghost predicate Cascaded(t: Folders, after: Folders, u: nat) {
    && after.Keys == t.Keys
    && (forall x :: x in t ==> after[x] == t[x] || (after[x] == t[x].(removed := true) && !t[x].removed))
    && (forall x :: x in Newly(t, after) ==> LiveUnder(t, u, x))
    && (forall x, c :: x in Newly(t, after) && c in t && ChildOf(t, c, x) ==> after[c].removed)
  }

  /** Depths witness that the tree has no cycle. */
  ghost predicate Ranked(t: Folders, depth: map<nat, nat>, bound: nat) {
    && (forall c :: c in t ==> c in depth && depth[c] <= bound)
    && (forall c, p :: c in t && p in t && ChildOf(t, c, p) ==> depth[p] < depth[c])
  }

  lemma UnderParent(t: Folders, mid: Folders, u: nat, c: nat, x: nat)
    requires u in t && !t[u].removed && ChildOf(t, c, u)
    requires mid.Keys == t.Keys
    requires forall y :: y in t ==> mid[y].parent == t[y].parent && (!mid[y].removed ==> !t[y].removed)
    requires LiveUnder(mid, c, x)
    ensures LiveUnder(t, u, x)
  {
    var path :| LivePath(mid, c, x, path);
    assert LivePath(t, u, x, [u] + path);
  }

  /** Firing the trigger for a child of `u` extends what firing it for `u` has done so far. */
  lemma ChildCascades(t: Folders, mid: Folders, after: Folders, u: nat, c: nat)
    requires u in t && !t[u].removed && ChildOf(t, c, u)
    requires Cascaded(t, mid, u) && Cascaded(mid, after, c)
    ensures Cascaded(t, after, u)
  {
    forall x | x in Newly(t, after) ensures LiveUnder(t, u, x) {
      if x in Newly(t, mid) {
      } else {
        assert x in Newly(mid, after);
        UnderParent(t, mid, u, c, x);
      }
    }
    forall x, d | x in Newly(t, after) && d in t && ChildOf(t, d, x) ensures after[d].removed {
      if x in Newly(t, mid) { assert mid[d].removed; } else { assert x in Newly(mid, after) && ChildOf(mid, d, x); }
    }
  }

  lemma RootCascades(t: Folders, mid: Folders, u: nat)
    requires u in t && !t[u].removed && Cascaded(t, mid, u)
    requires forall c :: c in t && ChildOf(t, c, u) ==> mid[c].removed
    ensures Cascaded(t, mid[u := mid[u].(removed := true)], u)
  {
    assert LivePath(t, u, u, [u]);
  }

  function Children(t: Folders, u: nat): set<nat> {
    set c | c in t && ChildOf(t, c, u)
  }

  /** The state of the tables while the trigger for `u` works through its children. */
  ghost predicate Ongoing(t: Folders, before: Files, folders: Folders, files: Files, u: nat) {
    Cascaded(t, folders, u) && files == MarkFolderFiles(before, Newly(t, folders) + {u})
  }

  lemma StartCascade(t: Folders, before: Files, u: nat)
    ensures Ongoing(t, before, t, MarkFolderFiles(before, {u}), u)
  {
    assert Newly(t, t) + {u} == {u};
  }

  lemma RankedStill(t: Folders, mid: Folders, u: nat, c: nat, depth: map<nat, nat>, bound: nat)
    requires Ranked(t, depth, bound) && u in t && c in Children(t, u)
    requires mid.Keys == t.Keys && forall x :: x in t ==> mid[x].parent == t[x].parent
    ensures Ranked(mid, depth, bound) && c in mid && depth[u] < depth[c] <= bound
  {
    assert ChildOf(t, c, u);
    forall a, p | a in mid && p in mid && ChildOf(mid, a, p) ensures depth[p] < depth[a] { assert ChildOf(t, a, p); }
  }

  lemma ContinueCascade(t: Folders, before: Files, mid: Folders, midFiles: Files, after: Folders, files: Files,
                        u: nat, c: nat)
    requires u in t && !t[u].removed && c in Children(t, u)
    requires Ongoing(t, before, mid, midFiles, u) && Cascaded(mid, after, c)
    requires files == MarkFolderFiles(midFiles, Newly(mid, after))
    ensures Ongoing(t, before, after, files, u)
    ensures forall x :: x in mid && mid[x].removed ==> after[x].removed
  {
    ChildCascades(t, mid, after, u, c);
    MarkedInTurn(before, t, mid, after, u);
  }

  lemma EndCascade(t: Folders, before: Files, folders: Folders, files: Files, u: nat)
    requires u in t && !t[u].removed && Ongoing(t, before, folders, files, u)
    requires forall c :: c in Children(t, u) ==> c in folders && folders[c].removed
    ensures var after := folders[u := folders[u].(removed := true)];
            Cascaded(t, after, u) && files == MarkFolderFiles(before, Newly(t, after))
  {
    forall c | c in t && ChildOf(t, c, u) ensures folders[c].removed { assert c in Children(t, u); }
    RootCascades(t, folders, u);
    assert Newly(t, folders[u := folders[u].(removed := true)]) == Newly(t, folders) + {u};
  }

  /** The trigger's UPDATE of files: by folder, whatever their status. */
  function MarkFolderFiles(files: Files, parents: set<nat>): Files {
    map f | f in files :: if files[f].folder in parents then files[f].(status := Deleted, removed := true) else files[f]
  }

  /** The files of the folders just removed are deleted, all of them, and no other file is touched. */
  ghost predicate FilesFollow(t: Folders, before: Files, folders: Folders, files: Files) {
    && files.Keys == before.Keys
    && forall f :: f in before ==>
         var u := before[f].folder;
         if u in t && !t[u].removed && u in folders && folders[u].removed
         then files[f] == before[f].(status := Deleted, removed := true)
         else files[f] == before[f]
  }

  lemma MarkedFollow(t: Folders, before: Files, folders: Folders)
    ensures FilesFollow(t, before, folders, MarkFolderFiles(before, Newly(t, folders)))
  {}

  lemma NoFilesMarked(files: Files)
    ensures MarkFolderFiles(files, {}) == files
  {}

  lemma MarkedInTurn(files: Files, t: Folders, mid: Folders, after: Folders, u: nat)
    requires t.Keys == mid.Keys == after.Keys
    requires forall x :: x in t ==> (t[x].removed ==> mid[x].removed) && (mid[x].removed ==> after[x].removed)
    ensures MarkFolderFiles(MarkFolderFiles(files, Newly(t, mid) + {u}), Newly(mid, after))
            == MarkFolderFiles(files, Newly(t, after) + {u})
  {
    assert Newly(t, after) == Newly(t, mid) + Newly(mid, after);
  }

  // ----- The trigger under a statement that removes many folders -----------------------------

  /** What removing `roots` did with the trigger on: it spread until no folder just removed had a live child. */
  ghost predicate Swept(t: Folders, after: Folders, roots: set<nat>) {
    && Spread(t, after, roots)
    && forall x, c :: x in Newly(t, after) && c in t && ChildOf(t, c, x) ==> after[c].removed
  }

  /** The columns markChildFoldersAsRemoved sets on each row it selects. */
  function MarkedFolder(f: Folder, now: int): Folder {
    f.(removed := true, deleted := true, updatedAt := now)
  }

  lemma CascadeSweeps(t: Folders, after: Folders, u: nat, now: int)
    requires u in t && !t[u].removed && Cascaded(t, after, u) && after[u].removed
    ensures Swept(t, after[u := MarkedFolder(t[u], now)], {u})
    ensures Newly(t, after[u := MarkedFolder(t[u], now)]) == Newly(t, after)
  {}

  /** Sweeping from some folders and then from others sweeps from all of them. */
  lemma SweepsCompose(t: Folders, mid: Folders, after: Folders, a: set<nat>, b: set<nat>)
    requires Swept(t, mid, a) && Swept(mid, after, b)
    ensures Swept(t, after, a + b)
  {
    forall x | x in Newly(t, after) ensures exists r :: r in a + b && LiveUnder(t, r, x) {
      if x in Newly(t, mid) {
        var r :| r in a && LiveUnder(t, r, x);
        assert r in a + b;
      } else {
        assert x in Newly(mid, after);
        var r :| r in b && LiveUnder(mid, r, x);
        var path :| LivePath(mid, r, x, path);
        assert LivePath(t, r, x, path);
        assert r in a + b;
      }
    }
    forall x, c | x in Newly(t, after) && c in t && ChildOf(t, c, x) ensures after[c].removed {
      if x in Newly(t, mid) { assert mid[c].removed; } else { assert x in Newly(mid, after) && ChildOf(mid, c, x); }
    }
  }

  lemma RootsGrow(t: Folders, after: Folders, a: set<nat>, b: set<nat>)
    requires Swept(t, after, a) && a <= b && forall r :: r in b && r in t ==> after[r].removed
    ensures Swept(t, after, b)
  {
    forall x | x in Newly(t, after) ensures exists r :: r in b && LiveUnder(t, r, x) {
      var r :| r in a && LiveUnder(t, r, x);
      assert r in b;
    }
  }

  /** While the roots of a statement are handled one by one, those to come are not reached from those done. */
  lemma OthersUntouched(t: Folders, mid: Folders, parents: set<nat>, done: set<nat>, c: nat)
    requires forall p :: p in parents ==> p in t && t[p].removed
    requires done <= LiveChildren(t, parents) && Spread(t, mid, done) && c in LiveChildren(t, parents) && c !in done
    ensures mid[c] == t[c]
  {
    if mid[c].removed {
      assert c in Newly(t, mid);
      var r :| r in done && LiveUnder(t, r, c);
      LiveParent(t, r, c);
      assert false;
    }
  }

  /** A sweep from the children of `handled` takes exactly `handled` out of every selection. */
  lemma SweptSelection(t: Folders, after: Folders, handled: set<nat>, w: Window)
    requires handled <= WithLiveChildren(t, ALWAYS) && Swept(t, after, LiveChildren(t, handled))
    ensures WithLiveChildren(after, w) == WithLiveChildren(t, w) - handled
  {
    forall u ensures u in WithLiveChildren(after, w) <==> u in WithLiveChildren(t, w) - handled {
      if u in WithLiveChildren(after, w) {
        var c :| c in after && LiveChildOf(after, c, u);
        assert ChildOf(t, c, u) && LiveChildOf(t, c, u);
        assert u !in Newly(t, after);
        assert u in handled ==> c in LiveChildren(t, handled);
      }
      if u in WithLiveChildren(t, w) - handled {
        var c :| c in t && LiveChildOf(t, c, u);
        if c in Newly(t, after) {
          var r :| r in LiveChildren(t, handled) && LiveUnder(t, r, c);
          LiveParent(t, r, c);
          assert false;
        }
        assert LiveChildOf(after, c, u);
      }
    }
  }

  // ----- The cleanup job ---------------------------------------------------------------------

  const BATCH_SIZE := 100

  /** The database's choices: which of the selected rows a LIMIT returns on each call, and the clock. */
  datatype Database = Database(limit: (set<nat>, nat) -> seq<nat>, clock: nat -> int)

  ghost predicate Plausible(db: Database) {
    forall s: set<nat>, call: nat :: Returned(s, db.limit(s, call))
  }

  /** At most a batch of distinct selected rows, and all of them when they fit. */
  ghost predicate Returned(s: set<nat>, rows: seq<nat>) {
    && NoRepeats(rows)
    && (forall u :: u in rows ==> u in s)
    && |rows| == if |s| < BATCH_SIZE then |s| else BATCH_SIZE
  }

  /** A short answer is the whole selection. */
  lemma ShortIsAll(s: set<nat>, rows: seq<nat>)
    requires Returned(s, rows)
    ensures SetOf(rows) <= s && |SetOf(rows)| == |rows|
    ensures |rows| < BATCH_SIZE ==> SetOf(rows) == s
  {
    SetOfSize(rows);
    if |rows| < BATCH_SIZE && SetOf(rows) != s { ProperSubsetSize(SetOf(rows), s); }
  }

  /** Everything the folders phase knows between two batches. */
  ghost predicate FoldersPhaseState(t: Folders, before: Files, folders: Folders, files: Files, handled: set<nat>,
                                    w: Window) {
    && handled <= WithLiveChildren(t, w)
    && Swept(t, folders, LiveChildren(t, handled))
    && files == MarkFolderFiles(before, Newly(t, folders))
  }

  lemma FoldersStart(t: Folders, before: Files, w: Window)
    ensures FoldersPhaseState(t, before, t, before, {}, w)
  {
    assert Newly(t, t) == {};
    NoFilesMarked(before);
  }

  /** A batch of the folders phase, as the statement with the trigger carries it out. */
  lemma FoldersStep(t: Folders, before: Files, mid: Folders, midFiles: Files, after: Folders, files: Files,
                    handled: set<nat>, w: Window, b: set<nat>)
    requires FoldersPhaseState(t, before, mid, midFiles, handled, w) && b <= WithLiveChildren(t, w)
    requires Swept(mid, after, LiveChildren(mid, b)) && files == MarkFolderFiles(midFiles, Newly(mid, after))
    ensures FoldersPhaseState(t, before, after, files, handled + b, w)
  {
    SweepsCompose(t, mid, after, LiveChildren(t, handled), LiveChildren(mid, b));
    assert LiveChildren(mid, b) <= LiveChildren(t, b);
    assert LiveChildren(t, handled) + LiveChildren(mid, b) <= LiveChildren(t, handled + b);
    RootsGrow(t, after, LiveChildren(t, handled) + LiveChildren(mid, b), LiveChildren(t, handled + b));
    assert Newly(t, after) == Newly(t, mid) + Newly(mid, after);
  }

  /**
   * Of the folders just removed the live children of `handled` took the statement's columns, with the time of some
   * batch, and the others took `removed` alone.
   */
  ghost predicate Stamped(t: Folders, folders: Folders, handled: set<nat>, clock: nat -> int) {
    forall x :: x in Newly(t, folders) ==>
      if t[x].parent.Some? && t[x].parent.value in handled
      then exists call: nat :: folders[x] == StampedRow(t[x], clock(call))
      else folders[x] == t[x].(removed := true)
  }

  ghost function StampedRow(f: Folder, time: int): Folder {
    Folder(f.parent, true, true, time)
  }

  lemma StampedStep(t: Folders, before: Files, mid: Folders, midFiles: Files, after: Folders, files: Files,
                    handled: set<nat>, w: Window, b: set<nat>, clock: nat -> int, call: nat)
    requires FoldersPhaseState(t, before, mid, midFiles, handled, w) && b <= WithLiveChildren(t, w)
    requires Stamped(t, mid, handled, clock)
    requires Marked(mid, midFiles, after, files, LiveChildren(mid, b), clock(call))
    ensures Stamped(t, after, handled + b, clock)
  {
    forall x | x in Newly(t, after)
      ensures if t[x].parent.Some? && t[x].parent.value in handled + b
              then exists n: nat :: after[x] == StampedRow(t[x], clock(n))
              else after[x] == t[x].(removed := true)
    {
      if x in Newly(t, mid) {
        var r :| r in LiveChildren(t, handled) && LiveUnder(t, r, x);
        LiveParent(t, r, x);
        assert x !in LiveChildren(mid, b) && after[x] == mid[x];
      } else {
        assert mid[x] == t[x];
        if x in LiveChildren(mid, b) { assert after[x] == StampedRow(t[x], clock(call)); }
      }
    }
  }

  /** What the files phase has done once the folders in `handled` are dealt with. */
  ghost predicate FilesRemoved(t: Folders, before: Files, files: Files, handled: set<nat>, w: Window) {
    && files == MarkFiles(before, handled)
    && WithLiveFiles(t, files, w) == WithLiveFiles(t, before, w) - handled
  }

  lemma FilesStart(t: Folders, files: Files, w: Window)
    ensures FilesRemoved(t, files, files, {}, w)
  {
    assert MarkFiles(files, {}) == files;
  }

  lemma FilesStep(t: Folders, before: Files, files: Files, handled: set<nat>, w: Window, b: set<nat>)
    requires FilesRemoved(t, before, files, handled, w)
    ensures FilesRemoved(t, before, MarkFiles(files, b), handled + b, w)
  {
    var after := MarkFiles(files, b);
    assert after == MarkFiles(before, handled + b);
    forall u ensures u in WithLiveFiles(t, after, w) <==> u in WithLiveFiles(t, before, w) - (handled + b) {
      if u in WithLiveFiles(t, after, w) {
        var f :| f in after && LiveFileIn(after, f, u);
        assert LiveFileIn(files, f, u);
        assert u in WithLiveFiles(t, files, w);
      }
      if u in WithLiveFiles(t, before, w) - (handled + b) {
        assert u in WithLiveFiles(t, files, w);
        var f :| f in files && LiveFileIn(files, f, u);
        assert LiveFileIn(after, f, u);
      }
    }
  }

  datatype PhaseResult = Processed(items: nat) | Stuck

  /** processPhase's guard: the first folder of a batch must not come back again and again. */
  datatype Guard = Guard(first: Option<nat>, repeated: nat)

  function Watch(g: Guard, rows: seq<nat>): Guard
    requires rows != []
  {
    if g.first.Some? && g.first.value in rows then g.(repeated := g.repeated + 1) else Guard(Some(rows[0]), 0)
  }

  ghost predicate Quiet(g: Guard, handled: set<nat>) {
    g.repeated == 0 && (g.first.Some? ==> g.first.value in handled)
  }

  /** Batches that never overlap keep the guard quiet. */
  lemma WatchStaysQuiet(g: Guard, handled: set<nat>, rows: seq<nat>)
    requires rows != [] && Quiet(g, handled) && handled !! SetOf(rows)
    ensures Quiet(Watch(g, rows), handled + SetOf(rows))
  {
    assert rows[0] in SetOf(rows);
    assert forall u :: u in rows ==> u in SetOf(rows);
  }

  /** The bookkeeping of one batch: rows are new, counted once, and short batches finish the selection. */
  lemma BatchOf(selected: set<nat>, handled: set<nat>, rows: seq<nat>, g: Guard)
    requires handled <= selected && Returned(selected - handled, rows) && Quiet(g, handled)
    ensures handled + SetOf(rows) <= selected && |handled + SetOf(rows)| == |handled| + |rows|
    ensures SetOf(rows) <= selected - handled
    ensures |rows| < BATCH_SIZE ==> handled + SetOf(rows) == selected
    ensures rows == [] ==> handled == selected
    ensures rows != [] ==> Quiet(Watch(g, rows), handled + SetOf(rows))
    ensures rows != [] ==> selected - (handled + SetOf(rows)) < selected - handled
  {
    ShortIsAll(selected - handled, rows);
    if rows != [] {
      WatchStaysQuiet(g, handled, rows);
      assert rows[0] in SetOf(rows);
    }
  }

  /** Everything the files phase knows between two batches. */
  ghost predicate FilesPhaseState(t: Folders, before: Files, files: Files, handled: set<nat>, w: Window, g: Guard,
                                  processed: nat) {
    && handled <= WithLiveFiles(t, before, w) && processed == |handled| && Quiet(g, handled)
    && FilesRemoved(t, before, files, handled, w)
  }

  lemma FilesBatch(t: Folders, before: Files, files: Files, handled: set<nat>, w: Window, g: Guard, processed: nat,
                   rows: seq<nat>)
    requires FilesPhaseState(t, before, files, handled, w, g, processed) && Returned(WithLiveFiles(t, files, w), rows)
    ensures |rows| < BATCH_SIZE ==> handled + SetOf(rows) == WithLiveFiles(t, before, w)
    ensures rows == [] ==> handled == WithLiveFiles(t, before, w)
    ensures rows != [] ==> Watch(g, rows).repeated == 0
    ensures rows != [] ==>
              && FilesPhaseState(t, before, MarkFiles(files, SetOf(rows)), handled + SetOf(rows), w, Watch(g, rows),
                                 processed + |rows|)
              && WithLiveFiles(t, before, w) - (handled + SetOf(rows)) < WithLiveFiles(t, before, w) - handled
  {
    BatchOf(WithLiveFiles(t, before, w), handled, rows, g);
    FilesStep(t, before, files, handled, w, SetOf(rows));
  }

  lemma FilesEnd(t: Folders, before: Files, files: Files, handled: set<nat>, w: Window)
    requires FilesRemoved(t, before, files, handled, w) && handled == WithLiveFiles(t, before, w)
    ensures files == MarkFiles(before, WithLiveFiles(t, before, w)) && WithLiveFiles(t, files, w) == {}
  {
    assert WithLiveFiles(t, before, w) - handled == {};
  }

  class FolderStore {
    var folders: Folders
    var files: Files

    constructor (folders: Folders, files: Files)
      ensures this.folders == folders && this.files == files
    {
      this.folders := folders;
      this.files := files;
    }

    /**
     * `UPDATE folders SET removed = true` on one row, with mark_deleted_files_v3 firing before it: the
     * row's files, then its children by the same update, and last the row itself.
     */
    method Remove(u: nat, ghost depth: map<nat, nat>, ghost bound: nat)
      requires u in folders && Ranked(folders, depth, bound)
      modifies this
      ensures Cascaded(old(folders), folders, u) && folders[u].removed
      ensures files == MarkFolderFiles(old(files), Newly(old(folders), folders))
      ensures FilesFollow(old(folders), old(files), folders, files)
      decreases bound - depth[u]
    {
      ghost var t, before := folders, files;
      if !folders[u].removed {
        files := MarkFolderFiles(files, {u});
        var children := Children(folders, u);
        StartCascade(t, before, u);
        while children != {}
          invariant children <= Children(t, u)
          invariant Ongoing(t, before, folders, files, u)
          invariant forall c :: c in Children(t, u) && c !in children ==> c in folders && folders[c].removed
          decreases children
        {
          var c :| c in children;
          ghost var mid, midFiles := folders, files;
          RankedStill(t, folders, u, c, depth, bound);
          Remove(c, depth, bound);
          ContinueCascade(t, before, mid, midFiles, folders, files, u, c);
          children := children - {c};
        }
        EndCascade(t, before, folders, files, u);
      } else {
        assert Newly(t, folders) == {};
        NoFilesMarked(files);
      }
      folders := folders[u := folders[u].(removed := true)];
      MarkedFollow(t, before, folders);
    }

    /** One row of the statement below: the trigger fires, and the row takes its new columns. */
    method MarkRow(c: nat, now: int, ghost t: Folders, ghost before: Files, ghost parents: set<nat>,
                   ghost done: set<nat>,
                   ghost depth: map<nat, nat>, ghost bound: nat)
      requires Ranked(t, depth, bound) && forall p :: p in parents ==> p in t && t[p].removed
      requires done <= LiveChildren(t, parents) && c in LiveChildren(t, parents) && c !in done
      requires Marked(t, before, folders, files, done, now)
      modifies this
      ensures Marked(t, before, folders, files, done + {c}, now)
    {
      ghost var mid, midFiles := folders, files;
      OthersUntouched(t, mid, parents, done, c);
      SameRanks(t, mid, depth, bound);
      Remove(c, depth, bound);
      MarkingStep(t, before, mid, midFiles, folders, files, done, c, now);
      folders := folders[c := folders[c].(deleted := true, updatedAt := now)];
    }

    /** One UPDATE statement, row by row, with the trigger firing before each. */
    method MarkChildFoldersAsRemoved(parents: set<nat>, now: int, ghost depth: map<nat, nat>, ghost bound: nat)
      returns (updatedCount: nat)
      requires Ranked(folders, depth, bound) && forall p :: p in parents ==> p in folders && folders[p].removed
      modifies this
      ensures Marked(old(folders), old(files), folders, files, LiveChildren(old(folders), parents), now)
      ensures FilesFollow(old(folders), old(files), folders, files)
      ensures updatedCount == |LiveChildren(old(folders), parents)|
    {
      ghost var t, before := folders, files;
      var todo := LiveChildren(folders, parents);
      ghost var rows, done := todo, {};
      updatedCount := |todo|;
      MarkingStart(t, before, now);
      while todo != {}
        invariant done == rows - todo && todo <= rows
        invariant Marked(t, before, folders, files, done, now)
        decreases todo
      {
        var c :| c in todo;
        MarkRow(c, now, t, before, parents, done, depth, bound);
        todo, done := todo - {c}, done + {c};
      }
      assert done == rows;
      MarkedFollow(t, before, folders);
    }

    /**
     * The folders phase of one run. Whatever the database returns it handles each folder selected at
     * the start once and never meets its stuck check; its updates and the trigger remove everything below.
     */
    method FoldersPhase(w: Window, db: Database, ghost depth: map<nat, nat>, ghost bound: nat)
      returns (result: PhaseResult)
      requires Plausible(db) && Ranked(folders, depth, bound)
      modifies this
      ensures result == Processed(|WithLiveChildren(old(folders), w)|)
      ensures FoldersPhaseState(old(folders), old(files), folders, files, WithLiveChildren(old(folders), w), w)
      ensures Stamped(old(folders), folders, WithLiveChildren(old(folders), w), db.clock)
    {
      ghost var t, before, handled := folders, files, {};
      var guard := Guard(None, 0);
      var processed: nat := 0;
      var call: nat := 0;
      var more := true;
      FoldersStart(t, before, w);
      while more
        invariant FoldersPhaseState(t, before, folders, files, handled, w) && Stamped(t, folders, handled, db.clock)
        invariant processed == |handled| && Quiet(guard, handled)
        invariant !more ==> handled == WithLiveChildren(t, w)
        decreases WithLiveChildren(t, w) - handled, more
      {
        SweptSelection(t, folders, handled, w);
        var rows := db.limit(WithLiveChildren(folders, w), call);
        BatchOf(WithLiveChildren(t, w), handled, rows, guard);
        if |rows| == 0 {
          break;
        }
        guard := Watch(guard, rows);
        if guard.repeated >= 3 {
          return Stuck;
        }
        ghost var mid, midFiles := folders, files;
        SameRanks(t, folders, depth, bound);
        var updated := MarkChildFoldersAsRemoved(SetOf(rows), db.clock(call), depth, bound);
        FoldersStep(t, before, mid, midFiles, folders, files, handled, w, SetOf(rows));
        StampedStep(t, before, mid, midFiles, folders, files, handled, w, SetOf(rows), db.clock, call);
        handled := handled + SetOf(rows);
        processed := processed + |rows|;
        call := call + 1;
        more := |rows| == BATCH_SIZE;
      }
      result := Processed(processed);
    }

    /** One batch of processPhase: the stuck check, then markFilesInFolderAsRemoved. */
    method ProcessFiles(w: Window, rows: seq<nat>, guard: Guard, ghost before: Files, ghost handled: set<nat>,
                        ghost processed: nat)
      returns (next: Guard, stuck: bool)
      requires FilesPhaseState(folders, before, files, handled, w, guard, processed)
      requires rows != [] && Returned(WithLiveFiles(folders, files, w), rows)
      modifies this`files
      ensures !stuck
      ensures FilesPhaseState(folders, before, files, handled + SetOf(rows), w, next, processed + |rows|)
    {
      FilesBatch(folders, before, files, handled, w, guard, processed, rows);
      next := Watch(guard, rows);
      if next.repeated >= 3 {
        return next, true;
      }
      files := MarkFiles(files, SetOf(rows));
      stuck := false;
    }

    /** The files phase of one run: no live file is left directly in a removed folder of the window. */
    method FilesPhase(w: Window, db: Database) returns (result: PhaseResult)
      requires Plausible(db)
      modifies this`files
      ensures result == Processed(|WithLiveFiles(folders, old(files), w)|)
      ensures files == MarkFiles(old(files), WithLiveFiles(folders, old(files), w))
      ensures WithLiveFiles(folders, files, w) == {}
    {
      ghost var before := files;
      ghost var handled := {};
      var guard := Guard(None, 0);
      var processed: nat := 0;
      var call: nat := 0;
      var more := true;
      FilesStart(folders, before, w);
      while more
        invariant FilesPhaseState(folders, before, files, handled, w, guard, processed)
        invariant !more ==> handled == WithLiveFiles(folders, before, w)
        decreases WithLiveFiles(folders, before, w) - handled, more
      {
        var rows := db.limit(WithLiveFiles(folders, files, w), call);
        FilesBatch(folders, before, files, handled, w, guard, processed, rows);
        if |rows| == 0 {
          break;
        }
        var stuck;
        guard, stuck := ProcessFiles(w, rows, guard, before, handled, processed);
        if stuck {
          return Stuck;
        }
        handled := handled + SetOf(rows);
        processed := processed + |rows|;
        call := call + 1;
        more := |rows| == BATCH_SIZE;
      }
      FilesEnd(folders, before, files, handled, w);
      result := Processed(processed);
    }

    /**
     * One run of the job, both phases. Of the removed folders with something live directly in them exactly those
     * outside the window are left.
     */
    method CleanUp(w: Window, folderAnswers: Database, fileAnswers: Database, ghost depth: map<nat, nat>,
                   ghost bound: nat)
      returns (foldersWithChildren: PhaseResult, foldersWithFiles: PhaseResult)
      requires Plausible(folderAnswers) && Plausible(fileAnswers) && Ranked(folders, depth, bound)
      modifies this
      ensures foldersWithChildren.Processed? && foldersWithFiles.Processed?
      ensures Swept(old(folders), folders, LiveChildren(old(folders), WithLiveChildren(old(folders), w)))
      ensures WithLiveChildren(folders, ALWAYS) == old(WithLiveChildren(folders, ALWAYS) - WithLiveChildren(folders, w))
      ensures WithLiveFiles(folders, files, ALWAYS)
              == old(WithLiveFiles(folders, files, ALWAYS) - WithLiveFiles(folders, files, w))
      ensures FoldersCleaned(old(folders), folders, w, folderAnswers.clock)
      ensures FilesCleaned(old(folders), old(files), folders, files, w)
    {
      ghost var t, before := folders, files;
      foldersWithChildren := FoldersPhase(w, folderAnswers, depth, bound);
      ghost var midFiles := files;
      SweptSelection(t, folders, WithLiveChildren(t, w), ALWAYS);
      foldersWithFiles := FilesPhase(w, fileAnswers);
      SweptFiles(t, before, folders, midFiles, files, WithLiveChildren(t, w), w);
      CleanUpIsLiteral(t, before, folders, midFiles, files, w, folderAnswers.clock);
    }
  }

  /**
   * The tables once a statement has removed the rows `done`: each took the statement's columns, everything below along
   * live folders took `removed` from the trigger, and the files of all these folders are deleted.
   */
  ghost predicate Marked(t: Folders, before: Files, folders: Folders, files: Files, done: set<nat>, now: int) {
    && done <= t.Keys && Swept(t, folders, done)
    && (forall x :: x in t ==>
          if x in done then folders[x] == t[x].(removed := true, deleted := true, updatedAt := now)
          else if folders[x].removed then folders[x] == t[x].(removed := true)
          else folders[x] == t[x])
    && files == MarkFolderFiles(before, Newly(t, folders))
  }

  lemma MarkingStart(t: Folders, before: Files, now: int)
    ensures Marked(t, before, t, before, {}, now)
  {
    assert Newly(t, t) == {};
    NoFilesMarked(before);
  }

  lemma MarkingStep(t: Folders, before: Files, mid: Folders, midFiles: Files, cascaded: Folders, files: Files,
                    done: set<nat>, c: nat, now: int)
    requires Marked(t, before, mid, midFiles, done, now) && c in t && c !in done && mid[c] == t[c] && !t[c].removed
    requires Cascaded(mid, cascaded, c) && cascaded[c].removed
    requires files == MarkFolderFiles(midFiles, Newly(mid, cascaded))
    ensures cascaded[c].(deleted := true, updatedAt := now) == MarkedFolder(t[c], now)
    ensures Marked(t, before, cascaded[c := MarkedFolder(t[c], now)], files, done + {c}, now)
  {
    var after := cascaded[c := MarkedFolder(t[c], now)];
    CascadeSweeps(mid, cascaded, c, now);
    SweepsCompose(t, mid, after, done, {c});
    assert Newly(t, after) == Newly(t, mid) + Newly(mid, after);
  }

  lemma SameRanks(t: Folders, mid: Folders, depth: map<nat, nat>, bound: nat)
    requires Ranked(t, depth, bound) && mid.Keys == t.Keys && forall x :: x in t ==> mid[x].parent == t[x].parent
    ensures Ranked(mid, depth, bound)
  {
    forall a, p | a in mid && p in mid && ChildOf(mid, a, p) ensures depth[p] < depth[a] { assert ChildOf(t, a, p); }
  }

  /** Both phases together: folders just removed hold no live file, of the others those in the window are emptied. */
  lemma SweptFiles(t: Folders, before: Files, after: Folders, midFiles: Files, files: Files, handled: set<nat>,
                   w: Window)
    requires FoldersPhaseState(t, before, after, midFiles, handled, w)
    requires files == MarkFiles(midFiles, WithLiveFiles(after, midFiles, w))
    ensures WithLiveFiles(after, files, ALWAYS) == WithLiveFiles(t, before, ALWAYS) - WithLiveFiles(t, before, w)
  {
    forall u ensures u in WithLiveFiles(after, files, ALWAYS)
                     <==> u in WithLiveFiles(t, before, ALWAYS) - WithLiveFiles(t, before, w) {
      if u in WithLiveFiles(after, files, ALWAYS) {
        var f :| f in files && LiveFileIn(files, f, u);
        assert LiveFileIn(midFiles, f, u) && LiveFileIn(before, f, u);
      }
      if u in WithLiveFiles(t, before, ALWAYS) - WithLiveFiles(t, before, w) {
        var f :| f in before && LiveFileIn(before, f, u);
        assert LiveFileIn(midFiles, f, u);
        assert LiveFileIn(files, f, u);
      }
    }
  }

  // ----- One run in terms of the rows --------------------------------------------------------

  /** A removed folder last updated from the window's start on, that instant included, and before its end. */
  ghost predicate Due(t: Folders, u: nat, w: Window) {
    && u in t && t[u].removed
    && (w.start == None || w.start.value <= t[u].updatedAt)
    && (w.until == None || w.until.value > t[u].updatedAt)
  }

  ghost predicate ChildOfDue(t: Folders, c: nat, w: Window) {
    c in t && !t[c].removed && t[c].parent.Some? && Due(t, t[c].parent.value, w)
  }

  /**
   * Exactly the live children of due folders and the folders below them along live ones have been removed. The
   * children took all the columns of the statement, the folders below them `removed` alone.
   */
  ghost predicate FoldersCleaned(t: Folders, folders: Folders, w: Window, clock: nat -> int) {
    && folders.Keys == t.Keys
    && forall x :: x in t ==>
         if ChildOfDue(t, x, w) then exists call: nat :: folders[x] == StampedRow(t[x], clock(call))
         else if exists c :: ChildOfDue(t, c, w) && LiveUnder(t, c, x) then folders[x] == t[x].(removed := true)
         else folders[x] == t[x]
  }

  /** Exactly the files of the folders just removed, and the live files of due folders, have been deleted. */
  ghost predicate FilesCleaned(t: Folders, before: Files, folders: Folders, files: Files, w: Window) {
    && files.Keys == before.Keys
    && forall f :: f in before ==>
         var u := before[f].folder;
         if || (u in t && !t[u].removed && u in folders && folders[u].removed)
            || (Due(t, u, w) && (before[f].status == Exists || before[f].status == Trashed))
         then files[f] == before[f].(status := Deleted, removed := true)
         else files[f] == before[f]
  }

  lemma DueChildren(t: Folders, w: Window, c: nat)
    ensures ChildOfDue(t, c, w) <==> c in LiveChildren(t, WithLiveChildren(t, w))
  {
    if ChildOfDue(t, c, w) { assert LiveChildOf(t, c, t[c].parent.value); }
  }

  lemma CleanUpIsLiteral(t: Folders, before: Files, folders: Folders, midFiles: Files, files: Files, w: Window,
                         clock: nat -> int)
    requires FoldersPhaseState(t, before, folders, midFiles, WithLiveChildren(t, w), w)
    requires Stamped(t, folders, WithLiveChildren(t, w), clock)
    requires files == MarkFiles(midFiles, WithLiveFiles(folders, midFiles, w))
    ensures FoldersCleaned(t, folders, w, clock) && FilesCleaned(t, before, folders, files, w)
  {
    FoldersAreCleaned(t, folders, w, clock);
    FilesAreCleaned(t, before, folders, midFiles, files, w);
  }

  lemma FoldersAreCleaned(t: Folders, folders: Folders, w: Window, clock: nat -> int)
    requires Swept(t, folders, LiveChildren(t, WithLiveChildren(t, w)))
    requires Stamped(t, folders, WithLiveChildren(t, w), clock)
    ensures FoldersCleaned(t, folders, w, clock)
  {
    forall x | x in t
      ensures if ChildOfDue(t, x, w) then exists call: nat :: folders[x] == StampedRow(t[x], clock(call))
              else if exists c :: ChildOfDue(t, c, w) && LiveUnder(t, c, x) then folders[x] == t[x].(removed := true)
              else folders[x] == t[x]
    {
      DueChildren(t, w, x);
      OneRunReaches(t, folders, w, x);
      if c :| ChildOfDue(t, c, w) && LiveUnder(t, c, x) {
        DueChildren(t, w, c);
        LiveParent(t, c, x);
        assert x in Newly(t, folders);
      } else if x in Newly(t, folders) {
        var r :| r in LiveChildren(t, WithLiveChildren(t, w)) && LiveUnder(t, r, x);
        DueChildren(t, w, r);
        assert false;
      }
    }
  }

  lemma FilesAreCleaned(t: Folders, before: Files, folders: Folders, midFiles: Files, files: Files, w: Window)
    requires FoldersPhaseState(t, before, folders, midFiles, WithLiveChildren(t, w), w)
    requires files == MarkFiles(midFiles, WithLiveFiles(folders, midFiles, w))
    ensures FilesCleaned(t, before, folders, files, w)
  {
    forall f | f in before
      ensures before[f].folder in WithLiveFiles(folders, midFiles, w) && midFiles[f].status != Deleted
              <==> Due(t, before[f].folder, w) && before[f].status != Deleted
    {
      if Due(t, before[f].folder, w) && before[f].status != Deleted {
        assert LiveFileIn(midFiles, f, before[f].folder);
      }
    }
  }

  // ----- What one run, and many runs, of the job achieve -------------------------------------

  /** One run of the folders phase: the children of the selected folders, and with them all below, are removed. */
  ghost predicate JobRun(t: Folders, after: Folders, w: Window) {
    Swept(t, after, LiveChildren(t, WithLiveChildren(t, w)))
  }

  /** Every live child of a removed folder lies under one in the window. */
  ghost predicate WindowCovers(t: Folders, w: Window) {
    forall c, p :: p in t && c in t && LiveChildOf(t, c, p) && t[p].removed ==> InWindow(t[p], w)
  }

  /** One run settles the tree exactly when the window covers it. */
  lemma OneRunSettlesIff(t: Folders, after: Folders, w: Window)
    requires JobRun(t, after, w)
    ensures WithLiveChildren(after, ALWAYS) == {} <==> WindowCovers(t, w)
  {
    SweptSelection(t, after, WithLiveChildren(t, w), ALWAYS);
    if p :| p in WithLiveChildren(after, ALWAYS) {
      assert p in WithLiveChildren(t, ALWAYS) && p !in WithLiveChildren(t, w);
      var c :| c in t && LiveChildOf(t, c, p);
      assert !WindowCovers(t, w);
    }
    if !WindowCovers(t, w) {
      var c, p :| p in t && c in t && LiveChildOf(t, c, p) && t[p].removed && !InWindow(t[p], w);
      assert p in WithLiveChildren(t, ALWAYS) - WithLiveChildren(t, w);
    }
  }

  /** A run whose window covers the tree removes exactly what lies at or below a removed folder. */
  lemma OneRunIsClosure(t: Folders, after: Folders, w: Window, u: nat)
    requires JobRun(t, after, w) && WindowCovers(t, w) && u in t
    ensures after[u].removed <==> Below(t, u)
  {
    OneRunSettlesIff(t, after, w);
    BatchKeepsClosure(t, after, WithLiveChildren(t, w), u);
    SettledIsClosure(after, u);
  }

  /** Any run removes exactly what was removed and what live folders connect to a child of a folder in the window. */
  lemma OneRunReaches(t: Folders, after: Folders, w: Window, u: nat)
    requires JobRun(t, after, w) && u in t
    ensures after[u].removed <==>
            t[u].removed || exists c :: c in LiveChildren(t, WithLiveChildren(t, w)) && LiveUnder(t, c, u)
  {
    if after[u].removed && !t[u].removed {
      assert u in Newly(t, after);
      var r :| r in LiveChildren(t, WithLiveChildren(t, w)) && LiveUnder(t, r, u);
    }
    if c :| c in LiveChildren(t, WithLiveChildren(t, w)) && LiveUnder(t, c, u) {
      var path :| LivePath(t, c, u, path);
      SweptPath(t, after, LiveChildren(t, WithLiveChildren(t, w)), c, u, path);
    }
  }

  lemma {:induction false} SweptPath(t: Folders, after: Folders, roots: set<nat>, c: nat, x: nat, path: seq<nat>)
    requires Swept(t, after, roots) && c in roots && LivePath(t, c, x, path)
    ensures x in Newly(t, after)
    decreases |path|
  {
    if |path| > 1 {
      SweptPath(t, after, roots, c, path[|path| - 2], path[..|path| - 1]);
      assert ChildOf(t, x, path[|path| - 2]);
    }
  }

  /** After any number of runs the unsettled folders are the initial ones that no run's window held. */
  lemma {:induction false} RunsSettleTheirWindows(tables: seq<Folders>, windows: seq<Window>, k: nat)
    requires |tables| == |windows| + 1 && k <= |windows|
    requires forall i :: 0 <= i < |windows| ==> JobRun(tables[i], tables[i + 1], windows[i])
    ensures forall u :: u in tables[0] && tables[0][u].removed ==> u in tables[k] && tables[k][u] == tables[0][u]
    ensures forall u :: u in WithLiveChildren(tables[k], ALWAYS)
              <==> u in WithLiveChildren(tables[0], ALWAYS)
                   && forall i :: 0 <= i < k ==> !InWindow(tables[0][u], windows[i])
    decreases k
  {
    if k > 0 {
      RunsSettleTheirWindows(tables, windows, k - 1);
      var mid, w := tables[k - 1], windows[k - 1];
      assert JobRun(mid, tables[k], w);
      SweptSelection(mid, tables[k], WithLiveChildren(mid, w), ALWAYS);
      forall u ensures u in WithLiveChildren(tables[k], ALWAYS)
                       <==> u in WithLiveChildren(mid, ALWAYS) && !InWindow(tables[0][u], w)
      {
        if u in WithLiveChildren(mid, ALWAYS) {
          assert mid[u] == tables[0][u];
          assert u in WithLiveChildren(mid, w) <==> InWindow(mid[u], w);
        }
      }
    }
  }

  // ----- Trigger and batches agree -----------------------------------------------------------

  lemma {:induction false} PathIsBelow(t: Folders, u: nat, x: nat, path: seq<nat>)
    requires LivePath(t, u, x, path)
    ensures RemovedWithin(t[u := t[u].(removed := true)], x, |path| - 1)
    decreases |path|
  {
    if |path| > 1 {
      PathIsBelow(t, u, path[|path| - 2], path[..|path| - 1]);
    }
  }

  lemma {:induction false} BelowIsCascaded(t: Folders, after: Folders, u: nat, x: nat, n: nat)
    requires u in t && Cascaded(t, after, u) && after[u].removed
    requires forall c, p :: c in t && p in t && LiveChildOf(t, c, p) ==> !t[p].removed
    requires RemovedWithin(t[u := t[u].(removed := true)], x, n)
    ensures after[x].removed
    decreases n
  {
    var marked := t[u := t[u].(removed := true)];
    if !marked[x].removed {
      var p := marked[x].parent.value;
      BelowIsCascaded(t, after, u, p, n - 1);
      assert ChildOf(t, x, p);
      if !t[p].removed { assert p in Newly(t, after); }
    }
  }

  /**
   * Where no live folder sits under a removed one, firing the trigger for a folder removes exactly
   * what marking that folder alone and draining it in batches removes.
   */
  lemma TriggerIsClosure(t: Folders, after: Folders, u: nat)
    requires u in t && Cascaded(t, after, u) && after[u].removed
    requires forall c, p :: c in t && p in t && LiveChildOf(t, c, p) ==> !t[p].removed
    ensures forall x :: x in t ==> (after[x].removed <==> Below(t[u := t[u].(removed := true)], x))
  {
    var marked := t[u := t[u].(removed := true)];
    forall x | x in t ensures after[x].removed <==> Below(marked, x) {
      if after[x].removed {
        if t[x].removed {
          assert RemovedWithin(marked, x, 0);
        } else {
          assert x in Newly(t, after);
          var path :| LivePath(t, u, x, path);
          PathIsBelow(t, u, x, path);
        }
      }
      if Below(marked, x) {
        var n: nat :| RemovedWithin(marked, x, n);
        BelowIsCascaded(t, after, u, x, n);
      }
    }
  }

  /** The trigger and the drained batches, themselves with or without the trigger, remove the same folders. */
  lemma TriggerAgreesWithBatches(t: Folders, after: Folders, u: nat, tables: seq<Folders>, batches: seq<set<nat>>)
    requires u in t && Cascaded(t, after, u) && after[u].removed
    requires forall c, p :: c in t && p in t && LiveChildOf(t, c, p) ==> !t[p].removed
    requires IsRun(tables, batches) && tables[0] == t[u := t[u].(removed := true)]
    requires WithLiveChildren(tables[|batches|], ALWAYS) == {}
    ensures var end := tables[|batches|];
            forall x :: x in t && x in end ==> (after[x].removed <==> end[x].removed)
  {
    TriggerIsClosure(t, after, u);
    CascadeIsClosure(tables, batches);
  }
}
