/**
 * The size of a folder and its capped statistics, computed by recursive queries that walk the tree
 * level by level with UNION ALL.
 */
module FolderSize {
  import opened FileDomain
  import opened Sums

  datatype Folder = Folder(uuid: nat, parent: Option<nat>, owner: nat, removed: bool, deleted: bool)
  datatype File = File(folder: nat, size: nat, status: FileStatus)

  // ----- The recursive query -----------------------------------------------------------------

  predicate Live(f: Folder) { !f.removed && !f.deleted }

  function IsChild(owner: nat, p: Folder): Folder -> bool {
    (f: Folder) => f.parent == Some(p.uuid) && f.owner == owner && Live(f)
  }

  function ChildrenOf(rows: seq<Folder>, owner: nat, p: Folder): seq<Folder> {
    Filter(rows, IsChild(owner, p))
  }

  /** One round of the recursive term: every working row joined with its live children. */
  function NextLevel(rows: seq<Folder>, owner: nat, level: seq<Folder>): seq<Folder>
    decreases |level|
  {
    if level == [] then [] else ChildrenOf(rows, owner, level[0]) + NextLevel(rows, owner, level[1..])
  }

  /** The query's result when it may go `n` levels deep: UNION ALL keeps every row of every round. */
  function Walk(rows: seq<Folder>, owner: nat, level: seq<Folder>, n: nat): seq<Folder>
    decreases n
  {
    if n == 0 then [] else level + Walk(rows, owner, NextLevel(rows, owner, level), n - 1)
  }

  function LevelAt(rows: seq<Folder>, owner: nat, level: seq<Folder>, k: nat): seq<Folder>
    decreases k
  {
    if k == 0 then level else LevelAt(rows, owner, NextLevel(rows, owner, level), k - 1)
  }

  /** The non-recursive term: the live folder with this uuid. */
  function Start(rows: seq<Folder>, uuid: nat): Option<Folder> {
    if rows == [] then None
    else if rows[0].uuid == uuid && Live(rows[0]) then Some(rows[0])
    else Start(rows[1..], uuid)
  }

  // ----- The structural recursion ------------------------------------------------------------

  /** What a folder holds itself plus what its children hold, to a depth of `d` levels. */
  function WeightTo(rows: seq<Folder>, owner: nat, own: Folder -> int, f: Folder, d: nat): int
    decreases d, 0
  {
    if d == 0 then 0 else own(f) + Sum(ChildrenOf(rows, owner, f), WeightsTo(rows, owner, own, d - 1))
  }

  function WeightsTo(rows: seq<Folder>, owner: nat, own: Folder -> int, d: nat): Folder -> int
    decreases d, 1
  {
    (f: Folder) => WeightTo(rows, owner, own, f, d)
  }

  /** Heights witness a forest: every live child is strictly lower than its parent. */
  ghost predicate Forest(rows: seq<Folder>, owner: nat, height: map<nat, nat>) {
    && (forall f :: f in rows ==> f.uuid in height)
    && (forall p, c :: p in rows && c in rows && IsChild(owner, p)(c) ==> height[c.uuid] < height[p.uuid])
  }

  lemma {:induction false} FilterMembers<T>(rows: seq<T>, keep: T -> bool, r: T)
    ensures r in Filter(rows, keep) <==> r in rows && keep(r)
  {
    if rows != [] {
      FilterMembers(rows[1..], keep, r);
      assert rows == [rows[0]] + rows[1..];
    }
  }

  /** The size a reader would define: own weight plus the weights of the live children, all the way down. */
  ghost function Weight(rows: seq<Folder>, owner: nat, own: Folder -> int, height: map<nat, nat>, f: Folder): int
    requires Forest(rows, owner, height) && f in rows
    decreases height[f.uuid], 1, 0
  {
    own(f) + ChildWeights(rows, owner, own, height, f, ChildrenOf(rows, owner, f))
  }

  ghost function ChildWeights(rows: seq<Folder>, owner: nat, own: Folder -> int, height: map<nat, nat>, p: Folder,
                              children: seq<Folder>): int
    requires Forest(rows, owner, height) && p in rows
    requires forall c :: c in children ==> c in ChildrenOf(rows, owner, p)
    decreases height[p.uuid], 0, |children|
  {
    if children == [] then 0
    else
      assert children[0] in ChildrenOf(rows, owner, p);
      FilterMembers(rows, IsChild(owner, p), children[0]);
      Weight(rows, owner, own, height, children[0]) + ChildWeights(rows, owner, own, height, p, children[1..])
  }

  // ----- Level order and structural order agree ----------------------------------------------

  lemma {:induction false} NextLevelSums(rows: seq<Folder>, owner: nat, own: Folder -> int, level: seq<Folder>, d: nat)
    ensures Sum(level, own) + Sum(NextLevel(rows, owner, level), WeightsTo(rows, owner, own, d))
            == Sum(level, WeightsTo(rows, owner, own, d + 1))
  {
    if level != [] {
      NextLevelSums(rows, owner, own, level[1..], d);
      SumAppend(ChildrenOf(rows, owner, level[0]), NextLevel(rows, owner, level[1..]), WeightsTo(rows, owner, own, d));
    }
  }

  lemma {:induction false} NoWeight(rows: seq<Folder>, owner: nat, own: Folder -> int, level: seq<Folder>)
    ensures Sum(level, WeightsTo(rows, owner, own, 0)) == 0
  {
    if level != [] { NoWeight(rows, owner, own, level[1..]); }
  }

  /** On any table, cyclic or not: the walk sums to the structural recursion cut at the same depth. */
  lemma {:induction false} WalkIsStructural(rows: seq<Folder>, owner: nat, own: Folder -> int, level: seq<Folder>,
                                            n: nat)
    ensures Sum(Walk(rows, owner, level, n), own) == Sum(level, WeightsTo(rows, owner, own, n))
    decreases n
  {
    if n == 0 {
      NoWeight(rows, owner, own, level);
    } else {
      WalkIsStructural(rows, owner, own, NextLevel(rows, owner, level), n - 1);
      WalkStep(rows, owner, own, level, n - 1, n);
    }
  }

  lemma WalkStep(rows: seq<Folder>, owner: nat, own: Folder -> int, level: seq<Folder>, n: nat, m: nat)
    requires m == n + 1
    requires var next := NextLevel(rows, owner, level);
             Sum(Walk(rows, owner, next, n), own) == Sum(next, WeightsTo(rows, owner, own, n))
    ensures Sum(Walk(rows, owner, level, m), own) == Sum(level, WeightsTo(rows, owner, own, m))
  {
    NextLevelSums(rows, owner, own, level, n);
    WalkSums(rows, owner, own, level, n);
  }

  lemma WalkSums(rows: seq<Folder>, owner: nat, own: Folder -> int, level: seq<Folder>, n: nat)
    ensures Sum(Walk(rows, owner, level, n + 1), own)
            == Sum(level, own) + Sum(Walk(rows, owner, NextLevel(rows, owner, level), n), own)
  {
    SumAppend(level, Walk(rows, owner, NextLevel(rows, owner, level), n), own);
  }

  /** On a forest, cutting below the lowest folder cuts nothing. */
  lemma {:induction false} DeepEnough(rows: seq<Folder>, owner: nat, own: Folder -> int, height: map<nat, nat>,
                                      f: Folder, d: nat)
    requires Forest(rows, owner, height) && f in rows && d > height[f.uuid]
    ensures WeightTo(rows, owner, own, f, d) == Weight(rows, owner, own, height, f)
    decreases height[f.uuid], 1, 0
  {
    ChildrenDeepEnough(rows, owner, own, height, f, ChildrenOf(rows, owner, f), d - 1);
  }

  lemma {:induction false} ChildrenDeepEnough(rows: seq<Folder>, owner: nat, own: Folder -> int, height: map<nat,
                                              nat>, p: Folder,
                                              children: seq<Folder>, d: nat)
    requires Forest(rows, owner, height) && p in rows && d >= height[p.uuid]
    requires forall c :: c in children ==> c in ChildrenOf(rows, owner, p)
    ensures Sum(children, WeightsTo(rows, owner, own, d)) == ChildWeights(rows, owner, own, height, p, children)
    decreases height[p.uuid], 0, |children|
  {
    if children != [] {
      assert children[0] in ChildrenOf(rows, owner, p);
      FilterMembers(rows, IsChild(owner, p), children[0]);
      DeepEnough(rows, owner, own, height, children[0], d);
      ChildrenDeepEnough(rows, owner, own, height, p, children[1..], d);
    }
  }

  lemma {:induction false} WalkSplits(rows: seq<Folder>, owner: nat, level: seq<Folder>, n: nat, m: nat)
    ensures Walk(rows, owner, level, n + m)
            == Walk(rows, owner, level, n) + Walk(rows, owner, LevelAt(rows, owner, level, n), m)
    decreases n
  {
    if n > 0 { WalkSplits(rows, owner, NextLevel(rows, owner, level), n - 1, m); }
  }

  // ----- calculateFolderSize -----------------------------------------------------------------

  /** The query's guard on row_num, as calculateFolderSize sets it. */
  const MAX_LEVELS: nat := 100_000

  function FileSizeIn(folder: nat, includeTrash: bool): File -> int {
    (f: File) =>
      if f.folder == folder && (f.status == Exists || (includeTrash && f.status == Trashed)) then f.size else 0
  }

  /** The LEFT JOIN of one folder with its files, summed. */
  function OwnSize(files: seq<File>, includeTrash: bool): Folder -> int {
    (f: Folder) => Sum(files, FileSizeIn(f.uuid, includeTrash))
  }

  function SizeWithin(rows: seq<Folder>, files: seq<File>, uuid: nat, includeTrash: bool, levels: nat): int {
    match Start(rows, uuid)
    case None => 0
    case Some(root) => Sum(Walk(rows, root.owner, [root], levels), OwnSize(files, includeTrash))
  }

  function CalculateFolderSize(rows: seq<Folder>, files: seq<File>, uuid: nat, includeTrash: bool): int {
    SizeWithin(rows, files, uuid, includeTrash, MAX_LEVELS)
  }

  lemma SingleSum(f: Folder, w: Folder -> int)
    ensures Sum([f], w) == w(f)
  {
    assert Sum([f][1..], w) == 0;
  }

  lemma {:induction false} StartIsRow(rows: seq<Folder>, uuid: nat)
    ensures Start(rows, uuid).Some? ==>
              Start(rows, uuid).value in rows && Start(rows, uuid).value.uuid == uuid && Live(Start(rows, uuid).value)
  {
    if rows != [] { StartIsRow(rows[1..], uuid); }
  }

  /** On a forest of fewer levels than the guard allows, the query is the structural size of the folder. */
  lemma SizeWithinIsStructural(rows: seq<Folder>, files: seq<File>, uuid: nat, includeTrash: bool, levels: nat,
                               height: map<nat, nat>)
    requires Start(rows, uuid).Some?
    requires Forest(rows, Start(rows, uuid).value.owner, height) && uuid in height && height[uuid] < levels
    ensures Start(rows, uuid).value in rows
    ensures var root := Start(rows, uuid).value;
            SizeWithin(rows, files, uuid, includeTrash, levels)
              == Weight(rows, root.owner, OwnSize(files, includeTrash), height, root)
  {
    StartIsRow(rows, uuid);
    var root := Start(rows, uuid).value;
    var own := OwnSize(files, includeTrash);
    WalkIsStructural(rows, root.owner, own, [root], levels);
    SingleSum(root, WeightsTo(rows, root.owner, own, levels));
    DeepEnough(rows, root.owner, own, height, root, levels);
  }

  lemma FolderSizeIsStructural(rows: seq<Folder>, files: seq<File>, uuid: nat, includeTrash: bool,
                               height: map<nat, nat>)
    requires Start(rows, uuid).Some?
    requires Forest(rows, Start(rows, uuid).value.owner, height) && uuid in height && height[uuid] < 100_000
    ensures Start(rows, uuid).value in rows
    ensures CalculateFolderSize(rows, files, uuid, includeTrash)
            == Weight(rows, Start(rows, uuid).value.owner, OwnSize(files, includeTrash), height,
                      Start(rows, uuid).value)
  {
    SizeWithinIsStructural(rows, files, uuid, includeTrash, MAX_LEVELS, height);
  }

  // ----- What counts, written out -------------------------------------------------------------

  /** A folder's children are the folders of the owner under it that are neither removed nor deleted, each as often. */
  lemma {:induction false} ChildrenAreLive(rows: seq<Folder>, owner: nat, p: Folder, c: Folder)
    ensures multiset(ChildrenOf(rows, owner, p))[c]
            == if c.parent == Some(p.uuid) && c.owner == owner && !c.removed && !c.deleted then multiset(rows)[c] else 0
  {
    if rows != [] {
      ChildrenAreLive(rows[1..], owner, p, c);
      assert rows == [rows[0]] + rows[1..];
      assert multiset(ChildrenOf(rows, owner, p))
             == (if IsChild(owner, p)(rows[0]) then multiset{rows[0]} else multiset{})
                + multiset(ChildrenOf(rows[1..], owner, p));
    }
  }

  /** The walk starts at the folder of that uuid, if one is neither removed nor deleted, and else has size 0. */
  lemma {:induction false} StartIsLive(rows: seq<Folder>, uuid: nat)
    ensures match Start(rows, uuid)
            case Some(root) => root in rows && root.uuid == uuid && !root.removed && !root.deleted
            case None => forall f :: f in rows ==> f.uuid != uuid || f.removed || f.deleted
  {
    if rows != [] {
      StartIsLive(rows[1..], uuid);
      assert rows == [rows[0]] + rows[1..];
    }
  }

  lemma {:induction false} SumSame<T>(rows: seq<T>, w: T -> int, v: T -> int)
    requires forall r :: r in rows ==> w(r) == v(r)
    ensures Sum(rows, w) == Sum(rows, v)
  {
    if rows != [] { SumSame(rows[1..], w, v); }
  }

  function TrashedSize(files: seq<File>): Folder -> int {
    (f: Folder) => Sum(files, (x: File) => if x.folder == f.uuid && x.status == Trashed then x.size else 0)
  }

  /** A folder holds the sizes of its existing files, and with the trash those of the trashed ones too. */
  lemma OwnSizeIsLiteral(files: seq<File>, f: Folder)
    ensures OwnSize(files, false)(f)
            == Sum(files, (x: File) => if x.folder == f.uuid && x.status == Exists then x.size else 0)
    ensures OwnSize(files, true)(f) == OwnSize(files, false)(f) + TrashedSize(files)(f)
  {
    var trashed := (x: File) => if x.folder == f.uuid && x.status == Trashed then x.size else 0;
    var existing := (x: File) => if x.folder == f.uuid && x.status == Exists then x.size else 0;
    SumSame(files, FileSizeIn(f.uuid, false), existing);
    SumAdds(files, FileSizeIn(f.uuid, false), trashed, FileSizeIn(f.uuid, true));
  }

  /** The size with the trash is the size without it and the trashed sizes along the same walk. */
  lemma TrashAddsTrashed(rows: seq<Folder>, files: seq<File>, uuid: nat)
    ensures CalculateFolderSize(rows, files, uuid, true)
            == CalculateFolderSize(rows, files, uuid, false)
               + match Start(rows, uuid)
                 case Some(root) => Sum(Walk(rows, root.owner, [root], 100_000), TrashedSize(files))
                 case None => 0
  {
    if Start(rows, uuid).Some? {
      var root := Start(rows, uuid).value;
      var walk := Walk(rows, root.owner, [root], MAX_LEVELS);
      forall f | f in walk { OwnSizeIsLiteral(files, f); }
      SumAdds(walk, OwnSize(files, false), TrashedSize(files), OwnSize(files, true));
    }
  }

  // ----- calculateFolderStats ----------------------------------------------------------------

  /** The caps of calculateFolderStats; the lemmas hold for any others. */
  const MAX_FILES: nat := 1000
  const MAX_DEPTH: nat := 50

  datatype Caps = Caps(files: nat, depth: nat)
  const CAPS := Caps(MAX_FILES, MAX_DEPTH)

  /** A row of limited_files: a file's size and the depth of its folder. */
  datatype Match = Match(size: nat, depth: nat)

  function MatchesIn(files: seq<File>, folder: nat, depth: nat): seq<Match> {
    if files == [] then []
    else
      (if files[0].folder == folder && files[0].status == Exists then [Match(files[0].size, depth)] else [])
      + MatchesIn(files[1..], folder, depth)
  }

  function MatchesOf(files: seq<File>, level: seq<Folder>, depth: nat): seq<Match>
    decreases |level|
  {
    if level == [] then [] else MatchesIn(files, level[0].uuid, depth) + MatchesOf(files, level[1..], depth)
  }

  /** The join before its LIMIT, over `n` levels from `depth` down. */
  function AllMatches(rows: seq<Folder>, owner: nat, files: seq<File>, level: seq<Folder>, depth: nat,
                      n: nat): seq<Match>
    decreases n
  {
    if n == 0 then []
    else
      MatchesOf(files, level, depth) + AllMatches(rows, owner, files, NextLevel(rows, owner, level), depth + 1, n - 1)
  }

  /** LIMIT without ORDER BY: any rows may be the ones returned. */
  ghost predicate Limited(all: seq<Match>, limited: seq<Match>, caps: Caps) {
    && multiset(limited) <= multiset(all)
    && |limited| == if |all| < caps.files + 1 then |all| else caps.files + 1
  }

  datatype Stats = Stats(fileCount: nat, totalSize: int, exact: bool)

  function SizeOf(): Match -> int { (m: Match) => m.size }

  predicate Reaches(limited: seq<Match>, depth: nat) {
    exists m :: m in limited && m.depth >= depth
  }

  /** What the service makes of the returned rows. No row at all has no depth, which never reaches the limit. */
  function StatsOf(limited: seq<Match>, caps: Caps): Stats {
    var hitFileLimit := |limited| > caps.files;
    var hitDepthLimit := Reaches(limited, caps.depth);
    Stats(if hitFileLimit then caps.files else |limited|, Sum(limited, SizeOf()), !hitFileLimit && !hitDepthLimit)
  }

  function OwnCount(files: seq<File>): Folder -> int {
    (f: Folder) => Sum(files, CountIn(f.uuid))
  }

  function CountIn(folder: nat): File -> int {
    (f: File) => if f.folder == folder && f.status == Exists then 1 else 0
  }

  lemma {:induction false} MatchesInAdd(files: seq<File>, folder: nat, depth: nat)
    ensures |MatchesIn(files, folder, depth)| == Sum(files, CountIn(folder))
    ensures Sum(MatchesIn(files, folder, depth), SizeOf()) == Sum(files, FileSizeIn(folder, false))
    ensures forall m :: m in MatchesIn(files, folder, depth) ==> m.depth == depth
  {
    if files != [] {
      MatchesInAdd(files[1..], folder, depth);
      var head := if files[0].folder == folder && files[0].status == Exists then [Match(files[0].size, depth)] else [];
      SumAppend(head, MatchesIn(files[1..], folder, depth), SizeOf());
      assert Sum(head, SizeOf()) == FileSizeIn(folder, false)(files[0]) by {
        if head != [] { assert Sum(head[1..], SizeOf()) == 0; }
      }
    }
  }

  lemma {:induction false} MatchesOfAdd(files: seq<File>, level: seq<Folder>, depth: nat)
    ensures |MatchesOf(files, level, depth)| == Sum(level, OwnCount(files))
    ensures Sum(MatchesOf(files, level, depth), SizeOf()) == Sum(level, OwnSize(files, false))
    ensures forall m :: m in MatchesOf(files, level, depth) ==> m.depth == depth
  {
    if level != [] {
      MatchesInAdd(files, level[0].uuid, depth);
      MatchesOfAdd(files, level[1..], depth);
      SumAppend(MatchesIn(files, level[0].uuid, depth), MatchesOf(files, level[1..], depth), SizeOf());
    }
  }

  /** The join counts and sums what the walk visits, and reaches its last level when that level holds a file. */
  lemma {:induction false} AllMatchesAdd(rows: seq<Folder>, owner: nat, files: seq<File>, level: seq<Folder>,
                                         depth: nat, n: nat)
    ensures var all := AllMatches(rows, owner, files, level, depth, n);
            && |all| == Sum(Walk(rows, owner, level, n), OwnCount(files))
            && Sum(all, SizeOf()) == Sum(Walk(rows, owner, level, n), OwnSize(files, false))
            && (forall m :: m in all ==> m.depth < depth + n)
            && (n > 0 ==>
                  (Reaches(all, depth + n - 1) <==> Sum(LevelAt(rows, owner, level, n - 1), OwnCount(files)) > 0))
    decreases n
  {
    if n > 0 {
      var next := NextLevel(rows, owner, level);
      AllMatchesAdd(rows, owner, files, next, depth + 1, n - 1);
      MatchesOfAdd(files, level, depth);
      SumAppend(level, Walk(rows, owner, next, n - 1), OwnCount(files));
      SumAppend(level, Walk(rows, owner, next, n - 1), OwnSize(files, false));
      SumAppend(MatchesOf(files, level, depth), AllMatches(rows, owner, files, next, depth + 1, n - 1), SizeOf());
      ReachesLast(MatchesOf(files, level, depth), AllMatches(rows, owner, files, next, depth + 1, n - 1), depth, n);
    }
  }

  lemma ReachesLast(here: seq<Match>, below: seq<Match>, depth: nat, n: nat)
    requires n > 0 && forall m :: m in here ==> m.depth == depth
    ensures n == 1 && below == [] ==> (Reaches(here + below, depth + n - 1) <==> |here| > 0)
    ensures n > 1 ==> (Reaches(here + below, depth + n - 1) <==> Reaches(below, depth + n - 1))
  {
    if n == 1 && below == [] && |here| > 0 { assert here[0] in here + below; }
    if Reaches(below, depth + n - 1) {
      var m :| m in below && m.depth >= depth + n - 1;
      assert m in here + below;
    }
  }

  /** Taking one element out of a sequence takes its size out of the sum. */
  lemma TakeOut(b: seq<Match>, i: nat)
    requires i < |b|
    ensures Sum(b, SizeOf()) == b[i].size + Sum(b[..i] + b[i + 1..], SizeOf())
    ensures multiset(b[..i] + b[i + 1..]) == multiset(b) - multiset{b[i]}
  {
    assert b == b[..i] + ([b[i]] + b[i + 1..]);
    SumAppend(b[..i], [b[i]] + b[i + 1..], SizeOf());
    SumAppend([b[i]], b[i + 1..], SizeOf());
    SumAppend(b[..i], b[i + 1..], SizeOf());
    assert Sum([b[i]][1..], SizeOf()) == 0;
  }

  lemma SameRest(a: seq<Match>, b: seq<Match>, i: nat)
    requires a != [] && i < |b| && a[0] == b[i] && multiset(a) == multiset(b)
    ensures multiset(a[1..]) == multiset(b[..i] + b[i + 1..])
  {
    TakeOut(b, i);
    assert a == [a[0]] + a[1..];
    assert multiset(a[1..]) == multiset(a) - multiset{a[0]};
  }

  lemma IndexIn(b: seq<Match>, m: Match) returns (i: nat)
    requires m in multiset(b)
    ensures i < |b| && b[i] == m
  {
    assert m in b;
    i :| 0 <= i < |b| && b[i] == m;
  }

  lemma {:induction false} SumOfMultiset(a: seq<Match>, b: seq<Match>)
    requires multiset(a) == multiset(b)
    ensures Sum(a, SizeOf()) == Sum(b, SizeOf())
    decreases |a|
  {
    if a == [] {
      assert |multiset(b)| == 0;
    } else {
      assert a[0] in multiset(a);
      var i := IndexIn(b, a[0]);
      SameRest(a, b, i);
      TakeOut(b, i);
      SumOfMultiset(a[1..], b[..i] + b[i + 1..]);
    }
  }

  /** What the statistics count in a folder: its existing files. */
  lemma OwnCountIsLiteral(files: seq<File>, f: Folder)
    ensures OwnCount(files)(f) == Sum(files, (x: File) => if x.folder == f.uuid && x.status == Exists then 1 else 0)
  {
    SumSame(files, CountIn(f.uuid), (x: File) => if x.folder == f.uuid && x.status == Exists then 1 else 0);
  }

  /** The join that calculateFolderStats limits. */
  function StatsJoin(rows: seq<Folder>, files: seq<File>, root: Folder, caps: Caps): seq<Match> {
    AllMatches(rows, root.owner, files, [root], 1, caps.depth)
  }

  lemma WholeLimit(all: seq<Match>, limited: seq<Match>, caps: Caps)
    requires Limited(all, limited, caps) && |all| <= caps.files + 1
    ensures multiset(limited) == multiset(all) && Sum(limited, SizeOf()) == Sum(all, SizeOf())
    ensures Reaches(limited, caps.depth) <==> Reaches(all, caps.depth)
  {
    assert |multiset(limited)| == |multiset(all)|;
    assert |multiset(all) - multiset(limited)| == 0;
    assert multiset(limited) == multiset(all);
    SumOfMultiset(limited, all);
    forall m ensures m in limited <==> m in all { assert m in multiset(limited) <==> m in multiset(all); }
  }

  /** Whichever rows the limit returns: the count is capped, and the flags say exactly when nothing was cut. */
  lemma StatsAreCapped(rows: seq<Folder>, files: seq<File>, root: Folder, limited: seq<Match>, caps: Caps)
    requires caps.depth > 0 && Limited(StatsJoin(rows, files, root, caps), limited, caps)
    ensures var stats := StatsOf(limited, caps);
            var within := Sum(Walk(rows, root.owner, [root], caps.depth), OwnCount(files));
            && stats.fileCount == (if within < caps.files then within else caps.files)
            && (stats.exact <==>
                  within <= caps.files && Sum(LevelAt(rows, root.owner, [root], caps.depth - 1), OwnCount(files)) == 0)
            && (stats.exact ==>
                  stats.fileCount == within
                  && stats.totalSize == Sum(Walk(rows, root.owner, [root], caps.depth), OwnSize(files, false)))
  {
    var all := StatsJoin(rows, files, root, caps);
    AllMatchesAdd(rows, root.owner, files, [root], 1, caps.depth);
    if |all| <= caps.files {
      WholeLimit(all, limited, caps);
      CountsNonNegative(LevelAt(rows, root.owner, [root], caps.depth - 1), files);
    }
  }

  lemma {:induction false} CountsNonNegative(level: seq<Folder>, files: seq<File>)
    ensures forall f :: OwnCount(files)(f) >= 0
    ensures Sum(level, OwnCount(files)) >= 0
    ensures Sum(level, OwnCount(files)) == 0 <==> forall f :: f in level ==> OwnCount(files)(f) == 0
  {
    forall f: Folder ensures OwnCount(files)(f) >= 0 { CountNonNegative(files, f.uuid); }
    if level != [] {
      CountsNonNegative(level[1..], files);
      assert level == [level[0]] + level[1..];
    }
  }

  lemma {:induction false} CountNonNegative(files: seq<File>, folder: nat)
    ensures Sum(files, CountIn(folder)) >= 0
  {
    if files != [] { CountNonNegative(files[1..], folder); }
  }

  /** calculateFolderStats with the caps it has, for a live folder. */
  lemma CalculateFolderStatsIsCapped(rows: seq<Folder>, files: seq<File>, root: Folder, limited: seq<Match>)
    requires Limited(StatsJoin(rows, files, root, CAPS), limited, CAPS)
    ensures var stats := StatsOf(limited, CAPS);
            var within := Sum(Walk(rows, root.owner, [root], 50), OwnCount(files));
            && stats.fileCount == (if within < 1000 then within else 1000)
            && (stats.exact <==> within <= 1000 && Sum(LevelAt(rows, root.owner, [root], 49), OwnCount(files)) == 0)
            && (stats.exact ==>
                  stats.fileCount == within
                  && stats.totalSize == Sum(Walk(rows, root.owner, [root], 50), OwnSize(files, false)))
  {
    StatsAreCapped(rows, files, root, limited, CAPS);
  }

  /** The folders of a forest below a level. */
  function BelowLimit(rows: seq<Folder>, root: Folder, depth: nat, height: nat): seq<Folder> {
    Walk(rows, root.owner, LevelAt(rows, root.owner, [root], depth), height + 1)
  }

  /** Once the walk is as deep as the tree, a sum over it is the structural sum at its root. */
  lemma DeepWalkIsWeight(rows: seq<Folder>, root: Folder, own: Folder -> int, height: map<nat, nat>, levels: nat)
    requires root in rows && Forest(rows, root.owner, height) && levels > height[root.uuid]
    ensures Sum(Walk(rows, root.owner, [root], levels), own) == Weight(rows, root.owner, own, height, root)
  {
    WalkIsStructural(rows, root.owner, own, [root], levels);
    SingleSum(root, WeightsTo(rows, root.owner, own, levels));
    DeepEnough(rows, root.owner, own, height, root, levels);
  }

  /** The structural sum is what the capped walk sees and what lies below it. */
  lemma WeightSplitsAtLimit(rows: seq<Folder>, root: Folder, own: Folder -> int, height: map<nat, nat>, depth: nat)
    requires root in rows && Forest(rows, root.owner, height)
    ensures Weight(rows, root.owner, own, height, root)
            == Sum(Walk(rows, root.owner, [root], depth), own)
               + Sum(BelowLimit(rows, root, depth, height[root.uuid]), own)
  {
    var h := height[root.uuid];
    DeepWalkIsWeight(rows, root, own, height, depth + h + 1);
    WalkSplits(rows, root.owner, [root], depth, h + 1);
    SumAppend(Walk(rows, root.owner, [root], depth), BelowLimit(rows, root, depth, h), own);
  }

  /** With no live folder below the capped level the count is the smaller of the true count and the cap. */
  lemma CountIsCappedTruth(rows: seq<Folder>, files: seq<File>, root: Folder, limited: seq<Match>, caps: Caps,
                           height: map<nat, nat>)
    requires caps.depth > 0 && root in rows && Forest(rows, root.owner, height)
    requires Limited(StatsJoin(rows, files, root, caps), limited, caps)
    requires LevelAt(rows, root.owner, [root], caps.depth) == []
    ensures var count := Weight(rows, root.owner, OwnCount(files), height, root);
            StatsOf(limited, caps).fileCount == if count < caps.files then count else caps.files
  {
    StatsAreCapped(rows, files, root, limited, caps);
    WeightSplitsAtLimit(rows, root, OwnCount(files), height, caps.depth);
    WalkOfNothing(rows, root.owner, height[root.uuid] + 1);
  }

  /**
   * When the flags claim exactness, the count is the true count exactly when no folder below the capped level
   * holds an existing file: the depth flag only looks at files the walk reached.
   */
  lemma ExactFlagIsHonestIff(rows: seq<Folder>, files: seq<File>, root: Folder, limited: seq<Match>, caps: Caps,
                             height: map<nat, nat>)
    requires caps.depth > 0 && root in rows && Forest(rows, root.owner, height)
    requires Limited(StatsJoin(rows, files, root, caps), limited, caps) && StatsOf(limited, caps).exact
    ensures StatsOf(limited, caps).fileCount == Weight(rows, root.owner, OwnCount(files), height, root)
            <==> forall f :: f in BelowLimit(rows, root, caps.depth, height[root.uuid]) ==> OwnCount(files)(f) == 0
  {
    StatsAreCapped(rows, files, root, limited, caps);
    WeightSplitsAtLimit(rows, root, OwnCount(files), height, caps.depth);
    CountsNonNegative(BelowLimit(rows, root, caps.depth, height[root.uuid]), files);
  }

  /** With exact flags and nothing live below the capped level, the total is calculateFolderSize without the trash. */
  lemma ExactTotalIsFolderSize(rows: seq<Folder>, files: seq<File>, uuid: nat, limited: seq<Match>, caps: Caps,
                               levels: nat)
    requires Start(rows, uuid).Some? && 0 < caps.depth <= levels
    requires var root := Start(rows, uuid).value;
             && Limited(StatsJoin(rows, files, root, caps), limited, caps) && StatsOf(limited, caps).exact
             && LevelAt(rows, root.owner, [root], caps.depth) == []
    ensures StatsOf(limited, caps).totalSize == SizeWithin(rows, files, uuid, false, levels)
  {
    var root := Start(rows, uuid).value;
    StatsAreCapped(rows, files, root, limited, caps);
    WalkSplits(rows, root.owner, [root], caps.depth, levels - caps.depth);
    WalkOfNothing(rows, root.owner, levels - caps.depth);
    assert Walk(rows, root.owner, [root], caps.depth) + [] == Walk(rows, root.owner, [root], caps.depth);
  }

  lemma {:induction false} WalkOfNothing(rows: seq<Folder>, owner: nat, n: nat)
    ensures Walk(rows, owner, [], n) == []
  {
    if n > 0 { WalkOfNothing(rows, owner, n - 1); }
  }

  /** A chain of `n` folders, each the only child of the one before. */
  function Chain(n: nat): seq<Folder> {
    seq(n, i requires 0 <= i < n => Folder(i, if i == 0 then None else Some(i - 1), 0, false, false))
  }

  lemma {:induction false} FilterNone<T>(rows: seq<T>, keep: T -> bool)
    requires forall r :: r in rows ==> !keep(r)
    ensures Filter(rows, keep) == []
  {
    if rows != [] { FilterNone(rows[1..], keep); }
  }

  lemma {:induction false} FilterOne<T>(rows: seq<T>, keep: T -> bool, i: nat)
    requires i < |rows| && keep(rows[i]) && forall j :: 0 <= j < |rows| && j != i ==> !keep(rows[j])
    ensures Filter(rows, keep) == [rows[i]]
    decreases i
  {
    if i == 0 { FilterNone(rows[1..], keep); } else { FilterOne(rows[1..], keep, i - 1); }
  }

  lemma ChainStep(n: nat, k: nat)
    requires k + 1 < n
    ensures NextLevel(Chain(n), 0, [Chain(n)[k]]) == [Chain(n)[k + 1]]
  {
    FilterOne(Chain(n), IsChild(0, Chain(n)[k]), k + 1);
    assert NextLevel(Chain(n), 0, [Chain(n)[k]][1..]) == [];
  }

  lemma {:induction false} ChainLevels(n: nat, k: nat, m: nat)
    requires k + m < n
    ensures LevelAt(Chain(n), 0, [Chain(n)[k]], m) == [Chain(n)[k + m]]
    ensures Walk(Chain(n), 0, [Chain(n)[k]], m) == Chain(n)[k..k + m]
    decreases m
  {
    if m > 0 {
      ChainStep(n, k);
      ChainLevels(n, k + 1, m - 1);
      assert Chain(n)[k..k + m] == [Chain(n)[k]] + Chain(n)[k + 1..k + m];
    }
  }

  lemma NoFilesAbove(depth: nat)
    requires depth > 0
    ensures StatsJoin(Chain(depth + 1), [File(depth, 7, Exists)], Chain(depth + 1)[0], Caps(0, depth)) == []
  {
    var rows, files := Chain(depth + 1), [File(depth, 7, Exists)];
    ChainLevels(depth + 1, 0, depth);
    AllMatchesAdd(rows, 0, files, [rows[0]], 1, depth);
    forall f | f in rows[0..depth] ensures OwnCount(files)(f) == 0 {
      assert Sum(files[1..], CountIn(f.uuid)) == 0;
    }
    CountsNonNegative(rows[0..depth], files);
  }

  /** The flags claim an exact count of 0 for a folder whose one file lies a level below the cap. */
  lemma ExactFlagCanMislead(caps: Caps)
    requires caps.depth > 0
    ensures var rows, files := Chain(caps.depth + 1), [File(caps.depth, 7, Exists)];
            && StatsJoin(rows, files, rows[0], caps) == []
            && Limited([], [], caps) && StatsOf([], caps) == Stats(0, 0, true)
            && LevelAt(rows, 0, [rows[0]], caps.depth) == [rows[caps.depth]]
            && OwnCount(files)(rows[caps.depth]) == 1
  {
    NoFilesAbove(caps.depth);
    ChainLevels(caps.depth + 1, 0, caps.depth);
    assert Sum([File(caps.depth, 7, Exists)][1..], CountIn(caps.depth)) == 0;
  }
}
