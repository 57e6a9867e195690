/** The ancestors of a folder: the upward closure computed by get_folder_ancestors with UNION. */
module FolderAncestors {
  import opened FileDomain

  datatype Folder = Folder(parent: Option<nat>, removed: bool, user: nat)

  type Folders = map<nat, Folder>

  /** The recursive term on one row: its parent, if that is the user's and not removed. */
  predicate StepsTo(t: Folders, user: nat, x: nat, p: nat) {
    x in t && t[x].parent == Some(p) && p in t && !t[p].removed && t[p].user == user
  }

  /** The non-recursive term: the folder itself, whoever owns it, unless removed. */
  function Base(t: Folders, u: nat): set<nat> {
    if u in t && !t[u].removed then {u} else {}
  }

  function Joined(t: Folders, user: nat, working: set<nat>): set<nat> {
    set x | x in working && x in t && t[x].parent.Some? && StepsTo(t, user, x, t[x].parent.value) :: t[x].parent.value
  }

  /** UNION: each round joins the newest rows and keeps only those not seen before, until none is new. */
  method GetFolderAncestors(t: Folders, u: nat, user: nat) returns (hier: set<nat>)
    ensures hier == Ancestors(t, u, user)
    ensures u in hier <==> u in t && !t[u].removed
    ensures forall x :: x in hier ==> x in t && !t[x].removed && (x != u ==> t[x].user == user && ParentIn(t, hier, x))
    ensures u !in hier ==> hier == {}
    ensures forall x, p :: x in hier && x in t && t[x].parent == Some(p) && p in t ==>
              !t[p].removed && t[p].user == user ==> p in hier
  {
    hier := Base(t, u);
    var working := hier;
    BaseFacts(t, u, user);
    while working != {}
      invariant working <= hier <= t.Keys && Base(t, u) <= hier
      invariant forall x :: x in hier ==> Reaches(t, user, u, x)
      invariant forall x, p :: x in hier && x !in working && StepsTo(t, user, x, p) ==> p in hier
      decreases t.Keys - hier, working
    {
      var newest := Joined(t, user, working) - hier;
      forall p | p in newest ensures Reaches(t, user, u, p) {
        var x :| x in working && x in t && t[x].parent.Some? && t[x].parent.value == p && StepsTo(t, user, x, p);
        ReachesParent(t, user, u, x, p);
      }
      forall x, p | x in working && StepsTo(t, user, x, p) ensures p in hier + newest {
        assert p in Joined(t, user, working);
      }
      hier := hier + newest;
      working := newest;
    }
    ClosedIsAll(t, u, user, hier);
    AncestorsAreLiteral(t, u, user, hier);
  }

  /** The folder is the parent of one of them. */
  ghost predicate ParentIn(t: Folders, hier: set<nat>, x: nat) {
    exists c :: c in hier && c in t && t[c].parent == Some(x)
  }

  lemma AncestorsAreLiteral(t: Folders, u: nat, user: nat, hier: set<nat>)
    requires hier == Ancestors(t, u, user)
    ensures u in hier <==> u in t && !t[u].removed
    ensures forall x :: x in hier ==> x in t && !t[x].removed && (x != u ==> t[x].user == user && ParentIn(t, hier, x))
    ensures u !in hier ==> hier == {}
    ensures forall x, p :: x in hier && x in t && t[x].parent == Some(p) && p in t ==>
              !t[p].removed && t[p].user == user ==> p in hier
  {
    if u in t && !t[u].removed { assert Path(t, user, u, u, [u]); }
    forall x | x in hier
      ensures x in t && !t[x].removed && (x != u ==> t[x].user == user && ParentIn(t, hier, x)) && u in hier
    {
      var path :| Path(t, user, u, x, path);
      assert Path(t, user, u, u, [u]);
      if |path| > 1 {
        var c := path[|path| - 2];
        assert StepsTo(t, user, path[|path| - 2], path[|path| - 1]);
        assert Path(t, user, u, c, path[..|path| - 1]);
        assert c in t && c in hier && t[c].parent == Some(x);
      }
    }
    forall x, p | x in hier && x in t && t[x].parent == Some(p) && p in t && !t[p].removed && t[p].user == user
      ensures p in hier
    {
      ReachesParent(t, user, u, x, p);
    }
  }

  /** A path of steps from `u` up to `x`. */
  ghost predicate Path(t: Folders, user: nat, u: nat, x: nat, path: seq<nat>) {
    && |path| >= 1 && path[0] == u && path[|path| - 1] == x && u in t && !t[u].removed
    && forall i :: 0 < i < |path| ==> StepsTo(t, user, path[i - 1], path[i])
  }

  ghost predicate Reaches(t: Folders, user: nat, u: nat, x: nat) {
    exists path :: Path(t, user, u, x, path)
  }

  /** The folder and everything reachable upward from it. */
  ghost function Ancestors(t: Folders, u: nat, user: nat): set<nat> {
    set x | x in t && Reaches(t, user, u, x)
  }

  lemma BaseFacts(t: Folders, u: nat, user: nat)
    ensures forall x :: x in Base(t, u) ==> Reaches(t, user, u, x)
  {
    if u in Base(t, u) { assert Path(t, user, u, u, [u]); }
  }

  lemma ReachesParent(t: Folders, user: nat, u: nat, x: nat, p: nat)
    requires Reaches(t, user, u, x) && StepsTo(t, user, x, p)
    ensures Reaches(t, user, u, p)
  {
    var path :| Path(t, user, u, x, path);
    assert Path(t, user, u, p, path + [p]);
  }

  lemma {:induction false} PathStaysIn(t: Folders, u: nat, user: nat, hier: set<nat>, x: nat, path: seq<nat>)
    requires Path(t, user, u, x, path) && u in hier
    requires forall a, p :: a in hier && StepsTo(t, user, a, p) ==> p in hier
    ensures x in hier
    decreases |path|
  {
    if |path| > 1 {
      PathStaysIn(t, u, user, hier, path[|path| - 2], path[..|path| - 1]);
    }
  }

  lemma ClosedIsAll(t: Folders, u: nat, user: nat, hier: set<nat>)
    requires Base(t, u) <= hier <= t.Keys && forall x :: x in hier ==> Reaches(t, user, u, x)
    requires forall a, p :: a in hier && StepsTo(t, user, a, p) ==> p in hier
    ensures hier == Ancestors(t, u, user)
  {
    forall x | x in Ancestors(t, u, user) ensures x in hier {
      var path :| Path(t, user, u, x, path);
      assert u in Base(t, u);
      PathStaysIn(t, u, user, hier, x, path);
    }
  }

  /** On a tree, where depths fall toward the root, the chain read off the parent links. */
  ghost predicate IsTree(t: Folders, depth: map<nat, nat>) {
    && (forall x :: x in t ==> x in depth)
    && (forall x, p :: x in t && p in t && t[x].parent == Some(p) ==> depth[p] < depth[x])
  }

  ghost function Chain(t: Folders, user: nat, depth: map<nat, nat>, u: nat): seq<nat>
    requires IsTree(t, depth) && u in t
    decreases depth[u]
  {
    if t[u].parent.Some? && StepsTo(t, user, u, t[u].parent.value)
    then [u] + Chain(t, user, depth, t[u].parent.value)
    else [u]
  }

  /** The chain goes up parent by parent, through non-removed folders of the user, and stops where there is none. */
  lemma {:induction false} ChainIsLiteral(t: Folders, user: nat, depth: map<nat, nat>, u: nat)
    requires IsTree(t, depth) && u in t
    ensures var chain := Chain(t, user, depth, u);
            && chain[0] == u
            && (forall i :: 0 <= i < |chain| ==> chain[i] in t)
            && (forall i :: 0 < i < |chain| ==>
                  t[chain[i - 1]].parent == Some(chain[i]) && !t[chain[i]].removed && t[chain[i]].user == user)
            && (match t[chain[|chain| - 1]].parent
                case Some(p) => p !in t || t[p].removed || t[p].user != user
                case None => true)
    decreases depth[u]
  {
    if t[u].parent.Some? && StepsTo(t, user, u, t[u].parent.value) {
      ChainIsLiteral(t, user, depth, t[u].parent.value);
    }
  }

  lemma {:induction false} ChainIsPath(t: Folders, user: nat, depth: map<nat, nat>, u: nat, k: nat)
    requires IsTree(t, depth) && u in t && !t[u].removed && k < |Chain(t, user, depth, u)|
    ensures Path(t, user, u, Chain(t, user, depth, u)[k], Chain(t, user, depth, u)[..k + 1])
    decreases depth[u]
  {
    var chain := Chain(t, user, depth, u);
    if k > 0 {
      var p := t[u].parent.value;
      ChainIsPath(t, user, depth, p, k - 1);
      assert chain[..k + 1] == [u] + Chain(t, user, depth, p)[..k];
    }
  }

  lemma {:induction false} PathIsOnChain(t: Folders, user: nat, depth: map<nat, nat>, u: nat, x: nat, path: seq<nat>)
    requires IsTree(t, depth) && Path(t, user, u, x, path)
    ensures path <= Chain(t, user, depth, u)
    decreases |path|
  {
    if |path| > 1 {
      var p := path[1];
      assert StepsTo(t, user, path[0], path[1]);
      forall i | 0 < i < |path| - 1 ensures StepsTo(t, user, path[1..][i - 1], path[1..][i]) {
        assert StepsTo(t, user, path[i], path[i + 1]);
      }
      PathIsOnChain(t, user, depth, p, x, path[1..]);
      assert path == [u] + path[1..];
    }
  }

  /** On a tree the closure is exactly the chain from the folder upward, and of a removed folder nothing. */
  lemma AncestorsAreTheChain(t: Folders, user: nat, depth: map<nat, nat>, u: nat, x: nat)
    requires IsTree(t, depth) && u in t
    ensures x in Ancestors(t, u, user) <==> !t[u].removed && x in Chain(t, user, depth, u)
  {
    if x in Ancestors(t, u, user) {
      var path :| Path(t, user, u, x, path);
      PathIsOnChain(t, user, depth, u, x, path);
      assert path[|path| - 1] in path;
    }
    if !t[u].removed && x in Chain(t, user, depth, u) {
      var k :| 0 <= k < |Chain(t, user, depth, u)| && Chain(t, user, depth, u)[k] == x;
      ChainIsPath(t, user, depth, u, k);
      var path := Chain(t, user, depth, u)[..k + 1];
      if k > 0 { assert StepsTo(t, user, path[k - 1], path[k]); }
    }
  }
}
