/** Resolving a path of folder names, segment by segment: the database function get_folder_by_path. */
module FolderPath {
  import opened FileDomain
  import opened Strings

  datatype Folder = Folder(parent: Option<nat>, user: nat, plainName: Option<string>, deleted: bool, removed: bool)

  type Folders = map<nat, Folder>

  // ----- The string functions ----------------------------------------------------------------

  function TrimLeft(s: string): (r: string)
    ensures |r| <= |s|
    ensures r == "" || r[0] != '/'
  {
    if s != "" && s[0] == '/' then TrimLeft(s[1..]) else s
  }

  function TrimRight(s: string): (r: string)
    ensures |r| <= |s| && r <= s
    ensures r == "" || r[|r| - 1] != '/'
  {
    if s != "" && s[|s| - 1] == '/' then TrimRight(s[..|s| - 1]) else s
  }

  /** trim(both '/' from s). */
  function Trim(s: string): (r: string)
    ensures |r| <= |s|
    ensures r == "" || (r[0] != '/' && r[|r| - 1] != '/')
  {
    TrimRight(TrimLeft(s))
  }

  /** split_part(s, '/', 1). */
  function FirstPart(s: string): (r: string)
    ensures r <= s && '/' !in r
    ensures |r| < |s| ==> s[|r|] == '/'
  {
    if s == "" || s[0] == '/' then "" else [s[0]] + FirstPart(s[1..])
  }

  /** substring(s from length(split_part(s, '/', 1)) + 2). */
  function RestPath(s: string): (r: string)
    ensures s != "" ==> |r| < |s|
  {
    var n := |FirstPart(s)| + 1;
    if n <= |s| then s[n..] else ""
  }

  // ----- The function ------------------------------------------------------------------------

  predicate Named(t: Folders, user: nat, parent: Option<nat>, name: string, u: nat) {
    && u in t && parent.Some? && t[u].parent == parent && t[u].user == user
    && !t[u].deleted && !t[u].removed && t[u].plainName == Some(name)
  }

  /** SELECT uuid INTO: one of the matching rows, or NULL. */
  ghost function Lookup(t: Folders, user: nat, parent: Option<nat>, name: string): (r: Option<nat>)
    ensures r.Some? ==> Named(t, user, parent, name, r.value)
    ensures r.None? ==> forall u :: !Named(t, user, parent, name, u)
  {
    if u :| Named(t, user, parent, name, u) then Some(u) else None
  }

  /** SELECT * WHERE uuid = parent AND user_id = user: a NULL parent matches nothing. */
  function RowOf(t: Folders, user: nat, parent: Option<nat>): Option<nat> {
    if parent.Some? && parent.value in t && t[parent.value].user == user then parent else None
  }

  /** get_folder_by_path. The branch for a missing folder does not return: the search goes on below NULL. */
  ghost function GetFolderByPath(t: Folders, user: nat, path: string, parent: Option<nat>): Option<nat>
    decreases |path|
  {
    var p := Trim(path);
    if p == "" then RowOf(t, user, parent)
    else GetFolderByPath(t, user, RestPath(p), Lookup(t, user, parent, FirstPart(p)))
  }

  // ----- What a path means -------------------------------------------------------------------

  function NonEmpty(pieces: seq<string>): seq<string> {
    if pieces == [] then []
    else (if pieces[0] == "" then [] else [pieces[0]]) + NonEmpty(pieces[1..])
  }

  /** The names a path spells: repeated, leading and trailing slashes do not count. */
  function Segments(path: string): seq<string> { NonEmpty(Split(path, '/')) }

  /** Following the names down from a folder; a missing name leads nowhere. */
  ghost function Follow(t: Folders, user: nat, names: seq<string>, parent: Option<nat>): Option<nat>
    decreases |names|
  {
    if names == [] then RowOf(t, user, parent)
    else if parent.None? then None
    else Follow(t, user, names[1..], Lookup(t, user, parent, names[0]))
  }

  lemma NonEmptyCons(piece: string, rest: seq<string>)
    ensures NonEmpty([piece] + rest) == (if piece == "" then [] else [piece]) + NonEmpty(rest)
  {
    assert ([piece] + rest)[1..] == rest;
  }

  lemma {:induction false} NonEmptyAppend(a: seq<string>, b: seq<string>)
    ensures NonEmpty(a + b) == NonEmpty(a) + NonEmpty(b)
  {
    if a == [] {
      assert a + b == b;
    } else {
      NonEmptyAppend(a[1..], b);
      NonEmptyCons(a[0], a[1..] + b);
      NonEmptyCons(a[0], a[1..]);
      assert a == [a[0]] + a[1..] && a + b == [a[0]] + (a[1..] + b);
    }
  }

  lemma {:induction false} SplitTrailing(s: string)
    ensures Split(s + "/", '/') == Split(s, '/') + [""]
  {
    if s == "" {
      assert s + "/" == "/" && "/"[1..] == "";
      assert Split("/", '/') == [""] + Split("", '/');
    } else {
      SplitTrailing(s[1..]);
      assert (s + "/")[1..] == s[1..] + "/";
    }
  }

  lemma {:induction false} TrimLeftKeepsSegments(s: string)
    ensures Segments(TrimLeft(s)) == Segments(s)
  {
    if s != "" && s[0] == '/' {
      TrimLeftKeepsSegments(s[1..]);
      NonEmptyAppend([""], Split(s[1..], '/'));
    }
  }

  lemma {:induction false} TrimRightKeepsSegments(s: string)
    ensures Segments(TrimRight(s)) == Segments(s)
  {
    if s != "" && s[|s| - 1] == '/' {
      TrimRightKeepsSegments(s[..|s| - 1]);
      assert s == s[..|s| - 1] + "/";
      SplitTrailing(s[..|s| - 1]);
      NonEmptyAppend(Split(s[..|s| - 1], '/'), [""]);
      assert NonEmpty([""]) == [];
    }
  }

  lemma {:induction false} SplitAtFirst(s: string)
    ensures Split(s, '/') == [FirstPart(s)] + (if |FirstPart(s)| < |s| then Split(RestPath(s), '/') else [])
  {
    if s != "" && s[0] != '/' {
      SplitAtFirst(s[1..]);
      assert FirstPart(s) == [s[0]] + FirstPart(s[1..]);
    }
  }

  /** A trimmed path's segments are its first part and the segments of the rest. */
  lemma SegmentsOfTrimmed(p: string)
    requires p != "" && p[0] != '/'
    ensures Segments(p) == [FirstPart(p)] + Segments(RestPath(p))
  {
    SplitAtFirst(p);
    NonEmptyAppend([FirstPart(p)], if |FirstPart(p)| < |p| then Split(RestPath(p), '/') else []);
    assert NonEmpty([FirstPart(p)]) == [FirstPart(p)] by { assert NonEmpty([FirstPart(p)][1..]) == []; }
    assert Segments("") == [] by { assert NonEmpty([""][1..]) == []; }
  }

  lemma {:induction false} NullLeadsNowhere(t: Folders, user: nat, path: string)
    ensures GetFolderByPath(t, user, path, None) == None
    decreases |path|
  {
    var p := Trim(path);
    if p != "" { NullLeadsNowhere(t, user, RestPath(p)); }
  }

  /** For every string the function terminates and follows the path's names, to nothing if one is missing. */
  lemma {:induction false} ResolutionFollowsSegments(t: Folders, user: nat, path: string, parent: Option<nat>)
    ensures GetFolderByPath(t, user, path, parent) == Follow(t, user, Segments(path), parent)
    decreases |path|
  {
    var p := Trim(path);
    TrimLeftKeepsSegments(path);
    TrimRightKeepsSegments(TrimLeft(path));
    if p == "" {
      assert Segments("") == [] by { assert NonEmpty([""][1..]) == []; }
    } else {
      SegmentsOfTrimmed(p);
      if parent.None? {
        NullLeadsNowhere(t, user, path);
      } else {
        ResolutionFollowsSegments(t, user, RestPath(p), Lookup(t, user, parent, FirstPart(p)));
      }
    }
  }

  // ----- Printing and parsing ----------------------------------------------------------------

  /** The unique index on live folders: no two live siblings share a name. */
  ghost predicate UniqueSiblings(t: Folders) {
    forall u, v | u in t && v in t && LiveNamed(t[u]) && LiveNamed(t[v]) ::
      t[u].parent == t[v].parent && t[u].plainName == t[v].plainName ==> u == v
  }

  predicate LiveNamed(f: Folder) {
    !f.deleted && !f.removed && f.parent.Some? && f.plainName.Some?
  }

  predicate ProperName(name: string) { name != "" && '/' !in name }

  /** `u` is the user's, neither deleted nor removed, and lies under `parent` with that plain name. */
  predicate LiveLink(t: Folders, user: nat, parent: nat, name: string, u: nat) {
    && u in t && t[u].parent == Some(parent) && t[u].user == user
    && !t[u].deleted && !t[u].removed && t[u].plainName == Some(name)
  }

  /** A chain of the user's live folders, each named `names[i]`, from `root` down. */
  ghost predicate Chain(t: Folders, user: nat, root: nat, chain: seq<nat>, names: seq<string>) {
    && |chain| == |names| + 1 && chain[0] == root
    && forall i :: 0 <= i < |names| ==> LiveLink(t, user, chain[i], names[i], chain[i + 1])
  }

  function Join(names: seq<string>): string {
    if names == [] then ""
    else if |names| == 1 then names[0]
    else names[0] + "/" + Join(names[1..])
  }

  lemma {:induction false} SegmentsOfJoin(names: seq<string>)
    requires forall n :: n in names ==> ProperName(n)
    ensures Segments(Join(names)) == names
    decreases |names|
  {
    if names == [] {
      NonEmptyCons("", []);
    } else {
      assert names[0] in names;
      if |names| == 1 {
        SplitFirst(names[0], "", '/');
        NonEmptyCons(names[0], []);
      } else {
        SegmentsOfJoin(names[1..]);
        SplitFirst(names[0], Join(names[1..]), '/');
        NonEmptyCons(names[0], Split(Join(names[1..]), '/'));
      }
    }
  }

  lemma {:induction false} ChainIsFollowed(t: Folders, user: nat, root: nat, chain: seq<nat>, names: seq<string>)
    requires UniqueSiblings(t) && Chain(t, user, root, chain, names)
    requires root in t && t[root].user == user
    ensures Follow(t, user, names, Some(root)) == Some(chain[|names|])
    decreases |names|
  {
    if names != [] {
      assert LiveLink(t, user, chain[0], names[0], chain[1]) && Named(t, user, Some(chain[0]), names[0], chain[1]);
      assert Lookup(t, user, Some(root), names[0]) == Some(chain[1]);
      forall i | 0 <= i < |names| - 1 ensures LiveLink(t, user, chain[1..][i], names[1..][i], chain[1..][i + 1]) {
        assert LiveLink(t, user, chain[i + 1], names[i + 1], chain[i + 2]);
      }
      ChainIsFollowed(t, user, chain[1], chain[1..], names[1..]);
    }
  }

  lemma FollowNull(t: Folders, user: nat, names: seq<string>)
    ensures Follow(t, user, names, None) == None
  {}

  lemma {:induction false} FollowedIsChain(t: Folders, user: nat, root: nat, names: seq<string>)
    returns (chain: seq<nat>)
    requires Follow(t, user, names, Some(root)).Some?
    ensures Chain(t, user, root, chain, names) && chain[|names|] == Follow(t, user, names, Some(root)).value
    decreases |names|
  {
    if names == [] {
      chain := [root];
    } else {
      var next := Lookup(t, user, Some(root), names[0]);
      FollowNull(t, user, names[1..]);
      var below := FollowedIsChain(t, user, next.value, names[1..]);
      chain := [root] + below;
      forall i | 0 <= i < |names| ensures LiveLink(t, user, chain[i], names[i], chain[i + 1]) {
        if i > 0 { assert LiveLink(t, user, below[i - 1], names[1..][i - 1], below[i]); }
      }
    }
  }

  /** Printing the names on a folder's chain and resolving them from the root gives the folder back. */
  lemma PrintThenResolve(t: Folders, user: nat, root: nat, chain: seq<nat>, names: seq<string>)
    requires UniqueSiblings(t) && Chain(t, user, root, chain, names)
    requires root in t && t[root].user == user && forall n :: n in names ==> ProperName(n)
    ensures GetFolderByPath(t, user, Join(names), Some(root)) == Some(chain[|names|])
  {
    SegmentsOfJoin(names);
    ResolutionFollowsSegments(t, user, Join(names), Some(root));
    ChainIsFollowed(t, user, root, chain, names);
  }

  /** Resolving any string finds a folder only at the end of a live chain that prints as the path, slashes tidied. */
  lemma ResolveThenPrint(t: Folders, user: nat, root: nat, path: string) returns (chain: seq<nat>)
    requires GetFolderByPath(t, user, path, Some(root)).Some?
    ensures Chain(t, user, root, chain, Segments(path))
    ensures chain[|Segments(path)|] == GetFolderByPath(t, user, path, Some(root)).value
    ensures Segments(Join(Segments(path))) == Segments(path)
    ensures root in t && Segments(path) == [] ==> t[root].user == user
  {
    ResolutionFollowsSegments(t, user, path, Some(root));
    chain := FollowedIsChain(t, user, root, Segments(path));
    SegmentsAreProper(Split(path, '/'), path);
    SegmentsOfJoin(Segments(path));
  }

  /** From a folder of the user a path resolves to exactly the folder at the end of the live chain that spells it. */
  lemma ResolvesIff(t: Folders, user: nat, root: nat, path: string, u: nat)
    requires UniqueSiblings(t) && root in t && t[root].user == user
    ensures GetFolderByPath(t, user, path, Some(root)) == Some(u)
            <==> exists chain :: Chain(t, user, root, chain, Segments(path)) && chain[|Segments(path)|] == u
    ensures Segments(path) == [] ==> GetFolderByPath(t, user, path, Some(root)) == Some(root)
  {
    ResolutionFollowsSegments(t, user, path, Some(root));
    if GetFolderByPath(t, user, path, Some(root)) == Some(u) {
      var chain := FollowedIsChain(t, user, root, Segments(path));
    }
    forall chain | Chain(t, user, root, chain, Segments(path))
      ensures GetFolderByPath(t, user, path, Some(root)) == Some(chain[|Segments(path)|])
    {
      ChainIsFollowed(t, user, root, chain, Segments(path));
    }
  }

  /** From a folder that is missing or another user's the empty path leads nowhere. */
  lemma ForeignRootLeadsNowhere(t: Folders, user: nat, root: nat, path: string)
    requires Segments(path) == [] && (root !in t || t[root].user != user)
    ensures GetFolderByPath(t, user, path, Some(root)) == None
  {
    ResolutionFollowsSegments(t, user, path, Some(root));
  }

  lemma {:induction false} SplitHasNoSlash(s: string)
    ensures forall p :: p in Split(s, '/') ==> '/' !in p
  {
    if s != "" { SplitHasNoSlash(s[1..]); }
  }

  lemma {:induction false} NonEmptyMembers(pieces: seq<string>)
    ensures forall p :: p in NonEmpty(pieces) ==> p in pieces && p != ""
  {
    if pieces != [] { NonEmptyMembers(pieces[1..]); }
  }

  lemma SegmentsAreProper(pieces: seq<string>, path: string)
    requires pieces == Split(path, '/')
    ensures forall n :: n in Segments(path) ==> ProperName(n)
  {
    SplitHasNoSlash(path);
    NonEmptyMembers(pieces);
  }
}
