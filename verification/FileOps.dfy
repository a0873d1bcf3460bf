/** Rename, delete and their bulk forms on a library's tree. */
module FileOps {
  import opened ByteStrings
  import opened FileSystem
  import opened SafeJoin

  // System calls.

  /** `try_exists`: resolution succeeds. */
  predicate Exists(t: Tree, p: Path) {
    Canonicalize(t, p).Ok?
  }

  /** `create_dir_all`: every missing prefix becomes a directory. */
  function WithDirectories(t: Tree, p: Path): Tree {
    map q | q in t.Keys + Prefixes(p) :: if q in t then t[q] else Directory
  }

  function Prefixes(p: Path): (s: set<Path>)
    ensures forall q {:trigger q in s} :: q in s <==> q <= p
  {
    var s := set k | 0 <= k <= |p| :: p[..k];
    assert forall q {:trigger q in s} :: q <= p ==> q == p[..|q|];
    s
  }

  /** `src` as a prefix replaced by `dst`. */
  function Swap(src: Path, dst: Path, q: Path): Path {
    if src <= q then dst + q[|src|..] else q
  }

  lemma SwapBack(src: Path, dst: Path, q: Path)
    requires src <= q || !(dst <= q)
    ensures Swap(dst, src, Swap(src, dst, q)) == q
  {
  }

  /** `rename` to a path that does not exist: the subtree is re-keyed. */
  function Moved(t: Tree, src: Path, dst: Path): Tree {
    map q | q in (set p | p in t :: Swap(src, dst, p)) && Swap(dst, src, q) in t :: t[Swap(dst, src, q)]
  }

  /** `remove_file` or `remove_dir_all`. */
  function Removed(t: Tree, p: Path): Tree {
    map q | q in t && !(p <= q) :: t[q]
  }

  // One entry.

  /** `rename_entry`: the tree it leaves and its answer. */
  function RenameEntry(t: Tree, root: Path, oldPath: string, newPath: string): (Tree, Result<(), AppError>) {
    if oldPath == "" || newPath == "" then (t, Err(Validation))
    else
      match (Joined(t, root, oldPath), Joined(t, root, newPath))
      case (Ok(source), Ok(dest)) =>
        if !Exists(t, source) then (t, Err(NotFound))
        else if Exists(t, dest) then (t, Err(Conflict))
        else
          var ready := if dest == [] then t else WithDirectories(t, Parent(dest));
          if source <= dest then (ready, Err(Internal)) else (Moved(ready, source, dest), Ok(()))
      case (Err(e), _) => (t, Err(e))
      case (_, Err(e)) => (t, Err(e))
  }

  /** `delete_entry`. */
  function DeleteEntry(t: Tree, root: Path, userPath: string): (Tree, Result<(), AppError>) {
    if userPath == "" then (t, Err(Validation))
    else
      match Joined(t, root, userPath)
      case Err(e) => (t, Err(e))
      case Ok(target) =>
        match (Canonicalize(t, target), Canonicalize(t, root))
        case (Ok(canonicalTarget), Ok(canonicalRoot)) =>
          if !(canonicalRoot <= canonicalTarget) || canonicalTarget == canonicalRoot then (t, Err(Validation))
          else (Removed(t, target), Ok(()))
        case (Err(Missing), _) => (t, Err(NotFound))
        case _ => (t, Err(Internal))
  }

  // What a joined path is.

  /** A joined path exists exactly when it is an entry, and then it is that entry. */
  lemma JoinedExists(t: Tree, root: Path, userPath: string)
    requires WellFormed(t) && Joined(t, root, userPath).Ok?
    ensures var r := Joined(t, root, userPath).value;
      && (Exists(t, r) <==> r in t)
      && (r in t ==> Canonicalize(t, r) == Ok(r))
      && (r !in t ==> Canonicalize(t, r) == Err(Missing))
  {
    var k, p := JoinedIsOneResolution(t, root, userPath);
    var r, rest := Joined(t, root, userPath).value, Split(userPath)[k..];
    if rest == [] {
      assert p + rest == p && [] + p == p;
      FollowOwn(t, [], p, LINK_LIMIT);
    } else {
      assert p + [rest[0]] <= r;
      NothingBelow(t, p + [rest[0]], r);
      assert Follow(t, p, rest, 0) == Err(Missing);
      assert [] + p == p;
      FollowOwn(t, [], p, 0);
      FollowOn(t, [], p, rest, 0, 0);
      MoreLinks(t, [], r, 0, LINK_LIMIT);
    }
  }

  /** A joined path that does not exist: below a directory `p` come names that are all new. */
  ghost predicate NewUnder(t: Tree, p: Path, names: Path) {
    && Canonical(t, p) && t[p].Directory? && names != []
    && p + [names[0]] !in t
    && forall i :: 0 <= i < |names| ==> EntryName(names[i])
  }

  lemma JoinedNew(t: Tree, root: Path, userPath: string) returns (p: Path, names: Path)
    requires WellFormed(t) && Joined(t, root, userPath).Ok? && Joined(t, root, userPath).value !in t
    ensures NewUnder(t, p, names) && Joined(t, root, userPath).value == p + names
  {
    var k;
    k, p := JoinedIsOneResolution(t, root, userPath);
    names := Split(userPath)[k..];
    assert names == [] ==> p + names == p;
  }

  /** Making the missing directories keeps the tree well formed and adds directories only. */
  lemma DirectoriesAreMade(t: Tree, p: Path, names: Path)
    requires WellFormed(t) && NewUnder(t, p, names)
    ensures var dest := p + names;
      && dest != [] && WellFormed(WithDirectories(t, Parent(dest)))
      && dest !in WithDirectories(t, Parent(dest))
      && Parent(dest) in WithDirectories(t, Parent(dest)) && WithDirectories(t, Parent(dest))[Parent(dest)].Directory?
  {
    var dest := p + names;
    var up, u := Parent(dest), WithDirectories(t, Parent(dest));
    assert up == p + names[..|names| - 1];
    assert p + [names[0]] <= dest;
    NothingBelow(t, p + [names[0]], dest);
    forall q | q in u ensures Seated(u, q) {
      if q in t {
        assert Seated(t, q);
      } else {
        NewDirectory(t, p, names, q);
      }
    }
    UpIsDirectory(t, p, names, up);
  }

  lemma UpIsDirectory(t: Tree, p: Path, names: Path, q: Path)
    requires WellFormed(t) && NewUnder(t, p, names) && q <= p + names && q != p + names
    ensures q in t ==> t[q].Directory?
  {
    if |q| < |p| {
      PrefixIsDirectory(t, p, |q|);
      assert p[..|q|] == q;
    } else if |q| == |p| {
      assert q == p;
    } else {
      assert p + [names[0]] <= q;
      NothingBelow(t, p + [names[0]], q);
    }
  }

  lemma NewDirectory(t: Tree, p: Path, names: Path, q: Path)
    requires WellFormed(t) && NewUnder(t, p, names)
    requires q !in t && q <= Parent(p + names)
    ensures Seated(WithDirectories(t, Parent(p + names)), q)
  {
    assert q != [];
    assert Parent(p + names) == p + names[..|names| - 1];
    if |q| <= |p| {
      PrefixIsNoLink(t, p, q);
    }
    assert q[|q| - 1] == names[|q| - 1 - |p|];
    assert Parent(q) <= p + names && Parent(q) <= Parent(p + names);
    UpIsDirectory(t, p, names, Parent(q));
  }

  // Conservation.

  /** The files and links of a tree. */
  function Leaves(t: Tree): map<Path, Node> {
    map q | q in t && !t[q].Directory? :: t[q]
  }

  /** Where each leaf goes, and where it came from. */
  datatype Rekeying = Rekeying(there: map<Path, Path>, back: map<Path, Path>)

  predicate Sends(a: map<Path, Node>, b: map<Path, Node>, r: Rekeying, q: Path) {
    q in a ==> q in r.there && r.there[q] in b && b[r.there[q]] == a[q] && r.there[q] in r.back && r.back[r.there[q]] == q
  }

  predicate Returns(a: map<Path, Node>, b: map<Path, Node>, r: Rekeying, q: Path) {
    q in b ==> q in r.back && r.back[q] in a && r.back[q] in r.there && r.there[r.back[q]] == q
  }

  /** Every leaf of `a` goes, unchanged, to its own leaf of `b`, and every leaf of `b` is one of those: a bijection. */
  ghost predicate Carries(a: map<Path, Node>, b: map<Path, Node>, r: Rekeying) {
    && (forall q {:trigger Sends(a, b, r, q)} :: Sends(a, b, r, q))
    && (forall q {:trigger Returns(a, b, r, q)} :: Returns(a, b, r, q))
  }

  function Identity(a: map<Path, Node>): Rekeying {
    Rekeying(map q | q in a :: q, map q | q in a :: q)
  }

  function Compose(r: Rekeying, s: Rekeying): Rekeying {
    Rekeying(map q | q in r.there && r.there[q] in s.there :: s.there[r.there[q]],
             map q | q in s.back && s.back[q] in r.back :: r.back[s.back[q]])
  }

  lemma ComposeCarries(a: map<Path, Node>, b: map<Path, Node>, c: map<Path, Node>, r: Rekeying, s: Rekeying)
    requires Carries(a, b, r) && Carries(b, c, s)
    ensures Carries(a, c, Compose(r, s))
  {
    var both := Compose(r, s);
    forall q ensures Sends(a, c, both, q) {
      assert Sends(a, b, r, q);
      if q in a {
        assert Sends(b, c, s, r.there[q]);
      }
    }
    forall q ensures Returns(a, c, both, q) {
      assert Returns(b, c, s, q);
      if q in c {
        assert Returns(a, b, r, s.back[q]);
      }
    }
  }

  /** The prefix swap from `src` to `dst`, on the leaves of two trees. */
  function Swapping(a: map<Path, Node>, b: map<Path, Node>, src: Path, dst: Path): Rekeying {
    Rekeying(map q | q in a :: Swap(src, dst, q), map q | q in b :: Swap(dst, src, q))
  }

  /** Source and destination of a move that goes through. */
  ghost predicate Movable(t: Tree, src: Path, dst: Path) {
    && src in t && dst != [] && dst !in t && !(src <= dst) && EntryName(dst[|dst| - 1])
    && Parent(dst) in t && t[Parent(dst)].Directory?
  }

  lemma MovedEntry(t: Tree, src: Path, dst: Path, q: Path)
    requires WellFormed(t) && Movable(t, src, dst) && q in t
    ensures Swap(src, dst, q) in Moved(t, src, dst) && Moved(t, src, dst)[Swap(src, dst, q)] == t[q]
    ensures Swap(dst, src, Swap(src, dst, q)) == q
  {
    if dst <= q {
      NothingBelow(t, dst, q);
    }
    SwapBack(src, dst, q);
  }

  lemma MovedFrom(t: Tree, src: Path, dst: Path, q: Path)
    requires WellFormed(t) && Movable(t, src, dst) && q in Moved(t, src, dst)
    ensures Swap(dst, src, q) in t && Moved(t, src, dst)[q] == t[Swap(dst, src, q)]
    ensures Swap(src, dst, Swap(dst, src, q)) == q
  {
  }

  lemma SourceIsVacated(t: Tree, src: Path, dst: Path, q: Path)
    requires WellFormed(t) && Movable(t, src, dst) && src <= q
    ensures q !in Moved(t, src, dst)
  {
    if dst <= src {
      NothingBelow(t, dst, src);
    }
    if q in Moved(t, src, dst) {
      MovedFrom(t, src, dst, q);
    }
  }

  /** Nothing stays at the source, and the destination subtree is the whole of it. */
  lemma MovedIsPrefixSwap(t: Tree, src: Path, dst: Path, q: Path)
    requires WellFormed(t) && Movable(t, src, dst)
    ensures dst <= q ==> (q in Moved(t, src, dst) <==> src + q[|dst|..] in t)
    ensures dst <= q && q in Moved(t, src, dst) ==> Moved(t, src, dst)[q] == t[src + q[|dst|..]]
    ensures src <= q ==> q !in Moved(t, src, dst)
    ensures !(src <= q) && !(dst <= q) ==> (q in Moved(t, src, dst) <==> q in t)
    ensures !(src <= q) && !(dst <= q) && q in t ==> Moved(t, src, dst)[q] == t[q]
  {
    if q in Moved(t, src, dst) {
      MovedFrom(t, src, dst, q);
    }
    if dst <= q && src + q[|dst|..] in t {
      MovedEntry(t, src, dst, src + q[|dst|..]);
      assert (src + q[|dst|..])[|src|..] == q[|dst|..];
      assert dst + q[|dst|..] == q;
    }
    if src <= q {
      SourceIsVacated(t, src, dst, q);
    } else if q in t {
      MovedEntry(t, src, dst, q);
    }
  }

  lemma SwappedParent(src: Path, dst: Path, q: Path)
    requires src <= q && q != src
    ensures src <= Parent(q) && Swap(src, dst, q) != [] && Parent(Swap(src, dst, q)) == Swap(src, dst, Parent(q))
    ensures Swap(src, dst, q)[|Swap(src, dst, q)| - 1] == q[|q| - 1]
  {
    assert Parent(q)[|src|..] == q[|src|..][..|q| - |src| - 1];
    assert Parent(dst + q[|src|..]) == dst + Parent(q)[|src|..];
  }

  lemma MovedIsSeated(t: Tree, src: Path, dst: Path, q: Path)
    requires WellFormed(t) && Movable(t, src, dst) && q in t
    ensures Seated(Moved(t, src, dst), Swap(src, dst, q))
  {
    assert Seated(t, q);
    if q == src {
      assert Swap(src, dst, q) == dst;
      assert dst == Parent(dst) + [dst[|dst| - 1]];
      MovedEntry(t, src, dst, Parent(dst));
    } else if q != [] {
      MovedEntry(t, src, dst, Parent(q));
      if src <= q {
        SwappedParent(src, dst, q);
      } else {
        assert !(src <= Parent(q));
      }
    }
  }

  lemma MoveKeepsWellFormed(t: Tree, src: Path, dst: Path)
    requires WellFormed(t) && Movable(t, src, dst) && src != []
    ensures WellFormed(Moved(t, src, dst))
  {
    var m := Moved(t, src, dst);
    forall q | q in m ensures Seated(m, q) {
      MovedFrom(t, src, dst, q);
      MovedIsSeated(t, src, dst, Swap(dst, src, q));
    }
    MovedEntry(t, src, dst, []);
  }

  lemma MoveCarriesLeaves(t: Tree, src: Path, dst: Path)
    requires WellFormed(t) && Movable(t, src, dst)
    ensures Carries(Leaves(t), Leaves(Moved(t, src, dst)), Swapping(Leaves(t), Leaves(Moved(t, src, dst)), src, dst))
  {
    var (a, b) := (Leaves(t), Leaves(Moved(t, src, dst)));
    var r := Swapping(a, b, src, dst);
    forall q ensures Sends(a, b, r, q) {
      if q in a {
        MovedEntry(t, src, dst, q);
      }
    }
    forall q ensures Returns(a, b, r, q) {
      if q in b {
        MovedFrom(t, src, dst, q);
      }
    }
  }

  // What a rename does.

  /** Directories that came to be; everything else is as it was. */
  predicate OnlyGainsDirectories(t: Tree, u: Tree) {
    && (forall q :: q in t ==> q in u && u[q] == t[q])
    && (forall q :: q in u && q !in t ==> u[q].Directory?)
  }

  /** The source and the destination, when both paths join. */
  predicate Joins(t: Tree, root: Path, oldPath: string, newPath: string, source: Path, dest: Path) {
    && oldPath != "" && newPath != ""
    && Joined(t, root, oldPath) == Ok(source) && Joined(t, root, newPath) == Ok(dest)
  }

  /**
    A rename goes through exactly when the source is an entry, the destination is none, and the destination is not below
    the source; then the tree with the destination's directories has the source subtree re-keyed to the destination. A
    rename that fails changes the tree exactly when it tried to move an entry below itself and the directory it was to go
    into was missing; the tree then gains directories and nothing else.
   */
  lemma RenameMovesTheSubtree(t: Tree, root: Path, oldPath: string, newPath: string, source: Path, dest: Path)
    requires WellFormed(t) && Joins(t, root, oldPath, newPath, source, dest)
    ensures var (u, r) := RenameEntry(t, root, oldPath, newPath);
      && (r.Ok? <==> source in t && dest !in t && !(source <= dest))
      && (r.Ok? ==> source != [] && dest != [] && !(source <= Canonicalize(t, root).value))
      && (r.Ok? ==>
           var ready := WithDirectories(t, Parent(dest));
           WellFormed(ready) && OnlyGainsDirectories(t, ready) && Movable(ready, source, dest) && u == Moved(ready, source, dest))
      && (r.Err? ==> WellFormed(u) && OnlyGainsDirectories(t, u))
      && (r.Err? ==> (u != t <==> source in t && dest !in t && source <= dest && Parent(dest) !in t))
      && (r.Err? && u != t ==> r.error == Internal && t[source].Directory? && u == WithDirectories(t, Parent(dest)))
  {
    JoinedExists(t, root, oldPath);
    JoinedExists(t, root, newPath);
    if source in t && dest !in t {
      var p, names := JoinedNew(t, root, newPath);
      DirectoriesAreMade(t, p, names);
      var k, o := JoinedIsOneResolution(t, root, newPath);
      assert source <= dest ==> t[source].Directory? by {
        if source <= dest {
          UpIsDirectory(t, p, names, source);
        }
      }
      assert dest[|dest| - 1] == names[|names| - 1];
      MadeIffMissing(t, Parent(dest));
    }
  }

  /** Making directories changes the tree exactly when the last of them was missing. */
  lemma MadeIffMissing(t: Tree, p: Path)
    requires WellFormed(t)
    ensures WithDirectories(t, p) != t <==> p !in t
  {
    var u := WithDirectories(t, p);
    assert p in u;
    if p in t {
      forall q | q in u ensures q in t && u[q] == t[q] {
        if q <= p && q != p {
          assert p[..|q|] == q;
          PrefixIsDirectory(t, p, |q|);
        }
      }
    }
  }

  lemma SameLeaves(t: Tree, u: Tree)
    requires OnlyGainsDirectories(t, u)
    ensures Leaves(u) == Leaves(t)
  {
  }

  /** What a rename does to the leaves: the source's prefix becomes the destination's, or nothing changes. */
  function Renaming(t: Tree, root: Path, oldPath: string, newPath: string): Rekeying {
    match (Joined(t, root, oldPath), Joined(t, root, newPath))
    case (Ok(source), Ok(dest)) =>
      var (u, r) := RenameEntry(t, root, oldPath, newPath);
      if r.Ok? then Swapping(Leaves(t), Leaves(u), source, dest) else Identity(Leaves(t))
    case _ => Identity(Leaves(t))
  }

  lemma IdentityCarries(a: map<Path, Node>)
    ensures Carries(a, a, Identity(a))
  {
  }

  lemma MoveConserves(t: Tree, ready: Tree, source: Path, dest: Path)
    requires WellFormed(ready) && OnlyGainsDirectories(t, ready) && Movable(ready, source, dest) && source != []
    ensures var u := Moved(ready, source, dest);
      WellFormed(u) && Carries(Leaves(t), Leaves(u), Swapping(Leaves(t), Leaves(u), source, dest))
  {
    SameLeaves(t, ready);
    MoveCarriesLeaves(ready, source, dest);
    MoveKeepsWellFormed(ready, source, dest);
  }

  /** Whatever a rename answers, no file or link is lost, overwritten or duplicated. */
  lemma RenameConserves(t: Tree, root: Path, oldPath: string, newPath: string)
    requires WellFormed(t)
    ensures var u := RenameEntry(t, root, oldPath, newPath).0;
      WellFormed(u) && Carries(Leaves(t), Leaves(u), Renaming(t, root, oldPath, newPath))
  {
    IdentityCarries(Leaves(t));
    var (j, k) := (Joined(t, root, oldPath), Joined(t, root, newPath));
    if j.Ok? && k.Ok? && oldPath != "" && newPath != "" {
      RenameMovesTheSubtree(t, root, oldPath, newPath, j.value, k.value);
      var (u, r) := RenameEntry(t, root, oldPath, newPath);
      if r.Ok? {
        MoveConserves(t, WithDirectories(t, Parent(k.value)), j.value, k.value);
      } else {
        SameLeaves(t, u);
      }
    }
  }

  // Bulk moves.

  function TrimStart(s: string, drop: char -> bool): string {
    if s != "" && drop(s[0]) then TrimStart(s[1..], drop) else s
  }

  function TrimEnd(s: string, drop: char -> bool): string {
    if s != "" && drop(s[|s| - 1]) then TrimEnd(s[..|s| - 1], drop) else s
  }

  function Trim(s: string, drop: char -> bool): string {
    TrimEnd(TrimStart(s, drop), drop)
  }

  function NormalizeDirPath(path: string): string {
    Trim(Trim(path, IsWhitespace), c => c == '/')
  }

  /** What follows the last slash. */
  function FileNameFromPath(path: string): string {
    if path == "" then "" else if path[|path| - 1] == '/' then "" else FileNameFromPath(path[..|path| - 1]) + [path[|path| - 1]]
  }

  function JoinDirAndName(dir: string, name: string): string {
    if dir == "" then name else dir + "/" + name
  }

  /** Where `bulk_move` sends a path. */
  function NewPath(targetDir: string, oldPath: string): string {
    JoinDirAndName(targetDir, FileNameFromPath(oldPath))
  }

  datatype Outcome = Outcome(tree: Tree, done: nat, errors: seq<(string, AppError)>)
  {
    function With(u: Tree, path: string, r: Result<(), AppError>): Outcome {
      if r.Ok? then Outcome(u, done + 1, errors) else Outcome(u, done, errors + [(path, r.error)])
    }
  }

  /** One turn of the `bulk_move` loop: a path without a final name is an error and touches nothing. */
  function MoveOne(t: Tree, root: Path, targetDir: string, oldPath: string): (Tree, Result<(), AppError>) {
    if FileNameFromPath(oldPath) == "" then (t, Err(Validation))
    else RenameEntry(t, root, oldPath, NewPath(targetDir, oldPath))
  }

  function MoveAll(o: Outcome, root: Path, targetDir: string, paths: seq<string>): Outcome
    decreases |paths|
  {
    if paths == [] then o
    else
      var (u, r) := MoveOne(o.tree, root, targetDir, paths[0]);
      MoveAll(o.With(u, paths[0], r), root, targetDir, paths[1..])
  }

  function DeleteAll(o: Outcome, root: Path, paths: seq<string>): Outcome
    decreases |paths|
  {
    if paths == [] then o
    else
      var (u, r) := DeleteEntry(o.tree, root, paths[0]);
      DeleteAll(o.With(u, paths[0], r), root, paths[1..])
  }

  lemma MoveTurn(o: Outcome, root: Path, targetDir: string, paths: seq<string>, i: nat, u: Tree, r: Result<(), AppError>)
    requires i < |paths| && (u, r) == MoveOne(o.tree, root, targetDir, paths[i])
    ensures MoveAll(o, root, targetDir, paths[i..]) == MoveAll(o.With(u, paths[i], r), root, targetDir, paths[i + 1..])
  {
  }

  lemma DeleteTurn(o: Outcome, root: Path, paths: seq<string>, i: nat, u: Tree, r: Result<(), AppError>)
    requires i < |paths| && (u, r) == DeleteEntry(o.tree, root, paths[i])
    ensures DeleteAll(o, root, paths[i..]) == DeleteAll(o.With(u, paths[i], r), root, paths[i + 1..])
  {
  }

  const MAX_BULK := 500

  /** A library's directory; `root` is its path. */
  class Library {
    var tree: Tree
    const root: Path

    constructor (tree: Tree, root: Path)
      ensures this.tree == tree && this.root == root
    {
      this.tree := tree;
      this.root := root;
    }

    method Rename(oldPath: string, newPath: string) returns (r: Result<(), AppError>)
      modifies this
      ensures (tree, r) == RenameEntry(old(tree), root, oldPath, newPath)
    {
      if oldPath == "" || newPath == "" {
        return Err(Validation);
      }
      var source := SafeJoinPath(tree, root, oldPath);
      if source.Err? {
        return Err(source.error);
      }
      var dest := SafeJoinPath(tree, root, newPath);
      if dest.Err? {
        return Err(dest.error);
      }
      if !Exists(tree, source.value) {
        return Err(NotFound);
      }
      if Exists(tree, dest.value) {
        return Err(Conflict);
      }
      if dest.value != [] {
        tree := WithDirectories(tree, Parent(dest.value));
      }
      if source.value <= dest.value {
        return Err(Internal);
      }
      tree := Moved(tree, source.value, dest.value);
      r := Ok(());
    }

    method Delete(userPath: string) returns (r: Result<(), AppError>)
      modifies this
      ensures (tree, r) == DeleteEntry(old(tree), root, userPath)
    {
      if userPath == "" {
        return Err(Validation);
      }
      var target := SafeJoinPath(tree, root, userPath);
      if target.Err? {
        return Err(target.error);
      }
      var canonicalTarget := Canonicalize(tree, target.value);
      if canonicalTarget.Err? {
        return Err(if canonicalTarget.error == Missing then NotFound else Internal);
      }
      var canonicalRoot := Canonicalize(tree, root);
      if canonicalRoot.Err? {
        return Err(Internal);
      }
      if !(canonicalRoot.value <= canonicalTarget.value) || canonicalTarget == canonicalRoot {
        return Err(Validation);
      }
      tree := Removed(tree, target.value);
      r := Ok(());
    }

    /** One turn of the loop below. */
    method MoveInto(targetDir: string, oldPath: string) returns (r: Result<(), AppError>)
      modifies this
      ensures (tree, r) == MoveOne(old(tree), root, targetDir, oldPath)
    {
      var name := FileNameFromPath(oldPath);
      if name == "" {
        return Err(Validation);
      }
      r := Rename(oldPath, JoinDirAndName(targetDir, name));
    }

    method BulkMove(paths: seq<string>, target: string) returns (moved: nat, errors: seq<(string, AppError)>)
      modifies this
      ensures !(1 <= |paths| <= MAX_BULK) ==> tree == old(tree) && moved == 0 && |errors| == 1
      ensures 1 <= |paths| <= MAX_BULK ==>
        Outcome(tree, moved, errors) == MoveAll(Outcome(old(tree), 0, []), root, NormalizeDirPath(target), paths)
    {
      if |paths| == 0 || |paths| > MAX_BULK {
        return 0, [("", Validation)];
      }
      var targetDir := NormalizeDirPath(target);
      moved, errors := 0, [];
      assert paths[0..] == paths;
      for i := 0 to |paths|
        invariant MoveAll(Outcome(tree, moved, errors), root, targetDir, paths[i..])
               == MoveAll(Outcome(old(tree), 0, []), root, targetDir, paths)
      {
        ghost var before := Outcome(tree, moved, errors);
        var r := MoveInto(targetDir, paths[i]);
        if r.Ok? {
          moved := moved + 1;
        } else {
          errors := errors + [(paths[i], r.error)];
        }
        assert Outcome(tree, moved, errors) == before.With(tree, paths[i], r);
        MoveTurn(before, root, targetDir, paths, i, tree, r);
      }
    }

    method BulkDelete(paths: seq<string>) returns (deleted: nat, errors: seq<(string, AppError)>)
      modifies this
      ensures !(1 <= |paths| <= MAX_BULK) ==> tree == old(tree) && deleted == 0 && |errors| == 1
      ensures 1 <= |paths| <= MAX_BULK ==>
        Outcome(tree, deleted, errors) == DeleteAll(Outcome(old(tree), 0, []), root, paths)
    {
      if |paths| == 0 || |paths| > MAX_BULK {
        return 0, [("", Validation)];
      }
      deleted, errors := 0, [];
      assert paths[0..] == paths;
      for i := 0 to |paths|
        invariant DeleteAll(Outcome(tree, deleted, errors), root, paths[i..])
               == DeleteAll(Outcome(old(tree), 0, []), root, paths)
      {
        ghost var before := Outcome(tree, deleted, errors);
        var r := Delete(paths[i]);
        if r.Ok? {
          deleted := deleted + 1;
        } else {
          errors := errors + [(paths[i], r.error)];
        }
        assert Outcome(tree, deleted, errors) == before.With(tree, paths[i], r);
        DeleteTurn(before, root, paths, i, tree, r);
      }
    }
  }

  // What the bulk operations do.

  function MovingOne(t: Tree, root: Path, targetDir: string, oldPath: string): Rekeying {
    if FileNameFromPath(oldPath) == "" then Identity(Leaves(t)) else Renaming(t, root, oldPath, NewPath(targetDir, oldPath))
  }

  /** The prefix swaps of the successful turns, one after the other. */
  function MovingAll(t: Tree, root: Path, targetDir: string, paths: seq<string>): Rekeying
    decreases |paths|
  {
    if paths == [] then Identity(Leaves(t))
    else Compose(MovingOne(t, root, targetDir, paths[0]), MovingAll(MoveOne(t, root, targetDir, paths[0]).0, root, targetDir, paths[1..]))
  }

  lemma StepConserves(t: Tree, root: Path, targetDir: string, oldPath: string)
    requires WellFormed(t)
    ensures var u := MoveOne(t, root, targetDir, oldPath).0;
      WellFormed(u) && Carries(Leaves(t), Leaves(u), MovingOne(t, root, targetDir, oldPath))
  {
    if FileNameFromPath(oldPath) == "" {
      IdentityCarries(Leaves(t));
    } else {
      RenameConserves(t, root, oldPath, NewPath(targetDir, oldPath));
    }
  }

  /** A bulk move carries every file and link to its own place, and counts every path once. */
  lemma {:induction false} BulkMoveConserves(o: Outcome, root: Path, targetDir: string, paths: seq<string>)
    requires WellFormed(o.tree)
    ensures var end := MoveAll(o, root, targetDir, paths);
      && WellFormed(end.tree)
      && end.done + |end.errors| == o.done + |o.errors| + |paths|
      && Carries(Leaves(o.tree), Leaves(end.tree), MovingAll(o.tree, root, targetDir, paths))
    decreases |paths|
  {
    if paths == [] {
      IdentityCarries(Leaves(o.tree));
    } else {
      var (u, r) := MoveOne(o.tree, root, targetDir, paths[0]);
      StepConserves(o.tree, root, targetDir, paths[0]);
      BulkMoveConserves(o.With(u, paths[0], r), root, targetDir, paths[1..]);
      ComposeCarries(Leaves(o.tree), Leaves(u), Leaves(MoveAll(o, root, targetDir, paths).tree),
                     MovingOne(o.tree, root, targetDir, paths[0]), MovingAll(u, root, targetDir, paths[1..]));
    }
  }

  /** A delete goes through exactly for an entry strictly below the root, and takes that entry's subtree only. */
  lemma DeleteTakesTheSubtree(t: Tree, root: Path, userPath: string)
    requires WellFormed(t)
    ensures var (u, r) := DeleteEntry(t, root, userPath);
      && WellFormed(u)
      && (r.Ok? <==> userPath != "" && Joined(t, root, userPath).Ok?
                     && Joined(t, root, userPath).value in t && Joined(t, root, userPath).value != Canonicalize(t, root).value)
      && (r.Ok? ==>
           forall q {:trigger q in u} :: if Joined(t, root, userPath).value <= q then q !in u else (q in u <==> q in t) && (q in t ==> u[q] == t[q]))
      && (r.Err? ==> u == t)
  {
    if userPath != "" && Joined(t, root, userPath).Ok? {
      JoinedExists(t, root, userPath);
      var k, p := JoinedIsOneResolution(t, root, userPath);
      var target := Joined(t, root, userPath).value;
      if DeleteEntry(t, root, userPath).1.Ok? {
        RemovalKeepsWellFormed(t, target);
      }
    }
  }

  lemma RemovalKeepsWellFormed(t: Tree, p: Path)
    requires WellFormed(t) && p != []
    ensures WellFormed(Removed(t, p))
  {
    var u := Removed(t, p);
    forall q | q in u ensures Seated(u, q) {
      assert Seated(t, q);
      assert q != [] ==> q == Parent(q) + [q[|q| - 1]];
    }
  }

  /** What the deletions of a bulk delete took, in order. */
  function Taken(t: Tree, root: Path, paths: seq<string>): seq<Path>
    decreases |paths|
  {
    if paths == [] then []
    else
      var (u, r) := DeleteEntry(t, root, paths[0]);
      (if r.Ok? && Joined(t, root, paths[0]).Ok? then [Joined(t, root, paths[0]).value] else []) + Taken(u, root, paths[1..])
  }

  predicate Spared(taken: seq<Path>, q: Path) {
    forall i :: 0 <= i < |taken| ==> !(taken[i] <= q)
  }

  function Sparing(t: Tree, taken: seq<Path>): Tree {
    map q | q in t && Spared(taken, q) :: t[q]
  }

  /** A bulk delete leaves exactly what lies under none of the entries it took, and counts every path once. */
  lemma {:induction false} BulkDeleteTakesSubtrees(o: Outcome, root: Path, paths: seq<string>)
    requires WellFormed(o.tree)
    ensures var end := DeleteAll(o, root, paths);
      var taken := Taken(o.tree, root, paths);
      && WellFormed(end.tree)
      && end.done == o.done + |taken| && end.done + |end.errors| == o.done + |o.errors| + |paths|
      && end.tree == Sparing(o.tree, taken)
    decreases |paths|
  {
    if paths != [] {
      var (u, r) := DeleteEntry(o.tree, root, paths[0]);
      DeleteTakesTheSubtree(o.tree, root, paths[0]);
      BulkDeleteTakesSubtrees(o.With(u, paths[0], r), root, paths[1..]);
      TakenFirst(o.tree, root, paths);
    }
  }

  lemma TakenFirst(t: Tree, root: Path, paths: seq<string>)
    requires WellFormed(t) && paths != []
    ensures var (u, r) := DeleteEntry(t, root, paths[0]);
      var (all, rest) := (Taken(t, root, paths), Taken(u, root, paths[1..]));
      && |all| == (if r.Ok? then 1 else 0) + |rest|
      && Sparing(t, all) == Sparing(u, rest)
  {
    DeleteRemoves(t, root, paths[0]);
    var (u, r) := DeleteEntry(t, root, paths[0]);
    if r.Ok? {
      SparingFirst(t, Joined(t, root, paths[0]).value, Taken(u, root, paths[1..]));
    } else {
      assert Taken(t, root, paths) == Taken(u, root, paths[1..]);
    }
  }

  lemma DeleteRemoves(t: Tree, root: Path, userPath: string)
    ensures var (u, r) := DeleteEntry(t, root, userPath);
      if r.Ok? then Joined(t, root, userPath).Ok? && u == Removed(t, Joined(t, root, userPath).value) else u == t
  {
  }

  lemma SparingFirst(t: Tree, first: Path, rest: seq<Path>)
    ensures Sparing(t, [first] + rest) == Sparing(Removed(t, first), rest)
  {
    forall q: Path ensures Spared([first] + rest, q) <==> !(first <= q) && Spared(rest, q) {
      var all := [first] + rest;
      assert all[0] == first;
      assert forall i :: 0 <= i < |rest| ==> all[1 + i] == rest[i];
      assert forall i :: 1 <= i < |all| ==> all[i] == rest[i - 1];
    }
  }

  // A failed rename that leaves directories behind: "a", a directory, to "a/b/c".

  const NESTED: Tree := map[[] := Directory, ["top"] := Directory, ["top", "a"] := Directory]

  lemma NestedResolves(p: Path)
    requires p in NESTED
    ensures WellFormed(NESTED) && Canonicalize(NESTED, p) == Ok(p)
  {
    forall q | q in NESTED ensures Seated(NESTED, q) {
      if |q| == 1 {
        assert Parent(q) == [];
      } else if |q| == 2 {
        assert Parent(q) == ["top"];
      }
    }
    assert [] + p == p;
    FollowOwn(NESTED, [], p, LINK_LIMIT);
  }

  lemma NestedRest(rest: Path)
    requires rest == [] || rest[0] == "b"
    ensures Walk(NESTED, ["top"], ["top", "a"], rest) == Ok(["top", "a"] + rest)
  {
    NestedResolves(["top", "a"]);
    var at := ["top", "a"];
    assert ["top"] <= at && ["top"] <= at + rest;
    if rest == [] {
      assert at + rest == at;
    } else {
      LstatOfChild(NESTED, at, rest[0]);
      assert |at + [rest[0]]| == 3;
    }
  }

  /** From the top the walk finds `a`, and nothing below it. */
  lemma NestedWalk(rest: Path)
    requires rest == [] || rest[0] == "b"
    ensures Walk(NESTED, ["top"], ["top"], ["a"] + rest) == Ok(["top", "a"] + rest)
  {
    NestedResolves(["top"]);
    NestedResolves(["top", "a"]);
    LstatOfChild(NESTED, ["top"], "a");
    assert ["top"] + ["a"] == ["top", "a"] && (["a"] + rest)[1..] == rest;
    NestedRest(rest);
  }

  lemma NestedSplit()
    ensures Split("a") == ["a"] && Split("a/b/c") == ["a", "b", "c"]
  {
    SplitFirst("a", "b/c");
    SplitFirst("b", "c");
    SplitFirst("c", "");
    assert "a/b/c" == "a" + "/" + "b/c" && "b/c" == "b" + "/" + "c";
  }

  lemma NestedTexts()
    ensures Split("a") == ["a"] && Split("a/b/c") == ["a", "b", "c"] && ValidText("a") && ValidText("a/b/c")
  {
    NestedSplit();
    assert Utf8Length("a") == 1;
    assert Utf8Length("/b/c") == 4 && "a/b/c" == "a" + "/b/c";
    Utf8LengthAdds("a", "/b/c");
    forall name | name in ["a", "b", "c"] ensures ValidComponent(name) {
      assert |name| == 1 && Utf8Length(name) == 1;
    }
  }

  /** The rename is refused, and the directory `a/b` is there afterwards. */
  lemma FailedRenameLeavesADirectory()
    ensures RenameEntry(NESTED, ["top"], "a", "a/b/c") == (NESTED[["top", "a", "b"] := Directory], Err(Internal))
  {
    NestedTexts();
    NestedWalk([]);
    NestedWalk(["b", "c"]);
    NestedResolves(["top"]);
    assert ["a"] + [] == ["a"] && ["top", "a"] + [] == ["top", "a"];
    assert ["a"] + ["b", "c"] == ["a", "b", "c"] && ["top", "a"] + ["b", "c"] == ["top", "a", "b", "c"];
    NestedRename();
  }

  lemma NestedRename()
    requires Joins(NESTED, ["top"], "a", "a/b/c", ["top", "a"], ["top", "a", "b", "c"])
    ensures RenameEntry(NESTED, ["top"], "a", "a/b/c") == (NESTED[["top", "a", "b"] := Directory], Err(Internal))
  {
    NestedResolves([]);
    RenameMovesTheSubtree(NESTED, ["top"], "a", "a/b/c", ["top", "a"], ["top", "a", "b", "c"]);
    NestedDirectories();
  }

  lemma NestedDirectories()
    ensures Parent(["top", "a", "b", "c"]) == ["top", "a", "b"]
    ensures WithDirectories(NESTED, ["top", "a", "b"]) == NESTED[["top", "a", "b"] := Directory]
  {
    var up := ["top", "a", "b"];
    assert up[..0] == [] && up[..1] == ["top"] && up[..2] == ["top", "a"] && up[..3] == up;
    forall q ensures q in Prefixes(up) <==> q in {[], ["top"], ["top", "a"], up} {
      if q <= up {
        assert q == up[..|q|];
      }
    }
  }
}
