/** A file system with symbolic links, and the resolution of paths in it. */
module FileSystem {
  import opened ByteStrings

  type Path = seq<string>

  datatype Node = Directory | File(data: Bytes) | Link(absolute: bool, target: Path)

  /** Every entry, by its path from `/`. */
  type Tree = map<Path, Node>

  predicate EntryName(name: string) {
    name != "" && name != "." && name != ".."
  }

  function Parent(p: Path): Path
    requires p != []
  {
    p[..|p| - 1]
  }

  /** The entry has a name and sits in a directory. */
  predicate Seated(t: Tree, p: Path) {
    p != [] ==> Parent(p) in t && t[Parent(p)].Directory? && EntryName(p[|p| - 1])
  }

  ghost predicate WellFormed(t: Tree) {
    [] in t && t[[]].Directory? && forall p {:trigger Seated(t, p)} :: p in t ==> Seated(t, p)
  }

  lemma {:induction false} PrefixIsDirectory(t: Tree, p: Path, k: nat)
    requires WellFormed(t) && p in t && k < |p|
    ensures p[..k] in t && t[p[..k]].Directory? && EntryName(p[k])
    decreases |p|
  {
    var up := Parent(p);
    assert Seated(t, p);
    if k < |p| - 1 {
      PrefixIsDirectory(t, up, k);
      assert up[..k] == p[..k];
    }
  }

  /** A real entry reached without links. */
  predicate Canonical(t: Tree, p: Path) {
    p in t && !t[p].Link?
  }

  datatype Fault = Missing | NotDirectory | TooManyLinks

  /** Resolution as the kernel does it: from directory `at`, following links, at most `links` of them. */
  function Follow(t: Tree, at: Path, todo: Path, links: nat): (r: Result<Path, Fault>)
    decreases links, |todo|
  {
    if todo == [] then Ok(at)
    else if at !in t then Err(Missing)
    else if !t[at].Directory? then Err(NotDirectory)
    else if todo[0] == "" || todo[0] == "." then Follow(t, at, todo[1..], links)
    else if todo[0] == ".." then Follow(t, if at == [] then [] else Parent(at), todo[1..], links)
    else
      var child := at + [todo[0]];
      if child !in t then Err(Missing)
      else if !t[child].Link? then Follow(t, child, todo[1..], links)
      else if links == 0 then Err(TooManyLinks)
      else Follow(t, if t[child].absolute then [] else at, t[child].target + todo[1..], links - 1)
  }

  /** The number of links a single resolution may follow. */
  const LINK_LIMIT: nat := 40

  function Canonicalize(t: Tree, path: Path): Result<Path, Fault> {
    Follow(t, [], path, LINK_LIMIT)
  }

  /** `symlink_metadata`: everything but the last component is resolved. */
  function Lstat(t: Tree, dir: Path, name: string): Result<Node, Fault> {
    match Canonicalize(t, dir)
    case Err(fault) => Err(fault)
    case Ok(at) =>
      if at !in t then Err(Missing)
      else if !t[at].Directory? then Err(NotDirectory)
      else if at + [name] in t then Ok(t[at + [name]])
      else Err(Missing)
  }

  lemma {:induction false} FollowIsCanonical(t: Tree, at: Path, todo: Path, links: nat)
    requires WellFormed(t) && Canonical(t, at) && Follow(t, at, todo, links).Ok?
    ensures Canonical(t, Follow(t, at, todo, links).value)
    decreases links, |todo|
  {
    if todo != [] {
      if todo[0] == "" || todo[0] == "." {
        FollowIsCanonical(t, at, todo[1..], links);
      } else if todo[0] == ".." {
        assert Seated(t, at);
        FollowIsCanonical(t, if at == [] then [] else Parent(at), todo[1..], links);
      } else {
        var child := at + [todo[0]];
        if !t[child].Link? {
          FollowIsCanonical(t, child, todo[1..], links);
        } else {
          FollowIsCanonical(t, if t[child].absolute then [] else at, t[child].target + todo[1..], links - 1);
        }
      }
    }
  }

  /** A canonical path resolves to itself, with no link to follow. */
  lemma {:induction false} FollowOwn(t: Tree, at: Path, rest: Path, links: nat)
    requires WellFormed(t) && Canonical(t, at + rest)
    ensures Follow(t, at, rest, links) == Ok(at + rest)
    decreases |rest|
  {
    if rest == [] {
      assert at + rest == at;
    } else {
      OwnStep(t, at, rest);
      FollowOwn(t, at + [rest[0]], rest[1..], links);
    }
  }

  lemma OwnStep(t: Tree, at: Path, rest: Path)
    requires WellFormed(t) && Canonical(t, at + rest) && rest != []
    ensures at in t && t[at].Directory? && EntryName(rest[0]) && Canonical(t, at + [rest[0]])
    ensures at + [rest[0]] + rest[1..] == at + rest
  {
    var p, child := at + rest, at + [rest[0]];
    assert child + rest[1..] == p;
    PrefixIsDirectory(t, p, |at|);
    assert p[..|at|] == at && p[|at|] == rest[0];
    if |rest| > 1 {
      PrefixIsDirectory(t, p, |child|);
      assert p[..|child|] == child;
    } else {
      assert child == p;
    }
  }

  /** How many links a resolution follows, when it may follow `links`. */
  function LinksUsed(t: Tree, at: Path, todo: Path, links: nat): (n: nat)
    ensures n <= links
    decreases links, |todo|
  {
    if todo == [] || at !in t || !t[at].Directory? then 0
    else if todo[0] == "" || todo[0] == "." then LinksUsed(t, at, todo[1..], links)
    else if todo[0] == ".." then LinksUsed(t, if at == [] then [] else Parent(at), todo[1..], links)
    else
      var child := at + [todo[0]];
      if child !in t then 0
      else if !t[child].Link? then LinksUsed(t, child, todo[1..], links)
      else if links == 0 then 0
      else 1 + LinksUsed(t, if t[child].absolute then [] else at, t[child].target + todo[1..], links - 1)
  }

  /** A resolution that got by with some allowance gets by with another exactly when the links it follows fit that one. */
  lemma {:induction false} FitsIffLinksFit(t: Tree, at: Path, todo: Path, l: nat, m: nat)
    requires Follow(t, at, todo, l) != Err(TooManyLinks)
    ensures Follow(t, at, todo, m) ==
      if LinksUsed(t, at, todo, l) <= m then Follow(t, at, todo, l) else Err(TooManyLinks)
    decreases l, |todo|
  {
    if todo != [] && at in t && t[at].Directory? {
      if todo[0] == "" || todo[0] == "." {
        FitsIffLinksFit(t, at, todo[1..], l, m);
      } else if todo[0] == ".." {
        FitsIffLinksFit(t, if at == [] then [] else Parent(at), todo[1..], l, m);
      } else {
        var child := at + [todo[0]];
        if child in t && !t[child].Link? {
          FitsIffLinksFit(t, child, todo[1..], l, m);
        } else if child in t && m > 0 {
          FitsIffLinksFit(t, if t[child].absolute then [] else at, t[child].target + todo[1..], l - 1, m - 1);
        }
      }
    }
  }

  /** A larger allowance changes nothing but "too many links". */
  lemma MoreLinks(t: Tree, at: Path, todo: Path, l: nat, m: nat)
    requires l <= m
    ensures Follow(t, at, todo, l) == Err(TooManyLinks) || Follow(t, at, todo, m) == Follow(t, at, todo, l)
  {
    if Follow(t, at, todo, l) != Err(TooManyLinks) {
      FitsIffLinksFit(t, at, todo, l, m);
    }
  }

  /** Resolving in two stages is resolving in one, with the allowances added. */
  lemma {:induction false} FollowOn(t: Tree, at: Path, a: Path, b: Path, l: nat, m: nat)
    requires Follow(t, at, a, l).Ok?
    requires Follow(t, Follow(t, at, a, l).value, b, m) != Err(TooManyLinks)
    ensures Follow(t, at, a + b, l + m) == Follow(t, Follow(t, at, a, l).value, b, m)
    decreases l, |a|
  {
    if a == [] {
      assert a + b == b;
      MoreLinks(t, at, b, m, l + m);
    } else {
      assert (a + b)[1..] == a[1..] + b;
      if a[0] == "" || a[0] == "." {
        FollowOn(t, at, a[1..], b, l, m);
      } else if a[0] == ".." {
        FollowOn(t, if at == [] then [] else Parent(at), a[1..], b, l, m);
      } else {
        var child := at + [a[0]];
        if !t[child].Link? {
          FollowOn(t, child, a[1..], b, l, m);
        } else {
          FollowOn(t, if t[child].absolute then [] else at, t[child].target + a[1..], b, l - 1, m);
          assert t[child].target + a[1..] + b == t[child].target + (a[1..] + b);
        }
      }
    }
  }

  /** A resolution in one go passes through the resolution of each prefix. */
  lemma {:induction false} FollowFrom(t: Tree, at: Path, a: Path, b: Path, l: nat)
    requires Follow(t, at, a, l).Ok? && Follow(t, at, a + b, l).Ok?
    ensures Follow(t, Follow(t, at, a, l).value, b, l) == Follow(t, at, a + b, l)
    decreases l, |a|
  {
    if a == [] {
      assert a + b == b;
    } else {
      assert (a + b)[1..] == a[1..] + b;
      if a[0] == "" || a[0] == "." {
        FollowFrom(t, at, a[1..], b, l);
      } else if a[0] == ".." {
        FollowFrom(t, if at == [] then [] else Parent(at), a[1..], b, l);
      } else {
        var child := at + [a[0]];
        if !t[child].Link? {
          FollowFrom(t, child, a[1..], b, l);
        } else {
          var from := if t[child].absolute then [] else at;
          assert t[child].target + a[1..] + b == t[child].target + (a[1..] + b);
          FollowFrom(t, from, t[child].target + a[1..], b, l - 1);
          MoreLinks(t, Follow(t, at, a, l).value, b, l - 1, l);
        }
      }
    }
  }
}
