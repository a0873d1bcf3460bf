/** The trees the walks see, as listings of the file system that paths are resolved in. */
module TreeListing {
  import opened ByteStrings
  import opened FileSystem
  import opened TreeWalk

  /** The entry is what a listing shows of the node. */
  predicate Stands(e: Entry, node: Node) {
    match e
    case Dir(_, _) => node.Directory?
    case File(_, data) => node == FileSystem.File(data)
    case Other(_) => node.Link?
  }

  /** `entries` is what listing directory `p`, and every directory below it, shows. */
  ghost predicate Lists(t: Tree, p: Path, entries: seq<Entry>)
    decreases entries, 1
  {
    && (forall i, j :: 0 <= i < j < |entries| ==> entries[i].name != entries[j].name)
    && (forall i :: 0 <= i < |entries| ==> ListsEntry(t, p, entries[i]))
    && (forall name {:trigger p + [name]} :: p + [name] in t ==> exists i :: 0 <= i < |entries| && entries[i].name == name)
  }

  ghost predicate ListsEntry(t: Tree, p: Path, e: Entry)
    decreases e, 0
  {
    var q := p + [e.name];
    && q in t
    && Stands(e, t[q])
    && (e.Dir? ==> Lists(t, q, e.entries))
  }

  predicate Shows(q: Path, k: nat) {
    forall i :: k <= i < |q| ==> !Hidden(q[i])
  }

  /** What is below `p` with no hidden name on the way from there. */
  function Visible(t: Tree, p: Path): set<Path> {
    set q | q in t && p <= q && |p| < |q| && Shows(q, |p|)
  }

  /** What of it `name` leads to. */
  function VisibleAt(t: Tree, p: Path, name: string): set<Path> {
    set q | q in Visible(t, p) && q[|p|] == name
  }

  function VisibleOf(t: Tree, p: Path, entries: seq<Entry>): set<Path> {
    if entries == [] then {} else VisibleAt(t, p, entries[0].name) + VisibleOf(t, p, entries[1..])
  }

  // Sums over sets of paths.

  type Measure = Node -> nat

  ghost function Total(t: Tree, m: Measure, s: set<Path>): nat {
    if s == {} then 0
    else
      var q :| q in s;
      (if q in t then m(t[q]) else 0) + Total(t, m, s - {q})
  }

  lemma {:induction false} TotalTakes(t: Tree, m: Measure, s: set<Path>, q: Path)
    requires q in s
    ensures Total(t, m, s) == (if q in t then m(t[q]) else 0) + Total(t, m, s - {q})
    decreases |s|
  {
    var first :| first in s && Total(t, m, s) == (if first in t then m(t[first]) else 0) + Total(t, m, s - {first});
    if first != q {
      TotalTakes(t, m, s - {first}, q);
      TotalTakes(t, m, s - {q}, first);
      assert s - {first} - {q} == s - {q} - {first};
    }
  }

  lemma {:induction false} TotalJoins(t: Tree, m: Measure, r: set<Path>, s: set<Path>)
    requires r !! s
    ensures Total(t, m, r + s) == Total(t, m, r) + Total(t, m, s)
    decreases |r|
  {
    if r == {} {
      assert r + s == s;
    } else {
      var q :| q in r;
      TotalTakes(t, m, r, q);
      TotalTakes(t, m, r + s, q);
      assert r + s - {q} == (r - {q}) + s;
      TotalJoins(t, m, r - {q}, s);
    }
  }

  /** What weighs the same, weighs as much as there are of it. */
  lemma {:induction false} TotalCounts(t: Tree, m: Measure, s: set<Path>, part: set<Path>)
    requires part <= s <= t.Keys && forall q :: q in s ==> m(t[q]) == if q in part then 1 else 0
    ensures Total(t, m, s) == |part|
    decreases |s|
  {
    if s != {} {
      var q :| q in s;
      TotalTakes(t, m, s, q);
      TotalCounts(t, m, s - {q}, part - {q});
    }
  }

  lemma {:induction false} TotalIgnores(t: Tree, m: Measure, s: set<Path>, part: set<Path>)
    requires part <= s <= t.Keys && forall q :: q in s && q !in part ==> m(t[q]) == 0
    ensures Total(t, m, s) == Total(t, m, part)
    decreases |s|
  {
    if rest :| rest in s && rest !in part {
      TotalTakes(t, m, s, rest);
      TotalIgnores(t, m, s - {rest}, part);
    } else {
      assert s == part;
    }
  }

  // The fold over listings is the sum over what is visible.

  /** An entry weighs what the measure says of what it lists. */
  ghost predicate Measures(w: Weight, m: Measure) {
    forall e, node {:trigger Stands(e, node)} :: Stands(e, node) ==> w(e) == m(node)
  }

  /** Only directories have anything below them. */
  lemma OnlyBelowDirectories(t: Tree, p: Path, q: Path)
    requires WellFormed(t) && q in t && p <= q && p != q
    ensures p in t && t[p].Directory?
  {
    PrefixIsDirectory(t, q, |p|);
    assert q[..|p|] == p;
  }

  /** A visible directory is seen itself, and below it what it sees. */
  lemma BelowChild(t: Tree, p: Path, name: string, q: Path)
    requires p + [name] in t && !Hidden(name)
    ensures q in VisibleAt(t, p, name) <==> q == p + [name] || q in Visible(t, p + [name])
  {
    var child := p + [name];
    if q in VisibleAt(t, p, name) {
      assert q == child + q[|p| + 1..];
    }
    if q in Visible(t, child) {
      assert q == child + q[|child|..];
      assert p <= q && q[|p|] == name;
      forall i | |p| <= i < |q| ensures !Hidden(q[i]) {
        if i > |p| {
          assert |child| <= i;
        }
      }
      assert Shows(q, |p|);
    }
  }

  lemma EntryLeadsTo(t: Tree, p: Path, e: Entry)
    requires WellFormed(t) && ListsEntry(t, p, e)
    ensures VisibleAt(t, p, e.name) ==
      if Hidden(e.name) then {} else if e.Dir? then {p + [e.name]} + Visible(t, p + [e.name]) else {p + [e.name]}
  {
    var child := p + [e.name];
    if Hidden(e.name) {
      assert VisibleAt(t, p, e.name) == {};
    } else {
      forall q ensures q in VisibleAt(t, p, e.name) <==> q == child || q in Visible(t, child) {
        BelowChild(t, p, e.name, q);
      }
      forall q | q in Visible(t, child) ensures e.Dir? {
        OnlyBelowDirectories(t, child, q);
      }
      assert VisibleAt(t, p, e.name) == {child} + Visible(t, child);
    }
  }

  lemma {:induction false} EntryTotal(t: Tree, p: Path, e: Entry, w: Weight, m: Measure)
    requires WellFormed(t) && ListsEntry(t, p, e) && Measures(w, m)
    ensures Total(t, m, VisibleAt(t, p, e.name)) == Fold(w, e)
    decreases e, 0
  {
    EntryLeadsTo(t, p, e);
    if !Hidden(e.name) {
      var child := p + [e.name];
      assert Stands(e, t[child]);
      TotalTakes(t, m, {child}, child);
      if e.Dir? {
        TotalJoins(t, m, {child}, Visible(t, child));
        FoldIsTotal(t, child, e.entries, w, m);
      }
    }
  }

  lemma {:induction false} EntriesTotal(t: Tree, p: Path, entries: seq<Entry>, w: Weight, m: Measure)
    requires WellFormed(t) && Measures(w, m)
    requires forall i, j :: 0 <= i < j < |entries| ==> entries[i].name != entries[j].name
    requires forall i :: 0 <= i < |entries| ==> ListsEntry(t, p, entries[i])
    ensures Total(t, m, VisibleOf(t, p, entries)) == FoldAll(w, entries)
    decreases entries, 1
  {
    if entries != [] {
      EntryTotal(t, p, entries[0], w, m);
      EntriesTotal(t, p, entries[1..], w, m);
      FirstApart(t, p, entries);
      TotalJoins(t, m, VisibleAt(t, p, entries[0].name), VisibleOf(t, p, entries[1..]));
    }
  }

  lemma {:induction false} VisibleIn(t: Tree, p: Path, entries: seq<Entry>, q: Path)
    ensures q in VisibleOf(t, p, entries) <==> q in Visible(t, p) && exists i :: 0 <= i < |entries| && entries[i].name == q[|p|]
  {
    if entries != [] {
      VisibleIn(t, p, entries[1..], q);
      assert forall i :: 1 <= i < |entries| ==> entries[i] == entries[1..][i - 1];
    }
  }

  lemma FirstApart(t: Tree, p: Path, entries: seq<Entry>)
    requires entries != [] && forall i, j :: 0 <= i < j < |entries| ==> entries[i].name != entries[j].name
    ensures VisibleAt(t, p, entries[0].name) !! VisibleOf(t, p, entries[1..])
  {
    forall q | q in VisibleOf(t, p, entries[1..]) ensures q !in VisibleAt(t, p, entries[0].name) {
      VisibleIn(t, p, entries[1..], q);
    }
  }

  /** Folding a weight over listings sums up its measure over everything below `p` that no hidden name hides. */
  lemma {:induction false} FoldIsTotal(t: Tree, p: Path, entries: seq<Entry>, w: Weight, m: Measure)
    requires WellFormed(t) && Lists(t, p, entries) && Measures(w, m)
    ensures FoldAll(w, entries) == Total(t, m, Visible(t, p))
    decreases entries, 2
  {
    EntriesTotal(t, p, entries, w, m);
    forall q ensures q in VisibleOf(t, p, entries) <==> q in Visible(t, p) {
      VisibleIn(t, p, entries, q);
      if q in Visible(t, p) {
        ChildOnTheWay(t, p, q);
      }
    }
    assert VisibleOf(t, p, entries) == Visible(t, p);
  }

  lemma ChildOnTheWay(t: Tree, p: Path, q: Path)
    requires WellFormed(t) && q in t && p <= q && |p| < |q|
    ensures p + [q[|p|]] in t
  {
    var child := p + [q[|p|]];
    assert child <= q;
    if child != q {
      OnlyBelowDirectories(t, child, q);
    }
  }

  // What the usage walk shows.

  function VisibleFiles(t: Tree, p: Path): set<Path> {
    set q | q in Visible(t, p) && t[q].File?
  }

  function VisibleDirectories(t: Tree, p: Path): set<Path> {
    set q | q in Visible(t, p) && t[q].Directory?
  }

  /** The size of what is a file. */
  function Size(node: Node): nat {
    match node case File(data) => |data| case _ => 0
  }

  /**
    The three totals of the walks: how many files and how many directories are below `p` that no hidden name hides, and how
    many bytes those files have together.
   */
  lemma CountsWhatIsVisible(t: Tree, p: Path, entries: seq<Entry>)
    requires WellFormed(t) && Lists(t, p, entries)
    ensures FoldAll(FileCount, entries) == |VisibleFiles(t, p)|
    ensures FoldAll(DirCount, entries) == |VisibleDirectories(t, p)|
    ensures FoldAll(FileBytes, entries) == Total(t, Size, VisibleFiles(t, p))
  {
    var (files, dirs) := ((node: Node) => if node.File? then 1 else 0, (node: Node) => if node.Directory? then 1 else 0);
    FoldIsTotal(t, p, entries, FileCount, files);
    TotalCounts(t, files, Visible(t, p), VisibleFiles(t, p));
    FoldIsTotal(t, p, entries, DirCount, dirs);
    TotalCounts(t, dirs, Visible(t, p), VisibleDirectories(t, p));
    FoldIsTotal(t, p, entries, FileBytes, Size);
    TotalIgnores(t, Size, Visible(t, p), VisibleFiles(t, p));
  }
}
