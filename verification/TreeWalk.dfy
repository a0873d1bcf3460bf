/** The stack walks over a directory tree: disk usage and the integrity scan. */
module TreeWalk {
  import opened ByteStrings

  datatype Entry = Dir(name: string, entries: seq<Entry>) | File(name: string, data: Bytes) | Other(name: string)

  /** Dot entries, among them the internal metadata file, are skipped. */
  predicate Hidden(name: string) {
    name != "" && name[0] == '.'
  }

  /** The order in which a directory is listed the `turn`th time one is read; any order will do. */
  type Order = (nat, seq<Entry>) -> seq<Entry>

  predicate Reorders(order: Order, turn: nat, entries: seq<Entry>) {
    multiset(order(turn, entries)) == multiset(entries)
  }

  ghost predicate LawfulOrder(order: Order) {
    forall turn, entries {:trigger Reorders(order, turn, entries)} :: Reorders(order, turn, entries)
  }

  // What there is to count: a fold over the visible tree.

  /** What an entry counts for by itself. */
  type Weight = Entry -> nat

  function FileBytes(e: Entry): nat {
    if e.File? then |e.data| else 0
  }

  function FileCount(e: Entry): nat {
    if e.File? then 1 else 0
  }

  function DirCount(e: Entry): nat {
    if e.Dir? then 1 else 0
  }

  function Fold(w: Weight, e: Entry): nat {
    if Hidden(e.name) then 0 else w(e) + if e.Dir? then FoldAll(w, e.entries) else 0
  }

  function FoldAll(w: Weight, entries: seq<Entry>): nat {
    if entries == [] then 0 else Fold(w, entries[0]) + FoldAll(w, entries[1..])
  }

  lemma {:induction false} FoldWithout(w: Weight, entries: seq<Entry>, i: nat)
    requires i < |entries|
    ensures FoldAll(w, entries) == Fold(w, entries[i]) + FoldAll(w, entries[..i] + entries[i + 1..])
  {
    if i == 0 {
      assert entries[..0] + entries[1..] == entries[1..];
    } else {
      FoldWithout(w, entries[1..], i - 1);
      var rest := entries[..i] + entries[i + 1..];
      assert rest[1..] == entries[1..][..i - 1] + entries[1..][i..];
    }
  }

  /** The fold does not depend on the order of a listing. */
  lemma {:induction false} FoldReordered(w: Weight, a: seq<Entry>, b: seq<Entry>)
    requires multiset(a) == multiset(b)
    ensures FoldAll(w, a) == FoldAll(w, b)
    decreases |a|
  {
    if a != [] {
      var i := FirstIn(a, b);
      FoldWithout(w, b, i);
      FoldReordered(w, a[1..], b[..i] + b[i + 1..]);
    } else {
      assert |multiset(b)| == 0;
    }
  }

  lemma FirstIn(a: seq<Entry>, b: seq<Entry>) returns (i: nat)
    requires multiset(a) == multiset(b) && a != []
    ensures i < |b| && b[i] == a[0] && multiset(a[1..]) == multiset(b[..i] + b[i + 1..])
  {
    assert a[0] in multiset(b);
    i :| 0 <= i < |b| && b[i] == a[0];
    assert a == [a[0]] + a[1..];
    assert b == b[..i] + [b[i]] + b[i + 1..];
    calc {
      multiset(a[1..]);
      multiset(a) - multiset{a[0]};
      multiset(b[..i]) + multiset{b[i]} + multiset(b[i + 1..]) - multiset{b[i]};
      multiset(b[..i] + b[i + 1..]);
    }
  }

  lemma SameFold(w: Weight, order: Order, turn: nat, entries: seq<Entry>)
    requires LawfulOrder(order)
    ensures FoldAll(w, order(turn, entries)) == FoldAll(w, entries)
  {
    assert Reorders(order, turn, entries);
    FoldReordered(w, order(turn, entries), entries);
  }

  /** A stacked directory. */
  datatype Place = Place(path: seq<string>, entries: seq<Entry>)

  type Stack = seq<Place>

  /** What lies below the directories still stacked. */
  function Pending(w: Weight, stack: Stack): nat {
    if stack == [] then 0 else Pending(w, stack[..|stack| - 1]) + FoldAll(w, stack[|stack| - 1].entries)
  }

  /** What an entry of a listing leaves for later. */
  function Later(path: seq<string>, e: Entry): Stack {
    if Hidden(e.name) || !e.Dir? then [] else [Place(path + [e.name], e.entries)]
  }

  /** What an entry counts for: hidden ones for nothing. */
  function Own(w: Weight, e: Entry): nat {
    if Hidden(e.name) then 0 else w(e)
  }

  /** Counting one entry moves its own weight to what is seen and what is below it to the stack. */
  lemma EntryAccounted(w: Weight, path: seq<string>, stack: Stack, listed: seq<Entry>, i: nat)
    requires i < |listed|
    ensures var e := listed[i];
      Pending(w, stack) + FoldAll(w, listed[i..])
      == Own(w, e) + Pending(w, stack + Later(path, e)) + FoldAll(w, listed[i + 1..])
  {
    var e := listed[i];
    assert listed[i..][1..] == listed[i + 1..];
    if Later(path, e) == [] {
      assert stack + Later(path, e) == stack;
    } else {
      assert (stack + Later(path, e))[..|stack|] == stack;
    }
  }

  // Disk usage.

  const U64_MAX: nat := 0xFFFF_FFFF_FFFF_FFFF

  function AtMostU64(n: nat): nat {
    if n <= U64_MAX then n else U64_MAX
  }

  function SaturatingAdd(a: nat, b: nat): nat {
    AtMostU64(a + b)
  }

  datatype Usage = Usage(diskBytes: nat, fileCount: nat, dirCount: nat)

  /** Totals as saturating counters show them. */
  function Shown(bytes: nat, files: nat, dirs: nat): Usage {
    Usage(AtMostU64(bytes), AtMostU64(files), AtMostU64(dirs))
  }

  /** Saturating step by step is saturating once. */
  lemma SaturatesOnce(bytes: nat, files: nat, dirs: nat, n: nat)
    ensures var u := Shown(bytes, files, dirs);
      && Usage(u.diskBytes, u.fileCount, SaturatingAdd(u.dirCount, 1)) == Shown(bytes, files, dirs + 1)
      && Usage(SaturatingAdd(u.diskBytes, n), SaturatingAdd(u.fileCount, 1), u.dirCount) == Shown(bytes + n, files + 1, dirs)
  {
  }

  /** The body of the inner loop of `calculate_usage`: one entry of a listing. */
  method CountEntry(path: seq<string>, entry: Entry, stacked: Stack, counted: Usage, ghost bytes: nat, ghost files: nat, ghost dirs: nat)
    returns (stack: Stack, u: Usage)
    requires counted == Shown(bytes, files, dirs)
    ensures stack == stacked + Later(path, entry) && |stack| == |stacked| + Own(DirCount, entry)
    ensures u == Shown(bytes + Own(FileBytes, entry), files + Own(FileCount, entry), dirs + Own(DirCount, entry))
  {
    stack, u := stacked, counted;
    if !Hidden(entry.name) {
      if entry.Dir? {
        SaturatesOnce(bytes, files, dirs, 0);
        u := u.(dirCount := SaturatingAdd(u.dirCount, 1));
        stack := stack + [Place(path + [entry.name], entry.entries)];
      } else if entry.File? {
        SaturatesOnce(bytes, files, dirs, |entry.data|);
        u := u.(fileCount := SaturatingAdd(u.fileCount, 1), diskBytes := SaturatingAdd(u.diskBytes, |entry.data|));
      }
    }
  }

  /**
    `calculate_usage` below `target`: whatever order directories are listed in, the counters end as the fold's totals,
    each held at the largest `u64`. The loop ends because every turn reads one of the directories counted.
   */
  method CalculateUsage(target: Entry, order: Order) returns (u: Usage)
    requires LawfulOrder(order)
    ensures target.Dir? ==>
      u == Shown(FoldAll(FileBytes, target.entries), FoldAll(FileCount, target.entries), FoldAll(DirCount, target.entries))
    ensures target.File? ==> u == Usage(|target.data|, 1, 0)
  {
    if !target.Dir? {
      return Usage(if target.File? then |target.data| else 0, 1, 0);
    }
    var stack, turn := [Place([], target.entries)], 0;
    u := Usage(0, 0, 0);
    ghost var bytes: nat, files: nat, dirs: nat := 0, 0, 0;
    ghost var (allBytes, allFiles, allDirs) :=
      (FoldAll(FileBytes, target.entries), FoldAll(FileCount, target.entries), FoldAll(DirCount, target.entries));
    while stack != []
      invariant u == Shown(bytes, files, dirs)
      invariant bytes + Pending(FileBytes, stack) == allBytes
      invariant files + Pending(FileCount, stack) == allFiles
      invariant dirs + Pending(DirCount, stack) == allDirs
      decreases allDirs - dirs + |stack|
    {
      var dir := stack[|stack| - 1];
      stack := stack[..|stack| - 1];
      var listed := order(turn, dir.entries);
      SameFold(FileBytes, order, turn, dir.entries);
      SameFold(FileCount, order, turn, dir.entries);
      SameFold(DirCount, order, turn, dir.entries);
      turn := turn + 1;
      ghost var left := |stack| - dirs;
      for i := 0 to |listed|
        invariant u == Shown(bytes, files, dirs) && |stack| - dirs == left
        invariant bytes + Pending(FileBytes, stack) + FoldAll(FileBytes, listed[i..]) == allBytes
        invariant files + Pending(FileCount, stack) + FoldAll(FileCount, listed[i..]) == allFiles
        invariant dirs + Pending(DirCount, stack) + FoldAll(DirCount, listed[i..]) == allDirs
      {
        var entry := listed[i];
        EntryAccounted(FileBytes, dir.path, stack, listed, i);
        EntryAccounted(FileCount, dir.path, stack, listed, i);
        EntryAccounted(DirCount, dir.path, stack, listed, i);
        stack, u := CountEntry(dir.path, entry, stack, u, bytes, files, dirs);
        bytes := bytes + Own(FileBytes, entry);
        files := files + Own(FileCount, entry);
        dirs := dirs + Own(DirCount, entry);
      }
    }
  }

  // The integrity scan.

  datatype Status = Sound | FileHashMismatch | DecryptionFailed(message: string)

  datatype Event = Event(path: seq<string>, kind: string)

  predicate Contains(text: string, part: string) {
    part == "" || exists i :: 0 <= i <= |text| - |part| && text[i] == part[0] && text[i..i + |part|] == part
  }

  /** The kind of event a status is recorded as. */
  function KindOf(status: Status): Option<string> {
    match status
    case Sound => None
    case FileHashMismatch => Some("checksum_mismatch")
    case DecryptionFailed(message) =>
      Some(if Contains(message, "truncated") || Contains(message, "too small") then "file_truncated" else "decrypt_failed")
  }

  type Check = Bytes -> Status

  function EventsOf(check: Check, path: seq<string>, e: Entry): multiset<Event>
    decreases e, 0
  {
    if Hidden(e.name) then multiset{}
    else
      match e
      case Dir(name, entries) => EventsOfAll(check, path + [name], entries)
      case File(name, data) =>
        var kind := KindOf(check(data));
        if kind.Some? then multiset{Event(path + [name], kind.value)} else multiset{}
      case Other(_) => multiset{}
  }

  function EventsOfAll(check: Check, path: seq<string>, entries: seq<Entry>): multiset<Event>
    decreases entries, 1
  {
    if entries == [] then multiset{} else EventsOf(check, path, entries[0]) + EventsOfAll(check, path, entries[1..])
  }

  /** A visible file below `entries`, with its path from there. */
  ghost predicate HasFile(entries: seq<Entry>, path: seq<string>, data: Bytes)
    decreases path
  {
    exists i :: 0 <= i < |entries| && HasFileIn(entries[i], path, data)
  }

  ghost predicate HasFileIn(e: Entry, path: seq<string>, data: Bytes)
    decreases path, 0
  {
    && path != [] && path[0] == e.name && !Hidden(e.name)
    && if |path| == 1 then e == File(path[0], data) else e.Dir? && HasFile(e.entries, path[1..], data)
  }

  /** An event belongs to a file whose check failed, and every such file has its event. */
  lemma {:induction false} EventsAreFailures(check: Check, at: seq<string>, entries: seq<Entry>, path: seq<string>, kind: string)
    ensures Event(at + path, kind) in EventsOfAll(check, at, entries)
            <==> exists data: Bytes :: HasFile(entries, path, data) && KindOf(check(data)) == Some(kind)
    decreases entries, 1
  {
    if entries != [] {
      EventOfEntry(check, at, entries[0], path, kind);
      EventsAreFailures(check, at, entries[1..], path, kind);
      forall data: Bytes ensures HasFile(entries, path, data) <==> HasFileIn(entries[0], path, data) || HasFile(entries[1..], path, data) {
        HasFileFirst(entries, path, data);
      }
    }
  }

  lemma HasFileFirst(entries: seq<Entry>, path: seq<string>, data: Bytes)
    requires entries != []
    ensures HasFile(entries, path, data) <==> HasFileIn(entries[0], path, data) || HasFile(entries[1..], path, data)
  {
  }

  lemma {:induction false} EventOfEntry(check: Check, at: seq<string>, e: Entry, path: seq<string>, kind: string)
    ensures Event(at + path, kind) in EventsOf(check, at, e)
            <==> exists data: Bytes :: HasFileIn(e, path, data) && KindOf(check(data)) == Some(kind)
    decreases e, 0
  {
    assert (at + path)[|at|..] == path;
    if !Hidden(e.name) {
      match e
      case Dir(name, entries) =>
        EventsStayBelow(check, at + [name], entries, Event(at + path, kind));
        if path != [] && path[0] == name {
          assert at + path == at + [name] + path[1..];
          EventsAreFailures(check, at + [name], entries, path[1..], kind);
          NoFileAtNoPath(entries);
        } else {
          assert path != [] ==> (at + path)[|at|] == path[0];
        }
      case File(name, data) =>
        assert at + path == at + [name] ==> (at + [name])[|at|..] == path;
      case Other(_) =>
    }
  }

  lemma NoFileAtNoPath(entries: seq<Entry>)
    ensures forall data :: !HasFile(entries, [], data)
  {
  }

  lemma {:induction false} EventsStayBelow(check: Check, at: seq<string>, entries: seq<Entry>, event: Event)
    ensures event in EventsOfAll(check, at, entries) ==> at <= event.path && |at| < |event.path|
    decreases entries
  {
    if entries != [] {
      if entries[0].Dir? {
        EventsStayBelow(check, at + [entries[0].name], entries[0].entries, event);
        assert at <= at + [entries[0].name];
      }
      EventsStayBelow(check, at, entries[1..], event);
      assert event in EventsOfAll(check, at, entries) ==>
        event in EventsOf(check, at, entries[0]) || event in EventsOfAll(check, at, entries[1..]);
    }
  }

  /** One failure per file whose check failed. */
  function Failing(check: Check): Weight {
    (e: Entry) => if e.File? && check(e.data) != Sound then 1 else 0
  }

  lemma {:induction false} OneEventPerFailure(check: Check, path: seq<string>, e: Entry)
    ensures |EventsOf(check, path, e)| == Fold(Failing(check), e)
    decreases e, 0
  {
    if e.Dir? {
      OneEventPerFailureInAll(check, path + [e.name], e.entries);
    }
  }

  lemma {:induction false} OneEventPerFailureInAll(check: Check, path: seq<string>, entries: seq<Entry>)
    ensures |EventsOfAll(check, path, entries)| == FoldAll(Failing(check), entries)
    decreases entries, 1
  {
    if entries != [] {
      OneEventPerFailure(check, path, entries[0]);
      OneEventPerFailureInAll(check, path, entries[1..]);
    }
  }

  lemma {:induction false} EventsWithout(check: Check, path: seq<string>, entries: seq<Entry>, i: nat)
    requires i < |entries|
    ensures EventsOfAll(check, path, entries) == EventsOf(check, path, entries[i]) + EventsOfAll(check, path, entries[..i] + entries[i + 1..])
  {
    if i == 0 {
      assert entries[..0] + entries[1..] == entries[1..];
    } else {
      EventsWithout(check, path, entries[1..], i - 1);
      var rest := entries[..i] + entries[i + 1..];
      assert rest[1..] == entries[1..][..i - 1] + entries[1..][i..];
    }
  }

  lemma {:induction false} EventsReordered(check: Check, path: seq<string>, a: seq<Entry>, b: seq<Entry>)
    requires multiset(a) == multiset(b)
    ensures EventsOfAll(check, path, a) == EventsOfAll(check, path, b)
    decreases |a|
  {
    if a != [] {
      var i := FirstIn(a, b);
      EventsWithout(check, path, b, i);
      EventsReordered(check, path, a[1..], b[..i] + b[i + 1..]);
    } else {
      assert |multiset(b)| == 0;
    }
  }

  lemma SameEvents(check: Check, path: seq<string>, order: Order, turn: nat, entries: seq<Entry>)
    requires LawfulOrder(order)
    ensures EventsOfAll(check, path, order(turn, entries)) == EventsOfAll(check, path, entries)
  {
    assert Reorders(order, turn, entries);
    EventsReordered(check, path, order(turn, entries), entries);
  }

  function PendingEvents(check: Check, stack: Stack): multiset<Event> {
    if stack == [] then multiset{}
    else
      var last := stack[|stack| - 1];
      PendingEvents(check, stack[..|stack| - 1]) + EventsOfAll(check, last.path, last.entries)
  }

  /** The rows recorded at once for an entry of a listing. */
  function Recorded(check: Check, path: seq<string>, e: Entry): seq<Event> {
    if Hidden(e.name) || !e.File? || KindOf(check(e.data)).None? then []
    else [Event(path + [e.name], KindOf(check(e.data)).value)]
  }

  lemma EventsAccounted(check: Check, path: seq<string>, stack: Stack, listed: seq<Entry>, i: nat)
    requires i < |listed|
    ensures PendingEvents(check, stack) + EventsOfAll(check, path, listed[i..])
      == multiset(Recorded(check, path, listed[i])) + PendingEvents(check, stack + Later(path, listed[i]))
         + EventsOfAll(check, path, listed[i + 1..])
  {
    var e := listed[i];
    assert listed[i..][1..] == listed[i + 1..];
    if Later(path, e) == [] {
      assert stack + Later(path, e) == stack;
    } else {
      assert (stack + Later(path, e))[..|stack|] == stack;
    }
  }

  /** A file is checked, and a failure becomes a row. */
  method CheckFile(check: Check, path: seq<string>, name: string, data: Bytes) returns (recorded: seq<Event>)
    ensures KindOf(check(data)).None? ==> recorded == []
    ensures KindOf(check(data)).Some? ==> recorded == [Event(path + [name], KindOf(check(data)).value)]
  {
    match KindOf(check(data))
    case None => recorded := [];
    case Some(kind) => recorded := [Event(path + [name], kind)];
  }

  /** The body of the inner loop of `scan_directory`: one entry of a listing. */
  method ScanEntry(check: Check, path: seq<string>, entry: Entry, stacked: Stack)
    returns (stack: Stack, scanned: nat, recorded: seq<Event>)
    ensures stack == stacked + Later(path, entry) && |stack| == |stacked| + Own(DirCount, entry)
    ensures scanned == Own(FileCount, entry) && recorded == Recorded(check, path, entry)
  {
    stack, scanned, recorded := stacked, 0, [];
    if !Hidden(entry.name) {
      if entry.Dir? {
        stack := stack + [Place(path + [entry.name], entry.entries)];
      } else if entry.File? {
        recorded := CheckFile(check, path, entry.name, entry.data);
        scanned := 1;
      }
    }
  }

  lemma Regroup(events: seq<Event>, recorded: seq<Event>, pending: multiset<Event>, left: multiset<Event>,
                pending': multiset<Event>, left': multiset<Event>)
    requires pending + left == multiset(recorded) + pending' + left'
    ensures multiset(events + recorded) + pending' + left' == multiset(events) + pending + left
  {
    assert multiset(events + recorded) == multiset(events) + multiset(recorded);
    forall x ensures (multiset(events + recorded) + pending' + left')[x] == (multiset(events) + pending + left)[x] {
      assert (pending + left)[x] == (multiset(recorded) + pending' + left')[x];
    }
  }

  /** The inner loop of `scan_directory`: the files of a listing are checked, its directories are stacked. */
  method ScanListing(check: Check, path: seq<string>, listed: seq<Entry>, stacked: Stack)
    returns (stack: Stack, scanned: nat, events: seq<Event>)
    ensures scanned + Pending(FileCount, stack) == Pending(FileCount, stacked) + FoldAll(FileCount, listed)
    ensures |stack| + Pending(DirCount, stack) == |stacked| + Pending(DirCount, stacked) + FoldAll(DirCount, listed)
    ensures multiset(events) + PendingEvents(check, stack) == PendingEvents(check, stacked) + EventsOfAll(check, path, listed)
  {
    stack, scanned, events := stacked, 0, [];
    for i := 0 to |listed|
      invariant scanned + Pending(FileCount, stack) + FoldAll(FileCount, listed[i..])
        == Pending(FileCount, stacked) + FoldAll(FileCount, listed)
      invariant |stack| + Pending(DirCount, stack) + FoldAll(DirCount, listed[i..])
        == |stacked| + Pending(DirCount, stacked) + FoldAll(DirCount, listed)
      invariant multiset(events) + PendingEvents(check, stack) + EventsOfAll(check, path, listed[i..])
        == PendingEvents(check, stacked) + EventsOfAll(check, path, listed)
    {
      EntryAccounted(FileCount, path, stack, listed, i);
      EntryAccounted(DirCount, path, stack, listed, i);
      EventsAccounted(check, path, stack, listed, i);
      ghost var before := stack;
      var one, recorded;
      stack, one, recorded := ScanEntry(check, path, listed[i], stack);
      Regroup(events, recorded, PendingEvents(check, before), EventsOfAll(check, path, listed[i..]),
              PendingEvents(check, stack), EventsOfAll(check, path, listed[i + 1..]));
      scanned, events := scanned + one, events + recorded;
    }
    assert listed[|listed|..] == [];
    assert multiset(events) + PendingEvents(check, stack) == multiset(events) + PendingEvents(check, stack) + multiset{};
  }

  /**
    `scan_directory` from a root: every visible file is checked once, and the rows inserted are, up to order, one for each
    file whose check fails.
   */
  method ScanDirectory(root: seq<Entry>, check: Check, order: Order)
    returns (filesScanned: nat, failuresFound: nat, events: seq<Event>)
    requires LawfulOrder(order)
    ensures filesScanned == FoldAll(FileCount, root)
    ensures failuresFound == FoldAll(Failing(check), root)
    ensures multiset(events) == EventsOfAll(check, [], root)
  {
    var stack, turn := [Place([], root)], 0;
    filesScanned, failuresFound, events := 0, 0, [];
    while stack != []
      invariant filesScanned + Pending(FileCount, stack) == FoldAll(FileCount, root)
      invariant multiset(events) + PendingEvents(check, stack) == EventsOfAll(check, [], root) && failuresFound == |events|
      decreases |stack| + Pending(DirCount, stack)
    {
      var dir := stack[|stack| - 1];
      stack := stack[..|stack| - 1];
      var listed := order(turn, dir.entries);
      SameFold(FileCount, order, turn, dir.entries);
      SameFold(DirCount, order, turn, dir.entries);
      SameEvents(check, dir.path, order, turn, dir.entries);
      turn := turn + 1;
      var scanned, recorded;
      stack, scanned, recorded := ScanListing(check, dir.path, listed, stack);
      filesScanned, failuresFound, events := filesScanned + scanned, failuresFound + |recorded|, events + recorded;
    }
    OneEventPerFailureInAll(check, [], root);
  }

  /** Names that begin with a dot count for nothing and are never checked, with all that is below them; other files count for one. */
  lemma DotEntriesAreSkipped(w: Weight, check: Check, path: seq<string>, e: Entry, name: string, data: Bytes)
    requires e.name == "." + name
    ensures Fold(w, e) == 0 && EventsOf(check, path, e) == multiset{}
    ensures (name == "" || name[0] != '.') ==>
      Fold(FileCount, File(name, data)) == 1 && Fold(FileBytes, File(name, data)) == |data|
  {
    assert e.name[0] == '.';
  }
}
