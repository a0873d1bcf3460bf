/** Where a bulk move puts what it moves, what it reports, and the errors of single renames and deletes. */
module BulkMoves {
  import opened ByteStrings
  import opened FileSystem
  import opened SafeJoin
  import opened FileOps

  // Names and directories, as text.

  predicate NoSlash(s: string) {
    forall i :: 0 <= i < |s| ==> s[i] != '/'
  }

  lemma {:induction false} NameAlone(name: string)
    requires NoSlash(name)
    ensures FileNameFromPath(name) == name
    decreases |name|
  {
    if name != "" {
      var last := |name| - 1;
      NameAlone(name[..last]);
      assert name == name[..last] + [name[last]];
    }
  }

  lemma OneLonger(dir: string, name: string)
    requires name != ""
    ensures var (path, last) := (dir + "/" + name, |name| - 1);
      path[..|path| - 1] == dir + "/" + name[..last] && path[|path| - 1] == name[last]
  {
  }

  /** The name of a path is what follows its last slash. */
  lemma {:induction false} NameFollowsLastSlash(dir: string, name: string)
    requires NoSlash(name)
    ensures FileNameFromPath(dir + "/" + name) == name
    decreases |name|
  {
    if name == "" {
      assert (dir + "/" + "")[|dir|] == '/';
    } else {
      OneLonger(dir, name);
      NameFollowsLastSlash(dir, name[..|name| - 1]);
      assert name == name[..|name| - 1] + [name[|name| - 1]];
    }
  }

  /** Every path is its name, or a directory, a slash and its name. */
  lemma {:induction false} PathEndsInItsName(path: string) returns (dir: string)
    ensures NoSlash(FileNameFromPath(path))
    ensures path == FileNameFromPath(path) || path == dir + "/" + FileNameFromPath(path)
  {
    dir := "";
    if path != "" {
      var last := |path| - 1;
      if path[last] == '/' {
        dir := path[..last];
      } else {
        dir := PathEndsInItsName(path[..last]);
        assert path == path[..last] + [path[last]];
      }
    }
  }

  /** What is moved into a directory keeps its name there; without a directory it goes to the root. */
  lemma NewPathIsInTarget(targetDir: string, dir: string, name: string)
    requires NoSlash(name)
    ensures NewPath(targetDir, dir + "/" + name) == (if targetDir == "" then name else targetDir + "/" + name)
    ensures NewPath(targetDir, name) == (if targetDir == "" then name else targetDir + "/" + name)
  {
    NameFollowsLastSlash(dir, name);
    NameAlone(name);
  }

  predicate All(s: string, drop: char -> bool) {
    forall i :: 0 <= i < |s| ==> drop(s[i])
  }

  predicate Trimmed(s: string, drop: char -> bool) {
    s == "" || (!drop(s[0]) && !drop(s[|s| - 1]))
  }

  lemma {:induction false} TrimStartPeels(before: string, rest: string, drop: char -> bool)
    requires All(before, drop) && (rest == "" || !drop(rest[0]))
    ensures TrimStart(before + rest, drop) == rest
    decreases |before|
  {
    if before == "" {
      assert before + rest == rest;
    } else {
      assert (before + rest)[1..] == before[1..] + rest;
      TrimStartPeels(before[1..], rest, drop);
    }
  }

  lemma {:induction false} TrimEndPeels(rest: string, after: string, drop: char -> bool)
    requires All(after, drop) && (rest == "" || !drop(rest[|rest| - 1]))
    ensures TrimEnd(rest + after, drop) == rest
    decreases |after|
  {
    var (s, last) := (rest + after, |after| - 1);
    if after == "" {
      assert s == rest;
    } else {
      assert s[..|s| - 1] == rest + after[..last] && s[|s| - 1] == after[last];
      TrimEndPeels(rest, after[..last], drop);
    }
  }

  lemma {:induction false} TrimStartOfAll(s: string, drop: char -> bool)
    requires All(s, drop)
    ensures TrimStart(s, drop) == ""
  {
    if s != "" {
      TrimStartOfAll(s[1..], drop);
    }
  }

  /** Trimming takes off exactly what surrounds the part that neither begins nor ends in dropped characters. */
  lemma TrimPeels(before: string, core: string, after: string, drop: char -> bool)
    requires All(before, drop) && All(after, drop) && Trimmed(core, drop)
    ensures Trim(before + core + after, drop) == core
  {
    assert before + core + after == before + (core + after);
    if core == "" {
      assert core + after == after && All(before + after, drop);
      TrimStartOfAll(before + after, drop);
    } else {
      TrimStartPeels(before, core + after, drop);
      TrimEndPeels(core, after, drop);
    }
  }

  predicate Slash(c: char) {
    c == '/'
  }

  /** White space and then slashes around a directory do not matter. */
  lemma SurroundingsDoNotMatter(space: string, slashes: string, dir: string, slashes': string, space': string)
    requires All(space, IsWhitespace) && All(space', IsWhitespace) && All(slashes, Slash) && All(slashes', Slash)
    requires dir == "" || (dir[0] != '/' && dir[|dir| - 1] != '/')
    requires slashes + dir + slashes' == "" || (slashes == "" ==> dir == "" || !IsWhitespace(dir[0]))
    requires slashes + dir + slashes' == "" || (slashes' == "" ==> dir == "" || !IsWhitespace(dir[|dir| - 1]))
    ensures NormalizeDirPath(space + (slashes + dir + slashes') + space') == dir
  {
    var inner := slashes + dir + slashes';
    assert inner != "" ==> !IsWhitespace(inner[0]) && !IsWhitespace(inner[|inner| - 1]);
    TrimPeels(space, inner, space', IsWhitespace);
    TrimPeels(slashes, dir, slashes', c => c == '/');
  }

  // Where the destination is.

  lemma {:induction false} SplitLast(dir: string, name: string)
    requires WithoutSeparators(name)
    ensures Split(dir + "/" + name) == Split(dir) + [name]
  {
    if dir == "" {
      SplitFirst(name, "");
      assert "" + "/" + name == "/" + name && ("/" + name)[1..] == name;
    } else {
      SplitLast(dir[1..], name);
      assert (dir + "/" + name)[1..] == dir[1..] + "/" + name;
    }
  }

  /** A walk one name further, to something that is not there, ends at that name below where the shorter walk ends. */
  lemma {:induction false} WalkOneFurther(t: Tree, top: Path, at: Path, todo: Path, name: string)
    requires WellFormed(t) && Canonical(t, at) && top <= at && Walk(t, top, at, todo + [name]).Ok?
    requires Walk(t, top, at, todo + [name]).value !in t
    ensures Walk(t, top, at, todo).Ok? && Walk(t, top, at, todo + [name]) == Ok(Walk(t, top, at, todo).value + [name])
    decreases |todo|
  {
    var first := (todo + [name])[0];
    LstatOfChild(t, at, first);
    if at + [first] in t {
      ChildResolves(t, at, first);
      assert (todo + [name])[1..] == if todo == [] then [] else todo[1..] + [name];
      if todo != [] {
        WalkOneFurther(t, top, Canonicalize(t, at + [first]).value, todo[1..], name);
      }
    } else {
      assert at + (todo + [name]) == at + todo + [name];
      if todo == [] {
        assert at + todo == at;
      }
    }
  }

  lemma {:induction false} PrefixIsValid(dir: string, name: string)
    requires WithoutSeparators(name) && dir != "" && ValidText(dir + "/" + name)
    ensures ValidText(dir)
  {
    SplitLast(dir, name);
    Utf8LengthAdds(dir + "/", name);
    Utf8LengthAdds(dir, "/");
    assert (dir + "/" + name)[0] == dir[0];
    forall i | 0 <= i < |Split(dir)| ensures ValidComponent(Split(dir)[i]) {
      assert (Split(dir) + [name])[i] == Split(dir)[i];
    }
  }

  /** The directory a bulk move goes to: the one its text joins to, or the root. */
  function TargetDirectory(t: Tree, root: Path, targetDir: string): Option<Path> {
    if targetDir == "" then (match Canonicalize(t, root) case Ok(p) => Some(p) case Err(_) => None)
    else match Joined(t, root, targetDir) case Ok(p) => Some(p) case Err(_) => None
  }

  /** A new entry for a name in a directory joins to that name below what the directory joins to. */
  lemma NewEntryIsBelowTarget(t: Tree, root: Path, targetDir: string, name: string)
    requires WellFormed(t) && WithoutSeparators(name)
    requires var dest := Joined(t, root, JoinDirAndName(targetDir, name)); dest.Ok? && dest.value !in t
    ensures TargetDirectory(t, root, targetDir).Some?
    ensures Joined(t, root, JoinDirAndName(targetDir, name)) == Ok(TargetDirectory(t, root, targetDir).value + [name])
  {
    var top := Canonicalize(t, root).value;
    FollowIsCanonical(t, [], root, LINK_LIMIT);
    if targetDir == "" {
      SplitFirst(name, "");
      assert [] + [name] == [name];
      WalkOneFurther(t, top, top, [], name);
    } else {
      SplitLast(targetDir, name);
      PrefixIsValid(targetDir, name);
      WalkOneFurther(t, top, top, Split(targetDir), name);
    }
  }

  /** `u` is `t` with the subtree at `source`, whole and unchanged, at `dest`. */
  ghost predicate SubtreeArrives(t: Tree, u: Tree, source: Path, dest: Path) {
    && (forall rest {:trigger dest + rest} :: dest + rest in u <==> source + rest in t)
    && (forall rest {:trigger dest + rest} :: dest + rest in u ==> u[dest + rest] == t[source + rest])
    && (forall rest {:trigger source + rest} :: source + rest !in u)
  }

  lemma MovedSubtreeArrives(t: Tree, source: Path, dest: Path)
    requires WellFormed(WithDirectories(t, ParentOrTop(dest))) && Movable(WithDirectories(t, ParentOrTop(dest)), source, dest)
    ensures SubtreeArrives(t, Moved(WithDirectories(t, ParentOrTop(dest)), source, dest), source, dest)
  {
    var ready := WithDirectories(t, ParentOrTop(dest));
    forall rest: Path ensures dest + rest in Moved(ready, source, dest) <==> source + rest in t {
      MovedIsPrefixSwap(ready, source, dest, dest + rest);
      assert (dest + rest)[|dest|..] == rest;
      NotMadeBelow(dest, source, rest);
    }
    forall rest: Path | dest + rest in Moved(ready, source, dest)
      ensures Moved(ready, source, dest)[dest + rest] == t[source + rest]
    {
      MovedIsPrefixSwap(ready, source, dest, dest + rest);
      assert (dest + rest)[|dest|..] == rest;
      NotMadeBelow(dest, source, rest);
    }
    forall rest: Path ensures source + rest !in Moved(ready, source, dest) {
      SourceIsVacated(ready, source, dest, source + rest);
    }
  }

  function ParentOrTop(p: Path): Path {
    if p == [] then [] else Parent(p)
  }

  lemma NotMadeBelow(dest: Path, source: Path, rest: Path)
    ensures source + rest <= ParentOrTop(dest) ==> source <= dest
  {
  }

  /**
    A turn of a bulk move that goes through takes the subtree of the entry its path joins to, whole, to the path's last name
    in the target directory, where there was nothing.
   */
  lemma TurnMovesIntoTarget(t: Tree, root: Path, targetDir: string, oldPath: string)
    requires WellFormed(t) && WithoutSeparators(FileNameFromPath(oldPath)) && MoveOne(t, root, targetDir, oldPath).1.Ok?
    ensures Joined(t, root, oldPath).Ok? && Joined(t, root, oldPath).value in t && TargetDirectory(t, root, targetDir).Some?
    ensures var dest := TargetDirectory(t, root, targetDir).value + [FileNameFromPath(oldPath)];
      dest !in t && SubtreeArrives(t, MoveOne(t, root, targetDir, oldPath).0, Joined(t, root, oldPath).value, dest)
  {
    var (name, newPath) := (FileNameFromPath(oldPath), NewPath(targetDir, oldPath));
    RenameNeedsPaths(t, root, oldPath, newPath);
    var (source, dest) := (Joined(t, root, oldPath).value, Joined(t, root, newPath).value);
    RenameArrives(t, root, oldPath, newPath, source, dest);
    NewEntryIsBelowTarget(t, root, targetDir, name);
  }

  lemma RenameArrives(t: Tree, root: Path, oldPath: string, newPath: string, source: Path, dest: Path)
    requires WellFormed(t) && Joins(t, root, oldPath, newPath, source, dest) && RenameEntry(t, root, oldPath, newPath).1.Ok?
    ensures source in t && dest !in t && SubtreeArrives(t, RenameEntry(t, root, oldPath, newPath).0, source, dest)
  {
    RenameMovesTheSubtree(t, root, oldPath, newPath, source, dest);
    MovedSubtreeArrives(t, source, dest);
  }

  lemma RenameNeedsPaths(t: Tree, root: Path, oldPath: string, newPath: string)
    ensures RenameEntry(t, root, oldPath, newPath).1.Ok? ==>
      && Joined(t, root, oldPath).Ok? && Joined(t, root, newPath).Ok?
      && Joins(t, root, oldPath, newPath, Joined(t, root, oldPath).value, Joined(t, root, newPath).value)
  {
  }

  /** A name with a backslash is split once more at the destination: it goes into directories of its own. */
  lemma BackslashNamesGoDeeper(targetDir: string, first: string, second: string)
    requires targetDir != "" && NoSlash(first) && NoSlash(second)
    requires WithoutSeparators(first) && WithoutSeparators(second)
    ensures NewPath(targetDir, first + "\\" + second) == targetDir + "/" + (first + "\\" + second)
    ensures Split(first + "\\" + second) == [first, second]
  {
    var name := first + "\\" + second;
    NewPathIsInTarget(targetDir, "", name);
    SplitBackslash(first, second);
  }

  lemma {:induction false} SplitBackslash(first: string, second: string)
    requires WithoutSeparators(first) && WithoutSeparators(second)
    ensures Split(first + "\\" + second) == [first, second]
  {
    SplitFirst(second, "");
    if first == "" {
      assert "" + "\\" + second == "\\" + second && ("\\" + second)[1..] == second;
    } else {
      SplitBackslash(first[1..], second);
      assert (first + "\\" + second)[1..] == first[1..] + "\\" + second;
      assert [first[0]] + first[1..] == first;
    }
  }

  // What is reported.

  /** What is reported of a turn. */
  function Report(path: string, r: Result<(), AppError>): seq<(string, AppError)> {
    match r
    case Ok(_) => []
    case Err(e) => [(path, e)]
  }

  lemma Reported(o: Outcome, u: Tree, path: string, r: Result<(), AppError>)
    ensures var p := o.With(u, path, r);
      p.tree == u && p.errors == o.errors + Report(path, r) && p.done == o.done + 1 - |Report(path, r)|
  {
  }

  /** The turns of a bulk move that fail, by path and error, on the trees they run on. */
  function FailedMoves(t: Tree, root: Path, targetDir: string, paths: seq<string>): seq<(string, AppError)>
    decreases |paths|
  {
    if paths == [] then []
    else
      var (u, r) := MoveOne(t, root, targetDir, paths[0]);
      Report(paths[0], r) + FailedMoves(u, root, targetDir, paths[1..])
  }

  /** The errors of a bulk move are its failed turns in order, and the rest are counted as moved. */
  lemma {:induction false} BulkMoveReportsFailures(o: Outcome, root: Path, targetDir: string, paths: seq<string>)
    ensures var end := MoveAll(o, root, targetDir, paths);
      var failed := FailedMoves(o.tree, root, targetDir, paths);
      |failed| <= |paths| && end.errors == o.errors + failed && end.done == o.done + |paths| - |failed|
    decreases |paths|
  {
    if paths != [] {
      var (u, r) := MoveOne(o.tree, root, targetDir, paths[0]);
      Reported(o, u, paths[0], r);
      BulkMoveReportsFailures(o.With(u, paths[0], r), root, targetDir, paths[1..]);
    }
  }

  function FailedDeletes(t: Tree, root: Path, paths: seq<string>): seq<(string, AppError)>
    decreases |paths|
  {
    if paths == [] then []
    else
      var (u, r) := DeleteEntry(t, root, paths[0]);
      Report(paths[0], r) + FailedDeletes(u, root, paths[1..])
  }

  lemma {:induction false} BulkDeleteReportsFailures(o: Outcome, root: Path, paths: seq<string>)
    ensures var end := DeleteAll(o, root, paths);
      var failed := FailedDeletes(o.tree, root, paths);
      |failed| <= |paths| && end.errors == o.errors + failed && end.done == o.done + |paths| - |failed|
    decreases |paths|
  {
    if paths != [] {
      var (u, r) := DeleteEntry(o.tree, root, paths[0]);
      Reported(o, u, paths[0], r);
      BulkDeleteReportsFailures(o.With(u, paths[0], r), root, paths[1..]);
    }
  }

  /** Which error a rename gives, by what is in the tree. */
  lemma RenameErrors(t: Tree, root: Path, oldPath: string, newPath: string)
    requires WellFormed(t)
    ensures var r := RenameEntry(t, root, oldPath, newPath).1;
      if oldPath == "" || newPath == "" || Joined(t, root, oldPath).Err? || Joined(t, root, newPath).Err? then r == Err(Validation)
      else
        var (source, dest) := (Joined(t, root, oldPath).value, Joined(t, root, newPath).value);
        r == if source !in t then Err(NotFound) else if dest in t then Err(Conflict) else if source <= dest then Err(Internal) else Ok(())
  {
    JoinFailsAsValidation(t, root, oldPath);
    JoinFailsAsValidation(t, root, newPath);
    if Joined(t, root, oldPath).Ok? {
      JoinedExists(t, root, oldPath);
    }
    if Joined(t, root, newPath).Ok? {
      JoinedExists(t, root, newPath);
    }
  }

  lemma JoinFailsAsValidation(t: Tree, root: Path, userPath: string)
    ensures Joined(t, root, userPath).Err? ==> Joined(t, root, userPath) == Err(Validation)
  {
    if ValidText(userPath) && Canonicalize(t, root).Ok? {
      WalkFailsAsValidation(t, Canonicalize(t, root).value, Canonicalize(t, root).value, Split(userPath));
    }
  }

  lemma {:induction false} WalkFailsAsValidation(t: Tree, top: Path, at: Path, todo: Path)
    ensures Walk(t, top, at, todo).Err? ==> Walk(t, top, at, todo) == Err(Validation)
    decreases |todo|
  {
    if todo != [] && Lstat(t, at, todo[0]).Ok? && Canonicalize(t, at + [todo[0]]).Ok? {
      WalkFailsAsValidation(t, top, Canonicalize(t, at + [todo[0]]).value, todo[1..]);
    }
  }

  /** Which error a delete gives: the root is refused, what is not there is not found. */
  lemma DeleteErrors(t: Tree, root: Path, userPath: string)
    requires WellFormed(t)
    ensures var r := DeleteEntry(t, root, userPath).1;
      if userPath == "" || Joined(t, root, userPath).Err? then r == Err(Validation)
      else
        var target := Joined(t, root, userPath).value;
        r == if target !in t then Err(NotFound) else if Ok(target) == Canonicalize(t, root) then Err(Validation) else Ok(())
  {
    JoinFailsAsValidation(t, root, userPath);
    if Joined(t, root, userPath).Ok? {
      JoinedExists(t, root, userPath);
      var k, p := JoinedIsOneResolution(t, root, userPath);
    }
  }
}
