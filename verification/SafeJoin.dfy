/** User-supplied paths: validation, and the walk that keeps them under a root. */
module SafeJoin {
  import opened ByteStrings
  import opened FileSystem

  datatype AppError = Validation | NotFound | Conflict | Internal

  const MAX_COMPONENT_BYTES := 255
  const MAX_PATH_BYTES := 4096
  const MAX_DEPTH := 128

  // Strings.

  function Utf8Length(s: string): (n: nat)
    ensures n >= |s|
  {
    if s == [] then 0
    else (if s[0] < '\U{80}' then 1 else if s[0] < '\U{800}' then 2 else if s[0] < '\U{10000}' then 3 else 4) + Utf8Length(s[1..])
  }

  predicate IsSeparator(c: char) {
    c == '/' || c == '\\'
  }

  /** The Unicode `White_Space` characters. */
  predicate IsWhitespace(c: char) {
    || '\t' <= c <= '\r' || c == ' ' || c == '\U{85}' || c == '\U{A0}' || c == '\U{1680}'
    || '\U{2000}' <= c <= '\U{200A}' || c == '\U{2028}' || c == '\U{2029}' || c == '\U{202F}'
    || c == '\U{205F}' || c == '\U{3000}'
  }

  /** `split(['/', '\\'])`. */
  function Split(s: string): (parts: seq<string>)
    ensures parts != []
  {
    if s == "" then [""]
    else
      var rest := Split(s[1..]);
      if IsSeparator(s[0]) then [""] + rest else [[s[0]] + rest[0]] + rest[1..]
  }

  function JoinWithSlashes(parts: seq<string>): string
    requires parts != []
  {
    if |parts| == 1 then parts[0] else parts[0] + "/" + JoinWithSlashes(parts[1..])
  }

  function Slashed(s: string): string {
    if s == "" then "" else [if IsSeparator(s[0]) then '/' else s[0]] + Slashed(s[1..])
  }

  predicate WithoutSeparators(s: string) {
    forall i :: 0 <= i < |s| ==> !IsSeparator(s[i])
  }

  /** Splitting loses nothing but which separator was written, and leaves none inside a component. */
  lemma {:induction false} SplitRejoins(s: string)
    ensures JoinWithSlashes(Split(s)) == Slashed(s)
    ensures forall i :: 0 <= i < |Split(s)| ==> WithoutSeparators(Split(s)[i])
  {
    if s != "" {
      SplitRejoins(s[1..]);
      RejoinFirst(s[0], Split(s[1..]));
    }
  }

  lemma RejoinFirst(c: char, rest: seq<string>)
    requires rest != []
    ensures JoinWithSlashes([""] + rest) == "/" + JoinWithSlashes(rest)
    ensures JoinWithSlashes([[c] + rest[0]] + rest[1..]) == [c] + JoinWithSlashes(rest)
  {
    JoinFirst("", rest);
    assert "" + "/" == "/";
    if |rest| == 1 {
      assert [[c] + rest[0]] + rest[1..] == [[c] + rest[0]];
    } else {
      JoinFirst([c] + rest[0], rest[1..]);
      CharInFront(c, rest[0], JoinWithSlashes(rest[1..]));
    }
  }

  lemma JoinFirst(first: string, rest: seq<string>)
    requires rest != []
    ensures JoinWithSlashes([first] + rest) == first + "/" + JoinWithSlashes(rest)
  {
    assert ([first] + rest)[1..] == rest;
  }

  lemma CharInFront(c: char, s: string, t: string)
    ensures [c] + s + "/" + t == [c] + (s + "/" + t)
  {
  }

  predicate ValidComponent(c: string) {
    && c != ""
    && Utf8Length(c) <= MAX_COMPONENT_BYTES
    && (forall i :: 0 <= i < |c| ==> c[i] >= ' ' && c[i] != '\U{7F}')
    && c != "." && c != ".." && c[0] != '.'
    && !IsWhitespace(c[0]) && !IsWhitespace(c[|c| - 1])
  }

  /** The checks made on the text alone. */
  predicate ValidText(userPath: string) {
    && userPath != ""
    && Utf8Length(userPath) <= MAX_PATH_BYTES
    && !IsSeparator(userPath[0]) && ':' !in userPath
    && |Split(userPath)| <= MAX_DEPTH
    && forall i :: 0 <= i < |Split(userPath)| ==> ValidComponent(Split(userPath)[i])
  }

  // The walk.

  /** From `at`, with `todo` still to go, under the canonical root. */
  function Walk(t: Tree, root: Path, at: Path, todo: Path): Result<Path, AppError>
    decreases |todo|
  {
    if todo == [] then (if root <= at then Ok(at) else Err(Validation))
    else
      match Lstat(t, at, todo[0])
      case Ok(_) =>
        (match Canonicalize(t, at + [todo[0]])
         case Ok(resolved) => if root <= resolved then Walk(t, root, resolved, todo[1..]) else Err(Validation)
         case Err(_) => Err(Validation))
      case Err(Missing) => if root <= at + todo then Ok(at + todo) else Err(Validation)
      case Err(_) => Err(Validation)
  }

  function Joined(t: Tree, root: Path, userPath: string): Result<Path, AppError> {
    if !ValidText(userPath) then Err(Validation)
    else
      match Canonicalize(t, root)
      case Ok(canonicalRoot) => Walk(t, canonicalRoot, canonicalRoot, Split(userPath))
      case Err(_) => Err(Validation)
  }

  method ValidateComponents(components: seq<string>) returns (ok: bool)
    ensures ok <==> forall i :: 0 <= i < |components| ==> ValidComponent(components[i])
  {
    for i := 0 to |components|
      invariant forall j :: 0 <= j < i ==> ValidComponent(components[j])
    {
      if !ValidComponent(components[i]) {
        return false;
      }
    }
    ok := true;
  }

  /** `safe_join`. */
  method SafeJoinPath(t: Tree, root: Path, userPath: string) returns (r: Result<Path, AppError>)
    ensures r == Joined(t, root, userPath)
  {
    if userPath == "" || Utf8Length(userPath) > MAX_PATH_BYTES || IsSeparator(userPath[0]) || ':' in userPath {
      return Err(Validation);
    }
    var components := Split(userPath);
    if |components| > MAX_DEPTH {
      return Err(Validation);
    }
    var valid := ValidateComponents(components);
    if !valid {
      return Err(Validation);
    }
    var canonicalized := Canonicalize(t, root);
    if canonicalized.Err? {
      return Err(Validation);
    }
    var canonicalRoot := canonicalized.value;
    var current := canonicalRoot;
    for i := 0 to |components|
      invariant Walk(t, canonicalRoot, current, components[i..]) == Walk(t, canonicalRoot, canonicalRoot, components)
    {
      var meta := Lstat(t, current, components[i]);
      if meta.Ok? {
        var resolved := Canonicalize(t, current + [components[i]]);
        if resolved.Err? || !(canonicalRoot <= resolved.value) {
          return Err(Validation);
        }
        assert components[i..][1..] == components[i + 1..];
        current := resolved.value;
      } else if meta.error == Missing {
        current := current + components[i..];
        return if canonicalRoot <= current then Ok(current) else Err(Validation);
      } else {
        return Err(Validation);
      }
    }
    r := if canonicalRoot <= current then Ok(current) else Err(Validation);
  }

  // What the walk finds.

  /** From a canonical directory a single component is looked up directly. */
  lemma LstatOfChild(t: Tree, at: Path, name: string)
    requires WellFormed(t) && Canonical(t, at)
    ensures Lstat(t, at, name) ==
      if !t[at].Directory? then Err(NotDirectory) else if at + [name] in t then Ok(t[at + [name]]) else Err(Missing)
  {
    assert [] + at == at;
    FollowOwn(t, [], at, LINK_LIMIT);
  }

  /** Canonicalizing a child of a canonical directory is one step of resolution from there. */
  lemma ChildResolves(t: Tree, at: Path, name: string)
    requires WellFormed(t) && Canonical(t, at) && Canonicalize(t, at + [name]).Ok?
    ensures Follow(t, at, [name], LINK_LIMIT) == Canonicalize(t, at + [name])
    ensures Canonical(t, Canonicalize(t, at + [name]).value)
  {
    assert [] + at == at;
    FollowOwn(t, [], at, LINK_LIMIT);
    FollowFrom(t, [], at, [name], LINK_LIMIT);
    FollowIsCanonical(t, [], at + [name], LINK_LIMIT);
  }

  /** Resolving `todo[..k]` from `at` in one go, with `k` times the allowance, leads to `p`; the next component is not there. */
  predicate StopsAt(t: Tree, at: Path, todo: Path, k: nat, p: Path) {
    && k <= |todo|
    && Follow(t, at, todo[..k], LINK_LIMIT * k) == Ok(p)
    && (k < |todo| ==> p in t && t[p].Directory? && p + [todo[k]] !in t)
  }

  lemma StopsOneEarlier(t: Tree, at: Path, todo: Path, k: nat, next: Path, p: Path)
    requires todo != [] && Follow(t, at, [todo[0]], LINK_LIMIT) == Ok(next) && StopsAt(t, next, todo[1..], k, p)
    ensures StopsAt(t, at, todo, 1 + k, p) && todo[1..][k..] == todo[1 + k..]
  {
    FollowOn(t, at, [todo[0]], todo[1..][..k], LINK_LIMIT, LINK_LIMIT * k);
    assert [todo[0]] + todo[1..][..k] == todo[..1 + k];
    if k < |todo[1..]| {
      assert todo[1..][k] == todo[1 + k];
    }
  }

  /** A walk that succeeds is one resolution of the part that exists, and the rest appended. */
  lemma {:induction false} WalkIsOneGo(t: Tree, top: Path, at: Path, todo: Path) returns (k: nat, p: Path)
    requires WellFormed(t) && Canonical(t, at) && Walk(t, top, at, todo).Ok?
    ensures StopsAt(t, at, todo, k, p) && Canonical(t, p)
    ensures Walk(t, top, at, todo) == Ok(p + todo[k..]) && top <= p + todo[k..]
    decreases |todo|
  {
    if todo == [] {
      k, p := 0, at;
      assert at + todo[0..] == at;
    } else {
      LstatOfChild(t, at, todo[0]);
      if at + [todo[0]] in t {
        ChildResolves(t, at, todo[0]);
        var next := Canonicalize(t, at + [todo[0]]).value;
        k, p := WalkIsOneGo(t, top, next, todo[1..]);
        StopsOneEarlier(t, at, todo, k, next, p);
        k := 1 + k;
      } else {
        k, p := 0, at;
        assert todo[..0] == [] && todo[0..] == todo;
      }
    }
  }

  /** Nothing lies below a path that does not exist. */
  lemma {:induction false} NothingBelow(t: Tree, p: Path, q: Path)
    requires WellFormed(t) && p !in t && p <= q
    ensures q !in t
  {
    assert q[..|p|] == p && (|p| == |q| ==> q[..|p|] == q);
    if q in t && |p| < |q| {
      PrefixIsDirectory(t, q, |p|);
    }
  }

  lemma PrefixIsNoLink(t: Tree, p: Path, q: Path)
    requires WellFormed(t) && Canonical(t, p) && q <= p
    ensures Canonical(t, q)
  {
    assert p[..|q|] == q && (|q| == |p| ==> q == p);
    if |q| < |p| {
      PrefixIsDirectory(t, p, |q|);
    }
  }

  /** No part of the result that exists is a link. */
  lemma NoLinkOnTheWay(t: Tree, p: Path, rest: Path, q: Path)
    requires WellFormed(t) && Canonical(t, p) && (rest != [] ==> p + [rest[0]] !in t)
    requires q <= p + rest && q in t
    ensures Canonical(t, q)
  {
    if |q| <= |p| {
      assert q <= p;
      PrefixIsNoLink(t, p, q);
    } else {
      assert p + [rest[0]] <= q;
      NothingBelow(t, p + [rest[0]], q);
    }
  }

  /** Beyond the existing part one resolution finds nothing. */
  lemma MissingBeyond(t: Tree, at: Path, todo: Path, k: nat, p: Path, j: nat)
    requires k < j <= |todo| && StopsAt(t, at, todo, k, p) && EntryName(todo[k])
    ensures Follow(t, at, todo[..j], LINK_LIMIT * k) == Err(Missing)
  {
    assert Follow(t, p, todo[k..j], 0) == Err(Missing);
    FollowOn(t, at, todo[..k], todo[k..j], LINK_LIMIT * k, 0);
    assert todo[..k] + todo[k..j] == todo[..j];
  }

  /**
    `todo[..k]` is the longest part of `todo` that exists under `top`: resolved in one go from `/`, with `k` times the link
    allowance, it is `p`, and any longer part is missing.
   */
  ghost predicate LongestExisting(t: Tree, top: Path, todo: Path, k: nat, p: Path) {
    && k <= |todo|
    && Follow(t, [], top + todo[..k], LINK_LIMIT * k) == Ok(p)
    && forall j :: k < j <= |todo| ==> Follow(t, [], top + todo[..j], LINK_LIMIT * k) == Err(Missing)
  }

  lemma FromTheTop(t: Tree, top: Path, todo: Path, links: nat)
    requires WellFormed(t) && Canonical(t, top) && Follow(t, top, todo, links) != Err(TooManyLinks)
    ensures Follow(t, [], top + todo, links) == Follow(t, top, todo, links)
  {
    assert [] + top == top;
    FollowOwn(t, [], top, 0);
    FollowOn(t, [], top, todo, 0, links);
  }

  lemma StopsAtLongest(t: Tree, top: Path, todo: Path, k: nat, p: Path)
    requires WellFormed(t) && Canonical(t, top) && StopsAt(t, top, todo, k, p)
    requires forall i :: 0 <= i < |todo| ==> EntryName(todo[i])
    ensures LongestExisting(t, top, todo, k, p)
  {
    FromTheTop(t, top, todo[..k], LINK_LIMIT * k);
    forall j | k < j <= |todo| ensures Follow(t, [], top + todo[..j], LINK_LIMIT * k) == Err(Missing) {
      MissingBeyond(t, top, todo, k, p, j);
      FromTheTop(t, top, todo[..j], LINK_LIMIT * k);
    }
  }

  /**
    A successful join resolves root and the longest part of the path that exists in one go and appends the rest, which is
    missing; the result is under the root, and nothing that exists on the way to it is a link.
   */
  lemma JoinedIsOneResolution(t: Tree, root: Path, userPath: string) returns (k: nat, p: Path)
    requires WellFormed(t) && Joined(t, root, userPath).Ok?
    ensures var todo := Split(userPath);
      var top := Canonicalize(t, root).value;
      && Canonical(t, top) && Canonical(t, p)
      && LongestExisting(t, top, todo, k, p)
      && Joined(t, root, userPath) == Ok(p + todo[k..])
      && top <= p + todo[k..]
      && (k < |todo| ==> t[p].Directory? && p + [todo[k]] !in t)
    ensures forall q :: q <= Joined(t, root, userPath).value && q in t ==> !t[q].Link?
  {
    var todo, top := Split(userPath), Canonicalize(t, root).value;
    FollowIsCanonical(t, [], root, LINK_LIMIT);
    k, p := WalkIsOneGo(t, top, top, todo);
    StopsAtLongest(t, top, todo, k, p);
    var rest := todo[k..];
    forall q | q <= p + rest && q in t ensures !t[q].Link? {
      NoLinkOnTheWay(t, p, rest, q);
    }
  }

  /**
    One resolution with the ordinary allowance finds the same as the walk exactly when the links on the way, all
    components together, fit that allowance; otherwise it gives up.
   */
  lemma OrdinaryAllowance(t: Tree, top: Path, todo: Path, k: nat, p: Path)
    requires LongestExisting(t, top, todo, k, p)
    ensures Canonicalize(t, top + todo[..k]) ==
      if LinksUsed(t, [], top + todo[..k], LINK_LIMIT * k) <= LINK_LIMIT then Ok(p) else Err(TooManyLinks)
  {
    FitsIffLinksFit(t, [], top + todo[..k], LINK_LIMIT * k, LINK_LIMIT);
  }

  /** The kernel resolves every prefix of `todo` in one go, to somewhere under `top`. */
  ghost predicate EveryPrefixInside(t: Tree, top: Path, at: Path, todo: Path) {
    forall j :: 0 <= j <= |todo| ==> ResolvesInside(t, top, at, todo[..j])
  }

  predicate ResolvesInside(t: Tree, top: Path, at: Path, todo: Path) {
    var p := Follow(t, at, todo, LINK_LIMIT);
    p.Ok? && top <= p.value
  }

  lemma AfterFirst(t: Tree, top: Path, at: Path, todo: Path, next: Path, j: nat)
    requires todo != [] && Follow(t, at, [todo[0]], LINK_LIMIT) == Ok(next)
    requires j <= |todo| - 1 && ResolvesInside(t, top, at, todo[..1 + j])
    ensures ResolvesInside(t, top, next, todo[1..][..j])
    ensures Follow(t, next, todo[1..][..j], LINK_LIMIT) == Follow(t, at, todo[..1 + j], LINK_LIMIT)
  {
    assert [todo[0]] + todo[1..][..j] == todo[..1 + j];
    FollowFrom(t, at, [todo[0]], todo[1..][..j], LINK_LIMIT);
  }

  lemma FirstInside(t: Tree, top: Path, at: Path, name: string)
    requires WellFormed(t) && Canonical(t, at) && ResolvesInside(t, top, at, [name]) && EntryName(name)
    ensures Lstat(t, at, name).Ok? && Canonicalize(t, at + [name]) == Follow(t, at, [name], LINK_LIMIT)
    ensures Canonical(t, Canonicalize(t, at + [name]).value)
  {
    LstatOfChild(t, at, name);
    FromTheTop(t, at, [name], LINK_LIMIT);
    ChildResolves(t, at, name);
  }

  /** The other way round: a path whose every prefix the kernel resolves inside the root is not refused. */
  lemma {:induction false} InsideIsAccepted(t: Tree, top: Path, at: Path, todo: Path)
    requires WellFormed(t) && Canonical(t, at) && EveryPrefixInside(t, top, at, todo)
    requires forall i :: 0 <= i < |todo| ==> EntryName(todo[i])
    ensures Follow(t, at, todo, LINK_LIMIT).Ok?
    ensures Walk(t, top, at, todo) == Ok(Follow(t, at, todo, LINK_LIMIT).value)
    decreases |todo|
  {
    assert todo[..|todo|] == todo;
    assert ResolvesInside(t, top, at, todo[..|todo|]);
    if todo != [] {
      assert ResolvesInside(t, top, at, todo[..1]) && todo[..1] == [todo[0]];
      FirstInside(t, top, at, todo[0]);
      var next := Canonicalize(t, at + [todo[0]]).value;
      forall j | 0 <= j <= |todo[1..]| ensures ResolvesInside(t, top, next, todo[1..][..j]) {
        assert ResolvesInside(t, top, at, todo[..1 + j]);
        AfterFirst(t, top, at, todo, next, j);
      }
      AfterFirst(t, top, at, todo, next, |todo| - 1);
      assert todo[1..][..|todo| - 1] == todo[1..];
      InsideIsAccepted(t, top, next, todo[1..]);
    }
  }

  // The allowance is per component: a directory with a link to itself can be walked through any number of times.

  const LOOPING: Tree := map[[] := Directory, ["top"] := Directory, ["top", "here"] := Link(false, ["."])]

  function Heres(n: nat): Path {
    if n == 0 then [] else ["here"] + Heres(n - 1)
  }

  lemma {:induction false} LoopingFollow(n: nat, links: nat)
    ensures Follow(LOOPING, ["top"], Heres(n), links) == if n <= links then Ok(["top"]) else Err(TooManyLinks)
  {
    if n > 0 {
      assert Heres(n)[1..] == Heres(n - 1) && ["top"] + ["here"] == ["top", "here"];
      if links > 0 {
        assert (["."] + Heres(n - 1))[1..] == Heres(n - 1);
        LoopingFollow(n - 1, links - 1);
      }
    }
  }

  lemma {:induction false} LoopingWalk(n: nat)
    ensures Walk(LOOPING, ["top"], ["top"], Heres(n)) == Ok(["top"])
  {
    if n > 0 {
      HereIsTop();
      assert Heres(n)[1..] == Heres(n - 1);
      LoopingWalk(n - 1);
    }
  }

  lemma TopIsTop(links: nat)
    ensures Follow(LOOPING, [], ["top"], links) == Ok(["top"])
  {
    assert [] + ["top"] == ["top"];
  }

  lemma HereIsTop()
    ensures Lstat(LOOPING, ["top"], "here").Ok? && Canonicalize(LOOPING, ["top"] + ["here"]) == Ok(["top"])
  {
    var t := LOOPING;
    assert ["top"] + ["here"] == ["top", "here"];
    assert Follow(t, ["top"], ["here"], LINK_LIMIT) == Ok(["top"]) by {
      LoopingFollow(1, LINK_LIMIT);
      assert Heres(1) == ["here"] + Heres(0);
    }
    TopIsTop(LINK_LIMIT);
    TopIsTop(0);
    FollowOn(t, [], ["top"], ["here"], 0, LINK_LIMIT);
  }

  /** `here/here/...`, with `n` components. */
  function HereText(n: nat): string
    requires n >= 1
  {
    if n == 1 then "here" else "here" + "/" + HereText(n - 1)
  }

  /** A component in front of a text is split off. */
  lemma {:induction false} SplitFirst(name: string, rest: string)
    requires WithoutSeparators(name)
    ensures Split(name) == [name] && Split(name + "/" + rest) == [name] + Split(rest)
  {
    if name == "" {
      assert ("" + "/" + rest)[1..] == rest;
    } else {
      SplitFirst(name[1..], rest);
      assert (name + "/" + rest)[1..] == name[1..] + "/" + rest;
      assert [name[0]] + name[1..] == name;
      assert ([name[1..]] + Split(rest))[1..] == Split(rest);
    }
  }

  lemma {:induction false} Utf8LengthAdds(s: string, t: string)
    ensures Utf8Length(s + t) == Utf8Length(s) + Utf8Length(t)
  {
    if s == "" {
      assert s + t == t;
    } else {
      assert (s + t)[1..] == s[1..] + t;
      Utf8LengthAdds(s[1..], t);
    }
  }

  lemma {:induction false} HereTextSplits(n: nat)
    requires n >= 1
    ensures Split(HereText(n)) == Heres(n) && |Heres(n)| == n
    ensures HereText(n)[0] == 'h' && ':' !in HereText(n) && Utf8Length(HereText(n)) == 5 * n - 1
    ensures forall i :: 0 <= i < n ==> Heres(n)[i] == "here"
  {
    assert Utf8Length("here") == 4;
    if n == 1 {
      SplitFirst("here", "");
      assert Heres(1) == ["here"] + Heres(0);
    } else {
      HereTextSplits(n - 1);
      SplitFirst("here", HereText(n - 1));
      Utf8LengthAdds("here", "/");
      Utf8LengthAdds("here" + "/", HereText(n - 1));
    }
  }

  lemma HereIsValid()
    ensures ValidComponent("here")
  {
    assert Utf8Length("here") == 4;
  }

  lemma TextIsValid(text: string, parts: seq<string>)
    requires text != "" && Utf8Length(text) <= MAX_PATH_BYTES && !IsSeparator(text[0]) && ':' !in text
    requires Split(text) == parts && |parts| <= MAX_DEPTH && forall i :: 0 <= i < |parts| ==> ValidComponent(parts[i])
    ensures ValidText(text)
  {
  }

  lemma HereTextIsValid(n: nat)
    requires 1 <= n <= MAX_DEPTH
    ensures ValidText(HereText(n))
  {
    HereTextSplits(n);
    HereIsValid();
    TextIsValid(HereText(n), Heres(n));
  }

  /** A text of 41 to 128 such components is accepted, and is refused by the kernel asked in one go. */
  lemma WalkOutlastsTheKernel(n: nat)
    requires 1 <= n <= MAX_DEPTH
    ensures Joined(LOOPING, ["top"], HereText(n)) == Ok(["top"])
    ensures Canonicalize(LOOPING, ["top"] + Split(HereText(n))) == if n <= LINK_LIMIT then Ok(["top"]) else Err(TooManyLinks)
  {
    HereTextIsValid(n);
    HereTextSplits(n);
    LoopingWalk(n);
    TopIsTop(LINK_LIMIT);
    OneGoOutOfLinks(n);
  }

  lemma OneGoOutOfLinks(n: nat)
    ensures Canonicalize(LOOPING, ["top"] + Heres(n)) == if n <= LINK_LIMIT then Ok(["top"]) else Err(TooManyLinks)
  {
    LoopingFollow(n, n);
    TopIsTop(0);
    FollowOn(LOOPING, [], ["top"], Heres(n), 0, n);
    LoopingFollow(n, LINK_LIMIT);
    assert (["top"] + Heres(n))[1..] == Heres(n);
    assert [] + ["top"] == ["top"];
  }
}
