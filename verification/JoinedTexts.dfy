/** Which texts `safe_join` takes: the exact set under an empty root, and new names under what exists. */
module JoinedTexts {
  import opened ByteStrings
  import opened FileSystem
  import opened SafeJoin

  // Names.

  /** The ASCII control characters. */
  predicate Control(c: char) {
    (c as int) < 0x20 || (c as int) == 0x7F
  }

  /** Names a path may be made of. */
  predicate PlainName(name: string) {
    && 1 <= |name| && Utf8Length(name) <= 255
    && (forall i :: 0 <= i < |name| ==> !Control(name[i]))
    && name[0] != '.' && !IsWhitespace(name[0]) && !IsWhitespace(name[|name| - 1])
  }

  lemma ComponentsArePlainNames(name: string)
    ensures ValidComponent(name) <==> PlainName(name)
  {
  }

  /** What is refused, wherever it stands in a name. */
  lemma RefusedNames(before: string, c: char, after: string)
    ensures !ValidComponent("." + after)
    ensures Control(c) ==> !ValidComponent(before + [c] + after)
    ensures IsWhitespace(c) ==> !ValidComponent([c] + after) && !ValidComponent(before + [c])
    ensures |before| > 255 ==> !ValidComponent(before)
    ensures !ValidComponent("")
  {
    var name := before + [c] + after;
    assert name[|before|] == c;
    assert ("." + after)[0] == '.' && ([c] + after)[0] == c && (before + [c])[|before|] == c;
  }

  lemma {:induction false} AsciiLength(name: string)
    requires forall i :: 0 <= i < |name| ==> name[i] < '\U{80}'
    ensures Utf8Length(name) == |name|
  {
    if name != "" {
      AsciiLength(name[1..]);
    }
  }

  /** Every name of at most 255 visible ASCII characters and inner spaces that does not begin with a dot is taken. */
  lemma AsciiNamesAreTaken(name: string)
    requires 1 <= |name| <= 255 && forall i :: 0 <= i < |name| ==> ' ' <= name[i] <= '~'
    requires name[0] != '.' && name[0] != ' ' && name[|name| - 1] != ' '
    ensures ValidComponent(name)
  {
    AsciiLength(name);
  }

  // Texts.

  /** At most 4096 bytes and 128 names, no colon, and every name between the separators plain. */
  predicate PlainText(text: string) {
    && text != "" && Utf8Length(text) <= 4096 && ':' !in text
    && |Split(text)| <= 128 && forall i :: 0 <= i < |Split(text)| ==> PlainName(Split(text)[i])
  }

  lemma ValidTextsArePlain(text: string)
    ensures ValidText(text) <==> PlainText(text)
  {
    forall i | 0 <= i < |Split(text)| ensures ValidComponent(Split(text)[i]) <==> PlainName(Split(text)[i]) {
      ComponentsArePlainNames(Split(text)[i]);
    }
    assert text != "" && IsSeparator(text[0]) ==> Split(text)[0] == "" && !PlainName("");
  }

  /** The root is a directory with nothing in it. */
  ghost predicate EmptyRoot(t: Tree, root: Path, top: Path) {
    && Canonicalize(t, root) == Ok(top) && Canonical(t, top) && t[top].Directory?
    && forall name {:trigger top + [name]} :: top + [name] !in t
  }

  /** Under an empty root exactly the plain texts are joined, each to its names below the root. */
  lemma EmptyRootJoinsPlainTexts(t: Tree, root: Path, top: Path, text: string)
    requires WellFormed(t) && EmptyRoot(t, root, top)
    ensures Joined(t, root, text) == if PlainText(text) then Ok(top + Split(text)) else Err(Validation)
  {
    ValidTextsArePlain(text);
    if PlainText(text) {
      LstatOfChild(t, top, Split(text)[0]);
    }
  }

  /** Below what exists, inside the root, new names are taken: the walk ends in a directory that lacks the next one. */
  lemma {:induction false} NewNamesAreTaken(t: Tree, top: Path, at: Path, found: Path, rest: Path)
    requires WellFormed(t) && Canonical(t, at) && EveryPrefixInside(t, top, at, found) && rest != []
    requires forall i :: 0 <= i < |found| ==> EntryName(found[i])
    requires var p := Follow(t, at, found, LINK_LIMIT); p.Ok? && p.value in t && t[p.value].Directory? && p.value + [rest[0]] !in t
    ensures Walk(t, top, at, found + rest) == Ok(Follow(t, at, found, LINK_LIMIT).value + rest)
    decreases |found|
  {
    assert ResolvesInside(t, top, at, found[..0]) && found[..0] == [];
    if found == [] {
      assert found + rest == rest;
      LstatOfChild(t, at, rest[0]);
    } else {
      assert ResolvesInside(t, top, at, found[..1]) && found[..1] == [found[0]];
      FirstInside(t, top, at, found[0]);
      var next := Canonicalize(t, at + [found[0]]).value;
      forall j | 0 <= j <= |found[1..]| ensures ResolvesInside(t, top, next, found[1..][..j]) {
        assert ResolvesInside(t, top, at, found[..1 + j]);
        AfterFirst(t, top, at, found, next, j);
      }
      assert ResolvesInside(t, top, at, found[..|found|]);
      AfterFirst(t, top, at, found, next, |found| - 1);
      assert found[1..][..|found| - 1] == found[1..] && found[..|found|] == found;
      assert (found + rest)[1..] == found[1..] + rest;
      NewNamesAreTaken(t, top, next, found[1..], rest);
    }
  }

  /** A path through a file, to a link that leads nowhere, or out of the root is refused. */
  lemma WhatIsRefused(t: Tree, top: Path, at: Path, name: string, rest: Path)
    requires WellFormed(t) && Canonical(t, at)
    ensures t[at].File? ==> Walk(t, top, at, [name] + rest) == Err(Validation)
    ensures at + [name] in t && t[at].Directory? && Canonicalize(t, at + [name]).Err? ==> Walk(t, top, at, [name] + rest) == Err(Validation)
    ensures at + [name] in t && t[at].Directory? && Canonicalize(t, at + [name]).Ok? && !(top <= Canonicalize(t, at + [name]).value) ==>
      Walk(t, top, at, [name] + rest) == Err(Validation)
  {
    LstatOfChild(t, at, name);
    assert ([name] + rest)[0] == name;
  }
}
