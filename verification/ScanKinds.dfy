/** What the integrity scan records for a damaged file: the kind of event, from the message its check gives. */
module ScanKinds {
  import opened ByteStrings
  import opened Crypto
  import opened HashTrailer
  import opened StreamFormat
  import EncryptedFile
  import RefusedFiles
  import TreeWalk

  // The messages, word by word; `io` is the text of an I/O error.

  const INTERNAL := "internal error: "

  function HeaderMessage(io: string): string {
    INTERNAL + "STREAM verify: " + "truncated" + (" segment header: " + io)
  }

  function BodyMessage(io: string): string {
    INTERNAL + "STREAM verify: " + "truncated" + (" segment body: " + io)
  }

  const NEXT_MESSAGE: string := INTERNAL + "STREAM verify: " + "decrypt " + "segment " + "failed"
  const LAST_MESSAGE: string := INTERNAL + "STREAM verify: " + "decrypt " + "last " + "segment " + "failed"

  function ShortMessage(numbers: string): string {
    "Encrypted file " + "too small" + (" (" + numbers)
  }

  const MAGIC_MESSAGE: string := "Not a " + "single-" + "shot " + "encrypted " + "file " + "(bad " + "magic " + "bytes)"
  const CIPHER_MESSAGE: string :=
    "File " + "decryption " + "failed " + "\U{2014} " + "wrong " + "key " + "or " + "tampered " + "ciphertext"

  /** `s` is a status the check may report for a file: its message is the code's for the error found. */
  ghost predicate Reports(a: Aead, h: Hash, key: Option<Bytes>, file: Bytes, s: TreeWalk.Status) {
    match EncryptedFile.Status(a, h, key, file)
    case StatusOk => s.Sound?
    case StatusHashMismatch => s.FileHashMismatch?
    case StatusDecryptionFailed =>
      && s.DecryptionFailed? && key.Some?
      && if EncryptedFile.IsStreamFormat(file) then
           match Verified(a, h, key.value, file)
           case Err(TruncatedHeader) => exists io :: s.message == HeaderMessage(io)
           case Err(TruncatedBody) => exists io :: s.message == BodyMessage(io)
           case _ => s.message in {NEXT_MESSAGE, LAST_MESSAGE}
         else
           match EncryptedFile.SingleDecoded(a, h, key.value, file)
           case TooShort => exists numbers :: s.message == ShortMessage(numbers)
           case BadMagic => s.message == MAGIC_MESSAGE
           case _ => s.message == CIPHER_MESSAGE
  }

  /** The file is cut short: a segment runs past its end, or it is too small for its format. */
  predicate CutShort(a: Aead, h: Hash, key: Bytes, file: Bytes) {
    if EncryptedFile.IsStreamFormat(file) then Verified(a, h, key, file) in {Err(TruncatedHeader), Err(TruncatedBody)}
    else |file| < EncryptedFile.MIN_SINGLE_FILE_LEN
  }

  // Which messages hold the words looked for.

  lemma Holds(before: string, part: string, after: string)
    ensures TreeWalk.Contains(before + part + after, part)
  {
    var text := before + part + after;
    assert text[|before|..|before| + |part|] == part;
    if part != "" {
      assert text[|before|] == part[0];
    }
  }

  predicate Quiet(s: string) {
    'u' !in s && forall i :: 0 <= i < |s| - 1 ==> !(s[i] == 'o' && s[i + 1] == 'o')
  }

  /** A text without a `u` and without a double `o` holds neither word. */
  lemma QuietHoldsNeither(s: string)
    requires Quiet(s)
    ensures !TreeWalk.Contains(s, "truncated") && !TreeWalk.Contains(s, "too small")
  {
    forall i: nat | i + 9 <= |s| && s[i] == 't'
      ensures s[i..i + 9] != "truncated" && s[i..i + 9] != "too small"
    {
      NineHoldsNeither(s, i);
    }
  }

  lemma NineHoldsNeither(s: string, i: nat)
    requires Quiet(s) && i + 9 <= |s|
    ensures s[i..i + 9] != "truncated" && s[i..i + 9] != "too small"
  {
    var nine := s[i..i + 9];
    assert nine[2] == s[i + 2] && nine[1] == s[i + 1];
    assert "truncated"[2] == 'u' && "too small"[1] == 'o' && "too small"[2] == 'o';
    assert s[i + 1 + 1] == s[i + 2];
  }

  /** Quiet words make a quiet text, unless an `o` meets an `o`. */
  lemma QuietJoin(s: string, t: string)
    requires Quiet(s) && Quiet(t) && (s == "" || s[|s| - 1] != 'o')
    ensures Quiet(s + t)
  {
  }

  lemma StreamWords()
    ensures Quiet("internal error: ") && Quiet("STREAM verify: ") && Quiet("decrypt ") && Quiet("last ")
    ensures Quiet("segment ") && Quiet("failed")
  {
  }

  lemma NextIsQuiet()
    ensures Quiet(NEXT_MESSAGE)
  {
    StreamWords();
    var one := INTERNAL + "STREAM verify: ";
    QuietJoin(INTERNAL, "STREAM verify: ");
    QuietJoin(one, "decrypt ");
    QuietJoin(one + "decrypt ", "segment ");
    QuietJoin(one + "decrypt " + "segment ", "failed");
  }

  lemma LastIsQuiet()
    ensures Quiet(LAST_MESSAGE)
  {
    StreamWords();
    var one := INTERNAL + "STREAM verify: ";
    QuietJoin(INTERNAL, "STREAM verify: ");
    QuietJoin(one, "decrypt ");
    QuietJoin(one + "decrypt ", "last ");
    QuietJoin(one + "decrypt " + "last ", "segment ");
    QuietJoin(one + "decrypt " + "last " + "segment ", "failed");
  }

  lemma MagicIsQuiet()
    ensures Quiet(MAGIC_MESSAGE)
  {
    QuietJoin("Not a ", "single-");
    QuietJoin("Not a " + "single-", "shot ");
    QuietJoin("Not a " + "single-" + "shot ", "encrypted ");
    QuietJoin("Not a " + "single-" + "shot " + "encrypted ", "file ");
    QuietJoin("Not a " + "single-" + "shot " + "encrypted " + "file ", "(bad ");
    QuietJoin("Not a " + "single-" + "shot " + "encrypted " + "file " + "(bad ", "magic ");
    QuietJoin("Not a " + "single-" + "shot " + "encrypted " + "file " + "(bad " + "magic ", "bytes)");
  }

  lemma CipherIsQuiet()
    ensures Quiet(CIPHER_MESSAGE)
  {
    var half := "File " + "decryption " + "failed " + "\U{2014} ";
    QuietJoin("File ", "decryption ");
    QuietJoin("File " + "decryption ", "failed ");
    QuietJoin("File " + "decryption " + "failed ", "\U{2014} ");
    QuietJoin(half, "wrong ");
    QuietJoin(half + "wrong ", "key ");
    QuietJoin(half + "wrong " + "key ", "or ");
    QuietJoin(half + "wrong " + "key " + "or ", "tampered ");
    QuietJoin(half + "wrong " + "key " + "or " + "tampered ", "ciphertext");
  }

  // The kinds.

  /** A message is recorded as a truncation exactly when it holds one of the words. */
  lemma MessagesOfCuts(io: string)
    ensures TreeWalk.KindOf(TreeWalk.DecryptionFailed(HeaderMessage(io))) == Some("file_truncated")
    ensures TreeWalk.KindOf(TreeWalk.DecryptionFailed(BodyMessage(io))) == Some("file_truncated")
    ensures TreeWalk.KindOf(TreeWalk.DecryptionFailed(ShortMessage(io))) == Some("file_truncated")
  {
    Holds(INTERNAL + "STREAM verify: ", "truncated", " segment header: " + io);
    Holds(INTERNAL + "STREAM verify: ", "truncated", " segment body: " + io);
    Holds("Encrypted file ", "too small", " (" + io);
  }

  lemma OtherMessages(message: string)
    requires message in {NEXT_MESSAGE, LAST_MESSAGE, MAGIC_MESSAGE, CIPHER_MESSAGE}
    ensures TreeWalk.KindOf(TreeWalk.DecryptionFailed(message)) == Some("decrypt_failed")
  {
    NextIsQuiet();
    LastIsQuiet();
    MagicIsQuiet();
    CipherIsQuiet();
    QuietHoldsNeither(message);
  }

  /**
    What a scan records for a file: nothing when it is sound; a checksum mismatch exactly when it does not end in its own
    digest; a truncation exactly when it does, but is cut short for its format; a failed decryption when it is neither.
   */
  lemma KindsMean(a: Aead, h: Hash, key: Option<Bytes>, file: Bytes, s: TreeWalk.Status)
    requires LawfulHash(h) && Reports(a, h, key, file, s)
    ensures var kind := TreeWalk.KindOf(s);
      var trailed := EncryptedFile.IsTrailed(h, file);
      && (kind == Some("checksum_mismatch") <==> !trailed)
      && (kind == None <==> trailed && (key.Some? ==> EncryptedFile.OpensUnder(a, h, key.value, file)))
      && (kind == Some("file_truncated") <==> trailed && key.Some? && CutShort(a, h, key.value, file))
      && (kind == Some("decrypt_failed") <==>
           trailed && key.Some? && !EncryptedFile.OpensUnder(a, h, key.value, file) && !CutShort(a, h, key.value, file))
  {
    EncryptedFile.StatusesMean(a, h, key, file);
    if s.DecryptionFailed? {
      KindOfMessage(a, h, key.value, file, s);
    }
  }

  lemma KindOfMessage(a: Aead, h: Hash, key: Bytes, file: Bytes, s: TreeWalk.Status)
    requires Reports(a, h, Some(key), file, s) && s.DecryptionFailed?
    ensures TreeWalk.KindOf(s) == Some(if CutShort(a, h, key, file) then "file_truncated" else "decrypt_failed")
  {
    forall io: string ensures s.message in {HeaderMessage(io), BodyMessage(io), ShortMessage(io)} ==>
        TreeWalk.KindOf(s) == Some("file_truncated") {
      MessagesOfCuts(io);
    }
    if s.message in {NEXT_MESSAGE, LAST_MESSAGE, MAGIC_MESSAGE, CIPHER_MESSAGE} {
      OtherMessages(s.message);
    }
  }

  /**
    What cut short comes to in the bytes of the file: for a chunked file, segments that open but for the last, and behind
    them less than a length or less than the length says; for any other, fewer than 63 bytes.
   */
  lemma CutShortMeans(a: Aead, h: Hash, key: Bytes, file: Bytes)
    requires LawfulHash(h) && EncryptedFile.IsTrailed(h, file)
    ensures CutShort(a, h, key, file) <==>
      if file[..3] == [0x49, 0x44, 0x02] then
        exists segs, why :: RefusedFiles.FallsInto(file, |file|, segs, why) && !why.AtEnd? && RefusedFiles.EarlierOpen(a, key, file[3..10], segs)
      else |file| < 63
  {
    IntactIffTrailed(h, file);
    RefusedFiles.VerifierErrors(a, h, key, file, TruncatedHeader);
    RefusedFiles.VerifierErrors(a, h, key, file, TruncatedBody);
    if segs, why :| |file| >= 10 && RefusedFiles.FallsInto(file, |file|, segs, why) && !why.AtEnd? && RefusedFiles.EarlierOpen(a, key, file[3..10], segs) {
      assert RefusedFiles.Fails(a, key, file, segs, why, if why.CutInHeader? then TruncatedHeader else TruncatedBody);
    }
  }
}
