/** Upload validation: a file is accepted when its size is within the limit, its MIME type is
    allowed and its extension is allowed, checked in that order; the first failing check
    gives the error message. */
module Validator {
  import opened Wrappers
  import opened Text

  // FILE_LIMITS, entry by entry.
  const MaxSize: nat := 50 * 1024 * 1024
  const AllowedMimeTypes: seq<string> := ["text/plain", "application/pdf", "image/jpeg", "image/png", "image/tiff"]
  const AllowedExtensions: seq<string> := [".txt", ".pdf", ".jpg", ".jpeg", ".png", ".tiff"]

  /** {valid, error} as returned by validate_file. */
  datatype Validation = Validation(valid: bool, error: Option<string>)

  const TooLargeMessage := "Fichier trop volumineux (max " + NatToString(MaxSize / (1024 * 1024)) + " MB)"

  function MimeMessage(mimeType: string): string {
    "Type de fichier non supporté: " + mimeType
  }

  function ExtensionMessage(extension: string): string {
    "Extension non supportée: ." + extension
  }

  /** file_path.lower().split('.')[-1] if '.' in file_path else ''. */
  function Extension(filePath: string, lower: string -> string): string {
    if '.' in filePath then
      var pieces := SplitOn(lower(filePath), ".");
      pieces[|pieces| - 1]
    else ""
  }

  /** validate_file. */
  function ValidateFile(filePath: string, fileSize: int, mimeType: string, lower: string -> string): (r: Validation)
    ensures r.valid <==> r.error == None
  {
    if fileSize > MaxSize then Validation(false, Some(TooLargeMessage))
    else if mimeType !in AllowedMimeTypes then Validation(false, Some(MimeMessage(mimeType)))
    else
      var extension := Extension(filePath, lower);
      if "." + extension !in AllowedExtensions then Validation(false, Some(ExtensionMessage(extension)))
      else Validation(true, None)
  }

  // ---------------------------------------------------------------- the extension

  /** The last piece of a split on one character: it holds no such character, it ends `s`,
      and it is preceded by the character exactly when `s` contains it. */
  lemma {:induction false} LastPiece(s: string, c: char)
    ensures var pieces := SplitOn(s, [c]); c !in pieces[|pieces| - 1]
    ensures var pieces := SplitOn(s, [c]); |pieces[|pieces| - 1]| <= |s|
    ensures var pieces := SplitOn(s, [c]); var ext := pieces[|pieces| - 1];
      s[|s| - |ext|..] == ext
    ensures var pieces := SplitOn(s, [c]); c in s <==> |pieces[|pieces| - 1]| < |s|
    ensures c in s <==> |SplitOn(s, [c])| >= 2
    ensures var pieces := SplitOn(s, [c]); var ext := pieces[|pieces| - 1];
      |ext| < |s| ==> s[|s| - |ext| - 1] == c
    decreases |s|
  {
    if |s| >= 1 {
      var t := SplitOn(s[1..], [c]);
      LastPiece(s[1..], c);
      var ext := t[|t| - 1];
      assert s == [s[0]] + s[1..];
      if [c] <= s {
        assert SplitOn(s, [c]) == [""] + t;
        assert s[|s| - |ext|..] == s[1..][|s| - 1 - |ext|..];
      } else {
        assert s[0] != c;
        var r := [[s[0]] + t[0]] + t[1..];
        assert SplitOn(s, [c]) == r;
        if |t| == 1 {
          JoinSplitOn(s[1..], [c]);
          assert t[0] == s[1..];
          assert r == [s];
          assert c !in s[1..];
        } else {
          assert r[|r| - 1] == ext;
          assert s[|s| - |ext|..] == s[1..][|s| - 1 - |ext|..];
        }
      }
    }
  }

  /** The extension is empty when the path has no dot; otherwise it holds no dot, ends the
      lower-cased path, and is preceded by a dot exactly when the lower-cased path has one. */
  lemma ExtensionSpec(filePath: string, lower: string -> string)
    ensures '.' !in filePath ==> Extension(filePath, lower) == ""
    ensures '.' in filePath ==>
      var s := lower(filePath); var ext := Extension(filePath, lower);
      '.' !in ext && |ext| <= |s| && s[|s| - |ext|..] == ext &&
      ('.' in s <==> |ext| < |s|) &&
      (|ext| < |s| ==> s[|s| - |ext| - 1] == '.')
  {
    LastPiece(lower(filePath), '.');
  }

  /** No dot in a dot-free tail of `s`. */
  lemma DotFreeTail(s: string, x: string)
    requires |x| <= |s| && s[|s| - |x|..] == x && '.' !in x
    ensures forall k :: |s| - |x| <= k < |s| ==> s[k] != '.'
  {
    assert forall k :: |s| - |x| <= k < |s| ==> s[k] == x[k - (|s| - |x|)];
  }

  /** A name ending in "." followed by a dot-free `e`, left unchanged by lower-casing, has
      the extension `e`: the text after the last dot. */
  lemma ExtensionOfName(base: string, e: string, lower: string -> string)
    requires '.' !in e && lower(base + "." + e) == base + "." + e
    ensures Extension(base + "." + e, lower) == e
  {
    var s := base + "." + e;
    assert s[|s| - |e| - 1] == '.';
    ExtensionSpec(s, lower);
    var ext := Extension(s, lower);
    assert s[|s| - |e|..] == e;
    DotFreeTail(s, ext);
    DotFreeTail(s, e);
    assert |ext| <= |e|;
    assert |ext| >= |e|;
    assert ext == s[|s| - |e|..] == e;
  }

  // ---------------------------------------------------------------- validation

  /** A file is valid exactly when all three checks pass, and the error then is None. */
  lemma ValidateFileValid(filePath: string, fileSize: int, mimeType: string, lower: string -> string)
    ensures ValidateFile(filePath, fileSize, mimeType, lower).valid <==>
      fileSize <= 50 * 1024 * 1024 &&
      mimeType in AllowedMimeTypes &&
      "." + Extension(filePath, lower) in AllowedExtensions
  {
  }

  /** The size is checked first: a file over 50 MiB is refused as too large, whatever its
      type and name. */
  lemma ValidateFileTooLarge(filePath: string, fileSize: int, mimeType: string, lower: string -> string)
    requires fileSize > 50 * 1024 * 1024
    ensures ValidateFile(filePath, fileSize, mimeType, lower).error == Some(TooLargeMessage)
    ensures Contains(TooLargeMessage, "trop volumineux")
    ensures TooLargeMessage == "Fichier trop volumineux (max 50 MB)"
  {
    TooLargeMessageText();
  }

  /** The limit is written as 50 MB, and the message says the file is too large. */
  lemma TooLargeMessageText()
    ensures TooLargeMessage == "Fichier trop volumineux (max 50 MB)"
    ensures Contains(TooLargeMessage, "trop volumineux")
  {
    var n := MaxSize / (1024 * 1024);
    assert n == 50;
    assert NatToString(n) == "50" by {
      assert NatToString(5) == "5";
    }
    assert TooLargeMessage == "Fichier " + "trop volumineux" + " (max 50 MB)";
    ContainsInside("Fichier ", "trop volumineux", " (max 50 MB)");
  }

  /** Within the size limit the MIME type is checked next, before the extension. */
  lemma ValidateFileMime(filePath: string, fileSize: int, mimeType: string, lower: string -> string)
    requires fileSize <= 50 * 1024 * 1024 && mimeType !in AllowedMimeTypes
    ensures ValidateFile(filePath, fileSize, mimeType, lower).error == Some(MimeMessage(mimeType))
    ensures Contains(MimeMessage(mimeType), "non supporté")
  {
    assert MimeMessage(mimeType) == "Type de fichier " + "non supporté" + (": " + mimeType);
    ContainsInside("Type de fichier ", "non supporté", ": " + mimeType);
  }

  /** With an acceptable size and type, a refused extension is reported with its text. */
  lemma ValidateFileExtension(filePath: string, fileSize: int, mimeType: string, lower: string -> string)
    requires fileSize <= 50 * 1024 * 1024 && mimeType in AllowedMimeTypes
    requires "." + Extension(filePath, lower) !in AllowedExtensions
    ensures ValidateFile(filePath, fileSize, mimeType, lower).error ==
      Some(ExtensionMessage(Extension(filePath, lower)))
    ensures Contains(ExtensionMessage(Extension(filePath, lower)), "Extension non supportée")
  {
    assert "Extension non supportée" <= ExtensionMessage(Extension(filePath, lower));
  }

  /** "file.exe" sent as application/octet-stream is refused by the MIME check, so its
      message is the MIME one and not the extension one. */
  lemma ValidateFileMimeFirstExample(lower: string -> string)
    ensures ValidateFile("file.exe", 1024, "application/octet-stream", lower).error ==
      Some(MimeMessage("application/octet-stream"))
  {
    assert forall k :: 0 <= k < |AllowedMimeTypes| ==> |AllowedMimeTypes[k]| < 24;
  }
}
