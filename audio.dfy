/** utils/audio.py, `get_file_extension`: the suffix given to the temporary
    copy of an uploaded recording, taken from the file name when it has an
    extension, else from the MIME type, else ".tmp". */
module Audio {
  import opened Wrappers
  import opened Text

  /** What is read of an uploaded file: its name and its MIME type, each
      None when the attribute is missing or None. */
  datatype UploadedFile = UploadedFile(name: Option<string>, mimeType: Option<string>)

  /** Python's `s.rfind(c)`: the last position of `c`, or -1. */
  function LastIndexOf(s: string, c: char): (i: int)
    ensures -1 <= i < |s|
    ensures i >= 0 ==> s[i] == c
    ensures forall j :: i < j < |s| ==> s[j] != c
  {
    if s == [] then -1
    else if s[|s| - 1] == c then |s| - 1
    else LastIndexOf(s[..|s| - 1], c)
  }

  /** `os.path.splitext` with the POSIX separator: the extension starts at
      the last dot of the last path component, provided that component has
      a character other than a dot before it; otherwise it is empty. */
  function SplitExt(p: string): (string, string)
  {
    var sepIndex := LastIndexOf(p, '/');
    var dotIndex := LastIndexOf(p, '.');
    if dotIndex > sepIndex && exists k :: sepIndex + 1 <= k < dotIndex && p[k] != '.'
    then (p[..dotIndex], p[dotIndex..])
    else (p, "")
  }

  /** A well-formed extension: a dot followed by characters that are neither
      dots nor path separators. */
  predicate IsExtension(ext: string)
  {
    |ext| > 0 && ext[0] == '.' && forall k :: 1 <= k < |ext| ==> ext[k] != '.' && ext[k] != '/'
  }

  /** A path whose last component has a character other than a dot, so that
      a dot appended to it starts an extension. */
  predicate HasStem(root: string)
  {
    exists k :: LastIndexOf(root, '/') < k < |root| && root[k] != '.'
  }

  /** `splitext` splits a path into its root and its extension, which is
      either empty or a well-formed extension. */
  lemma SplitExtParts(p: string)
    ensures SplitExt(p).0 + SplitExt(p).1 == p
    ensures SplitExt(p).1 == "" || IsExtension(SplitExt(p).1)
    ensures SplitExt(p).1 != "" ==> HasStem(SplitExt(p).0)
  {
    var sepIndex := LastIndexOf(p, '/');
    var dotIndex := LastIndexOf(p, '.');
    if SplitExt(p).1 != "" {
      var root := p[..dotIndex];
      assert p == root + p[dotIndex..];
      var k :| sepIndex + 1 <= k < dotIndex && p[k] != '.';
      LastIndexOfPrefix(p, dotIndex, '/');
      assert root[k] != '.';
    }
  }

  /** The last `c` of a prefix that still contains the last `c` of the whole. */
  lemma {:induction false} LastIndexOfPrefix(p: string, n: nat, c: char)
    requires LastIndexOf(p, c) < n <= |p|
    ensures LastIndexOf(p[..n], c) == LastIndexOf(p, c)
  {
    if n < |p| {
      assert p[..|p| - 1][..n] == p[..n];
      LastIndexOfPrefix(p[..|p| - 1], n, c);
    }
  }

  /** Appending text without `c` does not move the last `c`. */
  lemma {:induction false} LastIndexOfAppend(a: string, b: string, c: char)
    requires forall k :: 0 <= k < |b| ==> b[k] != c
    ensures LastIndexOf(a + b, c) == LastIndexOf(a, c)
  {
    if b != [] {
      assert (a + b)[..|a + b| - 1] == a + b[..|b| - 1];
      LastIndexOfAppend(a, b[..|b| - 1], c);
    } else {
      assert a + b == a;
    }
  }

  /** The other direction: a root with a stem followed by a well-formed
      extension splits back into exactly those two parts. */
  lemma SplitExtOfJoin(root: string, ext: string)
    requires HasStem(root) && IsExtension(ext)
    ensures SplitExt(root + ext) == (root, ext)
  {
    var p := root + ext;
    LastIndexOfAppend(root + [ext[0]], ext[1..], '/');
    LastIndexOfAppend(root + [ext[0]], ext[1..], '.');
    assert root + [ext[0]] + ext[1..] == p;
    LastIndexOfAppend(root, [ext[0]], '/');
    var sepIndex := LastIndexOf(root, '/');
    assert LastIndexOf(p, '/') == sepIndex;
    assert LastIndexOf(p, '.') == |root|;
    var k :| sepIndex < k < |root| && root[k] != '.';
    assert p[k] != '.';
    assert p[..|root|] == root && p[|root|..] == ext;
  }

  /** A name whose only dot is its first character, such as ".ogg", has no
      extension. */
  lemma HiddenNameHasNoExtension(stem: string)
    requires forall k :: 0 <= k < |stem| ==> stem[k] != '.' && stem[k] != '/'
    ensures SplitExt("." + stem) == ("." + stem, "")
  {
    LastIndexOfAppend(".", stem, '.');
    LastIndexOfAppend(".", stem, '/');
  }

  /** A name without any dot has no extension. */
  lemma DotlessNameHasNoExtension(name: string)
    requires forall k :: 0 <= k < |name| ==> name[k] != '.'
    ensures SplitExt(name) == (name, "")
  {
  }

  /** The MIME types the upload widget may report, and the suffix each gets. */
  const MimeExtensions: map<string, string> :=
    map["audio/wav" := ".wav", "audio/x-wav" := ".wav", "audio/mpeg" := ".mp3",
        "audio/mp4" := ".m4a", "audio/x-m4a" := ".m4a", "audio/ogg" := ".ogg",
        "application/octet-stream" := ".m4a"]

  const DefaultExtension: string := ".tmp"

  /** The fallback after the name: the table entry for a known MIME type,
      else ".tmp". */
  function MimeExtension(mimeType: Option<string>): (ext: string)
    ensures IsExtension(ext)
    ensures mimeType.Some? && mimeType.value in MimeExtensions ==> ext == MimeExtensions[mimeType.value]
    ensures mimeType.None? || mimeType.value !in MimeExtensions ==> ext == DefaultExtension
  {
    if mimeType.Some? && mimeType.value in MimeExtensions then MimeExtensions[mimeType.value]
    else DefaultExtension
  }

  /** The extension of the file name, when the name is set and has one. */
  function NameExtension(name: Option<string>): (ext: string)
    ensures ext == "" || IsExtension(ext)
    ensures ext != "" ==> name.Some? && |ext| < |name.value| && name.value[|name.value| - |ext|..] == ext
  {
    if name.Some? && name.value != "" then
      SplitExtParts(name.value);
      SplitExt(name.value).1
    else ""
  }

  /** `get_file_extension`. The result is always a non-empty string that
      begins with a dot. */
  function GetFileExtension(f: UploadedFile): (ext: string)
    ensures IsExtension(ext)
  {
    if NameExtension(f.name) != "" then
      SplitExtParts(f.name.value);
      Lower(NameExtension(f.name))
    else MimeExtension(f.mimeType)
  }

  /** A name with an extension decides the result, whatever the MIME type:
      it is that extension lower-cased. */
  lemma NameExtensionWins(name: string, mimeType: Option<string>)
    requires SplitExt(name).1 != ""
    ensures GetFileExtension(UploadedFile(Some(name), mimeType)) == Lower(SplitExt(name).1)
  {
    assert name != "";
  }

  /** The lower-cased extension is how the lower-cased name ends. */
  lemma NameExtensionIsSuffix(name: string)
    ensures var ext := Lower(SplitExt(name).1);
      |ext| <= |name| && Lower(name)[|name| - |ext|..] == ext
  {
    SplitExtParts(name);
    var (root, e) := SplitExt(name);
    LowerSuffix(root, e);
  }

  /** Without an extension in the name, the MIME type decides. */
  lemma MimeTypeDecidesWithoutNameExtension(name: Option<string>, mimeType: Option<string>)
    requires name.None? || SplitExt(name.value).1 == ""
    ensures GetFileExtension(UploadedFile(name, mimeType)) == MimeExtension(mimeType)
  {
  }

  /** Examples from the table: WAV, M4A under two MIME types, and the
      default for an unknown type. */
  lemma MimeExamples()
    ensures GetFileExtension(UploadedFile(None, Some("audio/x-wav"))) == ".wav"
    ensures GetFileExtension(UploadedFile(Some("recording"), Some("audio/x-m4a"))) == ".m4a"
    ensures GetFileExtension(UploadedFile(Some(""), Some("application/octet-stream"))) == ".m4a"
  {
    DotlessNameHasNoExtension("recording");
  }

  /** An unknown or missing MIME type, with no extension in the name, gives
      ".tmp". */
  lemma DefaultExamples()
    ensures GetFileExtension(UploadedFile(Some("voice"), Some("video/webm"))) == ".tmp"
    ensures GetFileExtension(UploadedFile(Some("voice"), None)) == ".tmp"
  {
    DotlessNameHasNoExtension("voice");
  }

  /** "Call.WAV" keeps its own extension, lower-cased, over the MIME type. */
  lemma NameExample()
    ensures GetFileExtension(UploadedFile(Some("Call.WAV"), Some("audio/mpeg"))) == ".wav"
  {
    SplitExtOfJoin("Call", ".WAV");
    assert "Call" + ".WAV" == "Call.WAV";
    assert Lower(".WAV") == ".wav";
  }

  /** ".ogg" is a hidden file name, not an extension: the MIME type decides. */
  lemma HiddenNameExample()
    ensures GetFileExtension(UploadedFile(Some(".ogg"), Some("audio/x-wav"))) == ".wav"
  {
    HiddenNameHasNoExtension("ogg");
    assert "." + "ogg" == ".ogg";
  }
}
