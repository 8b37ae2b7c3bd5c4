/** The upload configuration: where an uploaded image is written, the name it
    is written under, and the filter that decides whether it is accepted. */
module Upload {
  import opened Common
  import opened Strings

  /** What the upload library reports about an incoming file. */
  datatype FileInfo = FileInfo(fieldname: string, originalname: string, mimetype: string)

  // ---------------------------------------------------------------------------
  // `path.extname` (POSIX): the part of the last path segment from its last
  // '.' on. Trailing '/' are ignored; a segment without a '.', one whose only
  // '.' is its first character, and the segment ".." have no extension.

  /** Length of `p` once its trailing '/' are dropped. */
  function SegmentEnd(p: string): (e: nat)
    ensures e <= |p|
    ensures forall k :: e <= k < |p| ==> p[k] == '/'
    ensures e == 0 || p[e - 1] != '/'
  {
    if |p| > 0 && p[|p| - 1] == '/' then SegmentEnd(p[..|p| - 1]) else |p|
  }

  /** Index just past the last '/' before position `e`, or 0. */
  function SegmentStart(p: string, e: nat): (st: nat)
    requires e <= |p|
    ensures st <= e
    ensures forall k :: st <= k < e ==> p[k] != '/'
    ensures st == 0 || p[st - 1] == '/'
  {
    if e == 0 then 0 else if p[e - 1] == '/' then e else SegmentStart(p, e - 1)
  }

  /** Index of the last '.' in `b`, or -1. */
  function LastDot(b: string): (d: int)
    ensures -1 <= d < |b|
    ensures d >= 0 ==> b[d] == '.'
    ensures forall k :: d < k < |b| ==> b[k] != '.'
  {
    if b == [] then -1
    else if b[|b| - 1] == '.' then |b| - 1
    else LastDot(b[..|b| - 1])
  }

  /** The extension of one path segment: empty, or a suffix of the segment
      that starts with its only '.'. */
  function SegmentExt(b: string): (ext: string)
    ensures |ext| <= |b| && ext == b[|b| - |ext|..]
    ensures ext == [] || (ext[0] == '.' && forall k :: 0 < k < |ext| ==> ext[k] != '.')
    ensures ext != [] <==> LastDot(b) > 0 && b != ".."
    ensures ext != [] ==> |ext| == |b| - LastDot(b)
  {
    var d := LastDot(b);
    if d <= 0 || b == ".." then "" else b[d..]
  }

  /** `path.extname(p)`: the tail of the last segment of `p` (trailing '/'
      dropped) from its last '.' on. It is empty exactly when that segment has
      no '.' after its first character, or is "..". */
  function ExtName(p: string): (ext: string)
    ensures ext == [] || ext[0] == '.'
    ensures forall k :: 0 <= k < |ext| ==> ext[k] != '/' && (k > 0 ==> ext[k] != '.')
    ensures |ext| <= SegmentEnd(p) && ext == p[SegmentEnd(p) - |ext|..SegmentEnd(p)]
    ensures var e := SegmentEnd(p); var b := p[SegmentStart(p, e)..e];
      && (ext != [] <==> LastDot(b) > 0 && b != "..")
      && (ext != [] ==> ext == b[LastDot(b)..])
  {
    var e := SegmentEnd(p);
    var st := SegmentStart(p, e);
    var ext := SegmentExt(p[st..e]);
    assert forall k :: 0 <= k < |ext| ==> ext[k] == p[e - |ext| + k];
    ext
  }

  /** Only the last '.' starts the extension, even right after another '.'. */
  lemma ExtNameLastDotExamples()
    ensures ExtName("a.b.c") == ".c"
    ensures ExtName("..c") == ".c"
    ensures ExtName("...") == "."
  {
    assert SegmentEnd("a.b.c") == 5 && SegmentStart("a.b.c", 5) == 0 && LastDot("a.b.c") == 3;
    assert SegmentEnd("..c") == 3 && SegmentStart("..c", 3) == 0 && LastDot("..c") == 1;
    assert SegmentEnd("...") == 3 && SegmentStart("...", 3) == 0 && LastDot("...") == 2;
  }

  /** A '.' that begins the last segment does not start an extension, and ".."
      has none. */
  lemma ExtNameLeadingDotExamples()
    ensures ExtName("..") == ""
    ensures ExtName(".x") == ""
    ensures ExtName("a/.b") == ""
  {
    assert SegmentEnd("..") == 2 && SegmentStart("..", 2) == 0;
    assert SegmentEnd(".x") == 2 && SegmentStart(".x", 2) == 0 && LastDot(".x") == 0;
    assert SegmentEnd("a/.b") == 4 && SegmentStart("a/.b", 4) == 2 && LastDot(".b") == 0;
  }

  /** Trailing '/' are ignored, and a segment ending in '.' has the extension ".". */
  lemma ExtNameTrailingExamples()
    ensures ExtName("x.//") == "."
    ensures ExtName("a.") == "."
  {
    assert SegmentEnd("x.//") == 2 && SegmentStart("x.//", 2) == 0 && LastDot("x.") == 1;
    assert SegmentEnd("a.") == 2 && SegmentStart("a.", 2) == 0 && LastDot("a.") == 1;
  }

  lemma LowerCharMarks(c: char)
    ensures LowerChar(c) == '/' <==> c == '/'
    ensures LowerChar(c) == '.' <==> c == '.'
  {
  }

  lemma {:induction false} SegmentEndLower(p: string)
    ensures SegmentEnd(ToLower(p)) == SegmentEnd(p)
    decreases |p|
  {
    if |p| > 0 {
      LowerCharMarks(p[|p| - 1]);
      assert ToLower(p)[..|p| - 1] == ToLower(p[..|p| - 1]);
      SegmentEndLower(p[..|p| - 1]);
    }
  }

  lemma {:induction false} SegmentStartLower(p: string, e: nat)
    requires e <= |p|
    ensures SegmentStart(ToLower(p), e) == SegmentStart(p, e)
    decreases e
  {
    if e > 0 {
      LowerCharMarks(p[e - 1]);
      SegmentStartLower(p, e - 1);
    }
  }

  lemma {:induction false} LastDotLower(b: string)
    ensures LastDot(ToLower(b)) == LastDot(b)
    decreases |b|
  {
    if b != [] {
      LowerCharMarks(b[|b| - 1]);
      assert ToLower(b)[..|b| - 1] == ToLower(b[..|b| - 1]);
      LastDotLower(b[..|b| - 1]);
    }
  }

  lemma SegmentExtLower(b: string)
    ensures SegmentExt(ToLower(b)) == ToLower(SegmentExt(b))
  {
    LastDotLower(b);
    if ToLower(b) == ".." {
      LowerCharMarks(b[0]);
      LowerCharMarks(b[1]);
      assert b == "..";
    }
    var d := LastDot(b);
    if d > 0 && b != ".." {
      assert ToLower(b)[d..] == ToLower(b[d..]);
    }
  }

  /** Lower-casing a path and taking its extension is the same as taking the
      extension and lower-casing it: '/' and '.' are not letters. */
  lemma {:induction false} ExtNameLower(p: string)
    ensures ExtName(ToLower(p)) == ToLower(ExtName(p))
  {
    SegmentEndLower(p);
    var e := SegmentEnd(p);
    SegmentStartLower(p, e);
    var st := SegmentStart(p, e);
    assert ToLower(p)[st..e] == ToLower(p[st..e]);
    SegmentExtLower(p[st..e]);
  }

  // ---------------------------------------------------------------------------
  // checkFileType

  /** The alternatives of the regular expression `/jpeg|jpg|png|gif/`. */
  const FileTypes: seq<string> := ["jpeg", "jpg", "png", "gif"]

  /** `/jpeg|jpg|png|gif/.test(s)`: the expression is not anchored, so it holds
      when any alternative occurs anywhere in `s`. */
  predicate FileTypesTest(s: string) {
    exists k :: 0 <= k < |FileTypes| && IsSubstring(FileTypes[k], s)
  }

  /** The extension test runs on the lower-cased extension of the original name. */
  predicate ExtensionAllowed(originalname: string) {
    FileTypesTest(ToLower(ExtName(originalname)))
  }

  /** The MIME test runs on the MIME type as sent. */
  predicate MimeAllowed(mimetype: string) {
    FileTypesTest(mimetype)
  }

  /** The arguments `checkFileType` passes to the library's callback:
      `cb(null, true)` or `cb(error)`. */
  datatype Callback = Callback(error: Option<string>, accept: Option<bool>)

  const ImagesOnly: string := "Error: Images Only!"

  /** A file is accepted exactly when both tests pass; otherwise the callback
      gets the error message and no acceptance flag, so never `true`. */
  function CheckFileType(file: FileInfo): (cb: Callback)
    ensures cb.accept == Some(true) <==> MimeAllowed(file.mimetype) && ExtensionAllowed(file.originalname)
    ensures cb.accept == Some(true) ==> cb.error.None?
    ensures cb.accept != Some(true) ==> cb.error == Some(ImagesOnly) && cb.accept.None?
  {
    if MimeAllowed(file.mimetype) && ExtensionAllowed(file.originalname) then Callback(None, Some(true))
    else Callback(Some(ImagesOnly), None)
  }

  /** Names that differ only in the case of their letters pass or fail the
      extension test together. */
  lemma ExtensionTestIgnoresCase(a: string, b: string)
    requires ToLower(a) == ToLower(b)
    ensures ExtensionAllowed(a) == ExtensionAllowed(b)
  {
    ExtNameLower(a);
    ExtNameLower(b);
  }

  /** The MIME test is case-sensitive. */
  lemma MimeTestIsCaseSensitive()
    ensures MimeAllowed("image/png")
    ensures !MimeAllowed("IMAGE/PNG")
  {
    assert OccursAt("png", "image/png", 6);
    assert IsSubstring(FileTypes[2], "image/png");
    forall k | 0 <= k < |FileTypes| ensures !IsSubstring(FileTypes[k], "IMAGE/PNG") {
      NoSubstringWithout(FileTypes[k], "IMAGE/PNG");
    }
  }

  /** A name without an extension is always rejected. */
  lemma NoExtensionRejected(file: FileInfo)
    requires ExtName(file.originalname) == ""
    ensures CheckFileType(file) == Callback(Some(ImagesOnly), None)
  {
    forall k | 0 <= k < |FileTypes| ensures !IsSubstring(FileTypes[k], "") {
      NoSubstringWithout(FileTypes[k], "");
    }
  }

  /** Because neither test is anchored, an extension or MIME type that merely
      contains an alternative is accepted. */
  lemma UnanchoredTestsAccept()
    ensures CheckFileType(FileInfo("image", "notes.PNGX", "text/x-gif-notes")).accept == Some(true)
  {
    var name := "notes.PNGX";
    assert SegmentEnd(name) == |name|;
    assert SegmentStart(name, |name|) == 0;
    assert name[5] == '.';
    assert LastDot(name) == 5;
    assert ExtName(name) == ".PNGX";
    assert ToLower(".PNGX") == ".pngx";
    assert OccursAt("png", ".pngx", 1);
    assert IsSubstring(FileTypes[2], ".pngx");
    assert OccursAt("gif", "text/x-gif-notes", 7);
    assert IsSubstring(FileTypes[3], "text/x-gif-notes");
  }

  // ---------------------------------------------------------------------------
  // Disk storage

  /** The directory an accepted file is written to: the same for every file. */
  function Destination(file: FileInfo): (dir: string)
    ensures dir == "./uploads/"
  {
    "./uploads/"
  }

  /** The stored name: the form field's name, a dash, the upload time in
      milliseconds (a parameter of the model) and the original extension. The
      digits between the dash and the extension read back as the upload time. */
  function Filename(file: FileInfo, now: nat): (name: string)
    ensures var f := file.fieldname; var ext := ExtName(file.originalname);
      && |f| + 1 + |ext| < |name|
      && name[..|f| + 1] == f + "-"
      && name[|name| - |ext|..] == ext
      && var digits := name[|f| + 1..|name| - |ext|];
         && (forall k :: 0 <= k < |digits| ==> '0' <= digits[k] <= '9')
         && (digits[0] == '0' ==> digits == "0")
         && ParseDecimal(digits) == now
  {
    var digits := Decimal(now);
    var name := file.fieldname + "-" + digits + ExtName(file.originalname);
    assert name[|file.fieldname| + 1..|name| - |ExtName(file.originalname)|] == digits;
    ParseDecimalOfDecimal(now);
    name
  }

  /** A segment made of a non-empty stem that does not end in '.' followed by
      an extension has exactly that extension. */
  lemma SegmentExtOfSuffixed(u: string, ext: string)
    requires |u| > 0 && u[|u| - 1] != '.'
    requires |ext| > 0 && ext[0] == '.'
    requires forall k :: 0 < k < |ext| ==> ext[k] != '.'
    ensures SegmentExt(u + ext) == ext
  {
    var b := u + ext;
    assert b[|u|] == '.';
    assert forall k :: |u| < k < |b| ==> b[k] == ext[k - |u|];
    assert LastDot(b) == |u|;
    if |b| == 2 {
      assert b[0] == u[|u| - 1];
    }
    assert b[|u|..] == ext;
  }

  /** Appending an extension to a name that ends in an ordinary character
      gives a path with exactly that extension. */
  lemma {:induction false} ExtNameOfSuffixed(x: string, ext: string)
    requires |x| > 0 && x[|x| - 1] != '/' && x[|x| - 1] != '.'
    requires |ext| > 0 && ext[0] == '.'
    requires forall k :: 0 <= k < |ext| ==> ext[k] != '/' && (k > 0 ==> ext[k] != '.')
    ensures ExtName(x + ext) == ext
  {
    var p := x + ext;
    assert p[|p| - 1] == ext[|ext| - 1];
    assert SegmentEnd(p) == |p|;
    var st := SegmentStart(p, |p|);
    assert st < |x|;
    var u := x[st..];
    assert p[st..|p|] == u + ext;
    SegmentExtOfSuffixed(u, ext);
  }

  /** The stored file keeps the extension of the original name. */
  lemma FilenameKeepsExtension(file: FileInfo, now: nat)
    requires ExtName(file.originalname) != ""
    ensures ExtName(Filename(file, now)) == ExtName(file.originalname)
  {
    var digits := Decimal(now);
    var x := file.fieldname + "-" + digits;
    assert x[|x| - 1] == digits[|digits| - 1];
    ExtNameOfSuffixed(x, ExtName(file.originalname));
  }

  /** So a file that passed the extension test is stored under a name that passes it too. */
  lemma StoredNamePassesExtensionTest(file: FileInfo, now: nat)
    requires ExtensionAllowed(file.originalname)
    ensures ExtensionAllowed(Filename(file, now))
  {
    FilenameKeepsExtension(file, now);
  }
}
