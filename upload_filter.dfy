/** The server's upload policy: the multer `fileFilter` on the lowercased `path.extname`
    of the client's file name, and the 10 MB size limit. */
module UploadFilter {
  import opened Wrappers
  import opened Text

  const AllowedTypes: seq<string> := [".pdf", ".jpg", ".jpeg", ".png"]

  /** `limits.fileSize`: 10 MB. */
  const MaxFileSize: int := 10 * 1024 * 1024

  const InvalidTypeMessage: string := "Invalid file type. Only PDF, JPG, JPEG, and PNG files are allowed."

  /** `path.extname` of a file name without directory part: from the last `.` to the end,
      or empty when there is no `.`, when the only leading `.` starts the name (a dotfile
      such as `.env`), or for the name `..`. */
  function ExtName(name: string): (r: string)
    ensures r != "" ==> 0 < |name| - |r| && name[|name| - |r|..] == r && r[0] == '.'
    ensures r != "" ==> forall k :: 1 <= k < |r| ==> r[k] != '.'
  {
    match LastIndexOf(name, '.')
    case None => ""
    case Some(i) => if i == 0 || name == ".." then "" else name[i..]
  }

  /** The extension is found from the end: a non-empty stem followed by `.` and a dot-free
      tail (other than the name `..`) has exactly that extension. */
  lemma ExtNameOfSplit(stem: string, ext: string)
    requires |stem| > 0 && |ext| > 0 && ext[0] == '.'
    requires forall k :: 1 <= k < |ext| ==> ext[k] != '.'
    requires stem + ext != ".."
    ensures ExtName(stem + ext) == ext
  {
    var name := stem + ext;
    assert name[|stem|] == '.';
    assert forall k :: |stem| < k < |name| ==> name[k] == ext[k - |stem|];
    assert name[|stem|..] == ext;
  }

  /** `allowedTypes.includes(path.extname(originalname).toLowerCase())`. */
  predicate FileFilterAccepts(originalName: string)
  {
    ToLower(ExtName(originalName)) in AllowedTypes
  }

  /** Every allowed extension is a `.` followed by a dot-free tail. */
  lemma AllowedShape(e: string)
    requires e in AllowedTypes
    ensures |e| >= 4 && e[0] == '.' && forall k :: 1 <= k < |e| ==> e[k] != '.'
  {
  }

  /** The filter accepts exactly the names that end, ignoring letter case, in an allowed
      extension and have something before it. */
  lemma FileFilterAcceptsIff(name: string)
    ensures FileFilterAccepts(name) <==>
      exists e :: e in AllowedTypes && |e| < |name| && ToLower(name[|name| - |e|..]) == e
  {
    if FileFilterAccepts(name) {
      var e := ToLower(ExtName(name));
      assert e in AllowedTypes && |e| < |name| && ToLower(name[|name| - |e|..]) == e;
    }
    if exists e :: e in AllowedTypes && |e| < |name| && ToLower(name[|name| - |e|..]) == e {
      var e :| e in AllowedTypes && |e| < |name| && ToLower(name[|name| - |e|..]) == e;
      AllowedShape(e);
      var stem, ext := name[..|name| - |e|], name[|name| - |e|..];
      assert name == stem + ext;
      assert ext[0] == '.' by { assert LowerChar(ext[0]) == e[0]; }
      forall k | 1 <= k < |ext| ensures ext[k] != '.' {
        assert LowerChar(ext[k]) == e[k];
      }
      ExtNameOfSplit(stem, ext);
    }
  }

  /** A file the client sends, as multer sees it. */
  datatype UploadedFile = UploadedFile(originalName: string, size: nat)

  datatype UploadError = InvalidFileType(message: string) | FileTooLarge

  /** The error's message: the filter's own, or multer's for the size limit. */
  function UploadErrorMessage(e: UploadError): string
  {
    match e
    case InvalidFileType(m) => m
    case FileTooLarge => "File too large"
  }

  /** The multer middleware: the filter runs first; a file that passes is rejected when it
      exceeds the size limit (a file of exactly the limit is kept). */
  function Upload(f: UploadedFile): (r: Result<UploadedFile, UploadError>)
    ensures r.Ok? <==> FileFilterAccepts(f.originalName) && f.size <= MaxFileSize
    ensures r.Ok? ==> r.value == f
    ensures !FileFilterAccepts(f.originalName) ==> r == Err(InvalidFileType(InvalidTypeMessage))
  {
    if !FileFilterAccepts(f.originalName) then Err(InvalidFileType(InvalidTypeMessage))
    else if f.size > MaxFileSize then Err(FileTooLarge)
    else Ok(f)
  }

  /** Upper-case extensions pass. */
  lemma FilterIgnoresCase()
    ensures FileFilterAccepts("Licence.PDF")
  {
    var name, ext := "Licence.PDF", ".PDF";
    assert name == "Licence" + ext;
    ExtNameOfSplit("Licence", ext);
    LowerPdf();
  }

  /** `".PDF".toLowerCase()`. */
  lemma LowerPdf()
    ensures ToLower(".PDF") == AllowedTypes[0]
  {
    var lowered := ToLower(".PDF");
    assert lowered[0] == '.' && lowered[1] == 'p' && lowered[2] == 'd' && lowered[3] == 'f';
  }

  /** A second extension does not hide the last one. */
  lemma FilterLooksAtLastDot()
    ensures !FileFilterAccepts("scan.pdf.exe")
  {
    assert "scan.pdf" + ".exe" == "scan.pdf.exe";
    ExtNameOfSplit("scan.pdf", ".exe");
    var lowered := ToLower(".exe");
    assert lowered[1] == 'e' && lowered[2] == 'x';
  }

  /** A dotfile named like an extension, and a bare name, are refused. */
  lemma FilterRefusesBareNames()
    ensures !FileFilterAccepts(".pdf")
    ensures !FileFilterAccepts("pdf")
  {
    var dotted, bare := ".pdf", "pdf";
    assert dotted[0] == '.' && dotted[1] != '.' && dotted[2] != '.' && dotted[3] != '.';
    assert LastIndexOf(dotted, '.') == Some(0);
    assert bare[0] != '.' && bare[1] != '.' && bare[2] != '.';
    assert LastIndexOf(bare, '.') == None;
    assert ToLower("") == "";
  }
}
