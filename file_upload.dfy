/** The client's drag-and-drop upload box: it checks each chosen file's extension and size
    against its settings, appends the files that pass to the list it shows and hands them
    to `onUpload`, and removes a listed file by position. */
module FileUpload {
  import opened Wrappers
  import opened Text
  import opened Seqs
  import UploadFilter

  /** A browser `File`, reduced to what the component reads. */
  datatype File = File(name: string, size: nat)

  /** The `acceptedTypes` and `maxSize` props. */
  datatype Settings = Settings(acceptedTypes: seq<string>, maxSize: int)

  /** The props' defaults: the same four extensions and 10 MB as the server. */
  const Defaults: Settings := Settings([".pdf", ".jpg", ".jpeg", ".png"], 10 * 1024 * 1024)

  /** `name.split('.').pop()`: the text after the last `.`, or the whole name without one. */
  function LastSegment(name: string): (r: string)
    ensures forall k :: 0 <= k < |r| ==> r[k] != '.'
    ensures |r| <= |name| && name[|name| - |r|..] == r
    ensures (forall k :: 0 <= k < |name| ==> name[k] != '.') ==> r == name
  {
    match LastIndexOf(name, '.')
    case None => name
    case Some(i) => name[i + 1..]
  }

  /** `'.' + name.split('.').pop()?.toLowerCase()`. */
  function FileExtension(name: string): (r: string)
    ensures |r| >= 1 && r[0] == '.'
    ensures r[1..] == ToLower(LastSegment(name))
  {
    "." + ToLower(LastSegment(name))
  }

  /** The test of `handleFiles`: a listed extension and at most `maxSize` bytes. */
  predicate IsValidFile(f: File, settings: Settings)
  {
    FileExtension(f.name) in settings.acceptedTypes && f.size <= settings.maxSize
  }

  /** The files of one drop or selection that pass, in the order they were given. */
  function ValidFiles(files: seq<File>, settings: Settings): (r: seq<File>)
    ensures forall f :: f in r <==> f in files && IsValidFile(f, settings)
    ensures forall f :: multiset(r)[f] == if IsValidFile(f, settings) then multiset(files)[f] else 0
    ensures IsSubsequence(r, files)
  {
    FilterIsSubsequence(files, IsValidFile, settings);
    Filter(files, IsValidFile, settings)
  }

  /** `prev.filter((_, i) => i !== index)`, written as the filter walks: position by position. */
  function RemoveAt<T>(s: seq<T>, index: int): (r: seq<T>)
    ensures |r| == if 0 <= index < |s| then |s| - 1 else |s|
    decreases |s|
  {
    if |s| == 0 then []
    else (if index == 0 then [] else [s[0]]) + RemoveAt(s[1..], index - 1)
  }

  /** Removing position `index` leaves the files before and after it, in order; an index
      that names no file leaves the list as it is. */
  lemma {:induction false} RemoveAtSplices<T>(s: seq<T>, index: int)
    ensures 0 <= index < |s| ==> RemoveAt(s, index) == s[..index] + s[index + 1..]
    ensures !(0 <= index < |s|) ==> RemoveAt(s, index) == s
    decreases |s|
  {
    if |s| > 0 {
      RemoveAtSplices(s[1..], index - 1);
      if 0 < index < |s| {
        assert s[1..][..index - 1] == s[1..index];
        assert s[1..][index..] == s[index + 1..];
        assert [s[0]] + s[1..index] == s[..index];
      } else if !(0 <= index < |s|) {
        assert [s[0]] + s[1..] == s;
      }
    }
  }

  /** Where the name has a `.` after its first character, the client's type test and the
      server's `fileFilter` agree on the default extensions. */
  lemma {:induction false} ClientExtensionAgreesWithServer(name: string)
    requires exists k :: 0 < k < |name| && name[k] == '.'
    ensures FileExtension(name) in Defaults.acceptedTypes <==> UploadFilter.FileFilterAccepts(name)
  {
    var k :| 0 < k < |name| && name[k] == '.';
    var i := LastIndexOf(name, '.').value;
    assert i >= k;
    if name == ".." {
      assert FileExtension(name) == ".";
      assert UploadFilter.ExtName(name) == "";
      assert ToLower("") == "";
    } else {
      var server := ToLower(name[i..]);
      assert UploadFilter.ExtName(name) == name[i..];
      assert server == FileExtension(name) by {
        assert |server| == |FileExtension(name)|;
        forall j | 0 <= j < |server| ensures server[j] == FileExtension(name)[j] {
          if j > 0 {
            assert name[i..][j] == name[i + 1..][j - 1];
          }
        }
      }
    }
  }

  /** With the default props and a name that has a `.` after its first character, a file the
      client lets through is exactly one the server stores. */
  lemma ClientCheckMatchesServer(f: File)
    requires exists k :: 0 < k < |f.name| && f.name[k] == '.'
    ensures IsValidFile(f, Defaults) <==> UploadFilter.Upload(UploadFilter.UploadedFile(f.name, f.size)).Ok?
  {
    ClientExtensionAgreesWithServer(f.name);
  }

  /** A name without any `.` passes the client when it spells an extension, but the server
      refuses it: the client reads the whole name as the extension. */
  lemma BareNameDisagreement()
    ensures IsValidFile(File("pdf", 1), Defaults)
    ensures !UploadFilter.FileFilterAccepts("pdf")
  {
    var bare := "pdf";
    assert bare[0] != '.' && bare[1] != '.' && bare[2] != '.';
    assert LastSegment(bare) == bare;
    var e := FileExtension(bare);
    assert e[0] == '.' && e[1] == 'p' && e[2] == 'd' && e[3] == 'f';
    assert e == Defaults.acceptedTypes[0];
    UploadFilter.FilterRefusesBareNames();
  }

  /** The component's state: the settings it was given and the files it lists. */
  class Uploader {
    const settings: Settings
    var uploadedFiles: seq<File>

    /** `useState<File[]>([])`. */
    constructor (settings: Settings)
      ensures this.settings == settings && uploadedFiles == []
    {
      this.settings := settings;
      uploadedFiles := [];
    }

    /** `handleFiles(files)`: when at least one file passes, the passing files are appended to
        the list and returned as the argument of `onUpload`; otherwise nothing changes and
        `onUpload` is not called (`None`). */
    method HandleFiles(files: seq<File>) returns (uploaded: Option<seq<File>>)
      modifies this`uploadedFiles
      ensures var valid := ValidFiles(files, settings);
        if |valid| > 0 then uploadedFiles == old(uploadedFiles) + valid && uploaded == Some(valid)
        else uploadedFiles == old(uploadedFiles) && uploaded.None?
    {
      var valid := ValidFiles(files, settings);
      if |valid| > 0 {
        uploadedFiles := uploadedFiles + valid;
        uploaded := Some(valid);
      } else {
        uploaded := None;
      }
    }

    /** `removeFile(index)`. */
    method RemoveFile(index: int)
      modifies this`uploadedFiles
      ensures uploadedFiles == RemoveAt(old(uploadedFiles), index)
      ensures 0 <= index < |old(uploadedFiles)| ==>
                uploadedFiles == old(uploadedFiles)[..index] + old(uploadedFiles)[index + 1..]
    {
      RemoveAtSplices(uploadedFiles, index);
      uploadedFiles := RemoveAt(uploadedFiles, index);
    }
  }
}
