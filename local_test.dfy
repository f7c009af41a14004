/** The local end-to-end script: the folder-id check at startup, the name
    and path of the downloaded input, the names, folders and types of the
    three uploads, the rename that marks a file as processed, and the tally
    of successes and errors. Its copies of the MIME table, the rename rule
    and the listing query are the watcher's, defined once in
    `GDriveWatcher`. OAuth, the Drive calls, the LLM calls and the local
    writes are not modelled. */
module LocalTest {
  import opened Wrappers
  import opened Strings
  import opened Environment
  import GDriveWatcher
  import FileReader

  // ---------------------------------------------------------------------
  // Startup
  // ---------------------------------------------------------------------

  datatype StartupError = FolderIdsNotSet

  /** The two folder ids `main` reads; it exits when either is unset or
      empty. */
  function FolderIds(env: map<string, string>): (r: Result<(string, string), StartupError>)
    ensures r.Ok? <==> && "GDRIVE_INPUT_FOLDER_ID" in env && env["GDRIVE_INPUT_FOLDER_ID"] != ""
                       && "GDRIVE_OUTPUT_FOLDER_ID" in env && env["GDRIVE_OUTPUT_FOLDER_ID"] != ""
    ensures r.Ok? ==> r.value == (env["GDRIVE_INPUT_FOLDER_ID"], env["GDRIVE_OUTPUT_FOLDER_ID"])
  {
    var input := OrEnv(None, env, "GDRIVE_INPUT_FOLDER_ID");
    var output := OrEnv(None, env, "GDRIVE_OUTPUT_FOLDER_ID");
    if !Truthy(input) || !Truthy(output) then Err(FolderIdsNotSet)
    else Ok((input.value, output.value))
  }

  // ---------------------------------------------------------------------
  // Paths
  // ---------------------------------------------------------------------

  /** `os.path.join(a, b)` for POSIX paths: an absolute `b` replaces `a`,
      and a separator is put between them unless `a` is empty or ends in
      one. */
  function JoinPath(a: string, b: string): string {
    if StartsWith(b, "/") then b
    else if a == "" || EndsWith(a, "/") then a + b
    else a + "/" + b
  }

  /** `os.path.splitext(p)` for POSIX paths: the extension runs from the last
      dot of the last component, unless only dots come before that dot in
      the component. */
  function Splitext(p: string): (r: (string, string))
    ensures r.0 + r.1 == p
    ensures r.1 == "" || (r.1[0] == '.' && '/' !in r.1 && '.' !in r.1[1..])
  {
    var sep: int := match LastIndexOf(p, '/') case Some(i) => i case None => -1;
    match LastIndexOf(p, '.')
    case None => (p, "")
    case Some(d) =>
      if d > sep && exists k :: sep + 1 <= k < d && p[k] != '.' then (p[..d], p[d..])
      else (p, "")
  }

  /** A last component with a non-dot before its last dot loses what
      follows that dot. */
  lemma SplitextOfName(stem: string, ext: string, k: nat)
    requires '/' !in stem && '/' !in ext
    requires |ext| >= 1 && ext[0] == '.' && '.' !in ext[1..]
    requires k < |stem| && stem[k] != '.'
    ensures Splitext(stem + ext) == (stem, ext)
  {
    var p := stem + ext;
    assert p[|stem|..] == ext;
    assert p[|stem| + 1..] == ext[1..];
    LastIndexOfIs(p, '.', |stem|);
    assert '/' !in p by {
      assert forall i :: 0 <= i < |p| ==> p[i] == (if i < |stem| then stem[i] else ext[i - |stem|]);
    }
    assert p[k] == stem[k];
    assert p[..|stem|] == stem;
  }

  /** A name whose only dot leads it, such as ".bashrc", has no
      extension. */
  lemma SplitextOfDotFile(name: string)
    requires '/' !in name
    requires |name| >= 1 && name[0] == '.' && '.' !in name[1..]
    ensures Splitext(name) == (name, "")
  {
    LastIndexOfIs(name, '.', 0);
  }

  /** The downloaded input's name: `input` and the type's extension. */
  function InputFileName(mimeType: string): string {
    "input" + GDriveWatcher.GetFileExtension(mimeType)
  }

  /** `file_info.get("mimeType", "text/plain")` */
  function MimeTypeOf(mimeType: Option<string>): string {
    mimeType.GetOr("text/plain")
  }

  /** The four extensions of the table, one by one. */
  lemma ExtensionFacts(ext: string)
    requires ext in GDriveWatcher.Extensions
    ensures |ext| >= 3 && ext[0] == '.' && '.' !in ext[1..] && '/' !in ext
    ensures Lower(ext) == ext
    ensures ext in FileReader.SupportedExtensions()
  {
    assert forall i :: 0 <= i < |ext| ==> !('A' <= ext[i] <= 'Z');
  }

  /** `Path(p).name` of a bare file name. */
  lemma PathNameOfBare(file: string)
    requires '/' !in file && file != "" && file != "."
    ensures FileReader.PathName(file) == file
  {
    SplitNoSep(file, '/');
  }

  /** `Path(p).suffix` of `input` followed by an extension. */
  lemma InputSuffix(ext: string)
    requires |ext| >= 3 && ext[0] == '.' && '.' !in ext[1..]
    ensures FileReader.Suffix("input" + ext) == ext
  {
    var name := "input" + ext;
    assert name[5..] == ext;
    assert name[6..] == ext[1..];
    LastIndexOfIs(name, '.', 5);
  }

  /** The name of a relative file joined to any directory is the file's. */
  lemma JoinPathName(dir: string, file: string)
    requires '/' !in file && file != "" && file != "."
    ensures FileReader.PathName(JoinPath(dir, file)) == file
  {
    assert !StartsWith(file, "/") by {
      assert file[0] != '/';
    }
    if dir == "" {
      assert dir + file == file;
      PathNameOfBare(file);
    } else if EndsWith(dir, "/") {
      var d := dir[..|dir| - 1];
      assert dir == d + "/";
      assert dir + file == d + "/" + file;
      FileReader.PathNameOfJoin(d, file);
    } else {
      FileReader.PathNameOfJoin(dir, file);
    }
  }

  /** The input's name is `input` and an extension without a separator. */
  lemma InputFileNameFacts(mimeType: string)
    ensures var ext := GDriveWatcher.GetFileExtension(mimeType);
      && InputFileName(mimeType) == "input" + ext
      && '/' !in InputFileName(mimeType) && |InputFileName(mimeType)| >= 8
  {
    var ext := GDriveWatcher.GetFileExtension(mimeType);
    var file := InputFileName(mimeType);
    ExtensionFacts(ext);
    assert forall i :: 0 <= i < |file| ==> file[i] == if i < 5 then "input"[i] else ext[i - 5];
  }

  /** Whatever the MIME type and the directory, the downloaded file has a
      suffix `read_file` accepts, so the download is never rejected as
      unsupported. */
  lemma DownloadedInputReadable(tempDir: string, mimeType: string)
    ensures FileReader.FileSuffix(JoinPath(tempDir, InputFileName(mimeType))) in FileReader.SupportedExtensions()
    ensures FileReader.FileSuffix(JoinPath(tempDir, InputFileName(mimeType))) == GDriveWatcher.GetFileExtension(mimeType)
  {
    var ext := GDriveWatcher.GetFileExtension(mimeType);
    ExtensionFacts(ext);
    InputFileNameFacts(mimeType);
    JoinPathName(tempDir, InputFileName(mimeType));
    InputSuffix(ext);
  }

  // ---------------------------------------------------------------------
  // Uploads and the rename
  // ---------------------------------------------------------------------

  /** One `upload_file` call: the name, the folder and the MIME type. */
  datatype Upload = Upload(name: string, folderId: string, mimeType: string)

  const BlogSuffix := "_blog.md"
  const XPostSuffix := "_x_post.txt"
  const LinkedInSuffix := "_linkedin.txt"

  /** The three uploads of one processed file. */
  function Uploads(fileName: string, timestamp: string, outputFolderId: string): seq<Upload> {
    var stem := Splitext(fileName).0 + "_" + timestamp;
    [ Upload(stem + BlogSuffix, outputFolderId, "text/markdown"),
      Upload(stem + XPostSuffix, outputFolderId, "text/plain"),
      Upload(stem + LinkedInSuffix, outputFolderId, "text/plain") ]
  }

  /** Every upload goes to the output folder under the file's stem, the
      timestamp and exactly one of the three suffixes, and the three names
      differ, so no upload replaces another. */
  lemma UploadNames(fileName: string, timestamp: string, outputFolderId: string)
    ensures var ups := Uploads(fileName, timestamp, outputFolderId);
      var stem := Splitext(fileName).0 + "_" + timestamp;
      && |ups| == 3
      && (forall k :: 0 <= k < 3 ==> ups[k].folderId == outputFolderId && StartsWith(ups[k].name, stem))
      && EndsWith(ups[0].name, BlogSuffix) && EndsWith(ups[1].name, XPostSuffix) && EndsWith(ups[2].name, LinkedInSuffix)
      && ups[0].name != ups[1].name && ups[1].name != ups[2].name && ups[0].name != ups[2].name
  {
    var stem := Splitext(fileName).0 + "_" + timestamp;
    StartsWithAppend(stem + BlogSuffix, stem, BlogSuffix);
    StartsWithAppend(stem + XPostSuffix, stem, XPostSuffix);
    StartsWithAppend(stem + LinkedInSuffix, stem, LinkedInSuffix);
    EndsWithPrepend(stem + BlogSuffix, BlogSuffix, stem);
    EndsWithPrepend(stem + XPostSuffix, XPostSuffix, stem);
    EndsWithPrepend(stem + LinkedInSuffix, LinkedInSuffix, stem);
  }

  /** What `main` does with one file, apart from the calls into the LLM
      and Drive: where the input is downloaded, what is uploaded and the name
      the input gets afterwards. */
  datatype FilePlan = FilePlan(inputPath: string, uploads: seq<Upload>, newName: string)

  function PlanFor(fileName: string, mimeType: Option<string>, tempDir: string, timestamp: string,
                   outputFolderId: string): FilePlan
  {
    FilePlan(JoinPath(tempDir, InputFileName(MimeTypeOf(mimeType))),
             Uploads(fileName, timestamp, outputFolderId),
             GDriveWatcher.ProcessedName(fileName))
  }

  /** A plan's input is readable, its uploads have three distinct names in
      the output folder, and the renamed input is no longer listed. */
  lemma PlanSound(fileName: string, mimeType: Option<string>, tempDir: string, timestamp: string,
                  outputFolderId: string)
    ensures var plan := PlanFor(fileName, mimeType, tempDir, timestamp, outputFolderId);
      && FileReader.FileSuffix(plan.inputPath) in FileReader.SupportedExtensions()
      && |plan.uploads| == 3
      && (forall k :: 0 <= k < 3 ==> plan.uploads[k].folderId == outputFolderId)
      && plan.uploads[0].name != plan.uploads[1].name && plan.uploads[1].name != plan.uploads[2].name
      && plan.uploads[0].name != plan.uploads[2].name
      && !GDriveWatcher.PassesMarkerClause(plan.newName, GDriveWatcher.DefaultMarker)
  {
    DownloadedInputReadable(tempDir, MimeTypeOf(mimeType));
    UploadNames(fileName, timestamp, outputFolderId);
    GDriveWatcher.ProcessedNameNotListed(fileName);
  }

  // ---------------------------------------------------------------------
  // The tally
  // ---------------------------------------------------------------------

  /** The number of files processed without an exception. */
  function Successes(outcomes: seq<bool>): (n: nat)
    ensures n <= |outcomes|
  {
    if |outcomes| == 0 then 0
    else Successes(outcomes[..|outcomes| - 1]) + (if outcomes[|outcomes| - 1] then 1 else 0)
  }

  /** All files succeed exactly when the successes are all of them. */
  lemma {:induction false} SuccessesAll(outcomes: seq<bool>)
    ensures Successes(outcomes) == |outcomes| <==> forall k :: 0 <= k < |outcomes| ==> outcomes[k]
  {
    if |outcomes| > 0 {
      var init := outcomes[..|outcomes| - 1];
      SuccessesAll(init);
      assert forall k :: 0 <= k < |init| ==> init[k] == outcomes[k];
    }
  }

  /** The counters of `main`'s loop over the files, one outcome per file:
      the successes, the errors, and together every file. */
  method TallyResults(outcomes: seq<bool>) returns (successCount: nat, errorCount: nat)
    ensures successCount == Successes(outcomes)
    ensures successCount + errorCount == |outcomes|
    ensures errorCount == 0 <==> forall k :: 0 <= k < |outcomes| ==> outcomes[k]
  {
    successCount := 0;
    errorCount := 0;
    for i := 0 to |outcomes|
      invariant successCount == Successes(outcomes[..i])
      invariant successCount + errorCount == i
    {
      assert outcomes[..i + 1][..i] == outcomes[..i];
      if outcomes[i] {
        successCount := successCount + 1;
      } else {
        errorCount := errorCount + 1;
      }
    }
    assert outcomes[..|outcomes|] == outcomes;
    SuccessesAll(outcomes);
  }
}
