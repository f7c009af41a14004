/** The pure parts of the Google Drive watcher: the MIME type table, the
    "processed" rename rule, the text of the listing query, the choice of the
    upload folder and the folder-id checks of the constructor. The Drive
    service itself is not modelled. */
module GDriveWatcher {
  import opened Wrappers
  import opened Strings
  import opened Environment

  // ---------------------------------------------------------------------
  // MIME types
  // ---------------------------------------------------------------------

  const WordMimeType := "application/vnd.openxmlformats-officedocument.wordprocessingml.document"

  /** `SUPPORTED_MIME_TYPES`, as its items in the dictionary's order. */
  const SupportedMimeTypes: seq<(string, string)> := [
    ("text/plain", ".txt"),
    ("text/markdown", ".md"),
    (WordMimeType, ".docx"),
    ("application/pdf", ".pdf")
  ]

  /** The extensions the table can give. */
  const Extensions: set<string> := {".txt", ".md", ".docx", ".pdf"}

  /** `d.get(key, default)` on a dictionary given as its items: the value of
      the first item with that key, or `default` when there is none. */
  function Lookup(items: seq<(string, string)>, key: string, default: string): (r: string)
    ensures || (exists k :: 0 <= k < |items| && items[k].0 == key && r == items[k].1)
            || ((forall k :: 0 <= k < |items| ==> items[k].0 != key) && r == default)
  {
    if |items| == 0 then default
    else if items[0].0 == key then items[0].1
    else Lookup(items[1..], key, default)
  }

  /** `get_file_extension`: the table's extension, or ".txt". */
  function GetFileExtension(mimeType: string): (ext: string)
    ensures ext in Extensions
  {
    Lookup(SupportedMimeTypes, mimeType, ".txt")
  }

  /** The table written out case by case: each supported type gives its own
      extension and every other type gives ".txt". */
  lemma FileExtensionTable(mimeType: string)
    ensures GetFileExtension(mimeType)
         == if mimeType == "text/plain" then ".txt"
            else if mimeType == "text/markdown" then ".md"
            else if mimeType == WordMimeType then ".docx"
            else if mimeType == "application/pdf" then ".pdf"
            else ".txt"
  {
    var t0 := SupportedMimeTypes;
    var t1 := t0[1..];
    var t2 := t1[1..];
    var t3 := t2[1..];
    assert t3[1..] == [];
    assert Lookup(t3, mimeType, ".txt") == if mimeType == "application/pdf" then ".pdf" else ".txt";
    assert Lookup(t0, mimeType, ".txt") == if mimeType == "text/plain" then ".txt" else Lookup(t1, mimeType, ".txt");
    assert Lookup(t1, mimeType, ".txt") == if mimeType == "text/markdown" then ".md" else Lookup(t2, mimeType, ".txt");
    assert Lookup(t2, mimeType, ".txt") == if mimeType == WordMimeType then ".docx" else Lookup(t3, mimeType, ".txt");
  }

  // ---------------------------------------------------------------------
  // The processed rename
  // ---------------------------------------------------------------------

  /** What `mark_as_processed` adds to a name. */
  const ProcessedTag := "_processed"

  /** The default `processed_marker` of `list_new_files`. */
  const DefaultMarker := "_processed"

  /** `s.rsplit(c, 1)`: the text before and after the last `c`, or `[s]`
      when `c` does not occur. */
  function RSplitOnce(s: string, c: char): (parts: seq<string>)
  {
    match LastIndexOf(s, c)
    case Some(k) => [s[..k], s[k + 1..]]
    case None => [s]
  }

  /** Joining the pieces of `rsplit` with the separator gives the name back,
      and only the first piece can hold the separator. */
  lemma RSplitOnceJoin(s: string, c: char)
    ensures var parts := RSplitOnce(s, c);
      && 1 <= |parts| <= 2 && Join(parts, [c]) == s
      && c !in parts[|parts| - 1]
      && (|parts| == 2 <==> c in s)
  {
    match LastIndexOf(s, c)
    case Some(k) =>
      assert s == s[..k] + [c] + s[k + 1..];
    case None =>
  }

  /** The new name `mark_as_processed` gives a file. */
  function ProcessedName(originalName: string): string {
    var parts := RSplitOnce(originalName, '.');
    if |parts| == 2 then parts[0] + ProcessedTag + "." + parts[1]
    else originalName + ProcessedTag
  }

  /** With a dot, the tag goes immediately before the last dot. */
  lemma ProcessedNameWithDot(name: string, k: nat)
    requires k < |name| && name[k] == '.' && '.' !in name[k + 1..]
    ensures ProcessedName(name) == name[..k] + ProcessedTag + name[k..]
  {
    LastIndexOfIs(name, '.', k);
    assert name[k..] == "." + name[k + 1..];
  }

  /** Without a dot, the tag is appended. */
  lemma ProcessedNameWithoutDot(name: string)
    requires '.' !in name
    ensures ProcessedName(name) == name + ProcessedTag
  {
  }

  /** The text after the last dot, the extension, is the same before and
      after the rename. */
  lemma ProcessedNameKeepsExtension(name: string)
    requires '.' in name
    ensures var k := LastIndexOf(name, '.').value;
      var k' := LastIndexOf(ProcessedName(name), '.').value;
      ProcessedName(name)[k' + 1..] == name[k + 1..]
  {
    var k := LastIndexOf(name, '.').value;
    var p := ProcessedName(name);
    ProcessedNameWithDot(name, k);
    var j := k + |ProcessedTag|;
    assert p[j] == '.';
    assert p[j + 1..] == name[k + 1..];
    LastIndexOfIs(p, '.', j);
  }

  /** The new name is ten characters longer and holds the tag. */
  lemma ProcessedNameShape(name: string)
    ensures |ProcessedName(name)| == |name| + 10
    ensures Contains(ProcessedName(name), ProcessedTag)
  {
    match LastIndexOf(name, '.')
    case Some(k) =>
      ProcessedNameWithDot(name, k);
      ContainsMiddle(name[..k], ProcessedTag, name[k..]);
    case None =>
      ContainsMiddle(name, ProcessedTag, "");
      assert name + ProcessedTag + "" == name + ProcessedTag;
  }

  // ---------------------------------------------------------------------
  // The listing query
  // ---------------------------------------------------------------------

  /** `mimeType='<mime>'` */
  function MimeCondition(mimeType: string): string {
    "mimeType='" + mimeType + "'"
  }

  /** One condition per supported type, in the table's order. */
  function MimeConditions(items: seq<(string, string)>): (r: seq<string>)
    ensures |r| == |items|
    ensures forall k :: 0 <= k < |items| ==> r[k] == MimeCondition(items[k].0)
  {
    if |items| == 0 then [] else [MimeCondition(items[0].0)] + MimeConditions(items[1..])
  }

  /** The clause that leaves out the files already marked. */
  function MarkerClause(marker: string): string {
    "not name contains '" + marker + "'"
  }

  /** The query up to the MIME conditions. */
  function QueryHead(folderId: string): string {
    "'" + folderId + "' in parents and trashed=false and ("
  }

  /** The query after the MIME conditions. */
  function QueryTail(marker: string): string {
    ") and " + MarkerClause(marker)
  }

  /** The query text of `list_new_files` for a folder and a marker. */
  function ListQuery(folderId: string, marker: string): string {
    QueryHead(folderId) + Join(MimeConditions(SupportedMimeTypes), " or ") + QueryTail(marker)
  }

  /** The query asks for the folder's children and ends with the clause that
      leaves out names holding the marker. */
  lemma ListQueryFrame(folderId: string, marker: string)
    ensures StartsWith(ListQuery(folderId, marker), "'" + folderId + "' in parents")
    ensures EndsWith(ListQuery(folderId, marker), MarkerClause(marker))
  {
    var start := "'" + folderId + "' in parents";
    var head := QueryHead(folderId);
    var body := Join(MimeConditions(SupportedMimeTypes), " or ");
    var tail := QueryTail(marker);
    assert head == start + " and trashed=false and (";
    StartsWithAppend(start, start, " and trashed=false and (");
    StartsWithAppend(head, start, body + tail);
    assert head + body + tail == head + (body + tail);
    EndsWithPrepend(MarkerClause(marker), MarkerClause(marker), ") and ");
    EndsWithPrepend(tail, MarkerClause(marker), head + body);
  }

  /** The query has a condition for every supported MIME type and the
      clause that leaves out names holding the marker. */
  lemma ListQueryClauses(folderId: string, marker: string)
    ensures forall k :: 0 <= k < |SupportedMimeTypes| ==>
      Contains(ListQuery(folderId, marker), MimeCondition(SupportedMimeTypes[k].0))
    ensures Contains(ListQuery(folderId, marker), MarkerClause(marker))
  {
    var head := QueryHead(folderId);
    var conds := MimeConditions(SupportedMimeTypes);
    var body := Join(conds, " or ");
    var tail := QueryTail(marker);
    forall k | 0 <= k < |SupportedMimeTypes|
      ensures Contains(ListQuery(folderId, marker), MimeCondition(SupportedMimeTypes[k].0))
    {
      JoinContainsPart(conds, " or ", k);
      ContainsWithin(head, body, tail, conds[k]);
    }
    ContainsMiddle(") and ", MarkerClause(marker), "");
    assert ") and " + MarkerClause(marker) + "" == tail;
    ContainsWithin(head + body, tail, "", MarkerClause(marker));
    assert head + body + tail + "" == ListQuery(folderId, marker);
  }

  /** Drive's `not name contains '<marker>'`, read as substring search. */
  predicate PassesMarkerClause(name: string, marker: string) {
    !Contains(name, marker)
  }

  /** The only idempotence in the system: once renamed, a file no longer
      passes the default query, so it is not processed again. */
  lemma ProcessedNameNotListed(name: string)
    ensures !PassesMarkerClause(ProcessedName(name), DefaultMarker)
  {
    ProcessedNameShape(name);
  }

  // ---------------------------------------------------------------------
  // The watcher's settings
  // ---------------------------------------------------------------------

  /** The fields the constructor sets; `credentials_path` is kept as read. */
  datatype Watcher = Watcher(inputFolderId: string, outputFolderId: string, credentialsPath: Option<string>)

  datatype WatcherError = InputFolderNotSet | OutputFolderNotSet

  /** A watcher the constructor can return: both folder ids are set. */
  predicate Valid(w: Watcher) {
    w.inputFolderId != "" && w.outputFolderId != ""
  }

  /** `GDriveWatcher.__init__` without the service: each folder id is the
      argument when it is non-empty, else the environment's; the input id is
      checked first, then the output id. */
  function NewWatcher(inputFolderId: Option<string>, outputFolderId: Option<string>,
                      credentialsPath: Option<string>, env: map<string, string>): (r: Result<Watcher, WatcherError>)
    ensures r.Ok? ==> Valid(r.value)
  {
    var input := OrEnv(inputFolderId, env, "GDRIVE_INPUT_FOLDER_ID");
    var output := OrEnv(outputFolderId, env, "GDRIVE_OUTPUT_FOLDER_ID");
    if !Truthy(input) then Err(InputFolderNotSet)
    else if !Truthy(output) then Err(OutputFolderNotSet)
    else Ok(Watcher(input.value, output.value, OrEnv(credentialsPath, env, "GOOGLE_APPLICATION_CREDENTIALS")))
  }

  /** The constructor fails exactly when a folder id is missing or empty
      after the environment fallback, and reports the input folder first. */
  lemma NewWatcherChecks(inputFolderId: Option<string>, outputFolderId: Option<string>,
                         credentialsPath: Option<string>, env: map<string, string>)
    ensures var input := OrEnv(inputFolderId, env, "GDRIVE_INPUT_FOLDER_ID");
      var output := OrEnv(outputFolderId, env, "GDRIVE_OUTPUT_FOLDER_ID");
      var r := NewWatcher(inputFolderId, outputFolderId, credentialsPath, env);
      && (r == Err(InputFolderNotSet) <==> !Truthy(input))
      && (r == Err(OutputFolderNotSet) <==> Truthy(input) && !Truthy(output))
      && (r.Ok? ==> r.value.inputFolderId == input.value && r.value.outputFolderId == output.value)
  {
  }

  /** An explicitly given non-empty id wins over the environment. */
  lemma ArgumentsWin(inputFolderId: string, outputFolderId: string,
                     credentialsPath: Option<string>, env: map<string, string>)
    requires inputFolderId != "" && outputFolderId != ""
    ensures NewWatcher(Some(inputFolderId), Some(outputFolderId), credentialsPath, env).Ok?
    ensures var w := NewWatcher(Some(inputFolderId), Some(outputFolderId), credentialsPath, env).value;
      w.inputFolderId == inputFolderId && w.outputFolderId == outputFolderId
  {
  }

  /** The folder `upload_file` writes to: `folder_id or self.output_folder_id`. */
  function TargetFolder(w: Watcher, folderId: Option<string>): string {
    if Truthy(folderId) then folderId.value else w.outputFolderId
  }

  /** An upload from a constructed watcher always names a folder. */
  lemma TargetFolderSet(w: Watcher, folderId: Option<string>)
    requires Valid(w)
    ensures TargetFolder(w, folderId) != ""
  {
  }

  /** The query of `list_new_files` on a watcher. */
  function NewFilesQuery(w: Watcher, marker: string): (q: string)
    ensures StartsWith(q, "'" + w.inputFolderId + "' in parents")
    ensures EndsWith(q, MarkerClause(marker))
  {
    ListQueryFrame(w.inputFolderId, marker);
    ListQuery(w.inputFolderId, marker)
  }
}
