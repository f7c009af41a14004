# echo-me, the deterministic core

echo-me turns source material from a Google Drive folder into a blog
article, an X post and a LinkedIn post generated by Claude. It can also
publish the article to Notion. Around the network calls sit small,
deterministic transformations, and this project models them in Dafny and
proves their properties:

- `MetadataExtractor` covers the front-matter metadata of an article. It
  infers source and type from the file-name prefix, layers the caller's
  overrides on top, parses the comma-separated topic list, and renders the
  YAML front matter that is prepended to the article.
- `NotionPublisher` covers the Markdown to Notion block converter. This is
  the line loop over headings, fenced code, list items, quotes and
  paragraphs, plus the inline splitter for bold, italic, inline code and
  links.
- `GDriveWatcher` covers the watcher's pure parts:
  - the MIME type to extension table;
  - the rename that marks a file as processed;
  - the text of the listing query, which excludes processed names;
  - the choice of upload folder;
  - the folder-id checks of the constructor.
- `FileReader` covers `read_file`. The existence check comes first, then
  the dispatch on the lower-cased suffix. It also covers the paragraph and
  page joins, and the rejection of PDFs without a text layer.
- `LlmProcessor` covers the content-shape table. It holds the three prompt
  templates and their token budgets, the API-key check, the validation of
  the content type, and the substitution of the input into the template.
- `DiscordNotifier` covers the error embed of `send_error`: its fields,
  their order, the two truncations and the single embed. It also covers the
  skip of `notify_error` when no webhook URL is configured.
- `LocalTest` covers the local end-to-end script:
  - the startup check of the folder ids;
  - the path the input is downloaded to;
  - the names, folders and types of the three uploads;
  - the rename;
  - the success and error counters.

  Its copies of the MIME table, the rename rule and the listing query are
  the watcher's, defined once in `GDriveWatcher`.
- `Strings`, `Wrappers` and `Environment` hold the shared pieces. `Strings`
  models Python's `split`, `join`, `strip`, `startswith`, `lower` and
  `rfind`. `Wrappers` has `Option` and `Result`. `Environment` models the
  `value or os.getenv(name)` lookups, taking the environment as a map.

The model follows each function's shape. Loops over local state become
methods with loop invariants, each proved equal to a specification
function:

- `markdown_to_notion_blocks`, with its nested loop for code lines;
- `_parse_rich_text`;
- the first-match loop of `infer_metadata_from_filename`;
- the page loop of `_read_pdf_file`;
- the `insert`/`append` sequence of `send_error`;
- the counters of the local script.

Everything else is a function. Its properties are lemmas, or `ensures`
clauses where they concern one call.

Some inputs that Python reads from outside are parameters here: the clock
(`date.today()`, `datetime.now()`), the environment, the traceback text,
and what the file libraries extract. A file on disk is a `StoredFile`
holding its text, its Word paragraphs and its PDF pages. Raised exceptions
become `Err` values of a `Result`.

## Model

| member | source | states |
|---|---|---|
| MetadataExtractor.InferMetadataFromFilename | src/modules/metadata_extractor.py:65-82 | The first-match loop returns what the ordered table lookup `Infer` gives for the base name, and that is always one of the four mapped pairs or the default pair. |
| MetadataExtractor.PrefixesExclusive | src/modules/metadata_extractor.py:14-19 | At most one of the four prefixes `meeting_`, `interview_`, `memo_`, `webinar_` matches a name, so the table's order never changes the result. |
| MetadataExtractor.FirstMatchUnfolded | src/modules/metadata_extractor.py:78-82 | The ordered first match over the table, written out prefix by prefix with the default last. |
| MetadataExtractor.InferByPrefix | src/modules/metadata_extractor.py:14-82 | A base name starting, ignoring ASCII case, with one of the prefixes gets that prefix's pair, and any other name gets `(unknown, general)`. |
| MetadataExtractor.InferIsKnown | src/modules/metadata_extractor.py:14-22 | The inferred pair is always one of the five pairs of the table and the default. |
| MetadataExtractor.BasenameIsBare | src/modules/metadata_extractor.py:76 | The base name contains neither `/` nor `\` and is a suffix of the file name. |
| MetadataExtractor.BasenameAfterDirectory | src/modules/metadata_extractor.py:76 | A separator-free name after any directory and either separator is its own base name. |
| MetadataExtractor.InferIgnoresDirectory | src/modules/metadata_extractor.py:76-82 | Inference ignores the directory: `Infer(d + sep + b) == Infer(b)` for a separator-free `b` and `sep` either `/` or `\`. |
| MetadataExtractor.ExtractMetadata | src/modules/metadata_extractor.py:85-124 | `original_file` contains no `/` or `\` and is a suffix of the file name. |
| MetadataExtractor.OverridesLayer | src/modules/metadata_extractor.py:106-116 | A non-empty source, type or date override wins. `None` or `""` falls back to the inferred source or type, or to today's date. `original_file` is the base name. |
| MetadataExtractor.TopicsFromCallerOnly | src/modules/metadata_extractor.py:123 | The topics are the caller's list, or `[]` when there is none, whatever the file name. |
| MetadataExtractor.MeetingFileWithoutOverrides | src/modules/metadata_extractor.py:85-124 | A bare `meeting_…` name without overrides gives source `meeting`, type `minutes`, today's date, the name itself and no topics. |
| MetadataExtractor.ToDict | src/modules/metadata_extractor.py:54-62 | The dictionary has exactly the keys `source`, `type`, `date`, `topics` and `original_file`. |
| MetadataExtractor.DictRoundTrip | src/modules/metadata_extractor.py:54-62 | The record can be read back from its dictionary unchanged. |
| MetadataExtractor.FrontmatterDelimited | src/modules/metadata_extractor.py:37-52 | The front matter starts with `---` and a newline and ends with a newline. |
| MetadataExtractor.FrontmatterLinesRecoverable | src/modules/metadata_extractor.py:37-52 | For newline-free values, splitting the front matter at newlines gives back the lines in their fixed order: `---`, source, type, date, topics, original_file, `---`, and the final empty line. |
| MetadataExtractor.TopicsLineExamples | src/modules/metadata_extractor.py:42-46 | Topics are joined by `", "` inside brackets, and an empty list is written `topics: []`. |
| MetadataExtractor.AddFrontmatterToContent | src/modules/metadata_extractor.py:142-154 | The result starts with `---` and a newline, ends with the content, and what precedes the content is the record's front matter. |
| MetadataExtractor.StrippedNonEmptyAreTopics | src/modules/metadata_extractor.py:139 | Every kept piece of a comma-free split is non-empty, stripped and comma-free, and no more pieces are kept than there were. |
| MetadataExtractor.ParseTopicsString | src/modules/metadata_extractor.py:127-139 | `""` gives `[]`, and every entry is non-empty, stripped of white space and free of commas. Order and completeness are the two lemmas below. |
| MetadataExtractor.ParseTopicsConcat | src/modules/metadata_extractor.py:137-139 | For all texts, the entries of `x + "," + y` are those of `x` followed by those of `y`: input order is kept and no piece is dropped except blank ones. |
| MetadataExtractor.ParseTopicsPiece | src/modules/metadata_extractor.py:139 | A comma-free piece gives exactly its stripped text, or nothing when it is blank. With the lemma above this fixes the result for every input. |
| MetadataExtractor.StrippedNonEmptyOfTopics | src/modules/metadata_extractor.py:139 | A list of topics passes the strip-and-filter step unchanged. |
| MetadataExtractor.ParseTopicsIdempotent | src/modules/metadata_extractor.py:137-139 | Parsing the `","`-join of a parsed list gives the same list. |
| MetadataExtractor.ParseTopicsOfThree | src/modules/metadata_extractor.py:139 | Three pieces with something left after stripping give the three stripped pieces, in order. |
| MetadataExtractor.ParseTopicsExample | src/modules/metadata_extractor.py:127-139 | `"SAP, BTP ,Cloud"` parses to `["SAP", "BTP", "Cloud"]`. |
| NotionPublisher.IndexOf | src/modules/notion_publisher.py:209-239 | The first occurrence of a character at or after a position, or the end. Every character before it differs. |
| NotionPublisher.IndexOfStars | src/modules/notion_publisher.py:195 | The first `**` at or after a position, or the end. |
| NotionPublisher.EnclosedAt | src/modules/notion_publisher.py:209-239 | A delimited run has non-empty text and ends two characters after its text. |
| NotionPublisher.MatchAt | src/modules/notion_publisher.py:195-249 | A marker matching at `i` starts there, gives a non-empty element, and consumes at least two characters more than the element holds. |
| NotionPublisher.LeftmostIsFirst | src/modules/notion_publisher.py:195-249 | The leftmost match of a pattern is a match, and no earlier position matches, which is the lazy `(.*?)` prefix of each regex. |
| NotionPublisher.FirstOfWellFormed | src/modules/notion_publisher.py:195-249 | The match chosen by trying bold, italic, code and link in order has a non-empty element, and its bounds lie inside the text. |
| NotionPublisher.RichTextOfMatch | src/modules/notion_publisher.py:195-249 | With a match, the elements are those of the text before it, the matched element, then those of the text after it. Both recursive calls are on strictly shorter text. |
| NotionPublisher.ParseRichText | src/modules/notion_publisher.py:185-258 | The loop with its recursion on `before` returns exactly the specification `RichTextOf`, and `""` gives `[]`. |
| NotionPublisher.NoMarkerNoPiece | src/modules/notion_publisher.py:195-249 | A text with none of `*`, `_`, backtick or `[` matches no inline pattern. |
| NotionPublisher.PlainTextIsOneElement | src/modules/notion_publisher.py:251-256 | Such a text, if non-empty, is one plain element holding the whole text. |
| NotionPublisher.RichTextWellFormed | src/modules/notion_publisher.py:185-258 | Every element is non-empty, and the elements together hold no more characters than the input. |
| NotionPublisher.DigitRunSpec | src/modules/notion_publisher.py:105 | `\d+` reads the maximal run of digits. |
| NotionPublisher.SpaceRunSpec | src/modules/notion_publisher.py:105 | `\s+` reads the maximal run of white space. |
| NotionPublisher.NumberedItemSound | src/modules/notion_publisher.py:105-107 | A numbered-item match splits the line into a marker (digits, a dot, white space) and a non-empty item text that ends the line. |
| NotionPublisher.NumberedItemComplete | src/modules/notion_publisher.py:105-107 | Every marker followed by non-empty text is a numbered item. |
| NotionPublisher.NumberedItemGreedy | src/modules/notion_publisher.py:105-107 | The greedy `\s+` leaves the item text not starting with white space, unless the text is a single character. |
| NotionPublisher.HeadingLines | src/modules/notion_publisher.py:73-84 | A non-blank line is a heading of level `n` with text `t` exactly when it is `n` hash signs, a space and `t`, for `n` from 1 to 3. |
| NotionPublisher.HeadingOfHashes | src/modules/notion_publisher.py:73-84 | Every heading recognised has the form hashes, space, text. |
| NotionPublisher.FenceLinesOpenCode | src/modules/notion_publisher.py:87-88 | A line starting with three backticks opens a code block in its stated language. |
| NotionPublisher.BlankLines | src/modules/notion_publisher.py:68-70 | A line is skipped as blank exactly when its `strip()` is empty. |
| NotionPublisher.FenceLanguageSpec | src/modules/notion_publisher.py:88 | The language is the stripped text after the fence, or `plain text` when that is empty. It is never empty. |
| NotionPublisher.FenceEnd | src/modules/notion_publisher.py:91 | The next fence line at or after a position, or the end of the input. No line in between is a fence. |
| NotionPublisher.ConvertFrom | src/modules/notion_publisher.py:64-119 | From line `i`, at most as many blocks as lines remain. |
| NotionPublisher.ConvertFence | src/modules/notion_publisher.py:87-96 | A fence line gives one code block of the lines up to the next fence, joined by newlines. Conversion resumes after the closing fence. |
| NotionPublisher.ConvertLineBlock | src/modules/notion_publisher.py:73-119 | Any other non-blank line gives exactly its own block, and conversion resumes at the next line. |
| NotionPublisher.Convert | src/modules/notion_publisher.py:51-121 | There are never more blocks than lines. |
| NotionPublisher.CollectCodeLines | src/modules/notion_publisher.py:89-93 | The inner loop collects exactly the lines up to the next fence line, or to the end, and stops there. |
| NotionPublisher.ConvertLine | src/modules/notion_publisher.py:65-119 | One pass of the outer loop strictly advances `i`. The blocks it appends, followed by the conversion of the rest, equal the conversion from the old `i`. |
| NotionPublisher.MarkdownToBlocks | src/modules/notion_publisher.py:51-121 | The loop terminates and returns exactly the specification `Convert`, with no more blocks than lines. |
| NotionPublisher.FenceFreeConversion | src/modules/notion_publisher.py:64-119 | Without fences, every non-blank line maps to exactly its own block, in order, and blank lines give none. |
| NotionPublisher.FenceFreeMarkdown | src/modules/notion_publisher.py:51-121 | The same for a whole Markdown text. |
| NotionPublisher.CodeBlockContents | src/modules/notion_publisher.py:87-183 | The code block holds the lines strictly between the fences, joined by newlines, blank lines included, as one plain element that is never parsed for markers. |
| NotionPublisher.UnterminatedFence | src/modules/notion_publisher.py:89-96 | A fence with no closing fence consumes the rest of the input into one code block. |
| GDriveWatcher.Lookup | src/modules/gdrive_watcher/watcher.py:206 | `dict.get`: the value of the first item with the key, or the default when no item has it. |
| GDriveWatcher.GetFileExtension | src/modules/gdrive_watcher/watcher.py:197-206 | The extension is always one of `.txt`, `.md`, `.docx`, `.pdf`. |
| GDriveWatcher.FileExtensionTable | src/modules/gdrive_watcher/watcher.py:197-206 | Each MIME type of `SUPPORTED_MIME_TYPES` (lines 20-25) gives its own extension, and every other type gives `.txt`. The script `src/local_test.py` keeps the same table (lines 33-38) and lookup (lines 161-163). |
| GDriveWatcher.RSplitOnceJoin | src/modules/gdrive_watcher/watcher.py:187 | `rsplit(".", 1)` gives one or two parts that join back to the name. The last part has no dot, and there are two parts exactly when the name has a dot. |
| GDriveWatcher.ProcessedNameWithDot | src/modules/gdrive_watcher/watcher.py:187-189 | With a dot, `_processed` is inserted immediately before the last dot. The copy in `src/local_test.py` at lines 150-152 is the same rule. |
| GDriveWatcher.ProcessedNameWithoutDot | src/modules/gdrive_watcher/watcher.py:190-191 | Without a dot, `_processed` is appended. The copy in `src/local_test.py` at lines 153-154 is the same rule. |
| GDriveWatcher.ProcessedNameKeepsExtension | src/modules/gdrive_watcher/watcher.py:187-189 | The text after the last dot is unchanged. |
| GDriveWatcher.ProcessedNameShape | src/modules/gdrive_watcher/watcher.py:186-191 | The new name is exactly 10 characters longer and contains `_processed`. |
| GDriveWatcher.MimeConditions | src/modules/gdrive_watcher/watcher.py:97-99 | One `mimeType='…'` condition per supported type, in the table's order. |
| GDriveWatcher.ListQueryFrame | src/modules/gdrive_watcher/watcher.py:101-106 | The query starts with the `in parents` clause of the input folder and ends with the marker exclusion. |
| GDriveWatcher.ListQueryClauses | src/modules/gdrive_watcher/watcher.py:97-106 | The query contains a `mimeType='…'` clause for every supported type and the `not name contains '<marker>'` clause. The copy in `src/local_test.py` at lines 87-98 is the same rule. |
| GDriveWatcher.ProcessedNameNotListed | src/modules/gdrive_watcher/watcher.py:97-191 | A renamed file fails the default marker clause, so the listing never returns it again. |
| GDriveWatcher.NewWatcher | src/modules/gdrive_watcher/watcher.py:31-67 | A constructed watcher has non-empty input and output folder ids. |
| GDriveWatcher.NewWatcherChecks | src/modules/gdrive_watcher/watcher.py:49-62 | Each id is the argument when non-empty, else the environment's. A missing or empty input id is reported first, then a missing or empty output id. |
| GDriveWatcher.ArgumentsWin | src/modules/gdrive_watcher/watcher.py:49-50 | Non-empty arguments are used whatever the environment holds. |
| GDriveWatcher.TargetFolderSet | src/modules/gdrive_watcher/watcher.py:162 | `upload_file` writes to `folder_id or self.output_folder_id`, and for a watcher that passed the checks of lines 52-62 that folder is never empty. |
| GDriveWatcher.NewFilesQuery | src/modules/gdrive_watcher/watcher.py:87-106 | The watcher's query starts with its input folder and ends with the marker exclusion. |
| Environment.OrEnv | src/modules/gdrive_watcher/watcher.py:49-50 | `value or os.getenv(name)`: a non-empty value wins, else the environment's. The setting is usable exactly when one of them is non-empty. |
| FileReader.PathName | src/modules/file_reader/reader.py:24 | `Path(p).name` contains no `/`. |
| FileReader.PathNameOfJoin | src/modules/file_reader/reader.py:24 | A file name after a directory and `/` is the path's name. |
| FileReader.Suffix | src/modules/file_reader/reader.py:29 | `Path.suffix` is empty, or it is a dot and at least one more character, ends the name, and has no further dot. |
| FileReader.SupportedExtensions | src/modules/file_reader/reader.py:119-125 | An extension is listed by `get_supported_extensions()` exactly when `read_file` has a reader for it. |
| FileReader.ReaderForSupported | src/modules/file_reader/reader.py:31-125 | A reader is chosen exactly for the suffixes `get_supported_extensions()` lists. |
| FileReader.WordTextLines | src/modules/file_reader/reader.py:75-76 | The Word text is the paragraphs joined by newlines. Newline-free paragraphs can be split back out of it. |
| FileReader.PdfTextSpec | src/modules/file_reader/reader.py:107-116 | The PDF text has at least 10 characters, no white space at either end, and is a piece of the joined pages. It is rejected exactly when the stripped join is shorter than 10. |
| FileReader.BlankPdfRejected | src/modules/file_reader/reader.py:107-114 | Pages with no text are rejected as not OCR-processed. |
| FileReader.ReadPdfFile | src/modules/file_reader/reader.py:100-116 | The page loop, join, strip and length check give exactly `PdfText`. |
| FileReader.MissingFileFirst | src/modules/file_reader/reader.py:26-27 | A missing path is reported as missing, before its suffix is looked at. |
| FileReader.DispatchAcceptsSupported | src/modules/file_reader/reader.py:31-114 | A suffix is rejected as unsupported exactly when it is not a supported extension, and the error names it. The only other error is a PDF without text. |
| FileReader.ReadFileAcceptsSupported | src/modules/file_reader/reader.py:24-38 | For an existing file, `read_file` rejects the format exactly when the lower-cased suffix is not in `get_supported_extensions()`. |
| FileReader.SuffixCaseIgnored | src/modules/file_reader/reader.py:29 | The suffix is compared in lower case: `a.PDF` is read as a PDF. |
| LlmProcessor.PromptFor | src/modules/llm_processor/processor.py:112-118 | A content type has a configuration exactly when the table holds it. |
| LlmProcessor.Keys | src/modules/llm_processor/processor.py:158 | The keys of the table, in the table's order. |
| LlmProcessor.PromptTable | src/modules/llm_processor/processor.py:21-69 | `blog` has budget 4096, `x_post` 512 and `linkedin` 2048, each with its template. Every other type has none. |
| LlmProcessor.ContentTypesInOrder | src/modules/llm_processor/processor.py:152-158 | `get_content_types()` is `["blog", "x_post", "linkedin"]`. |
| LlmProcessor.TokenBudgets | src/modules/llm_processor/processor.py:21-123 | The budgets are 4096, 512 and 2048, so `x_post` < `linkedin` < `blog`. |
| LlmProcessor.Format | src/modules/llm_processor/processor.py:119 | Formatting fails exactly when the template has a field other than `content`. |
| LlmProcessor.FormatAppend | src/modules/llm_processor/processor.py:119 | Formatting a concatenation of templates concatenates their results. |
| LlmProcessor.FormatOneField | src/modules/llm_processor/processor.py:21-119 | A template with its single `{content}` field formats to the text before it, the input verbatim, and the text after it. |
| LlmProcessor.NewProcessor | src/modules/llm_processor/processor.py:75-96 | Only a missing key (`None`) is looked up in the environment, and then the processor holds `ANTHROPIC_API_KEY`'s value. A given non-empty key is used as is. `""`, or a missing or empty environment key, is an error. A constructed processor has a non-empty key and the given model. |
| LlmProcessor.AcceptedContentTypes | src/modules/llm_processor/processor.py:112-158 | A request is built exactly for the types in `get_content_types()`. Every other type gets the content-type error, before any request exists. |
| LlmProcessor.BlogRequest | src/modules/llm_processor/processor.py:21-125 | The blog request uses the model, budget 4096 and the blog template around the input, which appears in it verbatim. |
| LlmProcessor.XPostRequest | src/modules/llm_processor/processor.py:37-125 | The X request uses budget 512 and the X template around the input, verbatim. |
| LlmProcessor.LinkedInRequest | src/modules/llm_processor/processor.py:52-125 | The LinkedIn request uses budget 2048 and the LinkedIn template around the input, verbatim. |
| LlmProcessor.GenerateContent | src/modules/llm_processor/processor.py:130-149 | Without a usable key (a given non-empty key, or a non-empty `ANTHROPIC_API_KEY` when none is given) the result is the key error, whatever the content type. With one, an unlisted content type gets the content-type error, and a listed one gets a request for the given model. |
| DiscordNotifier.NewNotifier | src/modules/notifier/discord.py:21-38 | The URL is the argument when it is non-empty, else the value of `DISCORD_WEBHOOK_URL`. It is accepted exactly when one of them is non-empty, and is then never empty. |
| DiscordNotifier.Take | src/modules/notifier/discord.py:75 | `s[:n]` is the prefix of length `min(len(s), n)`. |
| DiscordNotifier.TakeLast | src/modules/notifier/discord.py:101 | `s[-n:] if len(s) > n else s` is the suffix of length `min(len(s), n)`. |
| DiscordNotifier.Insert | src/modules/notifier/discord.py:84-96 | `list.insert` puts the element at the index, or at the end when the index is past it, and keeps the other elements in order around it. |
| DiscordNotifier.ErrorFieldsWithoutTrace | src/modules/notifier/discord.py:59-96 | The base fields, type, time and message, after the inserts at 0 and 1, equal the positional specification `ErrorFields`. |
| DiscordNotifier.BuildErrorPayload | src/modules/notifier/discord.py:56-110 | The payload is exactly one embed with the title, the red colour, the footer and the fields of `ErrorFields`, trace included. |
| DiscordNotifier.FieldCount | src/modules/notifier/discord.py:59-106 | There are 3 fields, plus one each for a context, a file name and a trace. |
| DiscordNotifier.FieldOrder | src/modules/notifier/discord.py:62-96 | Without a trace the names are, by case: both `[処理, 対象ファイル, エラータイプ, 発生時刻, エラーメッセージ]`; context only `[処理, エラータイプ, 発生時刻, エラーメッセージ]`; file only `[エラータイプ, 対象ファイル, 発生時刻, エラーメッセージ]`; neither the three base fields. |
| DiscordNotifier.TraceLast | src/modules/notifier/discord.py:99-106 | A trace field exists exactly when the trace is neither empty nor `NoneType: None` and a newline. It is always the last field. |
| DiscordNotifier.Truncations | src/modules/notifier/discord.py:75-104 | The message field holds the first at most 1000 characters of the message in a code block, and the trace field the last at most 1500 of the trace. |
| DiscordNotifier.NotifyError | src/modules/notifier/discord.py:163-186 | When neither the argument nor the environment gives a non-empty URL, nothing is sent and `False` is returned, and only then is the notifier not built. Otherwise `send_error` is called with exactly the error payload, on the URL the notifier was built with. |
| LocalTest.FolderIds | src/local_test.py:175-181 | The script goes on exactly when both folder ids are set and non-empty in the environment. |
| LocalTest.Splitext | src/local_test.py:258 | `os.path.splitext`: root and extension give back the name. The extension is empty, or starts with a dot and has no separator and no further dot. |
| LocalTest.SplitextOfName | src/local_test.py:258 | A component with a non-dot before its last dot loses what follows that dot. |
| LocalTest.SplitextOfDotFile | src/local_test.py:258 | A name whose only dot leads it has no extension. |
| LocalTest.JoinPathName | src/local_test.py:228 | The name of a relative file joined to any directory is the file's name. |
| LocalTest.DownloadedInputReadable | src/local_test.py:161-233 | Whatever the MIME type and directory, the downloaded file's lower-cased suffix is the table's extension, which `read_file` accepts. |
| LocalTest.UploadNames | src/local_test.py:257-280 | Each upload goes to the output folder under `splitext(name)[0] + "_" + timestamp`, followed by exactly one of `_blog.md`, `_x_post.txt`, `_linkedin.txt`. The three names differ. |
| LocalTest.PlanSound | src/local_test.py:216-285 | For one file, the input is readable and the three uploads have distinct names in the output folder. The renamed input is no longer listed. |
| LocalTest.SuccessesAll | src/local_test.py:286-303 | The successes are all files exactly when every file succeeded. |
| LocalTest.TallyResults | src/local_test.py:211-303 | The counters count the successes and the errors, together every file. There are no errors exactly when every file succeeded. |
| Strings.StripSpec | src/modules/metadata_extractor.py:139 | `strip()` removes exactly the leading and trailing white space: the result is stripped and is the middle of the input between two white-space runs. |
| Strings.StripEmptyIff | src/modules/notion_publisher.py:68 | `strip()` is empty exactly when the string is all white space. |
| Strings.JoinSplit | src/modules/notion_publisher.py:61 | Splitting at a character and joining with it gives back the string. |
| Strings.SplitJoin | src/modules/file_reader/reader.py:76 | Joining separator-free parts and splitting gives back the parts. |
| Strings.LastIndexOf | src/modules/gdrive_watcher/watcher.py:187 | The last occurrence of a character, with none after it, or none at all. |

## Left out

- The network is not modelled: Anthropic `messages.create`, the Google Drive service calls (list, download, upload, rename) and OAuth, the Notion client and `create_page`, and the Discord `_send_webhook` POST. A request, an upload and a webhook post are returned as values.
- `send_message` is not modelled, because it only posts a fixed embed through the same webhook.
- The chunk loops of the two `download_file`s are not modelled. They move bytes for the Drive client.
- File I/O is not modelled: `save_outputs`, the temporary directory, and the text decoder, python-docx and PyMuPDF. What they extract is part of `StoredFile`.
- `FileReader.ReadFile`: the `ImportError` that `_read_docx_file` and `_read_pdf_file` raise when python-docx or PyMuPDF is not installed is not modelled. `ReadError` has no such case, because the installed libraries are part of the environment, not of the file.
- The orchestration files are not part of this model: `cloud_function.py`, `content_generator.py`, `main.py`, `approval_watcher.py` and the `__init__.py` re-exports.
- The clock, the environment and the traceback are parameters: `date.today()`, `datetime.now()`, `os.getenv` after `load_dotenv`, and `traceback.format_exc()`. An exception is given by its type name and message.
- `DiscordNotifier.NotifyError`: the `True`/`False` outcome of `send_error` is not modelled. This includes a non-empty URL that urllib rejects while building or opening the request. For a URL with no scheme, `Request` raises `ValueError`, which `notify_error` also turns into `False` with nothing sent. The model returns `Post` for every non-empty URL.
- Case folding is ASCII only. This covers `re.IGNORECASE` on the file-name prefixes and `.lower()` on suffixes. Non-ASCII case pairs are not modelled.
- `\d` matches ASCII digits only. Other Unicode decimal digits are not modelled.
- `str.isspace()` and `\s` use the same set of white-space code points.
- The regular expressions of `_parse_rich_text` and the numbered-item pattern are modelled as explicit leftmost searches, not by a regex engine.
- `LlmProcessor.Format`: the templates are taken after Python's format-string parsing, as literal text and named fields. The brace escapes `{{`/`}}` and format specifications inside the template text are not modelled. The three templates have one field, `{content}`, and no other brace.
- `FileReader.PathName`: `Path(p).name` is modelled for POSIX paths by dropping empty and `.` components. Windows drive and UNC parts are not modelled.
- `FileReader.ReadFile`: existence is membership in the map of stored files. A path that names a directory is not distinguished.
- `FileReader.Suffix`: `Path.suffix` follows Python 3.12 and earlier, where a name ending in a dot has no suffix.
- `LocalTest.JoinPath` and `LocalTest.Splitext` follow `posixpath`.
- The Drive query language's `contains` is modelled as substring search, and the query's other clauses are not interpreted.
- Credentials are not modelled: the `credentials_path` setting is kept as read, and `_build_service` is not called.
- The `LLMProcessor` client object is represented by its API key.
- `notify_review` and `notify_notion_*` are not modelled. They are imported by `notifier/__init__.py` but not defined in `discord.py`.

