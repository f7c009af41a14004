/** The metadata record of one input file: filename-prefix inference, caller
    overrides layered on top, comma-separated topic parsing, and the
    front-matter block that is prepended to the generated blog article.
    The current date is a parameter (`today`), never read from a clock. */
module MetadataExtractor {
  import opened Wrappers
  import opened Strings

  /** The `{"source": …, "type": …}` pair that inference produces. */
  datatype Inferred = Inferred(source: string, contentType: string)

  /** The prefixes tried, in this order, against the bare filename. */
  const FilenamePatterns: seq<(string, Inferred)> := [
    ("meeting_", Inferred("meeting", "minutes")),
    ("interview_", Inferred("interview", "transcript")),
    ("memo_", Inferred("memo", "note")),
    ("webinar_", Inferred("webinar", "summary"))
  ]

  /** What a filename that matches no prefix is given. */
  const DefaultMetadata: Inferred := Inferred("unknown", "general")

  /** The five pairs inference can return. */
  predicate IsKnownPair(p: Inferred) {
    p == DefaultMetadata || exists k :: 0 <= k < |FilenamePatterns| && FilenamePatterns[k].1 == p
  }

  /** The record built for one input file. */
  datatype ContentMetadata = ContentMetadata(
    source: string,
    contentType: string,
    date: string,
    originalFile: string,
    topics: seq<string>)

  /** `filename.split("/")[-1].split("\\")[-1]`: the text after the last
      slash and after the last backslash. */
  function Basename(filename: string): string {
    Last(Split(Last(Split(filename, '/')), '\\'))
  }

  /** `re.match("^" + prefix, name, re.IGNORECASE)` for a prefix of lower-case
      ASCII letters and underscores, under ASCII case folding. */
  predicate MatchesPrefix(name: string, prefix: string) {
    |prefix| <= |name| && Lower(name[..|prefix|]) == prefix
  }

  /** The pair of the first pattern whose prefix matches, else the default. */
  function FirstMatch(name: string, patterns: seq<(string, Inferred)>): Inferred {
    if patterns == [] then DefaultMetadata
    else if MatchesPrefix(name, patterns[0].0) then patterns[0].1
    else FirstMatch(name, patterns[1..])
  }

  /** What `infer_metadata_from_filename` returns for `filename`. */
  function Infer(filename: string): Inferred {
    FirstMatch(Basename(filename), FilenamePatterns)
  }

  /** `infer_metadata_from_filename`: the first-match loop over the patterns
      with an early return, falling back to the default pair. */
  method InferMetadataFromFilename(filename: string) returns (r: Inferred)
    ensures r == Infer(filename)
    ensures IsKnownPair(r)
  {
    var base := Basename(filename);
    for k := 0 to |FilenamePatterns|
      invariant FirstMatch(base, FilenamePatterns[k..]) == Infer(filename)
    {
      assert FilenamePatterns[k..][1..] == FilenamePatterns[k + 1..];
      if MatchesPrefix(base, FilenamePatterns[k].0) {
        r := FilenamePatterns[k].1;
        return;
      }
    }
    r := DefaultMetadata;
  }

  /** A matching prefix fixes the case-folded first characters of the name. */
  lemma MatchesPrefixAt(name: string, prefix: string, i: int)
    requires MatchesPrefix(name, prefix) && 0 <= i < |prefix|
    ensures LowerChar(name[i]) == prefix[i]
  {
    assert Lower(name[..|prefix|])[i] == LowerChar(name[..|prefix|][i]);
  }

  /** The four prefixes exclude each other: at most one matches a name. */
  lemma PrefixesExclusive(name: string)
    ensures MatchesPrefix(name, "meeting_") ==>
              (!MatchesPrefix(name, "interview_") && !MatchesPrefix(name, "memo_")
               && !MatchesPrefix(name, "webinar_"))
    ensures MatchesPrefix(name, "interview_") ==>
              (!MatchesPrefix(name, "memo_") && !MatchesPrefix(name, "webinar_"))
    ensures MatchesPrefix(name, "memo_") ==> !MatchesPrefix(name, "webinar_")
  {
    if MatchesPrefix(name, "meeting_") {
      MatchesPrefixAt(name, "meeting_", 0);
      MatchesPrefixAt(name, "meeting_", 2);
      if MatchesPrefix(name, "memo_") { MatchesPrefixAt(name, "memo_", 2); }
      if MatchesPrefix(name, "interview_") { MatchesPrefixAt(name, "interview_", 0); }
      if MatchesPrefix(name, "webinar_") { MatchesPrefixAt(name, "webinar_", 0); }
    }
    if MatchesPrefix(name, "interview_") {
      MatchesPrefixAt(name, "interview_", 0);
      if MatchesPrefix(name, "memo_") { MatchesPrefixAt(name, "memo_", 0); }
      if MatchesPrefix(name, "webinar_") { MatchesPrefixAt(name, "webinar_", 0); }
    }
    if MatchesPrefix(name, "memo_") {
      MatchesPrefixAt(name, "memo_", 0);
      if MatchesPrefix(name, "webinar_") { MatchesPrefixAt(name, "webinar_", 0); }
    }
  }

  /** The first-match search over the table, written out pattern by pattern. */
  lemma FirstMatchUnfolded(name: string)
    ensures FirstMatch(name, FilenamePatterns)
         == if MatchesPrefix(name, "meeting_") then Inferred("meeting", "minutes")
            else if MatchesPrefix(name, "interview_") then Inferred("interview", "transcript")
            else if MatchesPrefix(name, "memo_") then Inferred("memo", "note")
            else if MatchesPrefix(name, "webinar_") then Inferred("webinar", "summary")
            else DefaultMetadata
  {
    var ps := FilenamePatterns;
    assert ps[3..] == [("webinar_", Inferred("webinar", "summary"))];
    assert FirstMatch(name, ps[3..])
        == if MatchesPrefix(name, "webinar_") then Inferred("webinar", "summary") else DefaultMetadata;
    assert ps[2..] == [("memo_", Inferred("memo", "note"))] + ps[3..];
    assert FirstMatch(name, ps[2..])
        == if MatchesPrefix(name, "memo_") then Inferred("memo", "note") else FirstMatch(name, ps[3..]);
    assert ps[1..] == [("interview_", Inferred("interview", "transcript"))] + ps[2..];
    assert FirstMatch(name, ps[1..])
        == if MatchesPrefix(name, "interview_") then Inferred("interview", "transcript")
           else FirstMatch(name, ps[2..]);
  }

  /** Each prefix yields its own pair, whatever the case of its letters, and a
      name matching none of them yields (unknown, general). The prefixes
      exclude each other, so the order of the table never decides. */
  lemma InferByPrefix(filename: string)
    ensures var b := Basename(filename);
      && (MatchesPrefix(b, "meeting_") ==> Infer(filename) == Inferred("meeting", "minutes"))
      && (MatchesPrefix(b, "interview_") ==> Infer(filename) == Inferred("interview", "transcript"))
      && (MatchesPrefix(b, "memo_") ==> Infer(filename) == Inferred("memo", "note"))
      && (MatchesPrefix(b, "webinar_") ==> Infer(filename) == Inferred("webinar", "summary"))
      && (!MatchesPrefix(b, "meeting_") && !MatchesPrefix(b, "interview_")
          && !MatchesPrefix(b, "memo_") && !MatchesPrefix(b, "webinar_")
          ==> Infer(filename) == Inferred("unknown", "general"))
  {
    FirstMatchUnfolded(Basename(filename));
    PrefixesExclusive(Basename(filename));
  }

  /** Inference never returns anything but the five known pairs. */
  lemma InferIsKnown(filename: string)
    ensures IsKnownPair(Infer(filename))
  {
    var ps := FilenamePatterns;
    FirstMatchUnfolded(Basename(filename));
    assert ps[0].1 == Inferred("meeting", "minutes") && ps[1].1 == Inferred("interview", "transcript");
    assert ps[2].1 == Inferred("memo", "note") && ps[3].1 == Inferred("webinar", "summary");
  }

  /** Appending separator-free text to a string extends only its last piece. */
  lemma {:induction false} LastSplitAppend(z: string, y: string, c: char)
    requires c !in y
    ensures |Split(z + y, c)| == |Split(z, c)|
    ensures Last(Split(z + y, c)) == Last(Split(z, c)) + y
  {
    if z == [] {
      SplitNoSep(y, c);
      assert z + y == y && Split(z, c) == [""];
    } else {
      assert (z + y)[0] == z[0] && (z + y)[1..] == z[1..] + y;
      LastSplitAppend(z[1..], y, c);
    }
  }

  /** A string ending in a separator has an empty last piece. */
  lemma LastSplitAfterSep(d: string, c: char)
    ensures Last(Split(d + [c], c)) == ""
  {
    SplitConcat(d, "", c);
    assert d + [c] + "" == d + [c];
  }

  /** The basename has no directory separator and is a suffix of the filename. */
  lemma BasenameIsBare(filename: string)
    ensures var b := Basename(filename);
      && '/' !in b && '\\' !in b
      && |b| <= |filename| && filename[|filename| - |b|..] == b
  {
    var x := Last(Split(filename, '/'));
    var b := Basename(filename);
    SplitLastSuffix(filename, '/');
    SplitLastSuffix(x, '\\');
    assert x[|x| - |b|..] == b;
    assert filename[|filename| - |x|..][|x| - |b|..] == filename[|filename| - |b|..];
    assert '/' !in x;
  }

  /** A directory prefix, ended by either separator, does not change the basename. */
  lemma BasenameAfterDirectory(d: string, sep: char, b: string)
    requires sep == '/' || sep == '\\'
    requires '/' !in b && '\\' !in b
    ensures Basename(d + [sep] + b) == b
  {
    if sep == '/' {
      LastSplitAppend(d + [sep], b, '/');
      LastSplitAfterSep(d, '/');
      assert Last(Split(d + [sep] + b, '/')) == b;
      SplitNoSep(b, '\\');
    } else {
      LastSplitAppend(d + [sep], b, '/');
      LastSplitAppend(d, [sep], '/');
      var w := Last(Split(d, '/'));
      assert Last(Split(d + [sep] + b, '/')) == w + [sep] + b;
      LastSplitAppend(w + [sep], b, '\\');
      LastSplitAfterSep(w, '\\');
    }
  }

  /** Inference looks at the bare filename only. */
  lemma InferIgnoresDirectory(d: string, sep: char, b: string)
    requires sep == '/' || sep == '\\'
    requires '/' !in b && '\\' !in b
    ensures Infer(d + [sep] + b) == Infer(b)
  {
    BasenameAfterDirectory(d, sep, b);
    BasenameAfterDirectory("", '/', b);
    assert Basename(b) == b by {
      SplitNoSep(b, '/');
      SplitNoSep(b, '\\');
    }
  }

  /** Lower-casing leaves a string without upper-case ASCII letters unchanged. */
  lemma LowerOfLowerCase(s: string)
    requires forall i :: 0 <= i < |s| ==> !('A' <= s[i] <= 'Z')
    ensures Lower(s) == s
  {
  }

  /** A caller-supplied value counts only when it is present and non-empty. */
  predicate Supplied(o: Option<string>) {
    o.Some? && o.value != ""
  }

  /** `extract_metadata`: inferred values, each overridden by a supplied
      value, today's date unless one is supplied, the bare filename, and the
      given topics (none when absent or empty). */
  function ExtractMetadata(
    filename: string,
    sourceOverride: Option<string>,
    typeOverride: Option<string>,
    topics: Option<seq<string>>,
    dateOverride: Option<string>,
    today: string): (m: ContentMetadata)
    ensures '/' !in m.originalFile && '\\' !in m.originalFile
    ensures |m.originalFile| <= |filename|
    ensures filename[|filename| - |m.originalFile|..] == m.originalFile
  {
    var inferred := Infer(filename);
    BasenameIsBare(filename);
    ContentMetadata(
      source := if Supplied(sourceOverride) then sourceOverride.value else inferred.source,
      contentType := if Supplied(typeOverride) then typeOverride.value else inferred.contentType,
      date := if Supplied(dateOverride) then dateOverride.value else today,
      originalFile := Basename(filename),
      topics := if topics.Some? && topics.value != [] then topics.value else [])
  }

  /** Each field of the record is settled on its own: a supplied override
      wins, anything else falls back to the inferred value or to today. */
  lemma OverridesLayer(
    filename: string, so: Option<string>, to: Option<string>,
    topics: Option<seq<string>>, dt: Option<string>, today: string)
    ensures var m := ExtractMetadata(filename, so, to, topics, dt, today);
      && m.source == (if so == Some("") || so == None then Infer(filename).source else so.value)
      && m.contentType == (if to == Some("") || to == None then Infer(filename).contentType else to.value)
      && m.date == (if dt == Some("") || dt == None then today else dt.value)
      && m.originalFile == Basename(filename)
  {
  }

  /** The topics are the ones supplied, or none; the filename never
      contributes any. */
  lemma TopicsFromCallerOnly(
    f1: string, f2: string, so: Option<string>, to: Option<string>,
    topics: Option<seq<string>>, dt: Option<string>, today: string)
    ensures ExtractMetadata(f1, so, to, topics, dt, today).topics
         == ExtractMetadata(f2, so, to, topics, dt, today).topics
         == (if topics.Some? then topics.value else [])
  {
  }

  /** A name without separators is its own basename. */
  lemma BasenameOfBare(f: string)
    requires '/' !in f && '\\' !in f
    ensures Basename(f) == f
  {
    SplitNoSep(f, '/');
    SplitNoSep(f, '\\');
  }

  /** A name that starts with a lower-case prefix matches it. */
  lemma MatchesOwnPrefix(prefix: string, rest: string)
    requires forall i :: 0 <= i < |prefix| ==> !('A' <= prefix[i] <= 'Z')
    ensures MatchesPrefix(prefix + rest, prefix)
  {
    assert (prefix + rest)[..|prefix|] == prefix;
    LowerOfLowerCase(prefix);
  }

  /** With no overrides a meeting file (such as `meeting_20250108.txt`) gets
      (meeting, minutes), today's date and no topics. */
  lemma MeetingFileWithoutOverrides(rest: string, today: string)
    requires '/' !in rest && '\\' !in rest
    ensures ExtractMetadata("meeting_" + rest, None, None, None, None, today)
         == ContentMetadata("meeting", "minutes", today, "meeting_" + rest, [])
  {
    var f := "meeting_" + rest;
    assert '/' !in f && '\\' !in f;
    BasenameOfBare(f);
    MatchesOwnPrefix("meeting_", rest);
    InferByPrefix(f);
  }

  /** The value types of the `to_dict` dictionary. */
  datatype DictValue = Text(text: string) | TextList(items: seq<string>)

  /** `to_dict` */
  function ToDict(m: ContentMetadata): (d: map<string, DictValue>)
    ensures d.Keys == {"source", "type", "date", "topics", "original_file"}
  {
    map[
      "source" := Text(m.source),
      "type" := Text(m.contentType),
      "date" := Text(m.date),
      "topics" := TextList(m.topics),
      "original_file" := Text(m.originalFile)]
  }

  /** Reads a record back from a dictionary of the `to_dict` shape. */
  function FromDict(d: map<string, DictValue>): Option<ContentMetadata> {
    if && "source" in d && d["source"].Text?
       && "type" in d && d["type"].Text?
       && "date" in d && d["date"].Text?
       && "topics" in d && d["topics"].TextList?
       && "original_file" in d && d["original_file"].Text?
    then Some(ContentMetadata(d["source"].text, d["type"].text, d["date"].text,
                              d["original_file"].text, d["topics"].items))
    else None
  }

  /** `to_dict` loses nothing: every field can be read back. */
  lemma DictRoundTrip(m: ContentMetadata)
    ensures FromDict(ToDict(m)) == Some(m)
  {
  }

  /** The `topics:` line: the topics joined by ", " in brackets. */
  function TopicsLine(topics: seq<string>): string {
    if topics != [] then "topics: [" + Join(topics, ", ") + "]" else "topics: []"
  }

  /** The lines of the front matter, in their fixed order; the final empty
      line makes the joined text end with a newline. */
  function FrontmatterLines(m: ContentMetadata): seq<string> {
    [ "---",
      "source: " + m.source,
      "type: " + m.contentType,
      "date: " + m.date,
      TopicsLine(m.topics),
      "original_file: " + m.originalFile,
      "---",
      "" ]
  }

  /** `to_yaml_frontmatter`: the lines joined by newlines. */
  function ToYamlFrontmatter(m: ContentMetadata): string {
    Join(FrontmatterLines(m), "\n")
  }

  /** Joining after one more part adds the separator and that part. */
  lemma {:induction false} JoinSnoc(parts: seq<string>, p: string, sep: string)
    requires |parts| >= 1
    ensures Join(parts + [p], sep) == Join(parts, sep) + sep + p
  {
    if |parts| == 1 {
      assert (parts + [p])[1..] == [p];
    } else {
      JoinSnoc(parts[1..], p, sep);
      assert (parts + [p])[1..] == parts[1..] + [p];
    }
  }

  /** The front matter starts with the delimiter line and ends with a newline. */
  lemma FrontmatterDelimited(m: ContentMetadata)
    ensures StartsWith(ToYamlFrontmatter(m), "---\n")
    ensures |ToYamlFrontmatter(m)| > 0 && ToYamlFrontmatter(m)[|ToYamlFrontmatter(m)| - 1] == '\n'
  {
    var ls := FrontmatterLines(m);
    var t := ls[..7];
    assert ls == t + [""];
    JoinSnoc(t, "", "\n");
    JoinCons("---", ls[1..], "\n");
    assert ls == ["---"] + ls[1..];
  }

  /** When no field holds a newline, splitting the front matter at newlines
      gives back exactly its lines: the fields cannot be confused. */
  lemma FrontmatterLinesRecoverable(m: ContentMetadata)
    requires '\n' !in m.source && '\n' !in m.contentType && '\n' !in m.date
    requires '\n' !in m.originalFile
    requires forall j :: 0 <= j < |m.topics| ==> '\n' !in m.topics[j]
    ensures Split(ToYamlFrontmatter(m), '\n') == FrontmatterLines(m)
  {
    if m.topics != [] {
      JoinKeepsOut(m.topics, ", ", '\n');
    }
    SplitJoin(FrontmatterLines(m), '\n');
  }

  /** A character absent from the parts and the separator is absent from the join. */
  lemma {:induction false} JoinKeepsOut(parts: seq<string>, sep: string, c: char)
    requires c !in sep
    requires forall j :: 0 <= j < |parts| ==> c !in parts[j]
    ensures c !in Join(parts, sep)
  {
    if |parts| > 1 {
      JoinKeepsOut(parts[1..], sep, c);
    }
  }

  /** The two ways `topics:` is written. */
  lemma TopicsLineExamples()
    ensures TopicsLine(["A", "B"]) == "topics: [A, B]"
    ensures TopicsLine([]) == "topics: []"
  {
    assert Join(["A", "B"], ", ") == "A, B" by {
      assert ["A", "B"][1..] == ["B"];
    }
  }

  /** `add_frontmatter_to_content`: the front matter, then the content. */
  function AddFrontmatterToContent(content: string, m: ContentMetadata): (r: string)
    ensures StartsWith(r, "---\n")
    ensures |content| <= |r| && r[|r| - |content|..] == content
    ensures r[..|r| - |content|] == ToYamlFrontmatter(m)
  {
    FrontmatterDelimited(m);
    ToYamlFrontmatter(m) + content
  }

  /** The stripped, non-empty pieces, in order. */
  function StrippedNonEmpty(pieces: seq<string>): seq<string> {
    if pieces == [] then []
    else
      var t := Strip(pieces[0]);
      if t != "" then [t] + StrippedNonEmpty(pieces[1..]) else StrippedNonEmpty(pieces[1..])
  }

  /** A topic entry as parsing leaves it: non-empty, trimmed, comma-free. */
  predicate IsTopic(t: string) {
    t != "" && Stripped(t) && ',' !in t
  }

  /** Stripping a string never brings in a character it did not have. */
  lemma StripKeepsOut(s: string, c: char)
    requires c !in s
    ensures c !in Strip(s)
  {
    StripSpec(s);
  }

  lemma {:induction false} StrippedNonEmptyAreTopics(pieces: seq<string>)
    requires forall j :: 0 <= j < |pieces| ==> ',' !in pieces[j]
    ensures forall j :: 0 <= j < |StrippedNonEmpty(pieces)| ==> IsTopic(StrippedNonEmpty(pieces)[j])
    ensures |StrippedNonEmpty(pieces)| <= |pieces|
  {
    if pieces != [] {
      StrippedNonEmptyAreTopics(pieces[1..]);
      StripKeepsOut(pieces[0], ',');
      StripSpec(pieces[0]);
    }
  }

  /** `parse_topics_string` */
  function ParseTopicsString(s: string): (r: seq<string>)
    ensures forall j :: 0 <= j < |r| ==> IsTopic(r[j])
    ensures s == "" ==> r == []
  {
    if s == "" then []
    else
      StrippedNonEmptyAreTopics(Split(s, ','));
      StrippedNonEmpty(Split(s, ','))
  }

  /** The strip-and-filter step works piece by piece. */
  lemma {:induction false} StrippedNonEmptyAppend(a: seq<string>, b: seq<string>)
    ensures StrippedNonEmpty(a + b) == StrippedNonEmpty(a) + StrippedNonEmpty(b)
  {
    if a != [] {
      assert (a + b)[0] == a[0] && (a + b)[1..] == a[1..] + b;
      StrippedNonEmptyAppend(a[1..], b);
    } else {
      assert a + b == b;
    }
  }

  /** The empty string is a special case only in form: it is the split of
      `""` into one blank piece. */
  lemma ParseTopicsOfSplit(s: string)
    ensures ParseTopicsString(s) == StrippedNonEmpty(Split(s, ','))
  {
    if s == "" {
      SplitNoSep(s, ',');
      StripEmptyIff(s);
    }
  }

  /** The entries of the text before a comma come first, those after it
      next: parsing keeps input order and drops nothing but blank pieces. */
  lemma ParseTopicsConcat(x: string, y: string)
    ensures ParseTopicsString(x + [','] + y) == ParseTopicsString(x) + ParseTopicsString(y)
  {
    SplitConcat(x, y, ',');
    StrippedNonEmptyAppend(Split(x, ','), Split(y, ','));
    ParseTopicsOfSplit(x + [','] + y);
    ParseTopicsOfSplit(x);
    ParseTopicsOfSplit(y);
  }

  /** A comma-free piece gives its stripped text, or nothing when it is
      blank. */
  lemma ParseTopicsPiece(p: string)
    requires ',' !in p
    ensures ParseTopicsString(p) == if Strip(p) == "" then [] else [Strip(p)]
  {
    SplitNoSep(p, ',');
    ParseTopicsOfSplit(p);
    assert [p][1..] == [];
  }

  /** Pieces that are already topics pass through unchanged. */
  lemma {:induction false} StrippedNonEmptyOfTopics(ts: seq<string>)
    requires forall j :: 0 <= j < |ts| ==> IsTopic(ts[j])
    ensures StrippedNonEmpty(ts) == ts
  {
    if ts != [] {
      StripStripped(ts[0]);
      StrippedNonEmptyOfTopics(ts[1..]);
    }
  }

  /** Writing the parsed topics back with commas and parsing again gives the
      same list. */
  lemma ParseTopicsIdempotent(s: string)
    ensures ParseTopicsString(Join(ParseTopicsString(s), ",")) == ParseTopicsString(s)
  {
    var ts := ParseTopicsString(s);
    if ts != [] {
      SplitJoin(ts, ',');
      StrippedNonEmptyOfTopics(ts);
      assert Join(ts, ",") != "" by {
        assert |ts| == 1 || Join(ts, ",") == ts[0] + "," + Join(ts[1..], ",");
      }
    }
  }

  lemma SplitExampleTail(s: string)
    requires s == " BTP " + [','] + "Cloud"
    ensures Split(s, ',') == [" BTP ", "Cloud"]
  {
    SplitConcat(" BTP ", "Cloud", ',');
    SplitNoSep(" BTP ", ',');
    SplitNoSep("Cloud", ',');
  }

  lemma SplitExampleHead(y: string)
    ensures Split("SAP" + [','] + y, ',') == ["SAP"] + Split(y, ',')
  {
    SplitConcat("SAP", y, ',');
    SplitNoSep("SAP", ',');
  }

  lemma SplitExample()
    ensures Split("SAP, BTP ,Cloud", ',') == ["SAP", " BTP ", "Cloud"]
  {
    var y := " BTP " + [','] + "Cloud";
    SplitExampleTail(y);
    SplitExampleHead(y);
    assert "SAP" + [','] + y == "SAP, BTP ,Cloud";
  }

  lemma StrippedNonEmptyOfThree(a: string, b: string, c: string)
    requires Strip(a) != "" && Strip(b) != "" && Strip(c) != ""
    ensures StrippedNonEmpty([a, b, c]) == [Strip(a), Strip(b), Strip(c)]
  {
    var ps := [a, b, c];
    assert ps[1..] == [b, c] && ps[1..][1..] == [c] && ps[1..][1..][1..] == [];
    assert StrippedNonEmpty([c]) == [Strip(c)];
    assert StrippedNonEmpty([b, c]) == [Strip(b), Strip(c)];
  }

  /** A string that splits into three pieces with something left after
      stripping each parses into the three stripped pieces. */
  lemma ParseTopicsOfThree(s: string, a: string, b: string, c: string)
    requires Split(s, ',') == [a, b, c]
    requires Strip(a) != "" && Strip(b) != "" && Strip(c) != ""
    ensures ParseTopicsString(s) == [Strip(a), Strip(b), Strip(c)]
  {
    assert s != "" by { assert Split("", ',') == [""]; }
    StrippedNonEmptyOfThree(a, b, c);
  }

  lemma StripExample()
    ensures Strip("SAP") == "SAP" && Strip(" BTP ") == "BTP" && Strip("Cloud") == "Cloud"
  {
    StripStripped("SAP");
    StripStripped("Cloud");
    assert TrimLeft(" BTP ") == "BTP ";
    assert TrimRight("BTP ") == "BTP";
  }

  /** Entries are trimmed and empty entries dropped. */
  lemma ParseTopicsExample()
    ensures ParseTopicsString("SAP, BTP ,Cloud") == ["SAP", "BTP", "Cloud"]
  {
    SplitExample();
    StripExample();
    ParseTopicsOfThree("SAP, BTP ,Cloud", "SAP", " BTP ", "Cloud");
  }
}
