/** The Markdown to Notion block converter: a line-oriented pass over the
    text that yields heading, paragraph, list, quote and code blocks, and the
    inline splitter that turns `**bold**`, `*italic*`/`_italic_`, `` `code` ``
    and `[text](url)` into rich-text elements. The regular expressions of the
    splitter are written out as searches for the leftmost place where each
    pattern matches. */
module NotionPublisher {
  import opened Wrappers
  import opened Strings

  // ---------------------------------------------------------------------
  // Rich text
  // ---------------------------------------------------------------------

  /** One rich-text element: plain text, text carrying one annotation, or a
      link with its URL. */
  datatype RichText =
    | Plain(content: string)
    | Bold(content: string)
    | Italic(content: string)
    | InlineCode(content: string)
    | Link(content: string, url: string)

  /** The four inline patterns, in the order the splitter tries them. */
  datatype Marker = BoldMarker | ItalicMarker | CodeMarker | LinkMarker

  /** A match of an inline pattern: the text before it is `s[..start]`, the
      text after it `s[end..]`. */
  datatype Piece = Piece(start: nat, element: RichText, end: nat)

  /** Characters of an element that come from the input. */
  function Width(e: RichText): nat {
    if e.Link? then |e.content| + |e.url| else |e.content|
  }

  function TotalWidth(es: seq<RichText>): nat {
    if es == [] then 0 else Width(es[0]) + TotalWidth(es[1..])
  }

  /** An element with non-empty text (and a non-empty URL for links). */
  predicate NonEmptyElement(e: RichText) {
    e.content != "" && (e.Link? ==> e.url != "")
  }

  /** The first index at or after `from` holding `c`, or `|s|`. */
  function IndexOf(s: string, c: char, from: nat): (j: nat)
    requires from <= |s|
    ensures from <= j <= |s|
    ensures j < |s| ==> s[j] == c
    ensures forall k :: from <= k < j ==> s[k] != c
    decreases |s| - from
  {
    if from == |s| || s[from] == c then from else IndexOf(s, c, from + 1)
  }

  /** `**` starts at index `k`. */
  predicate StarsAt(s: string, k: int) {
    0 <= k && k + 1 < |s| && s[k] == '*' && s[k + 1] == '*'
  }

  /** The first index at or after `from` where `**` starts, or `|s|`. */
  function IndexOfStars(s: string, from: nat): (j: nat)
    requires from <= |s|
    ensures from <= j <= |s|
    ensures j < |s| ==> StarsAt(s, j)
    ensures forall k :: from <= k < j ==> !StarsAt(s, k)
    decreases |s| - from
  {
    if from == |s| || StarsAt(s, from) then from else IndexOfStars(s, from + 1)
  }

  /** `c([^c]+)c` at index `i`: the enclosed text and the index after the
      closing `c`. The class excludes `c`, so the closing `c` is the first
      one after `i`. */
  function EnclosedAt(s: string, i: nat, c: char): (r: Option<(string, nat)>)
    requires i < |s|
    ensures r.Some? ==> r.value.0 != "" && |r.value.0| + 2 == r.value.1 - i && r.value.1 <= |s|
  {
    if s[i] != c then None
    else
      var j := IndexOf(s, c, i + 1);
      if i + 1 < j < |s| then Some((s[i + 1..j], j + 1)) else None
  }

  /** Whether the part of pattern `m` after its leading `(.*?)` matches at
      index `i`, and what it captures there. For bold, `(.+?)` is lazy, so the
      closing `**` is the first one that leaves at least one character; the
      trailing `(.*)$` matches anything, since `re.DOTALL` is set. */
  function MatchAt(m: Marker, s: string, i: nat): (r: Option<Piece>)
    requires i < |s|
    ensures r.Some? ==> r.value.start == i && i < r.value.end <= |s|
    ensures r.Some? ==> NonEmptyElement(r.value.element)
    ensures r.Some? ==> Width(r.value.element) + 2 <= r.value.end - i
  {
    match m
    case BoldMarker =>
      if StarsAt(s, i) && i + 3 <= |s| then
        var j := IndexOfStars(s, i + 3);
        if j < |s| then Some(Piece(i, Bold(s[i + 2..j]), j + 2)) else None
      else None
    case ItalicMarker =>
      var star := EnclosedAt(s, i, '*');
      if star.Some? then Some(Piece(i, Italic(star.value.0), star.value.1))
      else
        var under := EnclosedAt(s, i, '_');
        if under.Some? then Some(Piece(i, Italic(under.value.0), under.value.1)) else None
    case CodeMarker =>
      var tick := EnclosedAt(s, i, '`');
      if tick.Some? then Some(Piece(i, InlineCode(tick.value.0), tick.value.1)) else None
    case LinkMarker =>
      if s[i] != '[' then None
      else
        var j := IndexOf(s, ']', i + 1);
        if i + 1 < j && j + 1 < |s| && s[j + 1] == '(' then
          var k := IndexOf(s, ')', j + 2);
          if j + 2 < k < |s| then Some(Piece(i, Link(s[i + 1..j], s[j + 2..k]), k + 1)) else None
        else None
  }

  /** `re.match("^(.*?)" + pattern, s)` searched from index `i`: the lazy
      `(.*?)` makes the match start at the first index where the rest of the
      pattern matches. */
  function Leftmost(m: Marker, s: string, i: nat): (r: Option<Piece>)
    requires i <= |s|
    ensures r.Some? ==> i <= r.value.start < r.value.end <= |s|
    decreases |s| - i
  {
    if i == |s| then None
    else if MatchAt(m, s, i).Some? then MatchAt(m, s, i)
    else Leftmost(m, s, i + 1)
  }

  /** The search finds the first index where the pattern matches, and what
      it returns is the match there. */
  lemma {:induction false} LeftmostIsFirst(m: Marker, s: string, i: nat)
    requires i <= |s|
    decreases |s| - i
    ensures var r := Leftmost(m, s, i);
      && (r.Some? ==> MatchAt(m, s, r.value.start) == r)
      && (forall k :: i <= k < (if r.Some? then r.value.start else |s|) ==> MatchAt(m, s, k).None?)
  {
    if i < |s| && MatchAt(m, s, i).None? {
      LeftmostIsFirst(m, s, i + 1);
    }
  }

  /** The match one turn of the splitter's loop uses: bold if bold matches
      anywhere, else italic, else inline code, else a link. */
  function NextPiece(s: string): (r: Option<Piece>)
    ensures r.Some? ==> r.value.start < r.value.end <= |s|
  {
    FirstOf(s, [BoldMarker, ItalicMarker, CodeMarker, LinkMarker])
  }

  /** The match of the first pattern in `ms` that matches anywhere in `s`. */
  function FirstOf(s: string, ms: seq<Marker>): (r: Option<Piece>)
    ensures r.Some? ==> r.value.start < r.value.end <= |s|
  {
    if ms == [] then None
    else
      var p := Leftmost(ms[0], s, 0);
      if p.Some? then p else FirstOf(s, ms[1..])
  }

  /** A match found by the search is non-empty and drops at least two
      marker characters. */
  lemma {:induction false} FirstOfWellFormed(s: string, ms: seq<Marker>)
    ensures var r := FirstOf(s, ms);
      r.Some? ==> NonEmptyElement(r.value.element) && Width(r.value.element) + 2 <= r.value.end - r.value.start
  {
    if ms != [] {
      if Leftmost(ms[0], s, 0).Some? {
        LeftmostIsFirst(ms[0], s, 0);
      } else {
        FirstOfWellFormed(s, ms[1..]);
      }
    }
  }

  /** What `_parse_rich_text` returns: the elements of the text before the
      match (parsed recursively), the matched element, then the elements of
      the text after it; text with no match is one plain element. */
  function RichTextOf(s: string): seq<RichText>
    decreases |s|
  {
    if s == [] then []
    else
      match NextPiece(s)
      case None => [Plain(s)]
      case Some(p) => RichTextOf(s[..p.start]) + [p.element] + RichTextOf(s[p.end..])
  }

  /** One turn of the splitter: the match splits the text in three. */
  lemma RichTextOfMatch(s: string, p: Piece)
    requires s != [] && NextPiece(s) == Some(p)
    ensures p.start < p.end <= |s|
    ensures RichTextOf(s) == RichTextOf(s[..p.start]) + [p.element] + RichTextOf(s[p.end..])
  {
  }

  /** `_parse_rich_text`: the loop over `remaining`, with the recursive call
      on the text before each match. The four pattern branches of one turn,
      tried in order, are `NextPiece`. */
  method ParseRichText(text: string) returns (richText: seq<RichText>)
    ensures richText == RichTextOf(text)
    ensures text == "" ==> richText == []
    decreases |text|
  {
    richText := [];
    var remaining := text;
    while remaining != []
      invariant |remaining| <= |text|
      invariant richText + RichTextOf(remaining) == RichTextOf(text)
      decreases |remaining|
    {
      var piece := NextPiece(remaining);
      if piece.Some? {
        RichTextOfMatch(remaining, piece.value);
        var before := remaining[..piece.value.start];
        ghost var done := richText;
        if before != [] {
          var inner := ParseRichText(before);
          richText := richText + inner;
        }
        assert richText == done + RichTextOf(before);
        var after := remaining[piece.value.end..];
        assert richText + [piece.value.element] + RichTextOf(after) == done + RichTextOf(remaining);
        richText := richText + [piece.value.element];
        remaining := after;
      } else {
        assert RichTextOf(remaining) == [Plain(remaining)];
        richText := richText + [Plain(remaining)];
        break;
      }
    }
  }

  /** Text without any of the marker characters holds no match. */
  lemma {:induction false} NoMarkerNoMatch(m: Marker, s: string, i: nat)
    requires i <= |s|
    requires '*' !in s && '_' !in s && '`' !in s && '[' !in s
    ensures Leftmost(m, s, i) == None
    decreases |s| - i
  {
    if i < |s| {
      NoMarkerNoMatch(m, s, i + 1);
    }
  }

  lemma {:induction false} NoMarkerNoPiece(s: string, ms: seq<Marker>)
    requires '*' !in s && '_' !in s && '`' !in s && '[' !in s
    ensures FirstOf(s, ms) == None
  {
    if ms != [] {
      NoMarkerNoMatch(ms[0], s, 0);
      NoMarkerNoPiece(s, ms[1..]);
    }
  }

  /** Text containing none of `*`, `_`, backtick and `[` becomes one plain
      element holding all of it. */
  lemma PlainTextIsOneElement(s: string)
    requires s != ""
    requires '*' !in s && '_' !in s && '`' !in s && '[' !in s
    ensures RichTextOf(s) == [Plain(s)]
  {
    NoMarkerNoPiece(s, [BoldMarker, ItalicMarker, CodeMarker, LinkMarker]);
  }

  lemma {:induction false} TotalWidthAppend(a: seq<RichText>, b: seq<RichText>)
    ensures TotalWidth(a + b) == TotalWidth(a) + TotalWidth(b)
  {
    if a == [] {
      assert a + b == b;
    } else {
      assert (a + b)[1..] == a[1..] + b;
      TotalWidthAppend(a[1..], b);
    }
  }

  /** Every element has non-empty text, and the elements together hold no
      more characters than the input: markers are dropped, nothing is added. */
  lemma {:induction false} RichTextWellFormed(s: string)
    ensures forall j :: 0 <= j < |RichTextOf(s)| ==> NonEmptyElement(RichTextOf(s)[j])
    ensures TotalWidth(RichTextOf(s)) <= |s|
    decreases |s|
  {
    if s != [] {
      match NextPiece(s)
      case None =>
        assert RichTextOf(s) == [Plain(s)];
        assert TotalWidth([Plain(s)]) == |s| + TotalWidth([]);
      case Some(p) =>
        FirstOfWellFormed(s, [BoldMarker, ItalicMarker, CodeMarker, LinkMarker]);
        var before := RichTextOf(s[..p.start]);
        var after := RichTextOf(s[p.end..]);
        RichTextWellFormed(s[..p.start]);
        RichTextWellFormed(s[p.end..]);
        assert RichTextOf(s) == before + [p.element] + after;
        TotalWidthAppend(before + [p.element], after);
        TotalWidthAppend(before, [p.element]);
        assert TotalWidth([p.element]) == Width(p.element) + TotalWidth([]);
    }
  }

  // ---------------------------------------------------------------------
  // Blocks
  // ---------------------------------------------------------------------

  /** A Notion block: the three heading levels, paragraph, the two list
      items, quote, and code with its language. */
  datatype Block =
    | Heading(level: int, richText: seq<RichText>)
    | Paragraph(richText: seq<RichText>)
    | BulletedListItem(richText: seq<RichText>)
    | NumberedListItem(richText: seq<RichText>)
    | Quote(richText: seq<RichText>)
    | Code(richText: seq<RichText>, language: string)

  /** `_create_heading_block`: the block of type `heading_<level>`. */
  function CreateHeadingBlock(text: string, level: int): Block {
    Heading(level, RichTextOf(text))
  }

  /** `_create_paragraph_block` */
  function CreateParagraphBlock(text: string): Block {
    Paragraph(RichTextOf(text))
  }

  /** `_create_bulleted_list_block` */
  function CreateBulletedListBlock(text: string): Block {
    BulletedListItem(RichTextOf(text))
  }

  /** `_create_numbered_list_block` */
  function CreateNumberedListBlock(text: string): Block {
    NumberedListItem(RichTextOf(text))
  }

  /** `_create_quote_block` */
  function CreateQuoteBlock(text: string): Block {
    Quote(RichTextOf(text))
  }

  /** `_create_code_block`: the code is one plain element, never parsed for
      inline markers. */
  function CreateCodeBlock(code: string, language: string): Block {
    Code([Plain(code)], language)
  }

  // ---------------------------------------------------------------------
  // Numbered list items: the pattern `^\d+\.\s+(.+)$`
  // ---------------------------------------------------------------------

  predicate IsDigit(c: char) {
    '0' <= c <= '9'
  }

  /** The number of digits starting at index `k`. */
  function DigitRun(s: string, k: nat): (n: nat)
    requires k <= |s|
    ensures k + n <= |s|
    decreases |s| - k
  {
    if k < |s| && IsDigit(s[k]) then 1 + DigitRun(s, k + 1) else 0
  }

  /** The number of white-space characters starting at index `k`. */
  function SpaceRun(s: string, k: nat): (n: nat)
    requires k <= |s|
    ensures k + n <= |s|
    decreases |s| - k
  {
    if k < |s| && IsSpace(s[k]) then 1 + SpaceRun(s, k + 1) else 0
  }

  lemma {:induction false} DigitRunSpec(s: string, k: nat)
    requires k <= |s|
    ensures forall m :: k <= m < k + DigitRun(s, k) ==> IsDigit(s[m])
    ensures k + DigitRun(s, k) == |s| || !IsDigit(s[k + DigitRun(s, k)])
    decreases |s| - k
  {
    if k < |s| && IsDigit(s[k]) {
      DigitRunSpec(s, k + 1);
    }
  }

  lemma {:induction false} SpaceRunSpec(s: string, k: nat)
    requires k <= |s|
    ensures forall m :: k <= m < k + SpaceRun(s, k) ==> IsSpace(s[m])
    ensures k + SpaceRun(s, k) == |s| || !IsSpace(s[k + SpaceRun(s, k)])
    decreases |s| - k
  {
    if k < |s| && IsSpace(s[k]) {
      SpaceRunSpec(s, k + 1);
    }
  }

  /** A run of at least `n` white-space characters from `k` is counted in full. */
  lemma {:induction false} SpaceRunAtLeast(s: string, k: nat, n: nat)
    requires k + n <= |s|
    requires forall m :: k <= m < k + n ==> IsSpace(s[m])
    ensures SpaceRun(s, k) >= n
    decreases n
  {
    if n > 0 {
      SpaceRunAtLeast(s, k + 1, n - 1);
    }
  }

  /** A run of digits from 0 ended by a non-digit is counted exactly. */
  lemma {:induction false} DigitRunExact(s: string, k: nat, d: nat)
    requires k <= d < |s|
    requires forall m :: k <= m < d ==> IsDigit(s[m])
    requires !IsDigit(s[d])
    ensures DigitRun(s, k) == d - k
    decreases d - k
  {
    if k < d {
      DigitRunExact(s, k + 1, d);
    }
  }

  /** The text a numbered-list line carries: digits, a dot, white space, and
      at least one more character. `\s+` is greedy, so the text starts after
      all of the white space, unless that leaves nothing; then `\s+` gives
      back one character and the text is the final white-space character.
      Lines never hold a newline, which `.` would not match. */
  function NumberedItem(line: string): Option<string> {
    var d := DigitRun(line, 0);
    if d == 0 || d >= |line| || line[d] != '.' then None
    else
      var w := SpaceRun(line, d + 1);
      if w == 0 then None
      else if d + 1 + w < |line| then Some(line[d + 1 + w..])
      else if w >= 2 then Some(line[|line| - 1..])
      else None
  }

  /** The leading part `\d+\.\s+` of a numbered item. */
  predicate NumberMarker(p: string) {
    exists d :: 1 <= d && d + 2 <= |p| && p[d] == '.'
      && (forall m :: 0 <= m < d ==> IsDigit(p[m]))
      && (forall m :: d + 1 <= m < |p| ==> IsSpace(p[m]))
  }

  /** What the pattern captures is a non-empty end of the line, and what comes
      before it is a number, a dot and white space. */
  lemma NumberedItemSound(line: string)
    requires NumberedItem(line).Some?
    ensures var t := NumberedItem(line).value;
      && t != "" && |t| < |line| && line[|line| - |t|..] == t
      && NumberMarker(line[..|line| - |t|])
  {
    var d := DigitRun(line, 0);
    DigitRunSpec(line, 0);
    SpaceRunSpec(line, d + 1);
    var t := NumberedItem(line).value;
    var p := line[..|line| - |t|];
    assert p[d] == '.';
    assert forall m :: 0 <= m < d ==> IsDigit(p[m]);
    assert forall m :: d + 1 <= m < |p| ==> IsSpace(p[m]);
  }

  /** Every line of the form number, dot, white space, text is recognised. */
  lemma NumberedItemComplete(p: string, t: string)
    requires NumberMarker(p) && t != ""
    ensures NumberedItem(p + t).Some?
  {
    var line := p + t;
    var d :| 1 <= d && d + 2 <= |p| && p[d] == '.'
      && (forall m :: 0 <= m < d ==> IsDigit(p[m]))
      && (forall m :: d + 1 <= m < |p| ==> IsSpace(p[m]));
    assert line[d] == '.';
    DigitRunExact(line, 0, d);
    SpaceRunAtLeast(line, d + 1, |p| - d - 1);
    SpaceRunSpec(line, d + 1);
  }

  /** The captured text starts after all the white space unless it is a
      single character. */
  lemma NumberedItemGreedy(line: string)
    requires NumberedItem(line).Some? && |NumberedItem(line).value| >= 2
    ensures !IsSpace(NumberedItem(line).value[0])
  {
    var d := DigitRun(line, 0);
    SpaceRunSpec(line, d + 1);
  }

  // ---------------------------------------------------------------------
  // Lines
  // ---------------------------------------------------------------------

  /** What one line of the input is, in the order the converter asks. */
  datatype LineKind =
    | BlankLine
    | HeadingLine(level: int, text: string)
    | FenceLine(language: string)
    | BulletLine(text: string)
    | NumberedLine(text: string)
    | QuoteLine(text: string)
    | ParagraphLine(text: string)

  /** `line[3:].strip() or "plain text"`; the strip is empty exactly when
      the rest is white space (`FenceLanguageSpec`). */
  function FenceLanguage(line: string): string
    requires |line| >= 3
  {
    if AllSpace(line[3..]) then "plain text" else Strip(line[3..])
  }

  /** A line starting with a code fence. */
  predicate IsFence(line: string) {
    StartsWith(line, "```")
  }

  /** The level and text of a heading line, longest marker first. */
  function HeadingOf(line: string): Option<(int, string)> {
    if StartsWith(line, "### ") then Some((3, line[4..]))
    else if StartsWith(line, "## ") then Some((2, line[3..]))
    else if StartsWith(line, "# ") then Some((1, line[2..]))
    else None
  }

  /** How the converter treats a line: blank first (`not line.strip()`, which
      holds for the all-white-space lines, `BlankLines`), then the headings
      (longest marker first), the fence, bullets, numbered items, quotes,
      and anything else as a paragraph. */
  function ClassifyLine(line: string): LineKind {
    if AllSpace(line) then BlankLine
    else if HeadingOf(line).Some? then HeadingLine(HeadingOf(line).value.0, HeadingOf(line).value.1)
    else if IsFence(line) then FenceLine(FenceLanguage(line))
    else if StartsWith(line, "- ") || StartsWith(line, "* ") then BulletLine(line[2..])
    else if NumberedItem(line).Some? then NumberedLine(NumberedItem(line).value)
    else if StartsWith(line, "> ") then QuoteLine(line[2..])
    else ParagraphLine(line)
  }

  /** `n` hash signs. */
  function Hashes(n: nat): string {
    if n == 0 then "" else "#" + Hashes(n - 1)
  }

  /** A non-blank line is a heading of level `n` exactly when it is `n` hash
      signs, a space and the heading text, for `n` from 1 to 3. */
  lemma HeadingLines(line: string, n: int, t: string)
    requires !AllSpace(line)
    ensures ClassifyLine(line) == HeadingLine(n, t)
        <==> (1 <= n <= 3 && line == Hashes(n) + " " + t)
  {
    if 1 <= n <= 3 && line == Hashes(n) + " " + t {
      HeadingFromHashes(line, n, t);
    }
    if ClassifyLine(line) == HeadingLine(n, t) {
      HeadingHasHashes(line, n, t);
    }
  }

  lemma HeadingFromHashes(line: string, n: int, t: string)
    requires !AllSpace(line)
    requires 1 <= n <= 3 && line == Hashes(n) + " " + t
    ensures ClassifyLine(line) == HeadingLine(n, t)
  {
    assert Hashes(3) == "###" && Hashes(2) == "##" && Hashes(1) == "#";
    assert line[..n + 1] == Hashes(n) + " ";
    assert line[n + 1..] == t;
    if n == 1 {
      assert line[1] == ' ';
    } else if n == 2 {
      assert line[2] == ' ';
    }
  }

  lemma HeadingHasHashes(line: string, n: int, t: string)
    requires ClassifyLine(line) == HeadingLine(n, t)
    ensures 1 <= n <= 3 && line == Hashes(n) + " " + t
  {
    assert HeadingOf(line) == Some((n, t));
    HeadingOfHashes(line);
  }

  /** What `HeadingOf` recognises is hash signs, a space and the text. */
  lemma HeadingOfHashes(line: string)
    requires HeadingOf(line).Some?
    ensures var (n, t) := HeadingOf(line).value;
      1 <= n <= 3 && line == Hashes(n) + " " + t
  {
    var (n, t) := HeadingOf(line).value;
    assert Hashes(n) + " " == line[..n + 1] by {
      assert Hashes(3) == "###" && Hashes(2) == "##" && Hashes(1) == "#";
    }
    assert line == line[..n + 1] + line[n + 1..];
  }

  /** A code fence always opens a code block, whatever follows it. */
  lemma FenceLinesOpenCode(line: string)
    requires IsFence(line)
    ensures ClassifyLine(line) == FenceLine(FenceLanguage(line))
  {
    assert line[0] == '`';
  }

  /** A line counts as blank exactly when `strip()` leaves nothing of it. */
  lemma BlankLines(line: string)
    ensures ClassifyLine(line) == BlankLine <==> Strip(line) == ""
  {
    StripEmptyIff(line);
  }

  /** The language is the text after the fence, trimmed, or "plain text". */
  lemma FenceLanguageSpec(line: string)
    requires |line| >= 3
    ensures FenceLanguage(line) != ""
    ensures Stripped(FenceLanguage(line))
    ensures AllSpace(line[3..]) ==> FenceLanguage(line) == "plain text"
    ensures FenceLanguage(line) == if Strip(line[3..]) != "" then Strip(line[3..]) else "plain text"
  {
    StripSpec(line[3..]);
    StripEmptyIff(line[3..]);
  }

  /** The classification of every line. */
  function Classify(lines: seq<string>): seq<LineKind> {
    seq(|lines|, k requires 0 <= k < |lines| => ClassifyLine(lines[k]))
  }

  /** The block of a line that is neither blank nor a fence. */
  function LineBlock(kind: LineKind): Block
    requires !kind.BlankLine? && !kind.FenceLine?
  {
    match kind
    case HeadingLine(level, text) => CreateHeadingBlock(text, level)
    case BulletLine(text) => CreateBulletedListBlock(text)
    case NumberedLine(text) => CreateNumberedListBlock(text)
    case QuoteLine(text) => CreateQuoteBlock(text)
    case ParagraphLine(text) => CreateParagraphBlock(text)
  }

  /** The index of the first fence line at or after `k`, or `|lines|`. */
  function FenceEnd(lines: seq<string>, k: nat): (j: nat)
    requires k <= |lines|
    ensures k <= j <= |lines|
    ensures j < |lines| ==> IsFence(lines[j])
    ensures forall m :: k <= m < j ==> !IsFence(lines[m])
    decreases |lines| - k
  {
    if k == |lines| || IsFence(lines[k]) then k else FenceEnd(lines, k + 1)
  }

  /** What `markdown_to_notion_blocks` produces from line `i` on, given the
      classification `kinds` of the lines. A fence takes every line up to the
      next line starting with a fence, or to the end when there is none; the
      closing fence itself is skipped. Each line gives at most one block. */
  function ConvertFrom(lines: seq<string>, kinds: seq<LineKind>, i: nat): (r: seq<Block>)
    requires |kinds| == |lines|
    ensures i <= |lines| ==> |r| <= |lines| - i
    decreases |lines| - i
  {
    if i >= |lines| then []
    else if kinds[i].BlankLine? then ConvertFrom(lines, kinds, i + 1)
    else if kinds[i].FenceLine? then
      var j := FenceEnd(lines, i + 1);
      [CreateCodeBlock(Join(lines[i + 1..j], "\n"), kinds[i].language)] + ConvertFrom(lines, kinds, j + 1)
    else [LineBlock(kinds[i])] + ConvertFrom(lines, kinds, i + 1)
  }

  /** The classification of a fence line. */
  lemma ClassifyFence(lines: seq<string>, i: nat)
    requires i < |lines| && IsFence(lines[i])
    ensures Classify(lines)[i] == FenceLine(FenceLanguage(lines[i]))
  {
    FenceLinesOpenCode(lines[i]);
  }

  /** The conversion at a line classified as a fence. */
  lemma ConvertFence(lines: seq<string>, kinds: seq<LineKind>, i: nat)
    requires |kinds| == |lines| && i < |lines| && kinds[i].FenceLine?
    ensures var j := FenceEnd(lines, i + 1);
      ConvertFrom(lines, kinds, i)
      == [CreateCodeBlock(Join(lines[i + 1..j], "\n"), kinds[i].language)] + ConvertFrom(lines, kinds, j + 1)
  {
  }

  /** The conversion at a line that is neither blank nor a fence. */
  lemma ConvertLineBlock(lines: seq<string>, kinds: seq<LineKind>, i: nat)
    requires |kinds| == |lines| && i < |lines| && !kinds[i].BlankLine? && !kinds[i].FenceLine?
    ensures ConvertFrom(lines, kinds, i) == [LineBlock(kinds[i])] + ConvertFrom(lines, kinds, i + 1)
  {
  }

  /** The blocks of a whole Markdown text. */
  function Convert(markdown: string): (blocks: seq<Block>)
    ensures |blocks| <= |Split(markdown, '\n')|
  {
    var lines := Split(markdown, '\n');
    ConvertFrom(lines, Classify(lines), 0)
  }

  /** The nested loop of `markdown_to_notion_blocks`: the lines from `start`
      up to the next fence line, and the index of that line. */
  method CollectCodeLines(lines: seq<string>, start: nat) returns (codeLines: seq<string>, i: nat)
    requires start <= |lines|
    ensures i == FenceEnd(lines, start)
    ensures codeLines == lines[start..i]
  {
    codeLines := [];
    i := start;
    while i < |lines| && !StartsWith(lines[i], "```")
      invariant start <= i <= |lines|
      invariant codeLines == lines[start..i]
      invariant FenceEnd(lines, start) == FenceEnd(lines, i)
    {
      codeLines := codeLines + [lines[i]];
      i := i + 1;
    }
  }

  /** The body of the loop of `markdown_to_notion_blocks` at line `i`: a
      blank line gives nothing, a fence gives the code block of the lines up
      to the closing fence (`CollectCodeLines`) and moves past that fence, any
      other line gives its one block. The chain of tests on the line is
      `ClassifyLine`. */
  method ConvertLine(lines: seq<string>, i: nat) returns (produced: seq<Block>, next: nat)
    requires i < |lines|
    ensures i < next <= |lines| + 1
    ensures produced + ConvertFrom(lines, Classify(lines), next) == ConvertFrom(lines, Classify(lines), i)
  {
    ghost var kinds := Classify(lines);
    var kind := ClassifyLine(lines[i]);
    assert kind == kinds[i];
    if kind.BlankLine? {
      produced, next := [], i + 1;
    } else if kind.FenceLine? {
      var codeLines, close := CollectCodeLines(lines, i + 1);
      produced, next := [CreateCodeBlock(Join(codeLines, "\n"), kind.language)], close + 1;
      ConvertFence(lines, kinds, i);
    } else {
      produced, next := [LineBlock(kind)], i + 1;
      ConvertLineBlock(lines, kinds, i);
    }
  }

  /** `markdown_to_notion_blocks`: the loop over the lines with index `i`,
      appending what each step produces. */
  method MarkdownToBlocks(markdown: string) returns (blocks: seq<Block>)
    ensures blocks == Convert(markdown)
    ensures |blocks| <= |Split(markdown, '\n')|
  {
    var lines := Split(markdown, '\n');
    blocks := [];
    var i := 0;
    while i < |lines|
      invariant 0 <= i <= |lines| + 1
      invariant blocks + ConvertFrom(lines, Classify(lines), i) == ConvertFrom(lines, Classify(lines), 0)
      decreases |lines| - i
    {
      var produced, next := ConvertLine(lines, i);
      assert blocks + produced + ConvertFrom(lines, Classify(lines), next)
          == blocks + (produced + ConvertFrom(lines, Classify(lines), next));
      blocks := blocks + produced;
      i := next;
    }
  }

  /** The kinds of the lines with something in them, in order. */
  function NonBlank(kinds: seq<LineKind>): (r: seq<LineKind>)
    ensures |r| <= |kinds|
    ensures forall m :: 0 <= m < |r| ==> !r[m].BlankLine? && r[m] in kinds
  {
    if kinds == [] then []
    else if kinds[0].BlankLine? then NonBlank(kinds[1..])
    else [kinds[0]] + NonBlank(kinds[1..])
  }

  /** The block of each kind, one for one. */
  function BlocksOf(ks: seq<LineKind>): (r: seq<Block>)
    requires forall m :: 0 <= m < |ks| ==> !ks[m].BlankLine? && !ks[m].FenceLine?
    ensures |r| == |ks|
    ensures forall m :: 0 <= m < |ks| ==> r[m] == LineBlock(ks[m])
  {
    if |ks| == 0 then [] else [LineBlock(ks[0])] + BlocksOf(ks[1..])
  }

  /** Input with no fence line: blank lines give nothing and every other line
      gives exactly one block, in order. */
  lemma {:induction false} FenceFreeConversion(lines: seq<string>, kinds: seq<LineKind>, i: nat)
    requires |kinds| == |lines| && i <= |lines|
    requires forall m :: 0 <= m < |kinds| ==> !kinds[m].FenceLine?
    ensures forall m :: 0 <= m < |NonBlank(kinds[i..])| ==> !NonBlank(kinds[i..])[m].FenceLine?
    ensures ConvertFrom(lines, kinds, i) == BlocksOf(NonBlank(kinds[i..]))
    decreases |lines| - i
  {
    var nb := NonBlank(kinds[i..]);
    forall m | 0 <= m < |nb| ensures !nb[m].FenceLine? {
      assert nb[m] in kinds[i..];
    }
    if i < |lines| {
      FenceFreeConversion(lines, kinds, i + 1);
      assert kinds[i..][1..] == kinds[i + 1..];
      if !kinds[i].BlankLine? {
        assert nb == [kinds[i]] + NonBlank(kinds[i + 1..]);
        assert nb[1..] == NonBlank(kinds[i + 1..]);
      }
    }
  }

  /** A Markdown text without code fences: one block per non-blank line, in
      order, each the block of its line. */
  lemma FenceFreeMarkdown(markdown: string)
    requires forall m :: 0 <= m < |Split(markdown, '\n')| ==> !IsFence(Split(markdown, '\n')[m])
    ensures var kinds := Classify(Split(markdown, '\n'));
      && (forall m :: 0 <= m < |NonBlank(kinds)| ==> !NonBlank(kinds)[m].FenceLine?)
      && Convert(markdown) == BlocksOf(NonBlank(kinds))
  {
    var lines := Split(markdown, '\n');
    var kinds := Classify(lines);
    forall m | 0 <= m < |kinds| ensures !kinds[m].FenceLine? {
      assert !IsFence(lines[m]);
    }
    FenceFreeConversion(lines, kinds, 0);
    assert kinds[0..] == kinds;
  }

  /** A fence line opens a code block holding exactly the lines up to the next
      fence line, joined by newlines and not parsed for inline markers, with
      the language after the fence. */
  lemma CodeBlockContents(lines: seq<string>, i: nat)
    requires i < |lines| && IsFence(lines[i])
    ensures var j := FenceEnd(lines, i + 1);
      && ConvertFrom(lines, Classify(lines), i)
         == [Code([Plain(Join(lines[i + 1..j], "\n"))], FenceLanguage(lines[i]))]
            + ConvertFrom(lines, Classify(lines), j + 1)
      && (forall m :: i < m < j ==> !IsFence(lines[m]))
  {
    ClassifyFence(lines, i);
    ConvertFence(lines, Classify(lines), i);
  }


  /** A fence that is never closed takes all the remaining lines. */
  lemma UnterminatedFence(lines: seq<string>, i: nat)
    requires i < |lines| && IsFence(lines[i])
    requires forall m :: i < m < |lines| ==> !IsFence(lines[m])
    ensures ConvertFrom(lines, Classify(lines), i)
         == [Code([Plain(Join(lines[i + 1..], "\n"))], FenceLanguage(lines[i]))]
  {
    CodeBlockContents(lines, i);
    var j := FenceEnd(lines, i + 1);
    assert j == |lines|;
    assert lines[i + 1..j] == lines[i + 1..];
  }
}
