/** The content-shape table of the LLM processor: the prompt template and
    token budget of each content type, the API-key check of the constructor,
    the validation of the content type and the substitution of the input
    text into the template. The request itself is returned as a value; the
    Anthropic client is not modelled. */
module LlmProcessor {
  import opened Wrappers
  import opened Strings

  const DefaultModel := "claude-sonnet-4-20250514"

  // The templates, as the text before and after their `{content}` field.
  const BlogHead := "以下のコンテンツを元に、技術ブログ記事を作成してください。\n\n【要件】\n- Markdown形式で出力\n- 読みやすい構造（見出し、箇条書きを適切に使用）\n- 技術的な正確性を保ちつつ、分かりやすく説明\n- SAP/IT技術に関連する場合は専門用語を適切に使用\n- 導入、本文、まとめの構成\n\n【入力コンテンツ】\n"
  const BlogTail := "\n\nブログ記事のみを出力してください（説明や前置きは不要）:"
  const XPostHead := "以下のコンテンツを元に、X(Twitter)投稿を作成してください。\n\n【要件】\n- 280文字以内（日本語）\n- キャッチーで興味を引く内容\n- 関連するハッシュタグを2-3個含める（例: #SAP #テクノロジー #DX）\n- 絵文字は控えめに使用（0-2個程度）\n\n【入力コンテンツ】\n"
  const XPostTail := "\n\nX投稿のみを出力してください（説明や前置きは不要）:"
  const LinkedInHead := "以下のコンテンツを元に、LinkedIn投稿を作成してください。\n\n【要件】\n- プロフェッショナルなトーン\n- 読みやすい段落構成\n- 価値提供や学びを強調\n- 最後に質問や議論を促すCTA（Call To Action）を含める\n- 関連するハッシュタグを3-5個含める\n\n【入力コンテンツ】\n"
  const LinkedInTail := "\n\nLinkedIn投稿のみを出力してください（説明や前置きは不要）:"

  datatype PromptConfig = PromptConfig(maxTokens: nat, systemPrompt: seq<Segment>)

  /** A template with the one replacement field `{content}`. */
  function Template(head: string, tail: string): seq<Segment> {
    [Text(head), Field("content"), Text(tail)]
  }

  /** `PROMPTS`, as its items in the dictionary's order. */
  const Prompts: seq<(string, PromptConfig)> := [
    ("blog", PromptConfig(4096, Template(BlogHead, BlogTail))),
    ("x_post", PromptConfig(512, Template(XPostHead, XPostTail))),
    ("linkedin", PromptConfig(2048, Template(LinkedInHead, LinkedInTail)))
  ]

  /** `content_type in PROMPTS` and `PROMPTS[content_type]`. */
  function PromptFor(items: seq<(string, PromptConfig)>, contentType: string): (r: Option<PromptConfig>)
    ensures r.Some? <==> exists k :: 0 <= k < |items| && items[k].0 == contentType
  {
    if |items| == 0 then None
    else if items[0].0 == contentType then Some(items[0].1)
    else
      var r := PromptFor(items[1..], contentType);
      assert forall k :: 1 <= k < |items| ==> items[k] == items[1..][k - 1];
      r
  }

  /** `list(d.keys())` on a dictionary given as its items. */
  function Keys(items: seq<(string, PromptConfig)>): (r: seq<string>)
    ensures |r| == |items|
    ensures forall k :: 0 <= k < |items| ==> r[k] == items[k].0
  {
    if |items| == 0 then [] else [items[0].0] + Keys(items[1..])
  }

  /** The lookup in a three-entry table, entry by entry. */
  lemma PromptForThree(items: seq<(string, PromptConfig)>, contentType: string)
    requires |items| == 3
    ensures PromptFor(items, contentType) ==
      if items[0].0 == contentType then Some(items[0].1)
      else if items[1].0 == contentType then Some(items[1].1)
      else if items[2].0 == contentType then Some(items[2].1)
      else None
  {
    var i1 := items[1..];
    var i2 := i1[1..];
    assert i2[1..] == [];
    assert i1[0] == items[1] && i2[0] == items[2];
    assert PromptFor(i2, contentType) == if items[2].0 == contentType then Some(items[2].1) else None;
  }

  /** `PROMPTS[content_type]` for each content type. */
  lemma PromptTable(contentType: string)
    ensures PromptFor(Prompts, contentType) ==
      if contentType == "blog" then Some(PromptConfig(4096, Template(BlogHead, BlogTail)))
      else if contentType == "x_post" then Some(PromptConfig(512, Template(XPostHead, XPostTail)))
      else if contentType == "linkedin" then Some(PromptConfig(2048, Template(LinkedInHead, LinkedInTail)))
      else None
  {
    PromptForThree(Prompts, contentType);
  }

  /** `get_content_types()` */
  function GetContentTypes(): seq<string> {
    Keys(Prompts)
  }

  lemma ContentTypesInOrder()
    ensures GetContentTypes() == ["blog", "x_post", "linkedin"]
  {
  }

  /** The budgets of the three shapes; the blog has the largest and the X
      post the smallest. */
  lemma TokenBudgets()
    ensures PromptFor(Prompts, "blog") == Some(PromptConfig(4096, Template(BlogHead, BlogTail)))
    ensures PromptFor(Prompts, "x_post") == Some(PromptConfig(512, Template(XPostHead, XPostTail)))
    ensures PromptFor(Prompts, "linkedin") == Some(PromptConfig(2048, Template(LinkedInHead, LinkedInTail)))
    ensures PromptFor(Prompts, "x_post").value.maxTokens
          < PromptFor(Prompts, "linkedin").value.maxTokens
          < PromptFor(Prompts, "blog").value.maxTokens
  {
    PromptTable("blog");
    PromptTable("x_post");
    PromptTable("linkedin");
  }

  // ---------------------------------------------------------------------
  // `str.format(content=...)`
  // ---------------------------------------------------------------------

  /** A template after Python's format-string parsing: literal text and
      named replacement fields, in order. */
  datatype Segment = Text(text: string) | Field(name: string)

  /** The error `str.format` raises for a field it was given no value for. */
  datatype FormatError = MissingField(name: string)

  /** `template.format(content=value)`: literal text is copied, every
      `{content}` field is replaced by the value, and the first field of
      any other name is a `KeyError`. */
  function Format(template: seq<Segment>, value: string): (r: Result<string, FormatError>)
    ensures r.Err? <==> exists k :: 0 <= k < |template| && template[k].Field? && template[k].name != "content"
  {
    if |template| == 0 then Ok("")
    else
      var rest := Format(template[1..], value);
      assert forall k :: 1 <= k < |template| ==> template[k] == template[1..][k - 1];
      match template[0]
      case Field(name) =>
        if name != "content" then Err(MissingField(name))
        else if rest.Err? then rest
        else Ok(value + rest.value)
      case Text(t) =>
        if rest.Err? then rest else Ok(t + rest.value)
  }

  /** The number of `{content}` fields. */
  function ContentFields(template: seq<Segment>): nat {
    if |template| == 0 then 0
    else (if template[0] == Field("content") then 1 else 0) + ContentFields(template[1..])
  }

  /** Formatting a concatenation formats the parts. */
  lemma {:induction false} FormatAppend(a: seq<Segment>, b: seq<Segment>, value: string)
    requires Format(a, value).Ok? && Format(b, value).Ok?
    ensures Format(a + b, value) == Ok(Format(a, value).value + Format(b, value).value)
    decreases |a|
  {
    if |a| == 0 {
      assert a + b == b;
      assert "" + Format(b, value).value == Format(b, value).value;
    } else {
      assert (a + b)[0] == a[0];
      assert (a + b)[1..] == a[1..] + b;
      FormatAppend(a[1..], b, value);
      var x := Format(a[1..], value).value;
      var y := Format(b, value).value;
      match a[0]
      case Field(_) => assert value + (x + y) == (value + x) + y;
      case Text(t) => assert t + (x + y) == (t + x) + y;
    }
  }

  /** Text, the field and text: the value in place of the field, verbatim. */
  lemma FormatOneField(head: string, tail: string, value: string)
    ensures Format([Text(head), Field("content"), Text(tail)], value) == Ok(head + value + tail)
    ensures ContentFields([Text(head), Field("content"), Text(tail)]) == 1
  {
    var t3 := [Text(tail)];
    var t2 := [Field("content")] + t3;
    var t := [Text(head)] + t2;
    assert t3[1..] == [] && t2[1..] == t3 && t[1..] == t2;
    assert tail + "" == tail;
    assert Format(t3, value) == Ok(tail);
    assert Format(t2, value) == Ok(value + tail);
    assert ContentFields(t3) == 0;
    assert ContentFields(t2) == 1;
    assert head + (value + tail) == head + value + tail;
  }

  // ---------------------------------------------------------------------
  // The processor
  // ---------------------------------------------------------------------

  /** The fields `__init__` sets; the client is represented by its key. */
  datatype Processor = Processor(apiKey: string, model: string)

  datatype ProcessorError =
    | ApiKeyNotSet
    | InvalidContentType(contentType: string)
    | TemplateError(cause: FormatError)

  /** What `generate_content` sends: the model, the budget and the prompt. */
  datatype Request = Request(model: string, maxTokens: nat, prompt: string)

  /** `LLMProcessor.__init__`: only a missing key (`None`) is looked up in
      the environment; an empty key, given or looked up, is an error. */
  function NewProcessor(apiKey: Option<string>, model: string, env: map<string, string>): (r: Result<Processor, ProcessorError>)
    ensures r.Ok? ==> r.value.apiKey != "" && r.value.model == model
    ensures apiKey.Some? && apiKey.value != "" ==> r == Ok(Processor(apiKey.value, model))
    ensures apiKey == Some("") ==> r == Err(ApiKeyNotSet)
    ensures apiKey.None? ==> (r.Ok? <==> "ANTHROPIC_API_KEY" in env && env["ANTHROPIC_API_KEY"] != "")
    ensures apiKey.None? && r.Ok? ==> r.value.apiKey == env["ANTHROPIC_API_KEY"]
  {
    var key := if apiKey.None? then (if "ANTHROPIC_API_KEY" in env then Some(env["ANTHROPIC_API_KEY"]) else None)
               else apiKey;
    if key.None? || key.value == "" then Err(ApiKeyNotSet)
    else Ok(Processor(key.value, model))
  }

  /** The request `generate_content` makes: an unknown content type is
      rejected before anything is sent. */
  function GenerateRequest(p: Processor, text: string, contentType: string): Result<Request, ProcessorError> {
    match PromptFor(Prompts, contentType)
    case None => Err(InvalidContentType(contentType))
    case Some(config) =>
      match Format(config.systemPrompt, text)
      case Err(e) => Err(TemplateError(e))
      case Ok(prompt) => Ok(Request(p.model, config.maxTokens, prompt))
  }

  /** The accepted content types are exactly `get_content_types()`, and
      every other type gets the content-type error. */
  lemma AcceptedContentTypes(p: Processor, text: string, contentType: string)
    ensures GenerateRequest(p, text, contentType).Ok? <==> contentType in GetContentTypes()
    ensures contentType !in GetContentTypes() ==> GenerateRequest(p, text, contentType) == Err(InvalidContentType(contentType))
  {
    PromptTable(contentType);
    ContentTypesInOrder();
    if contentType == "blog" {
      FormatOneField(BlogHead, BlogTail, text);
    } else if contentType == "x_post" {
      FormatOneField(XPostHead, XPostTail, text);
    } else if contentType == "linkedin" {
      FormatOneField(LinkedInHead, LinkedInTail, text);
    }
  }

  /** The blog request: the blog budget and the blog template with the text
      in place of the placeholder, so the text appears in it verbatim. */
  lemma BlogRequest(p: Processor, text: string)
    ensures GenerateRequest(p, text, "blog") == Ok(Request(p.model, 4096, BlogHead + text + BlogTail))
    ensures Contains(GenerateRequest(p, text, "blog").value.prompt, text)
  {
    PromptTable("blog");
    FormatOneField(BlogHead, BlogTail, text);
    ContainsMiddle(BlogHead, text, BlogTail);
  }

  lemma XPostRequest(p: Processor, text: string)
    ensures GenerateRequest(p, text, "x_post") == Ok(Request(p.model, 512, XPostHead + text + XPostTail))
    ensures Contains(GenerateRequest(p, text, "x_post").value.prompt, text)
  {
    PromptTable("x_post");
    FormatOneField(XPostHead, XPostTail, text);
    ContainsMiddle(XPostHead, text, XPostTail);
  }

  lemma LinkedInRequest(p: Processor, text: string)
    ensures GenerateRequest(p, text, "linkedin") == Ok(Request(p.model, 2048, LinkedInHead + text + LinkedInTail))
    ensures Contains(GenerateRequest(p, text, "linkedin").value.prompt, text)
  {
    PromptTable("linkedin");
    FormatOneField(LinkedInHead, LinkedInTail, text);
    ContainsMiddle(LinkedInHead, text, LinkedInTail);
  }

  /** Whether `__init__` finds a key: a given key must be non-empty, and a
      missing one must be set and non-empty in the environment. */
  predicate KeyUsable(apiKey: Option<string>, env: map<string, string>) {
    match apiKey
    case Some(k) => k != ""
    case None => "ANTHROPIC_API_KEY" in env && env["ANTHROPIC_API_KEY"] != ""
  }

  /** The module-level `generate_content`: the processor is built first, so
      a missing key is reported before an invalid content type, and with a
      usable key a request is made exactly for the listed content types. */
  function GenerateContent(text: string, contentType: string, apiKey: Option<string>, model: string,
                           env: map<string, string>): (r: Result<Request, ProcessorError>)
    ensures !KeyUsable(apiKey, env) ==> r == Err(ApiKeyNotSet)
    ensures KeyUsable(apiKey, env) && contentType !in GetContentTypes() ==> r == Err(InvalidContentType(contentType))
    ensures KeyUsable(apiKey, env) && contentType in GetContentTypes() ==> r.Ok? && r.value.model == model
  {
    match NewProcessor(apiKey, model, env)
    case Err(e) => Err(e)
    case Ok(p) =>
      AcceptedContentTypes(p, text, contentType);
      GenerateRequest(p, text, contentType)
  }
}
