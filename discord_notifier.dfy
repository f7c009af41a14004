/** The error notification sent to a Discord webhook: the notifier's URL
    check, the embed `send_error` builds (its fields, their order and the two
    truncations) and the skip of `notify_error` when no URL is configured.
    The error is given by its type name and its message, the clock by the
    formatted timestamp and the traceback module by the trace text; the HTTP
    request is not modelled. */
module DiscordNotifier {
  import opened Wrappers
  import opened Environment

  const Title := "echo-me エラー通知"
  const Color := 15158332
  const Footer := "echo-me Content Generator"

  /** What `traceback.format_exc()` returns when no exception is handled. */
  const NoTrace := "NoneType: None\n"

  const MessageLimit := 1000
  const TraceLimit := 1500

  const ContextName := "処理"
  const FileName := "対象ファイル"
  const TypeName := "エラータイプ"
  const TimeName := "発生時刻"
  const MessageName := "エラーメッセージ"
  const TraceName := "スタックトレース"

  datatype EmbedField = EmbedField(name: string, value: string, inline: bool)
  datatype Embed = Embed(title: string, color: nat, fields: seq<EmbedField>, footer: string)
  datatype Payload = Payload(embeds: seq<Embed>)

  // ---------------------------------------------------------------------
  // The notifier
  // ---------------------------------------------------------------------

  /** The field `__init__` sets. */
  datatype Notifier = Notifier(webhookUrl: string)

  datatype NotifierError = WebhookUrlNotSet

  /** `DiscordNotifier.__init__`: the argument when it is non-empty, else
      `DISCORD_WEBHOOK_URL`; an unset or empty URL is a `ValueError`. */
  function NewNotifier(webhookUrl: Option<string>, env: map<string, string>): (r: Result<Notifier, NotifierError>)
    ensures r.Ok? <==> Truthy(webhookUrl) || ("DISCORD_WEBHOOK_URL" in env && env["DISCORD_WEBHOOK_URL"] != "")
    ensures r.Ok? ==> r.value.webhookUrl != ""
    ensures Truthy(webhookUrl) ==> r == Ok(Notifier(webhookUrl.value))
    ensures !Truthy(webhookUrl) && r.Ok? ==> r.value.webhookUrl == env["DISCORD_WEBHOOK_URL"]
  {
    var url := OrEnv(webhookUrl, env, "DISCORD_WEBHOOK_URL");
    if !Truthy(url) then Err(WebhookUrlNotSet) else Ok(Notifier(url.value))
  }

  // ---------------------------------------------------------------------
  // Slices and the fields
  // ---------------------------------------------------------------------

  function Min(a: nat, b: nat): nat {
    if a <= b then a else b
  }

  /** `s[:n]`: the longest prefix of at most `n` characters. */
  function Take(s: string, n: nat): (r: string)
    ensures |r| == Min(|s|, n)
    ensures r == s[..|r|]
  {
    if |s| <= n then s else s[..n]
  }

  /** `s[-n:] if len(s) > n else s`: the longest suffix of at most `n`
      characters. */
  function TakeLast(s: string, n: nat): (r: string)
    ensures |r| == Min(|s|, n)
    ensures r == s[|s| - |r|..]
  {
    if |s| > n then s[|s| - n..] else s
  }

  /** A value in a code block. */
  function Fenced(s: string): string {
    "```" + s + "```"
  }

  /** A value in inline code. */
  function Quoted(s: string): string {
    "`" + s + "`"
  }

  function TypeField(errorType: string): EmbedField {
    EmbedField(TypeName, Quoted(errorType), true)
  }

  function TimeField(timestamp: string): EmbedField {
    EmbedField(TimeName, timestamp, true)
  }

  function MessageField(message: string): EmbedField {
    EmbedField(MessageName, Fenced(Take(message, MessageLimit)), false)
  }

  function ContextField(context: string): EmbedField {
    EmbedField(ContextName, context, true)
  }

  function FileField(fileName: string): EmbedField {
    EmbedField(FileName, Quoted(fileName), true)
  }

  function TraceField(trace: string): EmbedField {
    EmbedField(TraceName, Fenced(TakeLast(trace, TraceLimit)), false)
  }

  /** Whether the trace is added: neither empty nor the trace of no
      exception. */
  predicate HasTrace(trace: string) {
    trace != "" && trace != NoTrace
  }

  /** `list.insert(i, x)`: before position `i`, or at the end when `i` is
      past it. */
  function Insert(s: seq<EmbedField>, i: nat, x: EmbedField): (r: seq<EmbedField>)
    ensures |r| == |s| + 1
    ensures r[Min(i, |s|)] == x
    ensures r[..Min(i, |s|)] == s[..Min(i, |s|)] && r[Min(i, |s|) + 1..] == s[Min(i, |s|)..]
  {
    if i >= |s| then s + [x] else s[..i] + [x] + s[i..]
  }

  /** The fields of the error embed, stated by position: the context first
      when there is one, then the file, then the type when there is no
      context, then the time and the message, and the trace last. */
  function ErrorFields(errorType: string, message: string, context: Option<string>, fileName: Option<string>,
                       timestamp: string, trace: string): seq<EmbedField>
  {
    var file := if Truthy(fileName) then [FileField(fileName.value)] else [];
    var head := if Truthy(context) then [ContextField(context.value)] + file + [TypeField(errorType)]
                else [TypeField(errorType)] + file;
    head + [TimeField(timestamp), MessageField(message)] + (if HasTrace(trace) then [TraceField(trace)] else [])
  }

  function ErrorEmbed(fields: seq<EmbedField>): Embed {
    Embed(Title, Color, fields, Footer)
  }

  /** The fields of `send_error` before the trace: the three base fields,
      then the context inserted at position 0 and the file at position 1. */
  method ErrorFieldsWithoutTrace(errorType: string, message: string, context: Option<string>,
                                 fileName: Option<string>, timestamp: string) returns (fields: seq<EmbedField>)
    ensures fields == ErrorFields(errorType, message, context, fileName, timestamp, "")
  {
    var tail := [TimeField(timestamp), MessageField(message)];
    fields := [TypeField(errorType)] + tail;
    if Truthy(context) {
      fields := Insert(fields, 0, ContextField(context.value));
      assert fields == [ContextField(context.value), TypeField(errorType)] + tail;
    }
    if Truthy(fileName) {
      var before := fields;
      fields := Insert(fields, 1, FileField(fileName.value));
      assert fields == before[..1] + [FileField(fileName.value)] + before[1..];
      if Truthy(context) {
        assert fields == [ContextField(context.value), FileField(fileName.value), TypeField(errorType)] + tail;
      } else {
        assert fields == [TypeField(errorType), FileField(fileName.value)] + tail;
      }
    }
  }

  /** The payload `send_error` posts: the fields above, the trace appended
      when there is one, and the one embed. */
  method BuildErrorPayload(errorType: string, message: string, context: Option<string>, fileName: Option<string>,
                           timestamp: string, trace: string) returns (payload: Payload)
    ensures payload == Payload([ErrorEmbed(ErrorFields(errorType, message, context, fileName, timestamp, trace))])
  {
    var fields := ErrorFieldsWithoutTrace(errorType, message, context, fileName, timestamp);
    assert ErrorFields(errorType, message, context, fileName, timestamp, trace)
        == fields + (if HasTrace(trace) then [TraceField(trace)] else []);
    if HasTrace(trace) {
      var truncated := if |trace| > TraceLimit then trace[|trace| - TraceLimit..] else trace;
      assert truncated == TakeLast(trace, TraceLimit);
      fields := fields + [EmbedField(TraceName, Fenced(truncated), false)];
    }
    payload := Payload([ErrorEmbed(fields)]);
  }

  // ---------------------------------------------------------------------
  // Properties of the fields
  // ---------------------------------------------------------------------

  function Names(fields: seq<EmbedField>): (r: seq<string>)
    ensures |r| == |fields|
    ensures forall k :: 0 <= k < |fields| ==> r[k] == fields[k].name
  {
    if |fields| == 0 then [] else [fields[0].name] + Names(fields[1..])
  }

  function Count(b: bool): nat {
    if b then 1 else 0
  }

  /** Three base fields, one more for each of context, file and trace. */
  lemma FieldCount(errorType: string, message: string, context: Option<string>, fileName: Option<string>,
                   timestamp: string, trace: string)
    ensures |ErrorFields(errorType, message, context, fileName, timestamp, trace)|
         == 3 + Count(Truthy(context)) + Count(Truthy(fileName)) + Count(HasTrace(trace))
  {
  }

  /** The order of the names without a trace, in each of the four cases. */
  lemma FieldOrder(errorType: string, message: string, context: Option<string>, fileName: Option<string>,
                   timestamp: string)
    ensures var names := Names(ErrorFields(errorType, message, context, fileName, timestamp, ""));
      && (Truthy(context) && Truthy(fileName) ==> names == [ContextName, FileName, TypeName, TimeName, MessageName])
      && (Truthy(context) && !Truthy(fileName) ==> names == [ContextName, TypeName, TimeName, MessageName])
      && (!Truthy(context) && Truthy(fileName) ==> names == [TypeName, FileName, TimeName, MessageName])
      && (!Truthy(context) && !Truthy(fileName) ==> names == [TypeName, TimeName, MessageName])
  {
  }

  /** A trace is added exactly when it is neither empty nor the trace of no
      exception, always as the last field, holding the last at most 1500
      characters of the trace. */
  lemma TraceLast(errorType: string, message: string, context: Option<string>, fileName: Option<string>,
                  timestamp: string, trace: string)
    ensures var fields := ErrorFields(errorType, message, context, fileName, timestamp, trace);
      && (HasTrace(trace) <==> exists k :: 0 <= k < |fields| && fields[k].name == TraceName)
      && (HasTrace(trace) ==> fields[|fields| - 1] == TraceField(trace))
  {
    var fields := ErrorFields(errorType, message, context, fileName, timestamp, trace);
    var base := ErrorFields(errorType, message, context, fileName, timestamp, "");
    assert fields == base + (if HasTrace(trace) then [TraceField(trace)] else []);
    assert forall k :: 0 <= k < |base| ==> base[k].name != TraceName;
    if HasTrace(trace) {
      assert fields[|fields| - 1].name == TraceName;
    }
  }

  /** The message is cut to its first 1000 characters and the trace to its
      last 1500, each inside a code block. */
  lemma Truncations(message: string, trace: string)
    ensures exists m :: MessageField(message).value == Fenced(m) && |m| == Min(|message|, MessageLimit)
                     && m == message[..|m|]
    ensures exists t :: TraceField(trace).value == Fenced(t) && |t| == Min(|trace|, TraceLimit)
                     && t == trace[|trace| - |t|..]
    ensures |MessageField(message).value| <= MessageLimit + 6
    ensures |TraceField(trace).value| <= TraceLimit + 6
  {
    var m := Take(message, MessageLimit);
    var t := TakeLast(trace, TraceLimit);
    assert MessageField(message).value == Fenced(m);
    assert TraceField(trace).value == Fenced(t);
  }

  // ---------------------------------------------------------------------
  // notify_error
  // ---------------------------------------------------------------------

  /** What `notify_error` does: nothing when the URL is missing (it returns
      `False`), otherwise a post of the payload to the URL, whose outcome
      is decided by the network. */
  datatype Notification = Skipped | Post(url: string, payload: Payload)

  method NotifyError(errorType: string, message: string, context: Option<string>, fileName: Option<string>,
                     webhookUrl: Option<string>, env: map<string, string>, timestamp: string, trace: string)
    returns (r: Notification)
    ensures r.Skipped? <==> !Truthy(webhookUrl) && !("DISCORD_WEBHOOK_URL" in env && env["DISCORD_WEBHOOK_URL"] != "")
    ensures r.Post? ==> r.url != "" && NewNotifier(webhookUrl, env) == Ok(Notifier(r.url))
    ensures r.Post? ==> r.payload == Payload([ErrorEmbed(ErrorFields(errorType, message, context, fileName, timestamp, trace))])
  {
    var notifier := NewNotifier(webhookUrl, env);
    if notifier.Err? {
      return Skipped;
    }
    var payload := BuildErrorPayload(errorType, message, context, fileName, timestamp, trace);
    return Post(notifier.value.webhookUrl, payload);
  }
}
