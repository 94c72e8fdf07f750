/**
 * The grounding side of the web app: the fixed system prompt, `rag_prompt`,
 * the request `ollama_chat` sends and how it reads the reply, and how the two
 * chat handlers (`chat` for typed text, `say_and_respond` for speech) choose
 * the prompt. HTTP, the database, speech recognition and the network call are
 * outside the model; the transcript, the request fields, the retriever (or its
 * absence) and the score formatter arrive as parameters.
 */
module App {
  import opened Wrappers
  import opened Strings
  import opened IndexDocs
  import opened Retrieval

  /** `TOP_K` and `OLLAMA_MODEL` at their defaults. */
  const TopK: nat := 5
  const OllamaModel: string := "gemma3:1b"
  /** The sampling temperature `ollama_chat` always asks for. */
  const Temperature: real := 0.4

  const ContextHeader: string := "\nContext:\n"
  const EntrySeparator: string := "\n\n"
  const UserHeader: string := "\n\nUser:\n"
  /** What `say_and_respond` stores when nothing was recognised. */
  const NoSpeech: string := "(no speech)"
  /** What `say_and_respond` sends when there is no prompt. */
  const EmptyAudioPrompt: string := "User sent empty audio."

  /** One chat message: `{"role": ..., "content": ...}`. */
  datatype Message = Message(role: string, content: string)

  /** The JSON body `ollama_chat` posts to `/api/chat`. */
  datatype Payload = Payload(model: string, messages: seq<Message>, temperature: real, stream: bool)

  /** A JSON value as Python's `json` module decodes it. */
  datatype Json =
    | JNull
    | JBool(b: bool)
    | JNumber(n: real)
    | JString(s: string)
    | JArray(items: seq<Json>)
    | JObject(fields: map<string, Json>)

  /** The Python exception a step can raise. */
  datatype PyError = AttributeError

  // ---------------------------------------------------------------------
  // ollama_chat
  // ---------------------------------------------------------------------

  /** The message list: the history's role and content in order, then the prompt as a user message. */
  function ChatMessages(history: seq<Message>, prompt: string): (msgs: seq<Message>)
    ensures |msgs| == |history| + 1
    ensures msgs[..|history|] == history
    ensures msgs[|history|] == Message("user", prompt)
  {
    seq(|history|, i requires 0 <= i < |history| => Message(history[i].role, history[i].content)) +
      [Message("user", prompt)]
  }

  /** The request body: the configured model, the messages, temperature 0.4, no streaming. */
  function ChatPayload(prompt: string, history: seq<Message>): (p: Payload)
    ensures p.model == OllamaModel && !p.stream && p.temperature == Temperature
    ensures |p.messages| == |history| + 1 && p.messages[|history|] == Message("user", prompt)
  {
    Payload(OllamaModel, ChatMessages(history, prompt), Temperature, false)
  }

  /**
   * `data.get("message", {}).get("content", "")`: a missing `message` or
   * `content` gives `""`; a body or `message` that is not an object has no
   * `.get` and raises.
   */
  function ExtractReply(data: Json): (r: Result<Json, PyError>)
    ensures r.Failure? <==>
      !data.JObject? || ("message" in data.fields && !data.fields["message"].JObject?)
    ensures r.Success? && "message" in data.fields && "content" in data.fields["message"].fields ==>
      r.value == data.fields["message"].fields["content"]
    ensures r.Success? && ("message" !in data.fields || "content" !in data.fields["message"].fields) ==>
      r.value == JString("")
  {
    match data
    case JObject(top) =>
      var message := if "message" in top then top["message"] else JObject(map[]);
      (match message
       case JObject(m) => Success(if "content" in m then m["content"] else JString(""))
       case _ => Failure(AttributeError))
    case _ => Failure(AttributeError)
  }

  /** A well-formed non-streaming reply from the model. */
  function AssistantReply(text: string): Json {
    JObject(map["message" := JObject(map["role" := JString("assistant"), "content" := JString(text)])])
  }

  /** Reading the reply back out of a well-formed response gives the assistant's text. */
  lemma ExtractAssistantReply(text: string)
    ensures ExtractReply(AssistantReply(text)) == Success(JString(text))
  {
  }

  // ---------------------------------------------------------------------
  // build_system_prompt / rag_prompt
  // ---------------------------------------------------------------------

  /** `build_system_prompt()`: instructions ending in a line break, so the context header follows on a line of its own. */
  function SystemPrompt(): (p: string)
    ensures |p| > 0 && p[|p| - 1] == '\n'
  {
    "You are a helpful assistant. Answer using the provided context if relevant; " +
    "if not found, say you don't have enough information. Keep answers concise.\n"
  }

  /**
   * `f"[{rank}] (score {fmt(s)} src:{m['source']})\n{c}"`: a bracketed label
   * line, then the chunk's text unchanged on the lines after it.
   */
  function ContextEntry(rank: nat, r: Retrieved, fmt: Score -> string): (e: string)
    ensures |e| >= |r.chunk| + 3 && e[0] == '['
    ensures e[|e| - |r.chunk| - 2..] == ")\n" + r.chunk
  {
    "[" + DecimalString(rank) + "] (score " + fmt(r.score) + " src:" + r.meta.source + ")\n" + r.chunk
  }

  /** One entry per retrieved triple, ranked from 1, in input order. */
  function ContextEntries(retrieved: seq<Retrieved>, fmt: Score -> string): (entries: seq<string>)
    ensures |entries| == |retrieved|
  {
    seq(|retrieved|, i requires 0 <= i < |retrieved| => ContextEntry(i + 1, retrieved[i], fmt))
  }

  /** The context block: the entries joined by a blank line, the top-ranked one first. */
  function Context(retrieved: seq<Retrieved>, fmt: Score -> string): (c: string)
    ensures retrieved == [] ==> c == ""
    ensures retrieved != [] ==>
      var first := ContextEntry(1, retrieved[0], fmt);
      |c| >= |first| && c[..|first|] == first
    ensures retrieved != [] ==>
      var last := ContextEntry(|retrieved|, retrieved[|retrieved| - 1], fmt);
      |c| >= |last| && c[|c| - |last|..] == last
  {
    Join(EntrySeparator, ContextEntries(retrieved, fmt))
  }

  /**
   * `rag_prompt`: the system prompt, then `Context:` and the entries, then
   * `User:` and the user's text.
   */
  function RagPrompt(userText: string, retrieved: seq<Retrieved>, fmt: Score -> string): (p: string)
    ensures |p| >= |SystemPrompt() + ContextHeader| + |UserHeader + userText|
    ensures p[..|SystemPrompt() + ContextHeader|] == SystemPrompt() + ContextHeader
    ensures p[|p| - |UserHeader + userText|..] == UserHeader + userText
    ensures p[|p| - |userText|..] == userText
  {
    var head := SystemPrompt() + ContextHeader;
    var ctx := Context(retrieved, fmt);
    var tail := UserHeader + userText;
    assert head + ctx + tail == (head + ctx + UserHeader) + userText;
    head + ctx + tail
  }

  /** With nothing retrieved the context block is empty and the headers stay. */
  lemma RagPromptWithoutContext(userText: string, fmt: Score -> string)
    ensures RagPrompt(userText, [], fmt) == SystemPrompt() + ContextHeader + UserHeader + userText
  {
    assert Context([], fmt) == "";
  }

  /**
   * Entries appear in input order: one more retrieved triple appends a blank
   * line and its entry, ranked one past the others.
   */
  lemma ContextSnoc(retrieved: seq<Retrieved>, x: Retrieved, fmt: Score -> string)
    ensures Context(retrieved + [x], fmt) ==
      (if retrieved == [] then "" else Context(retrieved, fmt) + EntrySeparator) +
      ContextEntry(|retrieved| + 1, x, fmt)
  {
    var entries := ContextEntries(retrieved, fmt);
    assert ContextEntries(retrieved + [x], fmt) == entries + [ContextEntry(|retrieved| + 1, x, fmt)];
    if retrieved == [] {
      assert ContextEntries([x], fmt) == [ContextEntry(1, x, fmt)];
    } else {
      JoinSnoc(EntrySeparator, entries, ContextEntry(|retrieved| + 1, x, fmt));
    }
  }

  /** The label of an entry reads back as its 1-based rank. */
  lemma EntryRank(rank: nat, r: Retrieved, fmt: Score -> string)
    ensures var e := ContextEntry(rank, r, fmt); var d := DecimalString(rank);
      |e| > |d| + 1 && e[0] == '[' && e[|d| + 1] == ']' &&
      AllDigits(e[1..|d| + 1]) && DecimalValue(e[1..|d| + 1]) == rank
  {
    var e := ContextEntry(rank, r, fmt);
    var d := DecimalString(rank);
    assert e == "[" + d + ("] (score " + fmt(r.score) + " src:" + r.meta.source + ")\n" + r.chunk);
    assert e[1..|d| + 1] == d;
    DecimalRoundTrip(rank);
  }

  // ---------------------------------------------------------------------
  // The chat handlers
  // ---------------------------------------------------------------------

  /** Python's `bool(v)` on a decoded JSON value: `None` is false, containers are true iff non-empty. */
  function Truthy(v: Json): (b: bool)
    ensures v.JNull? ==> !b
    ensures v.JString? ==> (b <==> |v.s| > 0)
    ensures v.JArray? ==> (b <==> |v.items| > 0)
    ensures v.JObject? ==> (b <==> |v.fields| > 0)
  {
    match v
    case JNull => false
    case JBool(b) => b
    case JNumber(n) => n != 0.0
    case JString(s) => s != ""
    case JArray(items) => items != []
    case JObject(fields) => fields != map[]
  }

  /** `(data.get("text") or "").strip()`: a truthy value that is not a string has no `strip`. */
  function UserText(field: Option<Json>): (r: Result<string, PyError>)
    ensures r.Success? ==> Trimmed(r.value)
    ensures r.Failure? <==> field.Some? && Truthy(field.value) && !field.value.JString?
    ensures field.Some? && field.value.JString? ==> r == Success(Strip(field.value.s))
  {
    match field
    case None => Success("")
    case Some(v) =>
      if !Truthy(v) then Success("")
      else if v.JString? then Success(Strip(v.s))
      else Failure(AttributeError)
  }

  /** `bool(data.get("use_rag", True))`: on when absent, off for `false`, `null`, `0` and empty values. */
  function ChatUseRag(field: Option<Json>): (b: bool)
    ensures field.None? ==> b
    ensures field.Some? && field.value.JBool? ==> (b <==> field.value.b)
    ensures field.Some? && field.value.JString? ==> (b <==> field.value.s != "")
    ensures field == Some(JNull) || field == Some(JNumber(0.0)) ==> !b
  {
    match field
    case None => true
    case Some(v) => Truthy(v)
  }

  /** `request.form.get("use_rag", "true").lower() != "false"`: on when absent or not five letters long. */
  function SayUseRag(field: Option<string>): (b: bool)
    ensures field.None? ==> b
    ensures field.Some? && |field.value| != 5 ==> b
  {
    Lower(field.GetOr("true")) != "false"
  }

  /** The transcript: the recogniser's text stripped, or `""` when there is none. */
  function Transcript(recognized: Option<string>): (text: string)
    ensures Trimmed(text)
  {
    match recognized
    case None => ""
    case Some(s) => Strip(s)
  }

  /** `use_rag` is off in `say_and_respond` exactly for the spellings of "false" in any letter case. */
  lemma SayUseRagOnlyFalseDisables(field: Option<string>)
    ensures !SayUseRag(field) <==>
      field.Some? && |field.value| == 5 &&
      forall i :: 0 <= i < 5 ==> LowerChar(field.value[i]) == "false"[i]
  {
    if field.Some? && |field.value| == 5 {
      var lowered := Lower(field.value);
      if forall i :: 0 <= i < 5 ==> LowerChar(field.value[i]) == "false"[i] {
        assert lowered == "false";
      }
    }
  }

  /** What a handler stores as the user's message and what it sends to the model. */
  datatype Exchange = Exchange(storedUser: string, payload: Payload)

  /** Why `chat` answers without calling the model. */
  datatype ChatError = EmptyInput | Raised(error: PyError)

  /**
   * `chat`: reject text that is empty after stripping before anything is
   * stored; otherwise ground the prompt when `use_rag` is set and the
   * retriever exists, and send it with an empty history.
   */
  method Chat(textField: Option<Json>, useRagField: Option<Json>, retriever: Retriever?, fmt: Score -> string)
    returns (r: Result<Exchange, ChatError>)
    requires retriever != null ==> retriever.Valid()
    ensures UserText(textField).Failure? ==> r == Failure(Raised(AttributeError))
    ensures UserText(textField) == Success("") ==> r == Failure(EmptyInput)
    ensures r.Success? <==> UserText(textField).Success? && UserText(textField).value != ""
    ensures r.Success? ==>
      var text := UserText(textField).value;
      var prompt := if ChatUseRag(useRagField) && retriever != null
        then RagPrompt(text, retriever.Results(text, TopK), fmt) else text;
      r.value == Exchange(text, ChatPayload(prompt, []))
    ensures r.Success? ==>
      |r.value.payload.messages| == 1 &&
      var prompt := r.value.payload.messages[0].content;
      |prompt| >= |r.value.storedUser| && prompt[|prompt| - |r.value.storedUser|..] == r.value.storedUser
  {
    var stripped := UserText(textField);
    if stripped.Failure? {
      return Failure(Raised(stripped.error));
    }
    var userText := stripped.value;
    var useRag := ChatUseRag(useRagField);
    if userText == "" {
      return Failure(EmptyInput);
    }
    var finalPrompt := userText;
    assert finalPrompt[|finalPrompt| - |userText|..] == userText;
    if useRag && retriever != null {
      var results := retriever.Search(userText, TopK);
      finalPrompt := RagPrompt(userText, results, fmt);
    }
    r := Success(Exchange(userText, ChatPayload(finalPrompt, [])));
  }

  /**
   * `say_and_respond` from the transcript on: store the text or "(no speech)",
   * ground only when `use_rag` is on, the retriever exists and the text is
   * non-empty, and never send an empty prompt.
   */
  method SayAndRespond(useRagField: Option<string>, recognized: Option<string>, retriever: Retriever?, fmt: Score -> string)
    returns (x: Exchange)
    requires retriever != null ==> retriever.Valid()
    ensures var text := Transcript(recognized);
      x.storedUser == (if text == "" then NoSpeech else text)
    ensures Transcript(recognized) == "" ==> x.payload == ChatPayload(EmptyAudioPrompt, [])
    ensures var text := Transcript(recognized);
      text != "" ==>
        x.payload == ChatPayload(
          if SayUseRag(useRagField) && retriever != null
          then RagPrompt(text, retriever.Results(text, TopK), fmt) else text, [])
    ensures |x.payload.messages| == 1 && x.payload.messages[0].role == "user" && x.payload.messages[0].content != ""
  {
    var useRag := SayUseRag(useRagField);
    var text := Transcript(recognized);
    var stored := if text != "" then text else NoSpeech;
    var finalPrompt := text;
    if useRag && retriever != null && text != "" {
      var results := retriever.Search(text, TopK);
      finalPrompt := RagPrompt(text, results, fmt);
      assert finalPrompt != [] by {
        assert |finalPrompt| >= |UserHeader + text|;
      }
    }
    if finalPrompt == "" {
      finalPrompt := EmptyAudioPrompt;
    }
    x := Exchange(stored, ChatPayload(finalPrompt, []));
  }
}
