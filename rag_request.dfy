/**
 * Request-time handling of the RAG endpoint (app/routers/llm.py,
 * `request_rag_lcel`): the optional history parameter, the rendered history
 * block, the chat message list, and the values that the retrieval chain
 * binds to the prompt's two template slots.
 *
 * JSON decoding, the vector search and the language model are parameters or
 * left out; a decoded history entry is a JSON object with string values.
 */
module RagRequest {
  import opened Wrappers
  import opened Text
  import opened VectorStore

  /** A decoded history entry: a JSON object whose values are strings. */
  type JsonObject = map<string, string>

  /** `d.get(key, default)`. */
  function Get(d: JsonObject, key: string, default: string): string
  {
    if key in d then d[key] else default
  }

  // ---------------------------------------------------------------------
  // History parsing
  // ---------------------------------------------------------------------

  /**
   * The `history` query parameter: absent or empty means no history; text
   * that fails to decode is replaced by an empty history and the request goes on.
   */
  function ParseHistory(history: Option<string>, decode: string -> Option<seq<JsonObject>>): (h: seq<JsonObject>)
    ensures history.None? || history == Some("") ==> h == []
    ensures history.Some? && history.value != "" && decode(history.value).None? ==> h == []
    ensures history.Some? && history.value != "" && decode(history.value).Some? ==> h == decode(history.value).value
  {
    match history
    case None => []
    case Some(text) =>
      if text == "" then []
      else match decode(text)
        case None => []
        case Some(entries) => entries
  }

  // ---------------------------------------------------------------------
  // history_context
  // ---------------------------------------------------------------------

  /** Header put in front of the rendered turns. */
  const HISTORY_HEADER: string := "\n\n[Previous Conversation History]\n"

  /** How many recent turns are rendered. */
  const HISTORY_WINDOW: nat := 5

  /** One rendered turn; a missing key renders as the empty string. */
  function TurnBlock(conv: JsonObject): string
  {
    "사용자: " + Get(conv, "user", "") + "\n" + "AI 답변: " + Get(conv, "assistant", "") + "\n\n"
  }

  /** The blocks of `convs`, oldest first. */
  function Blocks(convs: seq<JsonObject>): string
  {
    if |convs| == 0 then "" else Blocks(convs[..|convs| - 1]) + TurnBlock(convs[|convs| - 1])
  }

  /** Python's `h[-n:]`: the last n entries, or all of them when there are fewer. */
  function LastN(h: seq<JsonObject>, n: nat): (w: seq<JsonObject>)
    ensures |w| == if |h| < n then |h| else n
    ensures w == h[|h| - |w|..]
  {
    if |h| < n then h else h[|h| - n..]
  }

  /** What `history_context` holds after the loop. */
  function HistoryContextOf(h: seq<JsonObject>): (ctx: string)
    ensures ctx == "" <==> h == []
  {
    if h == [] then "" else HISTORY_HEADER + Blocks(LastN(h, HISTORY_WINDOW))
  }

  /** The `+=` loop over the last five turns. */
  method HistoryContext(chatHistory: seq<JsonObject>) returns (historyContext: string)
    ensures historyContext == HistoryContextOf(chatHistory)
  {
    historyContext := "";
    if chatHistory != [] {
      historyContext := HISTORY_HEADER;
      var window := LastN(chatHistory, HISTORY_WINDOW);
      for i := 0 to |window|
        invariant historyContext == HISTORY_HEADER + Blocks(window[..i])
      {
        assert window[..i + 1][..i] == window[..i];
        historyContext := historyContext + TurnBlock(window[i]);
      }
      assert window[..|window|] == window;
    }
  }

  /** Rendering two runs of turns one after the other renders each run in turn. */
  lemma {:induction false} BlocksAppend(a: seq<JsonObject>, b: seq<JsonObject>)
    ensures Blocks(a + b) == Blocks(a) + Blocks(b)
    decreases |b|
  {
    if |b| == 0 {
      assert a + b == a;
    } else {
      var b', last := b[..|b| - 1], b[|b| - 1];
      BlocksAppend(a, b');
      assert (a + b)[..|a + b| - 1] == a + b';
      assert (a + b)[|a + b| - 1] == last;
      AppendAssoc(Blocks(a), Blocks(b'), TurnBlock(last));
    }
  }

  /**
   * The block holds exactly the last min(n, 5) turns, oldest first: a
   * history of at least five turns renders like its last five, and a shorter
   * one renders every turn.
   */
  lemma HistoryWindowRendered(h: seq<JsonObject>)
    ensures |h| >= HISTORY_WINDOW ==> HistoryContextOf(h) == HISTORY_HEADER + Blocks(h[|h| - HISTORY_WINDOW..])
    ensures 0 < |h| < HISTORY_WINDOW ==> HistoryContextOf(h) == HISTORY_HEADER + Blocks(h)
  {
    if |h| >= HISTORY_WINDOW {
      assert LastN(h, HISTORY_WINDOW) == h[|h| - HISTORY_WINDOW..];
    } else if |h| > 0 {
      assert LastN(h, HISTORY_WINDOW) == h;
    }
  }

  /** Turns older than the last five never reach the block. */
  lemma OlderTurnsIgnored(older: seq<JsonObject>, recent: seq<JsonObject>)
    requires |recent| >= HISTORY_WINDOW
    ensures HistoryContextOf(older + recent) == HistoryContextOf(recent)
  {
    assert LastN(older + recent, HISTORY_WINDOW) == LastN(recent, HISTORY_WINDOW);
  }

  /** Appending one turn to a short history appends its block to the rendering. */
  lemma NewTurnAppended(h: seq<JsonObject>, conv: JsonObject)
    requires 0 < |h| < HISTORY_WINDOW
    ensures HistoryContextOf(h + [conv]) == HistoryContextOf(h) + TurnBlock(conv)
  {
    var bh, tb := Blocks(h), TurnBlock(conv);
    assert HistoryContextOf(h + [conv]) == HISTORY_HEADER + Blocks(h + [conv]) by {
      assert LastN(h + [conv], HISTORY_WINDOW) == h + [conv];
    }
    assert HistoryContextOf(h) == HISTORY_HEADER + bh by {
      assert LastN(h, HISTORY_WINDOW) == h;
    }
    BlocksAppend(h, [conv]);
    assert Blocks([conv]) == tb by {
      assert [conv][..0] == [];
    }
    AppendAssoc(HISTORY_HEADER, bh, tb);
  }

  // ---------------------------------------------------------------------
  // prompt_text
  // ---------------------------------------------------------------------

  /** One `(role, template)` pair of the chat prompt; `None` is Python's None content. */
  datatype PromptEntry = PromptEntry(role: string, template: Option<string>)

  /** The system entry, whose only content is the `context_text` slot. */
  const SYSTEM_ENTRY: PromptEntry := PromptEntry("system", Some("{context_text}"))

  /** The closing human entry, the `input_text` slot. */
  const QUESTION_ENTRY: PromptEntry := PromptEntry("human", Some("{input_text}"))

  /** `message.get('content')`. */
  function ContentOf(message: JsonObject): Option<string>
  {
    if "content" in message then Some(message["content"]) else None
  }

  /** `user` becomes `human`, `assistant` becomes `ai`, any other role is skipped. */
  function MessageEntry(message: JsonObject): Option<PromptEntry>
  {
    if "role" in message && message["role"] == "user" then Some(PromptEntry("human", ContentOf(message)))
    else if "role" in message && message["role"] == "assistant" then Some(PromptEntry("ai", ContentOf(message)))
    else None
  }

  /** The entries contributed by a history, in history order. */
  function HistoryEntries(h: seq<JsonObject>): seq<PromptEntry>
  {
    if |h| == 0 then []
    else
      var rest := HistoryEntries(h[..|h| - 1]);
      match MessageEntry(h[|h| - 1])
      case None => rest
      case Some(e) => rest + [e]
  }

  /** The loop that builds `prompt_text`. */
  method PromptText(chatHistory: seq<JsonObject>) returns (promptText: seq<PromptEntry>)
    ensures promptText == [SYSTEM_ENTRY] + HistoryEntries(chatHistory) + [QUESTION_ENTRY]
  {
    promptText := [SYSTEM_ENTRY];
    for i := 0 to |chatHistory|
      invariant promptText == [SYSTEM_ENTRY] + HistoryEntries(chatHistory[..i])
    {
      assert chatHistory[..i + 1][..i] == chatHistory[..i];
      var message := chatHistory[i];
      if "role" in message && message["role"] == "user" {
        promptText := promptText + [PromptEntry("human", ContentOf(message))];
      } else if "role" in message && message["role"] == "assistant" {
        promptText := promptText + [PromptEntry("ai", ContentOf(message))];
      }
    }
    assert chatHistory[..|chatHistory|] == chatHistory;
    promptText := promptText + [QUESTION_ENTRY];
  }

  /** Messages of a concatenated history are the messages of each part, in order. */
  lemma {:induction false} HistoryEntriesAppend(a: seq<JsonObject>, b: seq<JsonObject>)
    ensures HistoryEntries(a + b) == HistoryEntries(a) + HistoryEntries(b)
    decreases |b|
  {
    if |b| == 0 {
      assert a + b == a;
    } else {
      HistoryEntriesAppend(a, b[..|b| - 1]);
      assert (a + b)[..|a + b| - 1] == a + b[..|b| - 1];
    }
  }

  /** Every role is either `user` or `assistant`. */
  predicate AllRolesKnown(h: seq<JsonObject>)
  {
    forall i :: 0 <= i < |h| ==> "role" in h[i] && (h[i]["role"] == "user" || h[i]["role"] == "assistant")
  }

  /**
   * One message per entry whose role is known, in order, mapped user to human
   * and assistant to ai; the whole history is used, not only the last five.
   */
  lemma {:induction false} EntriesFollowHistory(h: seq<JsonObject>)
    requires AllRolesKnown(h)
    ensures |HistoryEntries(h)| == |h|
    ensures forall i :: 0 <= i < |h| ==>
              HistoryEntries(h)[i].template == ContentOf(h[i]) &&
              HistoryEntries(h)[i].role == (if h[i]["role"] == "user" then "human" else "ai")
    decreases |h|
  {
    if |h| > 0 {
      EntriesFollowHistory(h[..|h| - 1]);
    }
  }

  /** Unknown roles contribute nothing, so there are never more messages than entries. */
  lemma {:induction false} EntriesAtMostHistory(h: seq<JsonObject>)
    ensures |HistoryEntries(h)| <= |h|
    ensures (forall i :: 0 <= i < |h| ==> "role" !in h[i]) ==> HistoryEntries(h) == []
    decreases |h|
  {
    if |h| > 0 {
      EntriesAtMostHistory(h[..|h| - 1]);
    }
  }

  // ---------------------------------------------------------------------
  // format_docs, get_input_string and the chain's slot values
  // ---------------------------------------------------------------------

  /** Separator between retrieved documents. */
  const DOC_SEPARATOR: string := "\n\n"

  function Contents(docs: seq<Document>): (r: seq<string>)
    ensures |r| == |docs|
    ensures forall i :: 0 <= i < |docs| ==> r[i] == docs[i].pageContent
  {
    seq(|docs|, i requires 0 <= i < |docs| => docs[i].pageContent)
  }

  /** `format_docs`: the page contents joined with a blank line, in retrieval order. */
  function FormatDocs(docs: seq<Document>): (r: string)
    ensures docs == [] ==> r == ""
    ensures |docs| == 1 ==> r == docs[0].pageContent
  {
    Join(Contents(docs), DOC_SEPARATOR)
  }

  /** Formatting two retrieved runs puts one blank line between their formattings. */
  lemma FormatDocsAppend(a: seq<Document>, b: seq<Document>)
    requires |a| > 0 && |b| > 0
    ensures FormatDocs(a + b) == FormatDocs(a) + DOC_SEPARATOR + FormatDocs(b)
  {
    assert Contents(a + b) == Contents(a) + Contents(b);
    JoinAppend(Contents(a), Contents(b), DOC_SEPARATOR);
  }

  /** The value the chain is invoked with: a dict, or plain text when streamed. */
  datatype ChainInput = DictInput(fields: map<string, string>) | TextInput(text: string)

  /** `get_input_string`: unwraps `input_text` from a dict, passes anything else through. */
  function GetInputString(x: ChainInput): (r: Result<string, PyError>)
    ensures x.TextInput? ==> r == Ok(x.text)
    ensures x.DictInput? && "input_text" in x.fields ==> r == Ok(x.fields["input_text"])
    ensures x.DictInput? && "input_text" !in x.fields ==> r == Err(KeyError("input_text"))
  {
    match x
    case TextInput(t) => Ok(t)
    case DictInput(fields) =>
      if "input_text" in fields then Ok(fields["input_text"]) else Err(KeyError("input_text"))
  }

  /** Number of documents the retriever asks for. */
  const RETRIEVER_K: nat := 3

  /** The retriever: the first k documents of the similarity ranking. */
  function Retrieve(ranking: seq<Document>): (r: seq<Document>)
    ensures |r| <= RETRIEVER_K && |r| <= |ranking| && r == ranking[..|r|]
    ensures |ranking| >= RETRIEVER_K ==> |r| == RETRIEVER_K
  {
    if |ranking| <= RETRIEVER_K then ranking else ranking[..RETRIEVER_K]
  }

  /** The values bound to the prompt's `{context_text}` and `{input_text}` slots. */
  datatype Slots = Slots(contextText: string, inputText: string)

  /** What a request has bound when the model would be called. */
  datatype Binding = Binding(prompt: seq<PromptEntry>, slots: Slots, historyContext: string)

  /** Every entry has a template. */
  predicate TemplatesPresent(entries: seq<PromptEntry>)
  {
    forall i :: 0 <= i < |entries| ==> entries[i].template.Some?
  }

  /**
   * `ChatPromptTemplate.from_messages`: a `None` template is rejected with a
   * `ValueError`, otherwise the prompt holds the entries as given.
   */
  function FromMessages(entries: seq<PromptEntry>): (r: Result<seq<PromptEntry>, PyError>)
  {
    if TemplatesPresent(entries) then Ok(entries) else Err(ValueError("Invalid template: None"))
  }

  /** Every user or assistant entry of the history carries a `content` key. */
  predicate ContentsPresent(h: seq<JsonObject>)
  {
    forall i :: 0 <= i < |h| && MessageEntry(h[i]).Some? ==> "content" in h[i]
  }

  /** The history's messages all have templates exactly when no user or assistant entry lacks `content`. */
  lemma {:induction false} HistoryTemplatesPresent(h: seq<JsonObject>)
    ensures TemplatesPresent(HistoryEntries(h)) <==> ContentsPresent(h)
    decreases |h|
  {
    if |h| > 0 {
      var init := h[..|h| - 1];
      var last := h[|h| - 1];
      HistoryTemplatesPresent(init);
      assert forall i :: 0 <= i < |init| ==> init[i] == h[i];
      if ContentsPresent(h) {
        assert ContentsPresent(init) by {
          forall i | 0 <= i < |init| && MessageEntry(init[i]).Some?
            ensures "content" in init[i]
          {
            assert init[i] == h[i];
          }
        }
      } else {
        var j :| 0 <= j < |h| && MessageEntry(h[j]).Some? && "content" !in h[j];
        if j < |init| {
          assert init[j] == h[j];
          assert !ContentsPresent(init);
          var e := HistoryEntries(init);
          var k :| 0 <= k < |e| && e[k].template.None?;
          assert HistoryEntries(h)[k] == e[k];
        } else {
          assert HistoryEntries(h) == HistoryEntries(init) + [MessageEntry(last).value];
          assert HistoryEntries(h)[|HistoryEntries(h)| - 1].template.None?;
        }
      }
    }
  }

  /** The message list is accepted exactly when the history's messages all have templates. */
  lemma PromptTemplatesPresent(h: seq<JsonObject>)
    ensures TemplatesPresent([SYSTEM_ENTRY] + HistoryEntries(h) + [QUESTION_ENTRY]) <==> ContentsPresent(h)
  {
    var e := HistoryEntries(h);
    var all := [SYSTEM_ENTRY] + e + [QUESTION_ENTRY];
    HistoryTemplatesPresent(h);
    assert forall i :: 0 <= i < |e| ==> all[i + 1] == e[i];
    assert all[0] == SYSTEM_ENTRY && all[|all| - 1] == QUESTION_ENTRY;
  }

  /**
   * request_rag_lcel up to the model call, as a value. `from_messages`
   * raises on a user or assistant entry without content; otherwise the
   * message list and history block follow the parsed history, and the slots
   * are what the chain's two branches produce from `{'input_text': input_text}`.
   */
  function BindRequest(inputText: string, history: Option<string>,
                       decode: string -> Option<seq<JsonObject>>,
                       search: string -> seq<Document>): (b: Result<Binding, PyError>)
    ensures b.Ok? ==> |b.value.prompt| >= 2 && b.value.prompt[0] == SYSTEM_ENTRY &&
                      b.value.prompt[|b.value.prompt| - 1] == QUESTION_ENTRY
    ensures b.Err? ==> b.error.ValueError?
  {
    var h := ParseHistory(history, decode);
    match FromMessages([SYSTEM_ENTRY] + HistoryEntries(h) + [QUESTION_ENTRY])
    case Err(e) => Err(e)
    case Ok(prompt) =>
      var chainInput := DictInput(map["input_text" := inputText]);
      var query := GetInputString(chainInput).value;
      Ok(Binding(prompt,
                 Slots(FormatDocs(Retrieve(search(query))), GetInputString(chainInput).value),
                 HistoryContextOf(h)))
  }

  /** A request fails exactly when a user or assistant entry of its parsed history has no content. */
  lemma BindFailsIffContentMissing(inputText: string, history: Option<string>,
                                   decode: string -> Option<seq<JsonObject>>, search: string -> seq<Document>)
    ensures BindRequest(inputText, history, decode, search).Ok? <==> ContentsPresent(ParseHistory(history, decode))
  {
    PromptTemplatesPresent(ParseHistory(history, decode));
  }

  /**
   * request_rag_lcel up to the model call: parses the history, builds the
   * (unused) history block and the message list, hands the list to
   * `from_messages`, and binds the slots by running the chain's two
   * branches on `{'input_text': input_text}`. `search` is the vector
   * store's similarity ranking for a query.
   */
  method RequestRagLcel(inputText: string, history: Option<string>,
                        decode: string -> Option<seq<JsonObject>>,
                        search: string -> seq<Document>)
    returns (b: Result<Binding, PyError>)
    ensures b == BindRequest(inputText, history, decode, search)
    ensures b.Ok? <==> ContentsPresent(ParseHistory(history, decode))
    ensures var h := ParseHistory(history, decode);
            b.Ok? ==> b.value.prompt == [SYSTEM_ENTRY] + HistoryEntries(h) + [QUESTION_ENTRY] &&
                      b.value.historyContext == HistoryContextOf(h) &&
                      b.value.slots == Slots(FormatDocs(Retrieve(search(inputText))), inputText)
  {
    var chatHistory := ParseHistory(history, decode);
    var historyContext := HistoryContext(chatHistory);
    var promptText := PromptText(chatHistory);
    PromptTemplatesPresent(chatHistory);
    var prompt := FromMessages(promptText);
    if prompt.Err? {
      return Err(prompt.error);
    }
    var chainInput := DictInput(map["input_text" := inputText]);
    var query := GetInputString(chainInput);
    var context := FormatDocs(Retrieve(search(query.value)));
    b := Ok(Binding(prompt.value, Slots(context, GetInputString(chainInput).value), historyContext));
  }

  /**
   * The system message is the bare `{context_text}` slot, and the chain
   * fills that slot from retrieval on the question alone: two accepted
   * requests with the same question bind the same slots whatever their
   * histories, so the rules and history text built in `context_text` never
   * reach the model.
   */
  lemma SystemSlotIgnoresHistory(inputText: string, h1: Option<string>, h2: Option<string>,
                                 decode: string -> Option<seq<JsonObject>>, search: string -> seq<Document>)
    ensures var b1, b2 := BindRequest(inputText, h1, decode, search), BindRequest(inputText, h2, decode, search);
            b1.Ok? && b2.Ok? ==> b1.value.slots == b2.value.slots
    ensures var b1 := BindRequest(inputText, h1, decode, search);
            b1.Ok? ==> b1.value.slots.contextText == FormatDocs(Retrieve(search(inputText))) &&
                       b1.value.prompt[0].template == Some("{context_text}")
  {
  }

  /** The keys of a turn as the browser client stores it. */
  const CLIENT_KEYS: set<string> := {"user", "assistant", "timestamp"}

  /**
   * The client stores turns as {user, assistant, timestamp}; such entries
   * carry no `role`, so they render in the history block but add no message.
   */
  lemma ClientShapedHistory(h: seq<JsonObject>)
    requires |h| > 0
    requires forall i :: 0 <= i < |h| ==> h[i].Keys == CLIENT_KEYS
    ensures HistoryEntries(h) == []
    ensures HistoryContextOf(h) != ""
  {
    forall i | 0 <= i < |h|
      ensures "role" !in h[i]
    {
      ClientTurnHasNoRole(h[i]);
    }
    EntriesAtMostHistory(h);
  }

  lemma ClientTurnHasNoRole(m: JsonObject)
    requires m.Keys == CLIENT_KEYS
    ensures "role" !in m
  {
    assert "role" != "user" by {
      assert "role"[0] != "user"[0];
    }
    assert |"role"| != |"assistant"| && |"role"| != |"timestamp"|;
  }
}
