/**
 * The browser client's conversation state (js/app.js): the bounded turn
 * history mirrored to local storage, the `isProcessing` guard of
 * `sendMessage`, and what a response or a failure does to that state.
 *
 * The clock, JSON serialisation and parsing are parameters; DOM updates,
 * scrolling and MathJax are left out.
 */
module ChatClient {
  import opened Wrappers
  import opened Text

  /** One stored turn, `{user, assistant, timestamp}`. */
  datatype Turn = Turn(user: string, assistant: string, timestamp: string)

  /** The history keeps at most this many turns. */
  const MAX_HISTORY: nat := 10

  /** `chatHistory` after pushing `t` and shifting once if the length then exceeds the bound. */
  function AfterAdd(h: seq<Turn>, t: Turn): (r: seq<Turn>)
    ensures |r| > 0 && r[|r| - 1] == t
  {
    var pushed := h + [t];
    if |pushed| > MAX_HISTORY then pushed[1..] else pushed
  }

  /** The newest `MAX_HISTORY` turns of `s`, oldest first. */
  function Newest(s: seq<Turn>): (r: seq<Turn>)
    ensures |r| <= MAX_HISTORY
  {
    if |s| <= MAX_HISTORY then s else s[|s| - MAX_HISTORY..]
  }

  /** The history after adding `ts` one by one, starting from `h`. */
  function AddAll(h: seq<Turn>, ts: seq<Turn>): seq<Turn>
  {
    if |ts| == 0 then h else AfterAdd(AddAll(h, ts[..|ts| - 1]), ts[|ts| - 1])
  }

  /** One add to a window of the newest turns is the window of one more turn. */
  lemma AfterAddNewest(s: seq<Turn>, t: Turn)
    ensures AfterAdd(Newest(s), t) == Newest(s + [t])
  {
    if |s| >= MAX_HISTORY {
      assert (Newest(s) + [t])[1..] == (s + [t])[|s + [t]| - MAX_HISTORY..];
    }
  }

  /**
   * The FIFO keeps exactly the newest ten turns: starting from a history
   * within the bound, any run of adds leaves the last ten turns of
   * everything seen, in order, and so never more than ten.
   */
  lemma {:induction false} HistoryKeepsNewest(h: seq<Turn>, ts: seq<Turn>)
    requires |h| <= MAX_HISTORY
    ensures AddAll(h, ts) == Newest(h + ts)
    decreases |ts|
  {
    if |ts| == 0 {
      assert h + ts == h;
    } else {
      var ts' := ts[..|ts| - 1];
      HistoryKeepsNewest(h, ts');
      AfterAddNewest(h + ts', ts[|ts| - 1]);
      assert h + ts' + [ts[|ts| - 1]] == h + ts;
    }
  }

  /**
   * A loaded history longer than the bound is not trimmed back: each add
   * shifts out one turn, so the length stays where it was. Only
   * `loadHistoryFromStorage` could produce such a history, and it is never
   * called in js/app.js; page load empties the history instead.
   */
  lemma OverlongHistoryStaysLong(h: seq<Turn>, t: Turn)
    requires |h| > MAX_HISTORY
    ensures |AfterAdd(h, t)| == |h|
    ensures AfterAdd(h, t) == h[1..] + [t]
  {
  }

  /** JavaScript's white space and line terminators, as `String.prototype.trim` removes them. */
  predicate IsJsSpace(c: char)
  {
    c == '\t' || c == '\n' || c == '\U{000B}' || c == '\U{000C}' || c == '\r' || c == ' ' ||
    c == '\U{00A0}' || c == '\U{1680}' || ('\U{2000}' <= c <= '\U{200A}') ||
    c == '\U{2028}' || c == '\U{2029}' || c == '\U{202F}' || c == '\U{205F}' ||
    c == '\U{3000}' || c == '\U{FEFF}'
  }

  /** `userInput.value.trim()`. */
  function JsTrim(s: string): string
  {
    Strip(s, IsJsSpace)
  }

  /** Input made only of white space is refused; anything else is sent without its outer white space. */
  lemma BlankInputRefused(s: string)
    ensures JsTrim(s) == "" <==> forall k :: 0 <= k < |s| ==> IsJsSpace(s[k])
  {
    StripSlice(s, IsJsSpace);
  }

  /** The module-level state of js/app.js plus the input box and the stored copy of the history. */
  class Client {
    /** The in-memory turn history. */
    var chatHistory: seq<Turn>
    /** `localStorage['chatHistory']`, `None` when the key is absent. */
    var stored: Option<string>
    /** Set while a request is in flight. */
    var isProcessing: bool
    /** The text field's current value. */
    var userInput: string

    /** The history is within its bound. */
    predicate Bounded()
      reads this
    {
      |chatHistory| <= MAX_HISTORY
    }

    /** Script load: empty history, idle; local storage keeps what a previous page left there. */
    constructor(storage: Option<string>)
      ensures chatHistory == [] && stored == storage && !isProcessing && userInput == ""
    {
      chatHistory := [];
      stored := storage;
      isProcessing := false;
      userInput := "";
    }

    /** `addToHistory`: push, shift once when over the bound, then write the history to storage. */
    method AddToHistory(userMessage: string, botResponse: string, now: string, serialize: seq<Turn> -> string)
      modifies this
      ensures chatHistory == AfterAdd(old(chatHistory), Turn(userMessage, botResponse, now))
      ensures stored == Some(serialize(chatHistory))
      ensures isProcessing == old(isProcessing) && userInput == old(userInput)
      ensures old(Bounded()) ==> Bounded()
    {
      chatHistory := chatHistory + [Turn(userMessage, botResponse, now)];
      if |chatHistory| > MAX_HISTORY {
        chatHistory := chatHistory[1..];
      }
      stored := Some(serialize(chatHistory));
    }

    /**
     * `loadHistoryFromStorage`: a non-empty stored value replaces the history
     * when it parses and empties it when parsing throws; otherwise nothing changes.
     * js/app.js defines it but never calls it.
     */
    method LoadHistoryFromStorage(parse: string -> Option<seq<Turn>>)
      modifies this
      ensures (old(stored).Some? && old(stored).value != "" && parse(old(stored).value).Some?) ==>
                chatHistory == parse(old(stored).value).value
      ensures (old(stored).Some? && old(stored).value != "" && parse(old(stored).value).None?) ==>
                chatHistory == []
      ensures old(stored).None? || old(stored) == Some("") ==> chatHistory == old(chatHistory)
      ensures stored == old(stored) && isProcessing == old(isProcessing) && userInput == old(userInput)
    {
      if stored.Some? && stored.value != "" {
        var parsed := parse(stored.value);
        if parsed.Some? {
          chatHistory := parsed.value;
        } else {
          chatHistory := [];
        }
      }
    }

    /** `clearHistory`: empty history, storage key removed. */
    method ClearHistory()
      modifies this
      ensures chatHistory == [] && stored == None
      ensures isProcessing == old(isProcessing) && userInput == old(userInput)
      ensures Bounded()
    {
      chatHistory := [];
      stored := None;
    }

    /** `initializeOnPageLoad`: every page load starts from an empty history and clears storage. */
    method InitializeOnPageLoad()
      modifies this
      ensures chatHistory == [] && stored == None
      ensures isProcessing == old(isProcessing) && userInput == old(userInput)
      ensures Bounded()
    {
      chatHistory := [];
      stored := None;
    }

    /**
     * The guard of `sendMessage`. Blank input or a request in flight changes
     * nothing and sends nothing; otherwise the trimmed text is sent with the
     * current history, the flag is set and the field cleared.
     */
    method SendMessage() returns (request: Option<(string, seq<Turn>)>)
      modifies this
      ensures JsTrim(old(userInput)) == "" || old(isProcessing) ==>
                request == None && isProcessing == old(isProcessing) && userInput == old(userInput)
      ensures JsTrim(old(userInput)) != "" && !old(isProcessing) ==>
                request == Some((JsTrim(old(userInput)), old(chatHistory))) && isProcessing && userInput == ""
      ensures chatHistory == old(chatHistory) && stored == old(stored)
    {
      var messageText := JsTrim(userInput);
      if messageText == "" || isProcessing {
        return None;
      }
      isProcessing := true;
      userInput := "";
      request := Some((messageText, chatHistory));
    }

    /**
     * The end of a request: a response appends the turn (the text as
     * received, not the rendered HTML); an error appends nothing. Either way
     * the flag is cleared.
     */
    method FinishRequest(messageText: string, response: Option<string>, now: string, serialize: seq<Turn> -> string)
      modifies this
      ensures response.Some? ==> chatHistory == AfterAdd(old(chatHistory), Turn(messageText, response.value, now)) &&
                                 stored == Some(serialize(chatHistory))
      ensures response.None? ==> chatHistory == old(chatHistory) && stored == old(stored)
      ensures !isProcessing && userInput == old(userInput)
      ensures old(Bounded()) ==> Bounded()
    {
      if response.Some? {
        AddToHistory(messageText, response.value, now, serialize);
      }
      isProcessing := false;
    }
  }

  /** A full exchange from an idle client sends once and leaves it idle with the turn recorded. */
  method Exchange(c: Client, input: string, reply: string, now: string, serialize: seq<Turn> -> string)
      returns (sent: Option<(string, seq<Turn>)>)
    requires !c.isProcessing && JsTrim(input) != ""
    modifies c
    ensures sent == Some((JsTrim(input), old(c.chatHistory)))
    ensures c.chatHistory == AfterAdd(old(c.chatHistory), Turn(JsTrim(input), reply, now))
    ensures !c.isProcessing
  {
    c.userInput := input;
    sent := c.SendMessage();
    c.FinishRequest(sent.value.0, Some(reply), now, serialize);
  }
}
