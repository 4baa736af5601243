/**
 * The chat sidebar of frontend/chat.js: the in-memory history sent with
 * nothing (line 8), the bubbles of the transcript, and `sendMessage`.
 *
 * A send runs as one step whose server outcome is a parameter. What the page
 * does along the way (bubbles appended and removed, the one request posted)
 * is recorded in `log`, so the order of those effects is part of the state.
 */
module ChatSession {
  import opened Wrappers
  import opened Strings
  import opened Contacts
  import opened Linkify
  import AppState
  import ListPipeline

  datatype Role = User | Assistant

  /** An entry of `chatHistory`. */
  datatype ChatMessage = ChatMessage(role: Role, content: string)

  /** A bubble of the transcript: plain text (`appendBubble`) or markup (`appendBubbleHtml`). */
  datatype Bubble =
    | TextBubble(text: string, className: string)
    | HtmlBubble(html: string, className: string)

  datatype ChatEvent =
    | Appended(bubble: Bubble)
    | Removed(bubble: Bubble)
    | Posted(message: string)

  /**
   * How the request of a send ends: the fetch throws, the status is not ok,
   * the body is not JSON, or a body arrives with an `error` (empty when
   * absent) and a `reply`.
   */
  datatype Outcome =
    | FetchThrew
    | NotOk(status: int)
    | BadJson
    | Replied(error: string, reply: string)

  const TypingBubble := TextBubble("...חושב", "assistant typing")
  const NetworkErrorBubble := TextBubble("שגיאה בתקשורת עם השרת. נסה שוב.", "assistant error")

  /** The bubble that ends a send with outcome `outcome` (lines 55-66). */
  function ResultBubble(outcome: Outcome, roster: Option<seq<Contact>>): (r: Bubble)
    ensures r.HtmlBubble? <==> outcome.Replied? && outcome.error == ""
    ensures r.HtmlBubble? ==> r.className == "assistant"
    ensures r.TextBubble? ==> r.className == "assistant error"
  {
    match outcome
    case Replied(error, reply) =>
      if error != "" then TextBubble("שגיאה: " + error, "assistant error")
      else HtmlBubble(Linkified(reply, roster), "assistant")
    case _ => NetworkErrorBubble
  }

  /** The assistant entry a send adds: the raw reply, and only when there is no error (lines 55-63). */
  function Answer(outcome: Outcome): seq<ChatMessage> {
    if outcome.Replied? && outcome.error == "" then [ChatMessage(Assistant, outcome.reply)] else []
  }

  /** The history entries a send adds for the trimmed input `text` (lines 34, 62). */
  function Turn(text: string, outcome: Outcome): seq<ChatMessage> {
    [ChatMessage(User, text)] + Answer(outcome)
  }

  /**
   * What happens once the response is in (lines 52-66): the bubble that
   * ends the send, and the entries that join the history. A reply is
   * linkified against the roster of the moment.
   */
  method Respond(outcome: Outcome, roster: Option<seq<Contact>>) returns (result: Bubble, answer: seq<ChatMessage>)
    ensures result == ResultBubble(outcome, roster)
    ensures answer == Answer(outcome)
    ensures answer != [] <==> result.HtmlBubble?
  {
    match outcome {
      case Replied(error, reply) =>
        if error != "" {
          result := TextBubble("שגיאה: " + error, "assistant error");
          answer := [];
        } else {
          var html := MakeContactNamesClickable(reply, roster);
          result := HtmlBubble(html, "assistant");
          answer := [ChatMessage(Assistant, reply)];
        }
      case _ =>
        result := NetworkErrorBubble;
        answer := [];
    }
  }

  /** The number of user entries of a history. */
  function UserTurns(h: seq<ChatMessage>): nat
    decreases |h|
  {
    if h == [] then 0 else UserTurns(h[..|h| - 1]) + (if h[|h| - 1].role == User then 1 else 0)
  }

  lemma UserTurnsAppend(h: seq<ChatMessage>, m: ChatMessage)
    ensures UserTurns(h + [m]) == UserTurns(h) + (if m.role == User then 1 else 0)
  {
    assert (h + [m])[..|h|] == h;
  }

  /**
   * A history starts with a user entry, and every assistant entry answers
   * the user entry right before it.
   */
  ghost predicate WellFormed(h: seq<ChatMessage>) {
    && (h != [] ==> h[0].role == User)
    && forall i :: 0 < i < |h| && h[i].role == Assistant ==> h[i - 1].role == User
  }

  /** A turn appended to a well-formed history keeps it well formed. */
  lemma TurnKeepsWellFormed(h: seq<ChatMessage>, text: string, outcome: Outcome)
    requires WellFormed(h)
    ensures WellFormed(h + Turn(text, outcome))
  {
    var t := Turn(text, outcome);
    var h' := h + t;
    forall i | 0 < i < |h'| && h'[i].role == Assistant
      ensures h'[i - 1].role == User
    {
      if i >= |h| {
        assert t[i - |h|].role == Assistant;
        assert i - |h| == 1;
      }
    }
  }

  /** A turn holds one user entry. */
  lemma TurnUserTurns(h: seq<ChatMessage>, text: string, outcome: Outcome)
    ensures UserTurns(h + Turn(text, outcome)) == UserTurns(h) + 1
  {
    UserTurnsAppend(h, ChatMessage(User, text));
    if outcome.Replied? && outcome.error == "" {
      assert h + Turn(text, outcome) == (h + [ChatMessage(User, text)]) + [ChatMessage(Assistant, outcome.reply)];
      UserTurnsAppend(h + [ChatMessage(User, text)], ChatMessage(Assistant, outcome.reply));
    } else {
      assert h + Turn(text, outcome) == h + [ChatMessage(User, text)];
    }
  }

  lemma ReplaceLast<T>(s: seq<T>, x: T, y: T, z: T)
    ensures (s + [x, y])[..|s + [x, y]| - 1] + [z] == s + [x, z]
  {
    assert (s + [x, y])[..|s + [x, y]| - 1] == s + [x];
  }

  lemma AppendAssoc<T>(a: seq<T>, b: seq<T>, c: seq<T>)
    ensures (a + b) + c == a + (b + c)
  {
  }

  class Chat {
    /** `chatHistory`. */
    var history: seq<ChatMessage>
    /** The bubbles of `chatMessages`, in order. */
    var bubbles: seq<Bubble>
    /** The value of `chatInput`. */
    var input: string
    /** Every bubble appended or removed and every request posted, in order. */
    var log: seq<ChatEvent>
    /** The messages posted to the server, one per send that got past the empty check. */
    var posts: seq<string>

    /** The history is well formed, and every user entry belongs to exactly one request. */
    ghost predicate Valid()
      reads this`history, this`posts
    {
      WellFormed(history) && |posts| == UserTurns(history)
    }

    constructor ()
      ensures Valid()
      ensures history == [] && bubbles == [] && input == "" && log == [] && posts == []
    {
      history := [];
      bubbles := [];
      input := "";
      log := [];
      posts := [];
    }

    /** The user types into the input. */
    method SetInput(value: string)
      modifies this`input
      ensures input == value
    {
      input := value;
    }

    /**
     * `sendMessage`. Input that is empty once trimmed changes nothing.
     * Otherwise the trimmed text is shown and pushed as a user entry, the
     * input is cleared, a typing bubble is shown, the request carrying only
     * the text is posted, the typing bubble is removed, and then the result
     * bubble is shown; the reply joins the history only when there is no
     * error.
     */
    method SendMessage(roster: Option<seq<Contact>>, outcome: Outcome)
      requires Valid()
      modifies this`history, this`bubbles, this`input, this`log, this`posts
      ensures Valid()
      ensures Trim(old(input)) == "" ==>
        history == old(history) && bubbles == old(bubbles) && input == old(input)
        && log == old(log) && posts == old(posts)
      ensures Trim(old(input)) != "" ==>
        var text := Trim(old(input));
        && history == old(history) + Turn(text, outcome)
        && posts == old(posts) + [text]
        && input == ""
        && bubbles == old(bubbles) + [TextBubble(text, "user"), ResultBubble(outcome, roster)]
        && log == old(log) + [Appended(TextBubble(text, "user")), Appended(TypingBubble), Posted(text),
                              Removed(TypingBubble), Appended(ResultBubble(outcome, roster))]
    {
      var text := Trim(input);
      if text == "" {
        return;
      }
      Send(text, roster, outcome);
    }

    /** `sendMessage` past the empty check (lines 33-66), for the trimmed text. */
    method Send(text: string, roster: Option<seq<Contact>>, outcome: Outcome)
      requires Valid()
      modifies this`history, this`bubbles, this`input, this`log, this`posts
      ensures Valid()
      ensures history == old(history) + Turn(text, outcome)
      ensures posts == old(posts) + [text]
      ensures input == ""
      ensures bubbles == old(bubbles) + [TextBubble(text, "user"), ResultBubble(outcome, roster)]
      ensures log == old(log) + [Appended(TextBubble(text, "user")), Appended(TypingBubble), Posted(text),
                                 Removed(TypingBubble), Appended(ResultBubble(outcome, roster))]
    {
      ghost var h0, b0, l0 := history, bubbles, log;
      var user := TextBubble(text, "user");
      Submit(text);
      var result, answer := Respond(outcome, roster);
      ReplaceLast(b0, user, TypingBubble, result);
      Settle(result, answer);
      AppendAssoc(l0, [Appended(user), Appended(TypingBubble), Posted(text)], [Removed(TypingBubble), Appended(result)]);
      AppendAssoc(h0, [ChatMessage(User, text)], answer);
      TurnKeepsWellFormed(h0, text, outcome);
      TurnUserTurns(h0, text, outcome);
    }

    /**
     * Lines 33-46: the user's bubble and history entry, the input cleared,
     * the typing bubble shown and the request posted with the text alone.
     */
    method Submit(text: string)
      modifies this`history, this`bubbles, this`input, this`log, this`posts
      ensures history == old(history) + [ChatMessage(User, text)]
      ensures posts == old(posts) + [text]
      ensures input == ""
      ensures bubbles == old(bubbles) + [TextBubble(text, "user"), TypingBubble]
      ensures log == old(log) + [Appended(TextBubble(text, "user")), Appended(TypingBubble), Posted(text)]
    {
      var user := TextBubble(text, "user");
      bubbles := bubbles + [user];
      log := log + [Appended(user)];
      history := history + [ChatMessage(User, text)];
      input := "";
      bubbles := bubbles + [TypingBubble];
      log := log + [Appended(TypingBubble)];
      posts := posts + [text];
      log := log + [Posted(text)];
    }

    /** Lines 53-66: the typing bubble, the last one, is removed before the result bubble is shown. */
    method Settle(result: Bubble, answer: seq<ChatMessage>)
      requires bubbles != [] && bubbles[|bubbles| - 1] == TypingBubble
      modifies this`history, this`bubbles, this`log
      ensures history == old(history) + answer
      ensures bubbles == old(bubbles)[..|old(bubbles)| - 1] + [result]
      ensures log == old(log) + [Removed(TypingBubble), Appended(result)]
    {
      bubbles := bubbles[..|bubbles| - 1];
      log := log + [Removed(TypingBubble)];
      history := history + answer;
      bubbles := bubbles + [result];
      log := log + [Appended(result)];
    }
  }

  // ---------------------------------------------------------------------------
  // Runs of the sidebar, proved from the method contracts alone

  /** A failed send, then a successful one: only the second reply is remembered, after both user entries. */
  method FailThenSucceedRun(first: string, second: string, reply: string)
    returns (history: seq<ChatMessage>, posts: seq<string>)
    requires Trim(first) != "" && Trim(second) != ""
    ensures history == [ChatMessage(User, Trim(first)), ChatMessage(User, Trim(second)), ChatMessage(Assistant, reply)]
    ensures posts == [Trim(first), Trim(second)]
  {
    ghost var t1, t2 := Trim(first), Trim(second);
    assert Turn(t1, NotOk(500)) == [ChatMessage(User, t1)];
    assert Turn(t2, Replied("", reply)) == [ChatMessage(User, t2), ChatMessage(Assistant, reply)];
    var chat := new Chat();
    chat.SetInput(first);
    chat.SendMessage(None, NotOk(500));
    ghost var h1 := chat.history;
    assert h1 == [ChatMessage(User, t1)];
    assert chat.posts == [t1];
    chat.SetInput(second);
    chat.SendMessage(None, Replied("", reply));
    assert chat.history == h1 + Turn(t2, Replied("", reply));
    history, posts := chat.history, chat.posts;
  }

  /**
   * With neither filter nor search, rendering the table sorts the roster in
   * place, and a reply that arrives afterwards is linked against the roster
   * in date order, not in the order the server sent it.
   */
  method LinkAfterRenderRun(contacts: seq<Contact>, reply: string) returns (html: string)
    ensures html == Linkified(reply, Some(ListPipeline.SortByDate(contacts)))
  {
    var app := new AppState.App();
    app.ContactsArrived(contacts);
    html := MakeContactNamesClickable(reply, Some(app.allContacts));
  }

  lemma BlankTrimsAway()
    ensures Trim(" \t") == ""
  {
    assert " \t"[1..] == "\t" && "\t"[1..] == [];
    assert TrimStart(" \t") == [];
  }

  /** White space only sends nothing, shows nothing and keeps the input. */
  method BlankInputRun() returns (history: seq<ChatMessage>, bubbles: seq<Bubble>, input: string)
    ensures history == [] && bubbles == [] && input == " \t"
  {
    var chat := new Chat();
    chat.SetInput(" \t");
    BlankTrimsAway();
    chat.SendMessage(None, FetchThrew);
    history, bubbles, input := chat.history, chat.bubbles, chat.input;
  }
}
