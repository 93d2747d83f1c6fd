/**
  The chat front-end's per-session state and its three tabs.

  A session owns three append-only conversation logs, one per tab.  Each
  tab's handler sends at most one request to the remote model; only when the
  request succeeds does it append exactly two turns, the user's side and the
  model's reply, to that tab's log.  The history panel of a tab replays its
  log two entries at a time and renders each complete pair as one block.

  The remote model is not modelled: its answer to the request a handler
  sends is passed in as a `Reply`.
 */
module Chat {
  import opened HtmlEscape
  import opened PyText

  datatype Option<T> = None | Some(value: T)

  /** One entry of a log: a fixed role label and the text or file name shown under it. */
  datatype Turn = Turn(role: string, content: string)

  /** An uploaded file: its name, and its bytes standing for the decoded RGB image. */
  datatype Upload = Upload(name: string, bytes: seq<bv8>)

  /** What a handler sends to the remote model. */
  datatype Request =
    | TextOnly(prompt: string)
    | ImageOnly(image: Upload)
    | ImageAndText(image: Upload, question: string)

  /** The remote model's answer to a request: its reply text, or the message of the exception raised. */
  datatype Reply = Success(text: string) | Failure(message: string)

  /** The two escaped fragments a history block (or a fresh exchange) shows. */
  datatype Block = Block(ask: string, answer: string)

  /** What a handler shows right after the button press. */
  datatype Feedback =
    | Nothing
    | Exchange(block: Block)
    | Caption(caption: string)
    | Error(message: string)

  datatype Tab = TextTab | ImageTab | CombinedTab

  // Role labels written into the logs.
  const YouRole := "You"
  const GeminiRole := "Gemini"
  const UploadedRole := "\U{1F5BC}\U{FE0F} Uploaded"
  const CaptionRole := "\U{1F916} Caption"
  const ImagePromptRole := "\U{1F4F7} Image + Prompt"
  const RobotGeminiRole := "\U{1F916} Gemini"

  /** The role of the user's and of the model's entries in each tab's log. */
  function AskRole(tab: Tab): string {
    match tab
    case TextTab => YouRole
    case ImageTab => UploadedRole
    case CombinedTab => ImagePromptRole
  }

  function AnswerRole(tab: Tab): string {
    match tab
    case TextTab => GeminiRole
    case ImageTab => CaptionRole
    case CombinedTab => RobotGeminiRole
  }

  /**
    A log made of complete exchanges: even length, the user's entry at every
    even index and the model's at every odd one.
   */
  ghost predicate Paired(log: seq<Turn>, tab: Tab) {
    && |log| % 2 == 0
    && forall k :: 0 <= k < |log| ==> log[k].role == (if k % 2 == 0 then AskRole(tab) else AnswerRole(tab))
  }

  /**
    How one pair of entries is rendered in a tab's history: the image tab
    escapes the file name without turning newlines into `<br>`, every other
    fragment gets the full display transformation.  Both fragments keep
    all of their entry's text, and every fully displayed one is safe to
    splice into the page.
   */
  function RenderPair(tab: Tab, ask: Turn, answer: Turn): (r: Block)
    ensures Unescape(r.ask) == ask.content && Unescape(r.answer) == answer.content
    ensures MarkupFree(r.answer)
    ensures tab != ImageTab ==> MarkupFree(r.ask)
    ensures tab == ImageTab ==> forall i :: 0 <= i < |r.ask| ==> r.ask[i] != '<' && r.ask[i] != '>'
  {
    UnescapeDisplay(answer.content);
    DisplayMarkupFree(answer.content);
    if tab == ImageTab then
      UnescapeEscape(ask.content);
      Block(Escape(ask.content), Display(answer.content))
    else
      UnescapeDisplay(ask.content);
      DisplayMarkupFree(ask.content);
      Block(Display(ask.content), Display(answer.content))
  }

  /** The message `st.error` shows for a failed call: the exception's text after a fixed prefix. */
  function ErrorText(r: Reply): (t: string)
    requires r.Failure?
    ensures |t| == 7 + |r.message| && t[..7] == "Error: " && t[7..] == r.message
  {
    "Error: " + r.message
  }

  /**
    The history panel of a tab: walks the log in steps of two and renders
    each complete pair with `render`, skipping a trailing unpaired entry.
    It only reads the log.  `Session.History` calls it on a tab's log with
    `(a, b) => RenderPair(tab, a, b)`.
   */
  method Replay(log: seq<Turn>, render: (Turn, Turn) -> Block) returns (blocks: seq<Block>)
    ensures |blocks| == |log| / 2
    ensures forall k :: 0 <= k < |blocks| ==> blocks[k] == render(log[2 * k], log[2 * k + 1])
  {
    blocks := [];
    var i := 0;
    while i < |log|
      invariant 0 <= i <= |log| + 1
      invariant 2 * |blocks| == (if i <= |log| then i else i - 2)
      invariant forall k :: 0 <= k < |blocks| ==> blocks[k] == render(log[2 * k], log[2 * k + 1])
    {
      if i + 1 < |log| {
        blocks := blocks + [render(log[i], log[i + 1])];
      }
      i := i + 2;
    }
  }

  /** The state one browser session keeps between interactions. */
  class Session {
    var textLog: seq<Turn>
    var imageLog: seq<Turn>
    var combinedLog: seq<Turn>

    /** Every log holds only complete exchanges with its tab's role labels. */
    ghost predicate Valid()
      reads this
    {
      Paired(textLog, TextTab) && Paired(imageLog, ImageTab) && Paired(combinedLog, CombinedTab)
    }

    /** The log a tab keeps. */
    function Log(tab: Tab): seq<Turn>
      reads this
    {
      match tab
      case TextTab => textLog
      case ImageTab => imageLog
      case CombinedTab => combinedLog
    }

    /**
      The history panel of a tab: one block per complete exchange of its
      log, in order.  In a valid session no entry is left unrendered.
     */
    method History(tab: Tab) returns (blocks: seq<Block>)
      ensures |blocks| == |Log(tab)| / 2
      ensures Valid() ==> 2 * |blocks| == |Log(tab)|
      ensures forall k :: 0 <= k < |blocks| ==> blocks[k] == RenderPair(tab, Log(tab)[2 * k], Log(tab)[2 * k + 1])
    {
      blocks := Replay(Log(tab), (a, b) => RenderPair(tab, a, b));
    }

    /** A new session starts with three empty logs. */
    constructor ()
      ensures Valid()
      ensures textLog == [] && imageLog == [] && combinedLog == []
    {
      textLog, imageLog, combinedLog := [], [], [];
    }

    /**
      Text tab.  Nothing is sent unless the button was pressed and the
      stripped prompt is not empty (by `StripEmptyIffBlank`, exactly when the
      prompt is not whitespace only); a reply appends ("You", prompt) and
      ("Gemini", reply) and is shown at once as the block the history will
      show for that pair; a failure only shows the error.
     */
    method SubmitText(clicked: bool, prompt: string, reply: Reply) returns (sent: Option<Request>, shown: Feedback)
      requires Valid()
      modifies this
      ensures Valid()
      ensures sent == (if clicked && Strip(prompt) != [] then Some(TextOnly(prompt)) else None)
      ensures textLog == (if sent.Some? && reply.Success?
                          then old(textLog) + [Turn(YouRole, prompt), Turn(GeminiRole, reply.text)]
                          else old(textLog))
      ensures imageLog == old(imageLog) && combinedLog == old(combinedLog)
      ensures shown == (if sent.None? then Nothing
                        else if reply.Failure? then Error(ErrorText(reply))
                        else Exchange(Block(Display(prompt), Display(reply.text))))
      ensures shown.Exchange? ==> shown.block == RenderPair(TextTab, textLog[|textLog| - 2], textLog[|textLog| - 1])
    {
      sent, shown := None, Nothing;
      if clicked && Strip(prompt) != [] {
        sent := Some(TextOnly(prompt));
        match reply
        case Success(text) =>
          var ask, answer := Turn(YouRole, prompt), Turn(GeminiRole, text);
          shown := Exchange(RenderPair(TextTab, ask, answer));
          PairedAppend(textLog, TextTab, prompt, text);
          textLog := textLog + [ask, answer];
          assert textLog[|textLog| - 2] == ask && textLog[|textLog| - 1] == answer;
        case Failure(_) =>
          shown := Error(ErrorText(reply));
      }
    }

    /**
      Image captioning tab.  The button exists only once a file is uploaded;
      pressing it sends the image alone.  A reply appends the file name and
      the caption and shows the caption; a failure only shows the error.
     */
    method SubmitImage(upload: Option<Upload>, clicked: bool, reply: Reply) returns (sent: Option<Request>, shown: Feedback)
      requires Valid()
      modifies this
      ensures Valid()
      ensures sent == (if upload.Some? && clicked then Some(ImageOnly(upload.value)) else None)
      ensures imageLog == (if sent.Some? && reply.Success?
                           then old(imageLog) + [Turn(UploadedRole, upload.value.name), Turn(CaptionRole, reply.text)]
                           else old(imageLog))
      ensures textLog == old(textLog) && combinedLog == old(combinedLog)
      ensures shown == (if sent.None? then Nothing
                        else if reply.Failure? then Error(ErrorText(reply))
                        else Caption(Display(reply.text)))
      ensures shown.Caption? ==> shown.caption == RenderPair(ImageTab, imageLog[|imageLog| - 2], imageLog[|imageLog| - 1]).answer
    {
      sent, shown := None, Nothing;
      if upload.Some? && clicked {
        sent := Some(ImageOnly(upload.value));
        match reply
        case Success(text) =>
          shown := Caption(Display(text));
          PairedAppend(imageLog, ImageTab, upload.value.name, text);
          imageLog := imageLog + [Turn(UploadedRole, upload.value.name), Turn(CaptionRole, text)];
        case Failure(_) =>
          shown := Error(ErrorText(reply));
      }
    }

    /**
      Image + prompt tab.  The button exists only once a file is uploaded;
      pressing it sends the image with the question, which is NOT checked
      for emptiness.  A reply appends the question and the answer; a
      failure only shows the error.
     */
    method SubmitCombined(upload: Option<Upload>, question: string, clicked: bool, reply: Reply)
      returns (sent: Option<Request>, shown: Feedback)
      requires Valid()
      modifies this
      ensures Valid()
      ensures sent == (if upload.Some? && clicked then Some(ImageAndText(upload.value, question)) else None)
      ensures combinedLog == (if sent.Some? && reply.Success?
                              then old(combinedLog) + [Turn(ImagePromptRole, question), Turn(RobotGeminiRole, reply.text)]
                              else old(combinedLog))
      ensures textLog == old(textLog) && imageLog == old(imageLog)
      ensures shown == (if sent.None? then Nothing
                        else if reply.Failure? then Error(ErrorText(reply))
                        else Exchange(Block(Display(question), Display(reply.text))))
      ensures shown.Exchange? ==> shown.block == RenderPair(CombinedTab, combinedLog[|combinedLog| - 2], combinedLog[|combinedLog| - 1])
    {
      sent, shown := None, Nothing;
      if upload.Some? && clicked {
        sent := Some(ImageAndText(upload.value, question));
        match reply
        case Success(text) =>
          shown := Exchange(Block(Display(question), Display(text)));
          PairedAppend(combinedLog, CombinedTab, question, text);
          combinedLog := combinedLog + [Turn(ImagePromptRole, question), Turn(RobotGeminiRole, text)];
        case Failure(_) =>
          shown := Error(ErrorText(reply));
      }
    }
  }

  /** Appending one complete exchange keeps a log made of complete exchanges. */
  lemma PairedAppend(log: seq<Turn>, tab: Tab, ask: string, answer: string)
    requires Paired(log, tab)
    ensures Paired(log + [Turn(AskRole(tab), ask), Turn(AnswerRole(tab), answer)], tab)
  {
  }

  /** Client: "Hello" answered by "Hi there" is logged as two turns and shown escaped. */
  method HelloScenario() {
    var session := new Session();
    StripEmptyIffBlank("Hello");
    assert !IsSpace("Hello"[0]);
    var sent, shown := session.SubmitText(true, "Hello", Success("Hi there"));
    assert session.textLog == [Turn("You", "Hello"), Turn("Gemini", "Hi there")];
    assert shown == Exchange(Block(Display("Hello"), Display("Hi there")));
  }

  /** Client: a whitespace-only prompt sends nothing and changes nothing. */
  method BlankPromptScenario() {
    var session := new Session();
    var sent, shown := session.SubmitText(true, " \t", Success("unused"));
    StripEmptyIffBlank(" \t");
    assert IsSpace(" \t"[0]) && IsSpace(" \t"[1]);
    assert sent == None && shown == Nothing && session.textLog == [];
  }

  /** Client: a failed call changes no log, and a retry still succeeds. */
  method RetryScenario() {
    var session := new Session();
    var picture := Upload("cat.png", []);
    var sent, shown := session.SubmitImage(Some(picture), true, Failure("timeout"));
    assert shown == Error("Error: timeout") && session.imageLog == [];
    sent, shown := session.SubmitImage(Some(picture), true, Success("A cat."));
    assert session.imageLog == [Turn(UploadedRole, "cat.png"), Turn(CaptionRole, "A cat.")];
  }

  /** Client: the image + prompt tab sends an empty question and logs it. */
  method EmptyQuestionScenario() {
    var session := new Session();
    var picture := Upload("cat.png", []);
    var sent, shown := session.SubmitCombined(Some(picture), "", true, Success("A cat."));
    assert sent == Some(ImageAndText(picture, ""));
    assert session.combinedLog == [Turn(ImagePromptRole, ""), Turn(RobotGeminiRole, "A cat.")];
    var blocks := Replay(session.combinedLog, (a, b) => RenderPair(CombinedTab, a, b));
    assert |blocks| == 1;
  }

  /** Client: after any first success, the history's only block is the exchange shown right after the press. */
  method HistoryScenario(picture: Upload, question: string, answer: string) {
    var session := new Session();
    var sent, shown := session.SubmitCombined(Some(picture), question, true, Success(answer));
    var blocks := session.History(CombinedTab);
    assert |blocks| == 1;
    assert blocks == [shown.block];
  }
}
