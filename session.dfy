/**
 * The page controller of App.tsx: the seven pieces of React state and the
 * chat handle kept in a ref, with `handleUrlSubmit` and `handleSendMessage`.
 * Each handler is cut at its `await` into a Begin step (everything before the
 * request) and a Complete step that is handed the request's outcome, so the
 * remote service becomes a parameter and the handlers a sequential state machine.
 */
module Session {
  import opened Options
  import opened VideoId
  import opened ErrorMessages
  import JsString
  import VideoIdLemmas

  datatype Role = User | Model

  datatype ChatMessage = ChatMessage(role: Role, text: string)

  /** An open conversation with the model; what it remembers is not modelled. */
  datatype ChatHandle = ChatHandle(conversation: nat)

  /** How the summary request ended: the summary and a conversation to continue, or a thrown value. */
  datatype SummaryOutcome = Summarized(text: string, chat: ChatHandle) | SummaryFailed(thrown: Thrown)

  /** How a chat request ended: the model's reply, or a thrown value. */
  datatype ReplyOutcome = Replied(text: string) | ReplyFailed(thrown: Thrown)

  const InvalidUrlMessage := "Invalid YouTube URL. Please enter a valid URL."

  /** A transcript of finished exchanges: user and model messages alternate, the user first. */
  predicate Paired(h: seq<ChatMessage>) {
    |h| % 2 == 0 && forall i :: 0 <= i < |h| ==> h[i].role == (if i % 2 == 0 then User else Model)
  }

  /** The model's reply to the one unanswered message completes the last exchange. */
  lemma PairedReply(h: seq<ChatMessage>, answer: string)
    requires h != [] && Paired(h[..|h| - 1]) && h[|h| - 1].role == User
    ensures Paired(h + [ChatMessage(Model, answer)])
  {
    var r := h + [ChatMessage(Model, answer)];
    forall i | 0 <= i < |r|
      ensures r[i].role == (if i % 2 == 0 then User else Model)
    {
      if i < |h| - 1 {
        assert r[i] == h[..|h| - 1][i];
      }
    }
  }

  /** Taking back the unanswered message with `slice(0, -1)` leaves the finished exchanges. */
  lemma PairedRollback(h: seq<ChatMessage>)
    requires h != [] && Paired(h[..|h| - 1])
    ensures JsString.Slice(h, 0, -1) == h[..|h| - 1]
    ensures Paired(JsString.Slice(h, 0, -1))
  {
    var pending := h[|h| - 1];
    assert h == h[..|h| - 1] + [pending];
    JsString.SliceDropsLast(h[..|h| - 1], pending);
  }

  class Controller {
    var videoUrl: string
    var videoId: Option<string>
    var summary: Option<string>
    var chatHistory: seq<ChatMessage>
    var isLoadingSummary: bool
    var isChatting: bool
    var error: Option<string>
    var chat: Option<ChatHandle>

    /**
     * The shown id is always the one extracted from the last submitted URL;
     * a shown error is one of the fixed sentences; a summary comes with its
     * conversation; while the summary loads everything else is cleared; the
     * transcript is a sequence of exchanges, plus the one unanswered user
     * message while a reply is awaited.
     */
    predicate Valid()
      reads this
    {
      && videoId == ExtractVideoId(videoUrl)
      && (error.Some? ==> error.value == InvalidUrlMessage || error.value in Sentences)
      && (summary.Some? ==> chat.Some?)
      && (isLoadingSummary ==> summary.None? && chatHistory == [] && chat.None? && error.None? && !isChatting)
      && (isChatting ==>
            chat.Some? && chatHistory != []
            && Paired(chatHistory[..|chatHistory| - 1]) && chatHistory[|chatHistory| - 1].role == User)
      && (!isChatting ==> Paired(chatHistory))
    }

    /** The initial state of the page (App.tsx:47-55). */
    constructor ()
      ensures Valid()
      ensures videoUrl == "" && videoId.None? && summary.None? && chatHistory == []
      ensures !isLoadingSummary && !isChatting && error.None? && chat.None?
    {
      videoUrl, videoId, summary, chatHistory := "", None, None, [];
      isLoadingSummary, isChatting, error, chat := false, false, None, None;
      JsString.AbsentChar("", "youtu", 0);
      VideoIdLemmas.NoHostNoId("");
    }

    /**
     * `handleUrlSubmit` up to its request. A URL without an id ends the
     * handler here with the invalid-URL error and no request; otherwise the
     * previous results are cleared and the summary starts loading.
     */
    method BeginSubmit(url: string) returns (requested: bool)
      requires Valid() && !isLoadingSummary && !isChatting
      modifies this
      ensures Valid()
      ensures videoUrl == url && videoId == ExtractVideoId(url)
      ensures requested <==> videoId.Some?
      ensures summary.None? && chatHistory == [] && !isChatting
      ensures requested ==> isLoadingSummary && error.None? && chat.None?
      ensures !requested ==>
        error == Some(InvalidUrlMessage) && isLoadingSummary == old(isLoadingSummary) && chat == old(chat)
    {
      videoUrl := url;
      var id := ExtractVideoId(url);
      videoId := id;
      if id.Some? {
        error := None;
        summary := None;
        chatHistory := [];
        chat := None;
        isLoadingSummary := true;
        requested := true;
      } else {
        error := Some(InvalidUrlMessage);
        videoId := None;
        summary := None;
        chatHistory := [];
        requested := false;
      }
    }

    /**
     * `handleUrlSubmit` after its request: a summary is stored with its
     * conversation, a failure is shown as its classified sentence, and
     * loading ends either way.
     */
    method CompleteSubmit(outcome: SummaryOutcome)
      requires Valid() && isLoadingSummary
      modifies this
      ensures Valid() && !isLoadingSummary && !isChatting
      ensures videoUrl == old(videoUrl) && videoId == old(videoId) && chatHistory == []
      ensures outcome.Summarized? ==>
        summary == Some(outcome.text) && chat == Some(outcome.chat) && error.None?
      ensures outcome.SummaryFailed? ==>
        summary.None? && chat.None? && error == Some(GetErrorMessage(outcome.thrown))
    {
      match outcome {
        case Summarized(text, handle) =>
          summary := Some(text);
          chat := Some(handle);
        case SummaryFailed(thrown) =>
          error := Some(GetErrorMessage(thrown));
      }
      isLoadingSummary := false;
    }

    /**
     * `handleSendMessage` up to its request: nothing happens without a
     * conversation; otherwise the user's message is shown at once, the
     * error is cleared and a reply is awaited.
     */
    method BeginSend(message: string) returns (sent: bool)
      requires Valid() && !isChatting
      modifies this
      ensures Valid()
      ensures sent <==> chat.Some?
      ensures !sent ==> unchanged(this)
      ensures sent ==> chatHistory == old(chatHistory) + [ChatMessage(User, message)] && isChatting && error.None?
      ensures videoUrl == old(videoUrl) && videoId == old(videoId) && summary == old(summary)
      ensures chat == old(chat) && isLoadingSummary == old(isLoadingSummary)
    {
      if chat.None? {
        return false;
      }
      chatHistory := chatHistory + [ChatMessage(User, message)];
      isChatting := true;
      error := None;
      sent := true;
    }

    /**
     * `handleSendMessage` after its request: a reply is appended; a failure
     * is shown as its classified sentence and the unanswered message is
     * taken back with `slice(0, -1)`; the wait ends either way.
     */
    method CompleteSend(outcome: ReplyOutcome)
      requires Valid() && isChatting
      modifies this
      ensures Valid() && !isChatting
      ensures outcome.Replied? ==>
        chatHistory == old(chatHistory) + [ChatMessage(Model, outcome.text)] && error == old(error)
      ensures outcome.ReplyFailed? ==>
        chatHistory == old(chatHistory)[..|old(chatHistory)| - 1] && error == Some(GetErrorMessage(outcome.thrown))
      ensures videoUrl == old(videoUrl) && videoId == old(videoId) && summary == old(summary)
      ensures chat == old(chat) && isLoadingSummary == old(isLoadingSummary)
    {
      match outcome {
        case Replied(text) =>
          PairedReply(chatHistory, text);
          chatHistory := chatHistory + [ChatMessage(Model, text)];
        case ReplyFailed(thrown) =>
          error := Some(GetErrorMessage(thrown));
          PairedRollback(chatHistory);
          chatHistory := JsString.Slice(chatHistory, 0, -1);
      }
      isChatting := false;
    }

    /**
     * All of `handleUrlSubmit` when its request, if one is made, ends with
     * `outcome`. Without an id no request is made and `outcome` plays no part.
     */
    method HandleUrlSubmit(url: string, outcome: SummaryOutcome)
      requires Valid() && !isLoadingSummary && !isChatting
      modifies this
      ensures Valid() && !isLoadingSummary && !isChatting
      ensures videoUrl == url && videoId == ExtractVideoId(url) && chatHistory == []
      ensures videoId.None? ==> error == Some(InvalidUrlMessage) && summary.None? && chat == old(chat)
      ensures videoId.Some? && outcome.Summarized? ==>
        summary == Some(outcome.text) && chat == Some(outcome.chat) && error.None?
      ensures videoId.Some? && outcome.SummaryFailed? ==>
        summary.None? && chat.None? && error == Some(GetErrorMessage(outcome.thrown))
    {
      var requested := BeginSubmit(url);
      if requested {
        CompleteSubmit(outcome);
      }
    }

    /**
     * All of `handleSendMessage` when its request ends with `outcome`: a
     * reply completes an exchange, a failure leaves the transcript exactly
     * as it was before the message.
     */
    method HandleSendMessage(message: string, outcome: ReplyOutcome)
      requires Valid() && !isChatting
      modifies this
      ensures Valid() && !isChatting
      ensures old(chat).None? ==> unchanged(this)
      ensures old(chat).Some? && outcome.Replied? ==>
        chatHistory == old(chatHistory) + [ChatMessage(User, message), ChatMessage(Model, outcome.text)]
        && error.None?
      ensures old(chat).Some? && outcome.ReplyFailed? ==>
        chatHistory == old(chatHistory) && error == Some(GetErrorMessage(outcome.thrown))
      ensures videoUrl == old(videoUrl) && videoId == old(videoId) && summary == old(summary)
      ensures chat == old(chat) && isLoadingSummary == old(isLoadingSummary)
    {
      var sent := BeginSend(message);
      if sent {
        CompleteSend(outcome);
      }
    }
  }
}
