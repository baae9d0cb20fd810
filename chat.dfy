/** The conversation-history policy of the portfolio assistant: the process-wide transcript
    that is sent to the completion service, the rule that trims it to the system turn plus
    the twenty most recent turns, and the display pairs handed back to the chat widget. */
module Chat {
  import opened PyText

  datatype Role = System | User | Assistant

  /** One message of the transcript, `{"role": ..., "content": ...}`. */
  datatype Turn = Turn(role: Role, content: string)

  /** What the completion service did with one request: a reply text, or an error whose
      text (`str(e)`) is kept as an opaque detail. */
  datatype Outcome = Success(reply: string) | Failure(detail: string)

  /** One `[user_message, shown_reply]` entry of the chat widget's history. */
  datatype DisplayPair = DisplayPair(userText: string, assistantText: string)

  /** The transcript is trimmed once it holds more than this many turns ... */
  const MaxTurns: nat := 21
  /** ... down to the system turn followed by this many most recent turns. */
  const KeptTurns: nat := 20

  const ErrorPrefix: string := "Sorry, I encountered an error: "

  /** The text shown in place of a reply when the completion service fails: the fixed
      apology followed by the error detail, verbatim. */
  function ErrorMessage(detail: string): (m: string)
    ensures |m| == |ErrorPrefix| + |detail|
    ensures m[..|ErrorPrefix|] == ErrorPrefix && m[|ErrorPrefix|..] == detail
  {
    ErrorPrefix + detail
  }

  /** What the chat widget shows as the assistant side of an exchange: the reply, or the
      error message in its place. */
  function Shown(o: Outcome): string {
    match o
    case Success(reply) => reply
    case Failure(detail) => ErrorMessage(detail)
  }

  /** A transcript as the process keeps it: the system turn with the persona prompt first,
      and no other system turn after it. */
  predicate WellFormed(t: seq<Turn>, prompt: string) {
    |t| >= 1 && t[0] == Turn(System, prompt) &&
    forall k :: 1 <= k < |t| ==> t[k].role != System
  }

  /** The transcript at process start: the system turn with the persona prompt, alone. */
  function Initial(prompt: string): seq<Turn> {
    [Turn(System, prompt)]
  }

  /** The size bound: a transcript longer than `MaxTurns` becomes its first turn followed by
      its last `KeptTurns` turns; a shorter one is left as it is. */
  function Trim(t: seq<Turn>): (r: seq<Turn>)
    ensures |r| == if |t| <= MaxTurns then |t| else MaxTurns
    ensures |t| > 0 ==> r[0] == t[0]
    ensures forall k :: 1 <= k < |r| ==> r[k] == t[|t| - |r| + k]
  {
    if |t| > MaxTurns then
      var r := [t[0]] + t[|t| - KeptTurns..];
      assert forall k :: 1 <= k < |r| ==> r[k] == t[|t| - KeptTurns + k - 1];
      r
    else t
  }

  /** The message list handed to the completion service for a submission: the whole
      transcript with the new user turn already at its end. */
  function Request(t: seq<Turn>, userMessage: string): (req: seq<Turn>)
    ensures |req| == |t| + 1 && req[..|t|] == t
    ensures req[|t|] == Turn(User, userMessage)
  {
    t + [Turn(User, userMessage)]
  }

  /** The transcript after one submission with the given service outcome. */
  function NextTranscript(t: seq<Turn>, userMessage: string, o: Outcome): (r: seq<Turn>)
    ensures IsBlank(userMessage) ==> r == t
    ensures !IsBlank(userMessage) && o.Failure? ==> r == Request(t, userMessage)
    ensures !IsBlank(userMessage) && o.Success? ==>
      |r| == (if |t| + 2 <= MaxTurns then |t| + 2 else MaxTurns) &&
      r[|r| - 2] == Turn(User, userMessage) && r[|r| - 1] == Turn(Assistant, o.reply) &&
      (|t| > 0 ==> r[0] == t[0])
  {
    if IsBlank(userMessage) then t
    else match o
      case Success(reply) => Trim(Request(t, userMessage) + [Turn(Assistant, reply)])
      case Failure(_) => Request(t, userMessage)
  }

  /** The chat widget's history after one submission with the given service outcome. */
  function NextDisplay(d: seq<DisplayPair>, userMessage: string, o: Outcome): (r: seq<DisplayPair>)
    ensures IsBlank(userMessage) ==> r == d
    ensures !IsBlank(userMessage) ==> |r| == |d| + 1 && r[..|d|] == d
    ensures !IsBlank(userMessage) ==> r[|d|].userText == userMessage
    ensures !IsBlank(userMessage) && o.Success? ==> r[|d|].assistantText == o.reply
    ensures !IsBlank(userMessage) && o.Failure? ==> r[|d|].assistantText == ErrorMessage(o.detail)
  {
    if IsBlank(userMessage) then d else d + [DisplayPair(userMessage, Shown(o))]
  }

  /** A well-formed transcript stays well formed whatever is submitted and whatever the
      service answers. */
  lemma NextTranscriptWellFormed(t: seq<Turn>, prompt: string, userMessage: string, o: Outcome)
    requires WellFormed(t, prompt)
    ensures WellFormed(NextTranscript(t, userMessage, o), prompt)
  {
    var r := NextTranscript(t, userMessage, o);
    if !IsBlank(userMessage) && o.Success? {
      var u := Request(t, userMessage) + [Turn(Assistant, o.reply)];
      forall k | 1 <= k < |r| ensures r[k].role != System {
        assert r[k] == u[|u| - |r| + k];
      }
    }
  }

  /** The process-wide conversation state: `conversation_history` and the persona prompt
      it starts from. */
  class Conversation {
    const systemPrompt: string
    var transcript: seq<Turn>

    ghost predicate Valid()
      reads this
    {
      WellFormed(transcript, systemPrompt)
    }

    /** The transcript at process start: the system turn alone. */
    constructor (systemPrompt: string)
      ensures Valid()
      ensures this.systemPrompt == systemPrompt
      ensures transcript == Initial(systemPrompt)
    {
      this.systemPrompt := systemPrompt;
      transcript := [Turn(System, systemPrompt)];
    }

    /** `chat_with_emilie`: `complete` stands for the completion service and is asked
        exactly once, with the transcript that already ends in the new user turn. Returns
        the updated display history and the cleared input text. */
    method Submit(userMessage: string, chatHistory: seq<DisplayPair>, complete: seq<Turn> -> Outcome)
      returns (newHistory: seq<DisplayPair>, cleared: string)
      requires Valid()
      modifies this
      ensures Valid()
      ensures cleared == ""
      ensures IsBlank(userMessage) ==> transcript == old(transcript) && newHistory == chatHistory
      ensures !IsBlank(userMessage) ==>
        var o := complete(Request(old(transcript), userMessage));
        transcript == NextTranscript(old(transcript), userMessage, o) &&
        newHistory == NextDisplay(chatHistory, userMessage, o)
    {
      if Strip(userMessage) == [] {
        return chatHistory, "";
      }
      assert !IsBlank(userMessage);
      transcript := transcript + [Turn(User, userMessage)];
      assert transcript == Request(old(transcript), userMessage);
      var outcome := complete(transcript);
      match outcome {
        case Success(reply) =>
          transcript := Trim(transcript + [Turn(Assistant, reply)]);
          newHistory := chatHistory + [DisplayPair(userMessage, reply)];
        case Failure(detail) =>
          newHistory := chatHistory + [DisplayPair(userMessage, ErrorMessage(detail))];
      }
      cleared := "";
      NextTranscriptWellFormed(old(transcript), systemPrompt, userMessage, outcome);
    }
  }
}
