# Conversation history of the portfolio chat assistant

The assistant keeps one process-wide transcript, `conversation_history`. It starts as a
single system turn holding the persona prompt. Each time a visitor submits text,
`chat_with_emilie` does the following:

- It ignores text that is empty or only whitespace.
- It appends the visitor's text as a user turn.
- It sends the whole transcript to a completion service.
- On a reply, it appends the reply as an assistant turn. If the transcript then holds more
  than 21 turns, it cuts it back to the system turn followed by the 20 most recent turns.
- On an error, it appends nothing more and shows
  `"Sorry, I encountered an error: <detail>"` in place of a reply.

The chat widget's history gains one `[text, shown reply]` pair for each non-blank
submission. The input box is always cleared.

The project has three modules:

- `PyText` (`text.dfy`): the blank-input guard `not user_message.strip()`, that is,
  Python's `str.strip()` over the characters `str.isspace()` accepts.
- `Chat` (`chat.dfy`): the data model (`Role`, `Turn`, `Outcome`, `DisplayPair`) and
  the trimming rule `Trim`. It also holds the one-submission specification functions
  `NextTranscript` and `NextDisplay`, and the class `Conversation`. That class has the
  `transcript` field and the method `Submit`, which updates the field in place as
  `chat_with_emilie` does.
- `ChatHistory` (`history.dfy`): what runs of submissions, one after another, do to the
  transcript and to the display history.

The completion service is a parameter of `Submit`: `complete: seq<Turn> -> Outcome`,
where `Outcome` is `Success(reply) | Failure(detail)`. The contract of `Submit` states
that the outcome it uses is `complete` applied to the transcript that already ends in the
new user turn. It also states that the new transcript and display history are `NextTranscript` and
`NextDisplay` of the old ones, applied to that outcome. The lemmas are proved about those
functions.

A blank submission returns the display history unchanged together with `""`
(app.py:44-45), so `Submit` returns `""` as the cleared input text on every path.

## Model

| member | source | states |
|---|---|---|
| PyText.StripLeading | app.py:44 | The result is a suffix of the input. Everything removed before it is whitespace, and the result does not start with whitespace. |
| PyText.StripTrailing | app.py:44 | The result is a prefix of the input. Everything removed after it is whitespace, and the result does not end with whitespace. |
| PyText.Strip | app.py:44 | `strip()` yields an empty string exactly when every character of the input is whitespace. A non-empty result neither starts nor ends with whitespace. |
| PyText.StripIsSlice | app.py:44 | What `strip()` returns is a contiguous piece of its input. |
| Chat.ErrorMessage | app.py:76 | The shown error text is the fixed prefix `"Sorry, I encountered an error: "` followed by the error detail, verbatim, so the detail can be read back. |
| Chat.Trim | app.py:67-68 | The length becomes `min(len, 21)`. Entry 0 is kept. Entries 1.. are the last entries of the input in their original order, which above the bound means the last 20. |
| Chat.Request | app.py:50-56 | The message list sent to the service is the old transcript, unchanged, with the user turn `{user, text}` appended at its end. |
| Chat.NextTranscript | app.py:44-68 | A blank input leaves the transcript unchanged. A failure yields exactly old + user turn. A success ends with the user turn and then the assistant turn, keeps entry 0, and gives length `old + 2` when that is at most 21 and exactly 21 otherwise (so at most 21 whatever the old length). |
| Chat.NextDisplay | app.py:43-78 | A blank input leaves the display history unchanged. Otherwise the old history is kept as a prefix and exactly one pair is added: the text with the reply, or the text with the error message. |
| Chat.NextTranscriptWellFormed | app.py:40-68 | If the transcript starts with the system turn and has no other system turn, one submission keeps it that way, whatever the input and the outcome. |
| Chat.Conversation.constructor | app.py:40 | At process start the transcript is `Initial(prompt)`, the system turn alone. |
| Chat.Conversation.Submit | app.py:43-78 | `chat_with_emilie`: the cleared input is `""`. A blank input changes nothing. Otherwise the outcome used is the service's answer to the transcript ending in the new user turn. The new transcript and display history are `NextTranscript` and `NextDisplay` of that outcome, and the transcript stays well formed. |
| ChatHistory.TranscriptAfterWellFormed | app.py:40-68 | The anchored system turn survives any sequence of submissions with any outcomes. |
| ChatHistory.DisplayAfterAppends | app.py:71-77 | Over any run, the display history only grows at its end, by the pairs of the non-blank submissions in order. |
| ChatHistory.DisplayOfNonBlank | app.py:71-77 | When no submission is blank, the run adds exactly one pair per submission, pair i being text i with its reply or its error message. |
| ChatHistory.TrimKeepsRecent | app.py:67-68 | Trimming a transcript is keeping its first turn followed by the most recent 20 of the rest. |
| ChatHistory.RecentAppend | app.py:67-68 | Trimming early does not change which turns end up among the most recent 20. |
| ChatHistory.SucceedingStep | app.py:50-68 | One answered submission on a trimmed transcript gives the system turn followed by the most recent 20 of the old rest plus the new user and assistant turns. |
| ChatHistory.SucceedingFirst | app.py:50-68 | One answered submission on a transcript of any length, even one past the bound, gives its first turn followed by the most recent 20 of the old rest plus the new user and assistant turns. |
| ChatHistory.TranscriptAfterSucceeding | app.py:50-68 | Any run of answered submissions yields the first turn followed by the most recent 20 of all turns so far, in order. This holds from a transcript within the bound, and from a transcript of any length once there is at least one answer, such as one that failures took past the bound. |
| ChatHistory.TurnsOfSucceeding | app.py:50-64 | Answered submission i contributes the user turn at position 2i and its reply at 2i+1. |
| ChatHistory.TurnsOfFailing | app.py:50-78 | Failed submission i contributes only its user turn, at position i. |
| ChatHistory.SuccessLength | app.py:40-68 | From process start, N answered submissions give length 1 + 2N for N ≤ 10 and exactly 21 after that. Entry 0 is still the system turn. |
| ChatHistory.RecentOfSucceeding | app.py:67-68 | With at least ten answered submissions, the 20 most recent turns are exactly the turns of the last ten. |
| ChatHistory.SuccessWindow | app.py:40-68 | From process start, after N ≥ 10 answered submissions, the transcript is the system turn followed by exactly the user and assistant turns of the last ten submissions. |
| ChatHistory.FirstUserTurnEvicted | app.py:40-68 | After more than ten answered submissions (25 among them), the length is 21 and entry 0 is the system turn. The first user turn is no longer present, provided its text was not submitted again among the last ten. |
| ChatHistory.TranscriptAfterFailing | app.py:50-78 | A run of failed submissions only appends the user turns, in order, with no trim: the length grows by one per failure. |
| ChatHistory.FailuresExceedBound | app.py:50-78 | From process start, 21 or more failed submissions leave more than 21 turns, because no trim runs on the failure path. |
| ChatHistory.FirstQuestion | app.py:40-73 | Submitting "What is Emilie's experience?" at start-up, with an answer, gives the transcript system, user, assistant. The display history becomes the welcome pair followed by the question with its answer. |

## Left out

- The completion client and the call `client.chat.completions.create`, including the model name, `max_tokens=350` and `temperature=0.7` (app.py:4, 11, 54-61). This is a foreign network API. It is the `complete` parameter of `Submit`, and every way it can fail, including a malformed response at app.py:61, is one `Failure(detail)`.
- The reply content that the API may return as `None`. Replies are modelled as strings.
- The text of `str(e)` for an exception. The error detail is an opaque string.
- Loading the credential and environment with dotenv and `os.getenv` (app.py:3, 7-8). This is configuration I/O.
- The Gradio user interface, CSS, welcome message, event wiring and server launch (app.py:80-205). This is presentation. `FirstQuestion` takes the welcome text as a parameter.
- The persona prompt text (app.py:14-37). It is the constructor's `systemPrompt` parameter, and every property holds for any prompt.
- Concurrent handlers on the shared global transcript. Submissions are modelled as strictly sequential.
- Chat.Conversation.Submit: the caller's `chat_history` list is appended in place and the same list object is returned (app.py:71, 77). The model takes the display history as a value and returns the extended value, so aliasing of that list is not captured.
- Chat.Conversation.Submit: the try block (app.py:52-78) also covers the appends after the service call. Only a failure of the call or of reading its reply (app.py:54-61) is modelled, since those appends cannot fail on a list.
- PyText.IsSpace: the set of `str.isspace()` characters is written out as a fixed table. Python's Unicode database lookups are not modelled beyond that table.
