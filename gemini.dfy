/** The parts of the Gemini service that are plain logic: the request context
    (system instruction and conversation memory), the parsing of a model reply
    into spoken text and an action, the error fallback, the phonetic rewrite
    of text sent to speech synthesis, and the null result of synthesis.
    The model itself is an oracle from a request to a reply or an error. */
module Gemini {
  import opened Types
  import Text

  /** A function call of a model reply; `args` is `None` when it has none. */
  datatype FunctionCall = FunctionCall(name: string, args: Option<Args>)

  /** A model reply: its text (`None` when undefined) and its function calls
      (an undefined list is the empty one). */
  datatype Reply = Reply(text: Option<string>, functionCalls: seq<FunctionCall>)

  datatype GenResponse = GenResponse(text: string, actionPayload: ActionPayload)

  /** The two system instructions; their wording is not modelled. */
  datatype Instruction = AdminInstruction | UserInstruction

  /** What the client sends with a text request, apart from the clock-dependent lines. */
  datatype Request = Request(instruction: Instruction, userName: string, memory: string, prompt: string)

  const ProcessingText := "Processing command..."
  const NetworkErrorText := "I'm having trouble connecting to the network."
  const NoHistoryText := "No previous conversation history."
  const MemorySize := 15

  // ---------------------------------------------------------------- context

  function SystemInstruction(role: UserRole): (i: Instruction)
    ensures i == AdminInstruction <==> role == Admin
  {
    if role == Admin then AdminInstruction else UserInstruction
  }

  /** `chatHistory.slice(-15)`: the last fifteen messages, or all of a shorter history. */
  function Recent(h: seq<ChatMessage>): (r: seq<ChatMessage>)
    ensures |r| == if |h| < MemorySize then |h| else MemorySize
    ensures r == h[|h| - |r|..]
  {
    if |h| <= MemorySize then h else h[|h| - MemorySize..]
  }

  function SenderLabel(s: Sender): string {
    if s == FromUser then "USER" else "NEXA"
  }

  function FormatMessage(m: ChatMessage): string {
    "[" + SenderLabel(m.sender) + "]: " + m.text
  }

  function FormatAll(ms: seq<ChatMessage>): (lines: seq<string>)
    ensures |lines| == |ms|
    ensures forall i :: 0 <= i < |ms| ==> lines[i] == FormatMessage(ms[i])
  {
    if ms == [] then [] else [FormatMessage(ms[0])] + FormatAll(ms[1..])
  }

  /** `lines.join(sep)` */
  function Join(lines: seq<string>, sep: string): string {
    if lines == [] then ""
    else if |lines| == 1 then lines[0]
    else lines[0] + sep + Join(lines[1..], sep)
  }

  function MemoryString(h: seq<ChatMessage>): string {
    Join(FormatAll(Recent(h)), "\n")
  }

  /** The memory section of the prompt: the formatted history, or a fixed notice. */
  function MemoryBlock(h: seq<ChatMessage>): string {
    var m := MemoryString(h);
    if m == "" then NoHistoryText else m
  }

  function RequestFor(prompt: string, user: UserProfile): Request {
    Request(SystemInstruction(user.role), user.name, MemoryBlock(user.chatHistory), prompt)
  }

  // ---------------------------------------------------------------- memory properties

  lemma {:induction false} JoinSnoc(lines: seq<string>, line: string, sep: string)
    requires lines != []
    ensures Join(lines + [line], sep) == Join(lines, sep) + sep + line
    decreases |lines|
  {
    if |lines| == 1 {
      assert lines + [line] == [lines[0], line];
    } else {
      assert (lines + [line])[1..] == lines[1..] + [line];
      JoinSnoc(lines[1..], line, sep);
    }
  }

  lemma {:induction false} JoinEmpty(lines: seq<string>, sep: string)
    requires forall i :: 0 <= i < |lines| ==> lines[i] != ""
    ensures Join(lines, sep) == "" <==> lines == []
    decreases |lines|
  {
    if |lines| > 1 {
      assert |lines[0] + sep + Join(lines[1..], sep)| >= |lines[0]| > 0;
    }
  }

  /** The memory is empty exactly when the history is, so the notice appears only then. */
  lemma MemoryEmpty(h: seq<ChatMessage>)
    ensures MemoryString(h) == "" <==> h == []
    ensures MemoryBlock(h) == NoHistoryText <==> h == [] || MemoryString(h) == NoHistoryText
  {
    var lines := FormatAll(Recent(h));
    forall i | 0 <= i < |lines| ensures lines[i] != "" {
      assert |FormatMessage(Recent(h)[i])| >= 4;
    }
    JoinEmpty(lines, "\n");
  }

  /** Below the limit a new message adds one line to the memory. */
  lemma MemoryGrows(h: seq<ChatMessage>, m: ChatMessage)
    requires h != [] && |h| < MemorySize
    ensures MemoryString(h + [m]) == MemoryString(h) + "\n" + FormatMessage(m)
  {
    assert FormatAll(h + [m]) == FormatAll(h) + [FormatMessage(m)];
    JoinSnoc(FormatAll(h), FormatMessage(m), "\n");
  }

  /** Only the last fifteen messages matter: older ones never reach the prompt. */
  lemma MemoryForgets(older: seq<ChatMessage>, h: seq<ChatMessage>)
    requires |h| >= MemorySize
    ensures MemoryString(older + h) == MemoryString(h)
  {
    assert (older + h)[|older + h| - MemorySize..] == h[|h| - MemorySize..];
  }

  // ---------------------------------------------------------------- reply parsing

  /** The action a function name stands for; other names stand for none. */
  function ActionFor(name: string): ActionKind {
    if name == "openApp" then OpenApp
    else if name == "makeCall" then Call
    else if name == "sendWhatsApp" then WhatsApp
    else if name == "setAlarm" then Alarm
    else NoAction
  }

  predicate Recognised(fc: FunctionCall) {
    ActionFor(fc.name) != NoAction
  }

  /** The payload of the first recognised call, with its arguments as data. */
  function FirstAction(calls: seq<FunctionCall>): ActionPayload {
    if calls == [] then NonePayload
    else if Recognised(calls[0]) then ActionPayload(ActionFor(calls[0].name), calls[0].args)
    else FirstAction(calls[1..])
  }

  /** `response.text || ""` */
  function TextOf(reply: Reply): string {
    if reply.text.Some? then reply.text.value else ""
  }

  /** The response to a model outcome: the first recognised call as the action, the
      reply text or, when it is empty and an action is set, the processing notice;
      on any error, the network notice and no action. */
  function ResponseFor(outcome: Result<Reply>): GenResponse {
    match outcome
    case Err => GenResponse(NetworkErrorText, NonePayload)
    case Ok(reply) =>
      var action := FirstAction(reply.functionCalls);
      GenResponse(if TextOf(reply) == "" && action.action != NoAction then ProcessingText else TextOf(reply), action)
  }

  /** The parsing loop of `generateTextResponse` and the spoken-text fallback. */
  method ParseReply(reply: Reply) returns (r: GenResponse)
    ensures r == ResponseFor(Ok(reply))
    ensures r.actionPayload == FirstAction(reply.functionCalls)
    ensures TextOf(reply) != "" ==> r.text == TextOf(reply)
    ensures TextOf(reply) == "" && r.actionPayload.action != NoAction ==> r.text == ProcessingText
    ensures TextOf(reply) == "" && r.actionPayload.action == NoAction ==> r.text == ""
    ensures r.actionPayload.action == NoAction ==> r.actionPayload == NonePayload
  {
    var spokenText := TextOf(reply);
    var actionPayload := NonePayload;
    var calls := reply.functionCalls;
    if |calls| > 0 {
      var i := 0;
      while i < |calls|
        invariant 0 <= i <= |calls|
        invariant actionPayload == NonePayload
        invariant FirstAction(calls) == FirstAction(calls[i..])
      {
        var fc := calls[i];
        assert calls[i..][0] == fc && calls[i..][1..] == calls[i + 1..];
        if fc.name == "openApp" {
          actionPayload := ActionPayload(OpenApp, fc.args);
        } else if fc.name == "makeCall" {
          actionPayload := ActionPayload(Call, fc.args);
        } else if fc.name == "sendWhatsApp" {
          actionPayload := ActionPayload(WhatsApp, fc.args);
        } else if fc.name == "setAlarm" {
          actionPayload := ActionPayload(Alarm, fc.args);
        }
        if actionPayload.action != NoAction {
          break;
        }
        i := i + 1;
      }
    }
    if spokenText == "" && actionPayload.action != NoAction {
      spokenText := ProcessingText;
    }
    r := GenResponse(spokenText, actionPayload);
  }

  /** `generateTextResponse`: the request built from the user, sent to the model;
      any error becomes the network notice with no action. */
  method GenerateTextResponse(prompt: string, user: UserProfile, model: Request -> Result<Reply>)
    returns (r: GenResponse)
    ensures r == ResponseFor(model(RequestFor(prompt, user)))
  {
    var outcome := model(RequestFor(prompt, user));
    if outcome.Err? {
      return GenResponse(NetworkErrorText, NonePayload);
    }
    r := ParseReply(outcome.value);
  }

  // ---------------------------------------------------------------- first recognised call wins

  /** What a response is made of: on an error the network notice and no action;
      otherwise the first recognised call, and the reply's own text whenever it
      has one. Either way, a response with no text carries no action. */
  lemma ResponseCases(outcome: Result<Reply>)
    ensures outcome.Err? ==> ResponseFor(outcome) == GenResponse(NetworkErrorText, NonePayload)
    ensures outcome.Ok? ==>
      ResponseFor(outcome).actionPayload == FirstAction(outcome.value.functionCalls) &&
      (TextOf(outcome.value) != "" ==> ResponseFor(outcome).text == TextOf(outcome.value))
    ensures ResponseFor(outcome).text == "" ==> ResponseFor(outcome).actionPayload == NonePayload
  {
    if outcome.Ok? {
      FirstActionNone(outcome.value.functionCalls);
    }
  }

  /** Without a recognised call there is no payload data either. */
  lemma {:induction false} FirstActionNone(calls: seq<FunctionCall>)
    ensures FirstAction(calls).action == NoAction ==> FirstAction(calls) == NonePayload
    decreases |calls|
  {
    if calls != [] && !Recognised(calls[0]) {
      FirstActionNone(calls[1..]);
    }
  }

  /** The first recognised call decides the action; the ones before it are unrecognised. */
  lemma {:induction false} FirstRecognisedWins(calls: seq<FunctionCall>, k: nat)
    requires k < |calls| && Recognised(calls[k])
    requires forall j :: 0 <= j < k ==> !Recognised(calls[j])
    ensures FirstAction(calls) == ActionPayload(ActionFor(calls[k].name), calls[k].args)
    decreases k
  {
    if k > 0 {
      assert !Recognised(calls[0]);
      FirstRecognisedWins(calls[1..], k - 1);
    }
  }

  /** With no recognised call, in particular with no call at all, the action is none. */
  lemma {:induction false} NoRecognisedCall(calls: seq<FunctionCall>)
    requires forall j :: 0 <= j < |calls| ==> !Recognised(calls[j])
    ensures FirstAction(calls) == NonePayload
    decreases |calls|
  {
    if calls != [] {
      assert !Recognised(calls[0]);
      NoRecognisedCall(calls[1..]);
    }
  }

  /** Calls after a recognised one are ignored. */
  lemma {:induction false} LaterCallsIgnored(calls: seq<FunctionCall>, later: seq<FunctionCall>)
    requires FirstAction(calls).action != NoAction
    ensures FirstAction(calls + later) == FirstAction(calls)
    decreases |calls|
  {
    assert calls != [];
    assert (calls + later)[0] == calls[0];
    if !Recognised(calls[0]) {
      assert (calls + later)[1..] == calls[1..] + later;
      LaterCallsIgnored(calls[1..], later);
    }
  }

  /** An action is set exactly when some call is recognised. */
  lemma {:induction false} ActionIffRecognised(calls: seq<FunctionCall>)
    ensures FirstAction(calls).action != NoAction <==> exists j :: 0 <= j < |calls| && Recognised(calls[j])
    decreases |calls|
  {
    if calls != [] && !Recognised(calls[0]) {
      ActionIffRecognised(calls[1..]);
      assert forall j :: 1 <= j < |calls| ==> calls[j] == calls[1..][j - 1];
    }
  }

  // ---------------------------------------------------------------- speech

  /** The rewrite applied before speech synthesis: no spelling of "Lohave"
      survives, and apart from its replacement only letter case changes. */
  function PhoneticText(text: string): (spoken: string)
    ensures forall i :: !Text.MatchesAt(spoken, i, "lohave")
    ensures Text.ToLower(spoken) == Text.ToLower(Text.ReplaceAllCI(text, "lohave", "लोहवे"))
  {
    RewriteSteps(text);
    var devanagari := Text.ReplaceAllCI(text, "lohave", "लोहवे");
    var nexa := Text.ReplaceAllCI(devanagari, "nexa", "Nexa");
    Text.ReplaceAllCI(nexa, "chandan", "Chandan")
  }

  /** The three rewrites, one after another. */
  lemma RewriteSteps(text: string)
    ensures var a := Text.ReplaceAllCI(text, "lohave", "लोहवे");
      var c := Text.ReplaceAllCI(Text.ReplaceAllCI(a, "nexa", "Nexa"), "chandan", "Chandan");
      (forall i :: !Text.MatchesAt(c, i, "lohave")) && Text.ToLower(c) == Text.ToLower(a)
  {
    var rep := "लोहवे";
    var a := Text.ReplaceAllCI(text, "lohave", rep);
    var b := Text.ReplaceAllCI(a, "nexa", "Nexa");
    var c := Text.ReplaceAllCI(b, "chandan", "Chandan");
    Text.ReplaceRemovesAll(text, "lohave", rep);
    Text.ReplaceKeepsLowered(a, "nexa", "Nexa");
    Text.ReplaceKeepsLowered(b, "chandan", "Chandan");
    forall i ensures !Text.MatchesAt(c, i, "lohave") {
      Text.MatchesOnLowered(c, a, i, "lohave");
    }
  }

  /** Text without "Lohave" in any spelling keeps its letters; only their case may change. */
  lemma PhoneticKeepsOtherText(text: string)
    requires forall i :: !Text.MatchesAt(text, i, "lohave")
    ensures Text.ToLower(PhoneticText(text)) == Text.ToLower(text)
  {
    Text.ReplaceWithoutMatch(text, "lohave", "लोहवे");
  }

  /** The inline audio of a synthesis outcome: none on error, on a missing part or on empty data. */
  function SpeechAudio(outcome: Result<Option<string>>): (audio: Option<string>)
    ensures audio.Some? <==> outcome.Ok? && outcome.value.Some? && outcome.value.value != ""
    ensures audio.Some? ==> audio.value == outcome.value.value
  {
    match outcome
    case Err => None
    case Ok(data) => if data.Some? && data.value != "" then data else None
  }

  /** `generateSpeech`: the synthesis oracle receives the rewritten text. */
  function GenerateSpeech(text: string, tts: string -> Result<Option<string>>): (audio: Option<string>)
    ensures audio == SpeechAudio(tts(PhoneticText(text)))
    ensures audio.Some? ==> audio.value != ""
  {
    SpeechAudio(tts(PhoneticText(text)))
  }
}
