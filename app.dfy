/** The application's interaction state machine. Every user action, callback,
    timer and completed request is an event method; between events the state
    is the interaction state, the displayed text and whether it is shown.
    Requests to the model and to speech synthesis are pending until their
    completion event, which receives the service's answer as an oracle.
    A ghost log records the outward effects in order. */
module App {
  import opened Types
  import Storage
  import Voice
  import Gemini
  import Intent
  import Pcm

  /** An outward effect of the application. */
  datatype Outward =
    | StartListening
    | StopListening
    | StopAudio
    | SaveChat(message: ChatMessage)
    | RequestResponse(prompt: string)
    | ExecuteIntent(effect: Intent.Effect)
    | RequestSpeech(text: string)
    | PlayAudio(audio: string)

  /** A text request in flight: the recognised input and the user it was sent for. */
  datatype Pending = Pending(input: string, user: UserProfile)

  // ---------------------------------------------------------------- the intro

  /** The greeting for the local hour. */
  function Greeting(hour: int): (greeting: string)
    ensures greeting == "Good morning" <==> hour < 12
    ensures greeting == "Good afternoon" <==> 12 <= hour < 17
    ensures greeting == "Good evening" <==> hour >= 17
  {
    if 12 <= hour < 17 then "Good afternoon" else if hour >= 17 then "Good evening" else "Good morning"
  }

  /** The name the intro addresses: the admin is always "Chandan". */
  function IntroName(user: UserProfile): (name: string)
    ensures user.role == Admin ==> name == Storage.AdminName
    ensures user.role != Admin ==> name == user.name
  {
    if user.role == Admin then Storage.AdminName else user.name
  }

  const IntroHead := "मैं Nexa हूँ — आपकी Personal AI Assistant, जिसे Chandan Lohave ने design किया है. "
  const IntroMiddle := "! लगता है आज आपका mood मेरे जैसा perfect है. बताइए "
  const IntroTail := " sir, मैं आपकी किस प्रकार सहायता कर सकती हूँ?"

  /** The intro line: the greeting and the name set into the fixed Hindi text. */
  function IntroText(greeting: string, userName: string): string {
    IntroHead + greeting + IntroMiddle + userName + IntroTail
  }

  // ---------------------------------------------------------------- the interaction's follow-up

  /** The end of the intent step of `handleInteraction`: whether the intent, run
      only for an action, threw. */
  predicate Aborts(response: Gemini.GenResponse, effect: Intent.Effect) {
    response.actionPayload.action != NoAction && effect == Intent.TypeError
  }

  /** The state after the follow-up (`state'`, `shown'`, `speech'`) from the state
      before it: a thrown intent leaves everything as it was; otherwise an empty text
      goes idle with the chat hidden, and any other text waits for its speech under
      the next ticket. */
  ghost predicate FollowedUp(response: Gemini.GenResponse, effect: Intent.Effect,
                             state: NexaState, shown: bool, speech: map<nat, string>, ticket: nat,
                             state': NexaState, shown': bool, speech': map<nat, string>)
  {
    && (Aborts(response, effect) ==>
          state' == state && shown' == shown && speech' == speech)
    && (!Aborts(response, effect) && response.text == "" ==>
          state' == Idle && !shown' && speech' == speech)
    && (!Aborts(response, effect) && response.text != "" ==>
          state' == state && shown' == shown && speech' == speech[ticket := response.text])
  }

  // ---------------------------------------------------------------- the application

  class NexaApp {
    const voice: Voice.VoiceService
    const store: Storage.Store
    /** `navigator.userAgent` */
    const userAgent: string
    /** `encodeURIComponent` */
    const encode: string -> string

    var user: Option<UserProfile>
    var nexaState: NexaState
    var currentText: string
    var isUserText: bool
    var showChat: bool
    /** `introPlayedRef.current` */
    var introPlayed: bool
    var nextTicket: nat
    var awaitingResponse: map<nat, Pending>
    /** speech requests in flight, with the text sent */
    var awaitingSpeech: map<nat, string>
    /** pending timers that will hide the chat */
    var hideTimers: nat
    ghost var log: seq<Outward>

    ghost predicate Valid()
      reads this, voice, store
    {
      && voice.Valid()
      && store.Bounded()
      && (user.Some? ==> |user.value.chatHistory| <= Storage.MaxHistory)
      && (awaitingResponse != map[] ==> user.Some?)
      // every ticket in flight was issued before
      && (forall t :: t in awaitingResponse ==> t < nextTicket)
      && (forall t :: t in awaitingSpeech ==> t < nextTicket)
    }

    /** Mounting: a user stored as current is restored. */
    constructor (voice: Voice.VoiceService, store: Storage.Store, userAgent: string, encode: string -> string)
      requires voice.Valid() && store.Bounded()
      ensures Valid()
      ensures this.voice == voice && this.store == store && this.userAgent == userAgent && this.encode == encode
      ensures user == store.CurrentUser()
      ensures nexaState == Idle && currentText == "" && !isUserText && !showChat && !introPlayed
      ensures awaitingResponse == map[] && awaitingSpeech == map[] && hideTimers == 0 && log == [] && nextTicket == 0
    {
      this.voice := voice;
      this.store := store;
      this.userAgent := userAgent;
      this.encode := encode;
      user := store.CurrentUser();
      nexaState, currentText, isUserText, showChat, introPlayed := Idle, "", false, false, false;
      nextTicket, awaitingResponse, awaitingSpeech, hideTimers := 0, map[], map[], 0;
      log := [];
    }

    /** `handleLogin`: the intro will play again for the new user. */
    method HandleLogin(u: UserProfile)
      requires Valid() && store.CurrentUser() == Some(u)
      modifies this
      ensures Valid()
      ensures user == Some(u) && !introPlayed
      ensures nexaState == old(nexaState) && currentText == old(currentText) && isUserText == old(isUserText) && showChat == old(showChat)
      ensures awaitingResponse == old(awaitingResponse) && awaitingSpeech == old(awaitingSpeech) && log == old(log)
      ensures nextTicket == old(nextTicket) && hideTimers == old(hideTimers)
    {
      user := Some(u);
      introPlayed := false;
    }

    /** The intro timer, which fires once after a login: greet the user and ask for speech. */
    method IntroTimer(hour: int)
      requires Valid() && user.Some? && !introPlayed
      modifies this
      ensures Valid()
      ensures introPlayed
      ensures user.Some? && currentText == IntroText(Greeting(hour), IntroName(user.value)) && !isUserText
      ensures nexaState == Speaking && !showChat
      ensures awaitingSpeech == old(awaitingSpeech)[old(nextTicket) := currentText] && nextTicket == old(nextTicket) + 1
      ensures log == old(log) + [RequestSpeech(currentText)]
      ensures user == old(user) && awaitingResponse == old(awaitingResponse) && hideTimers == old(hideTimers)
    {
      var greeting := Greeting(hour);
      var userName := IntroName(user.value);
      var introText := IntroText(greeting, userName);
      isUserText := false;
      currentText := introText;
      showChat := false;
      nexaState := Speaking;
      awaitingSpeech := awaitingSpeech[nextTicket := introText];
      nextTicket := nextTicket + 1;
      log := log + [RequestSpeech(introText)];
      introPlayed := true;
    }

    /** `handleMicClick`: interrupt speech, cancel listening, or start one capture. */
    method MicClick()
      requires Valid()
      modifies this, voice
      ensures Valid()
      ensures old(nexaState) == Speaking ==>
        nexaState == Idle && !showChat && currentText == old(currentText) &&
        voice.currentSource == None && voice.audible == old(voice.audible) - old(voice.CurrentSet()) &&
        log == old(log) + [StopAudio]
      ensures old(nexaState) == Speaking ==>
        voice.recognition == old(voice.recognition) && voice.capturing == old(voice.capturing) &&
        voice.handlersInstalled == old(voice.handlersInstalled)
      ensures old(nexaState) == Listening ==>
        nexaState == Idle && showChat == old(showChat) && currentText == old(currentText) &&
        !voice.capturing && log == old(log) + [StopListening]
      ensures old(nexaState) == Listening ==>
        voice.recognition == old(voice.recognition) && voice.handlersInstalled == old(voice.handlersInstalled) &&
        voice.currentSource == old(voice.currentSource) && voice.audible == old(voice.audible)
      ensures old(nexaState) == Idle || old(nexaState) == Thinking ==>
        currentText == "" && !showChat && log == old(log) + [StartListening] &&
        (nexaState == Listening <==> voice.recognition) &&
        (nexaState != Listening ==> nexaState == Idle) &&
        (voice.recognition ==> voice.capturing && voice.handlersInstalled)
      ensures old(nexaState) == Idle || old(nexaState) == Thinking ==>
        voice.recognition == (old(voice.recognition) || voice.platform.hasSpeechRecognition) &&
        (!voice.recognition ==> voice.capturing == old(voice.capturing) && voice.handlersInstalled == old(voice.handlersInstalled)) &&
        voice.currentSource == old(voice.currentSource) && voice.audible == old(voice.audible)
      ensures user == old(user) && isUserText == old(isUserText) && introPlayed == old(introPlayed) && nextTicket == old(nextTicket)
      ensures awaitingResponse == old(awaitingResponse) && awaitingSpeech == old(awaitingSpeech) && hideTimers == old(hideTimers)
      ensures voice.decoding == old(voice.decoding) && voice.endPending == old(voice.endPending)
      ensures voice.audioContext == old(voice.audioContext) && voice.gainNode == old(voice.gainNode) && voice.nextId == old(voice.nextId)
    {
      if nexaState == Speaking {
        voice.StopAudio();
        log := log + [StopAudio];
        nexaState := Idle;
        showChat := false;
        return;
      }
      if nexaState == Listening {
        voice.StopListening();
        log := log + [StopListening];
        nexaState := Idle;
        return;
      }
      nexaState := Listening;
      currentText := "";
      showChat := false;
      log := log + [StartListening];
      var outcome := voice.StartListening();
      if outcome == Voice.Unsupported {
        CaptureError();
      }
    }

    /** The error callback of a capture. */
    method CaptureError()
      modifies this
      ensures nexaState == Idle && !showChat
      ensures currentText == old(currentText) && isUserText == old(isUserText) && user == old(user)
      ensures introPlayed == old(introPlayed) && nextTicket == old(nextTicket) && log == old(log)
      ensures awaitingResponse == old(awaitingResponse) && awaitingSpeech == old(awaitingSpeech) && hideTimers == old(hideTimers)
    {
      nexaState := Idle;
      showChat := false;
    }

    /** The engine's `result` event: a fragment is shown as user text; a final one starts the interaction. */
    method SpeechResult(results: seq<Voice.RecognitionResult>, resultIndex: nat, now: int)
      requires Valid()
      modifies this, voice, store
      ensures Valid()
      ensures var fragment := if old(voice.handlersInstalled) then Voice.Dispatch(results, resultIndex) else None;
        && (fragment.None? ==> nexaState == old(nexaState) && currentText == old(currentText) && showChat == old(showChat) && log == old(log))
        && (fragment.Some? ==> currentText == fragment.value.text)
        && (fragment.Some? && !fragment.value.isFinal ==> isUserText && showChat && nexaState == old(nexaState) && log == old(log))
        && (fragment.Some? && fragment.value.isFinal && old(user).None? ==> isUserText && showChat && nexaState == old(nexaState) && log == old(log))
        && (fragment.Some? && fragment.value.isFinal && old(user).Some? ==>
              isUserText && !showChat && nexaState == Thinking &&
              log == old(log) + [SaveChat(ChatMessage(fragment.value.text, FromUser, now)), RequestResponse(fragment.value.text)])
      // a final fragment with a user saves the message and sends the request under the next ticket
      ensures var fragment := if old(voice.handlersInstalled) then Voice.Dispatch(results, resultIndex) else None;
        fragment.Some? && fragment.value.isFinal && old(user).Some? ==>
          var message := ChatMessage(fragment.value.text, FromUser, now);
          && user == Some(old(user).value.(chatHistory := Storage.Pushed(old(user).value.chatHistory, message)))
          && store.items == Storage.SavedItems(old(store.items), old(user).value, message)
          && awaitingResponse == old(awaitingResponse)[old(nextTicket) := Pending(fragment.value.text, user.value)]
          && nextTicket == old(nextTicket) + 1
      ensures var fragment := if old(voice.handlersInstalled) then Voice.Dispatch(results, resultIndex) else None;
        !(fragment.Some? && fragment.value.isFinal && old(user).Some?) ==>
          user == old(user) && store.items == old(store.items) && awaitingResponse == old(awaitingResponse) && nextTicket == old(nextTicket)
      ensures introPlayed == old(introPlayed) && awaitingSpeech == old(awaitingSpeech) && hideTimers == old(hideTimers)
      ensures var fragment := if old(voice.handlersInstalled) then Voice.Dispatch(results, resultIndex) else None;
        fragment.None? ==> isUserText == old(isUserText)
      // the engine stops after a final fragment; nothing else of the voice service changes
      ensures var fragment := if old(voice.handlersInstalled) then Voice.Dispatch(results, resultIndex) else None;
        voice.capturing == (old(voice.capturing) && !(fragment.Some? && fragment.value.isFinal))
      ensures voice.audioContext == old(voice.audioContext) && voice.recognition == old(voice.recognition)
      ensures voice.handlersInstalled == old(voice.handlersInstalled)
      ensures voice.currentSource == old(voice.currentSource) && voice.gainNode == old(voice.gainNode) && voice.nextId == old(voice.nextId)
      ensures voice.decoding == old(voice.decoding) && voice.audible == old(voice.audible) && voice.endPending == old(voice.endPending)
    {
      var fragment := voice.OnResult(results, resultIndex);
      if fragment.Some? {
        currentText := fragment.value.text;
        isUserText := true;
        showChat := true;
        if fragment.value.isFinal {
          HandleInteraction(fragment.value.text, now);
        }
      }
    }

    /** The engine's `error` event: any error but `no-speech` ends the capture. */
    method SpeechError(error: string)
      requires Valid()
      modifies this
      ensures Valid()
      ensures voice.handlersInstalled && error != "no-speech" ==> nexaState == Idle && !showChat
      ensures !(voice.handlersInstalled && error != "no-speech") ==> nexaState == old(nexaState) && showChat == old(showChat)
      ensures currentText == old(currentText) && isUserText == old(isUserText) && user == old(user) && log == old(log)
      ensures introPlayed == old(introPlayed) && nextTicket == old(nextTicket)
      ensures awaitingResponse == old(awaitingResponse) && awaitingSpeech == old(awaitingSpeech) && hideTimers == old(hideTimers)
    {
      var signalled := voice.OnError(error);
      if signalled {
        CaptureError();
      }
    }

    /** `handleInteraction` up to the model request: with a user, think, save the
        user's message and send the request; without one, nothing. */
    method HandleInteraction(inputText: string, now: int)
      requires Valid()
      modifies this, store
      ensures Valid()
      ensures old(user).None? ==> unchanged(this) && store.items == old(store.items)
      ensures old(user).Some? ==> nexaState == Thinking && !showChat
      ensures old(user).Some? ==>
        user == Some(old(user).value.(chatHistory := Storage.Pushed(old(user).value.chatHistory, ChatMessage(inputText, FromUser, now))))
      ensures old(user).Some? ==> store.items == Storage.SavedItems(old(store.items), old(user).value, ChatMessage(inputText, FromUser, now))
      ensures old(user).Some? ==>
        awaitingResponse == old(awaitingResponse)[old(nextTicket) := Pending(inputText, user.value)] && nextTicket == old(nextTicket) + 1
      ensures old(user).Some? ==> log == old(log) + [SaveChat(ChatMessage(inputText, FromUser, now)), RequestResponse(inputText)]
      ensures currentText == old(currentText) && isUserText == old(isUserText) && introPlayed == old(introPlayed)
      ensures awaitingSpeech == old(awaitingSpeech) && hideTimers == old(hideTimers)
    {
      if user.Some? {
        var message := ChatMessage(inputText, FromUser, now);
        var saved := store.SaveChat(user.value, message);
        nexaState, showChat, user := Thinking, false, Some(saved);
        log := log + [SaveChat(message), RequestResponse(inputText)];
        awaitingResponse := awaitingResponse[nextTicket := Pending(inputText, saved)];
        nextTicket := nextTicket + 1;
      }
    }

    /** What `intentService.execute` does with the reply's payload. */
    function EffectOf(response: Gemini.GenResponse): Intent.Effect {
      Intent.Execute(response.actionPayload, userAgent, encode)
    }

    /** The reply `generateTextResponse` produces for a pending request, given the model's answers. */
    function Answer(p: Pending, model: Gemini.Request -> Result<Gemini.Reply>): Gemini.GenResponse {
      Gemini.ResponseFor(model(Gemini.RequestFor(p.input, p.user)))
    }

    /** `handleInteraction` from the model's answer on: save Nexa's message, show
        its text, run the intent when there is an action, then ask for speech when
        there is text, or go idle. An intent that throws ends the interaction. */
    method ResponseArrived(ticket: nat, model: Gemini.Request -> Result<Gemini.Reply>, now: int)
      returns (ghost savedLog: seq<Outward>)
      requires Valid() && ticket in awaitingResponse
      modifies this, store
      ensures Valid()
      ensures var response := Answer(old(awaitingResponse)[ticket], model);
        currentText == response.text && !isUserText
      ensures user.Some? && store.CurrentUser() == user
      ensures var response := Answer(old(awaitingResponse)[ticket], model);
        user.value.chatHistory == Storage.Pushed(old(user).value.chatHistory, ChatMessage(response.text, FromNexa, now))
      ensures var response := Answer(old(awaitingResponse)[ticket], model);
        store.items == Storage.SavedItems(old(store.items), old(user).value, ChatMessage(response.text, FromNexa, now))
      // the outward calls: the save of Nexa's message (giving `savedLog`), then the follow-up's
      ensures var response := Answer(old(awaitingResponse)[ticket], model);
        savedLog == old(log) + [SaveChat(ChatMessage(response.text, FromNexa, now))]
      ensures var response := Answer(old(awaitingResponse)[ticket], model);
        log == savedLog + FollowUpLog(response, EffectOf(response))
      ensures var response := Answer(old(awaitingResponse)[ticket], model);
        FollowedUp(response, EffectOf(response), old(nexaState), old(showChat), old(awaitingSpeech), old(nextTicket),
                   nexaState, showChat, awaitingSpeech)
      ensures awaitingResponse == old(awaitingResponse) - {ticket}
      ensures introPlayed == old(introPlayed) && hideTimers == old(hideTimers)
    {
      var p := awaitingResponse[ticket];
      assert user.Some?;
      awaitingResponse := awaitingResponse - {ticket};
      var response := Gemini.GenerateTextResponse(p.input, p.user, model);
      assert response == Answer(old(awaitingResponse)[ticket], model);
      SaveReply(response, now);
      savedLog := log;
      FollowUp(response, EffectOf(response));
    }

    /** Saving Nexa's message on the application's user object, which the store
        then hands back as the current user, and showing the reply's text. */
    method SaveReply(response: Gemini.GenResponse, now: int)
      requires Valid() && user.Some?
      modifies this, store
      ensures Valid()
      ensures var message := ChatMessage(response.text, FromNexa, now);
        && currentText == response.text && !isUserText
        && user.Some? && store.CurrentUser() == user
        && user.value.chatHistory == Storage.Pushed(old(user).value.chatHistory, message)
        && store.items == Storage.SavedItems(old(store.items), old(user).value, message)
        && log == old(log) + [SaveChat(message)]
      ensures nexaState == old(nexaState) && showChat == old(showChat) && introPlayed == old(introPlayed)
      ensures nextTicket == old(nextTicket) && hideTimers == old(hideTimers)
      ensures awaitingResponse == old(awaitingResponse) && awaitingSpeech == old(awaitingSpeech)
    {
      var message := ChatMessage(response.text, FromNexa, now);
      // the user object the interaction holds is the application's, updated in place
      Storage.PushedBounded(user.value.chatHistory, message);
      var saved := store.SaveChat(user.value, message);
      log := log + [SaveChat(message)];
      var updatedUser := store.CurrentUser();
      user := if updatedUser.Some? then updatedUser else user;
      isUserText := false;
      currentText := response.text;
    }

    /** The outward calls after the save: the intent when there is an action, then,
        unless the intent threw, the speech request when there is text. */
    ghost function FollowUpLog(response: Gemini.GenResponse, effect: Intent.Effect): seq<Outward> {
      var intent := if response.actionPayload.action != NoAction then [ExecuteIntent(effect)] else [];
      if Aborts(response, effect) || response.text == "" then intent else intent + [RequestSpeech(response.text)]
    }

    /** The intent and speech steps of `handleInteraction`; `effect` is what the
        intent service does with the reply's payload, run only for an action. */
    method FollowUp(response: Gemini.GenResponse, effect: Intent.Effect)
      requires Valid()
      modifies this
      ensures Valid()
      ensures log == old(log) + FollowUpLog(response, effect)
      ensures FollowedUp(response, effect, old(nexaState), old(showChat), old(awaitingSpeech), old(nextTicket),
                         nexaState, showChat, awaitingSpeech)
      ensures currentText == old(currentText) && isUserText == old(isUserText) && user == old(user)
      ensures introPlayed == old(introPlayed) && hideTimers == old(hideTimers) && awaitingResponse == old(awaitingResponse)
    {
      if response.actionPayload.action != NoAction {
        log := log + [ExecuteIntent(effect)];
        if effect == Intent.TypeError {
          return;
        }
      }
      if response.text != "" {
        awaitingSpeech := awaitingSpeech[nextTicket := response.text];
        nextTicket := nextTicket + 1;
        log := log + [RequestSpeech(response.text)];
      } else {
        nexaState := Idle;
        showChat := false;
      }
    }

    /** The speech answer: play the audio, or show the text until a timer hides it. */
    method SpeechArrived(ticket: nat, tts: string -> Result<Option<string>>)
      requires Valid() && ticket in awaitingSpeech
      modifies this, voice
      ensures Valid()
      ensures var audio := Gemini.GenerateSpeech(old(awaitingSpeech)[ticket], tts);
        && (audio.None? ==>
              nexaState == Idle && showChat && hideTimers == old(hideTimers) + 1 && log == old(log) &&
              voice.decoding == old(voice.decoding))
        && (audio.Some? ==>
              log == old(log) + [PlayAudio(audio.value)] && hideTimers == old(hideTimers) &&
              (voice.audioContext && voice.atob(audio.value).Some? ==>
                 nexaState == old(nexaState) && showChat == old(showChat) && voice.decoding.Keys == old(voice.decoding.Keys) + {old(voice.nextId)}) &&
              (!voice.audioContext || voice.atob(audio.value).None? ==> nexaState == Idle && !showChat))
      ensures nexaState == Idle || nexaState == old(nexaState)
      // the player: untouched without audio; otherwise the current source is stopped and the bytes wait for their decode
      ensures Gemini.GenerateSpeech(old(awaitingSpeech)[ticket], tts).None? ==> unchanged(voice)
      ensures var audio := Gemini.GenerateSpeech(old(awaitingSpeech)[ticket], tts);
        audio.Some? ==> voice.audioContext == (old(voice.audioContext) || voice.platform.hasAudioContext)
      ensures var audio := Gemini.GenerateSpeech(old(awaitingSpeech)[ticket], tts);
        audio.Some? && voice.audioContext ==> voice.currentSource == None && voice.audible == old(voice.audible) - old(voice.CurrentSet())
      ensures var audio := Gemini.GenerateSpeech(old(awaitingSpeech)[ticket], tts);
        audio.Some? && voice.audioContext && voice.atob(audio.value).Some? ==>
          voice.decoding == old(voice.decoding)[old(voice.nextId) := voice.atob(audio.value).value] && voice.nextId == old(voice.nextId) + 1
      ensures var audio := Gemini.GenerateSpeech(old(awaitingSpeech)[ticket], tts);
        audio.Some? ==> voice.recognition == (old(voice.recognition) || (!old(voice.audioContext) && voice.platform.hasSpeechRecognition))
      ensures var audio := Gemini.GenerateSpeech(old(awaitingSpeech)[ticket], tts);
        audio.Some? && !voice.audioContext ==> voice.currentSource == old(voice.currentSource) && voice.audible == old(voice.audible)
      ensures var audio := Gemini.GenerateSpeech(old(awaitingSpeech)[ticket], tts);
        !(audio.Some? && voice.audioContext && voice.atob(audio.value).Some?) ==>
          voice.decoding == old(voice.decoding) && voice.nextId == old(voice.nextId)
      ensures voice.capturing == old(voice.capturing) && voice.handlersInstalled == old(voice.handlersInstalled)
      ensures voice.gainNode == old(voice.gainNode) && voice.endPending == old(voice.endPending)
      ensures awaitingSpeech == old(awaitingSpeech) - {ticket}
      ensures currentText == old(currentText) && isUserText == old(isUserText) && user == old(user) && awaitingResponse == old(awaitingResponse)
      ensures introPlayed == old(introPlayed) && nextTicket == old(nextTicket)
    {
      var text := awaitingSpeech[ticket];
      awaitingSpeech := awaitingSpeech - {ticket};
      var audio := Gemini.GenerateSpeech(text, tts);
      if audio.Some? {
        log := log + [PlayAudio(audio.value)];
        var step := voice.PlayBegin(audio.value);
        if step == Voice.EndedNow {
          PlaybackEnded();
        }
      } else {
        nexaState := Idle;
        showChat := true;
        hideTimers := hideTimers + 1;
      }
    }

    /** The playback's onStart callback: speaking, with the text shown. */
    method PlaybackStarted()
      modifies this
      ensures nexaState == Speaking && showChat
      ensures currentText == old(currentText) && isUserText == old(isUserText) && user == old(user)
      ensures introPlayed == old(introPlayed) && nextTicket == old(nextTicket) && log == old(log)
      ensures awaitingResponse == old(awaitingResponse) && awaitingSpeech == old(awaitingSpeech) && hideTimers == old(hideTimers)
    {
      nexaState := Speaking;
      showChat := true;
    }

    /** The playback's onEnded callback: idle, with the text hidden. */
    method PlaybackEnded()
      modifies this
      ensures nexaState == Idle && !showChat
      ensures currentText == old(currentText) && isUserText == old(isUserText) && user == old(user)
      ensures introPlayed == old(introPlayed) && nextTicket == old(nextTicket) && log == old(log)
      ensures awaitingResponse == old(awaitingResponse) && awaitingSpeech == old(awaitingSpeech) && hideTimers == old(hideTimers)
    {
      nexaState := Idle;
      showChat := false;
    }

    /** A decode finished: the source starts and the text shows, or the playback
        ends. A source started since this decode began is not stopped, so it is
        still heard beside the new one. */
    method AudioDecoded(ticket: nat, decodeOk: bool, startOk: bool)
      requires Valid() && ticket in voice.decoding
      modifies this, voice
      ensures Valid()
      ensures var started := Voice.Decodes(old(voice.decoding)[ticket], decodeOk) && startOk;
        && (started ==> nexaState == Speaking && showChat && voice.currentSource == Some(ticket))
        && (started ==> voice.audible == old(voice.audible) + {ticket})
        && (!started ==> nexaState == Idle && !showChat && voice.audible == old(voice.audible))
      ensures var started := Voice.Decodes(old(voice.decoding)[ticket], decodeOk) && startOk;
        && (started ==> voice.gainNode == Some(ticket) && voice.endPending == old(voice.endPending) + {ticket})
        && (!started ==> voice.endPending == old(voice.endPending))
      // a decode failure installs nothing; a failed start has installed the new source already
      ensures !Voice.Decodes(old(voice.decoding)[ticket], decodeOk) ==>
        voice.currentSource == old(voice.currentSource) && voice.gainNode == old(voice.gainNode)
      ensures Voice.Decodes(old(voice.decoding)[ticket], decodeOk) && !startOk ==>
        voice.currentSource == Some(ticket) && voice.gainNode == Some(ticket)
      ensures voice.decoding == old(voice.decoding) - {ticket} && voice.nextId == old(voice.nextId)
      ensures voice.audioContext == old(voice.audioContext) && voice.recognition == old(voice.recognition)
      ensures voice.capturing == old(voice.capturing) && voice.handlersInstalled == old(voice.handlersInstalled)
      ensures currentText == old(currentText) && isUserText == old(isUserText) && user == old(user) && log == old(log)
      ensures introPlayed == old(introPlayed) && nextTicket == old(nextTicket)
      ensures awaitingResponse == old(awaitingResponse) && awaitingSpeech == old(awaitingSpeech) && hideTimers == old(hideTimers)
    {
      var step := voice.PlayResumeAsWritten(ticket, decodeOk, startOk);
      if step.Started? {
        PlaybackStarted();
      } else {
        PlaybackEnded();
      }
    }

    /** The decode event with the corrected resume, which stops whatever source is
        current before starting the new one: one audible source stays one. */
    method AudioDecodedCorrected(ticket: nat, decodeOk: bool, startOk: bool)
      requires Valid() && ticket in voice.decoding
      modifies this, voice
      ensures Valid()
      ensures var started := Voice.Decodes(old(voice.decoding)[ticket], decodeOk) && startOk;
        && (started ==> nexaState == Speaking && showChat && voice.currentSource == Some(ticket))
        && (!started ==> nexaState == Idle && !showChat)
      ensures old(voice.SingleSource()) ==> voice.SingleSource()
      ensures old(voice.SingleSource()) && Voice.Decodes(old(voice.decoding)[ticket], decodeOk) && startOk ==>
        voice.audible == {ticket}
      ensures var started := Voice.Decodes(old(voice.decoding)[ticket], decodeOk) && startOk;
        && (started ==> voice.gainNode == Some(ticket) && voice.endPending == old(voice.endPending) + {ticket})
        && (started ==> voice.audible == old(voice.audible) - old(voice.CurrentSet()) + {ticket})
        && (!started ==> voice.endPending == old(voice.endPending))
      // a decode failure installs nothing; otherwise the current source is stopped before the new one is installed
      ensures !Voice.Decodes(old(voice.decoding)[ticket], decodeOk) ==>
        voice.currentSource == old(voice.currentSource) && voice.gainNode == old(voice.gainNode) && voice.audible == old(voice.audible)
      ensures Voice.Decodes(old(voice.decoding)[ticket], decodeOk) && !startOk ==>
        voice.currentSource == Some(ticket) && voice.gainNode == Some(ticket) && voice.audible == old(voice.audible) - old(voice.CurrentSet())
      ensures voice.decoding == old(voice.decoding) - {ticket} && voice.nextId == old(voice.nextId)
      ensures voice.audioContext == old(voice.audioContext) && voice.recognition == old(voice.recognition)
      ensures voice.capturing == old(voice.capturing) && voice.handlersInstalled == old(voice.handlersInstalled)
      ensures currentText == old(currentText) && isUserText == old(isUserText) && user == old(user) && log == old(log)
      ensures introPlayed == old(introPlayed) && nextTicket == old(nextTicket)
      ensures awaitingResponse == old(awaitingResponse) && awaitingSpeech == old(awaitingSpeech) && hideTimers == old(hideTimers)
    {
      var step := voice.PlayResume(ticket, decodeOk, startOk);
      if step.Started? {
        PlaybackStarted();
      } else {
        PlaybackEnded();
      }
    }

    /** A started source finished or was stopped: its `ended` event still fires. */
    method SourceEnded(id: nat)
      requires Valid() && id in voice.endPending
      modifies this, voice
      ensures Valid()
      ensures nexaState == Idle && !showChat && id !in voice.audible
      ensures voice.currentSource == old(voice.currentSource) && voice.audible == old(voice.audible) - {id}
      ensures voice.endPending == old(voice.endPending) - {id} && voice.gainNode == old(voice.gainNode)
      ensures voice.decoding == old(voice.decoding) && voice.nextId == old(voice.nextId)
      ensures voice.audioContext == old(voice.audioContext) && voice.recognition == old(voice.recognition)
      ensures voice.capturing == old(voice.capturing) && voice.handlersInstalled == old(voice.handlersInstalled)
      ensures currentText == old(currentText) && isUserText == old(isUserText) && user == old(user) && log == old(log)
      ensures introPlayed == old(introPlayed) && nextTicket == old(nextTicket)
      ensures awaitingResponse == old(awaitingResponse) && awaitingSpeech == old(awaitingSpeech) && hideTimers == old(hideTimers)
    {
      voice.SourceEnded(id);
      PlaybackEnded();
    }

    /** A fallback timer fires: the chat is hidden, whatever the state is by then. */
    method HideTimeout()
      requires Valid() && hideTimers > 0
      modifies this
      ensures Valid()
      ensures !showChat && hideTimers == old(hideTimers) - 1
      ensures nexaState == old(nexaState) && currentText == old(currentText) && isUserText == old(isUserText) && user == old(user)
      ensures introPlayed == old(introPlayed) && nextTicket == old(nextTicket) && log == old(log)
      ensures awaitingResponse == old(awaitingResponse) && awaitingSpeech == old(awaitingSpeech)
    {
      hideTimers := hideTimers - 1;
      showChat := false;
    }
  }


  /** A user is logged in and the intro's speech is requested as ticket 0. */
  method IntroRequested() returns (app: NexaApp)
    ensures fresh(app) && fresh(app.voice) && fresh(app.store) && app.Valid()
    ensures app.user.Some? && app.awaitingSpeech.Keys == {0} && app.nextTicket == 1
    ensures app.nexaState == Speaking
    ensures app.voice.platform.hasAudioContext && app.voice.platform.hasSpeechRecognition && app.voice.atob("QQ").Some?
    ensures app.voice.decoding == map[] && app.voice.nextId == 0 && app.voice.audible == {}
  {
    var voice := new Voice.VoiceService(Voice.Platform(true, true), (s: string) => Some([0 as Pcm.byte, 0 as Pcm.byte]));
    var u := UserProfile("Asha", "9876543210", User, DarkNeon, [], 0);
    var store := new Storage.Store(map[Storage.CurrentUserKey := Storage.ProfileValue(u)]);
    app := new NexaApp(voice, store, "", (x: string) => x);
    app.IntroTimer(9);
  }

  /** While the intro's speech is still being synthesised, the user taps the mic
      twice (the first tap interrupts the speaking state, the second starts a
      capture) and says "hello": the final fragment sends the request as ticket 1. */
  method QuestionAsked(app: NexaApp)
    requires app.Valid() && app.user.Some? && app.nexaState == Speaking
    requires app.awaitingSpeech.Keys == {0} && app.nextTicket == 1 && app.voice.platform.hasSpeechRecognition
    requires app.voice.decoding == map[] && app.voice.nextId == 0 && app.voice.audible == {}
    modifies app, app.voice, app.store
    ensures app.Valid() && app.awaitingSpeech.Keys == {0} && 1 in app.awaitingResponse && app.nextTicket == 2
    ensures app.voice.decoding == map[] && app.voice.nextId == 0 && app.voice.audible == {}
  {
    app.MicClick();
    assert app.nexaState == Idle;
    app.MicClick();
    assert app.voice.handlersInstalled;
    var results := [Voice.RecognitionResult(true, "hello")];
    assert Voice.Window(results, 0) == results && results[..|results| - 1] == [];
    assert Voice.Finals(results) == "hello";
    assert Voice.Dispatch(results, 0) == Some(Voice.Fragment("hello", true));
    app.SpeechResult(results, 0, 1);
  }

  /** The model answers the question; the answer's speech is requested as ticket 2. */
  method AnswerRequested(app: NexaApp)
    requires app.Valid() && app.awaitingSpeech.Keys == {0} && 1 in app.awaitingResponse && app.nextTicket == 2
    modifies app, app.store
    ensures app.Valid() && 0 in app.awaitingSpeech && 2 in app.awaitingSpeech
  {
    ghost var savedLog := app.ResponseArrived(1, (r: Gemini.Request) => Ok(Gemini.Reply(Some("Namaste"), [])), 2);
  }

  /** Both speech answers arrive before either decode finishes: two decodes are pending. */
  method BothSynthesised(app: NexaApp)
    requires app.Valid() && 0 in app.awaitingSpeech && 2 in app.awaitingSpeech
    requires app.voice.platform.hasAudioContext && app.voice.atob("QQ").Some?
    requires app.voice.decoding == map[] && app.voice.nextId == 0 && app.voice.audible == {}
    modifies app, app.voice
    ensures app.Valid() && app.voice.decoding.Keys == {0, 1} && app.voice.audible == {}
  {
    var tts := (s: string) => Ok(Some("QQ"));
    assert Gemini.GenerateSpeech(app.awaitingSpeech[0], tts) == Some("QQ");
    app.SpeechArrived(0, tts);
    assert app.voice.decoding.Keys == {0} && app.voice.nextId == 1;
    assert Gemini.GenerateSpeech(app.awaitingSpeech[2], tts) == Some("QQ");
    app.SpeechArrived(2, tts);
  }

  /** The intro's speech and the answer to a question asked over it are both
      synthesised before either decode finishes; the resume as written stops
      neither, so both are heard at once. */
  method OverlappingSpeechAsWritten() returns (audibleSources: nat)
    ensures audibleSources == 2
  {
    var app := IntroRequested();
    QuestionAsked(app);
    AnswerRequested(app);
    BothSynthesised(app);
    app.AudioDecoded(0, true, true);
    app.AudioDecoded(1, true, true);
    assert app.voice.audible == {0, 1};
    audibleSources := |app.voice.audible|;
  }

  /** The same interleaving with the corrected resume: only the answer is heard. */
  method OverlappingSpeechCorrected() returns (audibleSources: nat)
    ensures audibleSources == 1
  {
    var app := IntroRequested();
    QuestionAsked(app);
    AnswerRequested(app);
    BothSynthesised(app);
    app.AudioDecodedCorrected(0, true, true);
    app.AudioDecodedCorrected(1, true, true);
    assert app.voice.audible == {1};
    audibleSources := |app.voice.audible|;
  }
}
