/** The voice service: a lazily created audio context, one current playback
    source, the raw-PCM fallback, and the wrapper around speech recognition.

    `playAudio` is asynchronous. It is modelled as two steps around the one
    suspension point every call reaches, `await decodeAudioData`: `PlayBegin`
    runs up to it and `PlayResumeAsWritten` runs from it; `PlayResume` is the
    same step with the current source stopped again. The engine's later `ended`
    event of a started source is `SourceEnded`. Platform oracles are inputs:
    which constructors the page offers, base64 decoding (`atob`, `None` when it
    throws), whether `decodeAudioData` succeeds and whether `source.start` throws. */
module Voice {
  import opened Types
  import Pcm

  /** What the host page offers. */
  datatype Platform = Platform(hasAudioContext: bool, hasSpeechRecognition: bool)

  /** The buffer installed on a source: decoded by the platform, or produced by the PCM fallback. */
  datatype AudioBuffer = Decoded(bytes: seq<Pcm.byte>) | PcmFallback(channel: seq<real>)

  /** Whether a buffer comes out of the bytes: the platform's decode, or else the
      PCM fallback, which throws on data too short for one sample because
      `createBuffer` refuses a zero-length buffer. */
  predicate Decodes(bytes: seq<Pcm.byte>, decodeOk: bool) {
    decodeOk || Pcm.SampleCount(|bytes|) > 0
  }

  /** The buffer that comes out of the bytes. */
  function BufferFor(bytes: seq<Pcm.byte>, decodeOk: bool): AudioBuffer {
    if decodeOk then Decoded(bytes) else PcmFallback(Pcm.Channel(bytes))
  }

  /** `decodeAudioData`, with the PCM conversion in its `catch`. */
  method DecodeBuffer(bytes: seq<Pcm.byte>, decodeOk: bool) returns (buffer: Option<AudioBuffer>)
    ensures buffer.Some? <==> Decodes(bytes, decodeOk)
    ensures buffer.Some? ==> buffer.value == BufferFor(bytes, decodeOk)
    ensures buffer.Some? && buffer.value.PcmFallback? ==>
      0 < |buffer.value.channel| && 2 * |buffer.value.channel| <= |bytes|
  {
    if decodeOk {
      return Some(Decoded(bytes));
    }
    if Pcm.SampleCount(|bytes|) == 0 {
      return None;
    }
    var channelData := Pcm.PcmToAudioBuffer(bytes);
    return Some(PcmFallback(channelData[..]));
  }

  /** What one step of `playAudio` did with its callbacks. */
  datatype PlayStep =
    | EndedNow                                    // onEnded was called, onStart was not
    | Decoding(ticket: nat)                       // suspended at decodeAudioData, no callback yet
    | Started(source: nat, buffer: AudioBuffer)   // source.start succeeded, then onStart was called

  datatype CaptureStart = Unsupported | Capturing

  /** One entry of `event.results`: its `isFinal` flag and the transcript of its first alternative. */
  datatype RecognitionResult = RecognitionResult(isFinal: bool, transcript: string)

  /** The arguments `onresult` passes to the capture callback. */
  datatype Fragment = Fragment(text: string, isFinal: bool)

  // ---------------------------------------------------------------- onresult

  /** The results from `resultIndex` on (none when the index is past the end). */
  function Window(results: seq<RecognitionResult>, resultIndex: nat): seq<RecognitionResult> {
    if resultIndex <= |results| then results[resultIndex..] else []
  }

  /** The final transcripts of `rs`, concatenated in order. */
  function Finals(rs: seq<RecognitionResult>): string {
    if rs == [] then []
    else Finals(rs[..|rs| - 1]) + (if rs[|rs| - 1].isFinal then rs[|rs| - 1].transcript else [])
  }

  /** The interim transcripts of `rs`, concatenated in order. */
  function Interims(rs: seq<RecognitionResult>): string {
    if rs == [] then []
    else Interims(rs[..|rs| - 1]) + (if rs[|rs| - 1].isFinal then [] else rs[|rs| - 1].transcript)
  }

  /** The callback `onresult` makes: a non-empty final text wins, then a non-empty interim text. */
  function Dispatch(results: seq<RecognitionResult>, resultIndex: nat): Option<Fragment> {
    var w := Window(results, resultIndex);
    if Finals(w) != [] then Some(Fragment(Finals(w), true))
    else if Interims(w) != [] then Some(Fragment(Interims(w), false))
    else None
  }

  /** The loop of `onresult`: accumulates the interim and final transcripts from `resultIndex` on. */
  method Aggregate(results: seq<RecognitionResult>, resultIndex: nat) returns (interim: string, final: string)
    ensures interim == Interims(Window(results, resultIndex))
    ensures final == Finals(Window(results, resultIndex))
  {
    interim, final := "", "";
    var i := resultIndex;
    while i < |results|
      invariant resultIndex <= i
      invariant i <= |results| || i == resultIndex
      invariant i <= |results| ==> final == Finals(results[resultIndex..i]) && interim == Interims(results[resultIndex..i])
      invariant i > |results| ==> final == "" && interim == ""
    {
      assert results[resultIndex..i + 1][..i - resultIndex] == results[resultIndex..i];
      if results[i].isFinal {
        final := final + results[i].transcript;
      } else {
        interim := interim + results[i].transcript;
      }
      i := i + 1;
    }
    if resultIndex <= |results| {
      assert results[resultIndex..i] == results[resultIndex..];
    }
  }

  lemma {:induction false} FinalsAppend(a: seq<RecognitionResult>, b: seq<RecognitionResult>)
    ensures Finals(a + b) == Finals(a) + Finals(b)
    ensures Interims(a + b) == Interims(a) + Interims(b)
    decreases |b|
  {
    if b == [] {
      assert a + b == a;
    } else {
      var b' := b[..|b| - 1];
      assert (a + b)[..|a + b| - 1] == a + b';
      FinalsAppend(a, b');
    }
  }

  /** The final text is non-empty exactly when some final result has a non-empty transcript. */
  lemma {:induction false} FinalsNonEmpty(rs: seq<RecognitionResult>)
    ensures Finals(rs) != [] <==> exists i :: 0 <= i < |rs| && rs[i].isFinal && rs[i].transcript != []
    decreases |rs|
  {
    if rs != [] {
      var p := rs[..|rs| - 1];
      FinalsNonEmpty(p);
      assert forall i :: 0 <= i < |p| ==> p[i] == rs[i];
    }
  }

  /** So a fragment marked final is passed on exactly when a final result with text is in the window,
      and an interim one only when no final text exists. */
  lemma DispatchFinal(results: seq<RecognitionResult>, resultIndex: nat)
    ensures var w := Window(results, resultIndex);
      (Dispatch(results, resultIndex).Some? && Dispatch(results, resultIndex).value.isFinal)
      <==> exists i :: 0 <= i < |w| && w[i].isFinal && w[i].transcript != []
    ensures Dispatch(results, resultIndex).Some? ==> Dispatch(results, resultIndex).value.text != []
  {
    FinalsNonEmpty(Window(results, resultIndex));
  }

  // ---------------------------------------------------------------- the service

  class VoiceService {
    const platform: Platform
    /** `atob` on the payload: the decoded bytes, or `None` when it throws. */
    const atob: string -> Option<seq<Pcm.byte>>

    /** `audioContext !== null` */
    var audioContext: bool
    /** `recognition` holds an engine instance */
    var recognition: bool
    /** the engine was started and not stopped since */
    var capturing: bool
    /** `onresult` and `onerror` are set on the engine (never removed) */
    var handlersInstalled: bool
    var currentSource: Option<nat>
    var gainNode: Option<nat>
    /** the next identity for a playback call and the source it creates */
    var nextId: nat
    /** calls suspended at `decodeAudioData`, with their bytes */
    var decoding: map<nat, seq<Pcm.byte>>
    /** sources that were started and have neither been stopped nor ended */
    var audible: set<nat>
    /** started sources whose `ended` event has not fired yet; a stopped source still fires it */
    var endPending: set<nat>

    ghost predicate Valid()
      reads this
    {
      && (audioContext ==> platform.hasAudioContext)
      && (recognition ==> platform.hasSpeechRecognition)
      && (!recognition ==> !capturing && !handlersInstalled)
      && audible <= endPending
      && (forall id :: id in endPending ==> id < nextId)
      && (forall t :: t in decoding ==> t < nextId)
    }

    ghost function CurrentSet(): set<nat>
      reads this
    {
      if currentSource.Some? then {currentSource.value} else {}
    }

    /** The discipline the service aims for: only the current source can be heard. */
    ghost predicate SingleSource()
      reads this
    {
      audible <= CurrentSet()
    }

    constructor (platform: Platform, atob: string -> Option<seq<Pcm.byte>>)
      ensures Valid() && SingleSource()
      ensures this.platform == platform && this.atob == atob
      ensures !audioContext && !recognition && !capturing && !handlersInstalled
      ensures currentSource == None && gainNode == None && nextId == 0
      ensures decoding == map[] && audible == {} && endPending == {}
    {
      this.platform := platform;
      this.atob := atob;
      audioContext, recognition, capturing, handlersInstalled := false, false, false, false;
      currentSource, gainNode, nextId := None, None, 0;
      decoding, audible, endPending := map[], {}, {};
    }

    /** `init`: create the audio context once, then the recognition engine. */
    method Init()
      requires Valid()
      modifies this
      ensures Valid()
      ensures audioContext == (old(audioContext) || platform.hasAudioContext)
      ensures recognition == (old(recognition) || platform.hasSpeechRecognition)
      ensures capturing == old(capturing) && handlersInstalled == old(handlersInstalled)
      ensures currentSource == old(currentSource) && gainNode == old(gainNode) && nextId == old(nextId)
      ensures decoding == old(decoding) && audible == old(audible) && endPending == old(endPending)
    {
      if !audioContext {
        if platform.hasAudioContext {
          audioContext := true;
        }
      }
      InitRecognition();
    }

    /** `initRecognition`: create the engine when the page offers one and none exists. */
    method InitRecognition()
      requires Valid()
      modifies this
      ensures Valid()
      ensures recognition == (old(recognition) || platform.hasSpeechRecognition)
      ensures audioContext == old(audioContext)
      ensures capturing == old(capturing) && handlersInstalled == old(handlersInstalled)
      ensures currentSource == old(currentSource) && gainNode == old(gainNode) && nextId == old(nextId)
      ensures decoding == old(decoding) && audible == old(audible) && endPending == old(endPending)
    {
      if platform.hasSpeechRecognition && !recognition {
        recognition := true;
      }
    }

    /** `stopAudio`: stop and forget the current source; nothing happens without one. */
    method StopAudio()
      modifies this
      ensures currentSource == None
      ensures audible == old(audible) - old(CurrentSet())
      ensures old(currentSource) == None ==> unchanged(this)
      ensures audioContext == old(audioContext) && recognition == old(recognition)
      ensures capturing == old(capturing) && handlersInstalled == old(handlersInstalled)
      ensures gainNode == old(gainNode) && nextId == old(nextId)
      ensures decoding == old(decoding) && endPending == old(endPending)
      ensures old(Valid()) ==> Valid()
      ensures old(SingleSource()) ==> audible == {}
    {
      if currentSource.Some? {
        audible := audible - {currentSource.value};
        currentSource := None;
      }
    }

    /** `playAudio` up to `await decodeAudioData`. */
    method PlayBegin(data: string) returns (step: PlayStep)
      requires Valid()
      modifies this
      ensures Valid()
      ensures audioContext == (old(audioContext) || platform.hasAudioContext)
      ensures recognition == (old(recognition) || (!old(audioContext) && platform.hasSpeechRecognition))
      ensures capturing == old(capturing) && handlersInstalled == old(handlersInstalled)
      ensures gainNode == old(gainNode) && endPending == old(endPending)
      // without an audio context: onEnded at once, and the current source is left alone
      ensures !audioContext ==> step == EndedNow && currentSource == old(currentSource) && audible == old(audible)
      // with one: the current source is stopped first
      ensures audioContext ==> currentSource == None && audible == old(audible) - old(CurrentSet())
      ensures audioContext && atob(data).None? ==> step == EndedNow
      ensures audioContext && atob(data).Some? ==> step == Decoding(old(nextId))
      ensures step.Decoding? ==> nextId == old(nextId) + 1 && decoding == old(decoding)[step.ticket := atob(data).value]
      ensures !step.Decoding? ==> nextId == old(nextId) && decoding == old(decoding)
      ensures old(SingleSource()) ==> SingleSource()
    {
      if !audioContext {
        Init();
        if !audioContext {
          return EndedNow;
        }
      }
      StopAudio();
      var bytes := atob(data);
      if bytes.None? {
        return EndedNow;
      }
      step := Decoding(nextId);
      decoding := decoding[nextId := bytes.value];
      nextId := nextId + 1;
    }

    /** `playAudio` from `await decodeAudioData` on, exactly as written: the
        source is installed without stopping one that another call started
        while this one was decoding. */
    method PlayResumeAsWritten(ticket: nat, decodeOk: bool, startOk: bool) returns (step: PlayStep)
      requires Valid() && ticket in decoding
      modifies this
      ensures Valid()
      ensures decoding == old(decoding) - {ticket}
      ensures step != EndedNow ==> step == Started(ticket, BufferFor(old(decoding)[ticket], decodeOk))
      ensures step == EndedNow <==> !Decodes(old(decoding)[ticket], decodeOk) || !startOk
      ensures step.Started? ==>
        currentSource == Some(ticket) && gainNode == Some(ticket) &&
        audible == old(audible) + {ticket} && endPending == old(endPending) + {ticket}
      ensures step == EndedNow ==> audible == old(audible) && endPending == old(endPending)
      // a decode failure installs nothing; a failed start has installed the new source already
      ensures !Decodes(old(decoding)[ticket], decodeOk) ==> currentSource == old(currentSource) && gainNode == old(gainNode)
      ensures step == EndedNow && Decodes(old(decoding)[ticket], decodeOk) ==> currentSource == Some(ticket) && gainNode == Some(ticket)
      ensures audioContext == old(audioContext) && recognition == old(recognition) && nextId == old(nextId)
      ensures capturing == old(capturing) && handlersInstalled == old(handlersInstalled)
    {
      var bytes := decoding[ticket];
      decoding := decoding - {ticket};
      var buffer := DecodeBuffer(bytes, decodeOk);
      if buffer.None? {
        return EndedNow;
      }
      gainNode := Some(ticket);
      currentSource := Some(ticket);
      if !startOk {
        return EndedNow;
      }
      audible := audible + {ticket};
      endPending := endPending + {ticket};
      step := Started(ticket, buffer.value);
    }

    /** `playAudio` from `await decodeAudioData` on, with the current source
        stopped again right before the new one is installed. */
    method PlayResume(ticket: nat, decodeOk: bool, startOk: bool) returns (step: PlayStep)
      requires Valid() && ticket in decoding
      modifies this
      ensures Valid()
      ensures decoding == old(decoding) - {ticket}
      ensures step != EndedNow ==> step == Started(ticket, BufferFor(old(decoding)[ticket], decodeOk))
      ensures step == EndedNow <==> !Decodes(old(decoding)[ticket], decodeOk) || !startOk
      ensures step.Started? ==>
        currentSource == Some(ticket) && gainNode == Some(ticket) &&
        audible == old(audible) - old(CurrentSet()) + {ticket} && endPending == old(endPending) + {ticket}
      ensures step == EndedNow ==> endPending == old(endPending)
      ensures !Decodes(old(decoding)[ticket], decodeOk) ==>
        currentSource == old(currentSource) && gainNode == old(gainNode) && audible == old(audible)
      ensures step == EndedNow && Decodes(old(decoding)[ticket], decodeOk) ==>
        currentSource == Some(ticket) && gainNode == Some(ticket) && audible == old(audible) - old(CurrentSet())
      ensures audioContext == old(audioContext) && recognition == old(recognition) && nextId == old(nextId)
      ensures capturing == old(capturing) && handlersInstalled == old(handlersInstalled)
      ensures old(SingleSource()) ==> SingleSource()
      ensures old(SingleSource()) && step.Started? ==> audible == {ticket}
    {
      var bytes := decoding[ticket];
      decoding := decoding - {ticket};
      var buffer := DecodeBuffer(bytes, decodeOk);
      if buffer.None? {
        return EndedNow;
      }
      StopAudio();
      gainNode := Some(ticket);
      currentSource := Some(ticket);
      if !startOk {
        return EndedNow;
      }
      audible := audible + {ticket};
      endPending := endPending + {ticket};
      step := Started(ticket, buffer.value);
    }

    /** The engine's `ended` event of a started source; `currentSource` is not cleared. */
    method SourceEnded(id: nat)
      requires Valid() && id in endPending
      modifies this
      ensures Valid()
      ensures endPending == old(endPending) - {id} && audible == old(audible) - {id}
      ensures currentSource == old(currentSource) && gainNode == old(gainNode) && nextId == old(nextId)
      ensures decoding == old(decoding) && audioContext == old(audioContext) && recognition == old(recognition)
      ensures capturing == old(capturing) && handlersInstalled == old(handlersInstalled)
      ensures old(SingleSource()) ==> SingleSource()
    {
      endPending := endPending - {id};
      audible := audible - {id};
    }

    /** `startListening`: start the engine and (re)install the handlers, or report
        at once that the page has no speech recognition. */
    method StartListening() returns (outcome: CaptureStart)
      requires Valid()
      modifies this
      ensures Valid()
      ensures recognition == (old(recognition) || platform.hasSpeechRecognition)
      ensures outcome == Unsupported <==> !recognition
      ensures outcome == Unsupported ==> capturing == old(capturing) && handlersInstalled == old(handlersInstalled)
      ensures outcome == Capturing ==> capturing && handlersInstalled
      ensures audioContext == old(audioContext) && currentSource == old(currentSource) && gainNode == old(gainNode)
      ensures nextId == old(nextId) && decoding == old(decoding) && audible == old(audible) && endPending == old(endPending)
    {
      if !recognition {
        InitRecognition();
      }
      if !recognition {
        return Unsupported;
      }
      // a second start throws "already started", which is swallowed
      capturing := true;
      handlersInstalled := true;
      outcome := Capturing;
    }

    /** `onresult`: the fragment handed to the capture callback, if any; a final
        fragment stops the engine. Without installed handlers nothing happens. */
    method OnResult(results: seq<RecognitionResult>, resultIndex: nat) returns (fragment: Option<Fragment>)
      requires Valid()
      modifies this
      ensures Valid()
      ensures fragment == if handlersInstalled then Dispatch(results, resultIndex) else None
      ensures capturing == (old(capturing) && !(fragment.Some? && fragment.value.isFinal))
      ensures audioContext == old(audioContext) && recognition == old(recognition) && handlersInstalled == old(handlersInstalled)
      ensures currentSource == old(currentSource) && gainNode == old(gainNode) && nextId == old(nextId)
      ensures decoding == old(decoding) && audible == old(audible) && endPending == old(endPending)
    {
      if !handlersInstalled {
        return None;
      }
      var interim, final := Aggregate(results, resultIndex);
      if final != "" {
        fragment := Some(Fragment(final, true));
        capturing := false;
      } else if interim != "" {
        fragment := Some(Fragment(interim, false));
      } else {
        fragment := None;
      }
    }

    /** `onerror`: whether the error callback runs. A `no-speech` error is swallowed. */
    method OnError(error: string) returns (signalled: bool)
      ensures signalled <==> handlersInstalled && error != "no-speech"
    {
      signalled := handlersInstalled && error != "no-speech";
    }

    /** `stopListening`: stop the engine; the handlers stay installed. */
    method StopListening()
      requires Valid()
      modifies this
      ensures Valid()
      ensures !capturing
      ensures handlersInstalled == old(handlersInstalled)
      ensures audioContext == old(audioContext) && recognition == old(recognition)
      ensures currentSource == old(currentSource) && gainNode == old(gainNode) && nextId == old(nextId)
      ensures decoding == old(decoding) && audible == old(audible) && endPending == old(endPending)
    {
      if recognition {
        capturing := false;
      }
    }
  }

  /** Two overlapping calls, both decoded before either installs its source, leave
      two sources audible when `playAudio` runs as written. */
  method OverlappingPlaysAsWritten() returns (audibleSources: nat)
    ensures audibleSources == 2
  {
    var v := new VoiceService(Platform(true, true), (s: string) => Some([0 as Pcm.byte, 0 as Pcm.byte]));
    var first := v.PlayBegin("A");
    var second := v.PlayBegin("B");
    var a := v.PlayResumeAsWritten(0, true, true);
    var b := v.PlayResumeAsWritten(1, true, true);
    assert v.audible == {0, 1};
    audibleSources := |v.audible|;
  }

  /** The same interleaving with the corrected resume leaves only the second source audible. */
  method OverlappingPlaysCorrected() returns (audibleSources: nat)
    ensures audibleSources == 1
  {
    var v := new VoiceService(Platform(true, true), (s: string) => Some([0 as Pcm.byte, 0 as Pcm.byte]));
    var first := v.PlayBegin("A");
    var second := v.PlayBegin("B");
    var a := v.PlayResume(0, true, true);
    var b := v.PlayResume(1, true, true);
    assert v.audible == {1};
    audibleSources := |v.audible|;
  }
}
