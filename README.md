# NEXA voice assistant client, modelled in Dafny

NEXA is a browser voice assistant. A user logs in (a fixed admin, or a user
registered by mobile number with a one-time code). The app greets the user
aloud once after login. A tap on the microphone captures one utterance
through the browser's speech recognition. The recognised text is saved to
the user's bounded chat history and sent to the Gemini model with the last
fifteen messages as memory. The reply's first recognised function call
becomes a device action (open an app, call, WhatsApp, alarm). The reply's
text is saved, spoken through Gemini speech synthesis and played through
the Web Audio API, with a raw 16-bit PCM fallback decoder.

The model has one module per core source file, plus `Types` for the shared records and `Text` for the string operations:

| module | file | models | form |
|---|---|---|---|
| `Types` | types.dfy | the records and enums of `types.ts` | datatypes |
| `Text` | text.dfy | the JavaScript string operations the client uses: `toLowerCase`, `includes`, `replace(/\D/g, '')`, `trim`, `replace(/word/gi, …)` | functions and lemmas |
| `Pcm` | pcm.dfy | `pcmToAudioBuffer` of `services/voiceService.ts` | a method filling an array, proved against `Channel` |
| `Voice` | voice.dfy | `services/voiceService.ts` | class `VoiceService` |
| `Storage` | storage.dfy | `services/storageService.ts` | class `Store` over a map from storage key to parsed value |
| `Gemini` | gemini.dfy | `services/geminiService.ts` | functions, plus the parsing loop as a method |
| `Intent` | intent.dfy | `services/intentService.ts` | functions returning the one outward `Effect` |
| `Login` | login.dfy | `components/LoginPanel.tsx` | class `LoginPanel` |
| `App` | app.dfy | the state and handlers of `App.tsx` | class `NexaApp` |

**Asynchronous code as events.** Each `await` and each callback becomes its
own method. The caller drives the interleaving.
- `playAudio` is split at `await decodeAudioData` into `PlayBegin` and
  `PlayResumeAsWritten`. `PlayResume` is a corrected resume step, kept beside it.
- `handleInteraction` is split at its awaits into `HandleInteraction` (up to
  the model request), `ResponseArrived` (the reply), `SpeechArrived` (the
  synthesised audio) and `AudioDecoded` (the decode, as written).
  `AudioDecodedCorrected` is the same event with the corrected resume step.
- Timers and audio-engine events are methods too: `IntroTimer`,
  `HideTimeout` and `SourceEnded`.

**Values the program gets from outside are parameters.** These are the
model and speech endpoints, `atob`, whether decoding and `start()` succeed,
`Date.now()`, the local hour, `Math.random()`, `navigator.userAgent` and
`encodeURIComponent`. The app records its outward calls in a ghost `log`.

## Model

| member | source | states |
|---|---|---|
| Text.ToLowerAppend | services/intentService.ts:55 | lower-casing works character by character, so it distributes over concatenation |
| Text.ContainsAt | services/intentService.ts:57 | `includes` holds exactly when the substring occurs at some position |
| Text.FirstOccurrence | services/intentService.ts:57 | a string that `includes` a substring has an occurrence position |
| Text.OccurrenceContained | services/intentService.ts:57 | an occurrence at any position makes `includes` true |
| Text.DigitsOnly | services/intentService.ts:21 | stripping non-digits leaves only digits and never lengthens the text |
| Text.DigitsOnlyAppend | services/intentService.ts:21 | stripping distributes over concatenation |
| Text.DigitsOnlyKeepsDigits | services/intentService.ts:21 | a text is left unchanged exactly when it is all digits |
| Text.DigitsOnlyIdempotent | components/LoginPanel.tsx:131 | stripping twice is stripping once, so the mobile inputs are stable |
| Text.DigitsOnlyEmpty | services/intentService.ts:21 | the result is empty exactly when the input has no digit |
| Text.TrimStartPadded | components/LoginPanel.tsx:36 | leading white space before a non-space start is removed exactly |
| Text.TrimEndPadded | components/LoginPanel.tsx:36 | trailing white space after a non-space end is removed exactly |
| Text.TrimStartSplits | components/LoginPanel.tsx:36 | trimming the start drops exactly the leading white space, and the rest starts with non-space |
| Text.TrimEndSplits | components/LoginPanel.tsx:36 | trimming the end drops exactly the trailing white space, and the rest ends with non-space |
| Text.TrimmedParts | components/LoginPanel.tsx:36 | every text is its trimmed form with only white space around it |
| Text.TrimPadded | components/LoginPanel.tsx:36 | white space around an unpadded text is exactly what `trim` removes |
| Text.TrimEquals | components/LoginPanel.tsx:36 | `s.trim() === t` holds iff `s` is `t` with only white space around it |
| Text.ReplaceWithoutMatch | services/geminiService.ts:166-169 | a global case-insensitive replace with no match returns the text unchanged |
| Text.ReplaceKeepsLowered | services/geminiService.ts:168-169 | replacing a word by a spelling of itself changes letter case only |
| Text.CopiedPrefix | services/geminiService.ts:167 | an output prefix made only of letters of the word was copied from the input |
| Text.ReplaceRemovesAll | services/geminiService.ts:167 | replacing a word by text sharing none of its letters leaves no occurrence in any case |
| Text.MatchesOnLowered | services/geminiService.ts:167-169 | whether the word occurs depends only on the lower-cased text |
| Pcm.SampleCount | services/voiceService.ts:125-127 | the sample count is half the byte length, with an odd trailing byte dropped |
| Pcm.Int16LE | services/voiceService.ts:133 | a little-endian signed 16-bit read is in range and congruent to the byte value mod 65536 |
| Pcm.Normalize | services/voiceService.ts:134 | normalisation maps into [-1, 1], keeps the sign, and sends both extremes to -1 and 1 |
| Pcm.Samples | services/voiceService.ts:132-133 | one sample per byte pair |
| Pcm.Channel | services/voiceService.ts:129-135 | one channel value per sample |
| Pcm.PcmToAudioBuffer | services/voiceService.ts:120-138 | the loop fills a fresh channel array equal to `Channel(data)` |
| Pcm.NormalizeIncreasing | services/voiceService.ts:134 | normalisation is strictly increasing, so it loses no sample |
| Pcm.DenormalizeNormalize | services/voiceService.ts:134 | normalisation has an inverse on 16-bit samples |
| Pcm.EncodeSample | services/voiceService.ts:133 | encoding a sample as two bytes reads back as the sample |
| Pcm.EncodeLayout | services/voiceService.ts:132-133 | sample `i` is encoded at bytes `2i` and `2i+1` |
| Pcm.SampleAt | services/voiceService.ts:133 | sample `i` is read from bytes `2i` and `2i+1` |
| Pcm.DecodeEncode | services/voiceService.ts:120-138 | decoding the little-endian encoding of 16-bit samples gives the samples back |
| Pcm.ChannelOfEncoding | services/voiceService.ts:120-138 | the fallback reproduces every normalised sample of an encoded signal |
| Pcm.TrailingByteIgnored | services/voiceService.ts:125 | an odd trailing byte does not change the channel |
| Voice.DecodeBuffer | services/voiceService.ts:88-94 | a buffer exists iff the platform decodes or the fallback has a sample; a fallback buffer has one value per byte pair |
| Voice.Aggregate | services/voiceService.ts:166-171 | the loop concatenates the interim and the final transcripts from `resultIndex` on |
| Voice.FinalsAppend | services/voiceService.ts:168-170 | the accumulated transcripts distribute over splitting the results |
| Voice.FinalsNonEmpty | services/voiceService.ts:169-172 | the final text is non-empty iff some final result has non-empty text |
| Voice.DispatchFinal | services/voiceService.ts:172-177 | a final fragment is dispatched iff a final result with text is in the window; a dispatched fragment is never empty |
| Voice.VoiceService.constructor | services/voiceService.ts:3-12 | no audio context, engine, source or handlers at construction |
| Voice.VoiceService.Init | services/voiceService.ts:15-37 | the audio context and the engine are each created at most once, when the page offers them |
| Voice.VoiceService.InitRecognition | services/voiceService.ts:39-53 | the engine is created only when absent and offered; nothing else changes |
| Voice.VoiceService.StopAudio | services/voiceService.ts:140-148 | the current source is silenced and forgotten; without one nothing changes |
| Voice.VoiceService.PlayBegin | services/voiceService.ts:55-79 | no context after lazy init means onEnded with the current source untouched; otherwise the current source is stopped and the decoded bytes wait under a new ticket, or onEnded when `atob` fails |
| Voice.VoiceService.PlayResumeAsWritten | services/voiceService.ts:86-117 | as written: the playback starts iff the bytes decode and `start` succeeds; without decodable data the current source and gain node are kept; otherwise the new source becomes current (and gets the gain node), is started and audible beside every source already audible, or ends at once when `start` fails |
| Voice.VoiceService.PlayResume | services/voiceService.ts:86-117 | the playback starts iff the bytes decode and `start` succeeds; without decodable data the current source and gain node are kept; with it the current source is stopped first, so single-source playback is preserved and the new source is the only audible one |
| Voice.VoiceService.SourceEnded | services/voiceService.ts:108 | the ended source is no longer audible; the current-source reference is not cleared |
| Voice.VoiceService.StartListening | services/voiceService.ts:150-183 | unsupported iff no engine can exist; otherwise the engine is capturing with the handlers installed |
| Voice.VoiceService.OnResult | services/voiceService.ts:165-178 | the callback receives `Dispatch` of the results; a final fragment stops the capture |
| Voice.VoiceService.OnError | services/voiceService.ts:180-182 | the error callback runs iff the handlers are installed and the error is not `no-speech` |
| Voice.VoiceService.StopListening | services/voiceService.ts:185-189 | the capture stops and the handlers stay |
| Voice.OverlappingPlaysAsWritten | services/voiceService.ts:75-111 | two overlapping `playAudio` calls as written leave two sources audible |
| Voice.OverlappingPlaysCorrected | services/voiceService.ts:75-111 | with the corrected resume the same interleaving leaves one |
| Storage.Pushed | services/storageService.ts:87-89 | the new message is last, and a history within fifty entries stays within fifty |
| Storage.PushedShape | services/storageService.ts:87-89 | a save appends the message last, keeps the bound, and keeps the tail of the history in order |
| Storage.PushedBounded | services/storageService.ts:89 | a history within fifty entries stays within fifty |
| Storage.PushedIsLast | services/storageService.ts:87-89 | one save keeps exactly the last fifty messages |
| Storage.PushAllKeepsLast | services/storageService.ts:85-101 | any run of saves keeps exactly the last fifty of all messages, in order |
| Storage.LastNAppend | services/storageService.ts:89 | cutting to the last fifty before more saves changes nothing about the final cut |
| Storage.SaveTwice | App.tsx:291-297 | the two saves of one interaction keep both messages in order while below the bound |
| Storage.Store.CurrentUser | services/storageService.ts:75-78 | the stored profile iff one is stored under the current-user key, and none otherwise |
| Storage.Store.Login | services/storageService.ts:32-44 | an unknown mobile changes nothing; a known one becomes current with the new login time, written back to the database; the admin memory is untouched |
| Storage.Store.AdminLogin | services/storageService.ts:46-57 | the fixed admin profile, carrying the admin memory, becomes current; nothing else changes |
| Storage.Store.Signup | services/storageService.ts:59-73 | a fresh user with an empty history replaces any under that mobile and becomes current; the admin memory is untouched |
| Storage.Store.Logout | services/storageService.ts:80-82 | only the current-user key is removed |
| Storage.Store.SaveChat | services/storageService.ts:85-101 | the history is pushed and cut to fifty; an admin's goes to the admin memory, anyone else's profile to the database; the user becomes current; the stored items are exactly `SavedItems` of the old ones |
| Storage.Store.ClearAdminMemory | services/storageService.ts:103-105 | only the admin memory key is removed |
| Gemini.SystemInstruction | services/geminiService.ts:89-91 | the admin instruction iff the role is admin |
| Gemini.Recent | services/geminiService.ts:99 | the last fifteen messages, or the whole shorter history |
| Gemini.FormatAll | services/geminiService.ts:100-101 | one `[USER]`/`[NEXA]` line per message, in order |
| Gemini.JoinSnoc | services/geminiService.ts:102 | joining one more line adds the separator and the line |
| Gemini.JoinEmpty | services/geminiService.ts:102 | a join of non-empty lines is empty iff there are none |
| Gemini.MemoryEmpty | services/geminiService.ts:99-113 | the memory is empty iff the history is, so the no-history notice appears only then |
| Gemini.MemoryGrows | services/geminiService.ts:99-102 | below fifteen messages a new message adds one line to the memory |
| Gemini.MemoryForgets | services/geminiService.ts:99 | messages older than the last fifteen never reach the prompt |
| Gemini.ParseReply | services/geminiService.ts:131-153 | the action is the first recognised call; the text is the reply's, or the processing notice when empty with an action, or empty |
| Gemini.GenerateTextResponse | services/geminiService.ts:84-158 | the response is `ResponseFor` the model's outcome on the request built from the prompt and the user |
| Gemini.ResponseCases | services/geminiService.ts:131-158 | an error gives the network notice with no action; a reply gives the first recognised action and keeps non-empty text; empty text means no action |
| Gemini.FirstActionNone | services/geminiService.ts:132 | without a recognised call the payload carries no data |
| Gemini.FirstRecognisedWins | services/geminiService.ts:134-146 | the first recognised call decides the action and carries its arguments |
| Gemini.NoRecognisedCall | services/geminiService.ts:132-147 | with no recognised call the action is none |
| Gemini.LaterCallsIgnored | services/geminiService.ts:145 | calls after a recognised one are ignored |
| Gemini.ActionIffRecognised | services/geminiService.ts:134-147 | an action is set iff some call is recognised |
| Gemini.RewriteSteps | services/geminiService.ts:166-169 | after the three rewrites no spelling of "Lohave" survives, and apart from its replacement only letter case changes |
| Gemini.PhoneticText | services/geminiService.ts:166-169 | the text sent to synthesis has no spelling of "Lohave" left and differs from replacing it alone only in letter case |
| Gemini.PhoneticKeepsOtherText | services/geminiService.ts:168-169 | text without "Lohave" keeps its letters; only their case may change |
| Gemini.SpeechAudio | services/geminiService.ts:190-196 | audio iff the call succeeded with non-empty inline data, which it returns |
| Gemini.GenerateSpeech | services/geminiService.ts:161-196 | the rewritten text goes to synthesis; any audio returned is non-empty |
| Intent.OrDefault | services/intentService.ts:22 | the fallback is used iff the key is absent or empty (or already equals it) |
| Intent.WhatsAppPhone | services/intentService.ts:21 | the phone is all digits |
| Intent.FirstRule | services/intentService.ts:54-93 | the index of the first selecting rule is within the table |
| Intent.FirstRuleIsFirst | services/intentService.ts:54-93 | an index selecting with no earlier selecting rule is `FirstRule` |
| Intent.SelectsOne | services/intentService.ts:57 | a one-keyword rule selects iff the name includes the keyword |
| Intent.SelectsTwo | services/intentService.ts:80 | a two-keyword rule selects iff the name includes either keyword |
| Intent.FirstRuleSelects | services/intentService.ts:54-93 | the picked rule selects and no earlier rule does |
| Intent.AppLaunchIsTable | services/intentService.ts:54-93 | the if-chain of `handleAppLaunch` equals the priority table reading |
| Intent.AppLaunch | services/intentService.ts:54-93 | launching never throws or alerts; doing nothing happens only off Android; off Android the only navigation is the dialler |
| Intent.Execute | services/intentService.ts:5-51 | action NONE does nothing; it throws iff data is missing or an app launch has no name; it alerts iff an alarm off Android; a call navigates to a `tel:` URL |
| Intent.NoActionNoEffect | services/intentService.ts:9-50 | action NONE has no effect whatever the data |
| Intent.MissingDataThrows | services/intentService.ts:9-49 | any other action with no data throws |
| Intent.CallDials | services/intentService.ts:14-17 | a call navigates to `tel:` and the number |
| Intent.WhatsAppPhoneDigits | services/intentService.ts:21 | the phone is empty iff the number is absent, empty or digit-free; a digit number is kept |
| Intent.WhatsAppTarget | services/intentService.ts:19-37 | the same URL, in the page on Android and in a new window elsewhere, with or without the phone |
| Intent.AlarmIntentCarries | services/intentService.ts:44 | the alarm intent carries hour, minute and the encoded label |
| Intent.AlarmTarget | services/intentService.ts:39-49 | Android gets the alarm intent labelled "Nexa Alarm" by default; elsewhere a simulation alert |
| Intent.SettingsOffAndroid | services/intentService.ts:83-85 | "settings" does nothing off Android and opens the settings intent on it |
| Intent.UnknownAppSearched | services/intentService.ts:89-92 | an unknown app is searched for under its name as given |
| Intent.KnownAppIgnoresCase | services/intentService.ts:55 | letter case does not change which known app is launched |
| Login.DecimalString | components/LoginPanel.tsx:61 | `toString` of a number is a non-empty digit string |
| Login.ParsePrinted | components/LoginPanel.tsx:61 | the printed code reads back as the number |
| Login.FourDigits | components/LoginPanel.tsx:61 | numbers from 1000 to 9999 print as four characters |
| Login.OtpValue | components/LoginPanel.tsx:61 | the code lies in [1000, 9999] |
| Login.OtpInRange | components/LoginPanel.tsx:61 | every code shown is four digits between 1000 and 9999 |
| Login.AdminCredentials | components/LoginPanel.tsx:36 | the admin check accepts exactly the id and key with only white space around them |
| Login.LoginPanel.constructor | components/LoginPanel.tsx:18-27 | the selection screen with every field empty |
| Login.LoginPanel.SetUserMobile | components/LoginPanel.tsx:131 | the login mobile keeps digits only; the other inputs are unchanged |
| Login.LoginPanel.SetSignupMobile | components/LoginPanel.tsx:156 | the signup mobile keeps digits only; the other inputs are unchanged |
| Login.LoginPanel.SelectTab | components/LoginPanel.tsx:112-116 | the chosen tab, and nothing else changes |
| Login.LoginPanel.OpenSignup | components/LoginPanel.tsx:175 | the signup form, with the code shown before and the other inputs kept |
| Login.LoginPanel.HandleAdminLogin | components/LoginPanel.tsx:34-42 | login iff the trimmed id and key match; the full admin profile becomes current and only the current-user key is written; otherwise ACCESS DENIED and the store is untouched; either way `init` creates the audio context and the recognition engine when offered and leaves the player untouched |
| Login.LoginPanel.HandleUserLogin | components/LoginPanel.tsx:44-53 | a mobile not of ten digits is refused first; a known one logs in and its profile with the new login time is written back to the database, admin memory untouched; an unknown one gives USER NOT FOUND; either way `init` creates the audio context and the recognition engine when offered and leaves the player untouched |
| Login.LoginPanel.HandleSignupStart | components/LoginPanel.tsx:55-64 | invalid details give INVALID DETAILS; valid ones show a four-digit code on the code screen; the admin inputs are kept |
| Login.LoginPanel.HandleOtpVerify | components/LoginPanel.tsx:66-74 | signup iff the entered code equals the one shown, leaving the admin memory untouched; otherwise INVALID OTP CODE and the store is untouched; either way `init` creates the audio context and the recognition engine when offered and leaves the player untouched |
| Login.LoginPanel.Reset | components/LoginPanel.tsx:76-81 | the selection screen, with no error and no code entered, inputs kept |
| App.Greeting | App.tsx:185-187 | morning before 12, afternoon from 12 to 16, evening from 17, each iff |
| App.IntroName | App.tsx:189 | the admin is addressed as Chandan, anyone else by name |
| App.NexaApp.constructor | App.tsx:137-142 | a stored current user is restored; idle, nothing shown or pending, no ticket issued |
| App.NexaApp.HandleLogin | App.tsx:340-343 | the user is set and the intro will play again; the text kind, tickets and timers are unchanged |
| App.NexaApp.IntroTimer | App.tsx:179-202 | the intro text with greeting and name is set unshown, the state is speaking, and speech is requested once under a new ticket |
| App.NexaApp.MicClick | App.tsx:244-265 | speaking stops the current audio source and goes idle, the capture untouched; listening stops the capture, the player untouched; otherwise a capture starts (creating the engine when offered), listening iff an engine exists, the player untouched |
| App.NexaApp.CaptureError | App.tsx:275-279 | idle with the chat hidden |
| App.NexaApp.SpeechResult | App.tsx:266-274 | a fragment is shown as user text, and a final one stops the capture; a final one with a user saves the message and sends the request under a new ticket; otherwise user, store, requests and tickets are unchanged; without a fragment nothing shown changes; the player is untouched |
| App.NexaApp.SpeechError | services/voiceService.ts:180-182 | any error but `no-speech` ends the capture; the text kind, intro flag and tickets are unchanged |
| App.NexaApp.HandleInteraction | App.tsx:283-294 | without a user nothing; with one: thinking, the user's message saved (the store becomes `SavedItems`) and the request sent under a new ticket |
| App.NexaApp.ResponseArrived | App.tsx:294-337 | the reply text is shown and saved last in the bounded history (the store becomes `SavedItems`); the intent runs for an action; speech is requested for text; empty text goes idle; a throwing intent stops there |
| App.NexaApp.SaveReply | App.tsx:297-305 | Nexa's message is saved on the user object (the store becomes `SavedItems`), which becomes the app's user, and its text is shown |
| App.NexaApp.FollowUp | App.tsx:307-337 | the intent for an action, then speech for non-empty text or idle for empty; nothing after a throwing intent |
| App.NexaApp.SpeechArrived | App.tsx:313-333 | no audio shows the text, arms the hide timer and leaves the voice service untouched; audio creates the context when offered (and the engine when the context was new), stops the current source, and queues the decoded bytes under a new ticket, or ends at once without a context or decodable data; the capture, gain node and pending ends are untouched |
| App.NexaApp.PlaybackStarted | App.tsx:317-321 | speaking, with the text shown |
| App.NexaApp.PlaybackEnded | App.tsx:322-326 | idle, with the text hidden |
| App.NexaApp.AudioDecoded | services/voiceService.ts:86-117 | as written: the source starts, becomes current with the gain node, is added to the audible and end-pending ones, and the text shows, iff the data decodes and starts; a failed start still installs it; a decode failure installs nothing; otherwise idle; the capture is untouched |
| App.NexaApp.AudioDecodedCorrected | services/voiceService.ts:86-117 | the decode event with the corrected resume: the current source is stopped before the new one is installed, so single-source playback is kept and a started source is the only audible one; end-pending, gain node and capture as in `AudioDecoded` |
| App.NexaApp.SourceEnded | services/voiceService.ts:108 | the ended source is silent and no longer awaits its end, and the app is idle with the chat hidden; the current source, decodes and capture are untouched; text kind, intro flag and tickets unchanged |
| App.NexaApp.HideTimeout | App.tsx:332 | the chat is hidden whatever the state; nothing else changes |
| App.IntroRequested | App.tsx:179-215 | a logged-in user's intro timer fires, requesting the intro's speech with no decode pending and nothing audible |
| App.QuestionAsked | App.tsx:244-288 | over the intro, a tap interrupts the speaking state, a second tap starts a capture, and the final fragment "hello" sends the request, leaving no decode pending and nothing audible |
| App.AnswerRequested | App.tsx:294-316 | the model's reply to the question asked over the intro gets its speech requested too, while the intro's is still pending |
| App.BothSynthesised | App.tsx:313-315 | both speeches arrive before either decode finishes, leaving two decodes pending and nothing audible |
| App.OverlappingSpeechAsWritten | services/voiceService.ts:75-111 | the intro and a reply both decoding at once leave two sources audible in the application as written |
| App.OverlappingSpeechCorrected | services/voiceService.ts:75-111 | with the corrected decode event the same interleaving leaves one |

## Left out

- Rendering is not modelled: the HUD, the chat typewriter, the settings panel, HUD speed and the install banner. The PWA install flow (`beforeinstallprompt`, `appinstalled`, standalone detection) is left out too.
- The Gemini SDK, the network and the synthesis service are oracle parameters. The wording of the two system instructions and of the prompt template is not modelled. The clock-dependent time and date lines are dropped from the request.
- The API key lookup and the lazily created client instance are left out.
- `atob`, `decodeAudioData` and `source.start` are oracles too: a byte function and two booleans. The gain-node fade, `currentTime` and resuming a suspended context are left out.
- The 24 kHz sample rate and the mono layout are not modelled.
- Pcm.Channel: values are exact rationals; the `Float32Array` channel rounds each to single precision, which is not modelled.
- Pcm.PcmToAudioBuffer: fills the channel with the exact values of `Channel`, not their single-precision roundings.
- `encodeURIComponent` is a parameter. Argument values of function calls are strings as they render in a template.
- Storage exceptions and malformed JSON are not modelled: the store holds parsed values. The storage key space is restricted to the three keys the service uses.
- String lengths count characters, not UTF-16 code units. `toLowerCase` lowers ASCII letters only.
- The `maxLength` attributes of the inputs are not modelled.
- The `/word/gi` replace (`Text.ReplaceAllCI`) is modelled for literal lower-case words only.
- The `alert` shown when speech input is unsupported is not modelled, only the error callback that follows it.
- `handleLogout` reloads the page, so it is left out of the app. `deleteUser` and `getAllUsers` are not defined in `services/storageService.ts`, so the settings handlers that call them are left out.
- App.NexaApp.ResponseArrived: Nexa's message is saved on the app's current user, not on the user object that `handleInteraction` captured when it began. The captured object is mutated in place by each save and replaced in the app by a parsed copy afterwards, so interactions overlapping while a reply is awaited can each save on a stale copy: a message saved on one copy is dropped from storage when a later save writes another copy. The model keeps every message of overlapping interactions; object identity and aliasing of profiles are not modelled.
- App.NexaApp.HandleInteraction: saves on the app's current user value; the captured profile object and its later in-place mutation are not modelled (see `App.NexaApp.ResponseArrived`).
- App.NexaApp.SaveReply: saves on the app's current user value, not on the object captured at the start of the interaction (see `App.NexaApp.ResponseArrived`).
- Gemini.PhoneticText: does not state that "Nexa" and "Chandan" come out in exactly that spelling. It proves only that these two rewrites change letter case and nothing else.
- App.NexaApp.FollowUp: an intent that throws leaves the state as it was (thinking), because the rejection ends `handleInteraction`. The unhandled rejection itself is not modelled.
- The intent's effect (`EffectOf`) is a pure function of the reply. It enters the log only when there is an action, matching the guard at App.tsx:308.
- Timers are events: `IntroTimer` and `HideTimeout` fire when the caller says so. Clearing the intro timer on unmount is not modelled.

## Findings

| source | as written | input that shows it | evidently intended | confidence | as-written member | corrected member |
|---|---|---|---|---|---|---|
| services/voiceService.ts:75-111 | `playAudio` stops the current source before `await decodeAudioData` and installs the new source after it, without stopping again | two `playAudio` calls whose decodes both finish after both calls began, e.g. the intro speech and a reply, both data decodable | only the newest source is heard, since `stopAudio` can reach only `currentSource` | not executed | Voice.OverlappingPlaysAsWritten, App.OverlappingSpeechAsWritten | Voice.OverlappingPlaysCorrected, Voice.VoiceService.PlayResume, App.NexaApp.AudioDecodedCorrected, App.OverlappingSpeechCorrected |

`Voice.VoiceService.PlayResumeAsWritten` models the resume step as written. The first source stays audible, and no later `stopAudio` can stop it, because `currentSource` now names the second one. The application's decode event `App.NexaApp.AudioDecoded` uses it, and `App.OverlappingSpeechAsWritten` drives the application through its own events (the intro timer, two mic taps, the recognised question, the model's reply, both speech answers and both decodes) into two audible sources: the intro's speech and the answer to a question asked while it was being synthesised. `Voice.VoiceService.PlayResume` stops the current source again right before installing the new one and keeps single-source playback; `App.NexaApp.AudioDecodedCorrected` is the decode event built on it, and `App.OverlappingSpeechCorrected` shows the same interleaving leaving one source.
