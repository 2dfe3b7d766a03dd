/** The login panel: a small mode machine (login, signup, one-time code) with a
    tab choice on the login screen, and the validation of each form. Each
    handler returns the profile it hands to the application's login callback,
    if any. Plain text inputs are the panel's fields, which callers assign;
    the two mobile inputs go through their digit filter. */
module Login {
  import opened Types
  import Text
  import Storage
  import Voice

  datatype Mode = LoginMode | SignupMode | OtpMode

  datatype Tab = UserTab | AdminTab

  const AdminId := "Chandan"
  const AdminKey := "Nexa"
  const MobileLength := 10
  const MinNameLength := 3

  const AccessDenied := "ACCESS DENIED"
  const InvalidMobile := "INVALID MOBILE NUMBER"
  const UserNotFound := "USER NOT FOUND"
  const InvalidDetails := "INVALID DETAILS"
  const InvalidOtp := "INVALID OTP CODE"

  // ---------------------------------------------------------------- one-time codes

  function DigitChar(d: nat): char
    requires d < 10
  {
    ('0' as int + d) as char
  }

  function DigitValue(c: char): nat
    requires Text.IsDigit(c)
  {
    c as int - '0' as int
  }

  /** `n.toString()` for a natural number. */
  function DecimalString(n: nat): (s: string)
    ensures s != [] && Text.AllDigits(s)
  {
    if n < 10 then [DigitChar(n)] else DecimalString(n / 10) + [DigitChar(n % 10)]
  }

  /** The value of a string of decimal digits. */
  function ParseDecimal(s: string): nat
    requires Text.AllDigits(s)
  {
    if s == [] then 0 else 10 * ParseDecimal(s[..|s| - 1]) + DigitValue(s[|s| - 1])
  }

  /** Reading the printed number back gives the number. */
  lemma {:induction false} ParsePrinted(n: nat)
    ensures ParseDecimal(DecimalString(n)) == n
    decreases n
  {
    var s := DecimalString(n);
    if n >= 10 {
      ParsePrinted(n / 10);
      assert s[..|s| - 1] == DecimalString(n / 10);
    }
  }

  /** Numbers of four digits print as four characters. */
  lemma FourDigits(n: nat)
    requires 1000 <= n <= 9999
    ensures |DecimalString(n)| == 4
  {
    var b := n / 10;
    var c := b / 10;
    var d := c / 10;
    assert 1 <= d < 10 && 10 <= c < 100 && 100 <= b < 1000;
    assert |DecimalString(d)| == 1;
    assert |DecimalString(c)| == 2;
    assert |DecimalString(b)| == 3;
  }

  /** `Math.floor(1000 + random * 9000)` for `random` in [0, 1). */
  function OtpValue(random: real): (n: int)
    requires 0.0 <= random < 1.0
    ensures 1000 <= n <= 9999
  {
    (1000.0 + random * 9000.0).Floor
  }

  /** The code shown to the user: four digits, from 1000 to 9999. */
  predicate IsOtp(code: string) {
    |code| == 4 && Text.AllDigits(code) && 1000 <= ParseDecimal(code) <= 9999
  }

  // ---------------------------------------------------------------- the panel

  class LoginPanel {
    const store: Storage.Store
    const voice: Voice.VoiceService

    var mode: Mode
    var loginTab: Option<Tab>
    var adminId: string
    var adminPass: string
    var userMobile: string
    var signupName: string
    var signupMobile: string
    var otp: string
    var generatedOtp: string
    var error: string

    ghost predicate Valid()
      reads this, voice
    {
      && voice.Valid()
      && Text.AllDigits(userMobile)
      && Text.AllDigits(signupMobile)
      && (mode == OtpMode ==> IsOtp(generatedOtp))
    }

    constructor (store: Storage.Store, voice: Voice.VoiceService)
      requires voice.Valid()
      ensures Valid()
      ensures this.store == store && this.voice == voice
      ensures mode == LoginMode && loginTab == None && error == ""
      ensures adminId == "" && adminPass == "" && userMobile == "" && signupName == "" && signupMobile == ""
      ensures otp == "" && generatedOtp == ""
    {
      this.store := store;
      this.voice := voice;
      mode, loginTab := LoginMode, None;
      adminId, adminPass, userMobile, signupName, signupMobile := "", "", "", "", "";
      otp, generatedOtp, error := "", "", "";
    }

    /** The mobile input of the login form keeps digits only. */
    method SetUserMobile(input: string)
      requires Valid()
      modifies this
      ensures Valid()
      ensures userMobile == Text.DigitsOnly(input)
      ensures mode == old(mode) && loginTab == old(loginTab) && error == old(error) && signupMobile == old(signupMobile)
      ensures otp == old(otp) && generatedOtp == old(generatedOtp)
      ensures adminId == old(adminId) && adminPass == old(adminPass) && signupName == old(signupName)
    {
      userMobile := Text.DigitsOnly(input);
    }

    /** The mobile input of the signup form keeps digits only. */
    method SetSignupMobile(input: string)
      requires Valid()
      modifies this
      ensures Valid()
      ensures signupMobile == Text.DigitsOnly(input)
      ensures mode == old(mode) && loginTab == old(loginTab) && error == old(error) && userMobile == old(userMobile)
      ensures otp == old(otp) && generatedOtp == old(generatedOtp)
      ensures adminId == old(adminId) && adminPass == old(adminPass) && signupName == old(signupName)
    {
      signupMobile := Text.DigitsOnly(input);
    }

    /** The user and admin buttons of the selection screen. */
    method SelectTab(tab: Tab)
      requires Valid()
      modifies this
      ensures Valid()
      ensures loginTab == Some(tab) && mode == old(mode) && error == old(error) && otp == old(otp)
      ensures generatedOtp == old(generatedOtp) && userMobile == old(userMobile) && signupMobile == old(signupMobile)
      ensures adminId == old(adminId) && adminPass == old(adminPass) && signupName == old(signupName)
    {
      loginTab := Some(tab);
    }

    /** The sign-up link of the selection screen and the retry button of the code
        screen: the signup form, with the code shown before kept. */
    method OpenSignup()
      requires Valid()
      modifies this
      ensures Valid()
      ensures mode == SignupMode && loginTab == old(loginTab) && error == old(error) && otp == old(otp)
      ensures generatedOtp == old(generatedOtp) && userMobile == old(userMobile) && signupMobile == old(signupMobile)
      ensures adminId == old(adminId) && adminPass == old(adminPass) && signupName == old(signupName)
    {
      mode := SignupMode;
    }

    /** `handleAdminLogin`: the trimmed id and key must be the admin's. */
    method HandleAdminLogin(now: int) returns (loggedIn: Option<UserProfile>)
      requires Valid()
      modifies this, voice, store
      ensures Valid()
      ensures loggedIn.Some? <==> Text.Trim(old(adminId)) == AdminId && Text.Trim(old(adminPass)) == AdminKey
      ensures loggedIn.Some? ==>
        loggedIn.value == UserProfile(Storage.AdminName, Storage.AdminMobile, Admin, DarkNeon, old(store.AdminMemory()), now) &&
        store.CurrentUser() == loggedIn && error == old(error)
      ensures loggedIn.Some? ==>
        store.items == old(store.items)[Storage.CurrentUserKey := Storage.ProfileValue(loggedIn.value)] &&
        store.Db() == old(store.Db()) && store.AdminMemory() == old(store.AdminMemory())
      ensures loggedIn.None? ==> error == AccessDenied && store.items == old(store.items)
      ensures voice.audioContext == (old(voice.audioContext) || voice.platform.hasAudioContext)
      // `unlockAudio` is `init`: the engine is created too, and the player is untouched
      ensures voice.recognition == (old(voice.recognition) || voice.platform.hasSpeechRecognition)
      ensures voice.capturing == old(voice.capturing) && voice.handlersInstalled == old(voice.handlersInstalled)
      ensures voice.currentSource == old(voice.currentSource) && voice.gainNode == old(voice.gainNode) && voice.nextId == old(voice.nextId)
      ensures voice.decoding == old(voice.decoding) && voice.audible == old(voice.audible) && voice.endPending == old(voice.endPending)
      ensures mode == old(mode) && loginTab == old(loginTab) && otp == old(otp) && generatedOtp == old(generatedOtp)
      ensures adminId == old(adminId) && adminPass == old(adminPass) && userMobile == old(userMobile) && signupMobile == old(signupMobile)
      ensures signupName == old(signupName)
    {
      voice.Init();
      if Text.Trim(adminId) == AdminId && Text.Trim(adminPass) == AdminKey {
        var user := store.AdminLogin(now);
        return Some(user);
      }
      error := AccessDenied;
      return None;
    }

    /** `handleUserLogin`: a ten-digit mobile is looked up; anything else is refused first. */
    method HandleUserLogin(now: int) returns (loggedIn: Option<UserProfile>)
      requires Valid()
      modifies this, voice, store
      ensures Valid()
      ensures |old(userMobile)| != MobileLength ==> loggedIn == None && error == InvalidMobile && store.items == old(store.items)
      ensures |old(userMobile)| == MobileLength ==>
        (loggedIn.Some? <==> old(userMobile) in old(store.Db())) &&
        (loggedIn.None? ==> error == UserNotFound && store.items == old(store.items))
      ensures loggedIn.Some? ==>
        loggedIn.value == old(store.Db())[old(userMobile)].(lastLogin := now) &&
        store.CurrentUser() == loggedIn && error == old(error)
      // the fresh login time is written back to the database as well
      ensures loggedIn.Some? ==>
        store.Db() == old(store.Db())[old(userMobile) := loggedIn.value] && store.AdminMemory() == old(store.AdminMemory())
      ensures voice.audioContext == (old(voice.audioContext) || voice.platform.hasAudioContext)
      // `unlockAudio` is `init`: the engine is created too, and the player is untouched
      ensures voice.recognition == (old(voice.recognition) || voice.platform.hasSpeechRecognition)
      ensures voice.capturing == old(voice.capturing) && voice.handlersInstalled == old(voice.handlersInstalled)
      ensures voice.currentSource == old(voice.currentSource) && voice.gainNode == old(voice.gainNode) && voice.nextId == old(voice.nextId)
      ensures voice.decoding == old(voice.decoding) && voice.audible == old(voice.audible) && voice.endPending == old(voice.endPending)
      ensures mode == old(mode) && loginTab == old(loginTab) && otp == old(otp) && generatedOtp == old(generatedOtp)
      ensures userMobile == old(userMobile) && signupMobile == old(signupMobile)
      ensures adminId == old(adminId) && adminPass == old(adminPass) && signupName == old(signupName)
    {
      voice.Init();
      if |userMobile| != MobileLength {
        error := InvalidMobile;
        return None;
      }
      loggedIn := store.Login(userMobile, now);
      if loggedIn.None? {
        error := UserNotFound;
      }
    }

    /** `handleSignupStart`: clears the error, checks the details, then shows a fresh code. */
    method HandleSignupStart(random: real)
      requires Valid() && 0.0 <= random < 1.0
      modifies this
      ensures Valid()
      ensures |signupMobile| != MobileLength || |signupName| < MinNameLength ==>
        error == InvalidDetails && mode == old(mode) && generatedOtp == old(generatedOtp)
      ensures |signupMobile| == MobileLength && |signupName| >= MinNameLength ==>
        error == "" && mode == OtpMode && generatedOtp == DecimalString(OtpValue(random)) && IsOtp(generatedOtp)
      ensures loginTab == old(loginTab) && otp == old(otp) && signupName == old(signupName) && signupMobile == old(signupMobile)
      ensures userMobile == old(userMobile) && adminId == old(adminId) && adminPass == old(adminPass)
    {
      error := "";
      if |signupMobile| != MobileLength || |signupName| < MinNameLength {
        error := InvalidDetails;
        return;
      }
      var mockOtp := DecimalString(OtpValue(random));
      FourDigits(OtpValue(random));
      ParsePrinted(OtpValue(random));
      generatedOtp := mockOtp;
      mode := OtpMode;
    }

    /** `handleOtpVerify`: the entered code must equal the one shown; then the user signs up. */
    method HandleOtpVerify(now: int) returns (loggedIn: Option<UserProfile>)
      requires Valid()
      modifies this, voice, store
      ensures Valid()
      ensures loggedIn.Some? <==> old(otp) == old(generatedOtp)
      ensures loggedIn.Some? ==>
        loggedIn.value == UserProfile(old(signupName), old(signupMobile), User, DarkNeon, [], now) &&
        store.Db() == old(store.Db())[old(signupMobile) := loggedIn.value] && store.CurrentUser() == loggedIn && error == old(error)
      ensures loggedIn.Some? ==> store.AdminMemory() == old(store.AdminMemory())
      ensures loggedIn.None? ==> error == InvalidOtp && store.items == old(store.items)
      ensures voice.audioContext == (old(voice.audioContext) || voice.platform.hasAudioContext)
      // `unlockAudio` is `init`: the engine is created too, and the player is untouched
      ensures voice.recognition == (old(voice.recognition) || voice.platform.hasSpeechRecognition)
      ensures voice.capturing == old(voice.capturing) && voice.handlersInstalled == old(voice.handlersInstalled)
      ensures voice.currentSource == old(voice.currentSource) && voice.gainNode == old(voice.gainNode) && voice.nextId == old(voice.nextId)
      ensures voice.decoding == old(voice.decoding) && voice.audible == old(voice.audible) && voice.endPending == old(voice.endPending)
      ensures mode == old(mode) && loginTab == old(loginTab) && otp == old(otp) && generatedOtp == old(generatedOtp)
      ensures userMobile == old(userMobile) && signupMobile == old(signupMobile)
      ensures adminId == old(adminId) && adminPass == old(adminPass) && signupName == old(signupName)
    {
      voice.Init();
      if otp == generatedOtp {
        var user := store.Signup(signupName, signupMobile, now);
        return Some(user);
      }
      error := InvalidOtp;
      return None;
    }

    /** `reset`, behind every back button: the selection screen, with no error and no code entered. */
    method Reset()
      requires Valid()
      modifies this
      ensures Valid()
      ensures loginTab == None && mode == LoginMode && error == "" && otp == ""
      ensures generatedOtp == old(generatedOtp) && userMobile == old(userMobile) && signupMobile == old(signupMobile)
      ensures signupName == old(signupName) && adminId == old(adminId) && adminPass == old(adminPass)
    {
      loginTab := None;
      mode := LoginMode;
      error := "";
      otp := "";
    }

  }

  /** The admin check accepts exactly the id and key surrounded by white space only. */
  lemma AdminCredentials(id: string, key: string)
    ensures Text.Trim(id) == AdminId <==> exists a, b :: Text.AllSpace(a) && Text.AllSpace(b) && id == a + AdminId + b
    ensures Text.Trim(key) == AdminKey <==> exists a, b :: Text.AllSpace(a) && Text.AllSpace(b) && key == a + AdminKey + b
  {
    Text.TrimEquals(id, AdminId);
    Text.TrimEquals(key, AdminKey);
  }

  /** Every code shown has four digits and lies in [1000, 9999]. */
  lemma OtpInRange(random: real)
    requires 0.0 <= random < 1.0
    ensures IsOtp(DecimalString(OtpValue(random)))
  {
    FourDigits(OtpValue(random));
    ParsePrinted(OtpValue(random));
  }
}
