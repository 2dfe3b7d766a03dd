/** The intent service: what a parsed action does on the device. Each call ends
    in at most one effect on the page; reading a property of missing action data
    throws, which is the `TypeError` effect. `encodeURIComponent` is a parameter. */
module Intent {
  import opened Types
  import Text

  datatype Effect =
    | NoEffect
    | Navigate(url: string)     // window.location.href = url
    | OpenWindow(url: string)   // window.open(url, '_blank')
    | CameraCapture             // a file input for the rear camera, clicked
    | Alert(message: string)
    | TypeError                 // a property read on undefined data

  const WhatsAppIntent := "intent://#Intent;package=com.whatsapp;scheme=whatsapp;end"
  const YouTubeIntent := "intent://www.youtube.com/#Intent;package=com.google.android.youtube;scheme=https;end"
  const InstagramIntent := "intent://instagram.com/#Intent;package=com.instagram.android;scheme=https;end"
  const SettingsIntent := "intent:#Intent;action=android.settings.SETTINGS;end"
  const SearchPrefix := "https://www.google.com/search?q="
  const DefaultAlarmLabel := "Nexa Alarm"

  /** `/android/i.test(userAgent)` */
  predicate IsAndroid(userAgent: string) {
    Text.Contains(Text.ToLower(userAgent), "android")
  }

  /** `${data.key}`: the rendered value, or "undefined" when the key is absent. */
  function Interpolate(data: Args, key: string): string {
    if key in data then data[key] else "undefined"
  }

  /** `data.key || fallback` for a string-valued property. */
  function OrDefault(data: Args, key: string, fallback: string): (r: string)
    ensures r == fallback <==> !(key in data) || data[key] == "" || data[key] == fallback
  {
    if key in data && data[key] != "" then data[key] else fallback
  }

  /** The digits of `data.number`, or "" when it is absent or empty. */
  function WhatsAppPhone(data: Args): (phone: string)
    ensures Text.AllDigits(phone)
  {
    if "number" in data && data["number"] != "" then Text.DigitsOnly(data["number"]) else ""
  }

  function WhatsAppUrl(phone: string, text: string, isAndroid: bool): string {
    if isAndroid then
      if phone != "" then "intent://send?phone=" + phone + "&text=" + text + "#Intent;package=com.whatsapp;scheme=whatsapp;end"
      else "intent://send?text=" + text + "#Intent;package=com.whatsapp;scheme=whatsapp;end"
    else
      if phone != "" then "https://wa.me/" + phone + "?text=" + text
      else "https://wa.me/?text=" + text
  }

  const AlarmHead := "intent:#Intent;action=android.intent.action.SET_ALARM;"
  const AlarmMessageKey := "s.android.intent.extra.MESSAGE="
  const AlarmTail := ";B.android.intent.extra.SKIP_UI=true;end"

  /** The hour and minute extras of the alarm intent. */
  function AlarmTime(data: Args): string {
    "i.android.intent.extra.HOUR=" + Interpolate(data, "hour") + ";i.android.intent.extra.MINUTES=" + Interpolate(data, "minute") + ";"
  }

  function AlarmIntent(data: Args, encode: string -> string): string {
    AlarmHead + AlarmTime(data) + AlarmMessageKey + encode(OrDefault(data, "message", DefaultAlarmLabel)) + AlarmTail
  }

  /** `handleAppLaunch`: the lower-cased name is tested against the known apps in priority order. */
  function AppLaunch(appName: string, isAndroid: bool): (effect: Effect)
    ensures effect != TypeError && !effect.Alert?
    // every branch acts on Android; only the settings request does nothing elsewhere
    ensures effect == NoEffect ==> !isAndroid
    // off Android only the dialer navigates the page
    ensures !isAndroid && effect.Navigate? ==> effect == Navigate("tel:")
  {
    var app := Text.ToLower(appName);
    if Text.Contains(app, "whatsapp") then
      if isAndroid then Navigate(WhatsAppIntent) else OpenWindow("https://web.whatsapp.com")
    else if Text.Contains(app, "youtube") then
      if isAndroid then Navigate(YouTubeIntent) else OpenWindow("https://youtube.com")
    else if Text.Contains(app, "instagram") then
      if isAndroid then Navigate(InstagramIntent) else OpenWindow("https://instagram.com")
    else if Text.Contains(app, "camera") then
      CameraCapture
    else if Text.Contains(app, "chrome") || Text.Contains(app, "browser") then
      OpenWindow("https://google.com")
    else if Text.Contains(app, "settings") then
      if isAndroid then Navigate(SettingsIntent) else NoEffect
    else if Text.Contains(app, "phone") || Text.Contains(app, "dialer") then
      Navigate("tel:")
    else
      OpenWindow(SearchPrefix + appName)
  }

  /** `intentService.execute` */
  function Execute(payload: ActionPayload, userAgent: string, encode: string -> string): (effect: Effect)
    ensures payload.action == NoAction ==> effect == NoEffect
    // the intent throws exactly when it reads a property of missing data
    ensures effect == TypeError <==>
      payload.action != NoAction &&
      (payload.data.None? || (payload.action == OpenApp && "appName" !in payload.data.value))
    // an alert is the alarm's simulation, off Android only
    ensures effect.Alert? <==> payload.action == Alarm && payload.data.Some? && !IsAndroid(userAgent)
    ensures payload.action == Call && payload.data.Some? ==>
      effect.Navigate? && |effect.url| >= 4 && effect.url[..4] == "tel:"
  {
    var isAndroid := IsAndroid(userAgent);
    match payload.action
    case NoAction => NoEffect
    case OpenApp =>
      if payload.data.None? || !("appName" in payload.data.value) then TypeError
      else AppLaunch(payload.data.value["appName"], isAndroid)
    case Call =>
      if payload.data.None? then TypeError
      else Navigate("tel:" + Interpolate(payload.data.value, "number"))
    case WhatsApp =>
      if payload.data.None? then TypeError
      else
        var data := payload.data.value;
        var url := WhatsAppUrl(WhatsAppPhone(data), encode(OrDefault(data, "message", "")), isAndroid);
        if isAndroid then Navigate(url) else OpenWindow(url)
    case Alarm =>
      if payload.data.None? then TypeError
      else if isAndroid then Navigate(AlarmIntent(payload.data.value, encode))
      else Alert("[SIMULATION] Alarm set for " + Interpolate(payload.data.value, "hour") + ":" + Interpolate(payload.data.value, "minute"))
  }

  // ---------------------------------------------------------------- the app table

  /** One row of an app table: the words that select it and its effect on and off Android. */
  datatype Rule = Rule(keywords: seq<string>, onAndroid: Effect, elsewhere: Effect)

  /** The known apps, highest priority first. */
  const Rules: seq<Rule> := [
    Rule(["whatsapp"], Navigate(WhatsAppIntent), OpenWindow("https://web.whatsapp.com")),
    Rule(["youtube"], Navigate(YouTubeIntent), OpenWindow("https://youtube.com")),
    Rule(["instagram"], Navigate(InstagramIntent), OpenWindow("https://instagram.com")),
    Rule(["camera"], CameraCapture, CameraCapture),
    Rule(["chrome", "browser"], OpenWindow("https://google.com"), OpenWindow("https://google.com")),
    Rule(["settings"], Navigate(SettingsIntent), NoEffect),
    Rule(["phone", "dialer"], Navigate("tel:"), Navigate("tel:"))
  ]

  predicate Selects(rule: Rule, app: string) {
    exists k :: 0 <= k < |rule.keywords| && Text.Contains(app, rule.keywords[k])
  }

  /** The index of the first rule that selects `app`, or |rules| when none does. */
  function FirstRule(rules: seq<Rule>, app: string): (n: nat)
    ensures n <= |rules|
  {
    if rules == [] then 0
    else if Selects(rules[0], app) then 0
    else 1 + FirstRule(rules[1..], app)
  }

  /** The reference reading of app launching: the first selecting row of the table, else a search. */
  function TableLaunch(appName: string, isAndroid: bool): Effect {
    var n := FirstRule(Rules, Text.ToLower(appName));
    if n == |Rules| then OpenWindow(SearchPrefix + appName)
    else if isAndroid then Rules[n].onAndroid
    else Rules[n].elsewhere
  }

  lemma {:induction false} FirstRuleIsFirst(rules: seq<Rule>, app: string, n: nat)
    requires n <= |rules|
    requires n < |rules| ==> Selects(rules[n], app)
    requires forall j :: 0 <= j < n ==> !Selects(rules[j], app)
    ensures FirstRule(rules, app) == n
    decreases n
  {
    if n > 0 {
      assert !Selects(rules[0], app);
      assert forall j :: 0 <= j < n - 1 ==> rules[1..][j] == rules[j + 1];
      FirstRuleIsFirst(rules[1..], app, n - 1);
    }
  }

  lemma SelectsOne(rule: Rule, app: string, w: string)
    requires rule.keywords == [w]
    ensures Selects(rule, app) <==> Text.Contains(app, w)
  {
    if Text.Contains(app, w) {
      assert Text.Contains(app, rule.keywords[0]);
    }
  }

  lemma SelectsTwo(rule: Rule, app: string, w: string, v: string)
    requires rule.keywords == [w, v]
    ensures Selects(rule, app) <==> Text.Contains(app, w) || Text.Contains(app, v)
  {
    if Text.Contains(app, w) {
      assert Text.Contains(app, rule.keywords[0]);
    }
    if Text.Contains(app, v) {
      assert Text.Contains(app, rule.keywords[1]);
    }
  }

  /** The rule `FirstRule` picks selects, and none before it does. */
  lemma {:induction false} FirstRuleSelects(rules: seq<Rule>, app: string)
    ensures FirstRule(rules, app) < |rules| ==> Selects(rules[FirstRule(rules, app)], app)
    ensures forall j :: 0 <= j < FirstRule(rules, app) ==> !Selects(rules[j], app)
    decreases |rules|
  {
    if rules != [] && !Selects(rules[0], app) {
      FirstRuleSelects(rules[1..], app);
      forall j | 1 <= j < FirstRule(rules, app) ensures !Selects(rules[j], app) {
        assert rules[j] == rules[1..][j - 1];
      }
    }
  }

  /** The if-chain of `handleAppLaunch` is exactly the priority table. */
  lemma AppLaunchIsTable(appName: string, isAndroid: bool)
    ensures AppLaunch(appName, isAndroid) == TableLaunch(appName, isAndroid)
  {
    var app := Text.ToLower(appName);
    SelectsOne(Rules[0], app, "whatsapp");
    SelectsOne(Rules[1], app, "youtube");
    SelectsOne(Rules[2], app, "instagram");
    SelectsOne(Rules[3], app, "camera");
    SelectsTwo(Rules[4], app, "chrome", "browser");
    SelectsOne(Rules[5], app, "settings");
    SelectsTwo(Rules[6], app, "phone", "dialer");
    FirstRuleSelects(Rules, app);
  }

  // ---------------------------------------------------------------- execute properties

  /** Action NONE touches nothing, whatever the data. */
  lemma NoActionNoEffect(data: Option<Args>, userAgent: string, encode: string -> string)
    ensures Execute(ActionPayload(NoAction, data), userAgent, encode) == NoEffect
  {
  }

  /** Any other action with no data throws before anything happens. */
  lemma MissingDataThrows(action: ActionKind, userAgent: string, encode: string -> string)
    requires action != NoAction
    ensures Execute(ActionPayload(action, None), userAgent, encode) == TypeError
  {
  }

  /** A call dials "tel:" followed by the number as rendered. */
  lemma CallDials(data: Args, userAgent: string, encode: string -> string)
    requires "number" in data
    ensures Execute(ActionPayload(Call, Some(data)), userAgent, encode) == Navigate("tel:" + data["number"])
  {
  }

  /** The WhatsApp phone keeps exactly the digits of the number, and is empty exactly
      when there is no number or it holds no digit. */
  lemma WhatsAppPhoneDigits(data: Args)
    ensures WhatsAppPhone(data) == "" <==>
      !("number" in data) || forall i :: 0 <= i < |data["number"]| ==> !Text.IsDigit(data["number"][i])
    ensures "number" in data && Text.AllDigits(data["number"]) ==> WhatsAppPhone(data) == data["number"]
  {
    if "number" in data {
      Text.DigitsOnlyEmpty(data["number"]);
      Text.DigitsOnlyKeepsDigits(data["number"]);
    }
  }

  /** A WhatsApp action goes through the same URL in the page on Android and in a new window elsewhere;
      the phone appears in it exactly when it is non-empty. */
  lemma WhatsAppTarget(data: Args, userAgent: string, encode: string -> string)
    ensures var phone := WhatsAppPhone(data);
      var text := encode(OrDefault(data, "message", ""));
      Execute(ActionPayload(WhatsApp, Some(data)), userAgent, encode) ==
        if IsAndroid(userAgent) then
          Navigate((if phone != "" then "intent://send?phone=" + phone + "&text=" else "intent://send?text=") + text
            + "#Intent;package=com.whatsapp;scheme=whatsapp;end")
        else
          OpenWindow((if phone != "" then "https://wa.me/" + phone + "?text=" else "https://wa.me/?text=") + text)
  {
  }

  /** The alarm intent carries the hour and minute, and the encoded label. */
  lemma AlarmIntentCarries(data: Args, encode: string -> string)
    ensures Text.Contains(AlarmIntent(data, encode), AlarmTime(data))
    ensures Text.Contains(AlarmIntent(data, encode), AlarmMessageKey + encode(OrDefault(data, "message", DefaultAlarmLabel)))
  {
    var t := AlarmTime(data);
    var m := AlarmMessageKey + encode(OrDefault(data, "message", DefaultAlarmLabel));
    var url := AlarmIntent(data, encode);
    assert url == AlarmHead + t + (m + AlarmTail);
    ContainsInfix(AlarmHead, t, m + AlarmTail);
    assert url == (AlarmHead + t) + m + AlarmTail;
    ContainsInfix(AlarmHead + t, m, AlarmTail);
  }

  /** An alarm on Android goes to an intent carrying hour and minute, labelled "Nexa Alarm"
      unless a message is given; elsewhere it is only simulated by an alert. */
  lemma AlarmTarget(data: Args, userAgent: string, encode: string -> string)
    requires "hour" in data && "minute" in data
    ensures IsAndroid(userAgent) ==>
      Execute(ActionPayload(Alarm, Some(data)), userAgent, encode).Navigate? &&
      Text.Contains(Execute(ActionPayload(Alarm, Some(data)), userAgent, encode).url,
        "i.android.intent.extra.HOUR=" + data["hour"] + ";i.android.intent.extra.MINUTES=" + data["minute"] + ";")
    ensures IsAndroid(userAgent) && (!("message" in data) || data["message"] == "") ==>
      Text.Contains(Execute(ActionPayload(Alarm, Some(data)), userAgent, encode).url, AlarmMessageKey + encode(DefaultAlarmLabel))
    ensures !IsAndroid(userAgent) ==>
      Execute(ActionPayload(Alarm, Some(data)), userAgent, encode) ==
        Alert("[SIMULATION] Alarm set for " + data["hour"] + ":" + data["minute"])
  {
    AlarmIntentCarries(data, encode);
  }

  /** Whatever sits between two texts is contained in the whole. */
  lemma {:induction false} ContainsInfix(a: string, m: string, b: string)
    ensures Text.Contains(a + m + b, m)
    decreases |a|
  {
    if a == [] {
      assert a + m + b == m + b;
    } else {
      assert (a + m + b)[1..] == a[1..] + m + b;
      ContainsInfix(a[1..], m, b);
    }
  }

  /** "settings" off Android does nothing, when no higher-priority app is named. */
  lemma SettingsOffAndroid(appName: string)
    requires var app := Text.ToLower(appName);
      Text.Contains(app, "settings") &&
      !Text.Contains(app, "whatsapp") && !Text.Contains(app, "youtube") && !Text.Contains(app, "instagram") &&
      !Text.Contains(app, "camera") && !Text.Contains(app, "chrome") && !Text.Contains(app, "browser")
    ensures AppLaunch(appName, false) == NoEffect
    ensures AppLaunch(appName, true) == Navigate(SettingsIntent)
  {
  }

  /** An unknown app is searched for under its name as given, not lower-cased. */
  lemma UnknownAppSearched(appName: string, isAndroid: bool)
    requires forall i :: 0 <= i < |Rules| ==> !Selects(Rules[i], Text.ToLower(appName))
    ensures AppLaunch(appName, isAndroid) == OpenWindow(SearchPrefix + appName)
  {
    AppLaunchIsTable(appName, isAndroid);
    FirstRuleIsFirst(Rules, Text.ToLower(appName), |Rules|);
  }

  /** Letter case of the name does not change which app is launched, except in the search text. */
  lemma KnownAppIgnoresCase(a: string, b: string, isAndroid: bool)
    requires Text.ToLower(a) == Text.ToLower(b)
    requires FirstRule(Rules, Text.ToLower(a)) < |Rules|
    ensures AppLaunch(a, isAndroid) == AppLaunch(b, isAndroid)
  {
    AppLaunchIsTable(a, isAndroid);
    AppLaunchIsTable(b, isAndroid);
  }
}
