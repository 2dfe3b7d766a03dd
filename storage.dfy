/** The storage service over the browser's key-value storage: the current user,
    the user database keyed by mobile number, and the admin's conversation memory,
    each kept under its own key as a structured value. Histories are bounded to
    the last fifty messages. The clock is a parameter. */
module Storage {
  import opened Types

  /** The three storage keys the service uses. */
  datatype Key = CurrentUserKey | UsersDbKey | AdminMemoryKey

  /** The key's name in the browser's storage; the three names differ, so a
      storage map keyed by `Key` is the storage restricted to these keys. */
  function KeyName(key: Key): string {
    match key
    case CurrentUserKey => "nexa_current_user"
    case UsersDbKey => "nexa_users_db"
    case AdminMemoryKey => "nexa_admin_memory"
  }

  const MaxHistory := 50

  const AdminName := "Chandan"
  const AdminMobile := "ADMIN"

  /** What a key holds once parsed. */
  datatype Stored =
    | ProfileValue(profile: UserProfile)
    | DbValue(users: map<string, UserProfile>)
    | HistoryValue(messages: seq<ChatMessage>)

  // ---------------------------------------------------------------- the bounded history

  /** The history after appending `m` and, above the bound, dropping the oldest entry. */
  function Pushed(h: seq<ChatMessage>, m: ChatMessage): (r: seq<ChatMessage>)
    ensures |r| > 0 && r[|r| - 1] == m
    ensures |h| <= MaxHistory ==> |r| <= MaxHistory
  {
    var appended := h + [m];
    if |appended| > MaxHistory then appended[1..] else appended
  }

  /** The new message is last, the bound is kept, and the result is the tail of the
      appended history, so relative order is preserved. */
  lemma PushedShape(h: seq<ChatMessage>, m: ChatMessage)
    ensures |Pushed(h, m)| > 0 && Pushed(h, m)[|Pushed(h, m)| - 1] == m
    ensures |h| <= MaxHistory ==> |Pushed(h, m)| == if |h| < MaxHistory then |h| + 1 else MaxHistory
    ensures Pushed(h, m) == (h + [m])[|h| + 1 - |Pushed(h, m)|..]
    ensures |h| < MaxHistory ==> Pushed(h, m) == h + [m]
  {
  }

  /** A history within the bound stays within it. */
  lemma PushedBounded(h: seq<ChatMessage>, m: ChatMessage)
    requires |h| <= MaxHistory
    ensures |Pushed(h, m)| <= MaxHistory
  {
  }

  /** Saving the messages `ms` one after another. */
  function PushAll(h: seq<ChatMessage>, ms: seq<ChatMessage>): seq<ChatMessage>
    decreases |ms|
  {
    if ms == [] then h else PushAll(Pushed(h, ms[0]), ms[1..])
  }

  /** The last `n` entries of `s`, or all of a shorter one. */
  function LastN(s: seq<ChatMessage>, n: nat): seq<ChatMessage> {
    if |s| <= n then s else s[|s| - n..]
  }

  /** From a history within the bound, any run of saves keeps exactly the last fifty messages. */
  lemma {:induction false} PushAllKeepsLast(h: seq<ChatMessage>, ms: seq<ChatMessage>)
    requires |h| <= MaxHistory
    ensures PushAll(h, ms) == LastN(h + ms, MaxHistory)
    decreases |ms|
  {
    if ms == [] {
      assert h + ms == h;
    } else {
      var h' := Pushed(h, ms[0]);
      PushedIsLast(h, ms[0]);
      PushAllKeepsLast(h', ms[1..]);
      LastNAppend(h + [ms[0]], ms[1..], MaxHistory);
      assert h + [ms[0]] + ms[1..] == h + ms;
    }
  }

  /** One save keeps the last fifty messages. */
  lemma PushedIsLast(h: seq<ChatMessage>, m: ChatMessage)
    requires |h| <= MaxHistory
    ensures |Pushed(h, m)| <= MaxHistory && Pushed(h, m) == LastN(h + [m], MaxHistory)
  {
  }

  lemma LastNAppend(s: seq<ChatMessage>, t: seq<ChatMessage>, n: nat)
    ensures LastN(LastN(s, n) + t, n) == LastN(s + t, n)
  {
    if |s| > n {
      var k := |s| - n;
      var x := s[k..] + t;
      assert LastN(s, n) == s[k..];
      assert s + t == s[..k] + x;
      if t == [] {
        assert x == s[k..] && s + t == s;
      } else {
        assert LastN(x, n) == x[|t|..];
        assert LastN(s + t, n) == (s + t)[k + |t|..];
        DropPrefix(s[..k], x, |t|);
      }
    }
  }

  lemma DropPrefix(p: seq<ChatMessage>, x: seq<ChatMessage>, j: nat)
    requires j <= |x|
    ensures (p + x)[|p| + j..] == x[j..]
  {
  }

  // ---------------------------------------------------------------- the store

  /** The user database a storage map holds, or an empty one when the key is absent. */
  function DbIn(items: map<Key, Stored>): map<string, UserProfile> {
    if UsersDbKey in items && items[UsersDbKey].DbValue? then items[UsersDbKey].users else map[]
  }

  /** The storage after `saveChat(user, message)`: the user with the message pushed
      becomes current, and is persisted under the admin memory key for the admin,
      or in the database under its mobile for anyone else. */
  function SavedItems(items: map<Key, Stored>, user: UserProfile, message: ChatMessage): map<Key, Stored>
  {
    var updated := user.(chatHistory := Pushed(user.chatHistory, message));
    if user.role == Admin then
      items[AdminMemoryKey := HistoryValue(updated.chatHistory)][CurrentUserKey := ProfileValue(updated)]
    else
      items[UsersDbKey := DbValue(DbIn(items)[user.mobile := updated])][CurrentUserKey := ProfileValue(updated)]
  }

  /** The current user a storage map holds, if any. */
  function CurrentIn(items: map<Key, Stored>): Option<UserProfile> {
    if CurrentUserKey in items && items[CurrentUserKey].ProfileValue? then Some(items[CurrentUserKey].profile) else None
  }

  /** The admin's conversation a storage map holds, or an empty one. */
  function AdminMemoryIn(items: map<Key, Stored>): seq<ChatMessage> {
    if AdminMemoryKey in items && items[AdminMemoryKey].HistoryValue? then items[AdminMemoryKey].messages else []
  }

  /** Every history a storage map holds is within the bound. */
  ghost predicate BoundedItems(items: map<Key, Stored>) {
    && |AdminMemoryIn(items)| <= MaxHistory
    && (CurrentIn(items).Some? ==> |CurrentIn(items).value.chatHistory| <= MaxHistory)
    && (forall mobile :: mobile in DbIn(items) ==> |DbIn(items)[mobile].chatHistory| <= MaxHistory)
  }

  class Store {
    /** the key-value storage, each value as parsed */
    var items: map<Key, Stored>

    constructor (items: map<Key, Stored>)
      ensures this.items == items
    {
      this.items := items;
    }

    /** The user database, or an empty one when the key is absent. */
    function Db(): map<string, UserProfile>
      reads this
    {
      DbIn(items)
    }

    /** `getCurrentUser` */
    function CurrentUser(): (u: Option<UserProfile>)
      reads this
      ensures CurrentUserKey !in items ==> u == None
      ensures u.Some? ==> items[CurrentUserKey] == ProfileValue(u.value)
      ensures CurrentUserKey in items && items[CurrentUserKey].ProfileValue? ==> u == Some(items[CurrentUserKey].profile)
    {
      CurrentIn(items)
    }

    /** The admin's saved conversation, or an empty one. */
    function AdminMemory(): seq<ChatMessage>
      reads this
    {
      AdminMemoryIn(items)
    }

    /** Every history the store holds is within the bound. */
    ghost predicate Bounded()
      reads this
    {
      BoundedItems(items)
    }

    /** `login`: a known mobile becomes the current user with a fresh login time,
        written back to the database; an unknown one changes nothing. */
    method Login(mobile: string, now: int) returns (user: Option<UserProfile>)
      modifies this
      ensures mobile !in old(Db()) ==> user == None && items == old(items)
      ensures mobile in old(Db()) ==>
        user == Some(old(Db())[mobile].(lastLogin := now)) &&
        items == old(items)[CurrentUserKey := ProfileValue(user.value)][UsersDbKey := DbValue(old(Db())[mobile := user.value])]
      ensures user.Some? ==> CurrentUser() == user && Db() == old(Db())[mobile := user.value] && AdminMemory() == old(AdminMemory())
      ensures old(Bounded()) ==> Bounded()
    {
      var db := Db();
      if mobile in db {
        var found := db[mobile].(lastLogin := now);
        items := items[CurrentUserKey := ProfileValue(found)];
        db := db[mobile := found];
        items := items[UsersDbKey := DbValue(db)];
        return Some(found);
      }
      return None;
    }

    /** `adminLogin`: the fixed admin profile, carrying the saved admin memory, becomes current. */
    method AdminLogin(now: int) returns (admin: UserProfile)
      modifies this
      ensures admin == UserProfile(AdminName, AdminMobile, Admin, DarkNeon, old(AdminMemory()), now)
      ensures items == old(items)[CurrentUserKey := ProfileValue(admin)]
      ensures CurrentUser() == Some(admin) && Db() == old(Db()) && AdminMemory() == old(AdminMemory())
      ensures old(Bounded()) ==> Bounded()
    {
      admin := UserProfile(AdminName, AdminMobile, Admin, DarkNeon, AdminMemory(), now);
      items := items[CurrentUserKey := ProfileValue(admin)];
    }

    /** `signup`: a fresh user profile replaces any under the same mobile and becomes current. */
    method Signup(name: string, mobile: string, now: int) returns (user: UserProfile)
      modifies this
      ensures user == UserProfile(name, mobile, User, DarkNeon, [], now)
      ensures items == old(items)[UsersDbKey := DbValue(old(Db())[mobile := user])][CurrentUserKey := ProfileValue(user)]
      ensures CurrentUser() == Some(user) && Db() == old(Db())[mobile := user] && AdminMemory() == old(AdminMemory())
      ensures old(Bounded()) ==> Bounded()
    {
      var db := Db();
      user := UserProfile(name, mobile, User, DarkNeon, [], now);
      db := db[mobile := user];
      items := items[UsersDbKey := DbValue(db)];
      items := items[CurrentUserKey := ProfileValue(user)];
    }

    /** `logout`: only the current-user key is removed. */
    method Logout()
      modifies this
      ensures items == old(items) - {CurrentUserKey}
      ensures CurrentUser() == None && Db() == old(Db()) && AdminMemory() == old(AdminMemory())
      ensures old(Bounded()) ==> Bounded()
    {
      items := items - {CurrentUserKey};
    }

    /** `saveChat`: the message is appended to the user's history, which is cut back
        to the bound, and the user is persisted: an admin's history under the admin
        memory key, anyone else's profile in the database under their mobile. The
        returned profile is the caller's user object after the update. */
    method SaveChat(user: UserProfile, message: ChatMessage) returns (updated: UserProfile)
      modifies this
      ensures updated == user.(chatHistory := Pushed(user.chatHistory, message))
      ensures items == SavedItems(old(items), user, message)
      ensures CurrentUser() == Some(updated)
      ensures user.role != Admin ==> Db() == old(Db())[user.mobile := updated] && AdminMemory() == old(AdminMemory())
      ensures user.role == Admin ==> Db() == old(Db()) && AdminMemory() == updated.chatHistory
      ensures old(Bounded()) && |user.chatHistory| <= MaxHistory ==> Bounded()
    {
      var history := user.chatHistory;
      history := history + [message];
      if |history| > MaxHistory {
        history := history[1..];
      }
      updated := user.(chatHistory := history);
      PushedShape(user.chatHistory, message);
      if user.role == Admin {
        items := items[AdminMemoryKey := HistoryValue(history)];
        items := items[CurrentUserKey := ProfileValue(updated)];
      } else {
        var db := Db();
        db := db[user.mobile := updated];
        items := items[UsersDbKey := DbValue(db)];
        items := items[CurrentUserKey := ProfileValue(updated)];
      }
    }

    /** `clearAdminMemory`: only the admin memory key is removed. */
    method ClearAdminMemory()
      modifies this
      ensures items == old(items) - {AdminMemoryKey}
      ensures AdminMemory() == [] && Db() == old(Db()) && CurrentUser() == old(CurrentUser())
      ensures old(Bounded()) ==> Bounded()
    {
      items := items - {AdminMemoryKey};
    }
  }

  /** Two saves on the same user object keep both messages, in order. */
  lemma SaveTwice(h: seq<ChatMessage>, a: ChatMessage, b: ChatMessage)
    requires |h| + 2 <= MaxHistory
    ensures Pushed(Pushed(h, a), b) == h + [a, b]
  {
    assert h + [a] + [b] == h + [a, b];
  }
}
