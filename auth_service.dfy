/**
 * The browser session of auth.service.js: the user record and the current
 * room pointer, kept in `localStorage` under the keys of constants.js.
 * The store is a class holding a string-to-string map; the service's
 * functions take it as a parameter. `Math.random().toString(36)` is a
 * parameter of the id generator.
 */
module AuthService {
  import opened Wrappers
  import opened JsText
  import opened UserJson

  /** `STORAGE_KEYS`. */
  const UserKey: string := "fz_user"
  const RoomIdKey: string := "fz_current_room_id"
  const RoomNameKey: string := "fz_current_room_name"
  const ThemeKey: string := "fz_theme"

  /** A `localStorage` area: `setItem`, `removeItem`, `getItem`. */
  class Storage {
    var entries: map<string, string>

    constructor ()
      ensures entries == map[]
    {
      entries := map[];
    }

    method SetItem(key: string, value: string)
      modifies this
      ensures entries == old(entries)[key := value]
    {
      entries := entries[key := value];
    }

    method RemoveItem(key: string)
      modifies this
      ensures entries == old(entries) - {key}
    {
      entries := entries - {key};
    }

    /** `getItem(key)`: None is `null`. */
    function GetItem(key: string): (r: Option<string>)
      reads this
      ensures r.Some? <==> key in entries
      ensures r.Some? ==> r.value == entries[key]
    {
      Lookup(entries, key)
    }
  }

  /** The value a store holding the entries m gives for key, None when there is none. */
  function Lookup(m: map<string, string>, key: string): Option<string> {
    if key in m then Some(m[key]) else None
  }

  // ---------------------------------------------------------------------
  // What the getters read from the stored entries
  // ---------------------------------------------------------------------

  /**
   * What getUser finds: nothing (no entry, or the empty string, both
   * falsy), a user record in the layout saveUser writes, or some other
   * text, whose `JSON.parse` this model does not follow.
   */
  datatype StoredUser = NoUser | Saved(user: User) | Other(text: string)

  /** `userData ? JSON.parse(userData) : null` for what `getItem` returned. */
  function UserFromText(userData: Option<string>): (r: StoredUser)
    ensures r.NoUser? <==> userData.None? || userData.value == ""
    ensures r.Saved? ==> DecodeUser(userData.value) == Some(r.user)
    ensures r.Other? ==> r.text == userData.value && DecodeUser(userData.value).None?
  {
    if userData.None? || userData.value == "" then NoUser
    else match DecodeUser(userData.value)
      case Some(u) => Saved(u)
      case None => Other(userData.value)
  }

  /** What getUser finds in a store holding the entries m. */
  function UserIn(m: map<string, string>): (r: StoredUser)
    ensures r.NoUser? <==> UserKey !in m || m[UserKey] == ""
    ensures r.Saved? ==> DecodeUser(m[UserKey]) == Some(r.user)
  {
    UserFromText(Lookup(m, UserKey))
  }

  /** `{ id, name }` of the current room. */
  datatype CurrentRoom = CurrentRoom(id: string, name: string)

  /** `roomId && roomName ? { id: roomId, name: roomName } : null` for the two values `getItem` returned. */
  function RoomFromTexts(roomId: Option<string>, roomName: Option<string>): (r: Option<CurrentRoom>)
    ensures r.Some? <==> roomId.Some? && roomName.Some? && roomId.value != "" && roomName.value != ""
    ensures r.Some? ==> r.value == CurrentRoom(roomId.value, roomName.value)
  {
    if roomId.Some? && roomName.Some? && roomId.value != "" && roomName.value != "" then
      Some(CurrentRoom(roomId.value, roomName.value))
    else None
  }

  /** What getCurrentRoom finds in a store holding the entries m: a room only when both entries are present and non-empty. */
  function RoomIn(m: map<string, string>): (r: Option<CurrentRoom>)
    ensures r.Some? <==> RoomIdKey in m && RoomNameKey in m && m[RoomIdKey] != "" && m[RoomNameKey] != ""
    ensures r.Some? ==> r.value.id == m[RoomIdKey] && r.value.name == m[RoomNameKey]
  {
    RoomFromTexts(Lookup(m, RoomIdKey), Lookup(m, RoomNameKey))
  }

  // ---------------------------------------------------------------------
  // The service
  // ---------------------------------------------------------------------

  method SaveUser(store: Storage, u: User)
    modifies store
    ensures store.entries == old(store.entries)[UserKey := EncodeUser(u)]
    ensures GetUser(store) == Saved(u) && GetCurrentRoom(store) == old(GetCurrentRoom(store))
  {
    store.SetItem(UserKey, EncodeUser(u));
    SaveThenGetUser(old(store.entries), u);
    UserOpsKeepRoom(old(store.entries), EncodeUser(u));
  }

  /** getUser: reads the "fz_user" entry through `getItem`. */
  function GetUser(store: Storage): (r: StoredUser)
    reads store
    ensures r == UserIn(store.entries)
  {
    UserFromText(store.GetItem(UserKey))
  }

  method ClearUser(store: Storage)
    modifies store
    ensures store.entries == old(store.entries) - {UserKey}
    ensures GetUser(store) == NoUser && GetCurrentRoom(store) == old(GetCurrentRoom(store))
  {
    store.RemoveItem(UserKey);
    UserOpsKeepRoom(old(store.entries), "");
  }

  /** `s.substr(start, length)` for a non-negative start. */
  function Substr(s: string, start: nat, length: nat): (r: string)
    ensures |r| <= length
    ensures start <= |s| ==> start + |r| <= |s| && r == s[start..start + |r|]
    ensures start < |s| && length > 0 ==> r != []
    ensures start <= |s| ==> |r| == if start + length <= |s| then length else |s| - start
    ensures start >= |s| ==> r == []
  {
    if start >= |s| then [] else if start + length <= |s| then s[start..start + length] else s[start..]
  }

  /** `'u_' + Math.random().toString(36).substr(2, 9)`, with the base-36 text as a parameter. */
  function GenerateUserId(random36: string): (id: string)
    ensures 2 <= |id| <= 11 && id[..2] == "u_"
    ensures |random36| > 2 ==> |id| > 2
  {
    "u_" + Substr(random36, 2, 9)
  }

  /** createUser: a fresh id, the trimmed name, not an admin. */
  function CreateUser(name: string, random36: string): (u: User)
    ensures u.name == Trim(name) && !u.isAdmin
    ensures |u.id| >= 2 && u.id[..2] == "u_"
  {
    User(GenerateUserId(random36), Trim(name), false)
  }

  /** toggleAdminMode: the user with the new admin flag, stored and returned. */
  method ToggleAdminMode(store: Storage, u: User, isAdmin: bool) returns (updated: User)
    modifies store
    ensures updated.id == u.id && updated.name == u.name && updated.isAdmin == isAdmin
    ensures store.entries == old(store.entries)[UserKey := EncodeUser(updated)]
    ensures GetUser(store) == Saved(updated) && GetCurrentRoom(store) == old(GetCurrentRoom(store))
  {
    updated := u.(isAdmin := isAdmin);
    SaveUser(store, updated);
  }

  method SaveCurrentRoom(store: Storage, roomId: string, roomName: string)
    modifies store
    ensures store.entries == old(store.entries)[RoomIdKey := roomId][RoomNameKey := roomName]
    ensures GetCurrentRoom(store) == if roomId != "" && roomName != "" then Some(CurrentRoom(roomId, roomName)) else None
    ensures GetUser(store) == old(GetUser(store))
  {
    store.SetItem(RoomIdKey, roomId);
    store.SetItem(RoomNameKey, roomName);
    SaveThenGetRoom(old(store.entries), roomId, roomName);
    RoomOpsKeepUser(old(store.entries), roomId, roomName);
  }

  /** getCurrentRoom: reads the two room entries through `getItem`. */
  function GetCurrentRoom(store: Storage): (r: Option<CurrentRoom>)
    reads store
    ensures r == RoomIn(store.entries)
  {
    RoomFromTexts(store.GetItem(RoomIdKey), store.GetItem(RoomNameKey))
  }

  method ClearCurrentRoom(store: Storage)
    modifies store
    ensures store.entries == old(store.entries) - {RoomIdKey} - {RoomNameKey}
    ensures GetCurrentRoom(store) == None && GetUser(store) == old(GetUser(store))
  {
    store.RemoveItem(RoomIdKey);
    store.RemoveItem(RoomNameKey);
    RoomOpsKeepUser(old(store.entries), "", "");
  }

  // ---------------------------------------------------------------------
  // Round trips and independence
  // ---------------------------------------------------------------------

  /** After saveUser(u), getUser() returns u, whatever was stored before. */
  lemma SaveThenGetUser(m: map<string, string>, u: User)
    ensures UserIn(m[UserKey := EncodeUser(u)]) == Saved(u)
  {
    DecodeEncodeUser(u);
    assert EncodeUser(u) != "" by {
      assert EncodeUser(u)[0] == '{';
    }
  }

  /** After clearUser(), getUser() returns null. */
  lemma ClearThenGetUser(m: map<string, string>)
    ensures UserIn(m - {UserKey}) == NoUser
  {
  }

  /** After saveCurrentRoom(id, name), getCurrentRoom() returns exactly them when both are non-empty, and null otherwise. */
  lemma SaveThenGetRoom(m: map<string, string>, id: string, name: string)
    ensures RoomIn(m[RoomIdKey := id][RoomNameKey := name]) == if id != "" && name != "" then Some(CurrentRoom(id, name)) else None
  {
    var m' := m[RoomIdKey := id][RoomNameKey := name];
    assert RoomIdKey != RoomNameKey;
    assert m'[RoomIdKey] == id && m'[RoomNameKey] == name;
  }

  /** After clearCurrentRoom(), getCurrentRoom() returns null. */
  lemma ClearThenGetRoom(m: map<string, string>)
    ensures RoomIn(m - {RoomIdKey} - {RoomNameKey}) == None
  {
  }

  /** The room operations leave the stored user as it was. */
  lemma RoomOpsKeepUser(m: map<string, string>, id: string, name: string)
    ensures UserIn(m[RoomIdKey := id][RoomNameKey := name]) == UserIn(m)
    ensures UserIn(m - {RoomIdKey} - {RoomNameKey}) == UserIn(m)
  {
    assert UserKey != RoomIdKey && UserKey != RoomNameKey;
    var a := m[RoomIdKey := id][RoomNameKey := name];
    var b := m - {RoomIdKey} - {RoomNameKey};
    assert (UserKey in a <==> UserKey in m) && (UserKey in m ==> a[UserKey] == m[UserKey]);
    assert (UserKey in b <==> UserKey in m) && (UserKey in m ==> b[UserKey] == m[UserKey]);
  }

  /** The user operations leave the current room as it was. */
  lemma UserOpsKeepRoom(m: map<string, string>, text: string)
    ensures RoomIn(m[UserKey := text]) == RoomIn(m)
    ensures RoomIn(m - {UserKey}) == RoomIn(m)
  {
    assert UserKey != RoomIdKey && UserKey != RoomNameKey;
    var a := m[UserKey := text];
    var b := m - {UserKey};
    assert (RoomIdKey in a <==> RoomIdKey in m) && (RoomNameKey in a <==> RoomNameKey in m);
    assert (RoomIdKey in b <==> RoomIdKey in m) && (RoomNameKey in b <==> RoomNameKey in m);
  }

  /** No operation of the service changes what `getItem` returns for the theme preference. */
  lemma ThemeUntouched(m: map<string, string>, text: string, id: string, name: string)
    ensures Lookup(m[UserKey := text], ThemeKey) == Lookup(m, ThemeKey)
    ensures Lookup(m - {UserKey}, ThemeKey) == Lookup(m, ThemeKey)
    ensures Lookup(m[RoomIdKey := id][RoomNameKey := name], ThemeKey) == Lookup(m, ThemeKey)
    ensures Lookup(m - {RoomIdKey} - {RoomNameKey}, ThemeKey) == Lookup(m, ThemeKey)
  {
    assert ThemeKey[3] == 't' && UserKey[3] == 'u' && RoomIdKey[3] == 'c' && RoomNameKey[3] == 'c';
  }

  /** A user created and saved is the user getUser returns: trimmed name, "u_" id, not an admin. */
  lemma CreatedUserReadsBack(m: map<string, string>, name: string, random36: string)
    ensures var u := CreateUser(name, random36);
      UserIn(m[UserKey := EncodeUser(u)]) == Saved(u) && u.name == Trim(name) && !u.isAdmin
  {
    SaveThenGetUser(m, CreateUser(name, random36));
  }
}
