/** `AccountScreen`: the stored profile loaded into the form, the picked avatar and the
    save that writes the edited name and avatar back with a fresh timestamp. */
module AccountScreen {
  import opened Options
  import opened Text
  import opened AppStorage
  import LoginScreen

  /** The profile written by `handleSaveProfile`, given the one found in storage (`{}`
      when none). `email: currentUser.email` is `undefined` when the stored profile has
      no address, and `JSON.stringify` drops such a key, so the address is kept exactly
      when there was one. */
  function SavedProfile(current: JsObject, name: Json, avatar: Json, nowIso: string): (u: JsObject)
    ensures u.Keys == current.Keys + {"name", "avatar", "updatedAt"}
    ensures "email" in u <==> "email" in current
    ensures forall k :: k in current && k !in {"name", "avatar", "updatedAt"} ==> u[k] == current[k]
    ensures u["name"] == name && u["avatar"] == avatar && u["updatedAt"] == JStr(nowIso)
  {
    current["name" := name]["avatar" := avatar]["updatedAt" := JStr(nowIso)]
  }

  /** The form state `loadUserData` derives from a stored profile: `name || ''` and
      `avatar || null`. */
  function FormOf(u: JsObject): (f: (Json, Json))
    ensures Truthy(f.0) ==> "name" in u && f.0 == u["name"]
    ensures !Truthy(f.0) ==> f.0 == JStr([])
    ensures Truthy(f.1) ==> "avatar" in u && f.1 == u["avatar"]
    ensures !Truthy(f.1) ==> f.1 == JNull
  {
    (FieldOr(u, "name", JStr([])), FieldOr(u, "avatar", JNull))
  }

  /** Saving then reloading shows what was saved, up to the form's defaults for a falsy
      name or avatar. */
  lemma SaveThenLoad(current: JsObject, name: Json, avatar: Json, nowIso: string)
    ensures var f := FormOf(SavedProfile(current, name, avatar, nowIso));
      f.0 == (if Truthy(name) then name else JStr([]))
      && f.1 == (if Truthy(avatar) then avatar else JNull)
  {
  }

  /** Loading and saving again without edits is a fixed point, apart from the time of
      the save, for a profile whose name and avatar are already in the form's shape. */
  lemma LoadSaveFixedPoint(u: JsObject, nowIso: string)
    requires "name" in u && Truthy(u["name"]) && "avatar" in u && (Truthy(u["avatar"]) || u["avatar"] == JNull)
    ensures SavedProfile(u, FormOf(u).0, FormOf(u).1, nowIso) == u["updatedAt" := JStr(nowIso)]
  {
    var s := SavedProfile(u, FormOf(u).0, FormOf(u).1, nowIso);
    var w := u["updatedAt" := JStr(nowIso)];
    assert s.Keys == w.Keys;
  }

  /** A later login does not undo a saved profile edit: a non-empty name, a truthy avatar
      and the save's timestamp all survive it; only the address is replaced. */
  lemma ProfileEditSurvivesLogin(current: JsObject, name: string, avatar: Json, saved: string,
                                 email: string, later: string)
    requires name != [] && saved != []
    ensures var p := SavedProfile(current, JStr(name), avatar, saved);
      var l := LoginScreen.MergeLoginUser(p, email, later);
      l["name"] == JStr(name) && l["updatedAt"] == JStr(saved) && l["email"] == JStr(email)
      && (Truthy(avatar) ==> l["avatar"] == avatar)
  {
  }

  class AccountScreen {
    const storage: KeyValueStore
    var user: Option<JsObject>
    var isEditing: bool
    var editedName: Json
    var profileImage: Json

    constructor (storage: KeyValueStore)
      ensures this.storage == storage && user == None && !isEditing
      ensures editedName == JStr([]) && profileImage == JNull
    {
      this.storage := storage;
      user := None;
      isEditing := false;
      editedName := JStr([]);
      profileImage := JNull;
    }

    /** `loadUserData`: a stored profile becomes the screen's user and fills the form;
        without one nothing changes. */
    method LoadUserData()
      modifies this
      ensures isEditing == old(isEditing)
      ensures USER_KEY in storage.items && storage.items[USER_KEY].UserItem? ==>
        var u := storage.items[USER_KEY].user;
        user == Some(u) && (editedName, profileImage) == FormOf(u)
      ensures !(USER_KEY in storage.items && storage.items[USER_KEY].UserItem?) ==>
        user == old(user) && editedName == old(editedName) && profileImage == old(profileImage)
    {
      if USER_KEY in storage.items && storage.items[USER_KEY].UserItem? {
        var parsedData := storage.items[USER_KEY].user;
        user := Some(parsedData);
        editedName := FieldOr(parsedData, "name", JStr([]));
        profileImage := FieldOr(parsedData, "avatar", JNull);
      }
    }

    /** `pickImage`: without the library permission nothing changes; a cancelled pick
        keeps the current image; otherwise the picked image's URI becomes the avatar. */
    method PickImage(granted: bool, picked: Option<string>)
      modifies this
      ensures user == old(user) && isEditing == old(isEditing) && editedName == old(editedName)
      ensures profileImage == if granted && picked.Some? then JStr(picked.value) else old(profileImage)
    {
      if !granted {
        return;
      }
      if picked.Some? {
        profileImage := JStr(picked.value);
      }
    }

    /** `handleSaveProfile`: the stored profile gets the edited name and avatar and the
        current time, becomes the screen's user, and editing ends. */
    method HandleSaveProfile(nowIso: string)
      modifies this, storage
      ensures editedName == old(editedName) && profileImage == old(profileImage)
      ensures var saved := SavedProfile(StoredUserOr(old(storage.items), map[]), editedName, profileImage, nowIso);
        storage.items == old(storage.items)[USER_KEY := UserItem(saved)] && user == Some(saved)
      ensures !isEditing
    {
      var currentUser := StoredUserOr(storage.items, map[]);
      var updatedUser := SavedProfile(currentUser, editedName, profileImage, nowIso);
      storage.SetItem(USER_KEY, UserItem(updatedUser));
      user := Some(updatedUser);
      isEditing := false;
    }
  }
}
