/** `LoginScreen` (the routed one, under `screens/Auth`): blank fields are refused before
    any call; a successful login stores the session token and merges the address into
    the stored profile without overwriting a name, avatar or timestamp it already has. */
module LoginScreen {
  import opened Options
  import opened Text
  import opened AppStorage
  import VerificationScreen

  const BLANK_FIELDS_MESSAGE := "Please enter both email and password."

  /** The profile stored after a login as `email`, given the profile found in storage
      (`{}` when none) and the current time as an ISO string. */
  function MergeLoginUser(existing: JsObject, email: string, nowIso: string): (u: JsObject)
    ensures u.Keys == existing.Keys + {"email", "name", "avatar", "updatedAt"}
    ensures u["email"] == JStr(email)
    ensures forall k :: k in existing && k !in {"email", "name", "avatar", "updatedAt"} ==> u[k] == existing[k]
    ensures Truthy(u["name"]) <==> ("name" in existing && Truthy(existing["name"])) || Before(email, '@') != []
    ensures "name" in existing && Truthy(existing["name"]) ==> u["name"] == existing["name"]
    ensures !("name" in existing && Truthy(existing["name"])) ==> u["name"] == JStr(Before(email, '@'))
    ensures Truthy(u["avatar"]) <==> "avatar" in existing && Truthy(existing["avatar"])
    ensures Truthy(u["avatar"]) ==> u["avatar"] == existing["avatar"]
    ensures !Truthy(u["avatar"]) ==> u["avatar"] == JNull
    ensures "updatedAt" in existing && Truthy(existing["updatedAt"]) ==> u["updatedAt"] == existing["updatedAt"]
    ensures !("updatedAt" in existing && Truthy(existing["updatedAt"])) ==> u["updatedAt"] == JStr(nowIso)
  {
    existing["email" := JStr(email)]
            ["name" := FieldOr(existing, "name", JStr(Before(email, '@')))]
            ["avatar" := FieldOr(existing, "avatar", JNull)]
            ["updatedAt" := FieldOr(existing, "updatedAt", JStr(nowIso))]
  }

  /** Logging in again as the same address changes nothing, once the first login has
      written a non-empty timestamp. */
  lemma LoginMergeIdempotent(existing: JsObject, email: string, first: string, later: string)
    requires first != []
    ensures var once := MergeLoginUser(existing, email, first);
      MergeLoginUser(once, email, later) == once
  {
    var once := MergeLoginUser(existing, email, first);
    var twice := MergeLoginUser(once, email, later);
    assert Truthy(once["updatedAt"]);
    assert twice.Keys == once.Keys;
    forall k | k in once ensures twice[k] == once[k] {
      if k == "name" {
        if !Truthy(once["name"]) {
          assert twice["name"] == JStr(Before(email, '@'));
        }
      }
    }
  }

  /** Right after verification, a login with the same address keeps the stored record
      and only adds the timestamp. */
  lemma LoginAfterVerification(email: string, nowIso: string)
    ensures MergeLoginUser(VerificationScreen.VerifiedUser(email), email, nowIso)
         == VerificationScreen.VerifiedUser(email)["updatedAt" := JStr(nowIso)]
  {
    var v := VerificationScreen.VerifiedUser(email);
    var u := MergeLoginUser(v, email, nowIso);
    var w := v["updatedAt" := JStr(nowIso)];
    assert u.Keys == w.Keys;
    forall k | k in u ensures u[k] == w[k] {
      if k == "name" && !Truthy(v["name"]) {
        assert v["name"] == JStr(Before(email, '@'));
      }
    }
  }

  class LoginScreen {
    var email: string
    var password: string
    const storage: KeyValueStore
    /** The (email, password) pairs sent to `authService.login`, oldest first. */
    var loginCalls: seq<(string, string)>

    constructor (storage: KeyValueStore)
      ensures email == "" && password == "" && this.storage == storage && loginCalls == []
    {
      email, password := "", "";
      this.storage := storage;
      loginCalls := [];
    }

    /** `handleLogin`: with a blank address or password the alert is returned and no
        call is made; otherwise one login call is made, and when it answers with a token
        (`response`) the token is stored and then the merged profile; a failed call
        leaves the store as it was. */
    method HandleLogin(response: Option<string>, nowIso: string) returns (alert: Option<string>)
      modifies this, storage
      ensures email == old(email) && password == old(password)
      ensures IsJsBlank(email) || IsJsBlank(password) ==>
        alert == Some(BLANK_FIELDS_MESSAGE) && loginCalls == old(loginCalls)
        && storage.items == old(storage.items)
      ensures !(IsJsBlank(email) || IsJsBlank(password)) ==>
        alert == None && loginCalls == old(loginCalls) + [(email, password)]
        && storage.items == match response
          case None => old(storage.items)
          case Some(token) =>
            old(storage.items)[TOKEN_KEY := TokenItem(token)]
              [USER_KEY := UserItem(MergeLoginUser(StoredUserOr(old(storage.items), map[]), email, nowIso))]
    {
      if JsTrim(email) == [] || JsTrim(password) == [] {
        return Some(BLANK_FIELDS_MESSAGE);
      }
      loginCalls := loginCalls + [(email, password)];
      if response.None? {
        return None;
      }
      var existingUser := StoredUserOr(storage.items, map[]);
      var userData := MergeLoginUser(existingUser, email, nowIso);
      storage.SetItem(TOKEN_KEY, TokenItem(response.value));
      storage.SetItem(USER_KEY, UserItem(userData));
      return None;
    }
  }
}
