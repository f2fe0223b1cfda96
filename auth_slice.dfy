/** `src/store/authSlice.store.js`: the signed-in user, with the copy kept
    in `localStorage` under the key "user" as a ghost field. */
module AuthSlice {
  import opened Wrappers

  /** The user object dispatched on login. */
  datatype User = User(uid: string, email: string, displayName: Option<string>)

  /** The authentication slice of the store. */
  class AuthStore {
    var user: Option<User>
    var loading: bool
    var error: Option<string>
    /** The value of `localStorage["user"]`; `None` when the key is absent. */
    ghost var storedUser: Option<User>

    /** The stored user and the user in memory never disagree. */
    ghost predicate Valid()
      reads this
    {
      storedUser == user
    }

    /** The initial state: the stored user, if any, not loading, no error. */
    constructor(stored: Option<User>)
      ensures Valid()
      ensures user == stored && storedUser == stored && !loading && error == None
    {
      user := stored;
      storedUser := stored;
      loading := false;
      error := None;
    }

    /** `loginStart`. */
    method LoginStart()
      modifies this
      ensures loading && error == None
      ensures user == old(user) && storedUser == old(storedUser)
      ensures old(Valid()) ==> Valid()
    {
      loading := true;
      error := None;
    }

    /** `loginSuccess`: the user is kept in memory and in storage; the error is left as it was. */
    method LoginSuccess(payload: User)
      modifies this
      ensures !loading && user == Some(payload) && storedUser == Some(payload)
      ensures error == old(error)
      ensures Valid()
    {
      loading := false;
      user := Some(payload);
      storedUser := Some(payload);
    }

    /** `loginFailure`. */
    method LoginFailure(message: string)
      modifies this
      ensures !loading && error == Some(message)
      ensures user == old(user) && storedUser == old(storedUser)
      ensures old(Valid()) ==> Valid()
    {
      loading := false;
      error := Some(message);
    }

    /** `logout`: forgets the user in memory and in storage; loading is left as it was. */
    method Logout()
      modifies this
      ensures user == None && error == None && storedUser == None
      ensures loading == old(loading)
      ensures Valid()
    {
      user := None;
      error := None;
      storedUser := None;
    }
  }
}
