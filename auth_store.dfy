/** The frontend's auth store (frontend/src/store/authStore.ts): a zustand store with
    four fields whose token is mirrored under the `authToken` key of `localStorage`. */
module AuthStore {
  import opened Wrappers

  const AuthTokenKey := "authToken"

  /** The `User` of the frontend's types. */
  datatype User = User(id: nat, email: string, displayName: string, avatarUrl: Option<string>)

  /** Two storages agree on every key but `authToken`. */
  ghost predicate SameOffAuthToken(m1: map<string, string>, m2: map<string, string>) {
    forall k :: k != AuthTokenKey ==> (k in m1 <==> k in m2) && (k in m1 ==> m1[k] == m2[k])
  }

  /** The browser's `localStorage`. */
  class LocalStorage {
    var items: map<string, string>

    constructor (items: map<string, string>)
      ensures this.items == items
    {
      this.items := items;
    }

    /** `getItem(key)`: the stored string, or null. */
    function GetItem(key: string): (v: Option<string>)
      reads this
      ensures v.Some? <==> key in items
      ensures v.Some? ==> v.value == items[key]
    {
      if key in items then Some(items[key]) else None
    }

    method SetItem(key: string, value: string)
      modifies this
      ensures items == old(items)[key := value]
    {
      items := items[key := value];
    }

    method RemoveItem(key: string)
      modifies this
      ensures items == old(items) - {key}
    {
      items := items - {key};
    }
  }

  /** `useAuthStore`: the state and the storage it mirrors its token into. */
  class Store {
    const storage: LocalStorage
    var user: Option<User>
    var token: Option<string>
    var isLoading: bool
    var error: Option<string>

    /** The token in the state is kept in storage exactly when it is a non-empty
        string, under `authToken`. */
    ghost predicate InSync()
      reads this, storage
    {
      && (AuthTokenKey in storage.items <==> Truthy(token))
      && (AuthTokenKey in storage.items ==> token == Some(storage.items[AuthTokenKey]))
    }

    /** The state after `logout`. */
    ghost predicate LoggedOut()
      reads this, storage
    {
      user.None? && token.None? && AuthTokenKey !in storage.items
    }

    /** The initial state: no user, not loading, no error, and the token read back
        from storage. */
    constructor (storage: LocalStorage)
      ensures this.storage == storage
      ensures user.None? && !isLoading && error.None?
      ensures token == storage.GetItem(AuthTokenKey)
      ensures (AuthTokenKey in storage.items ==> storage.items[AuthTokenKey] != "") ==> InSync()
    {
      this.storage := storage;
      user := None;
      token := storage.GetItem(AuthTokenKey);
      isLoading := false;
      error := None;
    }

    method SetUser(user: Option<User>)
      modifies this
      ensures this.user == user
      ensures token == old(token) && isLoading == old(isLoading) && error == old(error)
      ensures old(InSync()) ==> InSync()
    {
      this.user := user;
    }

    /** `setToken(token)`: a non-empty token is written to storage, anything else
        removes the key; the state takes the argument as given. */
    method SetToken(token: Option<string>)
      modifies this, storage
      ensures this.token == token
      ensures user == old(user) && isLoading == old(isLoading) && error == old(error)
      ensures storage.items == if Truthy(token) then old(storage.items)[AuthTokenKey := token.value]
                               else old(storage.items) - {AuthTokenKey}
      ensures SameOffAuthToken(storage.items, old(storage.items))
      ensures InSync()
    {
      if Truthy(token) {
        storage.SetItem(AuthTokenKey, token.value);
      } else {
        storage.RemoveItem(AuthTokenKey);
      }
      this.token := token;
    }

    method SetLoading(isLoading: bool)
      modifies this
      ensures this.isLoading == isLoading
      ensures user == old(user) && token == old(token) && error == old(error)
      ensures old(InSync()) ==> InSync()
    {
      this.isLoading := isLoading;
    }

    method SetError(error: Option<string>)
      modifies this
      ensures this.error == error
      ensures user == old(user) && token == old(token) && isLoading == old(isLoading)
      ensures old(InSync()) ==> InSync()
    {
      this.error := error;
    }

    /** `logout()`: drop the stored token, clear user and token; loading and error
        stay. Logging out a logged-out store changes nothing. */
    method Logout()
      modifies this, storage
      ensures LoggedOut() && InSync()
      ensures isLoading == old(isLoading) && error == old(error)
      ensures storage.items == old(storage.items) - {AuthTokenKey}
      ensures SameOffAuthToken(storage.items, old(storage.items))
      ensures old(LoggedOut()) ==> user == old(user) && token == old(token) && storage.items == old(storage.items)
    {
      storage.RemoveItem(AuthTokenKey);
      user, token := None, None;
    }
  }
}
