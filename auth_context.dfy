/**
 * The authentication context: the `token` and `userData` entries of local storage, the
 * `user` and `loading` state, the extraction of a user from a `/me` response, the
 * retry-on-error rule, and login, registration and logout.
 */
module AuthContext {
  import opened Wrappers
  import opened CinemaTypes
  import opened JsText

  /**
   * A value found under a key of the `/me` response: nothing usable (absent, falsy or not an
   * object), or an object. `complete` says whether it has all of `id`, `email`, `name` and
   * `role`; `user` is what it reads as when it has.
   */
  datatype Field = NoObject | Object(complete: bool, user: User)

  /**
   * The resolved `/me` response: not an object at all, or an object with its `data` and `user`
   * keys and its own shape (whether the response itself has the four user keys).
   */
  datatype MeResponse = NotAnObject | MeObject(data: Field, userKey: Field, itself: Field)

  /**
   * The user a `/me` response carries. An object `data` decides alone; otherwise an object
   * `user` decides; otherwise the response itself, when it has the four keys.
   */
  function ExtractUser(resp: MeResponse): (u: Option<User>)
    ensures resp.NotAnObject? ==> u.None?
    ensures resp.MeObject? && resp.data.Object? ==>
              u == if resp.data.complete then Some(resp.data.user) else None
    ensures resp.MeObject? && resp.data.NoObject? && resp.userKey.Object? ==>
              u == if resp.userKey.complete then Some(resp.userKey.user) else None
    ensures u.Some? ==>
              (resp.MeObject? &&
               ((resp.data.Object? && resp.data.complete && u.value == resp.data.user) ||
                (resp.userKey.Object? && resp.userKey.complete && u.value == resp.userKey.user) ||
                (resp.itself.Object? && resp.itself.complete && u.value == resp.itself.user)))
  {
    match resp
    case NotAnObject => None
    case MeObject(data, userKey, itself) =>
      if data.Object? then (if data.complete then Some(data.user) else None)
      else if userKey.Object? then (if userKey.complete then Some(userKey.user) else None)
      else if itself.Object? && itself.complete then Some(itself.user)
      else None
  }

  /** An incomplete `data` object yields no user, even when `user` is a complete user. */
  lemma IncompleteDataHidesUser(u: User, d: User, itself: Field)
    ensures ExtractUser(MeObject(Object(false, d), Object(true, u), itself)).None?
  {
  }

  /** With no `data` and no `user` object, a response with the four keys is itself the user. */
  lemma BareUserResponse(u: User)
    ensures ExtractUser(MeObject(NoObject, NoObject, Object(true, u))) == Some(u)
  {
  }

  /** How a `/me` request ends: a response, or an error with the HTTP status it carries, if any. */
  datatype MeOutcome = Answered(response: MeResponse) | Failed(status: Option<int>)

  /** An error that is retried: any failure other than a 401. */
  predicate Retryable(o: MeOutcome) {
    o.Failed? && o.status != Some(401)
  }

  /**
   * The attempt whose outcome sticks, when attempt `k` is made and `me(j)` is the outcome of
   * attempt `j`: errors other than 401 are retried while the attempt number is below `maxRetries`.
   */
  function FinalAttempt(me: nat -> MeOutcome, maxRetries: int, k: nat): (last: nat)
    ensures k <= last <= Max(k, maxRetries)
    ensures forall j :: k <= j < last ==> Retryable(me(j))
    ensures !(Retryable(me(last)) && last < maxRetries)
    decreases Max(maxRetries - k, 0)
  {
    if Retryable(me(k)) && k < maxRetries then FinalAttempt(me, maxRetries, k + 1) else k
  }

  /** Counting the first, a fetch started at retry count 0 makes at most `maxRetries + 1` requests (3 by default). */
  lemma AttemptsBounded(me: nat -> MeOutcome, maxRetries: nat)
    ensures FinalAttempt(me, maxRetries, 0) + 1 <= maxRetries + 1
    ensures FinalAttempt(me, 2, 0) + 1 <= 3
  {
  }

  /** A 401 is never retried. */
  lemma UnauthorizedNotRetried(me: nat -> MeOutcome, maxRetries: int, k: nat)
    requires me(k) == Failed(Some(401))
    ensures FinalAttempt(me, maxRetries, k) == k
  {
  }

  /** The wait before retry number `retryCount + 1`, in milliseconds. */
  function RetryDelay(retryCount: nat): (ms: nat)
    ensures ms >= 1000
  {
    1000 * (retryCount + 1)
  }

  /** The waits grow by one second per retry: 1s, then 2s with the default limit. */
  lemma RetryDelaysGrow(retryCount: nat)
    ensures RetryDelay(retryCount + 1) == RetryDelay(retryCount) + 1000
    ensures RetryDelay(0) == 1000 && RetryDelay(1) == 2000
  {
  }

  /** The `userData` entry: a user serialized by `updateUser`, or text that does not parse as one. */
  datatype CachedUser = Serialized(user: User) | Unparsable(raw: string)

  /** `if (cachedUser)`: only the empty string is falsy. */
  predicate TruthyCache(c: Option<CachedUser>) {
    c.Some? && (c.value.Serialized? || c.value.raw != "")
  }

  /** The storage entries and the user state the context keeps. */
  datatype AuthState = AuthState(token: Option<string>, userData: Option<CachedUser>, user: Option<User>)

  /**
   * What the outcome of the attempt that sticks does: an extracted user is stored; a response
   * without one, or a 401, removes `token` and `userData` (the `user` state is left as it was);
   * a last non-401 error changes nothing.
   */
  function AfterMe(s: AuthState, o: MeOutcome): (t: AuthState)
    ensures o.Answered? && ExtractUser(o.response).Some? ==>
              t == AuthState(s.token, Some(Serialized(ExtractUser(o.response).value)), ExtractUser(o.response))
    ensures (o.Answered? && ExtractUser(o.response).None?) || o == Failed(Some(401)) ==>
              t == AuthState(None, None, s.user)
    ensures Retryable(o) ==> t == s
  {
    match o
    case Answered(resp) =>
      var u := ExtractUser(resp);
      if u.Some? then AuthState(s.token, Some(Serialized(u.value)), u) else s.(token := None, userData := None)
    case Failed(status) =>
      if status == Some(401) then s.(token := None, userData := None) else s
  }

  /** After a request, a stored token is always accompanied by a user or by an unchanged state. */
  lemma AfterMeNeverInventsToken(s: AuthState, o: MeOutcome)
    ensures AfterMe(s, o).token.Some? ==> AfterMe(s, o).token == s.token
    ensures AfterMe(s, o).user != s.user ==> AfterMe(s, o).user.Some? && AfterMe(s, o).userData == Some(Serialized(AfterMe(s, o).user.value))
  {
  }

  /** How `login` or `register` ends: a response with `access_token` and perhaps `user`, or an error. */
  datatype SignInOutcome = SignedIn(accessToken: string, user: Option<User>) | SignInFailed

  class AuthStore {
    var token: Option<string>
    var userData: Option<CachedUser>
    var user: Option<User>
    var loading: bool

    function State(): AuthState
      reads this
    {
      AuthState(token, userData, user)
    }

    /** Whatever local storage holds at start-up, with no user and `loading` set. */
    constructor (storedToken: Option<string>, storedUserData: Option<CachedUser>)
      ensures token == storedToken && userData == storedUserData
      ensures user.None? && loading
    {
      token := storedToken;
      userData := storedUserData;
      user := None;
      loading := true;
    }

    /** `updateUser`: set the user, caching it, or removing the cache for no user. */
    method UpdateUser(u: Option<User>)
      modifies this
      ensures user == u
      ensures userData == if u.Some? then Some(Serialized(u.value)) else None
      ensures token == old(token) && loading == old(loading)
    {
      user := u;
      userData := if u.Some? then Some(Serialized(u.value)) else None;
    }

    /**
     * `fetchUserDataFromApi` at retry count `retryCount`, where `me(j)` is the outcome of attempt
     * `j`. Returns how many requests were made, this one included.
     */
    method FetchUserDataFromApi(me: nat -> MeOutcome, maxRetries: int, retryCount: nat) returns (requests: nat)
      modifies this
      ensures requests == FinalAttempt(me, maxRetries, retryCount) - retryCount + 1
      ensures State() == AfterMe(old(State()), me(FinalAttempt(me, maxRetries, retryCount)))
      ensures loading == old(loading)
      decreases Max(maxRetries - retryCount, 0)
    {
      var outcome := me(retryCount);
      match outcome
      case Answered(resp) =>
        var u := ExtractUser(resp);
        if u.Some? {
          UpdateUser(u);
        } else {
          token := None;
          userData := None;
        }
        requests := 1;
      case Failed(status) =>
        if status == Some(401) {
          token := None;
          userData := None;
          requests := 1;
        } else if retryCount < maxRetries {
          var more := FetchUserDataFromApi(me, maxRetries, retryCount + 1);
          requests := more + 1;
        } else {
          requests := 1;
        }
    }

    /**
     * `fetchUserData`: without a token, stop loading and ask nothing. A readable cached user is
     * shown at once and refreshed; an unreadable cache is dropped before asking the server.
     */
    method FetchUserData(me: nat -> MeOutcome, maxRetries: int) returns (requests: nat)
      modifies this
      ensures !loading
      ensures !TruthyString(old(token)) ==> requests == 0 && State() == old(State())
      ensures TruthyString(old(token)) ==> requests == FinalAttempt(me, maxRetries, 0) + 1
      ensures TruthyString(old(token)) && TruthyCache(old(userData)) && old(userData).value.Serialized? ==>
                State() == AfterMe(AuthState(old(token), old(userData), Some(old(userData).value.user)),
                                   me(FinalAttempt(me, maxRetries, 0)))
      ensures TruthyString(old(token)) && TruthyCache(old(userData)) && old(userData).value.Unparsable? ==>
                State() == AfterMe(AuthState(old(token), None, old(user)), me(FinalAttempt(me, maxRetries, 0)))
      ensures TruthyString(old(token)) && !TruthyCache(old(userData)) ==>
                State() == AfterMe(old(State()), me(FinalAttempt(me, maxRetries, 0)))
    {
      if !TruthyString(token) {
        loading := false;
        requests := 0;
        return;
      }
      if TruthyCache(userData) {
        match userData.value
        case Serialized(u) =>
          user := Some(u);
          loading := false;
          requests := FetchUserDataFromApi(me, maxRetries, 0);
          return;
        case Unparsable(_) =>
          userData := None;
      }
      requests := FetchUserDataFromApi(me, maxRetries, 0);
      loading := false;
    }

    /** `login` and `register`: keep the access token, and the user when the response has one. */
    method SignIn(outcome: SignInOutcome) returns (ok: bool)
      modifies this
      ensures ok <==> outcome.SignedIn?
      ensures outcome.SignInFailed? ==> State() == old(State())
      ensures outcome.SignedIn? ==> token == Some(outcome.accessToken)
      ensures outcome.SignedIn? && outcome.user.Some? ==>
                user == outcome.user && userData == Some(Serialized(outcome.user.value))
      ensures outcome.SignedIn? && outcome.user.None? ==> user == old(user) && userData == old(userData)
      ensures loading == old(loading)
    {
      ok := outcome.SignedIn?;
      if ok {
        token := Some(outcome.accessToken);
        if outcome.user.Some? {
          UpdateUser(outcome.user);
        }
      }
    }

    /** `logout`: whether or not the server call fails, token, cache and user are all cleared. */
    method Logout()
      modifies this
      ensures token.None? && userData.None? && user.None?
      ensures loading == old(loading)
    {
      token := None;
      userData := None;
      UpdateUser(None);
    }
  }
}
