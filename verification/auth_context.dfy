/** The session state of the front end
    (CSpaceFrontEnd/CSpace-app/src/context/AuthContext.js): the signed-in
    user's profile, the `loading` flag and the browser storage that keeps the
    token under the key "jwt". Each HTTP call is replaced by its outcome,
    given as an argument. */
module AuthContext {
  import opened Wrappers
  import opened Text

  const JwtKey := "jwt"
  const DefaultRole := "ROLE_CUSTOMER"

  datatype Profile = Profile(id: int, fullName: string, email: string)

  /** What the sign-in or sign-up endpoint answered: the `jwt` field may be missing. */
  datatype AuthData = AuthData(jwt: Option<string>)

  /** An HTTP call that was rejected. */
  datatype ApiError = ApiError(status: int)

  /** The provider's state: `user`, `loading` and the storage contents. */
  datatype Session = Session(user: Option<Profile>, loading: bool, storage: map<string, string>)

  /** A stored token counts only when it is there and not empty (JavaScript truthiness). */
  predicate HasToken(storage: map<string, string>) {
    JwtKey in storage && storage[JwtKey] != ""
  }

  predicate JwtPresent(data: AuthData) {
    data.jwt.Some? && data.jwt.value != ""
  }

  /** `loadUser`: the fetched profile becomes the user; a failed fetch drops
      the stored token instead. Either way loading ends. */
  function AfterLoadUser(s: Session, fetched: Option<Profile>): (t: Session)
    ensures !t.loading
    ensures fetched.Some? ==> t.user == fetched && t.storage == s.storage
    ensures fetched.None? ==> t.user == s.user && JwtKey !in t.storage
    ensures forall k :: k != JwtKey ==> (k in t.storage <==> k in s.storage)
  {
    if fetched.Some? then s.(user := fetched, loading := false)
    else s.(storage := s.storage - {JwtKey}, loading := false)
  }

  /** The start-up effect: with a stored token the profile is loaded, without
      one loading just ends. */
  function AfterStartup(s: Session, fetched: Option<Profile>): (t: Session)
    ensures !t.loading
  {
    if HasToken(s.storage) then AfterLoadUser(s, fetched) else s.(loading := false)
  }

  /** `login` and `register` after the request: a rejected request changes
      nothing (the error is passed on); an answer with a token stores it and
      loads the profile; an answer without one changes nothing. */
  function AfterAuth(s: Session, response: Result<AuthData, ApiError>, fetched: Option<Profile>): (t: Session)
  {
    if response.Success? && JwtPresent(response.value) then
      AfterLoadUser(s.(storage := s.storage[JwtKey := response.value.jwt.value]), fetched)
    else s
  }

  /** `logout`: the token is removed and the user cleared. */
  function AfterLogout(s: Session): (t: Session)
    ensures t.user.None? && JwtKey !in t.storage && t.loading == s.loading
    ensures forall k :: k != JwtKey ==> (k in t.storage <==> k in s.storage)
  {
    s.(storage := s.storage - {JwtKey}, user := None)
  }

  /** At start-up without a token no profile is fetched: the outcome of a
      fetch cannot matter, and the user and storage stay as they are. */
  lemma StartupWithoutToken(s: Session, a: Option<Profile>, b: Option<Profile>)
    requires !HasToken(s.storage)
    ensures AfterStartup(s, a) == AfterStartup(s, b) == s.(loading := false)
  {
  }

  /** A rejected sign-in or sign-up leaves the state exactly as it was. */
  lemma AuthFailureChangesNothing(s: Session, e: ApiError, fetched: Option<Profile>)
    ensures AfterAuth(s, Failure(e), fetched) == s
  {
  }

  /** The token is written only when the answer carries one: otherwise the
      state is unchanged; with one, a successful profile fetch keeps it
      stored and signs the user in, and a failed fetch removes it again. */
  lemma AuthStoresTokenOnlyWithJwt(s: Session, data: AuthData, fetched: Option<Profile>)
    ensures !JwtPresent(data) ==> AfterAuth(s, Success(data), fetched) == s
    ensures JwtPresent(data) && fetched.Some? ==>
      var t := AfterAuth(s, Success(data), fetched);
      JwtKey in t.storage && t.storage[JwtKey] == data.jwt.value && t.user == fetched && !t.loading
    ensures JwtPresent(data) && fetched.None? ==>
      var t := AfterAuth(s, Success(data), fetched);
      JwtKey !in t.storage && t.user == s.user && !t.loading
  {
  }

  /** Logging out twice is the same as logging out once. */
  lemma LogoutIdempotent(s: Session)
    ensures AfterLogout(AfterLogout(s)) == AfterLogout(s)
  {
  }

  /** The `userData` argument of `register`. */
  datatype UserData = UserData(fullName: string, email: string, password: string, role: Option<string>)

  /** The body `register` sends: the name trimmed, the e-mail trimmed and
      then lower-cased, the password as typed, and the customer role when no
      role (or an empty one) was given. */
  function RegistrationData(u: UserData): (r: UserData)
    ensures r.fullName == Trim(u.fullName) && r.email == Lower(Trim(u.email))
    ensures IsTrimmed(r.fullName) && IsTrimmed(r.email)
    ensures r.password == u.password
    ensures u.role.Some? && u.role.value != "" ==> r.role == u.role
    ensures u.role.None? || u.role == Some("") ==> r.role == Some(DefaultRole)
    ensures NoUpperCase(r.email)
  {
    var email := Trim(u.email);
    LowerKeepsTrimmed(email);
    LowerHasNoUpperCase(email);
    UserData(Trim(u.fullName), Lower(email), u.password,
             if u.role.Some? && u.role.value != "" then u.role else Some(DefaultRole))
  }

  /** No ASCII upper-case letter occurs in `s`. */
  predicate NoUpperCase(s: string) {
    forall i :: 0 <= i < |s| ==> !('A' <= s[i] <= 'Z')
  }

  lemma LowerHasNoUpperCase(s: string)
    ensures NoUpperCase(Lower(s))
  {
    var l := Lower(s);
    forall i | 0 <= i < |l| ensures !('A' <= l[i] <= 'Z') {
      assert l[i] == LowerChar(s[i]);
    }
  }

  /** Lower-casing turns no character into white space and no white space
      into anything else. */
  lemma LowerCharWhitespace(c: char)
    ensures IsWhitespace(LowerChar(c)) == IsWhitespace(c)
  {
  }

  lemma LowerKeepsTrimmed(s: string)
    requires IsTrimmed(s)
    ensures IsTrimmed(Lower(s))
  {
    if s != [] {
      var l := Lower(s);
      assert l[0] == LowerChar(s[0]) && l[|l| - 1] == LowerChar(s[|s| - 1]);
      LowerCharWhitespace(s[0]);
      LowerCharWhitespace(s[|s| - 1]);
    }
  }

  /** A string without upper-case letters is its own lower-case form. */
  lemma LowerOfLower(s: string)
    requires NoUpperCase(s)
    ensures Lower(s) == s
  {
    var l := Lower(s);
    forall i | 0 <= i < |s| ensures l[i] == s[i] {
      assert l[i] == LowerChar(s[i]);
    }
  }

  /** Normalising registration data a second time changes nothing. */
  lemma RegistrationDataIdempotent(u: UserData)
    ensures RegistrationData(RegistrationData(u)) == RegistrationData(u)
  {
    var r := RegistrationData(u);
    TrimIdempotent(r.fullName);
    TrimIdempotent(r.email);
    LowerOfLower(r.email);
    var r2 := RegistrationData(r);
    assert r2.fullName == Trim(r.fullName) == r.fullName;
    assert r2.email == Lower(Trim(r.email)) == r.email;
    assert r2.role == r.role;
  }

  lemma TrimIdempotent(s: string)
    requires IsTrimmed(s)
    ensures Trim(s) == s
  {
    if s != [] {
      TrimOfTrimmed(s, "");
      assert "" + s == s;
    }
  }

  /** The provider as a stateful object: each operation updates the state as
      the corresponding function above says. */
  class AuthProvider {
    var user: Option<Profile>
    var loading: bool
    var storage: map<string, string>

    function State(): Session
      reads this
    {
      Session(user, loading, storage)
    }

    /** The provider mounts with no user, loading, over the browser's storage. */
    constructor(initialStorage: map<string, string>)
      ensures State() == Session(None, true, initialStorage)
    {
      user := None;
      loading := true;
      storage := initialStorage;
    }

    method LoadUser(fetched: Option<Profile>)
      modifies this
      ensures State() == AfterLoadUser(old(State()), fetched)
    {
      if fetched.Some? {
        user := fetched;
      } else {
        storage := storage - {JwtKey};
      }
      loading := false;
    }

    method Startup(fetched: Option<Profile>)
      modifies this
      ensures State() == AfterStartup(old(State()), fetched)
    {
      var token := if JwtKey in storage then Some(storage[JwtKey]) else None;
      if token.Some? && token.value != "" {
        LoadUser(fetched);
      } else {
        loading := false;
      }
    }

    /** `login`: the answer is returned, or the rejection passed on, unchanged. */
    method Login(email: string, password: string, response: Result<AuthData, ApiError>, fetched: Option<Profile>)
      returns (result: Result<AuthData, ApiError>)
      modifies this
      ensures result == response
      ensures State() == AfterAuth(old(State()), response, fetched)
    {
      if response.Failure? {
        return response;
      }
      var data := response.value;
      if data.jwt.Some? && data.jwt.value != "" {
        storage := storage[JwtKey := data.jwt.value];
        LoadUser(fetched);
      }
      return response;
    }

    /** `register`: sends the normalised data, then follows the same rule as `login`. */
    method Register(userData: UserData, response: Result<AuthData, ApiError>, fetched: Option<Profile>)
      returns (sent: UserData, result: Result<AuthData, ApiError>)
      modifies this
      ensures sent == RegistrationData(userData)
      ensures result == response
      ensures State() == AfterAuth(old(State()), response, fetched)
    {
      sent := RegistrationData(userData);
      if response.Failure? {
        return sent, response;
      }
      var data := response.value;
      if data.jwt.Some? && data.jwt.value != "" {
        storage := storage[JwtKey := data.jwt.value];
        LoadUser(fetched);
      }
      return sent, response;
    }

    method Logout()
      modifies this
      ensures State() == AfterLogout(old(State()))
    {
      storage := storage - {JwtKey};
      user := None;
    }
  }
}
