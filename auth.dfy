/**
  The browser-local user store behind the sign-in pages: a list of users who
  signed up with email and password, a list of users who signed in with
  Google, the saved-session slot, and the provider's `user` and `isLoading`
  state.

  The three storage keys are fields of the provider; JSON encoding, the
  simulated network delay and the Google sign-out call are not modelled. The
  random id of a new email user and the clock are parameters.
 */
module Auth {
  import opened Wrappers

  datatype AuthMethod = Email | Google

  /** The session user (`User`). */
  datatype User = User(
    id: string,
    email: string,
    name: string,
    createdAt: string,
    avatar: Option<string>,
    googleAccessToken: Option<string>,
    authMethod: AuthMethod)

  /** A record of the email-user list; unlike `User` it holds the password. */
  datatype StoredUser = StoredUser(id: string, name: string, email: string, password: string, createdAt: string)

  /** What the Google sign-in response provides. */
  datatype GoogleProfile = GoogleProfile(
    id: string,
    email: string,
    name: string,
    imageUrl: Option<string>,
    accessToken: Option<string>)

  /** The saved-session slot: absent, a user, or text that does not parse as one. */
  datatype SavedSession = NoSession | Saved(user: User) | Unparsable

  /** The session record built from an email user. */
  function SessionUser(u: StoredUser): User {
    User(u.id, u.email, u.name, u.createdAt, None, None, Email)
  }

  /** The session record built from a Google profile at time `now`. */
  function GoogleUserData(p: GoogleProfile, now: string): User {
    User(p.id, p.email, p.name, now, p.imageUrl, p.accessToken, Google)
  }

  predicate CredentialsMatch(u: StoredUser, email: string, password: string) {
    u.email == email && u.password == password
  }

  /** `users.find(...)` by email and password: the index of the first match. */
  function FindCredentials(users: seq<StoredUser>, email: string, password: string): (r: Option<nat>)
    ensures r.None? <==> forall j :: 0 <= j < |users| ==> !CredentialsMatch(users[j], email, password)
    ensures r.Some? ==> r.value < |users| && CredentialsMatch(users[r.value], email, password)
    ensures r.Some? ==> forall j :: 0 <= j < r.value ==> !CredentialsMatch(users[j], email, password)
    decreases |users|
  {
    if users == [] then None
    else if CredentialsMatch(users[0], email, password) then Some(0)
    else
      match FindCredentials(users[1..], email, password)
      case None => None
      case Some(k) => Some(k + 1)
  }

  /** `users.findIndex(...)` by email: the index of the first user with that email. */
  function FindEmail(users: seq<User>, email: string): (r: Option<nat>)
    ensures r.None? <==> forall j :: 0 <= j < |users| ==> users[j].email != email
    ensures r.Some? ==> r.value < |users| && users[r.value].email == email
    ensures r.Some? ==> forall j :: 0 <= j < r.value ==> users[j].email != email
    decreases |users|
  {
    if users == [] then None
    else if users[0].email == email then Some(0)
    else
      match FindEmail(users[1..], email)
      case None => None
      case Some(k) => Some(k + 1)
  }

  /** Signing up is refused when either list already holds the email. */
  predicate EmailTaken(users: seq<StoredUser>, googleUsers: seq<User>, email: string) {
    (exists u :: u in users && u.email == email) || (exists g :: g in googleUsers && g.email == email)
  }

  predicate UniqueStoredEmails(users: seq<StoredUser>) {
    forall i, j :: 0 <= i < j < |users| ==> users[i].email != users[j].email
  }

  predicate UniqueEmails(users: seq<User>) {
    forall i, j :: 0 <= i < j < |users| ==> users[i].email != users[j].email
  }

  /**
    The Google-user list after signing in as `u`: the first record with u's
    email is replaced in place, otherwise u is appended at the end. The replacement is the spread
    of the old record and u; since u sets every field, it equals u.
   */
  function Upsert(users: seq<User>, u: User): (r: seq<User>)
    ensures u in r
    ensures |r| == if exists v :: v in users && v.email == u.email then |users| else |users| + 1
    ensures forall v :: v in users && v.email != u.email ==> v in r
    ensures forall w :: w in r ==> w == u || w in users
    ensures (exists v :: v in users && v.email == u.email) ==>
      exists k :: 0 <= k < |users| && users[k].email == u.email
                  && (forall j :: 0 <= j < k ==> users[j].email != u.email)
                  && r == users[k := u]
    ensures (forall v :: v in users ==> v.email != u.email) ==> r == users + [u]
  {
    match FindEmail(users, u.email)
    case Some(k) =>
      assert users[k] in users;
      var r := users[k := u];
      assert r[k] == u;
      assert forall v :: v in users && v.email != u.email ==> v in r by {
        forall v | v in users && v.email != u.email ensures v in r {
          var j :| 0 <= j < |users| && users[j] == v;
          assert r[j] == v;
        }
      }
      r
    case None => users + [u]
  }

  /** Upserting keeps every email in the list at most once. */
  lemma UpsertKeepsEmailsUnique(users: seq<User>, u: User)
    requires UniqueEmails(users)
    ensures UniqueEmails(Upsert(users, u))
  {
    var r := Upsert(users, u);
    match FindEmail(users, u.email)
    case Some(k) =>
      assert r == users[k := u];
    case None =>
      assert r == users + [u];
  }

  /** Signing in twice with the same data leaves the list as one sign-in did. */
  lemma UpsertIdempotent(users: seq<User>, u: User)
    ensures Upsert(Upsert(users, u), u) == Upsert(users, u)
  {
    var once := Upsert(users, u);
    match FindEmail(users, u.email)
    case Some(k) =>
      assert once == users[k := u];
      assert FindEmail(once, u.email) == Some(k) by {
        assert once[k].email == u.email;
        assert forall j :: 0 <= j < k ==> once[j] == users[j] && once[j].email != u.email;
      }
    case None =>
      assert once == users + [u];
      assert FindEmail(once, u.email) == Some(|users|) by {
        assert once[|users|].email == u.email;
        assert forall j :: 0 <= j < |users| ==> once[j] == users[j] && once[j].email != u.email;
      }
      assert once[|users| := u] == once;
  }

  /** Appending a user whose email is not taken keeps the email list free of duplicates. */
  lemma SignupKeepsEmailsUnique(users: seq<StoredUser>, googleUsers: seq<User>, u: StoredUser)
    requires UniqueStoredEmails(users)
    requires !EmailTaken(users, googleUsers, u.email)
    ensures UniqueStoredEmails(users + [u])
  {
    var r := users + [u];
    forall i, j | 0 <= i < j < |r| ensures r[i].email != r[j].email {
      if j == |users| {
        assert r[i] in users;
      }
    }
  }

  class AuthProvider {
    /** The signed-in user (React state). */
    var user: Option<User>
    /** Whether a sign-in is in progress, or the saved session is still being read. */
    var isLoading: bool
    /** The saved-session slot of browser storage. */
    var savedSession: SavedSession
    /** The email-user list of browser storage. */
    var users: seq<StoredUser>
    /** The Google-user list of browser storage. */
    var googleUsers: seq<User>

    /** The provider mounts with no user, loading, over the storage it finds. */
    constructor (savedSession: SavedSession, users: seq<StoredUser>, googleUsers: seq<User>)
      ensures user == None && isLoading
      ensures this.savedSession == savedSession && this.users == users && this.googleUsers == googleUsers
    {
      user := None;
      isLoading := true;
      this.savedSession := savedSession;
      this.users := users;
      this.googleUsers := googleUsers;
    }

    /** The mount effect: adopt a saved session, drop one that does not parse, stop loading. */
    method RestoreSession()
      modifies this`user, this`savedSession, this`isLoading
      ensures !isLoading
      ensures old(savedSession).Saved? ==> user == Some(old(savedSession).user) && savedSession == old(savedSession)
      ensures old(savedSession).Unparsable? ==> user == old(user) && savedSession == NoSession
      ensures old(savedSession).NoSession? ==> user == old(user) && savedSession == NoSession
    {
      match savedSession {
        case Saved(u) =>
          user := Some(u);
        case Unparsable =>
          savedSession := NoSession;
        case NoSession =>
      }
      isLoading := false;
    }

    /**
      Signs in with email and password. Succeeds exactly when some stored
      user matches both; the session is then the first such user. A failed
      attempt changes nothing but the loading flag.
     */
    method Login(email: string, password: string) returns (ok: bool)
      modifies this`user, this`savedSession, this`isLoading
      ensures !isLoading
      ensures ok <==> exists j :: 0 <= j < |users| && CredentialsMatch(users[j], email, password)
      ensures ok ==> var k := FindCredentials(users, email, password).value;
                     user == Some(SessionUser(users[k])) && savedSession == Saved(SessionUser(users[k]))
      ensures ok ==> user.value.authMethod == Email && user.value.email == email
      ensures !ok ==> user == old(user) && savedSession == old(savedSession)
    {
      isLoading := true;
      var found := FindCredentials(users, email, password);
      if found.Some? {
        var userData := SessionUser(users[found.value]);
        user := Some(userData);
        savedSession := Saved(userData);
        isLoading := false;
        return true;
      }
      isLoading := false;
      return false;
    }

    /**
      Signs in with a Google profile (None: reading the profile threw). The
      Google-user list is upserted by email and the session becomes the
      profile's user.
     */
    method LoginWithGoogle(profile: Option<GoogleProfile>, now: string) returns (ok: bool)
      modifies this`googleUsers, this`user, this`savedSession, this`isLoading
      ensures !isLoading
      ensures ok <==> profile.Some?
      ensures ok ==> var u := GoogleUserData(profile.value, now);
                     googleUsers == Upsert(old(googleUsers), u) && user == Some(u) && savedSession == Saved(u)
      ensures !ok ==> googleUsers == old(googleUsers) && user == old(user) && savedSession == old(savedSession)
      ensures UniqueEmails(old(googleUsers)) ==> UniqueEmails(googleUsers)
    {
      isLoading := true;
      if profile.None? {
        isLoading := false;
        return false;
      }
      var userData := GoogleUserData(profile.value, now);
      var list := googleUsers;
      var existingIndex := FindEmail(list, userData.email);
      if existingIndex.Some? {
        list := list[existingIndex.value := userData];
      } else {
        list := list + [userData];
      }
      if UniqueEmails(googleUsers) {
        UpsertKeepsEmailsUnique(googleUsers, userData);
      }
      googleUsers := list;
      user := Some(userData);
      savedSession := Saved(userData);
      isLoading := false;
      return true;
    }

    /**
      Registers a new email user with the given id and creation time, unless
      either list already holds the email; on success the new user is
      appended and becomes the session.
     */
    method Signup(name: string, email: string, password: string, id: string, createdAt: string) returns (ok: bool)
      modifies this`users, this`user, this`savedSession, this`isLoading
      ensures !isLoading
      ensures ok <==> !EmailTaken(old(users), googleUsers, email)
      ensures !ok ==> users == old(users) && user == old(user) && savedSession == old(savedSession)
      ensures ok ==> var u := StoredUser(id, name, email, password, createdAt);
                     users == old(users) + [u] && user == Some(SessionUser(u)) && savedSession == Saved(SessionUser(u))
      ensures UniqueStoredEmails(old(users)) ==> UniqueStoredEmails(users)
    {
      isLoading := true;
      if EmailTaken(users, googleUsers, email) {
        isLoading := false;
        return false;
      }
      var newUser := StoredUser(id, name, email, password, createdAt);
      if UniqueStoredEmails(users) {
        SignupKeepsEmailsUnique(users, googleUsers, newUser);
      }
      users := users + [newUser];
      var userData := SessionUser(newUser);
      user := Some(userData);
      savedSession := Saved(userData);
      isLoading := false;
      return true;
    }

    /** Clears the session and the saved-session slot. */
    method Logout()
      modifies this`user, this`savedSession
      ensures user == None && savedSession == NoSession
    {
      user := None;
      savedSession := NoSession;
    }
  }
}
