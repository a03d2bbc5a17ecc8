/** The account rules of the authentication service: registration with a password,
    password login, and GitHub login with its lookup, linking and creation of users.

    The user table is a sequence whose positions are the user ids. Password hashing and
    comparison (bcrypt) are the opaque functions `hash` and `compare`; a token is the
    claims and lifetime it is signed with, since signing itself (jwt) is opaque. */
module AuthService {
  import opened Options

  // ---------------------------------------------------------------------------
  // Users and tokens
  // ---------------------------------------------------------------------------

  datatype User = User(
    id: nat,
    email: string,
    passwordHash: Option<string>,
    name: Option<string>,
    githubId: Option<string>,
    githubUsername: Option<string>,
    profileImage: Option<string>)

  /** A user as returned to clients: every field but the password hash. */
  datatype PublicUser = PublicUser(
    id: nat,
    email: string,
    name: Option<string>,
    githubId: Option<string>,
    githubUsername: Option<string>,
    profileImage: Option<string>)

  /** `omitPassword`: drops the password hash and keeps every other field. */
  function OmitPassword(u: User): PublicUser {
    PublicUser(u.id, u.email, u.name, u.githubId, u.githubUsername, u.profileImage)
  }

  /** Puts a password hash back on a public user; the inverse of `OmitPassword`. */
  function WithPassword(p: PublicUser, passwordHash: Option<string>): User {
    User(p.id, p.email, passwordHash, p.name, p.githubId, p.githubUsername, p.profileImage)
  }

  /** `omitPassword` removes exactly the password hash: putting it back gives the user, and
      users differing only in their hash look the same. */
  lemma OmitPasswordExactly(u: User, h: Option<string>)
    ensures WithPassword(OmitPassword(u), u.passwordHash) == u
    ensures OmitPassword(u.(passwordHash := h)) == OmitPassword(u)
    ensures OmitPassword(WithPassword(OmitPassword(u), h)) == OmitPassword(u)
  {
  }

  /** The claims and lifetime a token is signed with. */
  datatype Token = Token(sub: nat, teamId: Option<string>, expiresIn: string)

  datatype Tokens = Tokens(accessToken: Token, refreshToken: Token)

  /** `generateTokens`: an access token carrying the user and team for 15 minutes, and a
      refresh token carrying the user only for 7 days. */
  function GenerateTokens(userId: nat, teamId: Option<string>): (t: Tokens)
    ensures t.accessToken.sub == userId && t.refreshToken.sub == userId
    ensures t.accessToken.teamId == teamId && t.refreshToken.teamId.None?
    ensures t.accessToken.expiresIn == "15m" && t.refreshToken.expiresIn == "7d"
  {
    Tokens(Token(userId, teamId, "15m"), Token(userId, None, "7d"))
  }

  /** What a call answers: the public user with a token pair, or the thrown message. */
  datatype AuthResult = Success(user: PublicUser, tokens: Tokens) | Failure(message: string)

  /** Every successful call answers with the user's public fields and tokens for its id,
      without a team. */
  function Answer(u: User): AuthResult {
    Success(OmitPassword(u), GenerateTokens(u.id, None))
  }

  // ---------------------------------------------------------------------------
  // The user table
  // ---------------------------------------------------------------------------

  /** Ids are positions; emails are unique, and so are the GitHub ids that are set. */
  ghost predicate ValidTable(users: seq<User>) {
    && (forall i :: 0 <= i < |users| ==> users[i].id == i)
    && (forall i, j :: 0 <= i < j < |users| ==> users[i].email != users[j].email)
    && (forall i, j :: 0 <= i < j < |users| && users[i].githubId.Some? ==> users[i].githubId != users[j].githubId)
  }

  /** `findUnique({ where: { email } })`: the position of the user with that email. */
  function FindByEmail(users: seq<User>, email: string): (r: Option<nat>)
    ensures r.Some? ==> r.value < |users| && users[r.value].email == email
    ensures r.None? <==> forall i :: 0 <= i < |users| ==> users[i].email != email
  {
    if users == [] then None
    else if users[|users| - 1].email == email then Some(|users| - 1)
    else FindByEmail(users[..|users| - 1], email)
  }

  /** `findUnique({ where: { githubId } })`. */
  function FindByGithubId(users: seq<User>, githubId: string): (r: Option<nat>)
    ensures r.Some? ==> r.value < |users| && users[r.value].githubId == Some(githubId)
    ensures r.None? <==> forall i :: 0 <= i < |users| ==> users[i].githubId != Some(githubId)
  {
    if users == [] then None
    else if users[|users| - 1].githubId == Some(githubId) then Some(|users| - 1)
    else FindByGithubId(users[..|users| - 1], githubId)
  }

  /** The table after a call, and what the call answers. */
  datatype Outcome = Outcome(users: seq<User>, result: AuthResult)

  // ---------------------------------------------------------------------------
  // register
  // ---------------------------------------------------------------------------

  /** The user `register` creates: the next id, the hash of the password, no GitHub link. */
  function Registered(id: nat, email: string, password: string, name: Option<string>, hash: string -> string): User {
    User(id, email, Some(hash(password)), name, None, None, None)
  }

  function RegisterOutcome(users: seq<User>, email: string, password: string, name: Option<string>,
                           hash: string -> string): Outcome
  {
    if FindByEmail(users, email).Some? then Outcome(users, Failure("User already exists"))
    else
      var u := Registered(|users|, email, password, name, hash);
      Outcome(users + [u], Answer(u))
  }

  /** Registering a taken email throws `User already exists` and leaves the table as it was;
      otherwise exactly one user is added, holding the hash of the password and never the
      password itself (unless the hash happens to equal it), and the answer omits the hash. */
  lemma RegisterRules(users: seq<User>, email: string, password: string, name: Option<string>, hash: string -> string)
    ensures var o := RegisterOutcome(users, email, password, name, hash);
      (exists i :: 0 <= i < |users| && users[i].email == email) <==> o.result.Failure?
    ensures var o := RegisterOutcome(users, email, password, name, hash);
      o.result.Failure? ==> o.users == users && o.result.message == "User already exists"
    ensures var o := RegisterOutcome(users, email, password, name, hash);
      o.result.Success? ==>
        && |o.users| == |users| + 1 && o.users[..|users|] == users
        && o.users[|users|].email == email && o.users[|users|].name == name
        && o.users[|users|].passwordHash == Some(hash(password))
        && o.result.user == OmitPassword(o.users[|users|])
        && o.result.tokens == GenerateTokens(|users|, None)
  {
    var o := RegisterOutcome(users, email, password, name, hash);
    if FindByEmail(users, email).None? {
      assert o.users[..|users|] == users;
    }
  }

  /** Registration keeps ids as positions and emails and GitHub ids unique. */
  lemma RegisterKeepsTable(users: seq<User>, email: string, password: string, name: Option<string>, hash: string -> string)
    requires ValidTable(users)
    ensures ValidTable(RegisterOutcome(users, email, password, name, hash).users)
  {
  }

  // ---------------------------------------------------------------------------
  // login
  // ---------------------------------------------------------------------------

  /** A stored hash JavaScript treats as present: set and not the empty string. */
  predicate HasPassword(u: User) {
    u.passwordHash.Some? && u.passwordHash.value != ""
  }

  /** `login`: unknown email, a user without a password (none, or an empty hash), and a
      wrong password all throw the same message. */
  function LoginOutcome(users: seq<User>, email: string, password: string, compare: (string, string) -> bool): AuthResult {
    var i := FindByEmail(users, email);
    if i.None? || !HasPassword(users[i.value]) then Failure("Invalid credentials")
    else if !compare(password, users[i.value].passwordHash.value) then Failure("Invalid credentials")
    else Answer(users[i.value])
  }

  /** Login succeeds exactly for a stored user with that email, a non-empty password hash,
      and a password that matches it; every failure carries the one message. */
  lemma LoginRules(users: seq<User>, email: string, password: string, compare: (string, string) -> bool)
    requires ValidTable(users)
    ensures LoginOutcome(users, email, password, compare).Success? <==>
      exists i :: 0 <= i < |users| && users[i].email == email && users[i].passwordHash.Some? &&
        users[i].passwordHash.value != "" && compare(password, users[i].passwordHash.value)
    ensures LoginOutcome(users, email, password, compare).Failure? ==>
      LoginOutcome(users, email, password, compare).message == "Invalid credentials"
    ensures forall i :: 0 <= i < |users| && users[i].email == email && LoginOutcome(users, email, password, compare).Success? ==>
      LoginOutcome(users, email, password, compare) == Answer(users[i])
  {
    var r := FindByEmail(users, email);
    if r.Some? {
      forall i | 0 <= i < |users| && users[i].email == email
        ensures i == r.value
      {
      }
    }
  }

  /** Whoever registers can log in with the same password, provided the comparison accepts
      a password against its own hash; a hash function answering the empty string would
      lock the new user out. */
  lemma RegisterThenLogin(users: seq<User>, email: string, password: string, name: Option<string>,
                          hash: string -> string, compare: (string, string) -> bool)
    requires ValidTable(users)
    requires FindByEmail(users, email).None?
    ensures var o := RegisterOutcome(users, email, password, name, hash);
      hash(password) != "" && compare(password, hash(password)) ==> LoginOutcome(o.users, email, password, compare) == o.result
    ensures var o := RegisterOutcome(users, email, password, name, hash);
      hash(password) == "" ==> LoginOutcome(o.users, email, password, compare) == Failure("Invalid credentials")
  {
    var o := RegisterOutcome(users, email, password, name, hash);
    RegisterKeepsTable(users, email, password, name, hash);
    var i := FindByEmail(o.users, email);
    assert o.users[|users|].email == email;
    assert i.Some?;
  }

  // ---------------------------------------------------------------------------
  // githubLogin
  // ---------------------------------------------------------------------------

  /** The passport GitHub profile; absent `emails` or `photos` are empty lists. */
  datatype GitHubProfile = GitHubProfile(id: string, username: string, displayName: string,
                                         emails: seq<string>, photos: seq<string>)

  /** The first public email, else the GitHub no-reply address of the account. */
  function GithubEmail(profile: GitHubProfile): (email: string)
    ensures |profile.emails| > 0 && profile.emails[0] != "" ==> email == profile.emails[0]
    ensures !(|profile.emails| > 0 && profile.emails[0] != "") ==> email == profile.id + "@users.noreply.github.com"
  {
    if |profile.emails| > 0 && profile.emails[0] != "" then profile.emails[0]
    else profile.id + "@users.noreply.github.com"
  }

  /** `profile.photos?.[0]?.value`. */
  function FirstPhoto(profile: GitHubProfile): Option<string> {
    if |profile.photos| > 0 then Some(profile.photos[0]) else None
  }

  /** The update linking an email user to a GitHub account; a missing photo leaves the
      profile image as it was. */
  function Linked(u: User, profile: GitHubProfile): User {
    u.(githubId := Some(profile.id), githubUsername := Some(profile.username),
       profileImage := if FirstPhoto(profile).Some? then FirstPhoto(profile) else u.profileImage)
  }

  /** The user created for a GitHub account not seen before; it has no password. */
  function Created(id: nat, profile: GitHubProfile): User {
    User(id, GithubEmail(profile), None,
         Some(if profile.displayName != "" then profile.displayName else profile.username),
         Some(profile.id), Some(profile.username), FirstPhoto(profile))
  }

  function GithubLoginOutcome(users: seq<User>, profile: GitHubProfile): Outcome {
    var byGithub := FindByGithubId(users, profile.id);
    if byGithub.Some? then Outcome(users, Answer(users[byGithub.value]))
    else
      var byEmail := FindByEmail(users, GithubEmail(profile));
      if byEmail.Some? then
        var u := Linked(users[byEmail.value], profile);
        Outcome(users[byEmail.value := u], Answer(u))
      else
        var u := Created(|users|, profile);
        Outcome(users + [u], Answer(u))
  }

  /** Lookup precedence: a user with the GitHub id is answered unchanged and nothing else
      changes; else a user with the email is linked in place and no user is added; else
      exactly one password-less user is added, named after the display name or, failing
      that, the username. Every answer is the user without its password and team-less
      tokens for its id. */
  lemma GithubLoginPrecedence(users: seq<User>, profile: GitHubProfile)
    ensures var o := GithubLoginOutcome(users, profile);
      (exists i :: 0 <= i < |users| && users[i].githubId == Some(profile.id)) ==>
        && o.users == users
        && (exists i :: 0 <= i < |users| && users[i].githubId == Some(profile.id) && o.result == Answer(users[i]))
    ensures var o := GithubLoginOutcome(users, profile);
      ValidTable(users) ==>
        forall i :: 0 <= i < |users| && users[i].githubId == Some(profile.id) ==> o.result == Answer(users[i])
    ensures var o := GithubLoginOutcome(users, profile);
      (forall i :: 0 <= i < |users| ==> users[i].githubId != Some(profile.id)) &&
      (exists i :: 0 <= i < |users| && users[i].email == GithubEmail(profile)) ==>
        && |o.users| == |users|
        && (exists k :: 0 <= k < |users| && users[k].email == GithubEmail(profile) &&
              o.users == users[k := Linked(users[k], profile)] && o.result == Answer(Linked(users[k], profile)))
    ensures var o := GithubLoginOutcome(users, profile);
      (forall i :: 0 <= i < |users| ==> users[i].githubId != Some(profile.id) && users[i].email != GithubEmail(profile)) ==>
        && o.users == users + [Created(|users|, profile)]
        && o.users[|users|].passwordHash.None?
        && o.result == Answer(Created(|users|, profile))
        && o.result.user.name == Some(if profile.displayName != "" then profile.displayName else profile.username)
        && o.result.user.email == GithubEmail(profile)
  {
    var o := GithubLoginOutcome(users, profile);
    var byGithub := FindByGithubId(users, profile.id);
    if byGithub.Some? && ValidTable(users) {
      forall i | 0 <= i < |users| && users[i].githubId == Some(profile.id)
        ensures o.result == Answer(users[i])
      {
        assert i == byGithub.value;
      }
    }
  }

  /** GitHub login keeps ids as positions and emails and GitHub ids unique. */
  lemma GithubLoginKeepsTable(users: seq<User>, profile: GitHubProfile)
    requires ValidTable(users)
    ensures ValidTable(GithubLoginOutcome(users, profile).users)
  {
    var byGithub := FindByGithubId(users, profile.id);
    if byGithub.None? {
      var byEmail := FindByEmail(users, GithubEmail(profile));
      if byEmail.Some? {
        var k := byEmail.value;
        var after := users[k := Linked(users[k], profile)];
        forall i, j | 0 <= i < j < |after| && after[i].githubId.Some?
          ensures after[i].githubId != after[j].githubId
        {
          if i != k && j != k {
            assert after[i] == users[i] && after[j] == users[j];
          }
        }
      }
    }
  }

  /** Logging in twice with the same GitHub profile answers the same and changes nothing the
      second time: the first call leaves a user carrying the GitHub id. */
  lemma GithubLoginIdempotent(users: seq<User>, profile: GitHubProfile)
    requires ValidTable(users)
    ensures var o := GithubLoginOutcome(users, profile);
      GithubLoginOutcome(o.users, profile) == o
  {
    var o := GithubLoginOutcome(users, profile);
    GithubLoginKeepsTable(users, profile);
    var byGithub := FindByGithubId(users, profile.id);
    if byGithub.None? {
      var byEmail := FindByEmail(users, GithubEmail(profile));
      var k := if byEmail.Some? then byEmail.value else |users|;
      assert o.users[k].githubId == Some(profile.id);
      var again := FindByGithubId(o.users, profile.id);
      assert again.Some?;
    }
  }

  // ---------------------------------------------------------------------------
  // The service over a stored table
  // ---------------------------------------------------------------------------

  /** The user table the service reads and writes. */
  class UserStore {
    var users: seq<User>

    ghost predicate Valid()
      reads this
    {
      ValidTable(users)
    }

    constructor()
      ensures Valid() && users == []
    {
      users := [];
    }

    /** `register`: looks the email up, then creates the user. */
    method Register(email: string, password: string, name: Option<string>, hash: string -> string)
      returns (r: AuthResult)
      requires Valid()
      modifies this
      ensures Valid()
      ensures Outcome(users, r) == RegisterOutcome(old(users), email, password, name, hash)
    {
      RegisterKeepsTable(users, email, password, name, hash);
      var existing := FindByEmail(users, email);
      if existing.Some? {
        return Failure("User already exists");
      }
      var passwordHash := hash(password);
      var user := User(|users|, email, Some(passwordHash), name, None, None, None);
      users := users + [user];
      r := Success(OmitPassword(user), GenerateTokens(user.id, None));
    }

    /** `login`: reads the table only. */
    method Login(email: string, password: string, compare: (string, string) -> bool) returns (r: AuthResult)
      requires Valid()
      ensures r == LoginOutcome(users, email, password, compare)
      ensures r.Failure? ==> r.message == "Invalid credentials"
    {
      var found := FindByEmail(users, email);
      if found.None? || users[found.value].passwordHash.None? || users[found.value].passwordHash.value == "" {
        return Failure("Invalid credentials");
      }
      var user := users[found.value];
      var isValid := compare(password, user.passwordHash.value);
      if !isValid {
        return Failure("Invalid credentials");
      }
      r := Success(OmitPassword(user), GenerateTokens(user.id, None));
    }

    /** `githubLogin`: by GitHub id, else by email with linking, else by creation, each
        step reassigning `user`. */
    method GithubLogin(profile: GitHubProfile) returns (r: AuthResult)
      requires Valid()
      modifies this
      ensures Valid()
      ensures Outcome(users, r) == GithubLoginOutcome(old(users), profile)
    {
      GithubLoginKeepsTable(users, profile);
      var email := GithubEmail(profile);
      var user: User;
      var found := FindByGithubId(users, profile.id);
      if found.Some? {
        user := users[found.value];
      } else {
        found := FindByEmail(users, email);
        if found.Some? {
          user := Linked(users[found.value], profile);
          users := users[found.value := user];
        } else {
          user := Created(|users|, profile);
          users := users + [user];
        }
      }
      r := Success(OmitPassword(user), GenerateTokens(user.id, None));
    }
  }
}
