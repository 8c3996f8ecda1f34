/** The registration and login rules of server/routes/auth.js over the user collection. The
    password hashing and comparison of bcrypt and the token signing of jsonwebtoken are
    foreign: they are parameters of the table, tied only by "a password matches its own hash". */
module AuthRoutes {
  import opened Wrappers

  const FillInAllFields := ApiError(400, "Please fill in all fields")
  const EmailAlreadyRegistered := ApiError(400, "Email already registered")
  const InvalidCredentials := ApiError(400, "Invalid credentials")
  const UserRegistered := "User registered successfully"

  /** A stored user; only the hash of the password is kept. */
  datatype User = User(id: nat, username: string, email: string, passwordHash: string)

  /** The body of a successful login: the token and the public fields of the user. */
  datatype LoginReply = LoginReply(token: string, id: nat, username: string, email: string)

  /** The position of the user `findOne({ email })` returns, if any. */
  function FindByEmail(users: seq<User>, email: string): (k: Option<nat>)
    ensures k.Some? ==> k.value < |users| && users[k.value].email == email
    ensures k.None? <==> forall i :: 0 <= i < |users| ==> users[i].email != email
  {
    if users == [] then None
    else if users[0].email == email then Some(0)
    else match FindByEmail(users[1..], email)
      case None => None
      case Some(j) => Some(j + 1)
  }

  /** No two users share an email. */
  ghost predicate UniqueEmails(users: seq<User>)
  {
    forall i, j :: 0 <= i < j < |users| ==> users[i].email != users[j].email
  }

  /** With unique emails, the user `findOne({ email })` returns is the only one with that email. */
  lemma {:induction false} FoundUserIsTheOnlyOne(users: seq<User>, email: string, i: nat)
    requires UniqueEmails(users)
    requires i < |users| && users[i].email == email
    ensures FindByEmail(users, email) == Some(i)
  {
    if i > 0 {
      assert users[0].email != email by { assert users[0].email != users[i].email; }
      assert UniqueEmails(users[1..]) by {
        forall a, b | 0 <= a < b < |users| - 1
          ensures users[1..][a].email != users[1..][b].email
        {
          assert users[1..][a] == users[a + 1] && users[1..][b] == users[b + 1];
        }
      }
      FoundUserIsTheOnlyOne(users[1..], email, i - 1);
    }
  }

  class UserTable {
    /** `bcrypt.hash` with its salt: foreign. */
    const hash: string -> string
    /** `bcrypt.compare`: foreign. */
    const compare: (string, string) -> bool
    /** `jwt.sign({ userId }, secret, { expiresIn: "2h" })`: foreign. */
    const sign: nat -> string
    var users: seq<User>
    var nextId: nat

    /** The only fact assumed of the foreign functions: a password matches its own hash. */
    ghost predicate HashMatches()
      reads this
    {
      forall p :: compare(p, hash(p))
    }

    /** Emails are unique, every stored email is non-empty, ids are distinct and below the next
        id to hand out, and hashing agrees with comparison. */
    ghost predicate Valid()
      reads this
    {
      && HashMatches()
      && UniqueEmails(users)
      && (forall i :: 0 <= i < |users| ==> users[i].id < nextId && users[i].email != "")
      && (forall i, j :: 0 <= i < j < |users| ==> users[i].id != users[j].id)
    }

    constructor (hash: string -> string, compare: (string, string) -> bool, sign: nat -> string)
      requires forall p :: compare(p, hash(p))
      ensures Valid()
      ensures this.hash == hash && this.compare == compare && this.sign == sign
      ensures users == [] && nextId == 0
    {
      this.hash := hash;
      this.compare := compare;
      this.sign := sign;
      users := [];
      nextId := 0;
    }

    /** POST /api/auth/register. A missing or empty field and an email already in use both
        give 400 and leave the table as it was; otherwise one user is added, holding the hash
        of the password and never the password itself. */
    method Register(username: string, email: string, password: string)
      returns (r: Result<string, ApiError>)
      requires Valid()
      modifies this
      ensures Valid()
      ensures username == "" || email == "" || password == "" ==> r == Failure(FillInAllFields)
      ensures username != "" && email != "" && password != "" && FindByEmail(old(users), email).Some? ==>
                r == Failure(EmailAlreadyRegistered)
      ensures r.Success? <==>
                username != "" && email != "" && password != "" && FindByEmail(old(users), email).None?
      ensures r.Failure? ==> users == old(users) && nextId == old(nextId)
      ensures r.Success? ==>
                && r.value == UserRegistered
                && users == old(users) + [User(old(nextId), username, email, hash(password))]
                && nextId == old(nextId) + 1
                && compare(password, users[|users| - 1].passwordHash)
    {
      if username == "" || email == "" || password == "" {
        return Failure(FillInAllFields);
      }
      var existing := FindByEmail(users, email);
      if existing.Some? {
        return Failure(EmailAlreadyRegistered);
      }
      var hashed := hash(password);
      users := users + [User(nextId, username, email, hashed)];
      nextId := nextId + 1;
      r := Success(UserRegistered);
    }

    /** POST /api/auth/login. An unknown email and a wrong password give the same 400; a
        match gives a token for the user's id and the user's public fields. The table is only
        read. */
    method Login(email: string, password: string) returns (r: Result<LoginReply, ApiError>)
      ensures FindByEmail(users, email).None? ==> r == Failure(InvalidCredentials)
      ensures r.Failure? ==> r.error == InvalidCredentials
      ensures r.Success? <==>
                FindByEmail(users, email).Some? &&
                compare(password, users[FindByEmail(users, email).value].passwordHash)
      ensures r.Success? ==>
                var u := users[FindByEmail(users, email).value];
                r.value == LoginReply(sign(u.id), u.id, u.username, u.email)
    {
      var found := FindByEmail(users, email);
      if found.None? {
        return Failure(InvalidCredentials);
      }
      var user := users[found.value];
      var isMatch := compare(password, user.passwordHash);
      if !isMatch {
        return Failure(InvalidCredentials);
      }
      var token := sign(user.id);
      r := Success(LoginReply(token, user.id, user.username, user.email));
    }
  }

  /** Register then login: in a table whose emails are unique, a user stored with the hash of
      a password is found by its email, and that password matches, so login succeeds for it. */
  lemma {:induction false} RegisteredUserCanLogIn(
    users: seq<User>, u: User, password: string, hash: string -> string, compare: (string, string) -> bool)
    requires UniqueEmails(users + [u])
    requires u.passwordHash == hash(password)
    requires forall p :: compare(p, hash(p))
    ensures FindByEmail(users + [u], u.email) == Some(|users|)
    ensures compare(password, (users + [u])[|users|].passwordHash)
  {
    FoundUserIsTheOnlyOne(users + [u], u.email, |users|);
  }
}
