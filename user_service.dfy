/**
 * The user service: checking and recording a registration, logging in
 * and reading a user back. Password hashing and token signing are
 * foreign: the hash is an input, and the password check is a function
 * handed in by the caller.
 */
module UserService {
  import opened Wrappers
  import opened Text
  import opened Uuid
  import opened Errors
  import opened Store
  import DefaultAccounts

  datatype RegisterRequest = RegisterRequest(username: string, password: string, email: Option<string>)

  datatype LoginRequest = LoginRequest(username: string, password: string)

  /** What a successful registration or login answers with, less the token. */
  datatype Session = Session(userId: Id, username: string)

  const MinUsername: nat := 3
  const MaxUsername: nat := 50
  const MinPassword: nat := 8

  /** One character of the pattern `[a-zA-Z0-9_]`. */
  predicate IsWordChar(c: char) {
    IsAsciiLetter(c) || IsAsciiDigit(c) || c == '_'
  }

  /** `matches(Regex("^[a-zA-Z0-9_]+$"))`. */
  predicate WordOnly(s: string) {
    |s| >= 1 && forall i :: 0 <= i < |s| ==> IsWordChar(s[i])
  }

  /** The checks of `validateRegistration`, in order; the first that fails decides the failure. */
  function RegistrationFailure(req: RegisterRequest): (r: Option<Failure>)
    ensures r.None? <==>
      && !IsBlank(req.username)
      && MinUsername <= Utf16Length(req.username) <= MaxUsername
      && WordOnly(req.username)
      && MinPassword <= Utf16Length(req.password)
      && (req.email.Some? ==> Contains(req.email.value, '@'))
    ensures r.Some? ==> r.value in {BlankUsername, UsernameTooShort, UsernameTooLong, UsernameCharacters, PasswordTooShort, InvalidEmail}
  {
    if IsBlank(req.username) then Some(BlankUsername)
    else if Utf16Length(req.username) < MinUsername then Some(UsernameTooShort)
    else if Utf16Length(req.username) > MaxUsername then Some(UsernameTooLong)
    else if !WordOnly(req.username) then Some(UsernameCharacters)
    else if Utf16Length(req.password) < MinPassword then Some(PasswordTooShort)
    else if req.email.Some? && !Contains(req.email.value, '@') then Some(InvalidEmail)
    else None
  }

  /** Registration input is refused as a bad request. */
  lemma InvalidIsBadRequest(req: RegisterRequest)
    requires RegistrationFailure(req).Some?
    ensures Kind(RegistrationFailure(req).value) == BadRequest
  {
    var f := RegistrationFailure(req).value;
    if f == BlankUsername {
    } else if f == UsernameTooShort {
    } else if f == UsernameTooLong {
    } else if f == UsernameCharacters {
    } else if f == PasswordTooShort {
    } else {
      assert f == InvalidEmail;
    }
  }

  /** A username or email already in use is a conflict. */
  lemma TakenIsConflict(users: map<Id, UserRow>, req: RegisterRequest)
    requires TakenFailure(users, req).Some?
    ensures Kind(TakenFailure(users, req).value) == Conflict
  {
    var f := TakenFailure(users, req).value;
    if f.UsernameTaken? {
    } else {
      assert f.EmailRegistered?;
    }
  }

  lemma {:induction false} AsciiLength(s: string)
    requires forall i :: 0 <= i < |s| ==> s[i] as int < 0x80
    ensures Utf16Length(s) == |s|
  {
    if s != [] {
      AsciiLength(s[1..]);
    }
  }

  /**
   * An accepted username is 3 to 50 ASCII letters, digits and
   * underscores, so it is never blank and fits the `varchar(50)` column;
   * the blank check only changes which message a bad name gets.
   */
  lemma AcceptedUsername(req: RegisterRequest)
    requires RegistrationFailure(req).None?
    ensures MinUsername <= |req.username| <= MaxUsername
    ensures forall i :: 0 <= i < |req.username| ==> IsWordChar(req.username[i]) && !IsWhitespace(req.username[i])
  {
    AsciiLength(req.username);
  }

  /** A name of word characters is blank only when empty, so the blank check fires only for names that are also not word-only. */
  lemma BlankNeverWordOnly(s: string)
    requires IsBlank(s)
    ensures !WordOnly(s)
  {
    if |s| >= 1 {
      assert IsWhitespace(s[0]);
    }
  }

  // -------------------------------------------------------------- lookups

  /** The ids of the users with that username. */
  function WithUsername(users: map<Id, UserRow>, name: string): set<Id> {
    set u | u in users && users[u].username == name
  }

  /** The ids of the users with that email. */
  function WithEmail(users: map<Id, UserRow>, email: string): set<Id> {
    set u | u in users && users[u].email == Some(email)
  }

  /** The uniqueness checks of `register`: the username first, then the email when one is given. */
  function TakenFailure(users: map<Id, UserRow>, req: RegisterRequest): (r: Option<Failure>)
    ensures r.None? <==>
      (forall u :: u in users ==> users[u].username != req.username)
      && (req.email.Some? ==> forall u :: u in users ==> users[u].email != req.email)
    ensures r.Some? ==> r == Some(UsernameTaken(req.username)) || (req.email.Some? && r == Some(EmailRegistered(req.email.value)))
  {
    if WithUsername(users, req.username) != {} then Some(UsernameTaken(req.username))
    else if req.email.Some? && WithEmail(users, req.email.value) != {} then Some(EmailRegistered(req.email.value))
    else
      assert forall u :: u in users ==> u !in WithUsername(users, req.username);
      assert req.email.Some? ==> forall u :: u in users ==> u !in WithEmail(users, req.email.value);
      None
  }

  function NewUser(req: RegisterRequest, id: Id, passwordHash: string, now: Instant): UserRow {
    UserRow(id, req.username, req.email, passwordHash, now, now)
  }

  /** Adding a user whose username and email nobody has keeps usernames and emails unique. */
  lemma InsertKeepsUsers(users: map<Id, UserRow>, req: RegisterRequest, id: Id, passwordHash: string, now: Instant)
    requires UsersValid(users) && id !in users
    requires TakenFailure(users, req).None?
    ensures UsersValid(users[id := NewUser(req, id, passwordHash, now)])
  {
  }

  /**
   * `register`: validates, checks that the username and email are free,
   * inserts the user, then creates the default chart of accounts for it.
   * The new id, the password hash, the account ids and the clock reading
   * are inputs.
   */
  method Register(db: Database, req: RegisterRequest, newId: Id, passwordHash: string,
                  accountIds: seq<Id>, now: Instant)
    returns (r: Result<Session>)
    requires db.Valid() && newId !in db.users
    requires |accountIds| == DefaultAccounts.SizeAll(DefaultAccounts.Chart)
    requires DefaultAccounts.Distinct(accountIds) && DefaultAccounts.Unused(db.accounts, accountIds)
    modifies db
    ensures db.Valid()
    ensures r.Err? <==> RegistrationFailure(req).Some? || TakenFailure(old(db.users), req).Some?
    ensures r.Err? ==>
      Some(r.failure) == (if RegistrationFailure(req).Some? then RegistrationFailure(req) else TakenFailure(old(db.users), req))
      && unchanged(db)
    ensures r.Ok? ==>
      && r.value == Session(newId, req.username)
      && db.users == old(db.users)[newId := NewUser(req, newId, passwordHash, now)]
      && db.accounts == old(db.accounts) + DefaultAccounts.RowsAll(newId, DefaultAccounts.Chart, None, None, accountIds, now)
    ensures db.transactions == old(db.transactions) && db.splits == old(db.splits)
  {
    var invalid := RegistrationFailure(req);
    if invalid.Some? {
      return Err(invalid.value);
    }
    var taken := TakenFailure(db.users, req);
    if taken.Some? {
      return Err(taken.value);
    }
    InsertKeepsUsers(db.users, req, newId, passwordHash, now);
    db.users := db.users[newId := NewUser(req, newId, passwordHash, now)];
    DefaultAccounts.CreateDefaultAccounts(db, newId, accountIds, now);
    r := Ok(Session(newId, req.username));
  }

  /**
   * `login`: the user with that username, if its stored hash accepts the
   * password. An unknown username and a wrong password fail alike.
   */
  method Login(db: Database, req: LoginRequest, verify: (string, string) -> bool) returns (r: Result<Session>)
    requires UsersValid(db.users)
    ensures r.Ok? <==> exists u :: u in db.users && db.users[u].username == req.username
                                   && verify(req.password, db.users[u].passwordHash)
    ensures r.Err? ==> r.failure == InvalidCredentials
    ensures r.Ok? ==> r.value.userId in db.users && db.users[r.value.userId].username == req.username
                      && r.value.username == req.username
  {
    var found := WithUsername(db.users, req.username);
    if found == {} {
      assert forall v :: v in db.users && db.users[v].username == req.username ==> v in found;
      return Err(InvalidCredentials);
    }
    var u :| u in found;
    if !verify(req.password, db.users[u].passwordHash) {
      forall v | v in db.users && db.users[v].username == req.username
        ensures !verify(req.password, db.users[v].passwordHash)
      {
        assert v == u;
      }
      return Err(InvalidCredentials);
    }
    r := Ok(Session(db.users[u].id, req.username));
  }

  /** `getUserById`: the user, or nothing when no user has that id; an unreadable id is an internal error. */
  function GetUserById(users: map<Id, UserRow>, userId: string): (r: Result<Option<UserRow>>)
    ensures ParseUuid(userId).None? <==> r == Err(Unexpected)
    ensures r.Ok? && r.value.Some? ==> ParseUuid(userId).value in users && r.value.value == users[ParseUuid(userId).value]
    ensures r.Ok? && r.value.None? ==> ParseUuid(userId).value !in users
  {
    if ParseUuid(userId).None? then Err(Unexpected)
    else if ParseUuid(userId).value in users then Ok(Some(users[ParseUuid(userId).value]))
    else Ok(None)
  }
}
