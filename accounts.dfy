/**
 * Registration, login and password reset over the users table
 * (backend/controllers/authControllers.js). Hashing, token signing and the
 * random reset token are parameters: `hashed` is what bcrypt produced,
 * `matches` is bcrypt's compare, `token` is the fresh random token, `now`
 * is the clock in milliseconds.
 */
module Accounts {
  import opened Text
  import opened Http
  import opened Seqs

  datatype User = User(
    id: nat,
    username: string,
    email: string,
    password: string,
    resetToken: Option<string>,
    resetExpiry: Option<int>)

  /** The one account that logs in as an administrator, by email and plaintext password. */
  const AdminEmail: string := "pathakmansi608@gmail.com"
  const AdminPassword: string := "123456789"

  /** A reset token lives for 15 minutes, in milliseconds. */
  const ResetWindow: int := 15 * 60 * 1000

  // ---------------------------------------------------------------- validators

  /** A username is present and 2 to 20 characters long. */
  predicate ValidUsername(u: string)
  {
    2 <= |u| <= 20
  }

  /** One of the three parts of an email address: non-empty, with no white space and no '@'. */
  predicate EmailPart(p: string)
  {
    p != [] && forall k :: 0 <= k < |p| ==> !IsSpace(p[k]) && p[k] != '@'
  }

  /** What the pattern ^[^\s@]+@[^\s@]+\.[^\s@]+$ accepts: three parts around an '@' and a later '.'. */
  ghost predicate EmailPattern(s: string)
  {
    exists i, j :: 0 < i < j < |s| - 1 && s[i] == '@' && s[j] == '.' &&
      EmailPart(s[..i]) && EmailPart(s[i + 1..j]) && EmailPart(s[j + 1..])
  }

  /** The email test register and forgotPassword run. */
  predicate ValidEmail(s: string)
  {
    var at := IndexOf(s, "@");
    && 0 < at
    && (forall k :: 0 <= k < |s| ==> !IsSpace(s[k]))
    && (forall k :: at < k < |s| ==> s[k] != '@')
    && (exists k :: at + 1 < k < |s| - 1 && s[k] == '.')
  }

  lemma OccursAtChar(s: string, c: char, k: int)
    requires 0 <= k < |s|
    ensures OccursAt(s, [c], k) <==> s[k] == c
  {
    if s[k] == c {
      assert s[k..k + 1] == [c];
    }
  }

  /** An address the email test accepts splits into the pattern's three parts. */
  lemma ValidEmailHasParts(s: string)
    requires ValidEmail(s)
    ensures EmailPattern(s)
  {
    var i := IndexOf(s, "@");
    OccursAtChar(s, '@', i);
    var j :| i + 1 < j < |s| - 1 && s[j] == '.';
    forall k | 0 <= k < i ensures s[k] != '@' {
      OccursAtChar(s, '@', k);
    }
    assert EmailPart(s[..i]);
    assert EmailPart(s[i + 1..j]);
    assert EmailPart(s[j + 1..]);
  }

  /** An address of the pattern's shape passes the email test. */
  lemma PartsPassEmailTest(s: string, i: int, j: int)
    requires 0 < i < j < |s| - 1 && s[i] == '@' && s[j] == '.'
    requires EmailPart(s[..i]) && EmailPart(s[i + 1..j]) && EmailPart(s[j + 1..])
    ensures ValidEmail(s)
  {
    forall k | 0 <= k < |s| ensures !IsSpace(s[k]) && (k != i ==> s[k] != '@') {
      if k < i {
        assert s[k] == s[..i][k];
      } else if i < k < j {
        assert s[k] == s[i + 1..j][k - i - 1];
      } else if j < k {
        assert s[k] == s[j + 1..][k - j - 1];
      }
    }
    OccursAtChar(s, '@', i);
    forall k | 0 <= k < i ensures !OccursAt(s, "@", k) {
      OccursAtChar(s, '@', k);
    }
    assert IndexOf(s, "@") == i;
  }

  /** The email test accepts exactly the addresses the pattern describes. */
  lemma ValidEmailIffPattern(s: string)
    ensures ValidEmail(s) <==> EmailPattern(s)
  {
    if ValidEmail(s) {
      ValidEmailHasParts(s);
    }
    if EmailPattern(s) {
      var i, j :| 0 < i < j < |s| - 1 && s[i] == '@' && s[j] == '.' &&
        EmailPart(s[..i]) && EmailPart(s[i + 1..j]) && EmailPart(s[j + 1..]);
      PartsPassEmailTest(s, i, j);
    }
  }

  predicate IsSpecial(c: char)
  {
    c in "@$!%*?&"
  }

  /**
   * What ^(?=.*[a-z])(?=.*[A-Z])(?=.*\d)(?=.*[@$!%*?&]).{8,}$ accepts: at least
   * eight characters, none a line terminator, with a lower-case letter, an
   * upper-case letter, a digit and one of @$!%*?&.
   */
  predicate StrongPassword(p: string)
  {
    && |p| >= 8
    && (forall k :: 0 <= k < |p| ==> !IsLineTerminator(p[k]))
    && (exists k :: 0 <= k < |p| && 'a' <= p[k] <= 'z')
    && (exists k :: 0 <= k < |p| && 'A' <= p[k] <= 'Z')
    && (exists k :: 0 <= k < |p| && IsDigit(p[k]))
    && (exists k :: 0 <= k < |p| && IsSpecial(p[k]))
  }

  // ---------------------------------------------------------------- lookups

  /** `SELECT ... FROM users WHERE email = ?`, first row. */
  function FindByEmail(users: seq<User>, email: string): (r: Option<User>)
    ensures r.None? <==> forall k :: 0 <= k < |users| ==> users[k].email != email
    ensures r.Some? ==> r.value in users && r.value.email == email
  {
    FirstWhere(users, (u: User) => u.email == email)
  }

  predicate Taken(users: seq<User>, email: string, username: string)
  {
    exists k :: 0 <= k < |users| && (users[k].email == email || users[k].username == username)
  }

  // ---------------------------------------------------------------- register

  /** The reply of register, checked in the source's order; Ok means the user is inserted. */
  function RegisterReply(users: seq<User>, username: string, email: string, password: string): Reply<()>
  {
    if !ValidUsername(username) then Error(400, "Username must be 2-20 chars.")
    else if !ValidEmail(email) then Error(400, "Invalid email address.")
    else if !StrongPassword(password) then Error(400, "Strong password required.")
    else if Taken(users, email, username) then Error(409, "Email or username already registered.")
    else Ok(())
  }

  /** register succeeds exactly when all three validators pass and neither the email nor the username is taken. */
  lemma RegisterOkIff(users: seq<User>, username: string, email: string, password: string)
    ensures RegisterReply(users, username, email, password).Ok? <==>
              ValidUsername(username) && EmailPattern(email) && StrongPassword(password) &&
              forall k :: 0 <= k < |users| ==> users[k].email != email && users[k].username != username
    ensures RegisterReply(users, username, email, password).Error? ==>
              RegisterReply(users, username, email, password).status in {400, 409}
  {
    ValidEmailIffPattern(email);
  }

  /** A weak password is refused with 400 whatever the other fields and the table hold. */
  lemma WeakPasswordRefused(users: seq<User>, username: string, email: string, password: string)
    requires !StrongPassword(password)
    ensures RegisterReply(users, username, email, password).Error?
    ensures RegisterReply(users, username, email, password).status == 400
  {
  }

  /** With valid fields, a taken email or username gives 409. */
  lemma DuplicateRefused(users: seq<User>, username: string, email: string, password: string, k: nat)
    requires ValidUsername(username) && ValidEmail(email) && StrongPassword(password)
    requires k < |users| && (users[k].email == email || users[k].username == username)
    ensures RegisterReply(users, username, email, password) == Error(409, "Email or username already registered.")
  {
  }

  // ---------------------------------------------------------------- login

  datatype Session = Session(id: nat, username: string, email: string, role: string)

  /** The role login puts in the token: the hard-coded pair is the only administrator. */
  function RoleFor(email: string, password: string): string
  {
    if email == AdminEmail && password == AdminPassword then "admin" else "user"
  }

  /** login: 400 without both fields, 401 for an unknown email or a failed compare, else the session claims. */
  function Login(users: seq<User>, email: string, password: string, matches: (string, string) -> bool): Reply<Session>
  {
    if email == "" || password == "" then Error(400, "Fields required.")
    else match FindByEmail(users, email)
      case None => Error(401, "Invalid credentials.")
      case Some(u) =>
        if !matches(password, u.password) then Error(401, "Invalid credentials.")
        else Ok(Session(u.id, u.username, u.email, RoleFor(u.email, password)))
  }

  /** A successful login belongs to a stored user, whose hash the password matched; its role is "admin" iff the pair is the hard-coded one. */
  lemma LoginSession(users: seq<User>, email: string, password: string, matches: (string, string) -> bool)
    requires Login(users, email, password, matches).Ok?
    ensures var s := Login(users, email, password, matches).value;
      && s.email == email
      && (exists k :: 0 <= k < |users| && users[k].email == email && users[k].id == s.id && matches(password, users[k].password))
      && (s.role == "admin" <==> email == AdminEmail && password == AdminPassword)
      && (s.role == "user" <==> !(email == AdminEmail && password == AdminPassword))
  {
    var u := FindByEmail(users, email).value;
    var k :| 0 <= k < |users| && users[k] == u;
  }

  /** Unknown emails and failed compares both give 401 with the same message. */
  lemma LoginRefusals(users: seq<User>, email: string, password: string, matches: (string, string) -> bool)
    requires email != "" && password != ""
    ensures (forall k :: 0 <= k < |users| ==> users[k].email != email) ==>
              Login(users, email, password, matches) == Error(401, "Invalid credentials.")
    ensures (forall k :: 0 <= k < |users| ==> !matches(password, users[k].password)) ==>
              Login(users, email, password, matches) == Error(401, "Invalid credentials.")
  {
    var r := FindByEmail(users, email);
    if r.Some? {
      var k :| 0 <= k < |users| && users[k] == r.value;
    }
  }

  // ---------------------------------------------------------------- password reset

  /** forgotPassword's checks: a well-formed email, then a user with it. */
  function ForgotReply(users: seq<User>, email: string): Reply<()>
  {
    if email == "" || !ValidEmail(email) then Error(400, "Valid email required.")
    else if FindByEmail(users, email).None? then Error(404, "User not found.")
    else Ok(())
  }

  /** `UPDATE users SET reset_token=?, reset_token_expiry=? WHERE email=?`. */
  function IssueToken(users: seq<User>, email: string, token: string, expiry: int): (r: seq<User>)
    ensures |r| == |users|
    ensures forall k :: 0 <= k < |users| ==>
              if users[k].email == email
              then r[k] == users[k].(resetToken := Some(token), resetExpiry := Some(expiry))
              else r[k] == users[k]
  {
    seq(|users|, k requires 0 <= k < |users| =>
      if users[k].email == email
      then users[k].(resetToken := Some(token), resetExpiry := Some(expiry))
      else users[k])
  }

  /** `new Date(reset_token_expiry)`: a missing expiry is the epoch. */
  function ExpiryOf(u: User): int
  {
    match u.resetExpiry
    case None => 0
    case Some(t) => t
  }

  predicate HoldsToken(u: User, email: string, token: string)
  {
    u.email == email && u.resetToken == Some(token)
  }

  /** The row test of resetPassword's lookup. */
  function TokenHolder(email: string, token: string): User -> bool
  {
    (u: User) => HoldsToken(u, email, token)
  }

  /** After a token is stored for a known email, the lookup finds a row holding it, with that expiry. */
  lemma {:induction false} IssuedTokenFound(users: seq<User>, email: string, token: string, expiry: int)
    requires FindByEmail(users, email).Some?
    ensures FirstWhere(IssueToken(users, email, token, expiry), TokenHolder(email, token)).Some?
    ensures ExpiryOf(FirstWhere(IssueToken(users, email, token, expiry), TokenHolder(email, token)).value) == expiry
  {
    var issued := IssueToken(users, email, token, expiry);
    var u := FindByEmail(users, email).value;
    var k :| 0 <= k < |users| && users[k] == u;
    assert TokenHolder(email, token)(issued[k]);
    var found := FirstWhere(issued, TokenHolder(email, token));
    var m :| 0 <= m < |issued| && issued[m] == found.value;
    assert issued[m].email == email;
  }

  /** resetPassword's checks: all fields, a row with this email and token, and an expiry not before now. */
  function ResetReply(users: seq<User>, email: string, token: string, password: string, now: int): Reply<()>
  {
    if email == "" || token == "" || password == "" then Error(400, "Missing data.")
    else match FirstWhere(users, TokenHolder(email, token))
      case None => Error(400, "Invalid token or email.")
      case Some(u) => if ExpiryOf(u) < now then Error(400, "Expired token.") else Ok(())
  }

  /** `UPDATE users SET password=?, reset_token=null, reset_token_expiry=null WHERE email=?`. */
  function ClearToken(users: seq<User>, email: string, hashed: string): (r: seq<User>)
    ensures |r| == |users|
    ensures forall k :: 0 <= k < |users| ==>
              if users[k].email == email
              then r[k] == users[k].(password := hashed, resetToken := None, resetExpiry := None)
              else r[k] == users[k]
  {
    seq(|users|, k requires 0 <= k < |users| =>
      if users[k].email == email
      then users[k].(password := hashed, resetToken := None, resetExpiry := None)
      else users[k])
  }

  /** A token just issued to a known user is accepted up to and including its expiry instant. */
  lemma IssuedTokenAccepted(users: seq<User>, email: string, token: string, password: string, issuedAt: int, now: int)
    requires ForgotReply(users, email).Ok?
    requires token != "" && password != ""
    requires now <= issuedAt + ResetWindow
    ensures ResetReply(IssueToken(users, email, token, issuedAt + ResetWindow), email, token, password, now) == Ok(())
  {
    IssuedTokenFound(users, email, token, issuedAt + ResetWindow);
  }

  /** After the window the same token is refused as expired. */
  lemma IssuedTokenExpires(users: seq<User>, email: string, token: string, password: string, issuedAt: int, now: int)
    requires ForgotReply(users, email).Ok?
    requires token != "" && password != ""
    requires now > issuedAt + ResetWindow
    ensures ResetReply(IssueToken(users, email, token, issuedAt + ResetWindow), email, token, password, now) == Error(400, "Expired token.")
  {
    IssuedTokenFound(users, email, token, issuedAt + ResetWindow);
  }

  /** Once a reset has gone through, replaying the same email and token is refused. */
  lemma ResetNotReplayable(users: seq<User>, email: string, token: string, hashed: string, password: string, now: int)
    requires token != "" && password != "" && email != ""
    ensures ResetReply(ClearToken(users, email, hashed), email, token, password, now) == Error(400, "Invalid token or email.")
  {
    var cleared := ClearToken(users, email, hashed);
    forall k | 0 <= k < |cleared| ensures !HoldsToken(cleared[k], email, token) {
    }
  }

  // ---------------------------------------------------------------- the users table

  /**
   * What every sequence of register, forgotPassword and resetPassword keeps:
   * ids below the next auto-increment value and distinct, emails and
   * usernames unique and well formed, and a token always stored with its expiry.
   */
  ghost predicate TableInvariant(users: seq<User>, nextId: nat)
  {
    && (forall k :: 0 <= k < |users| ==> users[k].id < nextId)
    && (forall k, m :: 0 <= k < m < |users| ==>
          users[k].id != users[m].id && users[k].email != users[m].email && users[k].username != users[m].username)
    && (forall k :: 0 <= k < |users| ==> ValidUsername(users[k].username) && ValidEmail(users[k].email))
    && (forall k :: 0 <= k < |users| ==> (users[k].resetToken.Some? <==> users[k].resetExpiry.Some?))
  }

  /** Row edits that leave ids, emails and usernames alone, and set or clear a token with its expiry, keep the invariant. */
  lemma InvariantKeptByRowEdits(users: seq<User>, edited: seq<User>, nextId: nat)
    requires TableInvariant(users, nextId)
    requires |edited| == |users|
    requires forall k :: 0 <= k < |users| ==>
               edited[k].id == users[k].id && edited[k].email == users[k].email &&
               edited[k].username == users[k].username &&
               (edited[k].resetToken.Some? <==> edited[k].resetExpiry.Some?)
    ensures TableInvariant(edited, nextId)
  {
  }

  /** Storing a reset token keeps the invariant. */
  lemma IssueTokenKeepsInvariant(users: seq<User>, email: string, token: string, expiry: int, nextId: nat)
    requires TableInvariant(users, nextId)
    ensures TableInvariant(IssueToken(users, email, token, expiry), nextId)
  {
    InvariantKeptByRowEdits(users, IssueToken(users, email, token, expiry), nextId);
  }

  /** Storing a new hash and clearing the token keeps the invariant. */
  lemma ClearTokenKeepsInvariant(users: seq<User>, email: string, hashed: string, nextId: nat)
    requires TableInvariant(users, nextId)
    ensures TableInvariant(ClearToken(users, email, hashed), nextId)
  {
    InvariantKeptByRowEdits(users, ClearToken(users, email, hashed), nextId);
  }

  /** A row register may insert: the next id, valid fields, nothing taken, no token. */
  predicate Insertable(users: seq<User>, nextId: nat, u: User)
  {
    && u.id == nextId && ValidUsername(u.username) && ValidEmail(u.email)
    && !Taken(users, u.email, u.username)
    && u.resetToken.None? && u.resetExpiry.None?
  }

  /** Inserting such a row and moving the counter on keeps the invariant. */
  lemma InsertKeepsInvariant(users: seq<User>, nextId: nat, u: User)
    requires TableInvariant(users, nextId) && Insertable(users, nextId, u)
    ensures TableInvariant(users + [u], nextId + 1)
  {
    var t := users + [u];
    forall k, m | 0 <= k < m < |t|
      ensures t[k].id != t[m].id && t[k].email != t[m].email && t[k].username != t[m].username
    {
      if m == |users| {
        assert t[k] == users[k];
      }
    }
  }

  class UserTable {
    var users: seq<User>
    var nextId: nat

    ghost predicate Valid()
      reads this
    {
      TableInvariant(users, nextId)
    }

    constructor ()
      ensures Valid() && users == [] && nextId == 1
    {
      users := [];
      nextId := 1;
    }

    /** register: the validators, the duplicate check, then one insert with the hashed password. */
    method Register(username: string, email: string, password: string, hashed: string) returns (r: Reply<()>)
      requires Valid()
      modifies this
      ensures Valid()
      ensures r == RegisterReply(old(users), username, email, password)
      ensures r.Ok? ==> users == old(users) + [User(old(nextId), username, email, hashed, None, None)] &&
                        nextId == old(nextId) + 1
      ensures r.Error? ==> users == old(users) && nextId == old(nextId)
    {
      r := RegisterReply(users, username, email, password);
      if r.Ok? {
        InsertUser(User(nextId, username, email, hashed, None, None));
      }
    }

    /** The insert of register, under the next id. */
    method InsertUser(u: User)
      requires Valid() && Insertable(users, nextId, u)
      modifies this
      ensures Valid()
      ensures users == old(users) + [u] && nextId == old(nextId) + 1
    {
      InsertKeepsInvariant(users, nextId, u);
      users := users + [u];
      nextId := nextId + 1;
    }

    /** forgotPassword: stores `token` with an expiry 15 minutes after `now` on the user's row. */
    method ForgotPassword(email: string, token: string, now: int) returns (r: Reply<()>)
      requires Valid()
      modifies this
      ensures Valid()
      ensures r == ForgotReply(old(users), email)
      ensures r.Ok? ==> users == IssueToken(old(users), email, token, now + ResetWindow)
      ensures r.Error? ==> users == old(users)
      ensures nextId == old(nextId)
    {
      r := ForgotReply(users, email);
      if r.Ok? {
        StoreToken(email, token, now + ResetWindow);
      }
    }

    /** The update of forgotPassword, on its own. */
    method StoreToken(email: string, token: string, expiry: int)
      requires Valid()
      modifies this
      ensures Valid()
      ensures users == IssueToken(old(users), email, token, expiry) && nextId == old(nextId)
    {
      IssueTokenKeepsInvariant(users, email, token, expiry, nextId);
      users := IssueToken(users, email, token, expiry);
    }

    /** resetPassword: on success stores the new hash and clears the token and its expiry. */
    method ResetPassword(email: string, token: string, password: string, hashed: string, now: int) returns (r: Reply<()>)
      requires Valid()
      modifies this
      ensures Valid()
      ensures r == ResetReply(old(users), email, token, password, now)
      ensures r.Ok? ==> users == ClearToken(old(users), email, hashed)
      ensures r.Error? ==> users == old(users)
      ensures nextId == old(nextId)
    {
      r := ResetReply(users, email, token, password, now);
      if r.Ok? {
        ClearTokenKeepsInvariant(users, email, hashed, nextId);
        users := ClearToken(users, email, hashed);
      }
    }
  }
}
