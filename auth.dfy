/**
  Accounts, e-mail verification and login over the `users` and
  `email_verification_tokens` tables. Signup rejects a registered e-mail and
  otherwise adds an unverified user with one 15-minute OTP token; verification
  checks, in order, the user, an unused token with that code, and its expiry,
  then marks both; login checks, in order, the user, its verification and the
  password. Password hashing and checking and access-token creation are
  library calls, passed in as functions. `SignupStep`, `VerifyStep` and
  `LoginResult` specify the handlers; `AuthStore` performs them in place.
 */
module Auth {

  import opened Models
  import opened Text

  /** Both tables in insertion order, with their id counters. */
  datatype AuthState = AuthState(
    users: seq<User>,
    tokens: seq<VerificationToken>,
    nextUserId: int,
    nextTokenId: int)

  datatype SignupResponse = SignupResponse(email: string, message: string)
  datatype VerifyEmailResponse = VerifyEmailResponse(message: string)
  datatype LoginResponse = LoginResponse(accessToken: string, tokenType: string)

  const OtpLength: nat := 6
  const OtpLifetime: int := 15 * MicrosPerMinute

  const SignupMessage: string := "Signup successful. Check your email for verification code."
  const VerifiedMessage: string := "Email verified successfully"
  const BearerTokenType: string := "bearer"

  const EmailAlreadyRegistered: HttpError := HttpError(400, "Email already registered")
  const UserNotFound: HttpError := HttpError(404, "User not found")
  const InvalidOtp: HttpError := HttpError(400, "Invalid OTP")
  const OtpExpired: HttpError := HttpError(400, "OTP expired")
  const InvalidCredentials: HttpError := HttpError(401, "Invalid credentials")
  const EmailNotVerified: HttpError := HttpError(403, "Email not verified")

  /** One draw of `secrets.randbelow(10)`. */
  type Digit = d: int | 0 <= d < 10

  /** `''.join(str(d) for d in digits)` */
  function OtpFromDigits(digits: seq<Digit>): (otp: string)
    ensures |otp| == |digits| && AllDigits(otp)
    ensures forall i :: 0 <= i < |digits| ==> DigitValue(otp[i]) == digits[i]
  {
    if digits == [] then "" else [DigitChar(digits[0])] + OtpFromDigits(digits[1..])
  }

  /** `select(users).where(users.c.email == email).first()` */
  function UserByEmail(users: seq<User>, email: string): (o: Option<nat>)
    ensures o.Some? ==> o.value < |users| && users[o.value].email == email
    ensures o.Some? ==> forall j :: 0 <= j < o.value ==> users[j].email != email
    ensures o.None? <==> forall j :: 0 <= j < |users| ==> users[j].email != email
  {
    FirstMatch(users, (u: User) => u.email == email)
  }

  /** The token lookup of verification: this user, this code, not used yet. */
  function UnusedToken(tokens: seq<VerificationToken>, userId: int, otp: string): (o: Option<nat>)
    ensures o.Some? ==> && o.value < |tokens| && tokens[o.value].userId == userId
                        && tokens[o.value].otpCode == otp && !tokens[o.value].used
    ensures o.None? <==> forall j :: 0 <= j < |tokens| ==>
      !(tokens[j].userId == userId && tokens[j].otpCode == otp && !tokens[j].used)
  {
    FirstMatch(tokens, (t: VerificationToken) => t.userId == userId && t.otpCode == otp && !t.used)
  }

  predicate HasUser(users: seq<User>, userId: int) {
    exists k :: 0 <= k < |users| && users[k].id == userId
  }

  /** User ids come from the counter in increasing order and e-mails are unique. */
  ghost predicate UsersValid(users: seq<User>, nextUserId: int) {
    && (forall i :: 0 <= i < |users| ==> 1 <= users[i].id < nextUserId)
    && (forall i, j :: 0 <= i < j < |users| ==> users[i].id < users[j].id)
    && (forall i, j :: 0 <= i < j < |users| ==> users[i].email != users[j].email)
  }

  /** Token ids come from the counter in increasing order, every token belongs
      to a user, and no user has two tokens. */
  ghost predicate TokensValid(tokens: seq<VerificationToken>, users: seq<User>, nextTokenId: int) {
    && (forall i :: 0 <= i < |tokens| ==> 1 <= tokens[i].id < nextTokenId)
    && (forall i, j :: 0 <= i < j < |tokens| ==> tokens[i].id < tokens[j].id)
    && (forall i :: 0 <= i < |tokens| ==> HasUser(users, tokens[i].userId))
    && (forall i, j :: 0 <= i < j < |tokens| ==> tokens[i].userId != tokens[j].userId)
  }

  ghost predicate AuthValid(st: AuthState) {
    && st.nextUserId >= 1 && st.nextTokenId >= 1
    && UsersValid(st.users, st.nextUserId)
    && TokensValid(st.tokens, st.users, st.nextTokenId)
  }

  /** `POST /auth/signup`. `digits` are the six random draws of the OTP and
      `now` the clock reading; the password hash is `hashPassword(password)`. */
  function SignupStep(st: AuthState, email: string, password: string,
                      hashPassword: string -> string, digits: seq<Digit>, now: Timestamp)
    : (r: (AuthState, Result<SignupResponse, HttpError>))
    requires |digits| == OtpLength
    ensures r.1.Failure? <==> UserByEmail(st.users, email).Some?
    ensures r.1.Failure? ==> r.0 == st && r.1.error == EmailAlreadyRegistered
    ensures r.1.Success? ==>
      && r.1.value == SignupResponse(email, SignupMessage)
      && |r.0.users| == |st.users| + 1 && r.0.users[..|st.users|] == st.users
      && |r.0.tokens| == |st.tokens| + 1 && r.0.tokens[..|st.tokens|] == st.tokens
  {
    if UserByEmail(st.users, email).Some? then (st, Failure(EmailAlreadyRegistered))
    else
      var userId := st.nextUserId;
      var user := User(userId, email, hashPassword(password), false, now);
      var token := VerificationToken(st.nextTokenId, userId, OtpFromDigits(digits), now + OtpLifetime, false);
      (AuthState(st.users + [user], st.tokens + [token], userId + 1, st.nextTokenId + 1),
       Success(SignupResponse(email, SignupMessage)))
  }

  /** `POST /auth/verify-email` at time `now`. */
  function VerifyStep(st: AuthState, email: string, otp: string, now: Timestamp)
    : (r: (AuthState, Result<VerifyEmailResponse, HttpError>))
    ensures r.1.Failure? ==> r.0 == st
    ensures r.1.Failure? ==> r.1.error in {UserNotFound, InvalidOtp, OtpExpired}
    ensures r.1.Success? ==> r.1.value == VerifyEmailResponse(VerifiedMessage)
    ensures |r.0.users| == |st.users| && |r.0.tokens| == |st.tokens|
    ensures forall i :: 0 <= i < |st.users| ==> r.0.users[i].email == st.users[i].email
  {
    match UserByEmail(st.users, email)
    case None => (st, Failure(UserNotFound))
    case Some(ui) =>
      var user := st.users[ui];
      match UnusedToken(st.tokens, user.id, otp)
      case None => (st, Failure(InvalidOtp))
      case Some(ti) =>
        if st.tokens[ti].expiresAt < now then (st, Failure(OtpExpired))
        else
          (st.(users := st.users[ui := user.(isVerified := true)],
               tokens := st.tokens[ti := st.tokens[ti].(used := true)]),
           Success(VerifyEmailResponse(VerifiedMessage)))
  }

  /** `POST /auth/login`; it changes nothing. */
  function LoginResult(st: AuthState, email: string, password: string,
                       verifyPassword: (string, string) -> bool, createToken: int -> string)
    : (r: Result<LoginResponse, HttpError>)
    ensures r.Failure? ==> r.error == InvalidCredentials || r.error == EmailNotVerified
    ensures r.Success? ==>
      && UserByEmail(st.users, email).Some?
      && var user := st.users[UserByEmail(st.users, email).value];
      && user.isVerified && verifyPassword(password, user.passwordHash)
      && r.value == LoginResponse(createToken(user.id), BearerTokenType)
  {
    match UserByEmail(st.users, email)
    case None => Failure(InvalidCredentials)
    case Some(ui) =>
      var user := st.users[ui];
      if !user.isVerified then Failure(EmailNotVerified)
      else if !verifyPassword(password, user.passwordHash) then Failure(InvalidCredentials)
      else Success(LoginResponse(createToken(user.id), BearerTokenType))
  }

  class AuthStore {
    var users: seq<User>
    var tokens: seq<VerificationToken>
    var nextUserId: int
    var nextTokenId: int

    function State(): AuthState
      reads this
    {
      AuthState(users, tokens, nextUserId, nextTokenId)
    }

    ghost predicate Valid()
      reads this
    {
      AuthValid(State())
    }

    constructor ()
      ensures Valid() && users == [] && tokens == []
    {
      users, tokens := [], [];
      nextUserId, nextTokenId := 1, 1;
    }

    method Signup(email: string, password: string, hashPassword: string -> string,
                  digits: seq<Digit>, now: Timestamp)
      returns (result: Result<SignupResponse, HttpError>)
      requires Valid() && |digits| == OtpLength
      modifies this
      ensures Valid()
      ensures (State(), result) == SignupStep(old(State()), email, password, hashPassword, digits, now)
    {
      ghost var after := SignupStep(State(), email, password, hashPassword, digits, now).0;
      SignupKeepsValid(State(), email, password, hashPassword, digits, now);
      var existing := UserByEmail(users, email);
      if existing.Some? {
        return Failure(EmailAlreadyRegistered);
      }
      var passwordHash := hashPassword(password);
      var userId := nextUserId;
      users := users + [User(userId, email, passwordHash, false, now)];
      nextUserId := nextUserId + 1;

      var otpCode := OtpFromDigits(digits);
      var expiresAt := now + OtpLifetime;
      tokens := tokens + [VerificationToken(nextTokenId, userId, otpCode, expiresAt, false)];
      nextTokenId := nextTokenId + 1;

      assert State() == after;
      return Success(SignupResponse(email, SignupMessage));
    }

    method VerifyEmail(email: string, otp: string, now: Timestamp)
      returns (result: Result<VerifyEmailResponse, HttpError>)
      requires Valid()
      modifies this
      ensures Valid()
      ensures (State(), result) == VerifyStep(old(State()), email, otp, now)
    {
      ghost var after := VerifyStep(State(), email, otp, now).0;
      VerifyKeepsValid(State(), email, otp, now);
      var found := UserByEmail(users, email);
      if found.None? {
        return Failure(UserNotFound);
      }
      var ui := found.value;
      var user := users[ui];

      var token := UnusedToken(tokens, user.id, otp);
      if token.None? {
        return Failure(InvalidOtp);
      }
      var ti := token.value;

      if tokens[ti].expiresAt < now {
        return Failure(OtpExpired);
      }

      users := users[ui := user.(isVerified := true)];
      tokens := tokens[ti := tokens[ti].(used := true)];
      assert State() == after;
      return Success(VerifyEmailResponse(VerifiedMessage));
    }

    method Login(email: string, password: string,
                 verifyPassword: (string, string) -> bool, createToken: int -> string)
      returns (result: Result<LoginResponse, HttpError>)
      ensures result == LoginResult(State(), email, password, verifyPassword, createToken)
    {
      var found := UserByEmail(users, email);
      if found.None? {
        return Failure(InvalidCredentials);
      }
      var user := users[found.value];
      if !user.isVerified {
        return Failure(EmailNotVerified);
      }
      if !verifyPassword(password, user.passwordHash) {
        return Failure(InvalidCredentials);
      }
      var accessToken := createToken(user.id);
      return Success(LoginResponse(accessToken, BearerTokenType));
    }
  }

  // Signup

  /** A registered e-mail is rejected with 400 and nothing is inserted. */
  lemma {:induction false} SignupRejectsRegisteredEmail(st: AuthState, email: string, password: string,
                                     hashPassword: string -> string, digits: seq<Digit>, now: Timestamp)
    requires |digits| == OtpLength
    requires exists i :: 0 <= i < |st.users| && st.users[i].email == email
    ensures SignupStep(st, email, password, hashPassword, digits, now) == (st, Failure(EmailAlreadyRegistered))
  {
  }

  /** A new e-mail gets one unverified user, under a fresh id, and one unused
      token for that user whose code is the six drawn digits and which
      expires 15 minutes after `now`; existing rows are kept. */
  lemma {:induction false} SignupCreatesAccount(st: AuthState, email: string, password: string,
                             hashPassword: string -> string, digits: seq<Digit>, now: Timestamp)
    requires AuthValid(st) && |digits| == OtpLength
    requires forall i :: 0 <= i < |st.users| ==> st.users[i].email != email
    ensures var (st', r) := SignupStep(st, email, password, hashPassword, digits, now);
      && r == Success(SignupResponse(email, SignupMessage))
      && |st'.users| == |st.users| + 1 && st'.users[..|st.users|] == st.users
      && |st'.tokens| == |st.tokens| + 1 && st'.tokens[..|st.tokens|] == st.tokens
      && var user, token := st'.users[|st.users|], st'.tokens[|st.tokens|];
      && !HasUser(st.users, user.id)
      && user.email == email && user.passwordHash == hashPassword(password)
      && !user.isVerified && user.createdAt == now
      && token.userId == user.id && !token.used
      && token.expiresAt == now + 15 * 60 * MicrosPerSecond
      && token.otpCode == OtpFromDigits(digits)
      && |token.otpCode| == 6 && AllDigits(token.otpCode)
  {
  }

  /** Signup keeps the tables well formed; in particular e-mails stay unique. */
  lemma {:induction false} SignupKeepsValid(st: AuthState, email: string, password: string,
                         hashPassword: string -> string, digits: seq<Digit>, now: Timestamp)
    requires AuthValid(st) && |digits| == OtpLength
    ensures AuthValid(SignupStep(st, email, password, hashPassword, digits, now).0)
  {
    if UserByEmail(st.users, email).None? {
      var user := User(st.nextUserId, email, hashPassword(password), false, now);
      var token := VerificationToken(st.nextTokenId, user.id, OtpFromDigits(digits), now + OtpLifetime, false);
      AppendUserValid(st.users, st.nextUserId, user);
      AppendUserKeepsTokens(st.tokens, st.users, st.nextTokenId, user, st.nextUserId);
      assert (st.users + [user])[|st.users|] == user;
      AppendTokenValid(st.tokens, st.users + [user], st.nextTokenId, token);
    }
  }

  lemma AppendUserValid(users: seq<User>, nextUserId: int, user: User)
    requires UsersValid(users, nextUserId) && nextUserId >= 1 && user.id == nextUserId
    requires forall i :: 0 <= i < |users| ==> users[i].email != user.email
    ensures UsersValid(users + [user], nextUserId + 1)
  {
  }

  /** A new user, under an id above every existing one, owns no token. */
  lemma AppendUserKeepsTokens(tokens: seq<VerificationToken>, users: seq<User>, nextTokenId: int,
                              user: User, nextUserId: int)
    requires TokensValid(tokens, users, nextTokenId)
    requires forall i :: 0 <= i < |users| ==> users[i].id < nextUserId
    requires user.id == nextUserId
    ensures TokensValid(tokens, users + [user], nextTokenId)
    ensures forall i :: 0 <= i < |tokens| ==> tokens[i].userId != user.id
  {
    var users' := users + [user];
    forall i | 0 <= i < |tokens| ensures HasUser(users', tokens[i].userId) && tokens[i].userId != user.id {
      assert HasUser(users, tokens[i].userId);
      var k :| 0 <= k < |users| && users[k].id == tokens[i].userId;
      assert users'[k] == users[k];
    }
  }

  lemma AppendTokenValid(tokens: seq<VerificationToken>, users: seq<User>, nextTokenId: int,
                         token: VerificationToken)
    requires TokensValid(tokens, users, nextTokenId) && nextTokenId >= 1 && token.id == nextTokenId
    requires HasUser(users, token.userId)
    requires forall i :: 0 <= i < |tokens| ==> tokens[i].userId != token.userId
    ensures TokensValid(tokens + [token], users, nextTokenId + 1)
  {
  }

  // Verification

  /** An unknown e-mail is a 404 and changes nothing. */
  lemma VerifyUnknownEmail(st: AuthState, email: string, otp: string, now: Timestamp)
    requires forall i :: 0 <= i < |st.users| ==> st.users[i].email != email
    ensures VerifyStep(st, email, otp, now) == (st, Failure(UserNotFound))
  {
  }

  /** For a registered e-mail, verification fails with "Invalid OTP" exactly
      when the user has no unused token with that code; it then changes nothing. */
  lemma VerifyInvalidOtp(st: AuthState, email: string, otp: string, now: Timestamp, ui: nat)
    requires ui < |st.users| && st.users[ui].email == email
    requires AuthValid(st)
    ensures VerifyStep(st, email, otp, now).1 == Failure(InvalidOtp) <==>
      forall k :: 0 <= k < |st.tokens| ==>
        !(st.tokens[k].userId == st.users[ui].id && st.tokens[k].otpCode == otp && !st.tokens[k].used)
    ensures VerifyStep(st, email, otp, now).1 == Failure(InvalidOtp) ==> VerifyStep(st, email, otp, now).0 == st
  {
    UniqueEmailFound(st, email, ui);
  }

  /** With a matching unused token, the outcome depends only on its expiry:
      `expiresAt < now` is "OTP expired" and changes nothing; a token that
      expires at `now` or later is accepted. */
  lemma VerifyExpiry(st: AuthState, email: string, otp: string, now: Timestamp, ui: nat, ti: nat)
    requires AuthValid(st)
    requires ui < |st.users| && st.users[ui].email == email
    requires ti < |st.tokens| && st.tokens[ti].userId == st.users[ui].id
    requires st.tokens[ti].otpCode == otp && !st.tokens[ti].used
    ensures st.tokens[ti].expiresAt < now ==> VerifyStep(st, email, otp, now) == (st, Failure(OtpExpired))
    ensures st.tokens[ti].expiresAt >= now ==>
      VerifyStep(st, email, otp, now).1 == Success(VerifyEmailResponse(VerifiedMessage))
  {
    UniqueEmailFound(st, email, ui);
    UniqueTokenFound(st, ui, ti, otp);
  }

  /** A successful verification marks that user verified and that token used,
      and changes no other row and no other field. */
  lemma VerifySuccessEffect(st: AuthState, email: string, otp: string, now: Timestamp)
    requires VerifyStep(st, email, otp, now).1.Success?
    ensures var st' := VerifyStep(st, email, otp, now).0;
      var ui := UserByEmail(st.users, email).value;
      var ti := UnusedToken(st.tokens, st.users[ui].id, otp).value;
      && st'.nextUserId == st.nextUserId && st'.nextTokenId == st.nextTokenId
      && |st'.users| == |st.users| && |st'.tokens| == |st.tokens|
      && st'.users[ui] == st.users[ui].(isVerified := true)
      && st'.tokens[ti] == st.tokens[ti].(used := true)
      && !st.tokens[ti].used && st.tokens[ti].expiresAt >= now
      && (forall i :: 0 <= i < |st.users| && i != ui ==> st'.users[i] == st.users[i])
      && (forall i :: 0 <= i < |st.tokens| && i != ti ==> st'.tokens[i] == st.tokens[i])
  {
  }

  /** Verification keeps the tables well formed. */
  lemma VerifyKeepsValid(st: AuthState, email: string, otp: string, now: Timestamp)
    requires AuthValid(st)
    ensures AuthValid(VerifyStep(st, email, otp, now).0)
  {
    var st' := VerifyStep(st, email, otp, now).0;
    if st' != st {
      VerifyKeepsKeys(st, email, otp, now);
      SameKeysValid(st, st');
    }
  }

  /** Verification changes flags only: it keeps every row's id, e-mail and owner. */
  lemma VerifyKeepsKeys(st: AuthState, email: string, otp: string, now: Timestamp)
    ensures var st' := VerifyStep(st, email, otp, now).0;
      && st'.nextUserId == st.nextUserId && st'.nextTokenId == st.nextTokenId
      && |st'.users| == |st.users| && |st'.tokens| == |st.tokens|
      && (forall i :: 0 <= i < |st.users| ==>
            st'.users[i].id == st.users[i].id && st'.users[i].email == st.users[i].email)
      && (forall i :: 0 <= i < |st.tokens| ==>
            st'.tokens[i].id == st.tokens[i].id && st'.tokens[i].userId == st.tokens[i].userId)
  {
  }

  /** Validity depends only on ids, e-mails and owners. */
  lemma SameKeysValid(st: AuthState, st': AuthState)
    requires AuthValid(st)
    requires st'.nextUserId == st.nextUserId && st'.nextTokenId == st.nextTokenId
    requires |st'.users| == |st.users| && |st'.tokens| == |st.tokens|
    requires forall i :: 0 <= i < |st.users| ==>
      st'.users[i].id == st.users[i].id && st'.users[i].email == st.users[i].email
    requires forall i :: 0 <= i < |st.tokens| ==>
      st'.tokens[i].id == st.tokens[i].id && st'.tokens[i].userId == st.tokens[i].userId
    ensures AuthValid(st')
  {
    forall i | 0 <= i < |st'.tokens| ensures HasUser(st'.users, st'.tokens[i].userId) {
      assert HasUser(st.users, st.tokens[i].userId);
      var k :| 0 <= k < |st.users| && st.users[k].id == st.tokens[i].userId;
      assert st'.users[k].id == st.users[k].id;
    }
  }

  /** A token that verified once is used, and the token lookup never picks it
      again, whatever code is offered. */
  lemma TokenVerifiesOnce(st: AuthState, email: string, otp: string, now: Timestamp,
                          userId: int, otp2: string)
    requires VerifyStep(st, email, otp, now).1.Success?
    ensures var st' := VerifyStep(st, email, otp, now).0;
      var ti := UnusedToken(st.tokens, st.users[UserByEmail(st.users, email).value].id, otp).value;
      && st'.tokens[ti].used
      && UnusedToken(st'.tokens, userId, otp2) != Some(ti)
  {
  }

  /** No re-verification: after a user has verified, every further
      verification for that e-mail fails with "Invalid OTP", at any time and
      with any code, and changes nothing. */
  lemma NoReverification(st: AuthState, email: string, otp: string, now: Timestamp,
                         otp2: string, later: Timestamp)
    requires AuthValid(st)
    requires VerifyStep(st, email, otp, now).1.Success?
    ensures var st' := VerifyStep(st, email, otp, now).0;
      VerifyStep(st', email, otp2, later) == (st', Failure(InvalidOtp))
  {
    var st' := VerifyStep(st, email, otp, now).0;
    var ui := UserByEmail(st.users, email).value;
    var uid := st.users[ui].id;
    var ti := UnusedToken(st.tokens, uid, otp).value;
    VerifyKeepsValid(st, email, otp, now);
    UserByEmailAfterVerify(st, st', email, ui);
    assert st'.users[ui].id == uid;
  }

  // Login

  /** Login checks in order: an unknown e-mail is 401, an unverified user is
      403 whatever the password, a wrong password is 401. */
  lemma LoginCheckOrder(st: AuthState, email: string, password: string,
                        verifyPassword: (string, string) -> bool, createToken: int -> string)
    ensures var r := LoginResult(st, email, password, verifyPassword, createToken);
      && ((forall i :: 0 <= i < |st.users| ==> st.users[i].email != email) ==> r == Failure(InvalidCredentials))
      && (forall i ::
            (0 <= i < |st.users| && st.users[i].email == email &&
             forall j :: 0 <= j < i ==> st.users[j].email != email) ==>
            && (!st.users[i].isVerified ==> r == Failure(EmailNotVerified))
            && (st.users[i].isVerified && !verifyPassword(password, st.users[i].passwordHash) ==>
                  r == Failure(InvalidCredentials)))
  {
  }

  /** Login issues a bearer token, for the user's id, exactly when the user
      exists, is verified and the password checks against the stored hash. */
  lemma LoginIssuesTokenIff(st: AuthState, email: string, password: string,
                            verifyPassword: (string, string) -> bool, createToken: int -> string, ui: nat)
    requires AuthValid(st)
    requires ui < |st.users| && st.users[ui].email == email
    ensures var r := LoginResult(st, email, password, verifyPassword, createToken);
      && (r.Success? <==> st.users[ui].isVerified && verifyPassword(password, st.users[ui].passwordHash))
      && (r.Success? ==> r.value == LoginResponse(createToken(st.users[ui].id), BearerTokenType))
  {
    UniqueEmailFound(st, email, ui);
  }

  /** Right after signup the account cannot log in, even with the right
      password: it is not verified. */
  lemma {:induction false} LoginRefusedBeforeVerification(st: AuthState, email: string, password: string,
                                       hashPassword: string -> string, digits: seq<Digit>, now: Timestamp,
                                       verifyPassword: (string, string) -> bool, createToken: int -> string)
    requires AuthValid(st) && |digits| == OtpLength
    requires forall i :: 0 <= i < |st.users| ==> st.users[i].email != email
    ensures var st1 := SignupStep(st, email, password, hashPassword, digits, now).0;
      LoginResult(st1, email, password, verifyPassword, createToken) == Failure(EmailNotVerified)
  {
    var st1 := SignupStep(st, email, password, hashPassword, digits, now).0;
    SignupCreatesAccount(st, email, password, hashPassword, digits, now);
    SignupKeepsValid(st, email, password, hashPassword, digits, now);
    UniqueEmailFound(st1, email, |st.users|);
  }

  /** The code issued at signup verifies the account up to 15 minutes later
      (the expiry instant included) and is "OTP expired" after that. */
  lemma {:induction false} IssuedCodeVerifies(st: AuthState, email: string, password: string,
                           hashPassword: string -> string, digits: seq<Digit>, now: Timestamp,
                           verifyAt: Timestamp)
    requires AuthValid(st) && |digits| == OtpLength
    requires forall i :: 0 <= i < |st.users| ==> st.users[i].email != email
    ensures var st1 := SignupStep(st, email, password, hashPassword, digits, now).0;
      var r := VerifyStep(st1, email, OtpFromDigits(digits), verifyAt).1;
      && (verifyAt <= now + OtpLifetime ==> r == Success(VerifyEmailResponse(VerifiedMessage)))
      && (verifyAt > now + OtpLifetime ==> r == Failure(OtpExpired))
  {
    var st1 := SignupStep(st, email, password, hashPassword, digits, now).0;
    SignupLookups(st, email, password, hashPassword, digits, now);
    VerifyFound(st1, email, OtpFromDigits(digits), verifyAt, |st.users|, |st.tokens|);
  }

  /** Once both lookups have succeeded, only the expiry decides the answer. */
  lemma VerifyFound(st: AuthState, email: string, otp: string, now: Timestamp, ui: nat, ti: nat)
    requires UserByEmail(st.users, email) == Some(ui) && ui < |st.users|
    requires UnusedToken(st.tokens, st.users[ui].id, otp) == Some(ti) && ti < |st.tokens|
    ensures VerifyStep(st, email, otp, now).1 ==
      if st.tokens[ti].expiresAt < now then Failure(OtpExpired) else Success(VerifyEmailResponse(VerifiedMessage))
  {
  }

  /** After signup, the e-mail lookup finds the new user and the token lookup
      with the issued code finds the new token. */
  lemma {:induction false} SignupLookups(st: AuthState, email: string, password: string,
                      hashPassword: string -> string, digits: seq<Digit>, now: Timestamp)
    requires AuthValid(st) && |digits| == OtpLength
    requires forall i :: 0 <= i < |st.users| ==> st.users[i].email != email
    ensures var st1 := SignupStep(st, email, password, hashPassword, digits, now).0;
      && UserByEmail(st1.users, email) == Some(|st.users|)
      && UnusedToken(st1.tokens, st1.users[|st.users|].id, OtpFromDigits(digits)) == Some(|st.tokens|)
      && st1.tokens[|st.tokens|].expiresAt == now + OtpLifetime
  {
    var st1 := SignupStep(st, email, password, hashPassword, digits, now).0;
    var n, m := |st.users|, |st.tokens|;
    SignupCreatesAccount(st, email, password, hashPassword, digits, now);
    SignupKeepsValid(st, email, password, hashPassword, digits, now);
    UniqueEmailFound(st1, email, n);
    UniqueTokenFound(st1, n, m, OtpFromDigits(digits));
  }

  /** After a successful verification, the right password logs the user in
      and the token is created for that user's id. */
  lemma LoginAfterVerification(st: AuthState, email: string, otp: string, now: Timestamp, password: string,
                               verifyPassword: (string, string) -> bool, createToken: int -> string)
    requires AuthValid(st)
    requires VerifyStep(st, email, otp, now).1.Success?
    requires verifyPassword(password, st.users[UserByEmail(st.users, email).value].passwordHash)
    ensures var st' := VerifyStep(st, email, otp, now).0;
      LoginResult(st', email, password, verifyPassword, createToken) ==
        Success(LoginResponse(createToken(st.users[UserByEmail(st.users, email).value].id), BearerTokenType))
  {
    var st' := VerifyStep(st, email, otp, now).0;
    var ui := UserByEmail(st.users, email).value;
    VerifyKeepsValid(st, email, otp, now);
    UserByEmailAfterVerify(st, st', email, ui);
  }

  // Lookups under the invariant

  /** With unique e-mails, the lookup finds the one user that has the e-mail. */
  lemma UniqueEmailFound(st: AuthState, email: string, ui: nat)
    requires AuthValid(st)
    requires ui < |st.users| && st.users[ui].email == email
    ensures UserByEmail(st.users, email) == Some(ui)
  {
  }

  /** With one token per user, the lookup finds the user's unused token. */
  lemma UniqueTokenFound(st: AuthState, ui: nat, ti: nat, otp: string)
    requires AuthValid(st)
    requires ui < |st.users| && ti < |st.tokens| && st.tokens[ti].userId == st.users[ui].id
    requires st.tokens[ti].otpCode == otp && !st.tokens[ti].used
    ensures UnusedToken(st.tokens, st.users[ui].id, otp) == Some(ti)
  {
  }

  /** Verification changes no e-mail, so the e-mail lookup is unchanged. */
  lemma UserByEmailAfterVerify(st: AuthState, st': AuthState, email: string, ui: nat)
    requires AuthValid(st')
    requires |st'.users| == |st.users|
    requires forall i :: 0 <= i < |st.users| ==> st'.users[i].email == st.users[i].email
    requires ui < |st.users| && st.users[ui].email == email
    ensures UserByEmail(st'.users, email) == Some(ui)
  {
    UniqueEmailFound(st', email, ui);
  }
}
