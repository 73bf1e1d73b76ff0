/**
 * app/services/auth_service.py: registering a holder under an unused
 * e-mail address, and the login decision. Password hashing, SSN encryption
 * and token minting are the collaborators of the Crypto module.
 */
module AuthService {
  import opened Wrappers
  import opened Errors
  import opened Records
  import opened Db
  import opened Crypto
  import opened AuthSchemas

  const EmailTakenMessage := "Email already registered"
  const InvalidCredentialsMessage := "Invalid email or password"

  /** Some holder is registered under this e-mail address. */
  predicate EmailTaken(holders: seq<AccountHolder>, email: string) {
    exists i | 0 <= i < |holders| :: holders[i].email == email
  }

  /** `db.query(AccountHolder).filter(AccountHolder.email == email).first()`, as an index. */
  function FindHolderByEmail(holders: seq<AccountHolder>, email: string): (r: Option<nat>)
    ensures r.None? <==> !EmailTaken(holders, email)
    ensures r.Some? ==> r.value < |holders| && holders[r.value].email == email
    ensures r.Some? ==> forall j | 0 <= j < r.value :: holders[j].email != email
  {
    if holders == [] then None
    else if holders[0].email == email then Some(0)
    else
      match FindHolderByEmail(holders[1..], email)
      case None =>
        assert forall j | 1 <= j < |holders| :: holders[j] == holders[1..][j - 1];
        None
      case Some(k) => Some(k + 1)
  }

  /**
   * The holder row signup inserts as row `id`: active, keeping the password
   * only as its hash and the SSN only as its encryption, both of which the
   * collaborators' laws let the service check or read back.
   */
  function NewHolder(id: int, request: SignupRequest, cipher: Cipher, hasher: PasswordHasher, now: int)
    : (h: AccountHolder)
    ensures h.id == id && h.active && h.createdAt == now
    ensures h.name == request.name && h.email == request.email && h.dateOfBirth == request.dateOfBirth
      && h.mailingAddress == request.mailingAddress
    ensures h.passwordHash == hasher.hash(request.password) && h.ssnEncrypted == cipher.encrypt(request.ssn)
    ensures Sound(hasher) ==> hasher.verify(request.password, h.passwordHash)
    ensures RoundTrips(cipher) ==> cipher.decrypt(h.ssnEncrypted) == request.ssn
    ensures FitsHolderColumns(request) && HashFits(hasher) ==> ValidHolder(h)
  {
    AccountHolder(id, request.name, request.email, hasher.hash(request.password), cipher.encrypt(request.ssn),
                  request.dateOfBirth, request.mailingAddress, true, now)
  }

  /**
   * The request's text fits the account_holders columns. The schema's
   * max_length bounds give the name and the address; the e-mail is an
   * EmailStr, whose validation refuses addresses longer than 254 characters.
   */
  predicate FitsHolderColumns(request: SignupRequest) {
    |request.name| <= HolderNameMaxLength && |request.email| <= EmailMaxLength
    && |request.mailingAddress| <= MailingAddressMaxLength
  }

  /** A request the signup schema accepts, with an e-mail EmailStr accepts, fits the columns. */
  lemma AcceptedSignupFits(request: SignupRequest, today: Validators.Date)
    requires SignupErrors(request, today) == [] && |request.email| <= 254
    ensures FitsHolderColumns(request)
  {
  }

  /** The tokens issued to a holder. */
  function TokensFor(h: AccountHolder, issuer: TokenIssuer): (r: TokenResponse)
    ensures r.accessToken == issuer.access(h.id, h.email) && r.refreshToken == issuer.refresh(h.id, h.email)
    ensures r.tokenType == DefaultTokenType
  {
    NewTokenResponse(issuer.access(h.id, h.email), issuer.refresh(h.id, h.email))
  }

  /**
   * signup: a taken e-mail address is a ValidationError and nothing is
   * stored; otherwise one active holder is added, keeping the hash of the
   * password and the encryption of the SSN, and tokens are issued for it.
   */
  method Signup(db: Database, request: SignupRequest, cipher: Cipher, hasher: PasswordHasher,
                issuer: TokenIssuer, now: int)
    returns (r: Result<TokenResponse>)
    requires db.Valid()
    requires FitsHolderColumns(request) && HashFits(hasher)
    modifies db
    ensures db.Valid()
    ensures db.accounts == old(db.accounts) && db.transactions == old(db.transactions) && db.cards == old(db.cards)
    ensures EmailTaken(old(db.holders), request.email) ==>
      r == Err(Raise(Validation, Some(EmailTakenMessage))) && db.holders == old(db.holders)
    ensures r.Ok? <==> !EmailTaken(old(db.holders), request.email)
    ensures r.Ok? ==>
      var h := NewHolder(|old(db.holders)| + 1, request, cipher, hasher, now);
      db.holders == old(db.holders) + [h] && r.value == TokensFor(h, issuer)
  {
    var existing := FindHolderByEmail(db.holders, request.email);
    if existing.Some? {
      return Err(Raise(Validation, Some(EmailTakenMessage)));
    }
    var holder := NewHolder(|db.holders| + 1, request, cipher, hasher, now);
    db.holders := db.holders + [holder];
    return Ok(TokensFor(holder, issuer));
  }

  /**
   * login: the tokens of the first holder with that e-mail address when it
   * is active and the password verifies against its hash; every failure is
   * the same AuthenticationError.
   */
  function Login(holders: seq<AccountHolder>, request: LoginRequest, hasher: PasswordHasher, issuer: TokenIssuer)
    : (r: Result<TokenResponse>)
    ensures r.Err? ==> r.error == Raise(Authentication, Some(InvalidCredentialsMessage))
    ensures r.Ok? <==>
      var found := FindHolderByEmail(holders, request.email);
      found.Some? && holders[found.value].active && hasher.verify(request.password, holders[found.value].passwordHash)
    ensures r.Ok? ==> r.value == TokensFor(holders[FindHolderByEmail(holders, request.email).value], issuer)
  {
    match FindHolderByEmail(holders, request.email)
    case None => Err(Raise(Authentication, Some(InvalidCredentialsMessage)))
    case Some(i) =>
      if !holders[i].active then Err(Raise(Authentication, Some(InvalidCredentialsMessage)))
      else if !hasher.verify(request.password, holders[i].passwordHash) then
        Err(Raise(Authentication, Some(InvalidCredentialsMessage)))
      else Ok(TokensFor(holders[i], issuer))
  }

  /**
   * With a hasher under which a password verifies against its own hash, an
   * active holder logs in with the password it signed up with, and gets its
   * own tokens. E-mail uniqueness makes it the holder the lookup finds.
   */
  lemma LoginWithSignupPassword(holders: seq<AccountHolder>, i: nat, password: string,
                                hasher: PasswordHasher, issuer: TokenIssuer)
    requires Sound(hasher) && EmailsUnique(holders)
    requires i < |holders| && holders[i].active && holders[i].passwordHash == hasher.hash(password)
    ensures Login(holders, LoginRequest(holders[i].email, password), hasher, issuer) == Ok(TokensFor(holders[i], issuer))
  {
    assert FindHolderByEmail(holders, holders[i].email) == Some(i);
  }

  /** A holder just signed up can log in with the password given at signup. */
  lemma SignupThenLogin(holders: seq<AccountHolder>, request: SignupRequest, cipher: Cipher,
                        hasher: PasswordHasher, issuer: TokenIssuer, now: int)
    requires Sound(hasher) && EmailsUnique(holders) && !EmailTaken(holders, request.email)
    ensures var h := NewHolder(|holders| + 1, request, cipher, hasher, now);
      Login(holders + [h], LoginRequest(request.email, request.password), hasher, issuer) == Ok(TokensFor(h, issuer))
  {
    var h := NewHolder(|holders| + 1, request, cipher, hasher, now);
    var holders' := holders + [h];
    assert EmailsUnique(holders');
    LoginWithSignupPassword(holders', |holders|, request.password, hasher, issuer);
  }
}
