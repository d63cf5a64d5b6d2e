/**
 * The authentication controller: registration validation, registration,
 * login, the profile lookup (`me`) and account activation, over an
 * in-memory user directory.
 *
 * Password encoding (`encrypt`), token signing (`generateToken`) and the
 * e-mail syntax test are not part of this model; they are passed in as
 * functions, so every property below holds whatever they are.
 */
module Auth {
  import opened Wrappers
  import opened Identity

  // ---------------------------------------------------------------------
  // Users and replies
  // ---------------------------------------------------------------------

  /** A user record as stored in the directory. */
  datatype UserRecord = UserRecord(
    id: UserId,
    fullName: string,
    username: string,
    email: string,
    password: string,        // the encoded password
    role: Role,
    isActive: bool,
    activationCode: string)

  /** An HTTP reply: status, message and the `data` payload (`null` is `None`). */
  datatype Reply<T> = Reply(status: nat, message: string, data: Option<T>)

  const RegisterOk := "Pendaftaran berhasil!"
  const LoginOk := "Login berhasil"
  const UserNotFound := "User tidak ditemukan"
  const ProfileOk := "Berhasil mendapatkan profile user"
  const ActivationOk := "Berhasil aktivasi user"
  /** Stands for the message the document store gives for a unique-index violation. */
  const DuplicateKeyMessage := "E11000 duplicate key error"

  /** The one reply both login failures produce. */
  const LoginDenied: Reply<Token> := Reply(403, UserNotFound, None)

  // ---------------------------------------------------------------------
  // Registration validation
  // ---------------------------------------------------------------------

  /** The registration body. An absent field is the empty string (`required()` treats both alike). */
  datatype RegisterPayload = RegisterPayload(
    fullName: string,
    username: string,
    email: string,
    password: string,
    confirmPassword: string)

  /** The rules of the registration schema, in declaration order. */
  datatype ValidationError =
    | FullNameRequired
    | UsernameRequired
    | EmailRequired
    | EmailInvalid
    | PasswordRequired
    | PasswordTooShort
    | PasswordNoUppercase
    | PasswordNoDigit
    | ConfirmPasswordRequired
    | PasswordMismatch
  {
    /** The message the reply carries: the schema's own texts and the library defaults. */
    function Message(): string
    {
      match this
      case FullNameRequired => "fullName is a required field"
      case UsernameRequired => "username is a required field"
      case EmailRequired => "email is a required field"
      case EmailInvalid => "email must be a valid email"
      case PasswordRequired => "password is a required field"
      case PasswordTooShort => "Password minimal 6 karakter"
      case PasswordNoUppercase => "Minimal terdapat 1 huruf kapital"
      case PasswordNoDigit => "Minimal terdapat 1 angka"
      case ConfirmPasswordRequired => "confirmPassword is a required field"
      case PasswordMismatch => "Password not match"
    }
  }

  /** The length JavaScript reports: UTF-16 code units, so a character above U+FFFF counts twice. */
  function Utf16Length(s: string): (n: nat)
    ensures |s| <= n <= 2 * |s|
    ensures s != [] ==> n > 0
  {
    if s == [] then 0 else (if s[0] as int > 0xFFFF then 2 else 1) + Utf16Length(s[1..])
  }

  /** The characters `.` does not match in a JavaScript regular expression without the `s` flag. */
  predicate IsLineTerminator(c: char)
  {
    c == '\n' || c == '\r' || c == '\U{2028}' || c == '\U{2029}'
  }

  /** The longest prefix of `s` free of line terminators: what `^(?=.*X)` can scan. */
  function FirstLine(s: string): (r: string)
    ensures r <= s
    ensures forall i :: 0 <= i < |r| ==> !IsLineTerminator(r[i])
    ensures |r| < |s| ==> IsLineTerminator(s[|r|])
  {
    if s == [] || IsLineTerminator(s[0]) then [] else [s[0]] + FirstLine(s[1..])
  }

  predicate IsAsciiUpper(c: char) { 'A' <= c <= 'Z' }
  predicate IsAsciiDigit(c: char) { '0' <= c <= '9' }

  /** `/^(?=.*[A-Z])/.test(s)`: an upper-case letter before the first line terminator. */
  predicate HasUppercase(s: string)
  {
    exists i :: 0 <= i < |FirstLine(s)| && IsAsciiUpper(FirstLine(s)[i])
  }

  /** `/^(?=.*\d)/.test(s)`: a decimal digit before the first line terminator. */
  predicate HasDigit(s: string)
  {
    exists i :: 0 <= i < |FirstLine(s)| && IsAsciiDigit(FirstLine(s)[i])
  }

  /** The password rules, in order: required, at least 6 long, one upper-case letter, one digit. */
  function PasswordError(password: string): (r: Option<ValidationError>)
    ensures r.None? <==> Utf16Length(password) >= 6 && HasUppercase(password) && HasDigit(password)
    ensures r.Some? ==> r.value in {PasswordRequired, PasswordTooShort, PasswordNoUppercase, PasswordNoDigit}
    ensures r == Some(PasswordRequired) <==> password == ""
  {
    if password == "" then Some(PasswordRequired)
    else if Utf16Length(password) < 6 then Some(PasswordTooShort)
    else if !HasUppercase(password) then Some(PasswordNoUppercase)
    else if !HasDigit(password) then Some(PasswordNoDigit)
    else None
  }

  /**
   * `confirmPassword`: required, then one of [password, ""]. The empty
   * alternative never helps, because `required()` has already refused it.
   */
  function ConfirmError(password: string, confirm: string): (r: Option<ValidationError>)
    ensures r.None? <==> confirm != "" && confirm == password
  {
    if confirm == "" then Some(ConfirmPasswordRequired)
    else if confirm == password || confirm == "" then None
    else Some(PasswordMismatch)
  }

  /** Every rule of the schema holds: the reference the fail-fast validator is checked against. */
  predicate AllRulesHold(p: RegisterPayload, isEmail: string -> bool)
  {
    && p.fullName != ""
    && p.username != ""
    && p.email != "" && isEmail(p.email)
    && Utf16Length(p.password) >= 6 && HasUppercase(p.password) && HasDigit(p.password)
    && p.confirmPassword != "" && p.confirmPassword == p.password
  }

  /** The fields before the password all pass. */
  predicate IdentityFieldsValid(p: RegisterPayload, isEmail: string -> bool)
  {
    p.fullName != "" && p.username != "" && p.email != "" && isEmail(p.email)
  }

  /**
   * `registerValidateSchema.validate`: the first rule violated, in
   * declaration order, or `None` when the payload passes.
   */
  function Validate(p: RegisterPayload, isEmail: string -> bool): (r: Option<ValidationError>)
    ensures r.None? <==> AllRulesHold(p, isEmail)
    // each password rule rejects on its own
    ensures Utf16Length(p.password) < 6 ==> r.Some?
    ensures (forall i :: 0 <= i < |p.password| ==> !IsAsciiUpper(p.password[i])) ==> r.Some?
    ensures (forall i :: 0 <= i < |p.password| ==> !IsAsciiDigit(p.password[i])) ==> r.Some?
    ensures p.confirmPassword != p.password ==> r.Some?
    // and it is the reported rule once the earlier fields pass
    ensures (IdentityFieldsValid(p, isEmail) && p.password != "" && Utf16Length(p.password) < 6)
      ==> r == Some(PasswordTooShort)
    ensures (&& IdentityFieldsValid(p, isEmail) && Utf16Length(p.password) >= 6
             && (forall i :: 0 <= i < |p.password| ==> !IsAsciiUpper(p.password[i])))
      ==> r == Some(PasswordNoUppercase)
    ensures (&& IdentityFieldsValid(p, isEmail) && Utf16Length(p.password) >= 6 && HasUppercase(p.password)
             && (forall i :: 0 <= i < |p.password| ==> !IsAsciiDigit(p.password[i])))
      ==> r == Some(PasswordNoDigit)
    ensures (&& IdentityFieldsValid(p, isEmail) && PasswordError(p.password).None?
             && p.confirmPassword != "" && p.confirmPassword != p.password)
      ==> r == Some(PasswordMismatch)
  {
    if p.fullName == "" then Some(FullNameRequired)
    else if p.username == "" then Some(UsernameRequired)
    else if p.email == "" then Some(EmailRequired)
    else if !isEmail(p.email) then Some(EmailInvalid)
    else if PasswordError(p.password).Some? then PasswordError(p.password)
    else ConfirmError(p.password, p.confirmPassword)
  }

  // ---------------------------------------------------------------------
  // Store lookups
  // ---------------------------------------------------------------------

  /** `findOne`: the position of the first record satisfying `p` in scan order (here: insertion order), if any. */
  function FindOne<T>(s: seq<T>, p: T -> bool): (k: Option<nat>)
    ensures k.Some? ==> k.value < |s| && p(s[k.value])
    ensures k.Some? ==> forall j :: 0 <= j < k.value ==> !p(s[j])
    ensures k.None? <==> forall j :: 0 <= j < |s| ==> !p(s[j])
  {
    if s == [] then None
    else if p(s[0]) then Some(0)
    else match FindOne(s[1..], p)
      case None => None
      case Some(i) => Some(i + 1)
  }

  /** Two sequences on which `p` gives the same answers position by position give the same `findOne`. */
  lemma {:induction false} FindOneAgrees<T>(s: seq<T>, t: seq<T>, p: T -> bool)
    requires |s| == |t|
    requires forall j :: 0 <= j < |s| ==> p(s[j]) == p(t[j])
    ensures FindOne(s, p) == FindOne(t, p)
  {
    if s != [] && !p(s[0]) {
      FindOneAgrees(s[1..], t[1..], p);
    }
  }

  /** Appending a record that `p` refuses leaves `findOne` unchanged. */
  lemma {:induction false} FindOneSkipsAppended<T>(s: seq<T>, x: T, p: T -> bool)
    requires !p(x)
    ensures FindOne(s + [x], p) == FindOne(s, p)
  {
    if s != [] && !p(s[0]) {
      assert (s + [x])[1..] == s[1..] + [x];
      FindOneSkipsAppended(s[1..], x, p);
    }
  }

  /** The login filter: `{ $or: [{email}, {username}], isActive: true }`. */
  predicate ActiveWith(u: UserRecord, identifier: string)
  {
    u.isActive && (u.email == identifier || u.username == identifier)
  }

  /** Position `i` holds the record `findOne` returns for the login filter: the first active match. */
  predicate FirstActiveWith(users: seq<UserRecord>, i: int, identifier: string)
  {
    && 0 <= i < |users| && ActiveWith(users[i], identifier)
    && forall j :: 0 <= j < i ==> !ActiveWith(users[j], identifier)
  }

  /** The claims `login` signs for a user. */
  function ClaimsOf(u: UserRecord): Claims
  {
    Claims(u.id, u.role)
  }

  // ---------------------------------------------------------------------
  // login and me (read-only handlers)
  // ---------------------------------------------------------------------

  /**
   * `login`: find the first active user whose email or username is the
   * identifier, compare `encrypt(password)` with the stored password, and
   * sign a token over its id and role. Both failures give one reply.
   */
  function Login(users: seq<UserRecord>, identifier: string, password: string,
                 encrypt: string -> string, sign: Claims -> Token): (r: Reply<Token>)
    ensures r == LoginDenied || (r.status == 200 && r.message == LoginOk)
    ensures r.status == 200 <==>
              exists i :: FirstActiveWith(users, i, identifier) && users[i].password == encrypt(password)
    ensures forall i :: FirstActiveWith(users, i, identifier) && users[i].password == encrypt(password)
                        ==> r == Reply(200, LoginOk, Some(sign(ClaimsOf(users[i]))))
    ensures r.status == 200 ==>
              exists i :: 0 <= i < |users| && ActiveWith(users[i], identifier)
                          && users[i].password == encrypt(password)
                          && r.data == Some(sign(ClaimsOf(users[i])))
    ensures (forall i :: 0 <= i < |users| ==> !ActiveWith(users[i], identifier)) ==> r == LoginDenied
    ensures (forall i :: 0 <= i < |users| && ActiveWith(users[i], identifier)
                         ==> users[i].password != encrypt(password)) ==> r == LoginDenied
  {
    match FindOne(users, u => ActiveWith(u, identifier))
    case None => LoginDenied
    case Some(k) =>
      if encrypt(password) == users[k].password
      then Reply(200, LoginOk, Some(sign(ClaimsOf(users[k]))))
      else LoginDenied
  }

  /**
   * Only the first active match is tried: when its password is wrong, a
   * later active match with the right password does not log in.
   */
  lemma LoginTriesOnlyFirstMatch(a: UserRecord, b: UserRecord, identifier: string, password: string,
                                 encrypt: string -> string, sign: Claims -> Token)
    requires ActiveWith(a, identifier) && ActiveWith(b, identifier)
    requires a.password != encrypt(password) && b.password == encrypt(password)
    ensures Login([a, b], identifier, password, encrypt, sign) == LoginDenied
  {
    assert FirstActiveWith([a, b], 0, identifier);
  }

  /** With a single active record answering to the identifier, the right password logs in as that record. */
  lemma LoginFindsOnlyMatch(users: seq<UserRecord>, i: nat, identifier: string, password: string,
                            encrypt: string -> string, sign: Claims -> Token)
    requires i < |users| && ActiveWith(users[i], identifier)
    requires forall j :: 0 <= j < |users| && j != i ==> !ActiveWith(users[j], identifier)
    requires users[i].password == encrypt(password)
    ensures Login(users, identifier, password, encrypt, sign)
              == Reply(200, LoginOk, Some(sign(ClaimsOf(users[i]))))
  {
    var k := FindOne(users, u => ActiveWith(u, identifier));
    assert k == Some(i);
  }

  /** An unknown identifier and a wrong password cannot be told apart: the replies are equal. */
  lemma LoginFailuresIndistinguishable(users: seq<UserRecord>, unknown: string, known: string,
                                       password: string, encrypt: string -> string, sign: Claims -> Token)
    requires forall i :: 0 <= i < |users| ==> !ActiveWith(users[i], unknown)
    requires forall i :: 0 <= i < |users| && ActiveWith(users[i], known) ==> users[i].password != encrypt(password)
    ensures Login(users, unknown, password, encrypt, sign) == Login(users, known, password, encrypt, sign)
    ensures Login(users, known, password, encrypt, sign) == Reply(403, "User tidak ditemukan", None)
  {
  }

  /** A record that is not active never changes what login answers. */
  lemma {:induction false} LoginIgnoresInactive(users: seq<UserRecord>, u: UserRecord, identifier: string,
                                                password: string, encrypt: string -> string, sign: Claims -> Token)
    requires !u.isActive
    ensures Login(users + [u], identifier, password, encrypt, sign) == Login(users, identifier, password, encrypt, sign)
  {
    var p := (v: UserRecord) => ActiveWith(v, identifier);
    FindOneSkipsAppended(users, u, p);
    match FindOne(users, p)
    case None =>
    case Some(k) => assert (users + [u])[k] == users[k];
  }

  /**
   * `me`: the record whose id is the token's subject. A missing record is
   * not an error: the reply is still 200, with `null` data.
   */
  function Me(users: seq<UserRecord>, claims: Claims): (r: Reply<UserRecord>)
    ensures r.status == 200 && r.message == ProfileOk
    ensures r.data.Some? ==> r.data.value in users && r.data.value.id == claims.id
    ensures r.data.None? <==> forall i :: 0 <= i < |users| ==> users[i].id != claims.id
  {
    match FindOne(users, (u: UserRecord) => u.id == claims.id)
    case None => Reply(200, ProfileOk, None)
    case Some(k) => Reply(200, ProfileOk, Some(users[k]))
  }

  // ---------------------------------------------------------------------
  // Activation
  // ---------------------------------------------------------------------

  /** The directory after `findOneAndUpdate`, and the updated record it returns (`new: true`). */
  datatype Redemption = Redemption(users: seq<UserRecord>, updated: Option<UserRecord>)

  predicate HasCode(u: UserRecord, code: string) { u.activationCode == code }

  /**
   * `findOneAndUpdate({activationCode: code}, {isActive: true})`: the first
   * record with that code becomes active; nothing else changes. The code
   * is not cleared.
   */
  function RedeemActivationCode(users: seq<UserRecord>, code: string): (r: Redemption)
    ensures |r.users| == |users|
    ensures r.updated.None? <==> forall i :: 0 <= i < |users| ==> users[i].activationCode != code
    ensures r.updated.None? ==> r.users == users
    ensures r.updated.Some? ==>
              exists k :: 0 <= k < |users| && users[k].activationCode == code
                && (forall j :: 0 <= j < k ==> users[j].activationCode != code)
                && r.users[k] == users[k].(isActive := true)
                && (forall j :: 0 <= j < |users| && j != k ==> r.users[j] == users[j])
                && r.updated == Some(r.users[k])
  {
    match FindOne(users, (u: UserRecord) => HasCode(u, code))
    case None => Redemption(users, None)
    case Some(k) =>
      var updated := users[k].(isActive := true);
      Redemption(users[k := updated], Some(updated))
  }

  /** Redeeming the same code twice is the same as redeeming it once: the second call changes nothing. */
  lemma RedeemTwice(users: seq<UserRecord>, code: string)
    ensures var once := RedeemActivationCode(users, code);
            RedeemActivationCode(once.users, code) == once
  {
    var p := (u: UserRecord) => HasCode(u, code);
    var once := RedeemActivationCode(users, code);
    match FindOne(users, p)
    case None =>
    case Some(k) =>
      FindOneAgrees(users, once.users, p);
      assert once.users[k := once.users[k].(isActive := true)] == once.users;
  }

  /**
   * Activation opens login: after redeeming the code of the only record
   * answering to the identifier, the right password logs in as it.
   */
  lemma ActivationEnablesLogin(users: seq<UserRecord>, k: nat, identifier: string, password: string,
                               encrypt: string -> string, sign: Claims -> Token)
    requires k < |users|
    requires forall j :: 0 <= j < k ==> users[j].activationCode != users[k].activationCode
    requires users[k].email == identifier || users[k].username == identifier
    requires forall j :: 0 <= j < |users| && j != k ==> users[j].email != identifier && users[j].username != identifier
    requires users[k].password == encrypt(password)
    ensures Login(RedeemActivationCode(users, users[k].activationCode).users, identifier, password, encrypt, sign)
              == Reply(200, LoginOk, Some(sign(Claims(users[k].id, users[k].role))))
  {
    var after := RedeemActivationCode(users, users[k].activationCode).users;
    assert FindOne(users, (u: UserRecord) => HasCode(u, users[k].activationCode)) == Some(k);
    assert after[k] == users[k].(isActive := true);
    LoginFindsOnlyMatch(after, k, identifier, password, encrypt, sign);
  }

  // ---------------------------------------------------------------------
  // The directory
  // ---------------------------------------------------------------------

  /** Ids, usernames and emails are unique across the records (the store's unique indexes). */
  ghost predicate Unique(users: seq<UserRecord>)
  {
    forall i, j :: 0 <= i < j < |users| ==>
      users[i].id != users[j].id && users[i].username != users[j].username && users[i].email != users[j].email
  }

  /** A new record would violate a unique index. */
  predicate Conflicts(users: seq<UserRecord>, id: UserId, username: string, email: string)
  {
    exists u :: u in users && (u.id == id || u.username == username || u.email == email)
  }

  /** The user store: records in insertion order, which the model takes as the order `findOne` scans. */
  class Directory {
    var users: seq<UserRecord>

    ghost predicate Valid()
      reads this
    {
      Unique(users)
    }

    constructor ()
      ensures Valid() && users == []
    {
      users := [];
    }

    /**
     * `register`: validate, then create an inactive USER record holding the
     * encoded password and the activation code. A validation failure or a
     * unique-index violation gives 400 and creates nothing.
     */
    method Register(p: RegisterPayload, id: UserId, activationCode: string,
                    isEmail: string -> bool, encrypt: string -> string) returns (r: Reply<UserRecord>)
      requires Valid()
      modifies this
      ensures Valid()
      ensures Validate(p, isEmail).Some? ==>
                r == Reply(400, Validate(p, isEmail).value.Message(), None) && users == old(users)
      ensures Validate(p, isEmail).None? && Conflicts(old(users), id, p.username, p.email) ==>
                r == Reply(400, DuplicateKeyMessage, None) && users == old(users)
      ensures Validate(p, isEmail).None? && !Conflicts(old(users), id, p.username, p.email) ==>
                var u := UserRecord(id, p.fullName, p.username, p.email, encrypt(p.password), User, false, activationCode);
                r == Reply(200, RegisterOk, Some(u)) && users == old(users) + [u]
    {
      var err := Validate(p, isEmail);
      if err.Some? {
        return Reply(400, err.value.Message(), None);
      }
      if Conflicts(users, id, p.username, p.email) {
        return Reply(400, DuplicateKeyMessage, None);
      }
      var u := UserRecord(id, p.fullName, p.username, p.email, encrypt(p.password), User, false, activationCode);
      users := users + [u];
      r := Reply(200, RegisterOk, Some(u));
    }

    /** `activation`: redeem the code in place; the reply is 200 whether or not a record matched. */
    method Activate(code: string) returns (r: Reply<UserRecord>)
      requires Valid()
      modifies this
      ensures Valid()
      ensures var redeemed := RedeemActivationCode(old(users), code);
              users == redeemed.users && r == Reply(200, ActivationOk, redeemed.updated)
    {
      var redeemed := RedeemActivationCode(users, code);
      forall i, j | 0 <= i < j < |users|
        ensures redeemed.users[i].id == users[i].id && redeemed.users[j].id == users[j].id
        ensures redeemed.users[i].username == users[i].username && redeemed.users[j].username == users[j].username
        ensures redeemed.users[i].email == users[i].email && redeemed.users[j].email == users[j].email
      {
      }
      users := redeemed.users;
      r := Reply(200, ActivationOk, redeemed.updated);
    }
  }
}
