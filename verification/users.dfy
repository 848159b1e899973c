/**
 * Users (models/userModel.js, controllers/userController.js): registration,
 * login, the password-reset code, account approval, roles and the
 * assignment of customers to sales people.
 *
 * Password hashing and comparison are opaque: a hash is an input, and the
 * comparison is a function parameter. Mail, Stripe and Mailchimp calls are
 * left out.
 */
module Users {
  import opened Common
  import Helper

  /** The `verfied` field (spelled so in the schema). */
  datatype Verification = Pending | Rejected | Approved

  /** A stored user; address, company, files and payment methods are left out. */
  datatype User = User(
    firstName: string,
    email: string,
    phone: Option<string>,
    role: string,
    verified: Verification,
    rejectionReason: string,
    assignedTo: Option<Id>,
    otp: Option<string>,
    otpExpiry: Option<int>,
    password: string)

  type UserStore = map<Id, User>

  /** USERTYPES in utils/constants.js. */
  const UserTypes: seq<string> := ["Retailer", "Wholesale", "ChainStore", "Franchise", "SalesPerson"]
  const SalesPerson := Helper.SalesPersonRole
  const MinPassword := 6
  /** The reset code is valid for two minutes, in milliseconds. */
  const OtpLifetime := 2 * 60 * 1000
  const NoReason := "No reason provided"

  const ServerError := "Internal Server Error"
  const FirstNameRequired := "First name is required"
  const EmailMissing := "Email is required"
  const PasswordRequired := "Password is required"
  const ConfirmRequired := "Password confirmation is required"
  const PasswordMismatch := "Passwords do not match"
  const TermsRequired := "You must accept the terms and conditions"
  const CompanyRequired := "Company name is required"
  const PhoneRequired := "Phone number is required"
  const PostalRequired := "Postal code is required"
  const AddressRequired := "Address Line 1 is required"
  const CityRequired := "City is required"
  const StateRequired := "State is required"
  const FileRequired := "At least one file is required"
  const RecaptchaRequired := "reCAPTCHA verification is required"
  const ShortPassword := "Password must be at least 6 characters long"
  const BadEmail := "Invalid email format"
  const TypeRequired := "Business type is required"
  const BadType := "Invalid business type"
  const EmailTaken := "Email is already registered"
  const PhoneTaken := "Phone number is already registered"
  const LoginRequired := "Email or phone and password are required."
  const NotFound := "User not found."
  const NotVerified := "Account not verified. Please check email."
  const BadPassword := "Invalid password."
  const EmailRequired := "Email is required."
  const ResetRequired := "All fields are required."
  const BadOtp := "Invalid or expired OTP."
  const IdRequired := "User ID is required"
  const UserMissing := "User not found"
  const AlreadyRejected := "User is already rejected"
  const AlreadyApproved := "User is already approved"
  const RoleRequired := "User ID and new role are required"
  const BadRole := "Invalid role type"
  const PairRequired := "Customer ID and Sales Person ID are required"
  const SalesPersonMissing := "Sales Person not found"
  const NotSalesPerson := "User is not a Sales Person"
  const CustomerMissing := "Customer not found"
  const CustomerIsSalesPerson := "Cannot assign a Sales Person as a customer to another Sales Person"

  /** JavaScript truthiness of an optional string field. */
  predicate Given(s: Option<string>)
  {
    s.Some? && s.value != []
  }

  // ---------------------------------------------------------------------
  // register
  // ---------------------------------------------------------------------

  /** `/^[^\s@]+@[^\s@]+\.[^\s@]+$/`: no white space, one '@' after something, and a '.' with something on both sides after it. */
  predicate EmailFormat(s: string)
  {
    (forall k :: 0 <= k < |s| ==> !IsSpace(s[k]))
    && exists i :: (0 < i < |s| && s[i] == '@'
      && (forall k :: 0 <= k < |s| && k != i ==> s[k] != '@')
      && exists j :: i + 1 < j < |s| - 1 && s[j] == '.')
  }

  /** The registration body; an absent field is `None`. */
  datatype Registration = Registration(
    firstName: Option<string>,
    email: Option<string>,
    password: Option<string>,
    rePassword: Option<string>,
    agreed: bool,
    companyName: Option<string>,
    phone: Option<string>,
    postalCode: Option<string>,
    addressLine1: Option<string>,
    city: Option<string>,
    state: Option<string>,
    businessType: Option<string>,
    files: nat,
    recaptcha: Option<string>)

  /** One validation of `register`: whether it fails, and its message. */
  datatype Check = Check(failed: bool, message: string)

  /** The validations of `register`, in source order. */
  function RegisterChecks(r: Registration): (cs: seq<Check>)
    ensures |cs| == 18
    ensures cs[12].failed ==> cs[13].failed
    ensures cs[17] == Check(Given(r.email) && !EmailFormat(r.email.value), BadEmail)
  {
    [ Check(!Given(r.firstName), FirstNameRequired),
      Check(!Given(r.email), EmailMissing),
      Check(!Given(r.password), PasswordRequired),
      Check(!Given(r.rePassword), ConfirmRequired),
      Check(Given(r.password) && Given(r.rePassword) && r.password != r.rePassword, PasswordMismatch),
      Check(!r.agreed, TermsRequired),
      Check(!Given(r.companyName), CompanyRequired),
      Check(!Given(r.phone), PhoneRequired),
      Check(!Given(r.postalCode), PostalRequired),
      Check(!Given(r.addressLine1), AddressRequired),
      Check(!Given(r.city), CityRequired),
      Check(!Given(r.state), StateRequired),
      Check(!Given(r.businessType), TypeRequired),
      Check(!Given(r.businessType) || r.businessType.value !in UserTypes, BadType),
      Check(r.files == 0, FileRequired),
      Check(!Given(r.recaptcha), RecaptchaRequired),
      Check(Given(r.password) && |r.password.value| < MinPassword, ShortPassword),
      Check(Given(r.email) && !EmailFormat(r.email.value), BadEmail) ]
  }

  /** Every check runs and overwrites the message: the last failing one is reported. */
  function LastFailing(cs: seq<Check>): (r: Option<nat>)
    ensures r.None? <==> forall i :: 0 <= i < |cs| ==> !cs[i].failed
    ensures r.Some? ==> r.value < |cs| && cs[r.value].failed && forall j :: r.value < j < |cs| ==> !cs[j].failed
    decreases |cs|
  {
    if cs == [] then None
    else if cs[|cs| - 1].failed then Some(|cs| - 1)
    else LastFailing(cs[..|cs| - 1])
  }

  /** The message `register` answers 400 with, if any. */
  function RegisterError(r: Registration): (e: Option<string>)
    ensures e.None? <==> forall i :: 0 <= i < 18 ==> !RegisterChecks(r)[i].failed
    ensures e.None? ==>
      Given(r.firstName) && Given(r.email) && EmailFormat(r.email.value) && Given(r.phone)
      && Given(r.businessType) && r.businessType.value in UserTypes
      && Given(r.password) && r.password == r.rePassword && |r.password.value| >= MinPassword
  {
    var cs := RegisterChecks(r);
    match LastFailing(cs)
    case None =>
      assert !cs[0].failed && !cs[1].failed && !cs[2].failed && !cs[3].failed && !cs[4].failed;
      assert !cs[7].failed && !cs[13].failed && !cs[16].failed && !cs[17].failed;
      None
    case Some(i) => Some(cs[i].message)
  }

  /** A badly formed email overrides every other validation message. */
  lemma InvalidEmailWins(r: Registration)
    requires Given(r.email) && !EmailFormat(r.email.value)
    ensures RegisterError(r) == Some(BadEmail)
  {
    var cs := RegisterChecks(r);
    assert cs[17].failed;
  }

  /** "Business type is required" is always overwritten by "Invalid business type". */
  lemma TypeRequiredNeverReported(r: Registration)
    ensures RegisterError(r) != Some(TypeRequired)
  {
    var cs := RegisterChecks(r);
    var k := LastFailing(cs);
    if k.Some? {
      assert k.value != 12;
      assert cs[k.value].message != TypeRequired;
    }
  }

  /**
   * `register`. After the validations, the lower-cased email and the phone
   * are looked up; a taken email is reported over a taken phone. The new
   * user takes its business type as its role and waits for approval.
   */
  function Register(us: UserStore, r: Registration, hashed: string, newId: Id): (out: Outcome<UserStore, Id>)
    requires newId !in us
    ensures out.result.Err? ==> out.state == us
    ensures RegisterError(r).Some? ==> out.result == Err(400, RegisterError(r).value)
    ensures RegisterError(r).None? && (exists u :: u in us && us[u].email == Lower(r.email.value)) ==>
      out.result == Err(401, EmailTaken)
    ensures out.result.Ok? <==>
      RegisterError(r).None?
      && (forall u :: u in us ==> us[u].email != Lower(r.email.value) && us[u].phone != r.phone)
    ensures out.result.Ok? ==>
      out.result.value == newId && newId in out.state && out.state - {newId} == us
      && var n := out.state[newId];
      n.role in UserTypes && n.verified == Pending && n.assignedTo.None? && n.otp.None?
      && n.email == Lower(r.email.value) && n.phone == r.phone
  {
    if RegisterError(r).Some? then Outcome(us, Err(400, RegisterError(r).value))
    else
      var email := Lower(r.email.value);
      if exists u :: u in us && us[u].email == email then Outcome(us, Err(401, EmailTaken))
      else if exists u :: u in us && us[u].phone == r.phone then Outcome(us, Err(401, PhoneTaken))
      else
        var n := User(r.firstName.value, email, r.phone, r.businessType.value, Pending, "", None, None, None, hashed);
        Outcome(us[newId := n], Ok(newId))
  }

  // ---------------------------------------------------------------------
  // login, forgotpassword and resetPassword
  // ---------------------------------------------------------------------

  /** The users a login identifier finds: by email, case-insensitively, when it holds an '@'; always by exact phone. */
  function LoginMatches(us: UserStore, ident: string): (g: set<Id>)
    ensures forall u :: u in g <==> (u in us
      && (('@' in ident && Lower(us[u].email) == Lower(ident)) || us[u].phone == Some(ident)))
  {
    set u | u in us && (('@' in ident && Lower(us[u].email) == Lower(ident)) || us[u].phone == Some(ident))
  }

  /** `findOne` answers the first match in natural order, modelled as the least id. */
  function First(g: set<Id>): (r: Option<Id>)
    ensures r.None? <==> g == {}
    ensures r.Some? ==> r.value in g && forall v :: v in g ==> r.value <= v
  {
    if g == {} then None else Some(Least(g))
  }

  /**
   * `login`: the account must be approved before the password is even
   * compared; `verify` stands for the password-hash comparison.
   */
  function Login(us: UserStore, ident: Option<string>, password: Option<string>, verify: (string, string) -> bool): (r: Result<Id>)
    ensures !Given(ident) || !Given(password) ==> r == Err(401, LoginRequired)
    ensures r.Ok? <==>
      Given(ident) && Given(password)
      && var m := First(LoginMatches(us, Trim(ident.value)));
      m.Some? && us[m.value].verified == Approved && verify(password.value, us[m.value].password)
    ensures r.Ok? ==> r.value in us && us[r.value].verified == Approved
  {
    if !Given(ident) || !Given(password) then Err(401, LoginRequired)
    else
      var m := First(LoginMatches(us, Trim(ident.value)));
      if m.None? then Err(404, NotFound)
      else if us[m.value].verified != Approved then Err(404, NotVerified)
      else if !verify(password.value, us[m.value].password) then Err(401, BadPassword)
      else Ok(m.value)
  }

  /** The users an email finds, case-insensitively. */
  function EmailMatches(us: UserStore, email: string): (g: set<Id>)
    ensures forall u :: u in g <==> u in us && Lower(us[u].email) == Lower(email)
  {
    set u | u in us && Lower(us[u].email) == Lower(email)
  }

  /** `forgotpassword`: stores a fresh code, valid for two minutes from `now`. */
  function ForgotPassword(us: UserStore, email: Option<string>, code: string, now: int): (out: Outcome<UserStore, Id>)
    ensures out.result.Err? ==> out.state == us
    ensures out.result.Ok? <==> Given(email) && EmailMatches(us, Trim(email.value)) != {}
    ensures out.result.Ok? ==>
      var u := out.result.value;
      u == First(EmailMatches(us, Trim(email.value))).value
      && out.state == us[u := us[u].(otp := Some(code), otpExpiry := Some(now + OtpLifetime))]
  {
    if !Given(email) then Outcome(us, Err(401, EmailRequired))
    else
      var m := First(EmailMatches(us, Trim(email.value)));
      if m.None? then Outcome(us, Err(404, NotFound))
      else
        var u := m.value;
        Outcome(us[u := us[u].(otp := Some(code), otpExpiry := Some(now + OtpLifetime))], Ok(u))
  }

  /** The stored code matches and has not expired at `now`. */
  predicate CodeValid(u: User, code: string, now: int)
  {
    u.otp == Some(code) && u.otpExpiry.Some? && u.otpExpiry.value >= now
  }

  /** `resetPassword`: a valid code sets the new password and is spent. */
  function ResetPassword(us: UserStore, email: Option<string>, code: Option<string>, newPassword: Option<string>, hashed: string, now: int): (out: Outcome<UserStore, Id>)
    ensures out.result.Err? ==> out.state == us
    ensures out.result.Ok? <==>
      Given(email) && Given(code) && Given(newPassword)
      && var m := First(EmailMatches(us, Trim(email.value)));
      m.Some? && CodeValid(us[m.value], code.value, now)
    ensures out.result.Ok? ==>
      var u := out.result.value;
      u in us && out.state == us[u := us[u].(password := hashed, otp := None, otpExpiry := None)]
  {
    if !Given(email) || !Given(code) || !Given(newPassword) then Outcome(us, Err(400, ResetRequired))
    else
      var m := First(EmailMatches(us, Trim(email.value)));
      if m.None? then Outcome(us, Err(404, NotFound))
      else
        var u := m.value;
        if !CodeValid(us[u], code.value, now) then Outcome(us, Err(401, BadOtp))
        else Outcome(us[u := us[u].(password := hashed, otp := None, otpExpiry := None)], Ok(u))
  }

  /** Storing a code changes no email, so the same lookup finds the same user. */
  lemma CodeKeepsEmailMatches(us: UserStore, u: Id, f: User, email: string)
    requires u in us && f.email == us[u].email
    ensures EmailMatches(us[u := f], email) == EmailMatches(us, email)
  {
  }

  /**
   * The code sent by `forgotpassword` resets the password until two minutes
   * have passed, and never after.
   */
  lemma ForgotThenReset(us: UserStore, email: string, code: string, pw: string, hashed: string, now: int, later: int)
    requires email != [] && code != [] && pw != []
    requires EmailMatches(us, Trim(email)) != {}
    ensures var f := ForgotPassword(us, Some(email), code, now);
      (ResetPassword(f.state, Some(email), Some(code), Some(pw), hashed, later).result.Ok? <==> later <= now + OtpLifetime)
  {
    var f := ForgotPassword(us, Some(email), code, now);
    var u := f.result.value;
    CodeKeepsEmailMatches(us, u, f.state[u], Trim(email));
  }

  /** A spent code cannot reset the password a second time. */
  lemma CodeIsSpent(us: UserStore, email: string, code: string, pw: string, hashed: string, now: int, hashed2: string, later: int)
    requires var r := ResetPassword(us, Some(email), Some(code), Some(pw), hashed, now); r.result.Ok?
    ensures var r := ResetPassword(us, Some(email), Some(code), Some(pw), hashed, now);
      ResetPassword(r.state, Some(email), Some(code), Some(pw), hashed2, later).result == Err(401, BadOtp)
  {
    var r := ResetPassword(us, Some(email), Some(code), Some(pw), hashed, now);
    var u := r.result.value;
    CodeKeepsEmailMatches(us, u, r.state[u], Trim(email));
  }

  // ---------------------------------------------------------------------
  // approveUser and rejectUser
  // ---------------------------------------------------------------------

  /** The user an id in the body names: 400 when absent, 500 when not an id, 400 when unknown. */
  function Named(us: UserStore, userId: Option<string>): (r: Result<Id>)
    ensures r.Ok? <==> Given(userId) && Helper.GetMongoId(userId).Some? && Helper.GetMongoId(userId).value in us
    ensures r.Ok? ==> r.value == Helper.GetMongoId(userId).value
  {
    if !Given(userId) then Err(400, IdRequired)
    else
      var id := Helper.GetMongoId(userId);
      if id.None? then Err(500, ServerError)
      else if id.value !in us then Err(400, UserMissing)
      else Ok(id.value)
  }

  /** `approveUser`: only a pending account can be approved. */
  function Approve(us: UserStore, userId: Option<string>): (out: Outcome<UserStore, Id>)
    ensures out.result.Err? ==> out.state == us
    ensures out.result.Ok? <==> Named(us, userId).Ok? && us[Named(us, userId).value].verified == Pending
    ensures out.result.Ok? ==>
      var u := out.result.value; u in us && out.state == us[u := us[u].(verified := Approved)]
  {
    var n := Named(us, userId);
    if n.Err? then Outcome(us, Err(n.status, n.message))
    else
      var u := n.value;
      if us[u].verified != Pending then
        Outcome(us, Err(400, if us[u].verified == Rejected then AlreadyRejected else AlreadyApproved))
      else Outcome(us[u := us[u].(verified := Approved)], Ok(u))
  }

  /** `rejectUser`: the account goes back to pending, with a reason. */
  function Reject(us: UserStore, userId: Option<string>, reason: Option<string>): (out: Outcome<UserStore, Id>)
    ensures out.result.Err? ==> out.state == us
    ensures out.result.Ok? <==> Named(us, userId).Ok?
    ensures out.result.Ok? ==>
      var u := out.result.value;
      u in us && out.state == us[u := us[u].(verified := Pending, rejectionReason := if Given(reason) then reason.value else NoReason)]
  {
    var n := Named(us, userId);
    if n.Err? then Outcome(us, Err(n.status, n.message))
    else
      var u := n.value;
      Outcome(us[u := us[u].(verified := Pending, rejectionReason := if Given(reason) then reason.value else NoReason)], Ok(u))
  }

  /** A rejected account is pending again, so it can still be approved: rejection is never final. */
  lemma RejectThenApprove(us: UserStore, userId: Option<string>, reason: Option<string>)
    requires Named(us, userId).Ok?
    ensures var r := Reject(us, userId, reason);
      Approve(r.state, userId).result.Ok?
  {
    var r := Reject(us, userId, reason);
    assert Named(r.state, userId) == Named(us, userId);
  }

  /** A change that keeps email and phone keeps what a login identifier finds. */
  lemma LoginMatchesKept(us: UserStore, u: Id, f: User, ident: string)
    requires u in us && f.email == us[u].email && f.phone == us[u].phone
    ensures LoginMatches(us[u := f], ident) == LoginMatches(us, ident)
  {
  }

  /** A freshly registered account cannot log in, whatever the password. */
  lemma RegisteredCannotLogIn(us: UserStore, r: Registration, hashed: string, newId: Id, ident: string, pw: string, verify: (string, string) -> bool)
    requires newId !in us && Register(us, r, hashed, newId).result.Ok?
    requires ident != [] && pw != []
    requires First(LoginMatches(Register(us, r, hashed, newId).state, Trim(ident))) == Some(newId)
    ensures Login(Register(us, r, hashed, newId).state, Some(ident), Some(pw), verify) == Err(404, NotVerified)
  {
  }

  /** Once approved, the account logs in with a password its hash accepts. */
  lemma ApproveThenLogin(us: UserStore, userId: Option<string>, ident: string, pw: string, verify: (string, string) -> bool)
    requires Approve(us, userId).result.Ok?
    requires ident != [] && pw != []
    requires var u := Named(us, userId).value;
      First(LoginMatches(us, Trim(ident))) == Some(u) && verify(pw, us[u].password)
    ensures Login(Approve(us, userId).state, Some(ident), Some(pw), verify) == Ok(Named(us, userId).value)
  {
    var u := Named(us, userId).value;
    LoginMatchesKept(us, u, Approve(us, userId).state[u], Trim(ident));
  }

  // ---------------------------------------------------------------------
  // updateUserRole and assignCustomerToSalesPerson
  // ---------------------------------------------------------------------

  /** No sales person has a sales person assignedTo to them. */
  predicate SalesPeopleUnassigned(us: UserStore)
  {
    forall u :: u in us && us[u].role == SalesPerson ==> us[u].assignedTo.None?
  }

  /** Every assignment names an existing sales person. */
  predicate AssignmentsValid(us: UserStore)
  {
    forall u :: u in us && us[u].assignedTo.Some? ==>
      us[u].assignedTo.value in us && us[us[u].assignedTo.value].role == SalesPerson
  }

  /** `$unset` of `assignedSalesPerson` on every customer of `sp`. */
  function Unassign(us: UserStore, sp: Id): (t: UserStore)
    ensures t.Keys == us.Keys
    ensures forall u :: u in t ==> t[u].role == us[u].role
    ensures forall u :: u in t ==> t[u].assignedTo == if us[u].assignedTo == Some(sp) then None else us[u].assignedTo
    ensures forall u :: u in t ==> t[u] == us[u].(assignedTo := t[u].assignedTo)
  {
    map u | u in us :: if us[u].assignedTo == Some(sp) then us[u].(assignedTo := None) else us[u]
  }

  /**
   * `updateUserRole`. Becoming a sales person first unassigns every
   * customer of this user; moving into or out of the sales role clears the
   * user's own assignment.
   */
  function UpdateRole(us: UserStore, userId: Option<string>, userType: Option<string>): (out: Outcome<UserStore, Id>)
    ensures out.result.Err? ==> out.state == us
    ensures out.result.Ok? <==>
      Given(userId) && Given(userType) && userType.value in UserTypes
      && Helper.GetMongoId(userId).Some? && Helper.GetMongoId(userId).value in us
    ensures out.result.Ok? ==>
      var u := out.result.value;
      u in us && out.state.Keys == us.Keys
      && out.state[u].role == userType.value
      && (userType.value == SalesPerson || us[u].role == SalesPerson ==> out.state[u].assignedTo.None?)
      && (userType.value == SalesPerson ==> forall v :: v in out.state ==> out.state[v].assignedTo != Some(u))
      && (forall v :: v in us && v != u ==> out.state[v].role == us[v].role)
  {
    if !Given(userId) || !Given(userType) then Outcome(us, Err(400, RoleRequired))
    else if userType.value !in UserTypes then Outcome(us, Err(400, BadRole))
    else
      var id := Helper.GetMongoId(userId);
      if id.None? then Outcome(us, Err(500, ServerError))
      else if id.value !in us then Outcome(us, Err(404, UserMissing))
      else
        var u := id.value;
        var t := if userType.value == SalesPerson then Unassign(us, u) else us;
        var clear := userType.value == SalesPerson || us[u].role == SalesPerson;
        var n := t[u].(role := userType.value, assignedTo := if clear then None else t[u].assignedTo);
        Outcome(t[u := n], Ok(u))
  }

  /** `assignCustomerToSalesPerson`. */
  function Assign(us: UserStore, customerId: Option<string>, salesPersonId: Option<string>): (out: Outcome<UserStore, Id>)
    ensures out.result.Err? ==> out.state == us
    ensures out.result.Ok? <==>
      Given(customerId) && Given(salesPersonId)
      && var sp := Helper.GetMongoId(salesPersonId);
      var c := Helper.GetMongoId(customerId);
      sp.Some? && sp.value in us && us[sp.value].role == SalesPerson
      && c.Some? && c.value in us && us[c.value].role != SalesPerson
    ensures out.result.Ok? ==>
      var c := out.result.value;
      c in us && out.state == us[c := us[c].(assignedTo := Helper.GetMongoId(salesPersonId))]
  {
    if !Given(customerId) || !Given(salesPersonId) then Outcome(us, Err(400, PairRequired))
    else
      var sp := Helper.GetMongoId(salesPersonId);
      if sp.None? then Outcome(us, Err(500, ServerError))
      else if sp.value !in us then Outcome(us, Err(404, SalesPersonMissing))
      else if us[sp.value].role != SalesPerson then Outcome(us, Err(400, NotSalesPerson))
      else
        var c := Helper.GetMongoId(customerId);
        if c.None? then Outcome(us, Err(500, ServerError))
        else if c.value !in us then Outcome(us, Err(404, CustomerMissing))
        else if us[c.value].role == SalesPerson then Outcome(us, Err(400, CustomerIsSalesPerson))
        else Outcome(us[c.value := us[c.value].(assignedTo := sp)], Ok(c.value))
  }

  /** Role changes and assignments never leave a sales person with an assignment. */
  lemma RoleAndAssignKeepSalesPeopleUnassigned(us: UserStore, a: Option<string>, b: Option<string>)
    requires SalesPeopleUnassigned(us)
    ensures SalesPeopleUnassigned(UpdateRole(us, a, b).state)
    ensures SalesPeopleUnassigned(Assign(us, a, b).state)
  {
  }

  /** An assignment keeps every assignment pointing at a sales person. */
  lemma AssignKeepsAssignmentsValid(us: UserStore, a: Option<string>, b: Option<string>)
    requires AssignmentsValid(us)
    ensures AssignmentsValid(Assign(us, a, b).state)
  {
  }

  /** Promoting a user to sales person keeps every assignment valid: it drops the assignments that named them. */
  lemma PromoteKeepsAssignmentsValid(us: UserStore, a: Option<string>)
    requires AssignmentsValid(us)
    ensures AssignmentsValid(UpdateRole(us, a, Some(SalesPerson)).state)
  {
    var out := UpdateRole(us, a, Some(SalesPerson));
    if out.result.Ok? {
      var u := out.result.value;
      var t := out.state;
      forall v | v in t && t[v].assignedTo.Some?
        ensures t[v].assignedTo.value in t && t[t[v].assignedTo.value].role == SalesPerson
      {
        var w := t[v].assignedTo.value;
        assert w != u;
        assert us[v].assignedTo == Some(w);
      }
    }
  }

  /**
   * Demoting a sales person leaves their customers assignedTo to a user who
   * is no longer a sales person.
   */
  lemma DemotionStrandsCustomers(us: UserStore, idText: string, c: Id)
    requires Helper.GetMongoId(Some(idText)).Some?
    requires var sp := Helper.GetMongoId(Some(idText)).value;
      sp in us && c in us && c != sp && us[c].assignedTo == Some(sp) && us[sp].role == SalesPerson
    ensures var t := UpdateRole(us, Some(idText), Some("Retailer")).state;
      !AssignmentsValid(t)
  {
    var sp := Helper.GetMongoId(Some(idText)).value;
    var t := UpdateRole(us, Some(idText), Some("Retailer")).state;
    assert t[c].assignedTo == Some(sp) && t[sp].role == "Retailer";
  }

  /** No account is in the "rejected" state. */
  predicate NoneRejected(us: UserStore)
  {
    forall u :: u in us ==> us[u].verified != Rejected
  }

  /**
   * No handler ever writes the "rejected" status: rejection puts an account
   * back to pending, so an account can never be seen as rejected.
   */
  lemma RejectedNeverWritten(us: UserStore, a: Option<string>, b: Option<string>, r: Registration, hashed: string, newId: Id)
    requires newId !in us && NoneRejected(us)
    ensures NoneRejected(Register(us, r, hashed, newId).state)
    ensures NoneRejected(Approve(us, a).state)
    ensures NoneRejected(Reject(us, a, b).state)
  {
  }

  /** The same for role changes and assignments, which do not touch the status. */
  lemma RoleAndAssignKeepNoneRejected(us: UserStore, a: Option<string>, b: Option<string>)
    requires NoneRejected(us)
    ensures NoneRejected(UpdateRole(us, a, b).state)
    ensures NoneRejected(Assign(us, a, b).state)
  {
    var out := UpdateRole(us, a, b);
    if out.result.Ok? {
      forall u | u in out.state
        ensures out.state[u].verified != Rejected
      {
      }
    }
  }
}
