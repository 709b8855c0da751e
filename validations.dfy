/** The form schemas of lib/validations.ts. Each schema is a function from the submitted
    form to an `Outcome`: the record when every field passes, otherwise the issues of
    every failed rule, each against its own field and with the message the schema declares.
    Email syntax is decided by Zod and is not visible, so every schema takes it as the
    parameter `isEmail`. */
module Validations {
  import opened Regex
  import opened Schema
  import opened Records

  /** `phoneNumberRegex`, `/^\+234[789][01]\d{8}$/`: the classes between `^` and `$`. */
  const PhoneNumberRegex: seq<CharClass> :=
    [Literal('+'), Literal('2'), Literal('3'), Literal('4'), AnyOf("789"), AnyOf("01")] + Repeat(Digit, 8)

  const Services: seq<string> :=
    ["Initial Consultation", "Follow-up Appointment", "Assessment", "Group Session", "Other"]

  const Timeslots: seq<string> :=
    ["9:00 AM", "9:30 AM", "10:00 AM", "10:30 AM", "11:00 AM", "11:30 AM",
     "1:00 PM", "1:30 PM", "2:00 PM", "2:30 PM", "3:00 PM", "3:30 PM", "4:00 PM"]

  // The messages the schemas declare.
  const NameTooShort := "Name must be at least 2 characters"
  const InvalidEmailAddress := "Please enter a valid email address"
  const PasswordTooShort := "Password must be at least 8 characters"
  const PasswordNoUppercase := "Password must contain at least one uppercase letter"
  const PasswordNoLowercase := "Password must contain at least one lowercase letter"
  const PasswordNoNumber := "Password must contain at least one number"
  const PasswordRequired := "Password is required"
  const NameRequired := "Name is required"
  const IntentionRequired := "Intention is required"
  const MassRequired := "Mass selection is required"
  const DescriptionRequired := "Description is required"
  const AmountRequired := "Amount is required"
  const InvalidPaymentType := "Invalid payment type"
  const ChurchNameRequired := "Church name is required"
  const AddressRequired := "Address is required"
  const PhoneRequired := "Phone number is required"
  const FirstNameTooShort := "Your first name is too short"
  const LastNameTooShort := "Your last name is too short"
  const PhoneMissing := "Please enter a valid a phone number"
  const PhoneFormat := "Phone format (+2348012345678)"
  // The `time` enum gives both `required_error` and `message`. The model reads the first as
  // the message for an absent value and the second for a value outside the list; Zod
  // versions differ in how they combine the two.
  const TimeMissing := "Please select a time"
  const TimeNotListed := "Please select an option"
  const NoteTooShort := "This note is too short"
  const ContactNameTooShort := "Name is too short"
  const SubjectTooShort := "Subject is too short"
  const BodyTooShort := "The body is too short"

  predicate IsAsciiDigit(ch: char) {
    '0' <= ch <= '9'
  }

  /** A Nigerian mobile number, position by position: `+234`, then 7, 8 or 9, then 0 or 1,
      then eight ASCII digits, and nothing else. */
  predicate IsNigerianMobile(s: string) {
    && |s| == 14
    && s[0] == '+' && s[1] == '2' && s[2] == '3' && s[3] == '4'
    && s[4] in "789"
    && s[5] in "01"
    && forall i :: 6 <= i < 14 ==> IsAsciiDigit(s[i])
  }

  /** The phone regular expression accepts exactly the Nigerian mobile numbers. */
  lemma PhoneRegexMatchesExactly(s: string)
    ensures FullMatch(PhoneNumberRegex, s) <==> IsNigerianMobile(s)
  {
    var p := PhoneNumberRegex;
    assert |p| == 14;
    assert p[0] == Literal('+') && p[1] == Literal('2') && p[2] == Literal('3') && p[3] == Literal('4');
    assert p[4] == AnyOf("789") && p[5] == AnyOf("01");
    assert forall i :: 6 <= i < 14 ==> p[i] == Digit;
  }

  /** Two numbers the phone rule accepts. */
  lemma PhoneAccepted()
    ensures FullMatch(PhoneNumberRegex, "+2348012345678")
    ensures FullMatch(PhoneNumberRegex, "+2347112345678")
  {
    var mtn, glo := "+2348012345678", "+2347112345678";
    assert forall i :: 6 <= i < 14 ==> IsAsciiDigit(mtn[i]) && IsAsciiDigit(glo[i]);
    assert IsNigerianMobile(mtn) && IsNigerianMobile(glo);
    PhoneRegexMatchesExactly(mtn);
    PhoneRegexMatchesExactly(glo);
  }

  /** Two numbers it rejects: one whose fifth digit is not 0 or 1, and one written
      without the country code. */
  lemma PhoneRejected()
    ensures !FullMatch(PhoneNumberRegex, "+2349212345678")
    ensures !FullMatch(PhoneNumberRegex, "08012345678")
  {
    PhoneRegexMatchesExactly("+2349212345678");
  }

  /** The thirteen time slots are pairwise distinct. */
  lemma TimeslotsDistinct()
    ensures |Timeslots| == 13
    ensures forall i, j :: 0 <= i < j < |Timeslots| ==> Timeslots[i] != Timeslots[j]
  {
  }

  predicate HasUppercase(s: string) {
    exists i :: 0 <= i < |s| && 'A' <= s[i] <= 'Z'
  }

  predicate HasLowercase(s: string) {
    exists i :: 0 <= i < |s| && 'a' <= s[i] <= 'z'
  }

  predicate HasDigit(s: string) {
    exists i :: 0 <= i < |s| && IsAsciiDigit(s[i])
  }

  /** The registration password policy: at least 8 characters, and at least one
      uppercase letter, one lowercase letter and one digit (all ASCII). */
  predicate IsStrongPassword(s: string) {
    |s| >= 8 && HasUppercase(s) && HasLowercase(s) && HasDigit(s)
  }

  /** The password refinements of `registerSchema`, all of them checked, in their declared order. */
  function PasswordMessages(password: string): (r: seq<string>)
    ensures r == [] <==> IsStrongPassword(password)
    ensures PasswordTooShort in r <==> |password| < 8
    ensures PasswordNoUppercase in r <==> !HasUppercase(password)
    ensures PasswordNoLowercase in r <==> !HasLowercase(password)
    ensures PasswordNoNumber in r <==> !HasDigit(password)
    ensures forall m :: m in r ==> m in {PasswordTooShort, PasswordNoUppercase, PasswordNoLowercase, PasswordNoNumber}
  {
    Rule(|password| >= 8, PasswordTooShort)
    + Rule(Test(Span('A', 'Z'), password), PasswordNoUppercase)
    + Rule(Test(Span('a', 'z'), password), PasswordNoLowercase)
    + Rule(Test(Digit, password), PasswordNoNumber)
  }

  /** `Passw0rd` meets all four password rules. */
  lemma StrongPasswordExample()
    ensures IsStrongPassword("Passw0rd")
  {
    var p := "Passw0rd";
    assert p[0] == 'P' && p[1] == 'a' && p[5] == '0';
  }

  /** A password of at least 8 lowercase letters breaks exactly two rules, and both are
      reported, in declared order. */
  lemma LowercasePasswordMessages(password: string)
    requires |password| >= 8
    requires forall i :: 0 <= i < |password| ==> 'a' <= password[i] <= 'z'
    ensures PasswordMessages(password) == [PasswordNoUppercase, PasswordNoNumber]
  {
    assert !HasUppercase(password) && !HasDigit(password) && HasLowercase(password) by {
      assert 'a' <= password[0] <= 'z';
    }
  }

  /** `password` is one of them. */
  lemma WeakPasswordExample()
    ensures PasswordMessages("password") == [PasswordNoUppercase, PasswordNoNumber]
  {
    var p := "password";
    assert forall i :: 0 <= i < |p| ==> 'a' <= p[i] <= 'z';
    LowercasePasswordMessages(p);
  }

  /** The fields of `registerSchema` that have rules, in declared order. `phone` is `optional()`. */
  const RegisterPaths: seq<string> := ["name", "email", "password"]

  /** What each of those fields reports, in the same order. */
  function RegisterFields(isEmail: string -> bool, form: Form): seq<seq<string>> {
    [StringField(form, "name", Required, Rule(|Value(form, "name")| >= 2, NameTooShort)),
     StringField(form, "email", Required, Rule(isEmail(Value(form, "email")), InvalidEmailAddress)),
     StringField(form, "password", Required, PasswordMessages(Value(form, "password")))]
  }

  /** `registerSchema`. */
  function RegisterSchema(isEmail: string -> bool, form: Form): Outcome<Registration> {
    Object(RegisterPaths, RegisterFields(isEmail, form),
      Registration(Value(form, "name"), Value(form, "email"), Value(form, "password"), Optional(form, "phone")))
  }

  /** What `registerSchema` is declared to report against each field: an absent value its
      "required" message, a present one the message of each rule it breaks, in order;
      nothing against any other name. */
  function RegisterExpected(isEmail: string -> bool, form: Form, path: string): seq<string> {
    if path == "name" then
      (if "name" !in form then [Required] else if |form["name"]| < 2 then [NameTooShort] else [])
    else if path == "email" then
      (if "email" !in form then [Required] else if !isEmail(form["email"]) then [InvalidEmailAddress] else [])
    else if path == "password" then
      (if "password" !in form then [Required] else PasswordMessages(form["password"]))
    else []
  }

  /** Each field of `registerSchema` reports exactly what the schema declares for it. */
  lemma RegisterFieldsDeclared(isEmail: string -> bool, form: Form)
    ensures forall k {:trigger RegisterFields(isEmail, form)[k]} :: 0 <= k < |RegisterPaths| ==>
      RegisterFields(isEmail, form)[k] == RegisterExpected(isEmail, form, RegisterPaths[k])
  {
  }


  /** `registerSchema` reports against each field exactly what it declares, and nothing
      against a name that is not one of its fields. */
  lemma RegisterSchemaReports(isEmail: string -> bool, form: Form, path: string)
    ensures MessagesAt(Errors(RegisterSchema(isEmail, form)), path) == RegisterExpected(isEmail, form, path)
  {
    var expected := p => RegisterExpected(isEmail, form, p);
    RegisterFieldsDeclared(isEmail, form);
    assert Distinct(RegisterPaths);
    ObjectReports(RegisterPaths, RegisterFields(isEmail, form), Registration(Value(form, "name"), Value(form, "email"), Value(form, "password"), Optional(form, "phone")), expected, path);
  }

  /** `registerSchema` accepts exactly the forms that meet every rule, and what it returns
      then is the submitted text, field for field. */
  lemma RegisterSchemaAccepts(isEmail: string -> bool, form: Form)
    ensures var r := RegisterSchema(isEmail, form);
      && (r.Valid? <==>
           "name" in form && |form["name"]| >= 2
           && "email" in form && isEmail(form["email"])
           && "password" in form && IsStrongPassword(form["password"]))
      && (r.Valid? ==> r.value == Registration(form["name"], form["email"], form["password"], Optional(form, "phone")))
  {
    var reports := RegisterFields(isEmail, form);
    assert reports[0] == [] <==> "name" in form && |form["name"]| >= 2;
    assert reports[1] == [] <==> "email" in form && isEmail(form["email"]);
    assert reports[2] == [] <==> "password" in form && IsStrongPassword(form["password"]);
  }

  /** The fields of `loginSchema` that have rules, in declared order. */
  const LoginPaths: seq<string> := ["email", "password"]

  /** What each of those fields reports, in the same order. */
  function LoginFields(isEmail: string -> bool, form: Form): seq<seq<string>> {
    [StringField(form, "email", Required, Rule(isEmail(Value(form, "email")), InvalidEmailAddress)),
     StringField(form, "password", Required, Rule(|Value(form, "password")| >= 1, PasswordRequired))]
  }

  /** `loginSchema`. */
  function LoginSchema(isEmail: string -> bool, form: Form): Outcome<Login> {
    Object(LoginPaths, LoginFields(isEmail, form),
      Login(Value(form, "email"), Value(form, "password")))
  }

  /** What `loginSchema` is declared to report against each field: an absent value its
      "required" message, a present one the message of each rule it breaks, in order;
      nothing against any other name. */
  function LoginExpected(isEmail: string -> bool, form: Form, path: string): seq<string> {
    if path == "email" then
      (if "email" !in form then [Required] else if !isEmail(form["email"]) then [InvalidEmailAddress] else [])
    else if path == "password" then
      (if "password" !in form then [Required] else if form["password"] == "" then [PasswordRequired] else [])
    else []
  }

  /** Each field of `loginSchema` reports exactly what the schema declares for it. */
  lemma LoginFieldsDeclared(isEmail: string -> bool, form: Form)
    ensures forall k {:trigger LoginFields(isEmail, form)[k]} :: 0 <= k < |LoginPaths| ==>
      LoginFields(isEmail, form)[k] == LoginExpected(isEmail, form, LoginPaths[k])
  {
  }


  /** `loginSchema` reports against each field exactly what it declares, and nothing
      against a name that is not one of its fields. */
  lemma LoginSchemaReports(isEmail: string -> bool, form: Form, path: string)
    ensures MessagesAt(Errors(LoginSchema(isEmail, form)), path) == LoginExpected(isEmail, form, path)
  {
    var expected := p => LoginExpected(isEmail, form, p);
    LoginFieldsDeclared(isEmail, form);
    assert Distinct(LoginPaths);
    ObjectReports(LoginPaths, LoginFields(isEmail, form), Login(Value(form, "email"), Value(form, "password")), expected, path);
  }

  /** `loginSchema` accepts exactly the forms that meet every rule, and what it returns
      then is the submitted text, field for field. */
  lemma LoginSchemaAccepts(isEmail: string -> bool, form: Form)
    ensures var r := LoginSchema(isEmail, form);
      && (r.Valid? <==>
           "email" in form && isEmail(form["email"])
           && "password" in form && form["password"] != "")
      && (r.Valid? ==> r.value == Login(form["email"], form["password"]))
  {
    var reports := LoginFields(isEmail, form);
    assert reports[0] == [] <==> "email" in form && isEmail(form["email"]);
    assert reports[1] == [] <==> "password" in form && form["password"] != "";
  }

  /** The fields of `profileUpdateSchema` that have rules, in declared order. `phone` is `optional()`. */
  const ProfileUpdatePaths: seq<string> := ["name"]

  /** What each of those fields reports, in the same order. */
  function ProfileUpdateFields(form: Form): seq<seq<string>> {
    [StringField(form, "name", Required, Rule(|Value(form, "name")| >= 2, NameTooShort))]
  }

  /** `profileUpdateSchema`. */
  function ProfileUpdateSchema(form: Form): Outcome<ProfileUpdate> {
    Object(ProfileUpdatePaths, ProfileUpdateFields(form),
      ProfileUpdate(Value(form, "name"), Optional(form, "phone")))
  }

  /** What `profileUpdateSchema` is declared to report against each field: an absent value its
      "required" message, a present one the message of each rule it breaks, in order;
      nothing against any other name. */
  function ProfileUpdateExpected(form: Form, path: string): seq<string> {
    if path == "name" then
      (if "name" !in form then [Required] else if |form["name"]| < 2 then [NameTooShort] else [])
    else []
  }

  /** Each field of `profileUpdateSchema` reports exactly what the schema declares for it. */
  lemma ProfileUpdateFieldsDeclared(form: Form)
    ensures forall k {:trigger ProfileUpdateFields(form)[k]} :: 0 <= k < |ProfileUpdatePaths| ==>
      ProfileUpdateFields(form)[k] == ProfileUpdateExpected(form, ProfileUpdatePaths[k])
  {
  }


  /** `profileUpdateSchema` reports against each field exactly what it declares, and nothing
      against a name that is not one of its fields. */
  lemma ProfileUpdateSchemaReports(form: Form, path: string)
    ensures MessagesAt(Errors(ProfileUpdateSchema(form)), path) == ProfileUpdateExpected(form, path)
  {
    var expected := p => ProfileUpdateExpected(form, p);
    ProfileUpdateFieldsDeclared(form);
    assert Distinct(ProfileUpdatePaths);
    ObjectReports(ProfileUpdatePaths, ProfileUpdateFields(form), ProfileUpdate(Value(form, "name"), Optional(form, "phone")), expected, path);
  }

  /** `profileUpdateSchema` accepts exactly the forms that meet every rule, and what it returns
      then is the submitted text, field for field. */
  lemma ProfileUpdateSchemaAccepts(form: Form)
    ensures var r := ProfileUpdateSchema(form);
      && (r.Valid? <==>
           "name" in form && |form["name"]| >= 2)
      && (r.Valid? ==> r.value == ProfileUpdate(form["name"], Optional(form, "phone")))
  {
    var reports := ProfileUpdateFields(form);
    assert reports[0] == [] <==> "name" in form && |form["name"]| >= 2;
  }

  /** The fields of `massIntentionSchema` that have rules, in declared order. */
  const MassIntentionPaths: seq<string> := ["name", "intention", "massId"]

  /** What each of those fields reports, in the same order. */
  function MassIntentionFields(form: Form): seq<seq<string>> {
    [StringField(form, "name", Required, Rule(|Value(form, "name")| >= 1, NameRequired)),
     StringField(form, "intention", Required, Rule(|Value(form, "intention")| >= 1, IntentionRequired)),
     StringField(form, "massId", Required, Rule(|Value(form, "massId")| >= 1, MassRequired))]
  }

  /** `massIntentionSchema`. */
  function MassIntentionSchema(form: Form): Outcome<MassIntention> {
    Object(MassIntentionPaths, MassIntentionFields(form),
      MassIntention(Value(form, "name"), Value(form, "intention"), Value(form, "massId")))
  }

  /** What `massIntentionSchema` is declared to report against each field: an absent value its
      "required" message, a present one the message of each rule it breaks, in order;
      nothing against any other name. */
  function MassIntentionExpected(form: Form, path: string): seq<string> {
    if path == "name" then
      (if "name" !in form then [Required] else if form["name"] == "" then [NameRequired] else [])
    else if path == "intention" then
      (if "intention" !in form then [Required] else if form["intention"] == "" then [IntentionRequired] else [])
    else if path == "massId" then
      (if "massId" !in form then [Required] else if form["massId"] == "" then [MassRequired] else [])
    else []
  }

  /** Each field of `massIntentionSchema` reports exactly what the schema declares for it. */
  lemma MassIntentionFieldsDeclared(form: Form)
    ensures forall k {:trigger MassIntentionFields(form)[k]} :: 0 <= k < |MassIntentionPaths| ==>
      MassIntentionFields(form)[k] == MassIntentionExpected(form, MassIntentionPaths[k])
  {
  }


  /** `massIntentionSchema` reports against each field exactly what it declares, and nothing
      against a name that is not one of its fields. */
  lemma MassIntentionSchemaReports(form: Form, path: string)
    ensures MessagesAt(Errors(MassIntentionSchema(form)), path) == MassIntentionExpected(form, path)
  {
    var expected := p => MassIntentionExpected(form, p);
    MassIntentionFieldsDeclared(form);
    assert Distinct(MassIntentionPaths);
    ObjectReports(MassIntentionPaths, MassIntentionFields(form), MassIntention(Value(form, "name"), Value(form, "intention"), Value(form, "massId")), expected, path);
  }

  /** `massIntentionSchema` accepts exactly the forms that meet every rule, and what it returns
      then is the submitted text, field for field. */
  lemma MassIntentionSchemaAccepts(form: Form)
    ensures var r := MassIntentionSchema(form);
      && (r.Valid? <==>
           "name" in form && form["name"] != ""
           && "intention" in form && form["intention"] != ""
           && "massId" in form && form["massId"] != "")
      && (r.Valid? ==> r.value == MassIntention(form["name"], form["intention"], form["massId"]))
  {
    var reports := MassIntentionFields(form);
    assert reports[0] == [] <==> "name" in form && form["name"] != "";
    assert reports[1] == [] <==> "intention" in form && form["intention"] != "";
    assert reports[2] == [] <==> "massId" in form && form["massId"] != "";
  }

  /** The fields of `thanksgivingSchema` that have rules, in declared order. */
  const ThanksgivingPaths: seq<string> := ["description", "massId"]

  /** What each of those fields reports, in the same order. */
  function ThanksgivingFields(form: Form): seq<seq<string>> {
    [StringField(form, "description", Required, Rule(|Value(form, "description")| >= 1, DescriptionRequired)),
     StringField(form, "massId", Required, Rule(|Value(form, "massId")| >= 1, MassRequired))]
  }

  /** `thanksgivingSchema`. */
  function ThanksgivingSchema(form: Form): Outcome<Thanksgiving> {
    Object(ThanksgivingPaths, ThanksgivingFields(form),
      Thanksgiving(Value(form, "description"), Value(form, "massId")))
  }

  /** What `thanksgivingSchema` is declared to report against each field: an absent value its
      "required" message, a present one the message of each rule it breaks, in order;
      nothing against any other name. */
  function ThanksgivingExpected(form: Form, path: string): seq<string> {
    if path == "description" then
      (if "description" !in form then [Required] else if form["description"] == "" then [DescriptionRequired] else [])
    else if path == "massId" then
      (if "massId" !in form then [Required] else if form["massId"] == "" then [MassRequired] else [])
    else []
  }

  /** Each field of `thanksgivingSchema` reports exactly what the schema declares for it. */
  lemma ThanksgivingFieldsDeclared(form: Form)
    ensures forall k {:trigger ThanksgivingFields(form)[k]} :: 0 <= k < |ThanksgivingPaths| ==>
      ThanksgivingFields(form)[k] == ThanksgivingExpected(form, ThanksgivingPaths[k])
  {
  }


  /** `thanksgivingSchema` reports against each field exactly what it declares, and nothing
      against a name that is not one of its fields. */
  lemma ThanksgivingSchemaReports(form: Form, path: string)
    ensures MessagesAt(Errors(ThanksgivingSchema(form)), path) == ThanksgivingExpected(form, path)
  {
    var expected := p => ThanksgivingExpected(form, p);
    ThanksgivingFieldsDeclared(form);
    assert Distinct(ThanksgivingPaths);
    ObjectReports(ThanksgivingPaths, ThanksgivingFields(form), Thanksgiving(Value(form, "description"), Value(form, "massId")), expected, path);
  }

  /** `thanksgivingSchema` accepts exactly the forms that meet every rule, and what it returns
      then is the submitted text, field for field. */
  lemma ThanksgivingSchemaAccepts(form: Form)
    ensures var r := ThanksgivingSchema(form);
      && (r.Valid? <==>
           "description" in form && form["description"] != ""
           && "massId" in form && form["massId"] != "")
      && (r.Valid? ==> r.value == Thanksgiving(form["description"], form["massId"]))
  {
    var reports := ThanksgivingFields(form);
    assert reports[0] == [] <==> "description" in form && form["description"] != "";
    assert reports[1] == [] <==> "massId" in form && form["massId"] != "";
  }

  /** The values `z.enum` allows for a payment's `type`. */
  const PaymentTypes: seq<string> := ["DONATION", "OFFERING"]

  /** The fields of `paymentSchema` that have rules, in declared order. The `errorMap` of `type` gives every issue of that field, an absent value included, the one message "Invalid payment type"; `category`, `description` and `goalId` are `optional()`. */
  const PaymentPaths: seq<string> := ["amount", "type"]

  /** What each of those fields reports, in the same order. */
  function PaymentFields(form: Form): seq<seq<string>> {
    [StringField(form, "amount", Required, Rule(|Value(form, "amount")| >= 1, AmountRequired)),
     EnumField(form, "type", PaymentTypes, InvalidPaymentType, InvalidPaymentType)]
  }

  /** `paymentSchema`. */
  function PaymentSchema(form: Form): Outcome<Payment> {
    Object(PaymentPaths, PaymentFields(form),
      Payment(Value(form, "amount"), Value(form, "type"), Optional(form, "category"), Optional(form, "description"), Optional(form, "goalId")))
  }

  /** What `paymentSchema` is declared to report against each field: an absent value its
      "required" message, a present one the message of each rule it breaks, in order;
      nothing against any other name. */
  function PaymentExpected(form: Form, path: string): seq<string> {
    if path == "amount" then
      (if "amount" !in form then [Required] else if form["amount"] == "" then [AmountRequired] else [])
    else if path == "type" then
      (if "type" !in form || (form["type"] != "DONATION" && form["type"] != "OFFERING") then [InvalidPaymentType] else [])
    else []
  }

  /** Each field of `paymentSchema` reports exactly what the schema declares for it. */
  lemma PaymentFieldsDeclared(form: Form)
    ensures forall k {:trigger PaymentFields(form)[k]} :: 0 <= k < |PaymentPaths| ==>
      PaymentFields(form)[k] == PaymentExpected(form, PaymentPaths[k])
  {
  }


  /** `paymentSchema` reports against each field exactly what it declares, and nothing
      against a name that is not one of its fields. */
  lemma PaymentSchemaReports(form: Form, path: string)
    ensures MessagesAt(Errors(PaymentSchema(form)), path) == PaymentExpected(form, path)
  {
    var expected := p => PaymentExpected(form, p);
    PaymentFieldsDeclared(form);
    assert Distinct(PaymentPaths);
    ObjectReports(PaymentPaths, PaymentFields(form), Payment(Value(form, "amount"), Value(form, "type"), Optional(form, "category"), Optional(form, "description"), Optional(form, "goalId")), expected, path);
  }

  /** `paymentSchema` accepts exactly the forms that meet every rule, and what it returns
      then is the submitted text, field for field. */
  lemma PaymentSchemaAccepts(form: Form)
    ensures var r := PaymentSchema(form);
      && (r.Valid? <==>
           "amount" in form && form["amount"] != ""
           && "type" in form && (form["type"] == "DONATION" || form["type"] == "OFFERING"))
      && (r.Valid? ==> r.value == Payment(form["amount"], form["type"], Optional(form, "category"), Optional(form, "description"), Optional(form, "goalId")))
  {
    var reports := PaymentFields(form);
    assert reports[0] == [] <==> "amount" in form && form["amount"] != "";
    assert reports[1] == [] <==> "type" in form && (form["type"] == "DONATION" || form["type"] == "OFFERING");
  }

  /** The fields of `churchInfoSchema` that have rules, in declared order. `mission`, `vision` and `history` are `optional()`; the church phone is only required to be non-empty. */
  const ChurchInfoPaths: seq<string> := ["name", "address", "phone", "email"]

  /** What each of those fields reports, in the same order. */
  function ChurchInfoFields(isEmail: string -> bool, form: Form): seq<seq<string>> {
    [StringField(form, "name", Required, Rule(|Value(form, "name")| >= 1, ChurchNameRequired)),
     StringField(form, "address", Required, Rule(|Value(form, "address")| >= 1, AddressRequired)),
     StringField(form, "phone", Required, Rule(|Value(form, "phone")| >= 1, PhoneRequired)),
     StringField(form, "email", Required, Rule(isEmail(Value(form, "email")), InvalidEmailAddress))]
  }

  /** `churchInfoSchema`. */
  function ChurchInfoSchema(isEmail: string -> bool, form: Form): Outcome<ChurchInfo> {
    Object(ChurchInfoPaths, ChurchInfoFields(isEmail, form),
      ChurchInfo(Value(form, "name"), Value(form, "address"), Value(form, "phone"), Value(form, "email"), Optional(form, "mission"), Optional(form, "vision"), Optional(form, "history")))
  }

  /** What `churchInfoSchema` is declared to report against each field: an absent value its
      "required" message, a present one the message of each rule it breaks, in order;
      nothing against any other name. */
  function ChurchInfoExpected(isEmail: string -> bool, form: Form, path: string): seq<string> {
    if path == "name" then
      (if "name" !in form then [Required] else if form["name"] == "" then [ChurchNameRequired] else [])
    else if path == "address" then
      (if "address" !in form then [Required] else if form["address"] == "" then [AddressRequired] else [])
    else if path == "phone" then
      (if "phone" !in form then [Required] else if form["phone"] == "" then [PhoneRequired] else [])
    else if path == "email" then
      (if "email" !in form then [Required] else if !isEmail(form["email"]) then [InvalidEmailAddress] else [])
    else []
  }

  /** The first 2 fields of `churchInfoSchema` report what the schema declares for them. */
  lemma ChurchInfoFieldsDeclaredFirst(isEmail: string -> bool, form: Form)
    ensures forall k {:trigger ChurchInfoFields(isEmail, form)[k]} :: 0 <= k < 2 ==>
      ChurchInfoFields(isEmail, form)[k] == ChurchInfoExpected(isEmail, form, ChurchInfoPaths[k])
  {
  }

  /** The other fields of `churchInfoSchema` report what the schema declares for them. */
  lemma ChurchInfoFieldsDeclaredLast(isEmail: string -> bool, form: Form)
    ensures forall k {:trigger ChurchInfoFields(isEmail, form)[k]} :: 2 <= k < |ChurchInfoPaths| ==>
      ChurchInfoFields(isEmail, form)[k] == ChurchInfoExpected(isEmail, form, ChurchInfoPaths[k])
  {
  }

  /** Each field of `churchInfoSchema` reports exactly what the schema declares for it. */
  lemma ChurchInfoFieldsDeclared(isEmail: string -> bool, form: Form)
    ensures forall k {:trigger ChurchInfoFields(isEmail, form)[k]} :: 0 <= k < |ChurchInfoPaths| ==>
      ChurchInfoFields(isEmail, form)[k] == ChurchInfoExpected(isEmail, form, ChurchInfoPaths[k])
  {
    ChurchInfoFieldsDeclaredFirst(isEmail, form);
    ChurchInfoFieldsDeclaredLast(isEmail, form);
  }


  /** `churchInfoSchema` reports against each field exactly what it declares, and nothing
      against a name that is not one of its fields. */
  lemma ChurchInfoSchemaReports(isEmail: string -> bool, form: Form, path: string)
    ensures MessagesAt(Errors(ChurchInfoSchema(isEmail, form)), path) == ChurchInfoExpected(isEmail, form, path)
  {
    var expected := p => ChurchInfoExpected(isEmail, form, p);
    ChurchInfoFieldsDeclared(isEmail, form);
    assert Distinct(ChurchInfoPaths);
    ObjectReports(ChurchInfoPaths, ChurchInfoFields(isEmail, form), ChurchInfo(Value(form, "name"), Value(form, "address"), Value(form, "phone"), Value(form, "email"), Optional(form, "mission"), Optional(form, "vision"), Optional(form, "history")), expected, path);
  }

  /** `churchInfoSchema` accepts exactly the forms that meet every rule, and what it returns
      then is the submitted text, field for field. */
  lemma ChurchInfoSchemaAccepts(isEmail: string -> bool, form: Form)
    ensures var r := ChurchInfoSchema(isEmail, form);
      && (r.Valid? <==>
           "name" in form && form["name"] != ""
           && "address" in form && form["address"] != ""
           && "phone" in form && form["phone"] != ""
           && "email" in form && isEmail(form["email"]))
      && (r.Valid? ==> r.value == ChurchInfo(form["name"], form["address"], form["phone"], form["email"], Optional(form, "mission"), Optional(form, "vision"), Optional(form, "history")))
  {
    var reports := ChurchInfoFields(isEmail, form);
    assert reports[0] == [] <==> "name" in form && form["name"] != "";
    assert reports[1] == [] <==> "address" in form && form["address"] != "";
    assert reports[2] == [] <==> "phone" in form && form["phone"] != "";
    assert reports[3] == [] <==> "email" in form && isEmail(form["email"]);
  }

  /** The fields of `appointmentSchema` that have rules, in declared order. `date` is a bare `z.string()`, and the `service` enum is commented out, so no rule mentions a service. */
  const AppointmentPaths: seq<string> := ["firstName", "lastName", "email", "phoneNumer", "date", "time", "notes"]

  /** What each of those fields reports, in the same order. */
  function AppointmentFields(isEmail: string -> bool, form: Form): seq<seq<string>> {
    [StringField(form, "firstName", Required, Rule(|Value(form, "firstName")| >= 2, FirstNameTooShort)),
     StringField(form, "lastName", Required, Rule(|Value(form, "lastName")| >= 2, LastNameTooShort)),
     StringField(form, "email", Required, Rule(isEmail(Value(form, "email")), InvalidEmail)),
     StringField(form, "phoneNumer", PhoneMissing, Rule(FullMatch(PhoneNumberRegex, Value(form, "phoneNumer")), PhoneFormat)),
     StringField(form, "date", Required, []),
     EnumField(form, "time", Timeslots, TimeMissing, TimeNotListed),
     StringField(form, "notes", Required, Rule(|Value(form, "notes")| >= 12, NoteTooShort))]
  }

  /** `appointmentSchema`. */
  function AppointmentSchema(isEmail: string -> bool, form: Form): Outcome<AppointmentRequest> {
    Object(AppointmentPaths, AppointmentFields(isEmail, form),
      AppointmentRequest(Value(form, "firstName"), Value(form, "lastName"), Value(form, "email"), Value(form, "phoneNumer"), Value(form, "date"), Value(form, "time"), Value(form, "notes")))
  }

  /** What `appointmentSchema` is declared to report against each field: an absent value its
      "required" message, a present one the message of each rule it breaks, in order;
      nothing against any other name. */
  function AppointmentExpected(isEmail: string -> bool, form: Form, path: string): seq<string> {
    if path == "firstName" then
      (if "firstName" !in form then [Required] else if |form["firstName"]| < 2 then [FirstNameTooShort] else [])
    else if path == "lastName" then
      (if "lastName" !in form then [Required] else if |form["lastName"]| < 2 then [LastNameTooShort] else [])
    else if path == "email" then
      (if "email" !in form then [Required] else if !isEmail(form["email"]) then [InvalidEmail] else [])
    else if path == "phoneNumer" then
      (if "phoneNumer" !in form then [PhoneMissing] else if !IsNigerianMobile(form["phoneNumer"]) then [PhoneFormat] else [])
    else if path == "date" then
      (if "date" !in form then [Required] else [])
    else if path == "time" then
      (if "time" !in form then [TimeMissing] else if form["time"] !in Timeslots then [TimeNotListed] else [])
    else if path == "notes" then
      (if "notes" !in form then [Required] else if |form["notes"]| < 12 then [NoteTooShort] else [])
    else []
  }

  /** The first 4 fields of `appointmentSchema` report what the schema declares for them. */
  lemma AppointmentFieldsDeclaredFirst(isEmail: string -> bool, form: Form)
    ensures forall k {:trigger AppointmentFields(isEmail, form)[k]} :: 0 <= k < 4 ==>
      AppointmentFields(isEmail, form)[k] == AppointmentExpected(isEmail, form, AppointmentPaths[k])
  {
    PhoneRegexMatchesExactly(Value(form, "phoneNumer"));
  }

  /** The other fields of `appointmentSchema` report what the schema declares for them. */
  lemma AppointmentFieldsDeclaredLast(isEmail: string -> bool, form: Form)
    ensures forall k {:trigger AppointmentFields(isEmail, form)[k]} :: 4 <= k < |AppointmentPaths| ==>
      AppointmentFields(isEmail, form)[k] == AppointmentExpected(isEmail, form, AppointmentPaths[k])
  {
  }

  /** Each field of `appointmentSchema` reports exactly what the schema declares for it. */
  lemma AppointmentFieldsDeclared(isEmail: string -> bool, form: Form)
    ensures forall k {:trigger AppointmentFields(isEmail, form)[k]} :: 0 <= k < |AppointmentPaths| ==>
      AppointmentFields(isEmail, form)[k] == AppointmentExpected(isEmail, form, AppointmentPaths[k])
  {
    AppointmentFieldsDeclaredFirst(isEmail, form);
    AppointmentFieldsDeclaredLast(isEmail, form);
  }


  /** `appointmentSchema` reports against each field exactly what it declares, and nothing
      against a name that is not one of its fields. */
  lemma AppointmentSchemaReports(isEmail: string -> bool, form: Form, path: string)
    ensures MessagesAt(Errors(AppointmentSchema(isEmail, form)), path) == AppointmentExpected(isEmail, form, path)
  {
    var expected := p => AppointmentExpected(isEmail, form, p);
    AppointmentFieldsDeclared(isEmail, form);
    assert Distinct(AppointmentPaths);
    ObjectReports(AppointmentPaths, AppointmentFields(isEmail, form), AppointmentRequest(Value(form, "firstName"), Value(form, "lastName"), Value(form, "email"), Value(form, "phoneNumer"), Value(form, "date"), Value(form, "time"), Value(form, "notes")), expected, path);
  }

  /** `appointmentSchema` accepts exactly the forms that meet every rule, and what it returns
      then is the submitted text, field for field. */
  lemma AppointmentSchemaAccepts(isEmail: string -> bool, form: Form)
    ensures var r := AppointmentSchema(isEmail, form);
      && (r.Valid? <==>
           "firstName" in form && |form["firstName"]| >= 2
           && "lastName" in form && |form["lastName"]| >= 2
           && "email" in form && isEmail(form["email"])
           && "phoneNumer" in form && IsNigerianMobile(form["phoneNumer"])
           && "date" in form
           && "time" in form && form["time"] in Timeslots
           && "notes" in form && |form["notes"]| >= 12)
      && (r.Valid? ==> r.value == AppointmentRequest(form["firstName"], form["lastName"], form["email"], form["phoneNumer"], form["date"], form["time"], form["notes"]))
  {
    var reports := AppointmentFields(isEmail, form);
    PhoneRegexMatchesExactly(Value(form, "phoneNumer"));
    assert reports[0] == [] <==> "firstName" in form && |form["firstName"]| >= 2;
    assert reports[1] == [] <==> "lastName" in form && |form["lastName"]| >= 2;
    assert reports[2] == [] <==> "email" in form && isEmail(form["email"]);
    assert reports[3] == [] <==> "phoneNumer" in form && IsNigerianMobile(form["phoneNumer"]);
    assert reports[4] == [] <==> "date" in form;
    assert reports[5] == [] <==> "time" in form && form["time"] in Timeslots;
    assert reports[6] == [] <==> "notes" in form && |form["notes"]| >= 12;
  }

  /** The fields of `contactSchema` that have rules, in declared order. */
  const ContactPaths: seq<string> := ["name", "email", "subject", "message", "phone"]

  /** What each of those fields reports, in the same order. */
  function ContactFields(isEmail: string -> bool, form: Form): seq<seq<string>> {
    [StringField(form, "name", Required, Rule(|Value(form, "name")| >= 2, ContactNameTooShort)),
     StringField(form, "email", Required, Rule(isEmail(Value(form, "email")), InvalidEmail)),
     StringField(form, "subject", Required, Rule(|Value(form, "subject")| >= 2, SubjectTooShort)),
     StringField(form, "message", Required, Rule(|Value(form, "message")| >= 11, BodyTooShort)),
     StringField(form, "phone", PhoneMissing, Rule(FullMatch(PhoneNumberRegex, Value(form, "phone")), PhoneFormat))]
  }

  /** `contactSchema`. */
  function ContactSchema(isEmail: string -> bool, form: Form): Outcome<ContactMessage> {
    Object(ContactPaths, ContactFields(isEmail, form),
      ContactMessage(Value(form, "name"), Value(form, "email"), Value(form, "subject"), Value(form, "message"), Value(form, "phone")))
  }

  /** What `contactSchema` is declared to report against each field: an absent value its
      "required" message, a present one the message of each rule it breaks, in order;
      nothing against any other name. */
  function ContactExpected(isEmail: string -> bool, form: Form, path: string): seq<string> {
    if path == "name" then
      (if "name" !in form then [Required] else if |form["name"]| < 2 then [ContactNameTooShort] else [])
    else if path == "email" then
      (if "email" !in form then [Required] else if !isEmail(form["email"]) then [InvalidEmail] else [])
    else if path == "subject" then
      (if "subject" !in form then [Required] else if |form["subject"]| < 2 then [SubjectTooShort] else [])
    else if path == "message" then
      (if "message" !in form then [Required] else if |form["message"]| < 11 then [BodyTooShort] else [])
    else if path == "phone" then
      (if "phone" !in form then [PhoneMissing] else if !IsNigerianMobile(form["phone"]) then [PhoneFormat] else [])
    else []
  }

  /** The first 3 fields of `contactSchema` report what the schema declares for them. */
  lemma ContactFieldsDeclaredFirst(isEmail: string -> bool, form: Form)
    ensures forall k {:trigger ContactFields(isEmail, form)[k]} :: 0 <= k < 3 ==>
      ContactFields(isEmail, form)[k] == ContactExpected(isEmail, form, ContactPaths[k])
  {
  }

  /** The other fields of `contactSchema` report what the schema declares for them. */
  lemma ContactFieldsDeclaredLast(isEmail: string -> bool, form: Form)
    ensures forall k {:trigger ContactFields(isEmail, form)[k]} :: 3 <= k < |ContactPaths| ==>
      ContactFields(isEmail, form)[k] == ContactExpected(isEmail, form, ContactPaths[k])
  {
    PhoneRegexMatchesExactly(Value(form, "phone"));
  }

  /** Each field of `contactSchema` reports exactly what the schema declares for it. */
  lemma ContactFieldsDeclared(isEmail: string -> bool, form: Form)
    ensures forall k {:trigger ContactFields(isEmail, form)[k]} :: 0 <= k < |ContactPaths| ==>
      ContactFields(isEmail, form)[k] == ContactExpected(isEmail, form, ContactPaths[k])
  {
    ContactFieldsDeclaredFirst(isEmail, form);
    ContactFieldsDeclaredLast(isEmail, form);
  }


  /** `contactSchema` reports against each field exactly what it declares, and nothing
      against a name that is not one of its fields. */
  lemma ContactSchemaReports(isEmail: string -> bool, form: Form, path: string)
    ensures MessagesAt(Errors(ContactSchema(isEmail, form)), path) == ContactExpected(isEmail, form, path)
  {
    var expected := p => ContactExpected(isEmail, form, p);
    ContactFieldsDeclared(isEmail, form);
    assert Distinct(ContactPaths);
    ObjectReports(ContactPaths, ContactFields(isEmail, form), ContactMessage(Value(form, "name"), Value(form, "email"), Value(form, "subject"), Value(form, "message"), Value(form, "phone")), expected, path);
  }

  /** `contactSchema` accepts exactly the forms that meet every rule, and what it returns
      then is the submitted text, field for field. */
  lemma ContactSchemaAccepts(isEmail: string -> bool, form: Form)
    ensures var r := ContactSchema(isEmail, form);
      && (r.Valid? <==>
           "name" in form && |form["name"]| >= 2
           && "email" in form && isEmail(form["email"])
           && "subject" in form && |form["subject"]| >= 2
           && "message" in form && |form["message"]| >= 11
           && "phone" in form && IsNigerianMobile(form["phone"]))
      && (r.Valid? ==> r.value == ContactMessage(form["name"], form["email"], form["subject"], form["message"], form["phone"]))
  {
    var reports := ContactFields(isEmail, form);
    PhoneRegexMatchesExactly(Value(form, "phone"));
    assert reports[0] == [] <==> "name" in form && |form["name"]| >= 2;
    assert reports[1] == [] <==> "email" in form && isEmail(form["email"]);
    assert reports[2] == [] <==> "subject" in form && |form["subject"]| >= 2;
    assert reports[3] == [] <==> "message" in form && |form["message"]| >= 11;
    assert reports[4] == [] <==> "phone" in form && IsNigerianMobile(form["phone"]);
  }

  /** The length rules count every character, white space included: no schema trims its
      input, so a name of two spaces meets `min(2)` and a "... is required" message is only reported
      when the text is empty. */
  lemma UntrimmedLength(isEmail: string -> bool, form: Form)
    ensures MessagesAt(Errors(RegisterSchema(isEmail, form["name" := "  "])), "name") == []
    ensures MessagesAt(Errors(MassIntentionSchema(form["name" := " "])), "name") == []
  {
    RegisterSchemaReports(isEmail, form["name" := "  "], "name");
    MassIntentionSchemaReports(form["name" := " "], "name");
  }
}
