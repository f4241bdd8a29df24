/** The payload validators. Each one answers with a map from field name to message,
    holding an entry for exactly the fields that fail; an empty map lets the
    request through. Absent fields arrive as "" (or capacity 0): the checks only
    test them for falsiness, which "" and 0 share with a missing value. */
module Validation {
  import opened Text
  import opened Records

  const MinEventName := 3
  const MinDescription := 10
  const MinCapacity := 1
  const MaxCapacity := 10000
  const MinPersonName := 2
  const PhoneDigits := 10
  const MinMessage := 5
  const MinPassword := 6

  // ---------------------------------------------------------------- events

  /** The date text is present and the moment it denotes is not before the start of
      today. `dateValue` is the time value JavaScript's `Date` gives the text (None
      for an invalid date, which compares false and therefore passes), `todayStart`
      the time value of local midnight. */
  predicate DateAccepted(date: string, dateValue: Option<int>, todayStart: int) {
    date != "" && !(dateValue.Some? && dateValue.value < todayStart)
  }

  /** The message `validateEventData` records for field `f`, if the field fails. */
  function EventFieldError(p: EventInput, dateValue: Option<int>, todayStart: int, f: Field): Option<string> {
    match f
    case Name =>
      if |Trim(p.name)| < MinEventName then Some("Event name must be at least 3 characters") else None
    case Description =>
      if |Trim(p.description)| < MinDescription then Some("Description must be at least 10 characters") else None
    case Date =>
      if p.date == "" then Some("Event date is required")
      else if dateValue.Some? && dateValue.value < todayStart then Some("Event date cannot be in the past")
      else None
    case Capacity =>
      if p.capacity < MinCapacity then Some("Capacity must be at least 1")
      else if p.capacity > MaxCapacity then Some("Capacity cannot exceed 10,000")
      else None
    case _ => None
  }

  /** `validateEventData`: an entry for each of the four checked fields that fails.
      The rule for each field is stated by the lemmas below. */
  function ValidateEvent(p: EventInput, dateValue: Option<int>, todayStart: int): (errors: map<Field, string>)
    ensures errors.Keys <= {Name, Description, Date, Capacity}
  {
    map f | f in {Name, Description, Date, Capacity} && EventFieldError(p, dateValue, todayStart, f).Some? ::
      EventFieldError(p, dateValue, todayStart, f).value
  }

  /** The name must hold at least 3 characters once trimmed. */
  lemma EventNameRule(p: EventInput, dateValue: Option<int>, todayStart: int)
    ensures var errors := ValidateEvent(p, dateValue, todayStart);
            && (Name in errors <==> |Trim(p.name)| < MinEventName)
            && (Name in errors ==> errors[Name] == "Event name must be at least 3 characters")
  {
    var errors := ValidateEvent(p, dateValue, todayStart);
    var e := EventFieldError(p, dateValue, todayStart, Name);
    assert e == if |Trim(p.name)| < MinEventName then Some("Event name must be at least 3 characters") else None;
    assert Name in errors <==> e.Some?;
  }

  /** The description must hold at least 10 characters once trimmed. */
  lemma EventDescriptionRule(p: EventInput, dateValue: Option<int>, todayStart: int)
    ensures var errors := ValidateEvent(p, dateValue, todayStart);
            && (Description in errors <==> |Trim(p.description)| < MinDescription)
            && (Description in errors ==> errors[Description] == "Description must be at least 10 characters")
  {
    var errors := ValidateEvent(p, dateValue, todayStart);
    var e := EventFieldError(p, dateValue, todayStart, Description);
    assert e == if |Trim(p.description)| < MinDescription then Some("Description must be at least 10 characters") else None;
    assert Description in errors <==> e.Some?;
  }

  /** The date must be present and not before today; a missing date and a past one
      have messages of their own. */
  lemma EventDateRule(p: EventInput, dateValue: Option<int>, todayStart: int)
    ensures var errors := ValidateEvent(p, dateValue, todayStart);
            && (Date in errors <==> !DateAccepted(p.date, dateValue, todayStart))
            && (Date in errors ==>
                  errors[Date] == if p.date == "" then "Event date is required" else "Event date cannot be in the past")
  {
    var errors := ValidateEvent(p, dateValue, todayStart);
    var e := EventFieldError(p, dateValue, todayStart, Date);
    assert e == if p.date == "" then Some("Event date is required")
             else if dateValue.Some? && dateValue.value < todayStart then Some("Event date cannot be in the past")
             else None;
    assert Date in errors <==> e.Some?;
  }

  /** The capacity must lie between 1 and 10,000; each bound has its own message. */
  lemma EventCapacityRule(p: EventInput, dateValue: Option<int>, todayStart: int)
    ensures var errors := ValidateEvent(p, dateValue, todayStart);
            && (Capacity in errors <==> !(MinCapacity <= p.capacity <= MaxCapacity))
            && (Capacity in errors ==>
                  errors[Capacity] == if p.capacity < MinCapacity then "Capacity must be at least 1" else "Capacity cannot exceed 10,000")
  {
    var errors := ValidateEvent(p, dateValue, todayStart);
    var e := EventFieldError(p, dateValue, todayStart, Capacity);
    assert e == if p.capacity < MinCapacity then Some("Capacity must be at least 1")
             else if p.capacity > MaxCapacity then Some("Capacity cannot exceed 10,000")
             else None;
    assert Capacity in errors <==> e.Some?;
  }

  /** The event payloads the validator lets through. */
  predicate EventAcceptable(p: EventInput, dateValue: Option<int>, todayStart: int) {
    && |Trim(p.name)| >= MinEventName
    && |Trim(p.description)| >= MinDescription
    && DateAccepted(p.date, dateValue, todayStart)
    && MinCapacity <= p.capacity <= MaxCapacity
  }

  /** The event validator passes exactly the acceptable payloads. */
  lemma ValidateEventAccepts(p: EventInput, dateValue: Option<int>, todayStart: int)
    ensures ValidateEvent(p, dateValue, todayStart) == map[] <==> EventAcceptable(p, dateValue, todayStart)
  {
    EventNameRule(p, dateValue, todayStart);
    EventDescriptionRule(p, dateValue, todayStart);
    EventDateRule(p, dateValue, todayStart);
    EventCapacityRule(p, dateValue, todayStart);
    var errors := ValidateEvent(p, dateValue, todayStart);
    if EventAcceptable(p, dateValue, todayStart) {
      assert errors.Keys == {};
    }
  }

  // ---------------------------------------------------------------- registrations

  /** The message `validateRegistrationData` records for field `f`, if the field fails. */
  function RegistrationFieldError(p: RegistrationInput, f: Field): Option<string> {
    match f
    case Name =>
      if |Trim(p.name)| < MinPersonName then Some("Name must be at least 2 characters") else None
    case Email =>
      if p.email == "" then Some("Email is required")
      else if !IsEmail(p.email) then Some("Please enter a valid email address")
      else None
    case Phone =>
      if p.phone == "" then Some("Phone number is required")
      else if |Digits(p.phone)| != PhoneDigits then Some("Please enter a valid 10-digit phone number")
      else None
    case _ => None
  }

  /** `validateRegistrationData`: an entry for each of the three checked fields that
      fails. The rule for each field is stated by the lemmas below. */
  function ValidateRegistration(p: RegistrationInput): (errors: map<Field, string>)
    ensures errors.Keys <= {Name, Email, Phone}
  {
    map f | f in {Name, Email, Phone} && RegistrationFieldError(p, f).Some? :: RegistrationFieldError(p, f).value
  }

  /** The name must hold at least 2 characters once trimmed. */
  lemma RegistrationNameRule(p: RegistrationInput)
    ensures var errors := ValidateRegistration(p);
            && (Name in errors <==> |Trim(p.name)| < MinPersonName)
            && (Name in errors ==> errors[Name] == "Name must be at least 2 characters")
  {
    var errors := ValidateRegistration(p);
    var e := RegistrationFieldError(p, Name);
    assert e == if |Trim(p.name)| < MinPersonName then Some("Name must be at least 2 characters") else None;
    assert Name in errors <==> e.Some?;
  }

  /** The e-mail must pass the address check; a missing one has a message of its own. */
  lemma RegistrationEmailRule(p: RegistrationInput)
    ensures var errors := ValidateRegistration(p);
            && (Email in errors <==> !IsEmail(p.email))
            && (Email in errors ==>
                  errors[Email] == if p.email == "" then "Email is required" else "Please enter a valid email address")
  {
    assert !IsEmail("");
    var errors := ValidateRegistration(p);
    var e := RegistrationFieldError(p, Email);
    assert e == if p.email == "" then Some("Email is required")
             else if !IsEmail(p.email) then Some("Please enter a valid email address")
             else None;
    assert Email in errors <==> e.Some?;
  }

  /** The phone must hold exactly 10 digits among its characters; a missing one has a
      message of its own. */
  lemma RegistrationPhoneRule(p: RegistrationInput)
    ensures var errors := ValidateRegistration(p);
            && (Phone in errors <==> |Digits(p.phone)| != PhoneDigits)
            && (Phone in errors ==>
                  errors[Phone] == if p.phone == "" then "Phone number is required" else "Please enter a valid 10-digit phone number")
  {
    var errors := ValidateRegistration(p);
    var e := RegistrationFieldError(p, Phone);
    assert e == if p.phone == "" then Some("Phone number is required")
             else if |Digits(p.phone)| != PhoneDigits then Some("Please enter a valid 10-digit phone number")
             else None;
    assert Phone in errors <==> e.Some?;
  }

  /** The registration payloads the validator lets through. */
  ghost predicate RegistrationAcceptable(p: RegistrationInput) {
    |Trim(p.name)| >= MinPersonName && MatchesEmailPattern(p.email) && |Digits(p.phone)| == PhoneDigits
  }

  /** The registration validator passes exactly the acceptable payloads, reading
      the e-mail check as the regular expression it implements. */
  lemma ValidateRegistrationAccepts(p: RegistrationInput)
    ensures ValidateRegistration(p) == map[] <==> RegistrationAcceptable(p)
  {
    EmailCheckMatchesPattern(p.email);
    RegistrationNameRule(p);
    RegistrationEmailRule(p);
    RegistrationPhoneRule(p);
    var errors := ValidateRegistration(p);
    if RegistrationAcceptable(p) {
      assert errors.Keys == {};
    }
  }

  // ---------------------------------------------------------------- announcements

  /** `validateAnnouncement`. */
  function ValidateAnnouncement(message: string): (errors: map<Field, string>)
    ensures errors.Keys <= {Message}
    ensures Message in errors <==> |Trim(message)| < MinMessage
    ensures Message in errors ==> errors[Message] == "Announcement must be at least 5 characters"
  {
    if |Trim(message)| < MinMessage then map[Message := "Announcement must be at least 5 characters"] else map[]
  }

  // ---------------------------------------------------------------- signup

  /** The message the signup handler records for field `f`, if the field fails. */
  function SignupFieldError(name: string, email: string, password: string, f: Field): Option<string> {
    match f
    case Name => if |Trim(name)| < MinPersonName then Some("Name must be at least 2 characters") else None
    case Email => if !IsEmail(email) then Some("Valid email is required") else None
    case Password => if |password| < MinPassword then Some("Password must be at least 6 characters") else None
    case _ => None
  }

  /** The checks the signup handler runs on its body before anything else: an entry
      for each of the three checked fields that fails. */
  function ValidateSignup(name: string, email: string, password: string): (errors: map<Field, string>)
    ensures errors.Keys <= {Name, Email, Password}
  {
    map f | f in {Name, Email, Password} && SignupFieldError(name, email, password, f).Some? ::
      SignupFieldError(name, email, password, f).value
  }

  /** Signup demands a trimmed name of at least 2 characters, an address that passes
      the e-mail check and a password of at least 6 characters, each with one message. */
  lemma SignupRules(name: string, email: string, password: string)
    ensures var errors := ValidateSignup(name, email, password);
            && (Name in errors <==> |Trim(name)| < MinPersonName)
            && (Email in errors <==> !IsEmail(email))
            && (Password in errors <==> |password| < MinPassword)
            && (Name in errors ==> errors[Name] == "Name must be at least 2 characters")
            && (Email in errors ==> errors[Email] == "Valid email is required")
            && (Password in errors ==> errors[Password] == "Password must be at least 6 characters")
  {
    var errors := ValidateSignup(name, email, password);
    var n := SignupFieldError(name, email, password, Name);
    var e := SignupFieldError(name, email, password, Email);
    var w := SignupFieldError(name, email, password, Password);
    assert n == if |Trim(name)| < MinPersonName then Some("Name must be at least 2 characters") else None;
    assert e == if !IsEmail(email) then Some("Valid email is required") else None;
    assert w == if |password| < MinPassword then Some("Password must be at least 6 characters") else None;
    assert Name in errors <==> n.Some?;
    assert Email in errors <==> e.Some?;
    assert Password in errors <==> w.Some?;
  }

  /** Signup lets a body through exactly when all three fields pass. */
  lemma ValidateSignupAccepts(name: string, email: string, password: string)
    ensures ValidateSignup(name, email, password) == map[] <==>
              |Trim(name)| >= MinPersonName && IsEmail(email) && |password| >= MinPassword
  {
    SignupRules(name, email, password);
    if |Trim(name)| >= MinPersonName && IsEmail(email) && |password| >= MinPassword {
      assert ValidateSignup(name, email, password).Keys == {};
    }
  }

  /** A well-formed e-mail holds no white space, so trimming it changes nothing and
      the address a user is stored under is its lower-cased form. */
  lemma TrimKeepsEmail(email: string)
    requires IsEmail(email)
    ensures Trim(email) == email
  {
  }
}
