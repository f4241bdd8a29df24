/** The records the server keeps in memory, and the outcomes its handlers answer with. */
module Records {

  datatype Option<T> = None | Some(value: T)

  /** An ISO-8601 time stamp read from the clock; the model never inspects it. */
  type Timestamp = string

  /** The three states of a registration. */
  datatype Status = Confirmed | Pending | Rejected

  /** The text a status is stored and sent as. */
  function StatusName(s: Status): string {
    match s
    case Confirmed => "confirmed"
    case Pending => "pending"
    case Rejected => "rejected"
  }

  /** The membership test `['confirmed', 'pending', 'rejected'].includes(text)`,
      giving the status the text names. */
  function ParseStatus(text: string): (r: Option<Status>)
    ensures r.Some? <==> text == "confirmed" || text == "pending" || text == "rejected"
    ensures r.Some? ==> StatusName(r.value) == text
  {
    if text == "confirmed" then Some(Confirmed)
    else if text == "pending" then Some(Pending)
    else if text == "rejected" then Some(Rejected)
    else None
  }

  /** Every status survives a trip through its text. */
  lemma StatusNameRoundTrip(s: Status)
    ensures ParseStatus(StatusName(s)) == Some(s)
  {
  }

  datatype Role = Admin | Participant

  datatype Event = Event(
    id: string,
    name: string,
    description: string,
    date: string,
    capacity: int,
    createdAt: Timestamp,
    updatedAt: Option<Timestamp>)

  datatype Registration = Registration(
    id: string,
    eventId: string,
    name: string,
    email: string,
    phone: string,
    status: Status,
    registeredAt: Timestamp,
    updatedAt: Option<Timestamp>)

  datatype Announcement = Announcement(
    id: string,
    eventId: string,
    message: string,
    sentAt: Timestamp)

  datatype User = User(
    id: string,
    name: string,
    email: string,
    password: string,
    role: Role,
    createdAt: Timestamp)

  /** The part of a user the auth routes send back (everything but the password). */
  datatype Profile = Profile(id: string, name: string, email: string, role: Role)

  function ProfileOf(u: User): Profile {
    Profile(u.id, u.name, u.email, u.role)
  }

  /** What signup and login answer with. */
  datatype Session = Session(user: Profile, token: string)

  /** The body of a POST or PUT to the event routes; an absent field is "" or 0. */
  datatype EventInput = EventInput(name: string, description: string, date: string, capacity: int)

  /** The body of a registration request; an absent field is "". */
  datatype RegistrationInput = RegistrationInput(name: string, email: string, phone: string)

  /** A created announcement and the number of participants it reports reaching. */
  datatype Delivery = Delivery(announcement: Announcement, participants: nat)

  /** The payload fields a validator can flag; `Key` is the field's name in the
      JSON error map. */
  datatype Field = Name | Description | Date | Capacity | Email | Phone | Message | Password

  function Key(f: Field): string {
    match f
    case Name => "name"
    case Description => "description"
    case Date => "date"
    case Capacity => "capacity"
    case Email => "email"
    case Phone => "phone"
    case Message => "message"
    case Password => "password"
  }

  /** The failures a handler answers with, one per kind of error body. */
  datatype Error =
    | ValidationFailed(errors: map<Field, string>)
    | BadRequest(message: string)
    | Unauthorized(message: string)
    | Forbidden
    | NotFound(message: string)
    | Conflict(message: string)
    | AlreadyRegistered(existing: Registration)
    | Internal(message: string)
  {
    /** The HTTP status code the handler sends with this error. */
    function Code(): int {
      match this
      case ValidationFailed(_) => 400
      case BadRequest(_) => 400
      case Unauthorized(_) => 401
      case Forbidden => 403
      case NotFound(_) => 404
      case Conflict(_) => 409
      case AlreadyRegistered(_) => 409
      case Internal(_) => 500
    }
  }

  datatype Result<T> = Ok(value: T) | Fail(error: Error)
}
