/** The server's process-wide state and its request handlers. Every handler that
    changes the state is a method of `Store`; one that only reads it is a function.
    Ids, time stamps and tokens come from the clock in the server (`Date.now()`,
    `new Date().toISOString()`, a base64 token) and are parameters here. */
module Server {
  import opened Text
  import opened Records
  import opened Tables
  import opened Validation
  import opened Auth
  import opened Export

  const HackathonDescription :=
    "Join us for a 24-hour coding marathon where you can build innovative solutions and win exciting prizes!"
  const WorkshopDescription :=
    "Learn the fundamentals of Machine Learning and build your first AI model in this hands-on workshop."

  /** The two events the store starts with. */
  function SeedEvents(now: Timestamp): seq<Event> {
    [ Event("1", "Tech Hackathon 2026", HackathonDescription, "2026-02-15", 100, now, None),
      Event("2", "AI/ML Workshop", WorkshopDescription, "2026-02-20", 50, now, None) ]
  }

  /** The administrator the store starts with. */
  function DefaultAdmin(now: Timestamp): User {
    User("admin-1", "Administrator", "admin@local", "admin123", Admin, now)
  }

  // ---------------------------------------------------------------- middleware chains

  /** `authorizationMiddleware` followed by `validateEventData`, the chain in front of
      the create and update routes: the admin it lets through, or the first failure. */
  function EventGuard(users: seq<User>, tokens: map<string, string>, header: string,
                      p: EventInput, dateValue: Option<int>, todayStart: int): (r: Result<User>)
    ensures r.Ok? <==> AdminGate(users, tokens, header).Ok? && EventAcceptable(p, dateValue, todayStart)
    ensures AdminGate(users, tokens, header).Fail? || r.Ok? ==> r == AdminGate(users, tokens, header)
    ensures AdminGate(users, tokens, header).Ok? && !EventAcceptable(p, dateValue, todayStart) ==>
              r == Fail(ValidationFailed(ValidateEvent(p, dateValue, todayStart)))
  {
    var gate := AdminGate(users, tokens, header);
    if gate.Fail? then gate
    else
      var errors := ValidateEvent(p, dateValue, todayStart);
      ValidateEventAccepts(p, dateValue, todayStart);
      if errors != map[] then Fail(ValidationFailed(errors)) else gate
  }

  /** `authorizationMiddleware` followed by `validateAnnouncement`. */
  function AnnouncementGuard(users: seq<User>, tokens: map<string, string>, header: string, message: string)
    : (r: Result<User>)
    ensures r.Ok? <==> AdminGate(users, tokens, header).Ok? && |Trim(message)| >= MinMessage
    ensures AdminGate(users, tokens, header).Fail? || r.Ok? ==> r == AdminGate(users, tokens, header)
    ensures AdminGate(users, tokens, header).Ok? && |Trim(message)| < MinMessage ==>
              r == Fail(ValidationFailed(ValidateAnnouncement(message)))
  {
    var gate := AdminGate(users, tokens, header);
    if gate.Fail? then gate
    else
      var errors := ValidateAnnouncement(message);
      if errors != map[] then Fail(ValidationFailed(errors)) else gate
  }

  // ---------------------------------------------------------------- admission

  /** The decision `POST /api/events/:id/register` takes on the stored `events` and
      `regs`: `validateRegistrationData`, then the event lookup, the duplicate test and
      the capacity test, in that order; or the confirmed registration to append. The
      duplicate test compares the stored e-mails with `key`. */
  function Admit(events: seq<Event>, regs: seq<Registration>, eventId: string, p: RegistrationInput,
                 key: string, id: string, now: Timestamp): (r: Result<Registration>)
    ensures ValidateRegistration(p) != map[] ==> r == Fail(ValidationFailed(ValidateRegistration(p)))
    ensures ValidateRegistration(p) == map[] && EventIndex(events, eventId) < 0 ==>
              r == Fail(NotFound("Event not found"))
    ensures (ValidateRegistration(p) == map[] && EventIndex(events, eventId) >= 0
             && KeyIndex(regs, eventId, key) >= 0) ==>
              r == Fail(AlreadyRegistered(regs[KeyIndex(regs, eventId, key)]))
    ensures (ValidateRegistration(p) == map[] && EventIndex(events, eventId) >= 0
             && KeyIndex(regs, eventId, key) < 0
             && ConfirmedCount(regs, eventId) >= events[EventIndex(events, eventId)].capacity) ==>
              r == Fail(BadRequest("Event is at full capacity"))
    ensures r.Ok? <==>
              && ValidateRegistration(p) == map[]
              && EventIndex(events, eventId) >= 0
              && KeyIndex(regs, eventId, key) < 0
              && ConfirmedCount(regs, eventId) < events[EventIndex(events, eventId)].capacity
    ensures r.Ok? ==>
              r.value == Registration(id, eventId, Trim(p.name), StoredEmail(p.email), Trim(p.phone), Confirmed, now, None)
  {
    var errors := ValidateRegistration(p);
    var i := EventIndex(events, eventId);
    if errors != map[] then Fail(ValidationFailed(errors))
    else if i < 0 then Fail(NotFound("Event not found"))
    else
      var k := KeyIndex(regs, eventId, key);
      if k >= 0 then Fail(AlreadyRegistered(regs[k]))
      else if ConfirmedCount(regs, eventId) >= events[i].capacity then Fail(BadRequest("Event is at full capacity"))
      else Ok(Registration(id, eventId, Trim(p.name), StoredEmail(p.email), Trim(p.phone), Confirmed, now, None))
  }

  /** The handler as written: the duplicate test uses the incoming e-mail exactly as
      it arrived, while the registration stores it trimmed and lower-cased. */
  function Admission(events: seq<Event>, regs: seq<Registration>, eventId: string,
                     p: RegistrationInput, id: string, now: Timestamp): (r: Result<Registration>)
    ensures r.Ok? ==> forall k :: 0 <= k < |regs| ==> regs[k].eventId != eventId || regs[k].email != p.email
    ensures r.Ok? ==> r.value.eventId == eventId && r.value.email == StoredEmail(p.email)
  {
    Admit(events, regs, eventId, p, p.email, id, now)
  }

  /** The evidently intended handler: the duplicate test uses the form the e-mail is
      stored in. */
  function CorrectedAdmission(events: seq<Event>, regs: seq<Registration>, eventId: string,
                              p: RegistrationInput, id: string, now: Timestamp): (r: Result<Registration>)
    ensures r.Ok? ==> forall k :: 0 <= k < |regs| ==> regs[k].eventId != eventId || regs[k].email != r.value.email
    ensures r.Ok? ==> r.value.eventId == eventId && r.value.email == StoredEmail(p.email)
  {
    Admit(events, regs, eventId, p, StoredEmail(p.email), id, now)
  }

  /** An admitted registration raises its event's confirmed count by one and keeps
      every event within capacity, whatever text the duplicate test compares. */
  lemma AdmitWithinCapacity(events: seq<Event>, regs: seq<Registration>, eventId: string,
                            p: RegistrationInput, key: string, id: string, now: Timestamp)
    requires WithinCapacity(events, regs)
    requires Admit(events, regs, eventId, p, key, id, now).Ok?
    ensures var reg := Admit(events, regs, eventId, p, key, id, now).value;
            && ConfirmedCount(regs + [reg], eventId) == ConfirmedCount(regs, eventId) + 1
            && ConfirmedCount(regs + [reg], eventId) <= events[EventIndex(events, eventId)].capacity
            && WithinCapacity(events, regs + [reg])
  {
    var reg := Admit(events, regs, eventId, p, key, id, now).value;
    ConfirmedCountAppend(regs, reg, eventId);
    AdmitKeepsCapacity(events, regs, reg);
  }

  /** The corrected decision never admits a second registration for an event under
      an e-mail already stored for it. */
  lemma CorrectedAdmissionKeepsEmailsUnique(events: seq<Event>, regs: seq<Registration>, eventId: string,
                                            p: RegistrationInput, id: string, now: Timestamp)
    requires UniqueEmails(regs)
    requires CorrectedAdmission(events, regs, eventId, p, id, now).Ok?
    ensures UniqueEmails(regs + [CorrectedAdmission(events, regs, eventId, p, id, now).value])
  {
    var reg := CorrectedAdmission(events, regs, eventId, p, id, now).value;
    NormalizedCheckKeepsEmailsUnique(regs, p.email, reg);
  }

  /** Whenever the raw duplicate test misses a stored registration of the event
      under the incoming e-mail's stored form, the handler as written admits a
      second registration under that stored e-mail. */
  lemma AdmissionDuplicatesStoredEmail(events: seq<Event>, regs: seq<Registration>, eventId: string,
                                       p: RegistrationInput, id: string, now: Timestamp, k: nat)
    requires ValidateRegistration(p) == map[] && EventIndex(events, eventId) >= 0
    requires ConfirmedCount(regs, eventId) < events[EventIndex(events, eventId)].capacity
    requires KeyIndex(regs, eventId, p.email) == -1
    requires k < |regs| && regs[k].eventId == eventId && regs[k].email == StoredEmail(p.email)
    ensures Admission(events, regs, eventId, p, id, now).Ok?
    ensures !UniqueEmails(regs + [Admission(events, regs, eventId, p, id, now).value])
  {
    var s := regs + [Admission(events, regs, eventId, p, id, now).value];
    assert s[k] == regs[k] && s[|regs|].email == regs[k].email;
  }

  /** A payload the validator accepts whose e-mail differs from a stored one only
      in letter case. */
  lemma CaseVariantPayload()
    ensures ValidateRegistration(RegistrationInput("Al", "A@b.c", "5551234567")) == map[]
    ensures StoredEmail("A@b.c") == "a@b.c" && "A@b.c" != "a@b.c"
  {
    MixedCaseEmailMatches();
    var phone := "5551234567";
    assert forall k :: 0 <= k < |phone| ==> IsDigit(phone[k]);
    var q := RegistrationInput("Al", "A@b.c", phone);
    assert NoWhitespace(q.name);
    assert Trim(q.name) == q.name && Digits(q.phone) == q.phone;
    assert RegistrationAcceptable(q);
    ValidateRegistrationAccepts(q);
    CaseVariantEmail();
  }

  /** A concrete instance of the handler as written: after `a@b.c` registered for
      event `1`, `A@b.c` is admitted too. */
  lemma AdmissionAdmitsCaseVariant()
    ensures var events := [Event("1", "", "", "", 2, "", None)];
            var regs := [Registration("10", "1", "Al", "a@b.c", "5551234567", Confirmed, "t1", None)];
            var p := RegistrationInput("Al", "A@b.c", "5551234567");
            && UniqueEmails(regs)
            && Admission(events, regs, "1", p, "11", "t2").Ok?
            && !UniqueEmails(regs + [Admission(events, regs, "1", p, "11", "t2").value])
  {
    var events := [Event("1", "", "", "", 2, "", None)];
    var regs := [Registration("10", "1", "Al", "a@b.c", "5551234567", Confirmed, "t1", None)];
    var p := RegistrationInput("Al", "A@b.c", "5551234567");
    CaseVariantPayload();
    assert EventIndex(events, "1") == 0;
    assert ConfirmedCount(regs, "1") == 1 by {
      assert OfEvent(regs, "1") == regs;
      assert Tally(regs[1..], Confirmed) == 0;
    }
    assert KeyIndex(regs, "1", p.email) == -1;
    AdmissionDuplicatesStoredEmail(events, regs, "1", p, "11", "t2", 0);
  }

  class Store {
    var events: seq<Event>
    var registrations: seq<Registration>
    var announcements: seq<Announcement>
    var users: seq<User>
    var tokens: map<string, string>

    /** What every handler keeps: records refer to existing events, stored
        capacities are ones the validator accepts, and tokens name existing users. */
    ghost predicate Valid()
      reads this
    {
      && EventsExist(events, registrations, announcements)
      && CapacitiesInRange(events)
      && TokensResolve(users, tokens)
    }

    /** No event holds more confirmed registrations than its capacity. Register and
        status changes keep this; an event update that lowers a capacity can break it. */
    ghost predicate Admissible()
      reads this`events, this`registrations
    {
      WithinCapacity(events, registrations)
    }

    constructor (now: Timestamp)
      ensures events == SeedEvents(now) && users == [DefaultAdmin(now)]
      ensures registrations == [] && announcements == [] && tokens == map[]
      ensures Valid() && Admissible()
    {
      var seed := SeedEvents(now);
      assert CapacitiesInRange(seed) by {
        forall e | e in seed ensures 1 <= e.capacity <= 10000 {
          assert e == seed[0] || e == seed[1];
        }
      }
      EmptyWithinCapacity(seed);
      events := seed;
      registrations := [];
      announcements := [];
      users := [DefaultAdmin(now)];
      tokens := map[];
    }

    // ------------------------------------------------------------ updates

    /** `events.push(e)`. */
    method AddEvent(e: Event)
      modifies this
      ensures events == old(events) + [e]
      ensures unchanged(this`registrations, this`announcements, this`users, this`tokens)
      ensures old(Valid()) && 1 <= e.capacity <= 10000 ==> Valid()
      ensures old(Valid() && Admissible()) && e.capacity >= 0 ==> Admissible()
    {
      ghost var wasValid, wasAdmissible := Valid(), Admissible();
      if wasValid {
        AddEventKeepsReferences(events, registrations, announcements, e);
        if 1 <= e.capacity <= 10000 {
          AddEventKeepsRanges(events, e);
        }
        if wasAdmissible && e.capacity >= 0 {
          AddEventKeepsCapacity(events, registrations, e);
        }
      }
      events := events + [e];
    }

    /** `events[i] = e` for an `e` under the same id. The store stays within capacity
        exactly when the new capacity covers the event's confirmed count. */
    method ReplaceEvent(i: nat, e: Event)
      requires i < |events| && e.id == events[i].id
      modifies this
      ensures events == old(events)[i := e]
      ensures unchanged(this`registrations, this`announcements, this`users, this`tokens)
      ensures old(Valid()) && 1 <= e.capacity <= 10000 ==> Valid()
      ensures old(Admissible()) && Resolves(old(events), i) ==>
                (Admissible() <==> ConfirmedCount(registrations, e.id) <= e.capacity)
    {
      ghost var wasValid, wasAdmissible := Valid(), Admissible();
      ghost var fits := ConfirmedCount(registrations, e.id) <= e.capacity;
      if wasValid {
        ReplaceEventKeepsReferences(events, registrations, announcements, i, e);
        if 1 <= e.capacity <= 10000 {
          ReplaceEventKeepsRanges(events, i, e);
        }
      }
      if wasAdmissible && fits {
        ReplaceEventKeepsCapacity(events, registrations, i, e);
      }
      if Resolves(events, i) && !fits {
        ReplaceEventExceedsCapacity(events, registrations, i, e);
      }
      events := events[i := e];
    }

    /** `events.splice(i, 1)` followed by the two `filter`s that drop the records of
        the removed event's id. */
    method RemoveEvent(i: nat)
      requires i < |events|
      modifies this
      ensures events == old(events)[..i] + old(events)[i + 1..]
      ensures registrations == WithoutEvent(old(registrations), old(events)[i].id)
      ensures announcements == AnnouncementsWithout(old(announcements), old(events)[i].id)
      ensures unchanged(this`users, this`tokens)
      ensures old(Valid()) ==> Valid()
      ensures old(Valid() && Admissible()) ==> Admissible()
      ensures old(UniqueEmails(registrations)) ==> UniqueEmails(registrations)
    {
      var gone := events[i].id;
      ghost var evs, regs, anns := events, registrations, announcements;
      ghost var wasValid, wasAdmissible, wasUnique := Valid(), Admissible(), UniqueEmails(registrations);
      events := events[..i] + events[i + 1..];
      registrations := WithoutEvent(registrations, gone);
      announcements := AnnouncementsWithout(announcements, gone);
      if wasValid {
        RemoveEventKeepsReferences(evs, regs, anns, i);
        RemoveEventKeepsRanges(evs, i);
      }
      if wasValid && wasAdmissible {
        RemoveEventKeepsCapacity(evs, regs, i);
      }
      if wasUnique {
        WithoutEventKeepsEmailsUnique(regs, gone);
      }
    }

    /** `registrations.push(reg)`. */
    method AddRegistration(reg: Registration)
      modifies this
      ensures registrations == old(registrations) + [reg]
      ensures unchanged(this`events, this`announcements, this`users, this`tokens)
      ensures ConfirmedCount(registrations, reg.eventId)
              == ConfirmedCount(old(registrations), reg.eventId) + (if reg.status == Confirmed then 1 else 0)
      ensures old(Valid()) && EventIndex(events, reg.eventId) >= 0 ==> Valid()
      ensures (old(Admissible()) && EventIndex(events, reg.eventId) >= 0
               && ConfirmedCount(old(registrations), reg.eventId) < events[EventIndex(events, reg.eventId)].capacity) ==>
                Admissible()
      ensures old(UniqueEmails(registrations)) && KeyIndex(old(registrations), reg.eventId, reg.email) < 0 ==>
                UniqueEmails(registrations)
    {
      ghost var wasValid, wasAdmissible := Valid(), Admissible();
      ghost var i := EventIndex(events, reg.eventId);
      ConfirmedCountAppend(registrations, reg, reg.eventId);
      if wasValid && i >= 0 {
        AddRegistrationKeepsReferences(events, registrations, announcements, reg);
      }
      if wasAdmissible && i >= 0 && ConfirmedCount(registrations, reg.eventId) < events[i].capacity {
        AdmitKeepsCapacity(events, registrations, reg);
      }
      if UniqueEmails(registrations) && KeyIndex(registrations, reg.eventId, reg.email) < 0 {
        FreshKeyKeepsEmailsUnique(registrations, reg);
      }
      registrations := registrations + [reg];
    }

    /** `registrations[k] = reg` for a `reg` of the same event: the in-place status
        write. Moving into `Confirmed` keeps the store within capacity when the event
        had room. */
    method ReplaceRegistration(k: nat, reg: Registration)
      requires k < |registrations| && reg.eventId == registrations[k].eventId
      modifies this
      ensures registrations == old(registrations)[k := reg]
      ensures unchanged(this`events, this`announcements, this`users, this`tokens)
      ensures old(Valid()) ==> Valid()
      ensures (old(Admissible())
               && (reg.status == Confirmed && old(registrations)[k].status != Confirmed ==>
                     EventIndex(events, reg.eventId) >= 0
                     && ConfirmedCount(old(registrations), reg.eventId) < events[EventIndex(events, reg.eventId)].capacity)) ==>
                Admissible()
      ensures old(UniqueEmails(registrations)) && reg.email == old(registrations)[k].email ==>
                UniqueEmails(registrations)
    {
      ghost var wasValid, wasAdmissible := Valid(), Admissible();
      if wasValid {
        ReplaceRegistrationKeepsReferences(events, registrations, announcements, k, reg);
      }
      if UniqueEmails(registrations) && reg.email == registrations[k].email {
        ReplaceKeepsEmailsUnique(registrations, k, reg);
      }
      if wasAdmissible && (reg.status == Confirmed && registrations[k].status != Confirmed ==>
                             EventIndex(events, reg.eventId) >= 0
                             && ConfirmedCount(registrations, reg.eventId) < events[EventIndex(events, reg.eventId)].capacity) {
        StatusChangeKeepsCapacity(events, registrations, k, reg);
      }
      registrations := registrations[k := reg];
    }

    /** `announcements.push(a)`. */
    method AddAnnouncement(a: Announcement)
      modifies this
      ensures announcements == old(announcements) + [a]
      ensures unchanged(this`events, this`registrations, this`users, this`tokens)
      ensures old(Valid()) && EventIndex(events, a.eventId) >= 0 ==> Valid()
    {
      if Valid() && EventIndex(events, a.eventId) >= 0 {
        AddAnnouncementKeepsReferences(events, registrations, announcements, a);
      }
      announcements := announcements + [a];
    }

    // ------------------------------------------------------------ auth

    /** `generateTokenForUser`: records `token` as a key for the user with `userId`. */
    method IssueToken(userId: string, token: string)
      modifies this
      ensures unchanged(this`events, this`registrations, this`announcements, this`users)
      ensures tokens == old(tokens)[token := userId]
    {
      tokens := tokens[token := userId];
    }

    /** `POST /api/auth/signup`: validation, then a case-insensitive duplicate test on
        the e-mail, then a new participant with a first token. */
    method Signup(name: string, email: string, password: string, id: string, token: string, now: Timestamp)
      returns (r: Result<Session>)
      modifies this
      ensures unchanged(this`events, this`registrations, this`announcements)
      ensures ValidateSignup(name, email, password) != map[] ==>
                r == Fail(ValidationFailed(ValidateSignup(name, email, password)))
      ensures ValidateSignup(name, email, password) == map[] && UserIndexByEmail(old(users), email) >= 0 ==>
                r == Fail(Conflict("Email already registered"))
      ensures r.Ok? <==> ValidateSignup(name, email, password) == map[] && UserIndexByEmail(old(users), email) < 0
      ensures r.Ok? ==>
                var u := User(id, Trim(name), ToLower(Trim(email)), password, Participant, now);
                && users == old(users) + [u]
                && tokens == old(tokens)[token := id]
                && r.value == Session(ProfileOf(u), token)
      ensures r.Ok? ==> r.value.user.role == Participant && forall k :: 0 <= k < |old(users)| ==>
                ToLower(old(users)[k].email) != ToLower(email)
      ensures r.Fail? ==> unchanged(this)
      ensures old(Valid()) ==> Valid()
    {
      var errors := ValidateSignup(name, email, password);
      if errors != map[] {
        return Fail(ValidationFailed(errors));
      }
      if UserIndexByEmail(users, email) >= 0 {
        return Fail(Conflict("Email already registered"));
      }
      var u := User(id, Trim(name), ToLower(Trim(email)), password, Participant, now);
      if TokensResolve(users, tokens) {
        AddUserKeepsTokens(users, tokens, u, token);
      }
      users := users + [u];
      IssueToken(u.id, token);
      r := Ok(Session(ProfileOf(u), token));
    }

    /** `POST /api/auth/login`: both fields present, a user whose e-mail matches
        ignoring case, and the same password; then a fresh token. */
    method Login(email: string, password: string, token: string) returns (r: Result<Session>)
      modifies this
      ensures unchanged(this`events, this`registrations, this`announcements, this`users)
      ensures email == "" || password == "" ==> r == Fail(BadRequest("Email and password are required"))
      ensures email != "" && password != "" && r.Fail? ==> r == Fail(Unauthorized("Invalid credentials"))
      ensures r.Ok? <==>
                && email != "" && password != ""
                && UserIndexByEmail(old(users), email) >= 0
                && old(users)[UserIndexByEmail(old(users), email)].password == password
      ensures r.Ok? ==>
                var u := old(users)[UserIndexByEmail(old(users), email)];
                && ToLower(u.email) == ToLower(email)
                && r.value == Session(ProfileOf(u), token)
                && tokens == old(tokens)[token := u.id]
      ensures r.Fail? ==> unchanged(this)
      ensures old(Valid()) ==> Valid()
    {
      if email == "" || password == "" {
        return Fail(BadRequest("Email and password are required"));
      }
      var i := UserIndexByEmail(users, email);
      if i < 0 || users[i].password != password {
        return Fail(Unauthorized("Invalid credentials"));
      }
      if TokensResolve(users, tokens) {
        IssueTokenKeepsTokens(users, tokens, i, token);
      }
      IssueToken(users[i].id, token);
      r := Ok(Session(ProfileOf(users[i]), token));
    }

    // ------------------------------------------------------------ events

    /** `GET /api/events/:id`. */
    function GetEvent(id: string): (r: Result<Event>)
      reads this
      ensures r.Ok? <==> exists k :: 0 <= k < |events| && events[k].id == id
      ensures r.Ok? ==> r.value.id == id && r.value in events
      ensures r.Ok? ==> r.value == events[EventIndex(events, id)]
      ensures r.Fail? ==> r.error == NotFound("Event not found")
    {
      var i := EventIndex(events, id);
      if i < 0 then Fail(NotFound("Event not found")) else Ok(events[i])
    }

    /** `POST /api/events`: the admin gate and the event validator, then a new event. */
    method CreateEvent(header: string, p: EventInput, dateValue: Option<int>, todayStart: int, id: string, now: Timestamp)
      returns (r: Result<Event>)
      modifies this
      ensures unchanged(this`registrations, this`announcements, this`users, this`tokens)
      ensures EventGuard(old(users), old(tokens), header, p, dateValue, todayStart).Fail? ==>
                r == Fail(EventGuard(old(users), old(tokens), header, p, dateValue, todayStart).error)
      ensures r.Ok? <==> EventGuard(old(users), old(tokens), header, p, dateValue, todayStart).Ok?
      ensures r.Ok? ==>
                && r.value == Event(id, Trim(p.name), Trim(p.description), p.date, p.capacity, now, None)
                && events == old(events) + [r.value]
      ensures r.Fail? ==> unchanged(this)
      ensures old(Valid()) ==> Valid()
      ensures old(Valid() && Admissible()) ==> Admissible()
    {
      var guard := EventGuard(users, tokens, header, p, dateValue, todayStart);
      if guard.Fail? {
        return Fail(guard.error);
      }
      var e := Event(id, Trim(p.name), Trim(p.description), p.date, p.capacity, now, None);
      AddEvent(e);
      r := Ok(e);
    }

    /** `PUT /api/events/:id`: the admin gate and the event validator, then the first
        event with the id rewritten in place. The update may set the capacity below
        the event's confirmed count, and the store is then over capacity. */
    method UpdateEvent(header: string, eventId: string, p: EventInput, dateValue: Option<int>, todayStart: int, now: Timestamp)
      returns (r: Result<Event>)
      modifies this
      ensures unchanged(this`registrations, this`announcements, this`users, this`tokens)
      ensures EventGuard(old(users), old(tokens), header, p, dateValue, todayStart).Fail? ==>
                r == Fail(EventGuard(old(users), old(tokens), header, p, dateValue, todayStart).error)
      ensures (EventGuard(old(users), old(tokens), header, p, dateValue, todayStart).Ok?
               && EventIndex(old(events), eventId) < 0) ==> r == Fail(NotFound("Event not found"))
      ensures r.Ok? <==>
                EventGuard(old(users), old(tokens), header, p, dateValue, todayStart).Ok?
                && EventIndex(old(events), eventId) >= 0
      ensures r.Ok? ==>
                var i := EventIndex(old(events), eventId);
                && r.value == old(events)[i].(name := Trim(p.name), description := Trim(p.description),
                                              date := p.date, capacity := p.capacity, updatedAt := Some(now))
                && events == old(events)[i := r.value]
                && r.value.id == eventId && r.value.createdAt == old(events)[i].createdAt
      ensures r.Fail? ==> unchanged(this)
      ensures old(Valid()) ==> Valid()
      ensures r.Ok? && old(Admissible()) ==>
                (Admissible() <==> ConfirmedCount(registrations, eventId) <= p.capacity)
    {
      var guard := EventGuard(users, tokens, header, p, dateValue, todayStart);
      if guard.Fail? {
        return Fail(guard.error);
      }
      var i := EventIndex(events, eventId);
      if i < 0 {
        return Fail(NotFound("Event not found"));
      }
      var e := events[i].(name := Trim(p.name), description := Trim(p.description),
                          date := p.date, capacity := p.capacity, updatedAt := Some(now));
      ReplaceEvent(i, e);
      r := Ok(e);
    }

    /** `DELETE /api/events/:id`: the admin gate, then the first event with the id
        removed together with every registration and announcement of the id, the
        other records keeping their order. */
    method DeleteEvent(header: string, eventId: string) returns (r: Result<()>)
      modifies this
      ensures unchanged(this`users, this`tokens)
      ensures AdminGate(old(users), old(tokens), header).Fail? ==> r == Fail(AdminGate(old(users), old(tokens), header).error)
      ensures AdminGate(old(users), old(tokens), header).Ok? && EventIndex(old(events), eventId) < 0 ==>
                r == Fail(NotFound("Event not found"))
      ensures r.Ok? <==> AdminGate(old(users), old(tokens), header).Ok? && EventIndex(old(events), eventId) >= 0
      ensures r.Ok? ==>
                var i := EventIndex(old(events), eventId);
                && events == old(events)[..i] + old(events)[i + 1..]
                && registrations == WithoutEvent(old(registrations), eventId)
                && announcements == AnnouncementsWithout(old(announcements), eventId)
      ensures r.Fail? ==> unchanged(this)
      ensures old(Valid()) ==> Valid()
      ensures old(Valid() && Admissible()) ==> Admissible()
      ensures old(UniqueEmails(registrations)) ==> UniqueEmails(registrations)
    {
      var gate := AdminGate(users, tokens, header);
      if gate.Fail? {
        return Fail(gate.error);
      }
      var i := EventIndex(events, eventId);
      if i < 0 {
        return Fail(NotFound("Event not found"));
      }
      RemoveEvent(i);
      r := Ok(());
    }

    // ------------------------------------------------------------ registrations

    /** `GET /api/events/:id/registrations`. */
    function EventRegistrations(eventId: string): (r: Result<seq<Registration>>)
      reads this
      ensures r.Ok? <==> exists k :: 0 <= k < |events| && events[k].id == eventId
      ensures r.Ok? ==> forall x :: x in r.value <==> x in registrations && x.eventId == eventId
      ensures r.Fail? ==> r.error == NotFound("Event not found")
    {
      if EventIndex(events, eventId) < 0 then Fail(NotFound("Event not found"))
      else Ok(OfEvent(registrations, eventId))
    }

    /** `POST /api/events/:id/register`: the admission decision, and on success one
        confirmed registration appended. */
    method Register(eventId: string, p: RegistrationInput, id: string, now: Timestamp)
      returns (r: Result<Registration>)
      modifies this
      ensures unchanged(this`events, this`announcements, this`users, this`tokens)
      ensures r == Admission(old(events), old(registrations), eventId, p, id, now)
      ensures registrations == if r.Ok? then old(registrations) + [r.value] else old(registrations)
      ensures r.Ok? ==>
                && ConfirmedCount(registrations, eventId) == ConfirmedCount(old(registrations), eventId) + 1
                && ConfirmedCount(registrations, eventId) <= events[EventIndex(events, eventId)].capacity
      ensures r.Fail? ==> unchanged(this)
      ensures old(Valid()) ==> Valid()
      ensures old(Admissible()) ==> Admissible()
      ensures r.Ok? && old(UniqueEmails(registrations)) && StoredEmail(p.email) == p.email ==>
                UniqueEmails(registrations)
    {
      r := Admission(events, registrations, eventId, p, id, now);
      if r.Fail? {
        return;
      }
      AddRegistration(r.value);
    }

    /** `PATCH /api/registrations/:id/status`: the status text, then the registration
        lookup, then, when a registration moves into `confirmed`, the capacity of its
        event; then the status and `updatedAt` of that one registration. When the
        registration's event is gone the capacity read throws and the route answers 500. */
    method SetStatus(regId: string, status: string, now: Timestamp) returns (r: Result<Registration>)
      modifies this
      ensures unchanged(this`events, this`announcements, this`users, this`tokens)
      ensures ParseStatus(status).None? ==>
                r == Fail(BadRequest("Invalid status. Must be confirmed, pending, or rejected"))
      ensures ParseStatus(status).Some? && RegistrationIndex(old(registrations), regId) < 0 ==>
                r == Fail(NotFound("Registration not found"))
      ensures ParseStatus(status).Some? && RegistrationIndex(old(registrations), regId) >= 0 ==>
                var reg := old(registrations)[RegistrationIndex(old(registrations), regId)];
                var i := EventIndex(old(events), reg.eventId);
                && (ParseStatus(status).value != Confirmed || reg.status == Confirmed ==> r.Ok?)
                && (ParseStatus(status).value == Confirmed && reg.status != Confirmed ==>
                      if i < 0 then r == Fail(Internal("Failed to update status"))
                      else if ConfirmedCount(old(registrations), reg.eventId) >= old(events)[i].capacity
                      then r == Fail(BadRequest("Cannot confirm - event is at capacity"))
                      else r.Ok?)
      ensures r.Ok? ==>
                var k := RegistrationIndex(old(registrations), regId);
                && 0 <= k
                && r.value == old(registrations)[k].(status := ParseStatus(status).value, updatedAt := Some(now))
                && registrations == old(registrations)[k := r.value]
                && StatusName(r.value.status) == status
      ensures r.Fail? ==> unchanged(this)
      ensures old(Valid()) ==> Valid()
      ensures old(Admissible()) ==> Admissible()
      ensures old(UniqueEmails(registrations)) ==> UniqueEmails(registrations)
    {
      var st := ParseStatus(status);
      if st.None? {
        return Fail(BadRequest("Invalid status. Must be confirmed, pending, or rejected"));
      }
      var k := RegistrationIndex(registrations, regId);
      if k < 0 {
        return Fail(NotFound("Registration not found"));
      }
      var reg := registrations[k];
      if st.value == Confirmed && reg.status != Confirmed {
        var i := EventIndex(events, reg.eventId);
        if i < 0 {
          return Fail(Internal("Failed to update status"));
        }
        if ConfirmedCount(registrations, reg.eventId) >= events[i].capacity {
          return Fail(BadRequest("Cannot confirm - event is at capacity"));
        }
      }
      var updated := reg.(status := st.value, updatedAt := Some(now));
      ReplaceRegistration(k, updated);
      r := Ok(updated);
    }

    /** `GET /api/events/:id/check-registration`: the first registration of the event
        whose stored e-mail equals the lower-cased query text, if any. The event itself
        is not looked up. */
    function CheckRegistration(eventId: string, email: string): (r: Result<Option<Registration>>)
      reads this
      ensures r.Fail? <==> email == ""
      ensures r.Fail? ==> r.error == BadRequest("Email parameter is required")
      ensures r.Ok? && r.value.Some? ==>
                r.value.value in registrations && r.value.value.eventId == eventId && r.value.value.email == ToLower(email)
      ensures r.Ok? && r.value.Some? ==>
                r.value.value == registrations[KeyIndex(registrations, eventId, ToLower(email))]
      ensures r.Ok? && r.value.None? <==>
                email != "" && forall x :: x in registrations ==> x.eventId != eventId || x.email != ToLower(email)
    {
      if email == "" then Fail(BadRequest("Email parameter is required"))
      else
        var k := KeyIndex(registrations, eventId, ToLower(email));
        if k < 0 then Ok(None) else Ok(Some(registrations[k]))
    }

    // ------------------------------------------------------------ announcements

    /** `GET /api/events/:id/announcements`. */
    function EventAnnouncements(eventId: string): (r: Result<seq<Announcement>>)
      reads this
      ensures r.Ok? <==> exists k :: 0 <= k < |events| && events[k].id == eventId
      ensures r.Ok? ==> forall a :: a in r.value <==> a in announcements && a.eventId == eventId
      ensures r.Fail? ==> r.error == NotFound("Event not found")
    {
      if EventIndex(events, eventId) < 0 then Fail(NotFound("Event not found"))
      else Ok(AnnouncementsOf(announcements, eventId))
    }

    /** `POST /api/events/:id/announcements`: the admin gate and the message
        validator, the event lookup, then one announcement; the reply counts every
        registration of the event, whatever its status. */
    method CreateAnnouncement(header: string, eventId: string, message: string, id: string, now: Timestamp)
      returns (r: Result<Delivery>)
      modifies this
      ensures unchanged(this`events, this`registrations, this`users, this`tokens)
      ensures AnnouncementGuard(old(users), old(tokens), header, message).Fail? ==>
                r == Fail(AnnouncementGuard(old(users), old(tokens), header, message).error)
      ensures AnnouncementGuard(old(users), old(tokens), header, message).Ok? && EventIndex(old(events), eventId) < 0 ==>
                r == Fail(NotFound("Event not found"))
      ensures r.Ok? <==>
                AnnouncementGuard(old(users), old(tokens), header, message).Ok? && EventIndex(old(events), eventId) >= 0
      ensures r.Ok? ==>
                && r.value.announcement == Announcement(id, eventId, Trim(message), now)
                && announcements == old(announcements) + [r.value.announcement]
                && r.value.participants == |OfEvent(registrations, eventId)|
      ensures r.Fail? ==> unchanged(this)
      ensures old(Valid()) ==> Valid()
    {
      var guard := AnnouncementGuard(users, tokens, header, message);
      if guard.Fail? {
        return Fail(guard.error);
      }
      if EventIndex(events, eventId) < 0 {
        return Fail(NotFound("Event not found"));
      }
      var a := Announcement(id, eventId, Trim(message), now);
      AddAnnouncement(a);
      r := Ok(Delivery(a, |OfEvent(registrations, eventId)|));
    }

    // ------------------------------------------------------------ export

    /** `GET /api/events/:id/download-participants`: the values of the worksheet for
        the event's registrations; its summary agrees with the counts the capacity
        checks use. */
    function ParticipantSheet(eventId: string): (r: Result<Sheet>)
      reads this
      ensures r.Ok? <==> exists k :: 0 <= k < |events| && events[k].id == eventId
      ensures r.Fail? ==> r.error == NotFound("Event not found")
      ensures r.Ok? ==>
                && |r.value.rows| == r.value.summary.total == |OfEvent(registrations, eventId)|
                && r.value.summary.confirmed == ConfirmedCount(registrations, eventId)
                && r.value.summary.confirmed == LabelCount(r.value.rows, "CONFIRMED")
    {
      if EventIndex(events, eventId) < 0 then Fail(NotFound("Event not found"))
      else
        var rs := OfEvent(registrations, eventId);
        SummaryMatchesRows(rs);
        Ok(Render(rs))
    }
  }
}
