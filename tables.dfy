/** The server's collections read as tables: the linear-scan lookups and counts its
    handlers perform (`find`, `findIndex`, `filter(...).length`), the invariants the
    store keeps, and how each kind of update changes the counts. */
module Tables {
  import opened Text
  import opened Records

  // ---------------------------------------------------------------- lookups

  /** `s.findIndex(p)`: the first position whose element satisfies `p`, or -1. */
  function FindIndex<T>(s: seq<T>, p: T -> bool): (r: int)
    ensures -1 <= r < |s|
    ensures r == -1 <==> forall k :: 0 <= k < |s| ==> !p(s[k])
    ensures 0 <= r ==> p(s[r]) && forall k :: 0 <= k < r ==> !p(s[k])
  {
    if s == [] then -1
    else if p(s[0]) then 0
    else
      var k := FindIndex(s[1..], p);
      if k == -1 then -1 else k + 1
  }

  /** `events.findIndex(e => e.id === id)`. */
  function EventIndex(events: seq<Event>, id: string): (r: int)
    ensures -1 <= r < |events|
    ensures r == -1 <==> forall k :: 0 <= k < |events| ==> events[k].id != id
    ensures 0 <= r ==> events[r].id == id && forall k :: 0 <= k < r ==> events[k].id != id
  {
    FindIndex(events, (e: Event) => e.id == id)
  }

  /** An event resolves its id when it is the first event carrying that id: the
      one every `find` on the id answers with. */
  predicate Resolves(events: seq<Event>, i: int)
    requires 0 <= i < |events|
  {
    EventIndex(events, events[i].id) == i
  }

  /** `registrations.findIndex(r => r.id === id)`. */
  function RegistrationIndex(regs: seq<Registration>, id: string): (r: int)
    ensures -1 <= r < |regs|
    ensures r == -1 <==> forall k :: 0 <= k < |regs| ==> regs[k].id != id
    ensures 0 <= r ==> regs[r].id == id && forall k :: 0 <= k < r ==> regs[k].id != id
  {
    FindIndex(regs, (x: Registration) => x.id == id)
  }

  /** `registrations.find(r => r.eventId === eventId && r.email === email)`, as an
      index: the stored e-mail is compared with `email` exactly as given. */
  function KeyIndex(regs: seq<Registration>, eventId: string, email: string): (r: int)
    ensures -1 <= r < |regs|
    ensures r == -1 <==> forall k :: 0 <= k < |regs| ==> regs[k].eventId != eventId || regs[k].email != email
    ensures 0 <= r ==> regs[r].eventId == eventId && regs[r].email == email
    ensures 0 <= r ==> forall k :: 0 <= k < r ==> regs[k].eventId != eventId || regs[k].email != email
  {
    FindIndex(regs, (x: Registration) => x.eventId == eventId && x.email == email)
  }

  /** `users.find(u => u.id === id)`, as an index. */
  function UserIndex(users: seq<User>, id: string): (r: int)
    ensures -1 <= r < |users|
    ensures r == -1 <==> forall k :: 0 <= k < |users| ==> users[k].id != id
    ensures 0 <= r ==> users[r].id == id && forall k :: 0 <= k < r ==> users[k].id != id
  {
    FindIndex(users, (u: User) => u.id == id)
  }

  /** `users.find(u => u.email.toLowerCase() === email.toLowerCase())`, as an index. */
  function UserIndexByEmail(users: seq<User>, email: string): (r: int)
    ensures -1 <= r < |users|
    ensures r == -1 <==> forall k :: 0 <= k < |users| ==> ToLower(users[k].email) != ToLower(email)
    ensures 0 <= r ==> ToLower(users[r].email) == ToLower(email)
    ensures 0 <= r ==> forall k :: 0 <= k < r ==> ToLower(users[k].email) != ToLower(email)
  {
    FindIndex(users, (u: User) => ToLower(u.email) == ToLower(email))
  }

  // ---------------------------------------------------------------- filters

  /** `registrations.filter(r => r.eventId === eventId)`. */
  function OfEvent(regs: seq<Registration>, eventId: string): (r: seq<Registration>)
    ensures |r| <= |regs|
    ensures forall x :: x in r <==> x in regs && x.eventId == eventId
  {
    if regs == [] then []
    else
      assert regs == [regs[0]] + regs[1..];
      (if regs[0].eventId == eventId then [regs[0]] else []) + OfEvent(regs[1..], eventId)
  }

  /** `registrations.filter(r => r.eventId !== eventId)`. */
  function WithoutEvent(regs: seq<Registration>, eventId: string): (r: seq<Registration>)
    ensures |r| <= |regs|
    ensures forall x :: x in r <==> x in regs && x.eventId != eventId
  {
    if regs == [] then []
    else
      assert regs == [regs[0]] + regs[1..];
      (if regs[0].eventId != eventId then [regs[0]] else []) + WithoutEvent(regs[1..], eventId)
  }

  /** The two filters split the registrations: every one lands in exactly one part. */
  lemma {:induction false} FiltersPartition(regs: seq<Registration>, eventId: string)
    ensures multiset(OfEvent(regs, eventId)) + multiset(WithoutEvent(regs, eventId)) == multiset(regs)
  {
    if regs != [] {
      var rest := regs[1..];
      FiltersPartition(rest, eventId);
      assert regs == [regs[0]] + rest;
      var inPart := if regs[0].eventId == eventId then [regs[0]] else [];
      var outPart := if regs[0].eventId != eventId then [regs[0]] else [];
      assert OfEvent(regs, eventId) == inPart + OfEvent(rest, eventId);
      assert WithoutEvent(regs, eventId) == outPart + WithoutEvent(rest, eventId);
      assert multiset(inPart) + multiset(outPart) == multiset([regs[0]]);
    }
  }

  /** `announcements.filter(a => a.eventId === eventId)`. */
  function AnnouncementsOf(anns: seq<Announcement>, eventId: string): (r: seq<Announcement>)
    ensures |r| <= |anns|
    ensures forall x :: x in r <==> x in anns && x.eventId == eventId
  {
    if anns == [] then []
    else
      assert anns == [anns[0]] + anns[1..];
      (if anns[0].eventId == eventId then [anns[0]] else []) + AnnouncementsOf(anns[1..], eventId)
  }

  /** `announcements.filter(a => a.eventId !== eventId)`. */
  function AnnouncementsWithout(anns: seq<Announcement>, eventId: string): (r: seq<Announcement>)
    ensures |r| <= |anns|
    ensures forall x :: x in r <==> x in anns && x.eventId != eventId
  {
    if anns == [] then []
    else
      assert anns == [anns[0]] + anns[1..];
      (if anns[0].eventId != eventId then [anns[0]] else []) + AnnouncementsWithout(anns[1..], eventId)
  }

  // ---------------------------------------------------------------- counts

  /** The number of registrations in `rs` whose status is `st`. */
  function Tally(rs: seq<Registration>, st: Status): (n: nat)
    ensures n <= |rs|
  {
    if rs == [] then 0 else (if rs[0].status == st then 1 else 0) + Tally(rs[1..], st)
  }

  /** The tally is zero exactly when no registration has the status, and the
      whole length exactly when all have it. */
  lemma {:induction false} TallyExtremes(rs: seq<Registration>, st: Status)
    ensures Tally(rs, st) == 0 <==> forall k :: 0 <= k < |rs| ==> rs[k].status != st
    ensures Tally(rs, st) == |rs| <==> forall k :: 0 <= k < |rs| ==> rs[k].status == st
  {
    if rs != [] {
      TallyExtremes(rs[1..], st);
      assert forall k :: 1 <= k < |rs| ==> rs[k] == rs[1..][k - 1];
    }
  }

  /** `registrations.filter(r => r.eventId === eventId && r.status === 'confirmed').length`. */
  function ConfirmedCount(regs: seq<Registration>, eventId: string): (n: nat)
    ensures n <= |regs|
  {
    Tally(OfEvent(regs, eventId), Confirmed)
  }

  /** An event's confirmed count is zero exactly when none of its registrations is
      confirmed. */
  lemma ConfirmedCountZero(regs: seq<Registration>, eventId: string)
    ensures ConfirmedCount(regs, eventId) == 0 <==>
              forall x :: x in regs && x.eventId == eventId ==> x.status != Confirmed
  {
    var of := OfEvent(regs, eventId);
    TallyExtremes(of, Confirmed);
    assert forall x :: x in of <==> exists k :: 0 <= k < |of| && of[k] == x;
  }

  /** The three statuses partition any list of registrations. */
  lemma {:induction false} TallyPartition(rs: seq<Registration>)
    ensures Tally(rs, Confirmed) + Tally(rs, Pending) + Tally(rs, Rejected) == |rs|
  {
    if rs != [] {
      TallyPartition(rs[1..]);
    }
  }

  lemma {:induction false} TallyAppend(a: seq<Registration>, b: seq<Registration>, st: Status)
    ensures Tally(a + b, st) == Tally(a, st) + Tally(b, st)
  {
    if a == [] {
      assert a + b == b;
    } else {
      assert (a + b)[0] == a[0];
      assert (a + b)[1..] == a[1..] + b;
      TallyAppend(a[1..], b, st);
    }
  }

  lemma {:induction false} OfEventAppend(a: seq<Registration>, b: seq<Registration>, eventId: string)
    ensures OfEvent(a + b, eventId) == OfEvent(a, eventId) + OfEvent(b, eventId)
  {
    if a == [] {
      assert a + b == b;
    } else {
      assert (a + b)[0] == a[0];
      assert (a + b)[1..] == a[1..] + b;
      OfEventAppend(a[1..], b, eventId);
    }
  }

  /** The confirmed count of `eventId` grows by one exactly when a confirmed
      registration for `eventId` is appended, and otherwise stays. */
  lemma ConfirmedCountAppend(regs: seq<Registration>, reg: Registration, eventId: string)
    ensures ConfirmedCount(regs + [reg], eventId)
            == ConfirmedCount(regs, eventId) + (if reg.eventId == eventId && reg.status == Confirmed then 1 else 0)
  {
    OfEventAppend(regs, [reg], eventId);
    TallyAppend(OfEvent(regs, eventId), OfEvent([reg], eventId), Confirmed);
  }

  /** Replacing one registration by another for the same event moves the confirmed
      count of that event by the change of status, and leaves every other count. */
  lemma ConfirmedCountReplace(regs: seq<Registration>, i: nat, reg: Registration, eventId: string)
    requires i < |regs| && reg.eventId == regs[i].eventId
    ensures ConfirmedCount(regs[i := reg], eventId)
            == ConfirmedCount(regs, eventId)
               - (if regs[i].eventId == eventId && regs[i].status == Confirmed then 1 else 0)
               + (if reg.eventId == eventId && reg.status == Confirmed then 1 else 0)
  {
    var pre, post := regs[..i], regs[i + 1..];
    assert regs == pre + [regs[i]] + post;
    assert regs[i := reg] == pre + [reg] + post;
    ConfirmedCountSplit(pre, regs[i], post, eventId);
    ConfirmedCountSplit(pre, reg, post, eventId);
  }

  lemma ConfirmedCountSplit(pre: seq<Registration>, reg: Registration, post: seq<Registration>, eventId: string)
    ensures ConfirmedCount(pre + [reg] + post, eventId)
            == ConfirmedCount(pre, eventId) + ConfirmedCount(post, eventId)
               + (if reg.eventId == eventId && reg.status == Confirmed then 1 else 0)
  {
    OfEventAppend(pre + [reg], post, eventId);
    TallyAppend(OfEvent(pre + [reg], eventId), OfEvent(post, eventId), Confirmed);
    ConfirmedCountAppend(pre, reg, eventId);
  }

  /** An event no registration refers to has no confirmed registrations. */
  lemma {:induction false} ConfirmedCountUnreferenced(regs: seq<Registration>, eventId: string)
    requires forall r :: r in regs ==> r.eventId != eventId
    ensures ConfirmedCount(regs, eventId) == 0
  {
    if regs != [] {
      assert regs[0] in regs;
      assert forall r :: r in regs[1..] ==> r in regs;
      ConfirmedCountUnreferenced(regs[1..], eventId);
    }
  }

  /** Removing the registrations of one event zeroes its count and keeps the others. */
  lemma {:induction false} ConfirmedCountWithout(regs: seq<Registration>, gone: string, eventId: string)
    ensures ConfirmedCount(WithoutEvent(regs, gone), eventId)
            == if eventId == gone then 0 else ConfirmedCount(regs, eventId)
  {
    if regs != [] {
      ConfirmedCountWithout(regs[1..], gone, eventId);
      var head := if regs[0].eventId != gone then [regs[0]] else [];
      assert WithoutEvent(regs, gone) == head + WithoutEvent(regs[1..], gone);
      OfEventAppend(head, WithoutEvent(regs[1..], gone), eventId);
      TallyAppend(OfEvent(head, eventId), OfEvent(WithoutEvent(regs[1..], gone), eventId), Confirmed);
      var first := if regs[0].eventId == eventId then [regs[0]] else [];
      assert OfEvent(regs, eventId) == first + OfEvent(regs[1..], eventId);
      TallyAppend(first, OfEvent(regs[1..], eventId), Confirmed);
    }
  }

  // ---------------------------------------------------------------- invariants

  /** Every registration and every announcement refers to an event that exists. */
  ghost predicate EventsExist(events: seq<Event>, regs: seq<Registration>, anns: seq<Announcement>) {
    && (forall r :: r in regs ==> EventIndex(events, r.eventId) >= 0)
    && (forall a :: a in anns ==> EventIndex(events, a.eventId) >= 0)
  }

  /** Every stored capacity is one the event validator accepts. */
  ghost predicate CapacitiesInRange(events: seq<Event>) {
    forall e :: e in events ==> 1 <= e.capacity <= 10000
  }

  /** Every issued token names a user that exists. */
  ghost predicate TokensResolve(users: seq<User>, tokens: map<string, string>) {
    forall t :: t in tokens ==> UserIndex(users, tokens[t]) >= 0
  }

  /** No event has more confirmed registrations than the capacity of the event its
      id resolves to. */
  ghost predicate WithinCapacity(events: seq<Event>, regs: seq<Registration>) {
    forall i :: 0 <= i < |events| && Resolves(events, i) ==> ConfirmedCount(regs, events[i].id) <= events[i].capacity
  }

  /** At most one registration per (event, stored e-mail). */
  ghost predicate UniqueEmails(regs: seq<Registration>) {
    forall i, j :: 0 <= i < j < |regs| ==> regs[i].eventId != regs[j].eventId || regs[i].email != regs[j].email
  }

  // ---------------------------------------------------------------- how events change

  /** Appending an event keeps every id that resolved resolving to the same event. */
  lemma EventIndexAppend(events: seq<Event>, e: Event, id: string)
    ensures EventIndex(events + [e], id)
            == if EventIndex(events, id) >= 0 then EventIndex(events, id)
               else if e.id == id then |events| else -1
  {
    var s := events + [e];
    var k := EventIndex(events, id);
    if k >= 0 {
      assert s[k] == events[k];
      EventIndexIsFirst(s, id, k);
    } else if e.id == id {
      EventIndexIsFirst(s, id, |events|);
    }
  }

  /** Replacing an event by one with the same id changes no lookup. */
  lemma EventIndexReplace(events: seq<Event>, i: nat, e: Event, id: string)
    requires i < |events| && e.id == events[i].id
    ensures EventIndex(events[i := e], id) == EventIndex(events, id)
  {
    var k := EventIndex(events, id);
    if k >= 0 {
      EventIndexIsFirst(events[i := e], id, k);
    }
  }

  /** Removing the event at `i` shifts the lookups of other ids past `i` down by one. */
  lemma EventIndexRemove(events: seq<Event>, i: nat, id: string)
    requires i < |events| && events[i].id != id
    ensures EventIndex(events[..i] + events[i + 1..], id)
            == if EventIndex(events, id) < 0 then -1
               else if EventIndex(events, id) < i then EventIndex(events, id)
               else EventIndex(events, id) - 1
  {
    var s := events[..i] + events[i + 1..];
    var k := EventIndex(events, id);
    assert forall m :: 0 <= m < i ==> s[m] == events[m];
    assert forall m :: i <= m < |s| ==> s[m] == events[m + 1];
    if 0 <= k < i {
      EventIndexIsFirst(s, id, k);
    } else if k > i {
      EventIndexIsFirst(s, id, k - 1);
    }
  }

  /** An index that holds `id` with no earlier copy is the lookup's answer. */
  lemma EventIndexIsFirst(events: seq<Event>, id: string, i: nat)
    requires i < |events| && events[i].id == id
    requires forall k :: 0 <= k < i ==> events[k].id != id
    ensures EventIndex(events, id) == i
  {
    var r := EventIndex(events, id);
    assert r != -1 by { assert events[i].id == id; }
  }

  // ---------------------------------------------------------------- what each update keeps

  /** Admitting a registration to an event whose confirmed count is below the
      capacity of the event its id resolves to keeps every event within capacity. */
  lemma AdmitKeepsCapacity(events: seq<Event>, regs: seq<Registration>, reg: Registration)
    requires WithinCapacity(events, regs)
    requires EventIndex(events, reg.eventId) >= 0
    requires ConfirmedCount(regs, reg.eventId) < events[EventIndex(events, reg.eventId)].capacity
    ensures WithinCapacity(events, regs + [reg])
  {
    forall i | 0 <= i < |events| && Resolves(events, i)
      ensures ConfirmedCount(regs + [reg], events[i].id) <= events[i].capacity
    {
      ConfirmedCountAppend(regs, reg, events[i].id);
    }
  }

  /** A status change keeps every event within capacity as long as moving into
      `Confirmed` from another status happens only below capacity. */
  lemma StatusChangeKeepsCapacity(events: seq<Event>, regs: seq<Registration>, i: nat, reg: Registration)
    requires WithinCapacity(events, regs)
    requires i < |regs| && reg.eventId == regs[i].eventId
    requires reg.status == Confirmed && regs[i].status != Confirmed ==>
               EventIndex(events, reg.eventId) >= 0
               && ConfirmedCount(regs, reg.eventId) < events[EventIndex(events, reg.eventId)].capacity
    ensures WithinCapacity(events, regs[i := reg])
  {
    forall j | 0 <= j < |events| && Resolves(events, j)
      ensures ConfirmedCount(regs[i := reg], events[j].id) <= events[j].capacity
    {
      ConfirmedCountReplace(regs, i, reg, events[j].id);
    }
  }

  /** Adding an event keeps every event within capacity, provided every registration
      refers to an existing event and the new capacity is not negative. */
  lemma AddEventKeepsCapacity(events: seq<Event>, regs: seq<Registration>, e: Event)
    requires WithinCapacity(events, regs)
    requires forall r :: r in regs ==> EventIndex(events, r.eventId) >= 0
    requires e.capacity >= 0
    ensures WithinCapacity(events + [e], regs)
  {
    var s := events + [e];
    forall i | 0 <= i < |s| && Resolves(s, i)
      ensures ConfirmedCount(regs, s[i].id) <= s[i].capacity
    {
      EventIndexAppend(events, e, s[i].id);
      if i == |events| {
        ConfirmedCountUnreferenced(regs, e.id);
      } else {
        assert s[i] == events[i];
      }
    }
  }

  /** Deleting the event at `i` together with all registrations of its id keeps every
      remaining event within capacity. */
  lemma RemoveEventKeepsCapacity(events: seq<Event>, regs: seq<Registration>, i: nat)
    requires WithinCapacity(events, regs) && CapacitiesInRange(events)
    requires i < |events|
    ensures WithinCapacity(events[..i] + events[i + 1..], WithoutEvent(regs, events[i].id))
  {
    var gone := events[i].id;
    var s := events[..i] + events[i + 1..];
    var rest := WithoutEvent(regs, gone);
    forall j | 0 <= j < |s| && Resolves(s, j)
      ensures ConfirmedCount(rest, s[j].id) <= s[j].capacity
    {
      ConfirmedCountWithout(regs, gone, s[j].id);
      var orig := if j < i then j else j + 1;
      assert s[j] == events[orig];
      assert s[j] in events;
      if s[j].id != gone {
        EventIndexRemove(events, i, s[j].id);
      }
    }
  }

  /** A table of one event is within capacity exactly when that event is. */
  lemma SingleEventWithinCapacity(e: Event, regs: seq<Registration>)
    ensures WithinCapacity([e], regs) <==> ConfirmedCount(regs, e.id) <= e.capacity
  {
    assert Resolves([e], 0);
  }

  /** Two confirmed registrations of one event count as two. */
  lemma ConfirmedPair(a: Registration, b: Registration)
    requires a.eventId == b.eventId && a.status == Confirmed && b.status == Confirmed
    ensures ConfirmedCount([a, b], a.eventId) == 2
  {
    assert [a, b][1..] == [b] && [b][1..] == [];
    assert OfEvent([a, b], a.eventId) == [a, b];
    assert Tally([b], Confirmed) == 1;
    assert Tally([a, b], Confirmed) == 2;
  }

  /** Updating an event may lower its capacity below its confirmed count: the
      update path does not keep events within capacity. */
  lemma UpdateMayExceedCapacity()
    ensures exists events: seq<Event>, regs: seq<Registration>, i: nat, e: Event ::
              i < |events| && e.id == events[i].id && 1 <= e.capacity <= 10000
              && WithinCapacity(events, regs) && !WithinCapacity(events[i := e], regs)
  {
    var ev := Event("1", "", "", "", 2, "", None);
    var a := Registration("a", "1", "", "", "", Confirmed, "", None);
    var b := Registration("b", "1", "", "", "", Confirmed, "", None);
    var lowered := ev.(capacity := 1);
    var events, regs := [ev], [a, b];
    ConfirmedPair(a, b);
    SingleEventWithinCapacity(ev, regs);
    SingleEventWithinCapacity(lowered, regs);
    assert events[0 := lowered] == [lowered];
    assert 0 < |events| && lowered.id == events[0].id && 1 <= lowered.capacity <= 10000;
  }

  /** Rewriting the event at `i` under its own id keeps every event within capacity
      when the new capacity still covers the event's confirmed count ... */
  lemma ReplaceEventKeepsCapacity(events: seq<Event>, regs: seq<Registration>, i: nat, e: Event)
    requires WithinCapacity(events, regs)
    requires i < |events| && e.id == events[i].id
    requires ConfirmedCount(regs, e.id) <= e.capacity
    ensures WithinCapacity(events[i := e], regs)
  {
    var s := events[i := e];
    forall j | 0 <= j < |s| && Resolves(s, j)
      ensures ConfirmedCount(regs, s[j].id) <= s[j].capacity
    {
      EventIndexReplace(events, i, e, s[j].id);
      if j != i {
        assert s[j] == events[j];
      }
    }
  }

  /** ... and breaks it when the event resolves its id and the new capacity is
      below its confirmed count. */
  lemma ReplaceEventExceedsCapacity(events: seq<Event>, regs: seq<Registration>, i: nat, e: Event)
    requires i < |events| && e.id == events[i].id && Resolves(events, i)
    requires ConfirmedCount(regs, e.id) > e.capacity
    ensures !WithinCapacity(events[i := e], regs)
  {
    var s := events[i := e];
    EventIndexReplace(events, i, e, e.id);
    assert Resolves(s, i) && s[i] == e;
  }

  /** Removing an event keeps the stored capacities within range. */
  lemma RemoveEventKeepsRanges(events: seq<Event>, i: nat)
    requires CapacitiesInRange(events) && i < |events|
    ensures CapacitiesInRange(events[..i] + events[i + 1..])
  {
    var s := events[..i] + events[i + 1..];
    forall e | e in s ensures 1 <= e.capacity <= 10000 {
      var k :| 0 <= k < |s| && s[k] == e;
      assert e == events[if k < i then k else k + 1];
    }
  }

  /** Adding an event with an accepted capacity keeps the stored capacities in range. */
  lemma AddEventKeepsRanges(events: seq<Event>, e: Event)
    requires CapacitiesInRange(events) && 1 <= e.capacity <= 10000
    ensures CapacitiesInRange(events + [e])
  {
    forall x | x in events + [e] ensures 1 <= x.capacity <= 10000 {
      assert x in events || x == e;
    }
  }

  /** Rewriting an event with an accepted capacity keeps the stored capacities in range. */
  lemma ReplaceEventKeepsRanges(events: seq<Event>, i: nat, e: Event)
    requires CapacitiesInRange(events) && i < |events| && 1 <= e.capacity <= 10000
    ensures CapacitiesInRange(events[i := e])
  {
    var s := events[i := e];
    forall x | x in s ensures 1 <= x.capacity <= 10000 {
      var k :| 0 <= k < |s| && s[k] == x;
      assert k == i || x == events[k];
    }
  }

  /** With no registrations every event with an accepted capacity is within it. */
  lemma EmptyWithinCapacity(events: seq<Event>)
    requires CapacitiesInRange(events)
    ensures WithinCapacity(events, [])
  {
    forall i | 0 <= i < |events| && Resolves(events, i)
      ensures ConfirmedCount([], events[i].id) <= events[i].capacity
    {
      assert OfEvent([], events[i].id) == [];
      assert events[i] in events;
    }
  }

  // ---------------------------------------------------------------- references

  /** Deleting the event at `i` with the records that refer to its id leaves every
      remaining record referring to an existing event. */
  lemma RemoveEventKeepsReferences(events: seq<Event>, regs: seq<Registration>, anns: seq<Announcement>, i: nat)
    requires EventsExist(events, regs, anns)
    requires i < |events|
    ensures EventsExist(events[..i] + events[i + 1..], WithoutEvent(regs, events[i].id),
                        AnnouncementsWithout(anns, events[i].id))
  {
    var gone := events[i].id;
    forall r | r in WithoutEvent(regs, gone)
      ensures EventIndex(events[..i] + events[i + 1..], r.eventId) >= 0
    {
      EventIndexRemove(events, i, r.eventId);
    }
    forall a | a in AnnouncementsWithout(anns, gone)
      ensures EventIndex(events[..i] + events[i + 1..], a.eventId) >= 0
    {
      EventIndexRemove(events, i, a.eventId);
    }
  }

  /** Adding an event keeps every record referring to an existing event. */
  lemma AddEventKeepsReferences(events: seq<Event>, regs: seq<Registration>, anns: seq<Announcement>, e: Event)
    requires EventsExist(events, regs, anns)
    ensures EventsExist(events + [e], regs, anns)
  {
    forall id | EventIndex(events, id) >= 0 ensures EventIndex(events + [e], id) >= 0 {
      EventIndexAppend(events, e, id);
    }
  }

  /** Rewriting an event in place under its own id keeps every reference. */
  lemma ReplaceEventKeepsReferences(events: seq<Event>, regs: seq<Registration>, anns: seq<Announcement>, i: nat, e: Event)
    requires EventsExist(events, regs, anns)
    requires i < |events| && e.id == events[i].id
    ensures EventsExist(events[i := e], regs, anns)
  {
    forall id ensures EventIndex(events[i := e], id) == EventIndex(events, id) {
      EventIndexReplace(events, i, e, id);
    }
  }

  /** Appending a registration of an existing event keeps every reference. */
  lemma AddRegistrationKeepsReferences(events: seq<Event>, regs: seq<Registration>, anns: seq<Announcement>,
                                       reg: Registration)
    requires EventsExist(events, regs, anns) && EventIndex(events, reg.eventId) >= 0
    ensures EventsExist(events, regs + [reg], anns)
  {
    forall x | x in regs + [reg] ensures EventIndex(events, x.eventId) >= 0 {
      assert x in regs || x == reg;
    }
  }

  /** Rewriting a registration under its own event keeps every reference. */
  lemma ReplaceRegistrationKeepsReferences(events: seq<Event>, regs: seq<Registration>, anns: seq<Announcement>,
                                           k: nat, reg: Registration)
    requires EventsExist(events, regs, anns) && k < |regs| && reg.eventId == regs[k].eventId
    ensures EventsExist(events, regs[k := reg], anns)
  {
    var s := regs[k := reg];
    forall x | x in s ensures EventIndex(events, x.eventId) >= 0 {
      var j :| 0 <= j < |s| && s[j] == x;
      assert x.eventId == regs[j].eventId;
      assert regs[j] in regs;
    }
  }

  /** Appending an announcement of an existing event keeps every reference. */
  lemma AddAnnouncementKeepsReferences(events: seq<Event>, regs: seq<Registration>, anns: seq<Announcement>,
                                       a: Announcement)
    requires EventsExist(events, regs, anns) && EventIndex(events, a.eventId) >= 0
    ensures EventsExist(events, regs, anns + [a])
  {
    forall x | x in anns + [a] ensures EventIndex(events, x.eventId) >= 0 {
      assert x in anns || x == a;
    }
  }

  // ---------------------------------------------------------------- users and tokens

  /** Adding a user and a token for that user keeps every token naming a user. */
  lemma AddUserKeepsTokens(users: seq<User>, tokens: map<string, string>, u: User, token: string)
    requires TokensResolve(users, tokens)
    ensures TokensResolve(users + [u], tokens[token := u.id])
  {
    var s, m := users + [u], tokens[token := u.id];
    forall t | t in m ensures UserIndex(s, m[t]) >= 0 {
      if t == token {
        assert s[|users|].id == m[t];
      } else {
        var k := UserIndex(users, m[t]);
        assert s[k] == users[k];
      }
    }
  }

  /** Issuing a further token for an existing user keeps every token naming a user. */
  lemma IssueTokenKeepsTokens(users: seq<User>, tokens: map<string, string>, i: nat, token: string)
    requires TokensResolve(users, tokens) && i < |users|
    ensures TokensResolve(users, tokens[token := users[i].id])
  {
    assert UserIndex(users, users[i].id) >= 0 by {
      assert users[i].id == users[i].id;
    }
  }

  // ---------------------------------------------------------------- duplicate registrations

  /** The form a registration e-mail is stored in: `email.trim().toLowerCase()`. */
  function StoredEmail(email: string): (r: string)
    ensures |r| <= |email| && ToLower(r) == r
    ensures NoWhitespace(email) ==> r == ToLower(email)
  {
    var t := Trim(email);
    assert ToLower(ToLower(t)) == ToLower(t);
    ToLower(t)
  }

  /** A stored e-mail is its own stored form, so comparing stored forms is
      comparing what the table holds. */
  lemma StoredEmailIdempotent(email: string)
    ensures StoredEmail(StoredEmail(email)) == StoredEmail(email)
  {
    var t := Trim(email);
    var r := ToLower(t);
    if r != [] {
      assert r[0] == LowerChar(t[0]);
      LowerCharKeepsWhitespace(t[0]);
      assert r[|r| - 1] == LowerChar(t[|t| - 1]);
      LowerCharKeepsWhitespace(t[|t| - 1]);
    }
    TrimUnchanged(r);
    assert StoredEmail(r) == ToLower(r);
  }

  /** `A@b.c` is stored as `a@b.c`, a text that differs from it. */
  lemma CaseVariantEmail()
    ensures StoredEmail("A@b.c") == "a@b.c" && "A@b.c" != "a@b.c"
  {
    var email := "A@b.c";
    assert NoWhitespace(email);
    var lower := ToLower(email);
    assert LowerChar('A') == 'a';
    assert lower[0] == 'a';
    assert forall k :: 1 <= k < |email| ==> lower[k] == email[k];
    assert lower == "a@b.c";
    assert email[0] != lower[0];
  }

  /** `KeyIndex` applied to the stored form of the incoming e-mail: the duplicate
      test the handler evidently intends. */
  function NormalizedKeyIndex(regs: seq<Registration>, eventId: string, email: string): (r: int)
    ensures r == -1 <==> forall k :: 0 <= k < |regs| ==> regs[k].eventId != eventId || regs[k].email != StoredEmail(email)
  {
    KeyIndex(regs, eventId, StoredEmail(email))
  }

  /** Admitting only registrations the normalised test finds no duplicate for keeps
      at most one registration per (event, stored e-mail). */
  lemma NormalizedCheckKeepsEmailsUnique(regs: seq<Registration>, raw: string, reg: Registration)
    requires UniqueEmails(regs)
    requires reg.email == StoredEmail(raw)
    requires NormalizedKeyIndex(regs, reg.eventId, raw) == -1
    ensures UniqueEmails(regs + [reg])
  {
    FreshKeyKeepsEmailsUnique(regs, reg);
  }

  /** The delete cascade keeps at most one registration per (event, e-mail). */
  /** A registration differs in event or e-mail from every one after it, and those
      after it are unique among themselves. */
  lemma UniqueEmailsSplit(regs: seq<Registration>)
    requires UniqueEmails(regs) && regs != []
    ensures UniqueEmails(regs[1..])
    ensures forall x :: x in regs[1..] ==> x.eventId != regs[0].eventId || x.email != regs[0].email
  {
    var rest := regs[1..];
    forall i, j | 0 <= i < j < |rest| ensures rest[i].eventId != rest[j].eventId || rest[i].email != rest[j].email {
      assert rest[i] == regs[i + 1] && rest[j] == regs[j + 1];
    }
    forall x | x in rest ensures x.eventId != regs[0].eventId || x.email != regs[0].email {
      var m :| 0 <= m < |rest| && rest[m] == x;
      assert regs[m + 1] == x;
    }
  }

  /** Putting in front a registration that differs from every other one keeps the
      pairs unique. */
  lemma UniqueEmailsCons(h: Registration, t: seq<Registration>)
    requires UniqueEmails(t)
    requires forall x :: x in t ==> x.eventId != h.eventId || x.email != h.email
    ensures UniqueEmails([h] + t)
  {
    var s := [h] + t;
    forall i, j | 0 <= i < j < |s| ensures s[i].eventId != s[j].eventId || s[i].email != s[j].email {
      assert s[j] == t[j - 1];
      if 0 < i {
        assert s[i] == t[i - 1];
      } else {
        assert s[j] in t;
      }
    }
  }

  /** The delete cascade's filter keeps at most one registration per (event, e-mail). */
  lemma {:induction false} WithoutEventKeepsEmailsUnique(regs: seq<Registration>, gone: string)
    requires UniqueEmails(regs)
    ensures UniqueEmails(WithoutEvent(regs, gone))
  {
    if regs != [] {
      UniqueEmailsSplit(regs);
      WithoutEventKeepsEmailsUnique(regs[1..], gone);
      var tail := WithoutEvent(regs[1..], gone);
      if regs[0].eventId != gone {
        assert WithoutEvent(regs, gone) == [regs[0]] + tail;
        UniqueEmailsCons(regs[0], tail);
      } else {
        assert WithoutEvent(regs, gone) == tail;
      }
    }
  }

  /** Rewriting a registration without changing its event or e-mail keeps at most
      one registration per (event, e-mail). */
  lemma ReplaceKeepsEmailsUnique(regs: seq<Registration>, k: nat, reg: Registration)
    requires UniqueEmails(regs) && k < |regs|
    requires reg.eventId == regs[k].eventId && reg.email == regs[k].email
    ensures UniqueEmails(regs[k := reg])
  {
    var s := regs[k := reg];
    forall i, j | 0 <= i < j < |s| ensures s[i].eventId != s[j].eventId || s[i].email != s[j].email {
      assert s[i].eventId == regs[i].eventId && s[i].email == regs[i].email;
      assert s[j].eventId == regs[j].eventId && s[j].email == regs[j].email;
    }
  }

  /** Appending a registration whose (event, e-mail) pair is not yet stored keeps
      at most one registration per pair. */
  lemma FreshKeyKeepsEmailsUnique(regs: seq<Registration>, reg: Registration)
    requires UniqueEmails(regs)
    requires KeyIndex(regs, reg.eventId, reg.email) == -1
    ensures UniqueEmails(regs + [reg])
  {
    var s := regs + [reg];
    forall i, j | 0 <= i < j < |s| ensures s[i].eventId != s[j].eventId || s[i].email != s[j].email {
      if j < |regs| {
        assert s[i] == regs[i] && s[j] == regs[j];
      } else {
        assert s[i] == regs[i];
      }
    }
  }
}
