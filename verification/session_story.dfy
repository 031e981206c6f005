/** What becomes of one session: its data are decided by what happened to it, whatever happens to the others. */
module SessionStory {
  import opened Options
  import opened SessionIndex

  function NewSession(ip: Address, at: int): Data {
    Data(ip, Anonymous, at, 0, 0.0)
  }

  /** The session of that id as its own events left it. A sweep takes it if it was last seen longer ago than the
      time to live. */
  function Story(events: Events, id: Id): Option<Data> {
    match events
    case NoEvents => None
    case Then(before, e) =>
      var d := Story(before, id);
      match e
      case Created(x, ip, at) => if x == id then Some(NewSession(ip, at)) else d
      case Looked(x, ip, other, at) =>
        if x.text != "" && Story(before, x).Some? then
          if x == id then Some(d.value.(lastSeen := at, requestCount := d.value.requestCount + 1)) else d
        else if other == id then Some(NewSession(ip, at))
        else d
      case Changed(x, data) => if x == id && d.Some? then Some(data) else d
      case Deleted(x) => if x == id then None else d
      case Swept(ttl, at) => if d.Some? && at - d.value.lastSeen > ttl then None else d
      case Loaded(saved, _) => if id in saved then Some(saved[id]) else None
  }

  predicate Holds(s: State, id: Id, d: Option<Data>) {
    d == if id in s.sessions then Some(s.sessions[id]) else None
  }

  /** In every run the store holds each session as its story has it, and no other. */
  lemma {:induction false} StoreFollowsStories(events: Events, id: Id)
    requires Possible(events)
    ensures Holds(Run(events), id, Story(events, id))
  {
    hide Apply, Holds;
    if events.NoEvents? {
      NothingHeld(id);
    } else {
      StoreFollowsStories(events.before, id);
      if events.last.Looked? {
        StoreFollowsStories(events.before, events.last.id);
      }
      StepHolds(events.before, events.last, id);
    }
  }

  lemma NothingHeld(id: Id)
    ensures Holds(EMPTY, id, None)
  {
  }

  lemma StepHolds(before: Events, e: Event, id: Id)
    requires Possible(Then(before, e)) && Holds(Run(before), id, Story(before, id))
    requires e.Looked? ==> Holds(Run(before), e.id, Story(before, e.id))
    ensures Holds(Apply(Run(before), e), id, Story(Then(before, e), id))
  {
    hide Keep, SweptLists, SweptUsers, Load, Run;
    match e
    case Loaded(saved, order) => LoadTimes(Run(before), saved, order, Address(""), id);
    case _ =>
  }

  // ---- who is found at an address ----

  /** Those of the ids that stay, in their order. */
  function Remaining(ids: seq<Id>, stays: Id -> bool): seq<Id> {
    if ids == [] then [] else (if stays(ids[0]) then [ids[0]] else []) + Remaining(ids[1..], stays)
  }

  predicate InTime(d: Option<Data>, ttl: int, at: int) {
    d.Some? ==> at - d.value.lastSeen <= ttl
  }

  /** Sessions in the order in which they came to the address. */
  function Roster(events: Events, ip: Address): seq<Id> {
    match events
    case NoEvents => []
    case Then(before, e) =>
      var r := Roster(before, ip);
      match e
      case Created(x, a, _) => if a == ip then r + [x] else r
      case Looked(x, a, other, _) =>
        if (x.text != "" && Story(before, x).Some?) || a != ip then r else r + [other]
      case Changed(_, _) => r
      case Deleted(x) => Remaining(r, id => id != x)
      case Swept(ttl, at) => Remaining(r, id => InTime(Story(before, id), ttl, at))
      case Loaded(saved, order) => Remaining(order, id => id in saved && saved[id].realIP == ip)
  }

  lemma {:induction false} RemainingAppend(ids: seq<Id>, last: Id, stays: Id -> bool)
    ensures Remaining(ids + [last], stays) == Remaining(ids, stays) + if stays(last) then [last] else []
  {
    if ids != [] {
      assert (ids + [last])[1..] == ids[1..] + [last];
      RemainingAppend(ids[1..], last, stays);
    } else {
      assert ([] + [last])[1..] == [];
    }
  }

  lemma {:induction false} KeepIs(ids: seq<Id>, gone: set<Id>, stays: Id -> bool)
    requires forall id :: id in ids ==> (stays(id) <==> id !in gone)
    ensures Keep(ids, gone) == Remaining(ids, stays)
  {
    if ids != [] {
      var before, last := ids[..|ids| - 1], ids[|ids| - 1];
      KeepIs(before, gone, stays);
      RemainingAppend(before, last, stays);
      assert ids == before + [last];
    }
  }

  lemma {:induction false} LiveIs(sessions: map<Id, Data>, ids: seq<Id>)
    requires forall id :: id in ids ==> id in sessions
    ensures Live(sessions, ids) == ids
  {
    if ids != [] {
      LiveIs(sessions, ids[..|ids| - 1]);
      assert ids == ids[..|ids| - 1] + [ids[|ids| - 1]];
    }
  }

  /** In an indexed store the lookup returns the list itself. */
  lemma LookupIsList(s: State, ip: Address)
    requires Indexed(s)
    ensures GetByIP(s, ip) == Listed(s, ip)
    ensures forall id :: id in Listed(s, ip) ==> id in s.sessions && s.sessions[id].realIP == ip
  {
    forall id | id in Listed(s, ip)
      ensures LivesAt(s, id, ip)
    {
      ListedLives(s, ip, id);
    }
    LiveIs(s.sessions, Listed(s, ip));
  }

  lemma SweepRoster(s: State, gone: set<Id>, ip: Address, stays: Id -> bool)
    requires Indexed(s) && UsersIndexed(s) && gone <= s.sessions.Keys
    requires forall id :: id in Listed(s, ip) ==> (stays(id) <==> id !in gone)
    ensures Listed(DeleteEach(s, gone), ip) == Remaining(Listed(s, ip), stays)
  {
    hide Indexed, UsersIndexed, SweptLists, SweptUsers, Keep;
    DeleteEachIsDeleteAll(s, gone);
    KeepIs(Listed(s, ip), gone, stays);
    assert Listed(s, ip) == [] ==> Remaining(Listed(s, ip), stays) == [];
  }

  lemma {:induction false} LoadRoster(data: map<Id, Data>, order: seq<Id>, ip: Address)
    requires forall id :: id in order ==> id in data
    ensures Listed(Load(EMPTY, data, order), ip) == Remaining(order, id => id in data && data[id].realIP == ip)
  {
    if order != [] {
      var before, last := order[..|order| - 1], order[|order| - 1];
      LoadRoster(data, before, ip);
      RemainingAppend(before, last, id => id in data && data[id].realIP == ip);
      assert order == before + [last];
    }
  }

  lemma DeleteRoster(s: State, x: Id, ip: Address)
    requires Indexed(s) && UsersIndexed(s)
    ensures Listed(Delete(s, x), ip) == Remaining(Listed(s, ip), id => id != x)
  {
    hide Indexed, UsersIndexed, Remaining, DeleteEach, Keep;
    LookupIsList(s, ip);
    if x in s.sessions {
      DeleteIsDeleteEach(s, x);
      SweepRoster(s, {x}, ip, id => id != x);
    } else {
      KeepIs(Listed(s, ip), {}, id => id != x);
      KeepNone(Listed(s, ip));
    }
  }

  lemma StepRoster(before: Events, e: Event, ip: Address)
    requires Possible(Then(before, e)) && AllAdmissible(Then(before, e))
    requires Indexed(Run(before)) && UsersIndexed(Run(before)) && Listed(Run(before), ip) == Roster(before, ip)
    ensures Listed(Run(Then(before, e)), ip) == Roster(Then(before, e), ip)
  {
    hide Indexed, UsersIndexed, Remaining, Delete, DeleteEach, Load, Story;
    var s := Run(before);
    LookupIsList(s, ip);
    match e
    case Looked(x, _, _, _) => {
      StoreFollowsStories(before, x);
    }
    case Deleted(x) => {
      DeleteRoster(s, x, ip);
    }
    case Swept(ttl, at) => {
      forall id | id in Listed(s, ip)
        ensures InTime(Story(before, id), ttl, at) <==> id !in Expired(s, ttl, at)
      {
        StoreFollowsStories(before, id);
      }
      SweepRoster(s, Expired(s, ttl, at), ip, id => InTime(Story(before, id), ttl, at));
    }
    case Loaded(saved, order) => {
      NoSessionsNoIndexes(s);
      LoadRoster(saved, order, ip);
    }
    case _ => {}
  }

  /** In every admissible run a lookup by address returns the sessions in the order in which they came there. */
  lemma {:induction false} LookupIsRoster(events: Events, ip: Address)
    requires Possible(events) && AllAdmissible(events)
    ensures GetByIP(Run(events), ip) == Roster(events, ip)
  {
    hide Indexed, UsersIndexed, GetByIP, Apply, LookupRight, Admissible;
    IndexesAgree(events);
    LookupIsList(Run(events), ip);
    if events.Then? {
      IndexesAgree(events.before);
      LookupIsRoster(events.before, ip);
      LookupIsList(Run(events.before), ip);
      StepRoster(events.before, events.last, ip);
    }
  }

  // ---- where a user's entry leads ----

  /** The last session of the user in the walk. */
  function LastOf(saved: map<Id, Data>, order: seq<Id>, u: User): Option<Id>
    requires forall id :: id in order ==> id in saved
  {
    if order == [] then None
    else if saved[order[|order| - 1]].user == u then Some(order[|order| - 1])
    else LastOf(saved, order[..|order| - 1], u)
  }

  /** Only loading makes an entry of a user; it stays until its session goes. */
  function EntryOf(events: Events, u: User): Option<Id>
    requires Possible(events)
  {
    match events
    case NoEvents => None
    case Then(before, e) =>
      var entry := EntryOf(before, u);
      match e
      case Deleted(x) => if entry == Some(x) then None else entry
      case Swept(ttl, at) => if entry.Some? && !InTime(Story(before, entry.value), ttl, at) then None else entry
      case Loaded(saved, order) => if u.Anonymous? then None else LastOf(saved, order, u)
      case _ => entry
  }

  predicate Leads(byUser: map<User, Id>, u: User, entry: Option<Id>) {
    entry == if u in byUser then Some(byUser[u]) else None
  }

  lemma {:induction false} LoadEntries(data: map<Id, Data>, order: seq<Id>, u: User)
    requires forall id :: id in order ==> id in data
    ensures Leads(Load(EMPTY, data, order).byUser, u, if u.Anonymous? then None else LastOf(data, order, u))
  {
    if order != [] {
      LoadEntries(data, order[..|order| - 1], u);
    }
  }

  lemma StepEntry(before: Events, e: Event, u: User)
    requires Possible(Then(before, e)) && AllAdmissible(Then(before, e))
    requires Indexed(Run(before)) && UsersIndexed(Run(before)) && Leads(Run(before).byUser, u, EntryOf(before, u))
    ensures Leads(Run(Then(before, e)).byUser, u, EntryOf(Then(before, e), u))
  {
    hide Indexed, Load, Story, Keep, SweptLists;
    var s := Run(before);
    match e
    case Swept(ttl, at) => {
      if u in s.byUser {
        StoreFollowsStories(before, s.byUser[u]);
      }
    }
    case Loaded(saved, order) => {
      NoSessionsNoIndexes(s);
      LoadEntries(saved, order, u);
    }
    case _ => {}
  }

  /** In every admissible run a user's entry leads to the last of its sessions that was loaded, as long as that
      has not gone. */
  lemma {:induction false} EntriesFollow(events: Events, u: User)
    requires Possible(events) && AllAdmissible(events)
    ensures Leads(Run(events).byUser, u, EntryOf(events, u))
  {
    hide Indexed, UsersIndexed, Apply, LookupRight, Admissible;
    if events.Then? {
      IndexesAgree(events.before);
      EntriesFollow(events.before, u);
      StepEntry(events.before, events.last, u);
    }
  }
}
