/** The session store's maps, and what its operations do to the indexes. */
module SessionIndex {

  datatype Id = Id(text: string)
  datatype Address = Address(text: string)
  datatype User = Anonymous | User(name: string)

  datatype Data = Data(realIP: Address, user: User, lastSeen: int, requestCount: int, riskScore: real)

  datatype State = State(sessions: map<Id, Data>, byIP: map<Address, seq<Id>>, byUser: map<User, Id>)

  function Listed(s: State, ip: Address): seq<Id> {
    if ip in s.byIP then s.byIP[ip] else []
  }

  predicate LivesAt(s: State, id: Id, ip: Address) {
    id in s.sessions && s.sessions[id].realIP == ip
  }

  /** How often the address's list names the session. */
  function Times(s: State, ip: Address, id: Id): nat {
    multiset(Listed(s, ip))[id]
  }

  function Expected(s: State, ip: Address, id: Id): nat {
    if LivesAt(s, id, ip) then 1 else 0
  }

  /** Every live session is listed exactly once, under its own address and nowhere else; no dead session
      is listed, and no list is empty. */
  ghost predicate Indexed(s: State) {
    && (forall ip, id :: Times(s, ip, id) == Expected(s, ip, id))
    && NoEmptyList(s)
  }

  predicate NoEmptyList(s: State) {
    forall ip :: ip in s.byIP ==> s.byIP[ip] != []
  }

  /** A user's entry leads to a live session of that user. */
  ghost predicate UsersIndexed(s: State) {
    forall u :: u in s.byUser ==> s.byUser[u] in s.sessions && s.sessions[s.byUser[u]].user == u
  }

  // ---- operations ----

  function NewData(ip: Address, now: int): Data {
    Data(ip, Anonymous, now, 0, 0.0)
  }

  function Append(s: State, ip: Address, id: Id): State {
    s.(byIP := s.byIP[ip := Listed(s, ip) + [id]])
  }

  function Create(s: State, id: Id, ip: Address, now: int): State {
    Append(s.(sessions := s.sessions[id := NewData(ip, now)]), ip, id)
  }

  function Touched(d: Data, now: int): Data {
    d.(lastSeen := now, requestCount := d.requestCount + 1)
  }

  /** A change of one session's fields. */
  function Put(s: State, id: Id, d: Data): State {
    s.(sessions := s.sessions[id := d])
  }

  function Keep(ids: seq<Id>, gone: set<Id>): seq<Id> {
    if ids == [] then []
    else Keep(ids[..|ids| - 1], gone) + (if ids[|ids| - 1] in gone then [] else [ids[|ids| - 1]])
  }

  function Delete(s: State, id: Id): State {
    if id !in s.sessions then s
    else
      var d := s.sessions[id];
      State(s.sessions - {id},
            if d.realIP !in s.byIP then s.byIP
            else
              var filtered := Keep(s.byIP[d.realIP], {id});
              if filtered == [] then s.byIP - {d.realIP} else s.byIP[d.realIP := filtered],
            if d.user in s.byUser && s.byUser[d.user] == id then s.byUser - {d.user} else s.byUser)
  }

  function KeepLists(byIP: map<Address, seq<Id>>, gone: set<Id>): map<Address, seq<Id>> {
    map ip | ip in byIP && Keep(byIP[ip], gone) != [] :: Keep(byIP[ip], gone)
  }

  function KeepUsers(byUser: map<User, Id>, gone: set<Id>): map<User, Id> {
    map u | u in byUser && byUser[u] !in gone :: byUser[u]
  }

  /** The deleted sessions that live at the address. */
  function GoneFrom(s: State, gone: set<Id>, ip: Address): set<Id> {
    set id | id in gone && LivesAt(s, id, ip)
  }

  /** Deletion touches the lists at which a deleted session lives, and drops those that it empties. */
  function SweptLists(s: State, gone: set<Id>): map<Address, seq<Id>> {
    map ip | ip in s.byIP && (GoneFrom(s, gone, ip) == {} || Keep(s.byIP[ip], GoneFrom(s, gone, ip)) != [])
      :: Keep(s.byIP[ip], GoneFrom(s, gone, ip))
  }

  /** It drops the entries of deleted sessions' own users. */
  function SweptUsers(s: State, gone: set<Id>): map<User, Id> {
    map u | u in s.byUser && !(s.byUser[u] in gone && s.byUser[u] in s.sessions && s.sessions[s.byUser[u]].user == u)
      :: s.byUser[u]
  }

  /** Each of `gone` deleted by its own address and user, in whatever order. */
  function DeleteEach(s: State, gone: set<Id>): State {
    State(s.sessions - gone, SweptLists(s, gone), SweptUsers(s, gone))
  }

  /** All of `gone` deleted, wherever they are listed. */
  function DeleteAll(s: State, gone: set<Id>): State {
    State(s.sessions - gone,
          KeepLists(s.byIP, gone),
          KeepUsers(s.byUser, gone))
  }

  function Expired(s: State, ttl: int, now: int): set<Id> {
    set id | id in s.sessions && now - s.sessions[id].lastSeen > ttl
  }

  /** The loaded sessions replace the old ones; the indexes are only added to, in the order in which the
      map happens to be walked. */
  function Load(s: State, data: map<Id, Data>, order: seq<Id>): State
    requires forall id :: id in order ==> id in data
  {
    if order == [] then s.(sessions := data)
    else
      var id := order[|order| - 1];
      var added := Append(Load(s, data, order[..|order| - 1]), data[id].realIP, id);
      if data[id].user.Anonymous? then added else added.(byUser := added.byUser[data[id].user := id])
  }

  // ---- looking up by address ----

  function Live(sessions: map<Id, Data>, ids: seq<Id>): seq<Id> {
    if ids == [] then []
    else Live(sessions, ids[..|ids| - 1]) + (if ids[|ids| - 1] in sessions then [ids[|ids| - 1]] else [])
  }

  function GetByIP(s: State, ip: Address): seq<Id> {
    Live(s.sessions, Listed(s, ip))
  }

  function TimesFound(s: State, ip: Address, id: Id): nat {
    multiset(GetByIP(s, ip))[id]
  }

  /** The lookup returns each live session of the address exactly once, and nothing else. */
  ghost predicate LookupRight(s: State) {
    forall ip, id :: TimesFound(s, ip, id) == Expected(s, ip, id)
  }

  lemma Split(ids: seq<Id>)
    requires ids != []
    ensures multiset(ids) == multiset(ids[..|ids| - 1]) + multiset{ids[|ids| - 1]}
  {
    assert ids == ids[..|ids| - 1] + [ids[|ids| - 1]];
  }

  lemma {:induction false} LiveCounts(sessions: map<Id, Data>, ids: seq<Id>, id: Id)
    ensures multiset(Live(sessions, ids))[id] == if id in sessions then multiset(ids)[id] else 0
  {
    if ids != [] {
      LiveCounts(sessions, ids[..|ids| - 1], id);
      Split(ids);
    }
  }

  lemma {:induction false} KeepCounts(ids: seq<Id>, gone: set<Id>, id: Id)
    ensures multiset(Keep(ids, gone))[id] == if id in gone then 0 else multiset(ids)[id]
  {
    if ids != [] {
      KeepCounts(ids[..|ids| - 1], gone, id);
      Split(ids);
    }
  }

  lemma FoundTimes(s: State, ip: Address, id: Id)
    ensures TimesFound(s, ip, id) == if id in s.sessions then Times(s, ip, id) else 0
  {
    LiveCounts(s.sessions, Listed(s, ip), id);
  }

  lemma IndexedLooksUp(s: State)
    requires Indexed(s)
    ensures LookupRight(s)
  {
    hide Times, TimesFound;
    forall ip, id
      ensures TimesFound(s, ip, id) == Expected(s, ip, id)
    {
      FoundTimes(s, ip, id);
    }
  }

  // ---- what keeps the index ----

  lemma AppendTimes(s: State, ip: Address, id: Id, ip': Address, id': Id)
    ensures Times(Append(s, ip, id), ip', id') == Times(s, ip', id') + if ip' == ip && id' == id then 1 else 0
  {
  }

  /** Creating keeps the index if and only if the generated id is not in use. */
  lemma CreateKeepsIndexExactlyWhen(s: State, id: Id, ip: Address, now: int)
    requires Indexed(s)
    ensures Indexed(Create(s, id, ip, now)) <==> id !in s.sessions
  {
    hide Times;
    var after := Create(s, id, ip, now);
    forall ip', id'
      ensures Times(after, ip', id') == Times(s, ip', id') + if ip' == ip && id' == id then 1 else 0
    {
      TimesIgnoresSessions(s, after.sessions, ip', id');
      AppendTimes(s.(sessions := after.sessions), ip, id, ip', id');
    }
    if id in s.sessions {
      var was := s.sessions[id].realIP;
      assert Times(s, was, id) == Expected(s, was, id) == 1;
      assert Times(after, was, id) != Expected(after, was, id);
    }
  }

  lemma TimesIgnoresSessions(s: State, sessions: map<Id, Data>, ip: Address, id: Id)
    ensures Times(s.(sessions := sessions), ip, id) == Times(s, ip, id)
  {
  }

  /** Changing a session's fields keeps the index if and only if its address stays. */
  lemma PutKeepsIndexExactlyWhen(s: State, id: Id, d: Data)
    requires Indexed(s) && id in s.sessions
    ensures Indexed(Put(s, id, d)) <==> d.realIP == s.sessions[id].realIP
  {
    hide Times;
    var after := Put(s, id, d);
    forall ip', id'
      ensures Times(after, ip', id') == Times(s, ip', id')
    {
      TimesIgnoresSessions(s, after.sessions, ip', id');
    }
    if d.realIP != s.sessions[id].realIP {
      assert Times(s, d.realIP, id) == Expected(s, d.realIP, id) == 0;
      assert Expected(after, d.realIP, id) == 1;
    }
  }

  /** And it keeps the lookups right under the same condition: with another address the session is not found
      at the new one. */
  lemma PutKeepsLookupExactlyWhen(s: State, id: Id, d: Data)
    requires Indexed(s) && id in s.sessions
    ensures LookupRight(Put(s, id, d)) <==> d.realIP == s.sessions[id].realIP
  {
    hide Times, TimesFound;
    var after := Put(s, id, d);
    if d.realIP == s.sessions[id].realIP {
      PutKeepsIndexExactlyWhen(s, id, d);
      IndexedLooksUp(after);
    } else {
      FoundTimes(after, d.realIP, id);
      TimesIgnoresSessions(s, after.sessions, d.realIP, id);
      assert Times(s, d.realIP, id) == Expected(s, d.realIP, id) == 0;
      assert TimesFound(after, d.realIP, id) != Expected(after, d.realIP, id);
    }
  }

  /** Changing a session's fields keeps the users' entries if and only if its user stays or that user's
      entry leads elsewhere. */
  lemma PutKeepsUsersExactlyWhen(s: State, id: Id, d: Data)
    requires UsersIndexed(s) && id in s.sessions
    ensures UsersIndexed(Put(s, id, d)) <==> !LosesUser(s, id, d)
  {
    var after, was := Put(s, id, d), s.sessions[id].user;
    if LosesUser(s, id, d) {
      assert after.byUser[was] == id;
    }
  }

  /** The session's user has an entry that leads to it, and changes. */
  predicate LosesUser(s: State, id: Id, d: Data)
    requires id in s.sessions
  {
    var was := s.sessions[id].user;
    d.user != was && was in s.byUser && s.byUser[was] == id
  }

  lemma DeleteAllTimes(s: State, gone: set<Id>, ip: Address, id: Id)
    ensures Times(DeleteAll(s, gone), ip, id) == if id in gone then 0 else Times(s, ip, id)
  {
    KeepCounts(Listed(s, ip), gone, id);
    var kept := Keep(Listed(s, ip), gone);
    assert Listed(DeleteAll(s, gone), ip) == kept;
  }

  /** Deleting any sessions keeps the index: no dead session stays listed, and no empty list stays. */
  lemma DeleteAllKeepsIndex(s: State, gone: set<Id>)
    requires Indexed(s)
    ensures Indexed(DeleteAll(s, gone))
    ensures UsersIndexed(s) ==> UsersIndexed(DeleteAll(s, gone))
  {
    hide Times, Keep;
    var after := DeleteAll(s, gone);
    forall ip, id
      ensures Times(after, ip, id) == Expected(after, ip, id)
    {
      DeleteAllTimes(s, gone, ip, id);
      assert Times(s, ip, id) == Expected(s, ip, id);
    }
  }

  lemma {:induction false} KeepAll(ids: seq<Id>, gone: set<Id>)
    requires forall id :: id in ids ==> id !in gone
    ensures Keep(ids, gone) == ids
  {
    if ids != [] {
      KeepAll(ids[..|ids| - 1], gone);
      assert ids == ids[..|ids| - 1] + [ids[|ids| - 1]];
    }
  }

  lemma KeepStep(ids: seq<Id>, last: Id, gone: set<Id>)
    ensures Keep(ids + [last], gone) == if last in gone then Keep(ids, gone) else Keep(ids, gone) + [last]
  {
    assert (ids + [last])[..|ids|] == ids;
  }

  lemma {:induction false} KeepTwice(ids: seq<Id>, a: set<Id>, b: set<Id>)
    ensures Keep(Keep(ids, a), b) == Keep(ids, a + b)
  {
    if ids != [] {
      var before, last := ids[..|ids| - 1], ids[|ids| - 1];
      assert ids == before + [last];
      KeepTwice(before, a, b);
      KeepStep(before, last, a);
      KeepStep(before, last, a + b);
      KeepStep(Keep(before, a), last, b);
    }
  }

  lemma {:induction false} KeepNone(ids: seq<Id>)
    ensures Keep(ids, {}) == ids
  {
    KeepAll(ids, {});
  }

  /** A deletion is the deletion of one. */
  lemma DeleteIsDeleteEach(s: State, id: Id)
    requires id in s.sessions
    ensures Delete(s, id) == DeleteEach(s, {id})
  {
    hide Keep;
    var ip := s.sessions[id].realIP;
    forall other | other in s.byIP
      ensures GoneFrom(s, {id}, other) == if other == ip then {id} else {}
      ensures Keep(s.byIP[other], {}) == s.byIP[other]
    {
      KeepNone(s.byIP[other]);
    }
    assert Delete(s, id).byIP == SweptLists(s, {id});
    assert Delete(s, id).byUser == SweptUsers(s, {id});
  }

  /** One deletion after others, in any state of the indexes, is one more of them. */
  lemma DeleteOneMore(s: State, gone: set<Id>, id: Id)
    requires id in s.sessions && id !in gone
    ensures Delete(DeleteEach(s, gone), id) == DeleteEach(s, gone + {id})
  {
    hide SweptLists, SweptUsers, Keep, GoneFrom;
    var before := DeleteEach(s, gone);
    DeleteIsDeleteEach(before, id);
    OneMoreList(s, gone, id);
    OneMoreUser(s, gone, id);
    assert s.sessions - gone - {id} == s.sessions - (gone + {id});
  }

  lemma OneMoreUser(s: State, gone: set<Id>, id: Id)
    requires id in s.sessions && id !in gone
    ensures SweptUsers(DeleteEach(s, gone), {id}) == SweptUsers(s, gone + {id})
  {
  }

  lemma OneMoreList(s: State, gone: set<Id>, id: Id)
    requires id in s.sessions && id !in gone
    ensures SweptLists(DeleteEach(s, gone), {id}) == SweptLists(s, gone + {id})
  {
    hide Keep, SweptUsers, GoneFrom;
    var before := DeleteEach(s, gone);
    forall ip | ip in s.byIP
      ensures ip in SweptLists(before, {id}) <==> ip in SweptLists(s, gone + {id})
      ensures ip in SweptLists(before, {id}) ==> SweptLists(before, {id})[ip] == SweptLists(s, gone + {id})[ip]
    {
      OneMoreAt(s, gone, id, ip);
    }
  }

  lemma OneMoreAt(s: State, gone: set<Id>, id: Id, ip: Address)
    requires id in s.sessions && id !in gone && ip in s.byIP
    ensures var before := DeleteEach(s, gone);
            && (ip in SweptLists(before, {id}) <==> ip in SweptLists(s, gone + {id}))
            && (ip in SweptLists(before, {id}) ==> SweptLists(before, {id})[ip] == SweptLists(s, gone + {id})[ip])
  {
    hide Keep, SweptUsers;
    var before := DeleteEach(s, gone);
    var earlier, last := GoneFrom(s, gone, ip), GoneFrom(before, {id}, ip);
    assert GoneFrom(s, gone + {id}, ip) == earlier + last;
    hide GoneFrom;
    KeepTwice(s.byIP[ip], earlier, last);
    KeepNone(s.byIP[ip]);
    KeepNone(Keep(s.byIP[ip], earlier));
    KeepNothing(last);
  }

  /** In an indexed store it is as good as searching every list and every user. */
  lemma DeleteEachIsDeleteAll(s: State, gone: set<Id>)
    requires Indexed(s) && UsersIndexed(s) && gone <= s.sessions.Keys
    ensures DeleteEach(s, gone) == DeleteAll(s, gone)
  {
    hide Times, Keep, GoneFrom;
    forall ip | ip in s.byIP
      ensures Keep(s.byIP[ip], GoneFrom(s, gone, ip)) == Keep(s.byIP[ip], gone)
      ensures GoneFrom(s, gone, ip) == {} ==> Keep(s.byIP[ip], gone) != []
    {
      SameKeep(s, gone, ip);
    }
    assert SweptLists(s, gone) == KeepLists(s.byIP, gone);
    assert SweptUsers(s, gone) == KeepUsers(s.byUser, gone);
  }

  lemma SameKeep(s: State, gone: set<Id>, ip: Address)
    requires Indexed(s) && gone <= s.sessions.Keys && ip in s.byIP
    ensures Keep(s.byIP[ip], GoneFrom(s, gone, ip)) == Keep(s.byIP[ip], gone)
    ensures GoneFrom(s, gone, ip) == {} ==> Keep(s.byIP[ip], gone) != []
  {
    hide Times, Keep;
    var here := GoneFrom(s, gone, ip);
    forall id | id in s.byIP[ip]
      ensures id in gone <==> id in here
    {
      ListedLives(s, ip, id);
    }
    KeepSame(s.byIP[ip], here, gone);
    KeepNone(s.byIP[ip]);
  }

  lemma ListedLives(s: State, ip: Address, id: Id)
    requires Indexed(s) && ip in s.byIP && id in s.byIP[ip]
    ensures LivesAt(s, id, ip)
  {
    assert id in multiset(s.byIP[ip]) && Times(s, ip, id) == Expected(s, ip, id);
  }

  lemma {:induction false} KeepSame(ids: seq<Id>, a: set<Id>, b: set<Id>)
    requires forall id :: id in ids ==> (id in a <==> id in b)
    ensures Keep(ids, a) == Keep(ids, b)
  {
    if ids != [] {
      KeepSame(ids[..|ids| - 1], a, b);
    }
  }

  lemma KeepNothing(gone: set<Id>)
    ensures Keep([], gone) == []
  {
  }

  // ---- saving and loading ----

  lemma {:induction false} LoadTimes(s: State, data: map<Id, Data>, order: seq<Id>, ip: Address, id: Id)
    requires forall x :: x in order ==> x in data
    ensures Load(s, data, order).sessions == data
    ensures Times(Load(s, data, order), ip, id) == Times(s, ip, id) +
            if id in data && data[id].realIP == ip then multiset(order)[id] else 0
  {
    hide Times;
    if order == [] {
      TimesIgnoresSessions(s, data, ip, id);
    } else {
      var before, last := order[..|order| - 1], order[|order| - 1];
      LoadTimes(s, data, before, ip, id);
      Split(order);
      AppendTimes(Load(s, data, before), data[last].realIP, last, ip, id);
      var added := Append(Load(s, data, before), data[last].realIP, last);
      TimesIgnoresUsers(added, Load(s, data, order).byUser, ip, id);
    }
  }

  lemma TimesIgnoresUsers(s: State, byUser: map<User, Id>, ip: Address, id: Id)
    ensures Times(s.(byUser := byUser), ip, id) == Times(s, ip, id)
  {
  }

  /** A walk over all keys of the map, each once. */
  predicate Walks(order: seq<Id>, data: map<Id, Data>) {
    && (forall id :: id in order ==> id in data)
    && (forall id :: id in data ==> multiset(order)[id] == 1)
  }

  const EMPTY := State(map[], map[], map[])

  lemma {:induction false} LoadListsNotEmpty(s: State, data: map<Id, Data>, order: seq<Id>)
    requires NoEmptyList(s) && forall x :: x in order ==> x in data
    ensures NoEmptyList(Load(s, data, order))
  {
    if order != [] {
      LoadListsNotEmpty(s, data, order[..|order| - 1]);
    }
  }

  lemma NothingListed(ip: Address, id: Id)
    ensures Times(EMPTY, ip, id) == 0
  {
  }

  lemma FreshLoadIsIndexed(data: map<Id, Data>, order: seq<Id>)
    requires Walks(order, data)
    ensures Load(EMPTY, data, order).sessions == data && Indexed(Load(EMPTY, data, order))
  {
    hide Times, Load;
    var loaded := Load(EMPTY, data, order);
    forall ip, id
      ensures Times(loaded, ip, id) == Expected(loaded, ip, id)
    {
      LoadTimes(EMPTY, data, order, ip, id);
      NothingListed(ip, id);
    }
    LoadTimes(EMPTY, data, order, Address(""), Id(""));
    LoadListsNotEmpty(EMPTY, data, order);
  }

  /** Two stores with the same sessions and right lookups find the same sessions. */
  lemma SameLookup(a: State, b: State, ip: Address)
    requires a.sessions == b.sessions && LookupRight(a) && LookupRight(b)
    ensures multiset(GetByIP(a, ip)) == multiset(GetByIP(b, ip))
  {
    hide GetByIP;
    forall id
      ensures multiset(GetByIP(a, ip))[id] == multiset(GetByIP(b, ip))[id]
    {
      assert TimesFound(a, ip, id) == TimesFound(b, ip, id);
    }
  }

  /** Loading what was saved into a fresh store gives the same sessions and, for every address, the same
      sessions on lookup, whatever the order of the walk; and every named user of a session has an entry. */
  lemma LoadRestores(saved: State, order: seq<Id>)
    requires Indexed(saved) && Walks(order, saved.sessions)
    ensures var loaded := Load(EMPTY, saved.sessions, order);
            && loaded.sessions == saved.sessions && Indexed(loaded) && UsersIndexed(loaded)
            && (forall ip :: multiset(GetByIP(loaded, ip)) == multiset(GetByIP(saved, ip)))
            && (forall id :: id in order && !saved.sessions[id].user.Anonymous? ==>
                  saved.sessions[id].user in loaded.byUser)
  {
    hide Indexed, LookupRight, GetByIP, Load;
    var loaded := Load(EMPTY, saved.sessions, order);
    FreshLoadIsIndexed(saved.sessions, order);
    FreshLoadIndexesUsers(saved.sessions, order);
    IndexedLooksUp(saved);
    IndexedLooksUp(loaded);
    forall ip
      ensures multiset(GetByIP(loaded, ip)) == multiset(GetByIP(saved, ip))
    {
      SameLookup(loaded, saved, ip);
    }
  }

  lemma {:induction false} FreshLoadIndexesUsers(data: map<Id, Data>, order: seq<Id>)
    requires forall x :: x in order ==> x in data
    ensures var byUser := Load(EMPTY, data, order).byUser;
            && Load(EMPTY, data, order).sessions == data
            && (forall u :: u in byUser ==> byUser[u] in data && data[byUser[u]].user == u)
            && (forall id :: id in order && !data[id].user.Anonymous? ==> data[id].user in byUser)
  {
    if order != [] {
      FreshLoadIndexesUsers(data, order[..|order| - 1]);
    }
  }

  /** Loading into any store answers every lookup rightly if and only if no id that the old index still
      lists is among the loaded sessions. */
  lemma LoadLooksUpExactlyWhen(s: State, data: map<Id, Data>, order: seq<Id>)
    requires Walks(order, data)
    ensures LookupRight(Load(s, data, order)) <==> forall ip, id :: id in data ==> Times(s, ip, id) == 0
  {
    hide Times, Load, TimesFound;
    var loaded := Load(s, data, order);
    forall ip, id
      ensures loaded.sessions == data
      ensures TimesFound(loaded, ip, id) ==
              Expected(loaded, ip, id) + if id in data then Times(s, ip, id) else 0
    {
      LoadTimes(s, data, order, ip, id);
      FoundTimes(loaded, ip, id);
    }
  }

  /** Indexes that agree with no sessions at all are empty. */
  lemma NoSessionsNoIndexes(s: State)
    requires Indexed(s) && UsersIndexed(s) && s.sessions == map[]
    ensures s == EMPTY
  {
    ListedAreLive(s);
  }

  lemma ListedAreLive(s: State)
    requires Indexed(s)
    ensures forall ip :: ip in s.byIP ==> s.byIP[ip] != [] && s.byIP[ip][0] in s.sessions
  {
    forall ip | ip in s.byIP
      ensures s.byIP[ip] != [] && s.byIP[ip][0] in s.sessions
    {
      var id := s.byIP[ip][0];
      assert id in multiset(s.byIP[ip]) && Times(s, ip, id) == Expected(s, ip, id);
    }
  }

  /** Loading keeps the indexes if and only if the store held no sessions before. */
  lemma LoadKeepsIndexExactlyWhen(s: State, data: map<Id, Data>, order: seq<Id>)
    requires Indexed(s) && UsersIndexed(s) && Walks(order, data)
    ensures Indexed(Load(s, data, order)) && UsersIndexed(Load(s, data, order)) <==> s.sessions == map[]
  {
    hide Times, Load;
    if s.sessions == map[] {
      NoSessionsNoIndexes(s);
      FreshLoadIsIndexed(data, order);
      FreshLoadIndexesUsers(data, order);
    } else {
      var id :| id in s.sessions;
      var ip := s.sessions[id].realIP;
      LoadTimes(s, data, order, ip, id);
      assert Times(s, ip, id) == Expected(s, ip, id) == 1;
      assert Times(Load(s, data, order), ip, id) != Expected(Load(s, data, order), ip, id);
    }
  }

  /** Loading a store's own save into itself finds every session twice. */
  lemma ReloadFindsTwice(s: State, order: seq<Id>, id: Id)
    requires Indexed(s) && Walks(order, s.sessions) && id in s.sessions
    ensures TimesFound(Load(s, s.sessions, order), s.sessions[id].realIP, id) == 2
    ensures !LookupRight(Load(s, s.sessions, order))
  {
    hide Times, Load, TimesFound;
    var ip, loaded := s.sessions[id].realIP, Load(s, s.sessions, order);
    LoadTimes(s, s.sessions, order, ip, id);
    FoundTimes(loaded, ip, id);
    assert Times(s, ip, id) == Expected(s, ip, id);
    assert TimesFound(loaded, ip, id) != Expected(loaded, ip, id);
  }

  // ---- runs ----

  datatype Event =
    | Created(id: Id, ip: Address, at: int)
    | Looked(id: Id, ip: Address, other: Id, at: int)  // get the session of that id, or create another
    | Changed(id: Id, data: Data)
    | Deleted(id: Id)
    | Swept(ttl: int, at: int)
    | Loaded(saved: map<Id, Data>, order: seq<Id>)

  datatype Events = NoEvents | Then(before: Events, last: Event)

  /** An empty id never finds a session. */
  predicate Known(s: State, id: Id) {
    id.text != "" && id in s.sessions
  }

  function Apply(s: State, e: Event): State
    requires e.Loaded? ==> Walks(e.order, e.saved)
  {
    match e
    case Created(id, ip, now) => Create(s, id, ip, now)
    case Looked(id, ip, other, now) =>
      if Known(s, id) then Put(s, id, Touched(s.sessions[id], now)) else Create(s, other, ip, now)
    case Changed(id, d) => if id in s.sessions then Put(s, id, d) else s
    case Deleted(id) => Delete(s, id)
    case Swept(ttl, now) => DeleteEach(s, Expired(s, ttl, now))
    case Loaded(data, order) => Load(s, data, order)
  }

  /** Generated ids are not in use, no caller changes a session's address or takes a session away from a
      user whose entry leads to it, and loading happens only while there are no sessions. */
  predicate Admissible(s: State, e: Event) {
    match e
    case Created(id, _, _) => id !in s.sessions
    case Looked(id, _, other, _) => Known(s, id) || other !in s.sessions
    case Changed(id, d) => id in s.sessions ==> d.realIP == s.sessions[id].realIP && !LosesUser(s, id, d)
    case Loaded(data, order) => Walks(order, data) && s.sessions == map[]
    case _ => true
  }

  predicate Possible(events: Events) {
    match events
    case NoEvents => true
    case Then(before, e) => Possible(before) && (e.Loaded? ==> Walks(e.order, e.saved))
  }

  function Run(events: Events): State
    requires Possible(events)
  {
    match events
    case NoEvents => EMPTY
    case Then(before, e) => Apply(Run(before), e)
  }

  predicate AllAdmissible(events: Events)
    requires Possible(events)
  {
    match events
    case NoEvents => true
    case Then(before, e) => AllAdmissible(before) && Admissible(Run(before), e)
  }

  lemma StepKeepsIndexes(s: State, e: Event)
    requires Indexed(s) && UsersIndexed(s) && Admissible(s, e) && (e.Loaded? ==> Walks(e.order, e.saved))
    ensures Indexed(Apply(s, e)) && UsersIndexed(Apply(s, e))
  {
    hide Indexed, Times, Listed, Keep, KeepLists, KeepUsers, SweptLists, SweptUsers;
    match e
    case Created(id, ip, now) => {
      CreateKeepsIndexExactlyWhen(s, id, ip, now);
    }
    case Looked(id, ip, other, now) => {
      if Known(s, id) {
        PutKeepsIndexExactlyWhen(s, id, Touched(s.sessions[id], now));
        PutKeepsUsersExactlyWhen(s, id, Touched(s.sessions[id], now));
      } else {
        CreateKeepsIndexExactlyWhen(s, other, ip, now);
      }
    }
    case Changed(id, d) => {
      if id in s.sessions {
        PutKeepsIndexExactlyWhen(s, id, d);
        PutKeepsUsersExactlyWhen(s, id, d);
      }
    }
    case Deleted(id) => {
      if id in s.sessions {
        DeleteIsDeleteEach(s, id);
        DeleteEachIsDeleteAll(s, {id});
        DeleteAllKeepsIndex(s, {id});
      }
    }
    case Swept(ttl, now) => {
      DeleteEachIsDeleteAll(s, Expired(s, ttl, now));
      DeleteAllKeepsIndex(s, Expired(s, ttl, now));
    }
    case Loaded(data, order) => {
      LoadKeepsIndexExactlyWhen(s, data, order);
    }
  }

  /** After any run of the operations, a lookup by address returns each live session with that address
      exactly once, no list is empty, and every user's entry leads to a live session of that user. */
  lemma {:induction false} IndexesAgree(events: Events)
    requires Possible(events) && AllAdmissible(events)
    ensures Indexed(Run(events)) && UsersIndexed(Run(events)) && LookupRight(Run(events))
  {
    hide Apply, Admissible, Expected, LookupRight;
    if events.NoEvents? {
      EmptyIsIndexed();
    } else {
      IndexesAgree(events.before);
      StepKeepsIndexes(Run(events.before), events.last);
    }
    IndexedLooksUp(Run(events));
  }

  lemma EmptyIsIndexed()
    ensures Indexed(EMPTY) && UsersIndexed(EMPTY)
  {
    forall ip, id
      ensures Times(EMPTY, ip, id) == Expected(EMPTY, ip, id)
    {
      NothingListed(ip, id);
    }
  }
}
