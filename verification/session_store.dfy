/** The session store object and its session objects. */
module SessionStore {
  import opened SessionIndex

  class Session {
    const id: Id
    var realIP: Address
    var user: User
    var lastSeen: int
    var requestCount: int
    var riskScore: real

    constructor (id: Id, data: Data)
      ensures this.id == id && View() == data
    {
      this.id := id;
      realIP, user, lastSeen, requestCount, riskScore :=
        data.realIP, data.user, data.lastSeen, data.requestCount, data.riskScore;
    }

    function View(): Data
      reads this
    {
      Data(realIP, user, lastSeen, requestCount, riskScore)
    }
  }

  class Store {
    var sessions: map<Id, Session>
    var byIP: map<Address, seq<Id>>
    var byUser: map<User, Id>
    const ttl: int

    constructor (ttl: int)
      ensures Valid() && View() == EMPTY && this.ttl == ttl && fresh(sessions.Values)
    {
      sessions, byIP, byUser, this.ttl := map[], map[], map[], ttl;
    }

    /** Each session object is kept under its own id. */
    ghost predicate Valid()
      reads this, sessions.Values
    {
      forall id :: id in sessions ==> sessions[id].id == id
    }

    ghost function View(): State
      reads this, sessions.Values
    {
      State(map id | id in sessions :: sessions[id].View(), byIP, byUser)
    }

    method Create(id: Id, ip: Address, now: int) returns (session: Session)
      requires Valid()
      modifies this`sessions, this`byIP
      ensures Valid() && fresh(session) && session.id == id
      ensures sessions == old(sessions)[id := session]
      ensures View() == SessionIndex.Create(old(View()), id, ip, now)
    {
      session := new Session(id, NewData(ip, now));
      sessions := sessions[id := session];
      byIP := byIP[ip := (if ip in byIP then byIP[ip] else []) + [id]];
    }

    /** A known id is touched; anything else gets a new session. */
    method GetOrCreate(id: Id, ip: Address, generated: Id, now: int) returns (session: Session)
      requires Valid()
      modifies this`sessions, this`byIP, sessions.Values
      ensures Valid() && View() == Apply(old(View()), Looked(id, ip, generated, now))
      ensures fresh(sessions.Values - old(sessions.Values))
      ensures session.id in sessions && sessions[session.id] == session
      ensures session.id == if Known(old(View()), id) then id else generated
    {
      if id.text != "" && id in sessions {
        session := sessions[id];
        session.lastSeen := now;
        session.requestCount := session.requestCount + 1;
        OthersUntouched(id);
        return session;
      }
      session := Create(generated, ip, now);
    }

    /** Only the object under `id` changed, so only its entry did. */
    twostate lemma OthersUntouched(id: Id)
      requires old(Valid()) && Valid() && sessions == old(sessions) && id in sessions
      requires forall other :: other in sessions && sessions[other] != sessions[id] ==> unchanged(sessions[other])
      ensures View().sessions == old(View()).sessions[id := sessions[id].View()]
    {
    }

    /** Applies a caller's change, which is not to change the id; then the session counts as seen. */
    method Update(id: Id, change: Data -> Data, now: int)
      requires Valid()
      modifies sessions.Values
      ensures Valid()
      ensures View() == if id !in old(sessions) then old(View())
                        else Apply(old(View()), Changed(id, change(old(View()).sessions[id]).(lastSeen := now)))
    {
      if id !in sessions {
        return;
      }
      var session := sessions[id];
      Assign(session, change(session.View()));
      session.lastSeen := now;
      OthersUntouched(id);
    }

    static method Assign(session: Session, data: Data)
      modifies session
      ensures session.View() == data
    {
      session.realIP := data.realIP;
      session.user := data.user;
      session.lastSeen := data.lastSeen;
      session.requestCount := data.requestCount;
      session.riskScore := data.riskScore;
    }

    /** The score is capped after adding. */
    method AddRiskScore(id: Id, score: real)
      requires Valid()
      modifies sessions.Values
      ensures Valid()
      ensures View() == if id !in old(sessions) then old(View())
                        else
                          var d := old(View()).sessions[id];
                          var sum := d.riskScore + score;
                          Put(old(View()), id, d.(riskScore := if sum > 100.0 then 100.0 else sum))
    {
      if id !in sessions {
        return;
      }
      var session := sessions[id];
      session.riskScore := session.riskScore + score;
      if session.riskScore > 100.0 {
        session.riskScore := 100.0;
      }
      OthersUntouched(id);
    }

    method Filter(ids: seq<Id>, id: Id) returns (filtered: seq<Id>)
      ensures filtered == Keep(ids, {id})
    {
      filtered := [];
      for k := 0 to |ids|
        invariant filtered == Keep(ids[..k], {id})
      {
        assert ids[..k + 1][..k] == ids[..k];
        if ids[k] != id {
          filtered := filtered + [ids[k]];
        }
      }
      assert ids[..|ids|] == ids;
    }

    method Delete(id: Id)
      requires Valid()
      modifies this`sessions, this`byIP, this`byUser
      ensures Valid() && View() == SessionIndex.Delete(old(View()), id)
      ensures sessions == old(sessions) - {id}
    {
      hide Keep;
      if id in sessions {
        Unlist(id, sessions[id]);
        sessions := sessions - {id};
      } else {
        assert sessions - {id} == sessions;
      }
    }

    /** Takes the session out of the list of its address, and its user's entry away if it leads here. */
    method Unlist(id: Id, session: Session)
      modifies this`byIP, this`byUser
      ensures byUser == if session.user in old(byUser) && old(byUser)[session.user] == id
                        then old(byUser) - {session.user} else old(byUser)
      ensures byIP == if session.realIP !in old(byIP) then old(byIP)
                      else
                        var kept := Keep(old(byIP)[session.realIP], {id});
                        if kept == [] then old(byIP) - {session.realIP} else old(byIP)[session.realIP := kept]
    {
      hide Keep;
      if session.user in byUser && byUser[session.user] == id {
        byUser := byUser - {session.user};
      }
      if session.realIP in byIP {
        var filtered := Filter(byIP[session.realIP], id);
        if |filtered| == 0 {
          byIP := byIP - {session.realIP};
        } else {
          byIP := byIP[session.realIP := filtered];
        }
      }
    }

    /** One tick of the cleanup. The sessions are walked in no particular order, whatever state the indexes
        are in. */
    method Cleanup(now: int)
      requires Valid()
      modifies this`sessions, this`byIP, this`byUser
      ensures Valid() && View() == DeleteEach(old(View()), Expired(old(View()), ttl, now))
    {
      hide DeleteEach;
      ghost var before := View();
      ghost var gone: set<Id> := {};
      var todo := sessions.Keys;
      DeleteNone(before);
      while todo != {}
        invariant Valid() && View() == DeleteEach(before, gone)
        invariant sessions == old(sessions) - gone
        invariant todo <= sessions.Keys
        invariant gone == set id | id in old(sessions) && id !in todo && now - old(sessions)[id].lastSeen > ttl
        decreases |todo|
      {
        var id :| id in todo;
        todo := todo - {id};
        if now - sessions[id].lastSeen > ttl {
          DeleteNext(id, before, gone);
          gone := gone + {id};
        }
      }
      assert gone == Expired(before, ttl, now);
    }

    /** One deletion of the walk, after those of `gone`. */
    method DeleteNext(id: Id, ghost before: State, ghost gone: set<Id>)
      requires Valid() && View() == DeleteEach(before, gone) && id in sessions
      modifies this`sessions, this`byIP, this`byUser
      ensures Valid() && View() == DeleteEach(before, gone + {id})
      ensures sessions == old(sessions) - {id}
    {
      hide SweptLists, SweptUsers, SessionIndex.Delete;
      assert id in View().sessions;
      DeleteOneMore(before, gone, id);
      Delete(id);
    }

    lemma DeleteNone(s: State)
      ensures DeleteEach(s, {}) == s
    {
      forall ip | ip in s.byIP
        ensures Keep(s.byIP[ip], {}) == s.byIP[ip] && GoneFrom(s, {}, ip) == {}
      {
        KeepNone(s.byIP[ip]);
      }
      assert s.sessions - {} == s.sessions;
    }

    method GetByIP(ip: Address) returns (result: seq<Session>)
      requires Valid()
      ensures |result| == |SessionIndex.GetByIP(View(), ip)|
      ensures forall k :: 0 <= k < |result| ==>
                result[k].id == SessionIndex.GetByIP(View(), ip)[k]
                && result[k].id in sessions && sessions[result[k].id] == result[k]
    {
      result := [];
      var ids := if ip in byIP then byIP[ip] else [];
      ghost var live := View().sessions;
      for k := 0 to |ids|
        invariant |result| == |Live(live, ids[..k])|
        invariant forall j :: 0 <= j < |result| ==>
                    result[j].id == Live(live, ids[..k])[j] && result[j].id in sessions
                    && sessions[result[j].id] == result[j]
      {
        assert ids[..k + 1][..k] == ids[..k];
        if ids[k] in sessions {
          result := result + [sessions[ids[k]]];
        }
      }
      assert ids[..|ids|] == ids;
    }

    /** What is written out: the sessions, without the indexes. */
    method Serialize() returns (data: map<Id, Data>)
      ensures data == View().sessions
    {
      data := map id | id in sessions :: sessions[id].View();
    }

    /** `order` is the order in which the loaded map happens to be walked. */
    method Deserialize(data: map<Id, Data>, order: seq<Id>)
      requires Walks(order, data)
      modifies this`sessions, this`byIP, this`byUser
      ensures Valid() && forall id :: id in sessions ==> fresh(sessions[id])
      ensures View() == Load(old(View()), data, order)
    {
      hide Load, Walks;
      ghost var start := View();
      sessions := Allocate(data);
      WalkStays(data, order);
      IndexSessions(start, data, order);
      LoadSessions(start, data, order);
      assert View().sessions == data;
    }

    lemma WalkStays(data: map<Id, Data>, order: seq<Id>)
      requires Walks(order, data)
      ensures forall id :: id in order ==> id in data
    {
    }

    /** Adds every session to the indexes that `start` had. */
    method IndexSessions(ghost start: State, data: map<Id, Data>, order: seq<Id>)
      requires byIP == start.byIP && byUser == start.byUser && forall id :: id in order ==> id in data
      requires sessions.Keys == data.Keys && forall id :: id in sessions ==> sessions[id].View() == data[id]
      modifies this`byIP, this`byUser
      ensures byIP == Load(start, data, order).byIP && byUser == Load(start, data, order).byUser
    {
      hide Load;
      LoadNone(start, data);
      for k := 0 to |order|
        invariant byIP == Load(start, data, order[..k]).byIP && byUser == Load(start, data, order[..k]).byUser
      {
        LoadStep(start, data, order, k);
        var id := order[k];
        assert id in sessions.Keys;
        var session := sessions[id];
        assert session.View() == data[id];
        byIP := byIP[session.realIP := (if session.realIP in byIP then byIP[session.realIP] else []) + [id]];
        if session.user != Anonymous {
          byUser := byUser[session.user := id];
        }
      }
      assert order[..|order|] == order;
    }

    lemma LoadNone(s: State, data: map<Id, Data>)
      ensures Load(s, data, []) == s.(sessions := data)
    {
    }

    lemma LoadStep(s: State, data: map<Id, Data>, order: seq<Id>, k: nat)
      requires k < |order| && forall id :: id in order ==> id in data
      ensures var before, after := Load(s, data, order[..k]), Load(s, data, order[..k + 1]);
              var id := order[k];
              var d := data[id];
              && after.byIP == Append(before, d.realIP, id).byIP
              && after.byUser == if d.user.Anonymous? then before.byUser else before.byUser[d.user := id]
    {
      assert order[..k + 1][..k] == order[..k];
    }

    lemma {:induction false} LoadSessions(s: State, data: map<Id, Data>, order: seq<Id>)
      requires forall x :: x in order ==> x in data
      ensures Load(s, data, order).sessions == data
    {
      if order != [] {
        LoadSessions(s, data, order[..|order| - 1]);
      }
    }

    static method Allocate(data: map<Id, Data>) returns (loaded: map<Id, Session>)
      ensures loaded.Keys == data.Keys && forall id :: id in loaded ==> fresh(loaded[id])
      ensures forall id :: id in loaded ==> loaded[id].id == id && loaded[id].View() == data[id]
    {
      loaded := map[];
      var todo := data.Keys;
      while todo != {}
        invariant loaded.Keys == data.Keys - todo && todo <= data.Keys
        invariant forall id :: id in loaded ==> fresh(loaded[id])
        invariant forall id :: id in loaded ==> loaded[id].id == id && loaded[id].View() == data[id]
        decreases |todo|
      {
        var id :| id in todo;
        todo := todo - {id};
        var session := new Session(id, data[id]);
        loaded := loaded[id := session];
      }
    }
  }
}
