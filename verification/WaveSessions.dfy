/** The session object and NewProcessor's methods on it, updated in place. */
module WaveSessions {
  import opened Orders
  import opened Requests
  import opened UserData
  import W = Waves

  class Session {
    var state: int
    const own: int
    var gets: map<int, set<int>>
    var updates: map<int, seq<Update>>
    var data: map<int, Data>
    var timer: bool
    var released: bool
    var log: seq<Mark>
    ghost var called: seq<W.Callback>

    ghost function View(): W.Session
      reads this
    {
      W.Session(state, own, gets, updates, data, timer, released, log, called)
    }

    constructor (own: int)
      ensures View() == W.Session(0, own, map[], map[], map[], false, false, [], [])
    {
      this.own := own;
      state, gets, updates, data, timer, released, log, called := 0, map[], map[], map[], false, false, [], [];
    }

    method NewAddGetData(uid: int, key: int)
      modifies this`gets
      ensures gets == W.AddGet(old(gets), uid, key)
    {
      if uid !in gets {
        gets := gets[uid := {}];
      }
      gets := gets[uid := gets[uid] + {key}];
    }

    method NewAddUpdateData(uid: int, u: Update)
      modifies this`updates
      ensures updates == W.AddUpdate(old(updates), uid, u)
    {
      if uid !in updates {
        updates := updates[uid := []];
      }
      updates := updates[uid := updates[uid] + [u]];
    }

    /** The virtual call: the processor stages what it stages, one item at a time, and returns its verdict. */
    method Call(c: W.Callback, r: W.Reaction) returns (v: W.Verdict)
      modifies this`gets, this`updates, this`called
      ensures (View(), v) == W.Call(old(View()), c, r)
    {
      called := called + [c];
      var i := 0;
      while i < |r.gets|
        invariant 0 <= i <= |r.gets| && updates == old(updates) && called == old(called) + [c]
        invariant W.AddGets(gets, r.gets[i..]) == W.AddGets(old(gets), r.gets)
      {
        assert r.gets[i..][1..] == r.gets[i + 1..];
        NewAddGetData(r.gets[i].0, r.gets[i].1);
        i := i + 1;
      }
      var j := 0;
      while j < |r.updates|
        invariant 0 <= j <= |r.updates| && gets == W.AddGets(old(gets), r.gets) && called == old(called) + [c]
        invariant W.AddUpdates(updates, r.updates[j..]) == W.AddUpdates(old(updates), r.updates)
      {
        assert r.updates[j..][1..] == r.updates[j + 1..];
        NewAddUpdateData(r.updates[j].0, r.updates[j].1);
        j := j + 1;
      }
      return r.verdict;
    }

    /** SendRequestToUser: without a route nothing happens; otherwise one message, routed by the session's own user
        where the user is -1, and a (re)started timer. */
    method SendRequestToUser(m: Message, routes: nat)
      modifies this`log, this`timer
      ensures log == if routes == 0 then old(log) else old(log) + [Asked(m, Route(own, m.to))]
      ensures timer == (routes > 0 || old(timer))
    {
      if routes == 0 {
        return;
      }
      log := log + [Asked(m, if m.to != -1 then m.to else own)];
      timer := true;
    }

    /** The inner loop of OnGetData, over the keys of one user in order. */
    static method ListKeys(keys: set<int>) returns (list: seq<int>)
      ensures list == Ascending(keys)
    {
      list := [];
      var todo := keys;
      while todo != {}
        invariant todo <= keys && list + Ascending(todo) == Ascending(keys)
        decreases |todo|
      {
        LeastExists(todo);
        var key: int :| key in todo && forall y :: y in todo ==> key <= y;
        assert IsLeast(key, todo) && key == Least(todo);
        KeyNext(list, todo);
        list := list + [key];
        todo := todo - {key};
      }
      assert list + [] == list;
    }

    /** The sending loop of OnGetData, over the map in key order. */
    method SendGets(routes: nat, ghost mm: map<int, Message>)
      requires mm == Fetching(W.Listed(gets))
      modifies this`log, this`timer
      ensures log == AfterWave(old(log), own, mm, routes > 0) && timer == (old(timer) || (routes > 0 && mm != map[]))
    {
      var todo := gets.Keys;
      while todo != {}
        invariant todo <= gets.Keys
        invariant SentBut(log, old(log), own, mm, todo, routes > 0)
        invariant timer == ((routes > 0 && todo != gets.Keys) || old(timer))
        decreases |todo|
      {
        LeastExists(todo);
        var uid: int :| uid in todo && forall y :: y in todo ==> uid <= y;
        assert IsLeast(uid, todo) && uid == Least(todo);
        SentNext(log, old(log), own, mm, todo, routes > 0);
        var keys := ListKeys(gets[uid]);
        SendRequestToUser(GetRequest(uid, keys), routes);
        todo := todo - {uid};
      }
      SentAll(log, old(log), own, mm, routes > 0);
      NoKeys(mm);
    }

    method OnGetData(routes: nat) returns (v: W.Verdict)
      modifies this
      ensures (View(), v) == W.OnGetData(old(View()), routes)
    {
      if state != W.IDLE {
        return W.Done;
      }
      if |gets| == 0 {
        return W.Done;
      }
      ghost var mm := Fetching(W.Listed(gets));
      SendGets(routes, mm);
      assert View() == W.SendWave(old(View()), mm, routes);
      state := W.WAIT_GET;
      return W.Succ;
    }

    /** The sending loop of OnUpdateData, over the map in key order. */
    method SendUpdates(routes: nat, ghost mm: map<int, Message>)
      requires mm == Storing(updates)
      modifies this`log, this`timer
      ensures log == AfterWave(old(log), own, mm, routes > 0) && timer == (old(timer) || (routes > 0 && mm != map[]))
    {
      var todo := updates.Keys;
      while todo != {}
        invariant todo <= updates.Keys
        invariant SentBut(log, old(log), own, mm, todo, routes > 0)
        invariant timer == ((routes > 0 && todo != updates.Keys) || old(timer))
        decreases |todo|
      {
        LeastExists(todo);
        var uid: int :| uid in todo && forall y :: y in todo ==> uid <= y;
        assert IsLeast(uid, todo) && uid == Least(todo);
        SentNext(log, old(log), own, mm, todo, routes > 0);
        SendRequestToUser(UpdateRequest(uid, updates[uid]), routes);
        todo := todo - {uid};
      }
      SentAll(log, old(log), own, mm, routes > 0);
      NoKeys(mm);
    }

    method OnUpdateData(routes: nat) returns (v: W.Verdict)
      modifies this
      ensures (View(), v) == W.OnUpdateData(old(View()), routes)
    {
      if state != W.IDLE {
        return W.Done;
      }
      if |updates| == 0 {
        return W.Done;
      }
      ghost var mm := Storing(updates);
      SendUpdates(routes, mm);
      assert View() == W.SendWave(old(View()), mm, routes);
      state := W.WAIT_UPDATE;
      return W.Succ;
    }

    method Gathered(uid: int, d: Data)
      modifies this`data
      ensures data == old(data)[uid := Merge(Known(old(data), uid), d)]
    {
      if uid !in data {
        data := data[uid := EMPTY];
      }
      data := data[uid := Merge(data[uid], d)];
    }

    method OnGetResponse(e: W.Event, r: W.Reaction) returns (v: W.Verdict)
      modifies this
      ensures (View(), v) == W.OnGetResponse(old(View()), e, r)
    {
      if !e.GetResponse? {
        return W.Done;
      }
      if !e.ok {
        v := Call(W.OnGetFailed, r);
        return v;
      }
      Gathered(e.uid, e.data);
      gets := gets - {e.uid};
      assert View() == old(View()).(data := data, gets := gets);
      if |gets| != 0 {
        return W.Succ;
      }
      state := W.IDLE;
      v := Call(W.OnGetSucc, r);
    }

    method OnUpdateResponse(e: W.Event, r: W.Reaction) returns (v: W.Verdict)
      modifies this
      ensures (View(), v) == W.OnUpdateResponse(old(View()), e, r)
    {
      if !e.UpdateResponse? {
        return W.Done;
      }
      if !e.ok {
        v := Call(W.OnUpdateFailed, r);
        return v;
      }
      Gathered(e.uid, e.data);
      updates := updates - {e.uid};
      assert View() == old(View()).(data := data, updates := updates);
      if |updates| != 0 {
        return W.Succ;
      }
      state := W.IDLE;
      v := Call(W.OnUpdateSucc, r);
    }

    method EndProcess()
      modifies this`timer, this`released
      ensures View() == W.EndProcess(old(View()))
    {
      timer := false;
      released := true;
    }

    /** The first half of Process: the handler that this message and this state call for. */
    method React(e: W.Event, r: W.Reaction) returns (v: W.Verdict)
      modifies this
      ensures (View(), v) == W.React(old(View()), e, r)
    {
      v := W.Done;
      if e.Request? {
        state := W.IDLE;
        v := Call(W.OnRequest, r);
      } else if !e.Push? {
        if state == W.IDLE {
          v := Call(W.OnResponse, r);
        } else if state == W.WAIT_GET {
          v := OnGetResponse(e, r);
        } else if state == W.WAIT_UPDATE {
          v := OnUpdateResponse(e, r);
        }
      }
    }

    /** The dispatch loop runs at most twice. */
    method Process(e: W.Event, r: W.Reaction, routes: nat) returns (ghost turns: nat)
      modifies this
      ensures View() == W.Process(old(View()), e, r, routes)
      ensures turns <= 2
    {
      log := log + [W.MarkOf(e)];
      var v := React(e, r);
      ghost var s1, v1 := View(), v;
      turns := 0;
      while true
        invariant turns == 0 ==> View() == s1 && v == v1
        invariant turns == 1 ==> (v1 == W.Get || v1 == W.Save) && (View(), v) == W.Turn(s1, v1, routes)
        invariant turns <= 1
        decreases 2 - turns
      {
        turns := turns + 1;
        if v == W.Get {
          v := OnGetData(routes);
        } else if v == W.Save {
          v := OnUpdateData(routes);
        } else if v == W.Done {
          EndProcess();
          return;
        } else {
          return;
        }
      }
    }
  }

  lemma KeyNext(list: seq<int>, todo: set<int>)
    requires todo != {}
    ensures list + Ascending(todo) == list + [Least(todo)] + Ascending(todo - {Least(todo)})
  {
    var l := [Least(todo)];
    assert Ascending(todo) == l + Ascending(todo - {Least(todo)});
  }
}
