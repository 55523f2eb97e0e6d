/** The older session object and ProcesserBasic's methods on it, updated in place. */
module FlagSessions {
  import opened Orders
  import opened Requests
  import opened UserData
  import F = Flags

  class Session {
    var state: int
    const own: int
    var flags: map<int, bool>
    var data: map<int, Data>
    var queries: map<int, seq<int>>
    var updates: map<int, seq<Update>>
    var timer: bool
    var released: bool
    var log: seq<Mark>
    ghost var called: seq<F.Callback>

    ghost function View(): F.Session
      reads this
    {
      F.Session(state, own, flags, data, queries, updates, timer, released, log, called)
    }

    constructor (own: int)
      ensures View() == F.Session(F.IDLE, own, map[], map[], map[], map[], false, false, [], [])
    {
      this.own := own;
      state, flags, data, queries, updates := F.IDLE, map[], map[], map[], map[];
      timer, released, log, called := false, false, [], [];
    }

    method AddGetData(uid: int, key: int)
      modifies this
      ensures View() == F.AddGetData(old(View()), uid, key)
    {
      if state != F.WAIT_QUERY {
        flags := map[];
        queries := map[];
      }
      if uid !in queries {
        queries := queries[uid := []];
      }
      var keys := queries[uid];
      var found := false;
      var i := 0;
      while i < |keys|
        invariant 0 <= i <= |keys| && !found && key !in keys[..i]
      {
        if keys[i] == key {
          found := true;
          break;
        }
        i := i + 1;
      }
      assert found <==> key in keys;
      if !found {
        queries := queries[uid := keys + [key]];
      }
      flags := flags[uid := false];
      state := F.WAIT_QUERY;
    }

    method AddUpdateData(uid: int, more: seq<Update>)
      modifies this
      ensures View() == F.AddUpdateData(old(View()), uid, more)
    {
      if state != F.WAIT_REQUEST_UPDATE {
        flags := map[];
        updates := map[];
      }
      ghost var base := updates;
      var list := if uid in updates then updates[uid] else [];
      var i := 0;
      while i < |more|
        invariant 0 <= i <= |more| && list == F.UpdatesOf(base, uid) + more[..i]
      {
        list := list + [more[i]];
        i := i + 1;
      }
      assert more[..i] == more;
      updates := updates[uid := list];
      flags := flags[uid := false];
      state := F.WAIT_REQUEST_UPDATE;
    }

    /** The virtual call: the processor stages what it stages, one item at a time, and returns its result. */
    method Call(c: F.Callback, r: F.Reaction) returns (v: F.Result)
      modifies this
      ensures (View(), v) == F.Call(old(View()), c, r)
    {
      called := called + [c];
      StageAll(r.staged);
      return r.result;
    }

    method StageAll(gs: seq<F.Staging>)
      modifies this
      ensures View() == F.StageAll(old(View()), gs)
    {
      var i := 0;
      while i < |gs|
        invariant 0 <= i <= |gs| && F.StageAll(View(), gs[i..]) == F.StageAll(old(View()), gs)
      {
        assert gs[i..][1..] == gs[i + 1..];
        match gs[i] {
          case StageGet(uid, key) => AddGetData(uid, key);
          case StageUpdate(uid, more) => AddUpdateData(uid, more);
        }
        i := i + 1;
      }
    }

    /** Opens the barrier, if every flag is set. */
    method IsAllUserDataReady() returns (ready: bool)
      modifies this`state
      ensures ready <==> F.AllReady(flags)
      ensures state == if ready then F.IDLE else old(state)
    {
      var todo := flags.Keys;
      while todo != {}
        invariant todo <= flags.Keys && state == old(state)
        invariant forall uid :: uid in flags && uid !in todo ==> flags[uid]
        decreases |todo|
      {
        LeastExists(todo);
        var uid: int :| uid in todo && forall y :: y in todo ==> uid <= y;
        if flags[uid] != true {
          return false;
        }
        todo := todo - {uid};
      }
      state := F.IDLE;
      return true;
    }

    method SendRequestToUser(m: Message, open: bool)
      modifies this`log, this`timer
      ensures log == if open then old(log) + [Asked(m, Route(own, m.to))] else old(log)
      ensures timer == (open || old(timer))
    {
      if !open {
        return;
      }
      log := log + [Asked(m, if m.to != -1 then m.to else own)];
      timer := true;
    }

    /** The sending loop of QueryUserData, over the map in key order. */
    method SendQueries(open: bool)
      modifies this`log, this`timer
      ensures log == AfterWave(old(log), own, Fetching(queries), open)
      ensures timer == ((open && queries.Keys != {}) || old(timer))
    {
      ghost var mm := Fetching(queries);
      var todo := queries.Keys;
      while todo != {}
        invariant todo <= queries.Keys
        invariant SentBut(log, old(log), own, mm, todo, open)
        invariant timer == ((open && todo != queries.Keys) || old(timer))
        decreases |todo|
      {
        LeastExists(todo);
        var uid: int :| uid in todo && forall y :: y in todo ==> uid <= y;
        assert IsLeast(uid, todo) && uid == Least(todo);
        SentNext(log, old(log), own, mm, todo, open);
        SendRequestToUser(GetRequest(uid, queries[uid]), open);
        todo := todo - {uid};
      }
      SentAll(log, old(log), own, mm, open);
    }

    method QueryUserData(open: bool)
      modifies this`log, this`timer
      ensures View() == F.QueryUserData(old(View()), open)
    {
      NoKeys(Fetching(queries));
      SendQueries(open);
    }

    /** The sending loop of UpdateUserData, over the map in key order. */
    method SendSaves(open: bool)
      modifies this`log, this`timer
      ensures log == AfterWave(old(log), own, Storing(updates), open)
      ensures timer == ((open && updates.Keys != {}) || old(timer))
    {
      ghost var mm := Storing(updates);
      var todo := updates.Keys;
      while todo != {}
        invariant todo <= updates.Keys
        invariant SentBut(log, old(log), own, mm, todo, open)
        invariant timer == ((open && todo != updates.Keys) || old(timer))
        decreases |todo|
      {
        LeastExists(todo);
        var uid: int :| uid in todo && forall y :: y in todo ==> uid <= y;
        assert IsLeast(uid, todo) && uid == Least(todo);
        SentNext(log, old(log), own, mm, todo, open);
        SendRequestToUser(UpdateRequest(uid, updates[uid]), open);
        todo := todo - {uid};
      }
      SentAll(log, old(log), own, mm, open);
    }

    method UpdateUserData(open: bool)
      modifies this`log, this`timer, this`state
      ensures View() == F.UpdateUserData(old(View()), open)
    {
      NoKeys(Storing(updates));
      SendSaves(open);
      state := F.WAIT_UPDATE;
    }

    method ProcessQueryUserData(p: F.Processor, out: F.Outlets) returns (v: F.Result)
      modifies this
      ensures (View(), v) == F.ProcessQueryUserData(old(View()), p, out)
    {
      if state != F.WAIT_QUERY {
        return F.Failed;
      }
      if |flags| == 0 {
        v := Call(F.OnRequest, p.request);
        return;
      }
      QueryUserData(out.route);
      return F.Succ;
    }

    method ProcessUpdateUserData(p: F.Processor, out: F.Outlets) returns (v: F.Result)
      modifies this
      ensures (View(), v) == F.ProcessUpdateUserData(old(View()), p, out)
    {
      if state != F.WAIT_REQUEST_UPDATE {
        return F.Failed;
      }
      if |flags| == 0 {
        v := Call(F.OnCompleted, p.completed);
        return;
      }
      UpdateUserData(out.handler);
      return F.Succ;
    }

    method ProcessResponseQueryKVDBData(e: F.Event, p: F.Processor) returns (v: F.Result)
      requires e.Reply?
      modifies this
      ensures (View(), v) == F.ResponseQuery(old(View()), e, p)
    {
      if !e.ok {
        called := called + [F.OnQueryFailed];
        return F.Failed;
      }
      flags := flags[e.uid := true];
      data := data[e.uid := e.data];
      var ready := IsAllUserDataReady();
      if ready {
        v := Call(F.OnRequest, p.request);
        return;
      }
      return F.Succ;
    }

    method MergeInto(uid: int, d: Data)
      modifies this`data
      ensures data == old(data)[uid := Merge(Known(old(data), uid), d)]
    {
      if uid !in data {
        data := data[uid := EMPTY];
      }
      data := data[uid := Merge(data[uid], d)];
    }

    method ProcessResponseUpdateKVDBData(e: F.Event, p: F.Processor) returns (v: F.Result)
      requires e.Reply?
      modifies this
      ensures (View(), v) == F.ResponseUpdate(old(View()), e, p)
    {
      if !e.ok {
        called := called + [F.OnUpdateFailed];
        return F.Failed;
      }
      flags := flags[e.uid := true];
      MergeInto(e.uid, e.data);
      var ready := IsAllUserDataReady();
      if ready {
        v := Call(F.OnCompleted, p.completed);
        return;
      }
      return F.Succ;
    }

    method Process(e: F.Event, p: F.Processor, out: F.Outlets)
      modifies this
      ensures View() == F.Process(old(View()), e, p, out)
    {
      log := log + [F.MarkOf(state, e)];
      var v := React(e, p, out);
      if v == F.Completed || v == F.Failed {
        timer := false;
        released := true;
      } else if state == F.WAIT_REQUEST_UPDATE {
        v := ProcessUpdateUserData(p, out);
      }
    }

    /** The first half of Process: the handler that this event and this state call for. */
    method React(e: F.Event, p: F.Processor, out: F.Outlets) returns (v: F.Result)
      modifies this
      ensures (View(), v) == F.React(old(View()), e, p, out)
    {
      v := F.Failed;
      if e.Request? {
        v := Begin(p, out);
      } else if e.Reply? {
        if state == F.IDLE {
          v := Call(F.OnResponse, p.response);
          if v == F.Succ && state == F.WAIT_QUERY {
            v := ProcessQueryUserData(p, out);
          }
        } else if state == F.WAIT_QUERY {
          v := ProcessResponseQueryKVDBData(e, p);
        } else if state == F.WAIT_UPDATE {
          v := ProcessResponseUpdateKVDBData(e, p);
        }
      } else {
        v := Call(F.OnPush, p.push);
      }
    }

    method Begin(p: F.Processor, out: F.Outlets) returns (v: F.Result)
      modifies this
      ensures (View(), v) == F.React(old(View()), F.Request, p, out)
    {
      called := called + [F.OnPre];
      if p.reset {
        state := F.IDLE;
      }
      StageAll(p.preStaged);
      if p.pre == F.PreReady {
        v := Call(F.OnRequest, p.request);
      } else if p.pre == F.PreQuery {
        v := ProcessQueryUserData(p, out);
      } else {
        v := F.Failed;
      }
    }
  }
}
