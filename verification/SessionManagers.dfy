/** The session manager as it runs: a queue, maps and session objects, updated in place. */
module SessionManagers {
  import opened SessionTable

  class Session {
    const id: int
    var cmd: int
    var uid: int
    var needUnlock: bool
    var headCmd: int
    var start: int

    constructor (id: int, now: int)
      ensures this.id == id && View() == Info(0, 0, false, 0, now)
    {
      this.id := id;
      cmd, uid, needUnlock, headCmd, start := 0, 0, false, 0, now;
    }

    ghost function View(): Info
      reads this
    {
      Info(cmd, uid, needUnlock, headCmd, start)
    }
  }

  /** Reading through the indexing operator twice leaves both missing levels inserted. */
  lemma Inserted(locks: Locks, cmd: int, uid: int)
    ensures var one := if cmd in locks then locks else locks[cmd := map[]];
            var two := if uid in one[cmd] then one else one[cmd := one[cmd][uid := 0]];
            var row := Row(locks, cmd)[uid := Cell(Row(locks, cmd), uid)];
            two[cmd] == row && two == locks[cmd := row]
  {
    var row := Row(locks, cmd);
    if uid in row {
      assert row[uid := row[uid]] == row && locks[cmd := row] == locks;
    }
  }

  lemma Emptied(locks: Locks, cmd: int, row: map<int, int>, left: map<int, int>)
    ensures locks[cmd := row][cmd := left] == locks[cmd := left]
    ensures locks[cmd := left] - {cmd} == locks - {cmd}
  {
  }

  class SessionManager {
    var freeIds: seq<int>
    var live: map<int, Session>
    var locks: Locks
    var stats: map<int, Stats>
    var dealt: nat

    ghost predicate Valid()
      reads this, live.Values
    {
      forall id :: id in live ==> live[id].id == id
    }

    ghost function View(): Table
      reads this, live.Values
    {
      Table(freeIds, map id | id in live :: live[id].View(), locks, stats, dealt)
    }

    constructor ()
      ensures Valid() && View() == Table([], map[], map[], map[], 0)
    {
      freeIds, live, locks, stats, dealt := [], map[], map[], map[], 0;
    }

    /** Queues every id; on a new manager this gives the initial state. */
    method Init()
      requires Valid()
      modifies this
      ensures Valid() && View() == old(View()).(free := old(freeIds) + Initial().free, dealt := 0)
    {
      var i := 1;
      while i < MAX_SESSION_ID
        invariant 1 <= i <= MAX_SESSION_ID
        invariant freeIds == old(freeIds) + Range(1, i)
        invariant live == old(live) && locks == old(locks) && stats == old(stats)
      {
        assert Range(1, i + 1) == Range(1, i) + [i];
        freeIds := freeIds + [i];
        i := i + 1;
      }
      dealt := 0;
    }

    method AllocSessionID() returns (id: int)
      requires Valid()
      modifies this`freeIds
      ensures Valid()
      ensures id == if old(freeIds) == [] then -1 else old(freeIds)[0]
      ensures freeIds == if old(freeIds) == [] then [] else old(freeIds)[1..]
    {
      if |freeIds| <= 0 {
        return -1;
      }
      id := freeIds[0];
      freeIds := freeIds[1..];
    }

    /** A negative id means that none was free. */
    method AllocSession(now: int) returns (s: Session?)
      requires Valid() && forall id :: id in freeIds ==> id >= 0
      modifies this
      ensures Valid() && View() == Alloc(old(View()), now).0
      ensures s == null <==> Alloc(old(View()), now).1 == -1
      ensures s != null ==> fresh(s) && s.id == Alloc(old(View()), now).1 && s.id in live && live[s.id] == s
    {
      assert freeIds != [] ==> freeIds[0] in freeIds;
      var id := AllocSessionID();
      if id < 0 {
        return null;
      }
      s := new Session(id, now);
      live := live[id := s];
    }

    method ReleaseSession(id: int, now: int) returns (r: int)
      requires Valid()
      modifies this
      ensures Valid() && (View(), r) == Release(old(View()), id, now)
    {
      if id !in live {
        return -1;
      }
      var s := live[id];
      dealt := dealt + 1;
      var info := if s.headCmd in stats then stats[s.headCmd] else Stats(0, 0);
      info := Stats(info.count + 1, Quotient(info.avg * info.count + (now - s.start), info.count + 1));
      stats := stats[s.headCmd := info];
      UnlockProcess(s);
      live := live - {id};
      freeIds := freeIds + [id];
      assert View().live == old(View()).live - {id};
      return 0;
    }

    method LockProcess(s: Session) returns (ok: bool)
      requires Valid() && s.id in live && live[s.id] == s
      modifies this`locks, s`needUnlock
      ensures Valid() && (View(), ok) == Lock(old(View()), s.id)
    {
      if s.cmd in locks {
        if s.uid in locks[s.cmd] {
          return false;
        }
      }
      var row := if s.cmd in locks then locks[s.cmd] else map[];
      locks := locks[s.cmd := row[s.uid := s.id]];
      s.needUnlock := true;
      forall id | id in live && id != s.id
        ensures live[id].View() == old(live[id].View())
      {
        assert live[id].id == id;
      }
      assert View().live == old(View()).live[s.id := s.View()];
      return true;
    }

    method UnlockProcess(s: Session)
      modifies this`locks
      ensures locks == Unlock(old(locks), s.id, s.View())
    {
      if !s.needUnlock {
        return;
      }
      if s.cmd !in locks {
        locks := locks[s.cmd := map[]];
      }
      if s.uid !in locks[s.cmd] {
        locks := locks[s.cmd := locks[s.cmd][s.uid := 0]];
      }
      ghost var was, row := old(locks), locks[s.cmd];
      assert row == Row(was, s.cmd)[s.uid := Cell(Row(was, s.cmd), s.uid)] && locks == was[s.cmd := row] by {
        Inserted(was, s.cmd, s.uid);
      }
      if locks[s.cmd][s.uid] == s.id {
        locks := locks[s.cmd := locks[s.cmd] - {s.uid}];
        if |locks[s.cmd]| == 0 {
          locks := locks - {s.cmd};
        }
        Emptied(was, s.cmd, row, row - {s.uid});
      }
    }

    /** The statistics timer, without the log line it writes. */
    method ProcessOnTimerOut()
      requires Valid()
      modifies this
      ensures Valid() && View() == Next(old(View()), StatsTimer)
    {
      dealt := 0;
      stats := map[];
    }
  }
}
