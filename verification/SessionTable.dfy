/** Session ids, the table of live sessions, the (command, uid) locks and the running averages, as one state and the
    steps that change it. */
module SessionTable {
  import opened Sequences

  const MAX_SESSION_ID: int := 0x10000

  /** What the manager looks at in a session. The command and uid are those of the request being processed. */
  datatype Info = Info(cmd: int, uid: int, needUnlock: bool, headCmd: int, start: int)

  datatype Stats = Stats(count: nat, avg: int)

  type Locks = map<int, map<int, int>>

  datatype Table = Table(free: seq<int>, live: map<int, Info>, locks: Locks, stats: map<int, Stats>, dealt: nat)

  /** The ids from `lo` up to but not including `hi`. */
  function Range(lo: int, hi: int): (s: seq<int>)
    requires lo <= hi
    ensures |s| == hi - lo && forall i :: 0 <= i < |s| ==> s[i] == lo + i
  {
    seq(hi - lo, i => lo + i)
  }

  function Initial(): Table {
    Table(Range(1, MAX_SESSION_ID), map[], map[], map[], 0)
  }

  function Alloc(t: Table, now: int): (Table, int) {
    if t.free == [] then (t, -1)
    else
      var id := t.free[0];
      (t.(free := t.free[1..], live := t.live[id := Info(0, 0, false, 0, now)]), id)
  }

  predicate Held(locks: Locks, cmd: int, uid: int) {
    cmd in locks && uid in locks[cmd]
  }

  /** Indexing a C++ map inserts what is missing. */
  function Row(locks: Locks, cmd: int): (r: map<int, int>) {
    if cmd in locks then locks[cmd] else map[]
  }

  function Cell(row: map<int, int>, uid: int): (v: int) {
    if uid in row then row[uid] else 0
  }

  function Lock(t: Table, id: int): (Table, bool)
    requires id in t.live
  {
    var s := t.live[id];
    if Held(t.locks, s.cmd, s.uid) then (t, false)
    else (t.(locks := t.locks[s.cmd := Row(t.locks, s.cmd)[s.uid := id]],
             live := t.live[id := s.(needUnlock := true)]), true)
  }

  /** The comparison reads through indexing, so a missing entry is there afterwards, with value zero. */
  function Unlock(locks: Locks, id: int, s: Info): (r: Locks) {
    if !s.needUnlock then locks
    else
      var row := Row(locks, s.cmd)[s.uid := Cell(Row(locks, s.cmd), s.uid)];
      if row[s.uid] == id then
        var left := row - {s.uid};
        if |left| == 0 then locks - {s.cmd} else locks[s.cmd := left]
      else
        locks[s.cmd := row]
  }

  /** Integer division of C++, towards zero. */
  function Quotient(a: int, b: int): (q: int)
    requires b > 0
    ensures a >= 0 ==> q == a / b
  {
    if a >= 0 then a / b else -((-a) / b)
  }

  /** It cuts off: what is left has the sign of the dividend and is smaller than the divisor. */
  lemma QuotientCuts(a: int, b: int)
    requires b > 0
    ensures var q := Quotient(a, b); var r := a - b * q; -b < r < b && (a >= 0 ==> r >= 0) && (a <= 0 ==> r <= 0)
  {
    if a >= 0 {
      assert a == b * (a / b) + a % b;
    } else {
      assert -a == b * (-a / b) + -a % b;
    }
  }

  function Average(s: Stats, d: int): (r: Stats) {
    Stats(s.count + 1, Quotient(s.avg * s.count + d, s.count + 1))
  }

  function StatsOf(m: map<int, Stats>, cmd: int): Stats {
    if cmd in m then m[cmd] else Stats(0, 0)
  }

  function Release(t: Table, id: int, now: int): (Table, int) {
    if id !in t.live then (t, -1)
    else
      var s := t.live[id];
      (Table(t.free + [id], t.live - {id}, Unlock(t.locks, id, s),
             t.stats[s.headCmd := Average(StatsOf(t.stats, s.headCmd), now - s.start)], t.dealt + 1), 0)
  }

  // ---- runs ----

  /** Configure stands for the message handling that fills a session and goes on using it: it may set the head
      command, and the command and user of the request, at any time. */
  datatype Step =
    | DoAlloc(now: int)
    | Configure(id: int, headCmd: int, cmd: int, uid: int)
    | DoLock(id: int)
    | DoRelease(id: int, now: int)
    | StatsTimer

  function Next(t: Table, s: Step): Table {
    match s
    case DoAlloc(now) => Alloc(t, now).0
    case Configure(id, headCmd, cmd, uid) =>
      if id in t.live then t.(live := t.live[id := t.live[id].(headCmd := headCmd, cmd := cmd, uid := uid)]) else t
    case DoLock(id) => if id in t.live then Lock(t, id).0 else t
    case DoRelease(id, now) => Release(t, id, now).0
    case StatsTimer => t.(stats := map[], dealt := 0)
  }

  function Run(t: Table, steps: seq<Step>): Table {
    if steps == [] then t else Next(Run(t, steps[..|steps| - 1]), steps[|steps| - 1])
  }

  /** Free and live ids share out 1 .. 65535. */
  ghost predicate IdsPartitioned(t: Table) {
    && Distinct(t.free)
    && (forall id :: id in t.free ==> id !in t.live)
    && (forall id :: 1 <= id < MAX_SESSION_ID <==> id in t.free || id in t.live)
  }

  /** The lock table holds exactly the marked live sessions, each under its own key. */
  ghost predicate LocksExact(t: Table) {
    && (forall cmd :: cmd in t.locks ==> t.locks[cmd] != map[])
    && (forall cmd, uid :: Held(t.locks, cmd, uid) ==>
          var id := t.locks[cmd][uid];
          id in t.live && t.live[id].needUnlock && t.live[id].cmd == cmd && t.live[id].uid == uid)
    && (forall id :: id in t.live && t.live[id].needUnlock ==>
          Held(t.locks, t.live[id].cmd, t.live[id].uid) && t.locks[t.live[id].cmd][t.live[id].uid] == id)
  }

  lemma NextKeepsIds(t: Table, s: Step)
    requires IdsPartitioned(t)
    ensures IdsPartitioned(Next(t, s))
  {
    match s {
      case DoAlloc(now) =>
        if t.free != [] {
          var id := t.free[0];
          assert forall i :: i in t.free <==> i == id || i in t.free[1..];
        }
      case DoRelease(id, now) =>
        if id in t.live {
          assert forall i :: i in t.free + [id] <==> i in t.free || i == id;
        }
      case Configure(id, headCmd, cmd, uid) =>
      case DoLock(id) =>
      case StatsTimer =>
    }
  }

  /** Unlocking a marked session takes out its own entry and nothing else. */
  lemma UnlockRemoves(t: Table, id: int)
    requires LocksExact(t) && id in t.live && t.live[id].needUnlock
    ensures var s := t.live[id]; var r := Unlock(t.locks, id, s);
            && (forall cmd :: cmd in r ==> r[cmd] != map[])
            && (forall cmd, uid :: Held(r, cmd, uid) <==> Held(t.locks, cmd, uid) && !(cmd == s.cmd && uid == s.uid))
            && (forall cmd, uid :: Held(r, cmd, uid) ==> r[cmd][uid] == t.locks[cmd][uid])
  {
    var s := t.live[id];
    assert Held(t.locks, s.cmd, s.uid);
    var left := t.locks[s.cmd] - {s.uid};
    assert t.locks[s.cmd][s.uid := id] == t.locks[s.cmd];
    assert forall uid :: uid in t.locks[s.cmd] ==> uid == s.uid || uid in left;
  }

  /** The step leaves the command and user of a locked session as they are. */
  predicate KeyKept(t: Table, s: Step) {
    s.Configure? && s.id in t.live && t.live[s.id].needUnlock ==> t.live[s.id].cmd == s.cmd && t.live[s.id].uid == s.uid
  }

  /** A step keeps the lock table exact if, and only if, it keeps the key of a locked session. */
  lemma NextKeepsLocks(t: Table, s: Step)
    requires IdsPartitioned(t) && LocksExact(t)
    ensures LocksExact(Next(t, s)) <==> KeyKept(t, s)
  {
    match s {
      case DoAlloc(now) =>
      case Configure(id, headCmd, cmd, uid) => ConfigureKeepsLocks(t, id, headCmd, cmd, uid);
      case DoLock(id) => LockKeepsLocks(t, id);
      case DoRelease(id, now) => ReleaseKeepsLocks(t, id, now);
      case StatsTimer =>
    }
  }

  lemma ConfigureKeepsLocks(t: Table, id: int, headCmd: int, cmd: int, uid: int)
    requires LocksExact(t)
    ensures var s := Configure(id, headCmd, cmd, uid); LocksExact(Next(t, s)) <==> KeyKept(t, s)
  {
    var s := Configure(id, headCmd, cmd, uid);
    if id in t.live && t.live[id].needUnlock {
      var was := t.live[id];
      assert Held(t.locks, was.cmd, was.uid) && t.locks[was.cmd][was.uid] == id;
      if !KeyKept(t, s) {
        var t' := Next(t, s);
        assert Held(t'.locks, was.cmd, was.uid) && t'.locks[was.cmd][was.uid] == id;
      }
    }
  }

  lemma LockKeepsLocks(t: Table, id: int)
    requires LocksExact(t)
    ensures id in t.live ==> LocksExact(Lock(t, id).0)
  {
    if id in t.live {
      var s := t.live[id];
      var t' := Lock(t, id).0;
      if !Held(t.locks, s.cmd, s.uid) {
        assert s.uid in t'.locks[s.cmd];
        forall cmd, uid | Held(t'.locks, cmd, uid)
          ensures var i := t'.locks[cmd][uid];
                  i in t'.live && t'.live[i].needUnlock && t'.live[i].cmd == cmd && t'.live[i].uid == uid
        {
          assert (cmd == s.cmd && uid == s.uid) || Held(t.locks, cmd, uid);
        }
      }
    }
  }

  lemma ReleaseKeepsLocks(t: Table, id: int, now: int)
    requires LocksExact(t)
    ensures LocksExact(Release(t, id, now).0)
  {
    if id in t.live && t.live[id].needUnlock {
      UnlockRemoves(t, id);
    }
  }

  ghost predicate KeysFrozen(t: Table, steps: seq<Step>) {
    steps == [] ||
    (KeysFrozen(t, steps[..|steps| - 1]) && KeyKept(Run(t, steps[..|steps| - 1]), steps[|steps| - 1]))
  }

  /** Over every run from the initial state ids are shared out without loss or duplicate; and as long as no locked
      session's key is changed, the lock table is exact. */
  lemma {:induction false} RunInvariant(steps: seq<Step>)
    ensures IdsPartitioned(Run(Initial(), steps))
    ensures KeysFrozen(Initial(), steps) ==> LocksExact(Run(Initial(), steps))
  {
    if steps == [] {
      forall id | 1 <= id < MAX_SESSION_ID
        ensures id in Initial().free
      {
        assert Initial().free[id - 1] == id;
      }
    } else {
      RunInvariant(steps[..|steps| - 1]);
      var t := Run(Initial(), steps[..|steps| - 1]);
      NextKeepsIds(t, steps[|steps| - 1]);
      if KeysFrozen(Initial(), steps) {
        NextKeepsLocks(t, steps[|steps| - 1]);
      }
    }
  }

  /** The run up to and including the first change of a locked session's key is the first to leave the table inexact:
      every shorter run is exact, this one is not. */
  lemma FirstChangeBreaks(steps: seq<Step>, s: Step)
    requires KeysFrozen(Initial(), steps) && !KeyKept(Run(Initial(), steps), s)
    ensures LocksExact(Run(Initial(), steps)) && !LocksExact(Run(Initial(), steps + [s]))
  {
    RunInvariant(steps);
    assert (steps + [s])[..|steps|] == steps;
    NextKeepsLocks(Run(Initial(), steps), s);
  }

  lemma HasKey(m: map<int, int>)
    ensures m == map[] || exists k :: k in m
  {
    if !exists k :: k in m {
      assert m == map[];
    }
  }

  /** What the invariant means to callers: an id comes out unless all 65535 are live; a lock is granted exactly when
      no live session holds that command for that user; and when nothing is live nothing is locked. */
  lemma WhatCallersSee(t: Table)
    requires IdsPartitioned(t) && LocksExact(t)
    ensures forall now :: Alloc(t, now).1 == -1 <==> forall id :: 1 <= id < MAX_SESSION_ID ==> id in t.live
    ensures forall id :: id in t.live ==>
              (Lock(t, id).1 <==> forall other :: other in t.live && t.live[other].needUnlock ==>
                                    t.live[other].cmd != t.live[id].cmd || t.live[other].uid != t.live[id].uid)
    ensures t.live == map[] ==> t.locks == map[]
  {
    assert t.free != [] ==> t.free[0] in t.free;
    if t.live == map[] {
      forall cmd | cmd in t.locks
        ensures false
      {
        HasKey(t.locks[cmd]);
        var uid :| uid in t.locks[cmd];
        assert Held(t.locks, cmd, uid);
      }
    }
  }

  /** What a request for the lock leaves behind. It is granted exactly when the key is free; then the session is marked
      and entered under its key, and every other session and entry is as before. Refused, it changes nothing. */
  lemma LockTaken(t: Table, id: int)
    requires id in t.live
    ensures var (t', ok) := Lock(t, id); var s := t.live[id];
            && (ok <==> !(s.cmd in t.locks && s.uid in t.locks[s.cmd]))
            && (!ok ==> t' == t)
            && (ok ==>
                  && t'.live == t.live[id := Info(s.cmd, s.uid, true, s.headCmd, s.start)]
                  && s.cmd in t'.locks && s.uid in t'.locks[s.cmd] && t'.locks[s.cmd][s.uid] == id
                  && (forall cmd, uid :: cmd != s.cmd || uid != s.uid ==>
                        && (Held(t'.locks, cmd, uid) <==> Held(t.locks, cmd, uid))
                        && (Held(t.locks, cmd, uid) ==> t'.locks[cmd][uid] == t.locks[cmd][uid]))
                  && t'.free == t.free && t'.stats == t.stats && t'.dealt == t.dealt)
  {
  }

  /** The session still holds the lock of its key. */
  predicate Holding(t: Table, id: int, cmd: int, uid: int) {
    id in t.live && t.live[id].needUnlock && t.live[id].cmd == cmd && t.live[id].uid == uid
  }

  lemma HoldingKept(t: Table, s: Step, id: int, cmd: int, uid: int)
    requires IdsPartitioned(t) && Holding(t, id, cmd, uid) && KeyKept(t, s) && !(s.DoRelease? && s.id == id)
    ensures Holding(Next(t, s), id, cmd, uid)
  {
    if s.DoAlloc? && t.free != [] {
      assert t.free[0] in t.free;
    }
  }

  predicate NeverReleased(steps: seq<Step>, id: int) {
    forall s <- steps :: !(s.DoRelease? && s.id == id)
  }

  lemma {:induction false} HoldingOn(t: Table, steps: seq<Step>, id: int, cmd: int, uid: int)
    requires IdsPartitioned(t) && LocksExact(t) && Holding(t, id, cmd, uid)
    requires KeysFrozen(t, steps) && NeverReleased(steps, id)
    ensures var u := Run(t, steps); IdsPartitioned(u) && LocksExact(u) && Holding(u, id, cmd, uid)
  {
    if steps != [] {
      var init, s := steps[..|steps| - 1], steps[|steps| - 1];
      assert forall x :: x in init ==> x in steps;
      assert s in steps;
      HoldingOn(t, init, id, cmd, uid);
      NextKeepsIds(Run(t, init), s);
      NextKeepsLocks(Run(t, init), s);
      HoldingKept(Run(t, init), s, id, cmd, uid);
    }
  }

  /** Once granted, a lock keeps every other session with that command and user out, whatever else happens, until its
      session is released; and the first to ask after that is granted it. */
  lemma LockExcludes(t: Table, a: int, steps: seq<Step>, b: int, now: int)
    requires IdsPartitioned(t) && LocksExact(t) && a in t.live && Lock(t, a).1
    requires var t' := Next(t, DoLock(a)); KeysFrozen(t', steps) && NeverReleased(steps, a)
    requires var u := Run(Next(t, DoLock(a)), steps);
             b in u.live && b != a && u.live[b].cmd == t.live[a].cmd && u.live[b].uid == t.live[a].uid
    ensures var u := Run(Next(t, DoLock(a)), steps);
            && !Lock(u, b).1
            && var v := Next(u, DoRelease(a, now)); b in v.live && Lock(v, b).1
  {
    var s, t' := t.live[a], Next(t, DoLock(a));
    LockTaken(t, a);
    NextKeepsIds(t, DoLock(a));
    NextKeepsLocks(t, DoLock(a));
    HoldingOn(t', steps, a, s.cmd, s.uid);
    var u := Run(t', steps);
    assert Held(u.locks, s.cmd, s.uid);
    UnlockRemoves(u, a);
  }

  /** What an allocation and a release leave behind. */
  lemma AllocGives(t: Table, now: int)
    ensures var (t', id) := Alloc(t, now);
            && (t.free == [] ==> t' == t && id == -1)
            && (t.free != [] ==>
                  && id == t.free[0] && [id] + t'.free == t.free && id in t'.live && t'.live[id].start == now
                  && !t'.live[id].needUnlock && t'.live - {id} == t.live - {id}
                  && t'.locks == t.locks && t'.stats == t.stats && t'.dealt == t.dealt)
  {
  }

  lemma ReleaseGives(t: Table, id: int, now: int)
    ensures var (t', r) := Release(t, id, now);
            && (id !in t.live ==> t' == t && r == -1)
            && (id in t.live ==>
                  && r == 0 && id !in t'.live && t'.live == t.live - {id} && t'.free == t.free + [id]
                  && t'.dealt == t.dealt + 1)
  {
  }

  /** Two sessions never hold the same lock. */
  lemma MutualExclusion(t: Table, a: int, b: int)
    requires LocksExact(t) && a in t.live && b in t.live && t.live[a].needUnlock && t.live[b].needUnlock
    requires t.live[a].cmd == t.live[b].cmd && t.live[a].uid == t.live[b].uid
    ensures a == b
  {
  }

  /** Why the key must stay as it was when locked: changed afterwards, the lock outlives the session, always. The new
      key is held too then: by whoever held it, or by no one, under the id zero. */
  lemma ChangedKeyLeaksLock(t: Table, id: int, cmd: int, uid: int, now: int)
    requires IdsPartitioned(t) && LocksExact(t) && id in t.live && t.live[id].needUnlock
    ensures var s := t.live[id];
            var changed := t.(live := t.live[id := s.(cmd := cmd, uid := uid)]);
            var after := Release(changed, id, now).0;
            && (Held(after.locks, s.cmd, s.uid) <==> cmd != s.cmd || uid != s.uid)
            && (cmd != s.cmd || uid != s.uid ==>
                  && after.locks[s.cmd][s.uid] == id
                  && Held(after.locks, cmd, uid)
                  && after.locks[cmd][uid] == if Held(t.locks, cmd, uid) then t.locks[cmd][uid] else 0)
  {
    var s := t.live[id];
    var s' := s.(cmd := cmd, uid := uid);
    assert Held(t.locks, s.cmd, s.uid);
    if cmd == s.cmd && uid == s.uid {
      UnlockRemoves(t, id);
      assert t.live[id := s'] == t.live;
    } else {
      assert id >= 1;
      if Held(t.locks, cmd, uid) {
        assert t.locks[cmd][uid] != id;
      }
    }
  }

  // ---- order of ids ----

  function Allocated(t: Table, steps: seq<Step>): (ids: seq<int>) {
    if steps == [] then []
    else
      var u := Run(t, steps[..|steps| - 1]);
      Allocated(t, steps[..|steps| - 1]) +
      if steps[|steps| - 1].DoAlloc? && u.free != [] then [u.free[0]] else []
  }

  function Released(t: Table, steps: seq<Step>): (ids: seq<int>) {
    if steps == [] then []
    else
      var u, s := Run(t, steps[..|steps| - 1]), steps[|steps| - 1];
      Released(t, steps[..|steps| - 1]) + if s.DoRelease? && s.id in u.live then [s.id] else []
  }

  /** One step hands out at most the front of the queue and adds at most one id at its end. */
  lemma QueueStep(u: Table, s: Step)
    ensures var out := if s.DoAlloc? && u.free != [] then [u.free[0]] else [];
            var back := if s.DoRelease? && s.id in u.live then [s.id] else [];
            out + Next(u, s).free == u.free + back
  {
  }

  /** Nothing overtakes in the queue: the ids handed out, then those still queued, are those queued at the start, then
      those released since, in that order. */
  lemma {:induction false} FirstInFirstOut(t: Table, steps: seq<Step>)
    ensures Allocated(t, steps) + Run(t, steps).free == t.free + Released(t, steps)
  {
    if steps == [] {
      assert [] + t.free == t.free + [];
    } else {
      var init, s := steps[..|steps| - 1], steps[|steps| - 1];
      FirstInFirstOut(t, init);
      var u := Run(t, init);
      QueueStep(u, s);
      var out := if s.DoAlloc? && u.free != [] then [u.free[0]] else [];
      var back := if s.DoRelease? && s.id in u.live then [s.id] else [];
      QueueJoined(Allocated(t, init), u.free, t.free, Released(t, init), out, Next(u, s).free, back);
    }
  }

  lemma QueueJoined(a: seq<int>, f: seq<int>, f0: seq<int>, r: seq<int>, out: seq<int>, f': seq<int>, back: seq<int>)
    requires a + f == f0 + r && out + f' == f + back
    ensures a + out + f' == f0 + (r + back)
  {
    calc {
      a + out + f';
      a + (out + f');
      a + (f + back);
      a + f + back;
      f0 + r + back;
      f0 + (r + back);
    }
  }

  /** An id released when f others are queued is not handed out before the (f+1)-th later allocation, and then it is. */
  lemma ReuseDistance(t: Table, id: int, now: int, steps: seq<Step>)
    requires IdsPartitioned(t) && id in t.live
    ensures var ids := Allocated(Release(t, id, now).0, steps);
            && (|ids| > |t.free| ==> ids[|t.free|] == id)
            && (forall k :: 0 <= k < |ids| && k < |t.free| ==> ids[k] != id)
  {
    var t' := Release(t, id, now).0;
    FirstInFirstOut(t', steps);
    var ids := Allocated(t', steps);
    var all := t.free + [id] + Released(t', steps);
    assert forall k :: 0 <= k < |ids| ==> ids[k] == (ids + Run(t', steps).free)[k] == all[k];
    assert forall k :: 0 <= k < |t.free| ==> all[k] == t.free[k] && t.free[k] in t.free;
  }

  // ---- running averages ----

  function Folded(ds: seq<int>): (s: Stats)
    ensures s.count == |ds|
  {
    if ds == [] then Stats(0, 0) else Average(Folded(ds[..|ds| - 1]), ds[|ds| - 1])
  }

  function Sum(ds: seq<int>): int {
    if ds == [] then 0 else Sum(ds[..|ds| - 1]) + ds[|ds| - 1]
  }

  /** The stored average never exceeds the true one, falls short of it by at most (n-1)/2, and is not below the
      smallest duration. */
  lemma {:induction false} AverageDrift(ds: seq<int>, least: nat)
    requires ds != [] && forall d <- ds :: d >= least
    ensures var n, avg := |ds|, Folded(ds).avg;
            least <= avg && 0 <= 2 * (Sum(ds) - n * avg) <= n * (n - 1)
  {
    var init, d := ds[..|ds| - 1], ds[|ds| - 1];
    assert forall e :: e in init ==> e in ds;
    assert d in ds;
    if init != [] {
      AverageDrift(init, least);
      DriftStep(Sum(init), Folded(init).avg, |init|, d, least);
    }
  }

  lemma DriftStep(sum: int, avg: int, n: nat, d: int, least: nat)
    requires n > 0 && least <= avg && least <= d && 0 <= 2 * (sum - n * avg) <= n * (n - 1)
    ensures avg * n + d >= 0
    ensures var q := (avg * n + d) / (n + 1);
            least <= q && 0 <= 2 * (sum + d - (n + 1) * q) <= (n + 1) * n
  {
    Scaled(least, avg, n);
    var x := avg * n + d;
    assert least * (n + 1) >= 0;
    Division(x, n + 1, least);
    var r := x - (n + 1) * (x / (n + 1));
    assert 0 <= r <= n;
    assert n * avg == avg * n;
    assert (n + 1) * n == n * (n - 1) + 2 * n;
  }

  lemma Scaled(least: nat, a: int, n: nat)
    requires least <= a
    ensures least * n <= a * n && least * (n + 1) == least * n + least
  {
  }

  lemma Division(x: nat, n: nat, least: nat)
    requires n > 0 && x >= least * n
    ensures least <= x / n && x - n < n * (x / n) <= x
  {
    var q := x / n;
    assert x == n * q + x % n;
    if q < least {
      Scaled(q + 1, least, n);
    }
  }

  /** No stored average and no intermediate value exceeds the number of durations times the longest: the computation
      stays within `long long` as long as that product does. */
  lemma {:induction false} AverageFits(ds: seq<int>, most: nat)
    requires forall d <- ds :: 0 <= d <= most
    ensures 0 <= Folded(ds).avg <= most
    ensures ds != [] ==>
              var init := ds[..|ds| - 1];
              0 <= Folded(init).avg * |init| + ds[|ds| - 1] <= |ds| * most
  {
    if ds != [] {
      var init, d := ds[..|ds| - 1], ds[|ds| - 1];
      assert forall e :: e in init ==> e in ds;
      assert d in ds;
      AverageFits(init, most);
      StepFits(Folded(init).avg, |init|, d, most);
    }
  }

  lemma StepFits(avg: int, n: nat, d: int, most: nat)
    requires 0 <= avg <= most && 0 <= d <= most
    ensures 0 <= avg * n + d <= (n + 1) * most
    ensures 0 <= (avg * n + d) / (n + 1) <= most
  {
    Scaled(avg, most, n);
    Scaled(0, avg, n);
    Below(avg * n + d, n + 1, most);
  }

  lemma Below(x: nat, n: nat, most: nat)
    requires n > 0 && x <= most * n
    ensures 0 <= x / n <= most
  {
    var q := x / n;
    assert x == n * q + x % n;
    if q > most {
      Scaled(most + 1, q, n);
    }
  }

  /** When the session that now has this id was allocated, by the history. */
  function AllocatedAt(t: Table, steps: seq<Step>, id: int): int {
    if steps == [] then if id in t.live then t.live[id].start else 0
    else
      var u, s := Run(t, steps[..|steps| - 1]), steps[|steps| - 1];
      if s.DoAlloc? && u.free != [] && u.free[0] == id then s.now else AllocatedAt(t, steps[..|steps| - 1], id)
  }

  lemma {:induction false} StartsAreAllocations(t: Table, steps: seq<Step>, id: int)
    requires id in Run(t, steps).live
    ensures Run(t, steps).live[id].start == AllocatedAt(t, steps, id)
  {
    if steps != [] {
      var u, s := Run(t, steps[..|steps| - 1]), steps[|steps| - 1];
      if !(s.DoAlloc? && u.free != [] && u.free[0] == id) {
        StartsAreAllocations(t, steps[..|steps| - 1], id);
      }
    }
  }

  /** Durations, from allocation to release, of the sessions released under one command since the last reset. */
  function Durations(t: Table, steps: seq<Step>, cmd: int): seq<int> {
    if steps == [] then []
    else
      var u, s := Run(t, steps[..|steps| - 1]), steps[|steps| - 1];
      var ds := Durations(t, steps[..|steps| - 1], cmd);
      if s.StatsTimer? then []
      else if s.DoRelease? && s.id in u.live && u.live[s.id].headCmd == cmd then
        ds + [s.now - AllocatedAt(t, steps[..|steps| - 1], s.id)]
      else ds
  }

  lemma FoldedAppend(ds: seq<int>, d: int)
    ensures Folded(ds + [d]) == Average(Folded(ds), d)
  {
    assert (ds + [d])[..|ds + [d]| - 1] == ds;
  }

  lemma StatsStep(u: Table, s: Step, cmd: int)
    ensures StatsOf(Next(u, s).stats, cmd) ==
              if s.StatsTimer? then Stats(0, 0)
              else if s.DoRelease? && s.id in u.live && u.live[s.id].headCmd == cmd then
                Average(StatsOf(u.stats, cmd), s.now - u.live[s.id].start)
              else StatsOf(u.stats, cmd)
  {
  }

  /** In every run the stored figures of a command are the fold of its durations since the last reset. */
  lemma {:induction false} StatsFollowDurations(t: Table, steps: seq<Step>, cmd: int)
    requires t.stats == map[]
    ensures StatsOf(Run(t, steps).stats, cmd) == Folded(Durations(t, steps, cmd))
  {
    if steps != [] {
      var init, s := steps[..|steps| - 1], steps[|steps| - 1];
      StatsFollowDurations(t, init, cmd);
      var u := Run(t, init);
      StatsStep(u, s, cmd);
      if s.DoRelease? && s.id in u.live && u.live[s.id].headCmd == cmd {
        StartsAreAllocations(t, init, s.id);
        FoldedAppend(Durations(t, init, cmd), s.now - u.live[s.id].start);
        assert Durations(t, steps, cmd) == Durations(t, init, cmd) + [s.now - u.live[s.id].start];
      }
    }
  }

  /** Releases since the last reset. */
  function Dealt(t: Table, steps: seq<Step>): nat {
    if steps == [] then 0
    else
      var u, s := Run(t, steps[..|steps| - 1]), steps[|steps| - 1];
      if s.StatsTimer? then 0
      else Dealt(t, steps[..|steps| - 1]) + if s.DoRelease? && s.id in u.live then 1 else 0
  }

  lemma {:induction false} DealtCounts(t: Table, steps: seq<Step>)
    requires t.dealt == 0
    ensures Run(t, steps).dealt == Dealt(t, steps)
  {
    if steps != [] {
      DealtCounts(t, steps[..|steps| - 1]);
    }
  }
}
