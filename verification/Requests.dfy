/** The data requests of a session, and what its history says about who has been asked and has not yet answered. */
module Requests {
  import opened Orders
  import opened Sequences

  type Update = seq<int>

  datatype Kind = Fetch | Store

  datatype Message = GetRequest(to: int, keys: seq<int>) | UpdateRequest(to: int, updates: seq<Update>)

  function KindOf(m: Message): Kind {
    if m.GetRequest? then Fetch else Store
  }

  /** What passes between a session and the outside: a request goes out, routed by some user; a user's successful
      answer comes in; anything else comes in. */
  datatype Mark = Asked(m: Message, route: int) | Answered(kind: Kind, uid: int) | Other

  /** The user -1 stands for the session's own. */
  function Route(own: int, uid: int): int {
    if uid == -1 then own else uid
  }

  function Asks(own: int, ms: seq<Message>): (log: seq<Mark>)
    ensures |log| == |ms|
  {
    seq(|ms|, i requires 0 <= i < |ms| => Asked(ms[i], Route(own, ms[i].to)))
  }

  /** The messages of the wave at the end of the log, by user. */
  function LastWave(log: seq<Mark>, k: Kind): map<int, Message> {
    if log == [] then map[]
    else
      var last := log[|log| - 1];
      if last.Asked? && KindOf(last.m) == k then LastWave(log[..|log| - 1], k)[last.m.to := last.m] else map[]
  }

  /** The messages of the last wave whose users have not answered since. */
  function Unanswered(log: seq<Mark>, k: Kind): map<int, Message> {
    if log == [] then map[]
    else
      match log[|log| - 1]
      case Asked(_, _) => LastWave(log, k)
      case Answered(a, uid) => Unanswered(log[..|log| - 1], k) - if a == k then {uid} else {}
      case Other => Unanswered(log[..|log| - 1], k)
  }

  /** The last thing that happened was that something came in. */
  predicate Quiet(log: seq<Mark>) {
    log == [] || !log[|log| - 1].Asked?
  }

  lemma Heard(log: seq<Mark>, m: Mark, k: Kind)
    requires !m.Asked?
    ensures Quiet(log + [m])
    ensures Unanswered(log + [m], k) == Unanswered(log, k) - if m.Answered? && m.kind == k then {m.uid} else {}
  {
    assert (log + [m])[..|log|] == log;
    assert Unanswered(log, k) - {} == Unanswered(log, k);
  }

  // ---- waves ----

  /** What is staged, as one message per user. */
  function Fetching(m: map<int, seq<int>>): (mm: map<int, Message>)
    ensures mm.Keys == m.Keys
  {
    map uid | uid in m :: GetRequest(uid, m[uid])
  }

  function Storing(m: map<int, seq<Update>>): (mm: map<int, Message>)
    ensures mm.Keys == m.Keys
  {
    map uid | uid in m :: UpdateRequest(uid, m[uid])
  }

  ghost predicate WaveOf(mm: map<int, Message>, k: Kind) {
    forall uid :: uid in mm ==> mm[uid].to == uid && KindOf(mm[uid]) == k
  }

  /** The messages for `uids`, in ascending order. */
  ghost function InOrder(mm: map<int, Message>, uids: set<int>): (ms: seq<Message>)
    requires uids <= mm.Keys
    ensures |ms| == |uids|
    decreases |uids|
  {
    if uids == {} then [] else [mm[Least(uids)]] + InOrder(mm, uids - {Least(uids)})
  }

  /** One message per user, in ascending order. */
  lemma {:induction false} OnePerUser(mm: map<int, Message>, uids: set<int>, i: nat)
    requires uids <= mm.Keys && i < |uids|
    ensures |Ascending(uids)| == |uids| && Ascending(uids)[i] in mm
    ensures InOrder(mm, uids)[i] == mm[Ascending(uids)[i]]
    decreases |uids|
  {
    assert Ascending(uids)[i] in uids;
    if i > 0 {
      OnePerUser(mm, uids - {Least(uids)}, i - 1);
    }
  }

  /** One message more, the rest behind it. */
  lemma SendNext(log: seq<Mark>, own: int, mm: map<int, Message>, uids: set<int>)
    requires uids != {} && uids <= mm.Keys
    ensures var m, rest := mm[Least(uids)], InOrder(mm, uids - {Least(uids)});
            log + Asks(own, InOrder(mm, uids)) == log + [Asked(m, Route(own, m.to))] + Asks(own, rest)
  {
    var m, rest := mm[Least(uids)], InOrder(mm, uids - {Least(uids)});
    assert InOrder(mm, uids) == [m] + rest;
    assert Asks(own, [m] + rest) == [Asked(m, Route(own, m.to))] + Asks(own, rest);
    Regroup(log, [Asked(m, Route(own, m.to))], Asks(own, rest));
  }

  function Restrict(mm: map<int, Message>, uids: set<int>): map<int, Message> {
    map uid | uid in mm && uid in uids :: mm[uid]
  }

  /** A wave replaces, user by user, what was at the end of the log. */
  lemma {:induction false} WaveAdds(log: seq<Mark>, own: int, mm: map<int, Message>, uids: set<int>, k: Kind)
    requires uids <= mm.Keys && WaveOf(mm, k)
    ensures LastWave(log + Asks(own, InOrder(mm, uids)), k) ==
              LastWave(log, k) + Restrict(mm, uids)
    decreases |uids|
  {
    if uids == {} {
      assert log + Asks(own, []) == log;
      NoneOf(LastWave(log, k), mm);
    } else {
      var l := Least(uids);
      SendNext(log, own, mm, uids);
      LastWaveGrows(log, mm[l], Route(own, l));
      WaveAdds(log + [Asked(mm[l], Route(own, l))], own, mm, uids - {l}, k);
      OneOf(LastWave(log, k), mm, uids, l);
    }
  }

  lemma LastWaveGrows(log: seq<Mark>, m: Message, route: int)
    ensures LastWave(log + [Asked(m, route)], KindOf(m)) == LastWave(log, KindOf(m))[m.to := m]
  {
    assert (log + [Asked(m, route)])[..|log|] == log;
  }

  lemma NoneOf(base: map<int, Message>, mm: map<int, Message>)
    ensures base + Restrict(mm, {}) == base
  {
  }

  lemma OneOf(base: map<int, Message>, mm: map<int, Message>, uids: set<int>, l: int)
    requires uids <= mm.Keys && l in uids
    ensures base[l := mm[l]] + Restrict(mm, uids - {l}) == base + Restrict(mm, uids)
  {
  }

  lemma {:induction false} WaveEndsAsked(log: seq<Mark>, own: int, mm: map<int, Message>, uids: set<int>, k: Kind)
    requires uids != {} && uids <= mm.Keys && WaveOf(mm, k)
    ensures var all := log + Asks(own, InOrder(mm, uids));
            all != [] && all[|all| - 1].Asked? && KindOf(all[|all| - 1].m) == k
    decreases |uids|
  {
    var l := Least(uids);
    SendNext(log, own, mm, uids);
    if uids - {l} == {} {
      assert InOrder(mm, {}) == [];
    } else {
      WaveEndsAsked(log + [Asked(mm[l], Route(own, l))], own, mm, uids - {l}, k);
    }
  }

  /** The log once a wave has been sent, if there is something to send and something to send it through. */
  ghost function AfterWave(log: seq<Mark>, own: int, mm: map<int, Message>, open: bool): seq<Mark> {
    if open && mm != map[] then log + Asks(own, InOrder(mm, mm.Keys)) else log
  }

  /** The messages for all but `todo` have been sent. */
  ghost predicate SentBut(log: seq<Mark>, was: seq<Mark>, own: int, mm: map<int, Message>, todo: set<int>, open: bool)
    requires todo <= mm.Keys
  {
    if open then log + Asks(own, InOrder(mm, todo)) == was + Asks(own, InOrder(mm, mm.Keys)) else log == was
  }

  lemma SentNext(log: seq<Mark>, was: seq<Mark>, own: int, mm: map<int, Message>, todo: set<int>, open: bool)
    requires todo != {} && todo <= mm.Keys && SentBut(log, was, own, mm, todo, open)
    ensures var m := mm[Least(todo)]; var log' := if open then log + [Asked(m, Route(own, m.to))] else log;
            SentBut(log', was, own, mm, todo - {Least(todo)}, open)
  {
    SendNext(log, own, mm, todo);
  }

  lemma SentAll(log: seq<Mark>, was: seq<Mark>, own: int, mm: map<int, Message>, open: bool)
    requires SentBut(log, was, own, mm, {}, open)
    ensures log == AfterWave(was, own, mm, open)
  {
    NoKeys(mm);
    assert log + Asks(own, []) == log && was + Asks(own, []) == was;
  }

  /** After a wave, the messages not yet answered are those of the wave. */
  lemma WaveSent(log: seq<Mark>, own: int, mm: map<int, Message>, k: Kind)
    requires Quiet(log) && mm != map[] && WaveOf(mm, k)
    ensures var all := log + Asks(own, InOrder(mm, mm.Keys));
            Unanswered(all, k) == mm && forall j :: j != k ==> Unanswered(all, j) == map[]
  {
    NoKeys(mm);
    WaveAdds(log, own, mm, mm.Keys, k);
    WaveEndsAsked(log, own, mm, mm.Keys, k);
    assert LastWave(log, k) == map[];
    assert Restrict(mm, mm.Keys) == mm;
  }

  // ---- what a wave says ----

  /** One message per user, in ascending order of users, to everyone in `users` and no one else, each routed by its
      user, or by `own` where the user is -1. */
  ghost predicate OneEach(wave: seq<Mark>, own: int, users: set<int>) {
    && |wave| == |users|
    && (forall i :: 0 <= i < |wave| ==>
          wave[i].Asked? && wave[i].m.to in users && wave[i].route == if wave[i].m.to == -1 then own else wave[i].m.to)
    && (forall i, j :: 0 <= i < j < |wave| ==> wave[i].m.to < wave[j].m.to)
    && (forall uid :: uid in users ==> exists i :: 0 <= i < |wave| && wave[i].m.to == uid)
  }

  /** Every user is asked once, for the keys listed for that user. */
  ghost predicate AsksEach(wave: seq<Mark>, own: int, lists: map<int, seq<int>>) {
    && OneEach(wave, own, lists.Keys)
    && forall i :: 0 <= i < |wave| ==> wave[i].m.GetRequest? && wave[i].m.keys == lists[wave[i].m.to]
  }

  /** Every user is told once, the updates staged for that user. */
  ghost predicate TellsEach(wave: seq<Mark>, own: int, updates: map<int, seq<Update>>) {
    && OneEach(wave, own, updates.Keys)
    && forall i :: 0 <= i < |wave| ==> wave[i].m.UpdateRequest? && wave[i].m.updates == updates[wave[i].m.to]
  }

  lemma WaveShape(own: int, mm: map<int, Message>, k: Kind)
    requires WaveOf(mm, k)
    ensures var wave := Asks(own, InOrder(mm, mm.Keys));
            && OneEach(wave, own, mm.Keys)
            && forall i :: 0 <= i < |wave| ==> wave[i].m == mm[wave[i].m.to]
  {
    var wave, uids := Asks(own, InOrder(mm, mm.Keys)), Ascending(mm.Keys);
    forall i | 0 <= i < |wave|
      ensures wave[i] == Asked(mm[uids[i]], Route(own, uids[i])) && uids[i] in mm
    {
      OnePerUser(mm, mm.Keys, i);
    }
    forall i, j | 0 <= i < j < |wave|
      ensures wave[i].m.to < wave[j].m.to
    {
      AscendingSorted(mm.Keys, i, j);
    }
    forall uid | uid in mm.Keys
      ensures exists i :: 0 <= i < |wave| && wave[i].m.to == uid
    {
      AscendingCovers(mm.Keys, uid);
      var i :| 0 <= i < |uids| && uids[i] == uid;
      assert wave[i].m.to == uid;
    }
  }

  lemma FetchingAsks(own: int, lists: map<int, seq<int>>)
    ensures var mm := Fetching(lists); AsksEach(Asks(own, InOrder(mm, mm.Keys)), own, lists)
  {
    WaveShape(own, Fetching(lists), Fetch);
  }

  lemma StoringTells(own: int, updates: map<int, seq<Update>>)
    ensures var mm := Storing(updates); TellsEach(Asks(own, InOrder(mm, mm.Keys)), own, updates)
  {
    WaveShape(own, Storing(updates), Store);
  }
}
