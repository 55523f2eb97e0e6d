/** What one message does to a session under ProcesserBasic, case by case and from beginning to end: which handlers run,
    what is staged afterwards, what is sent, and how the session goes on. */
module FlagOutcomes {
  import opened Orders
  import opened Requests
  import opened Sequences
  import opened UserData
  import opened Flags
  import R = FlagRuns

  // ---- what staging adds up to ----

  ghost predicate Mentioned(gs: seq<Staging>, uid: int) {
    exists i :: 0 <= i < |gs| && gs[i].uid == uid
  }

  /** The updates staged for `uid`, batch by batch. */
  function Batches(gs: seq<Staging>, uid: int): seq<Update> {
    if gs == [] then []
    else (if gs[0].StageUpdate? && gs[0].uid == uid then gs[0].updates else []) + Batches(gs[1..], uid)
  }

  predicate OnlyGets(gs: seq<Staging>) {
    forall g <- gs :: g.StageGet?
  }

  lemma MentionedStep(gs: seq<Staging>, uid: int)
    requires gs != []
    ensures Mentioned(gs, uid) <==> uid == gs[0].uid || Mentioned(gs[1..], uid)
  {
    if i :| 0 <= i < |gs| && gs[i].uid == uid {
      assert i > 0 ==> gs[1..][i - 1].uid == uid;
    }
    if i :| 0 <= i < |gs[1..]| && gs[1..][i].uid == uid {
      assert gs[i + 1].uid == uid;
    }
  }

  /** The flags of `base`, with those of the users mentioned unset. */
  ghost predicate FlagsStaged(flags: map<int, bool>, base: map<int, bool>, gs: seq<Staging>) {
    && (forall uid :: uid in flags <==> uid in base || Mentioned(gs, uid))
    && (forall uid :: uid in flags ==> (flags[uid] <==> !Mentioned(gs, uid) && base[uid]))
  }

  ghost predicate UpdatesStaged(m: map<int, seq<Update>>, base: map<int, seq<Update>>, gs: seq<Staging>) {
    && (forall uid :: uid in m <==> uid in base || Mentioned(gs, uid))
    && (forall uid :: uid in m ==> m[uid] == (if uid in base then base[uid] else []) + Batches(gs, uid))
  }

  /** Every key asked for is listed, behind what was listed and not a second time. */
  ghost predicate QueriesStaged(m: map<int, seq<int>>, base: map<int, seq<int>>, gs: seq<Staging>) {
    && (forall uid :: uid in m <==> uid in base || Mentioned(gs, uid))
    && (forall uid :: uid in m ==> KeysListed(m[uid], if uid in base then base[uid] else [], gs, uid))
  }

  ghost predicate KeysListed(keys: seq<int>, was: seq<int>, gs: seq<Staging>, uid: int) {
    && was <= keys && (Distinct(was) ==> Distinct(keys))
    && forall key :: key in keys <==> key in was || StageGet(uid, key) in gs
  }

  /** One key more, and then the rest. */
  lemma KeysListedStep(keys: seq<int>, was: seq<int>, gs: seq<Staging>, uid: int)
    requires gs != [] && gs[0].StageGet?
    requires var key := gs[0].key;
             KeysListed(keys, if gs[0].uid != uid || key in was then was else was + [key], gs[1..], uid)
    ensures KeysListed(keys, was, gs, uid)
  {
    var g, rest := gs[0], gs[1..];
    assert forall x :: x in gs <==> x == g || x in rest;
    assert was <= was + [g.key];
  }

  lemma {:induction false} UpdatesGoOn(s: Session, gs: seq<Staging>)
    requires s.state == WAIT_REQUEST_UPDATE && R.OnlyUpdates(gs)
    ensures var s' := StageAll(s, gs);
            && s' == s.(flags := s'.flags, updates := s'.updates)
            && FlagsStaged(s'.flags, s.flags, gs) && UpdatesStaged(s'.updates, s.updates, gs)
    decreases |gs|
  {
    if gs == [] {
      assert forall uid :: uid in s.updates ==> s.updates[uid] + [] == s.updates[uid];
    } else {
      var s1, s' := Stage(s, gs[0]), StageAll(s, gs);
      assert gs[0] in gs && forall g :: g in gs[1..] ==> g in gs;
      UpdatesGoOn(s1, gs[1..]);
      forall uid
        ensures Mentioned(gs, uid) <==> uid == gs[0].uid || Mentioned(gs[1..], uid)
        ensures uid in s'.updates ==>
                  s'.updates[uid] == (if uid in s.updates then s.updates[uid] else []) + Batches(gs, uid)
      {
        MentionedStep(gs, uid);
        var b := if uid in s.updates then s.updates[uid] else [];
        var first := if gs[0].uid == uid then gs[0].updates else [];
        Regroup(b, first, Batches(gs[1..], uid));
        assert b + [] == b;
      }
    }
  }

  /** A round of updates: the first call clears what an earlier round left, and every batch joins its user's list. */
  lemma UpdateRound(s: Session, gs: seq<Staging>)
    requires gs != [] && R.OnlyUpdates(gs)
    ensures var s', more := StageAll(s, gs), s.state == WAIT_REQUEST_UPDATE;
            && s' == s.(state := WAIT_REQUEST_UPDATE, flags := s'.flags, updates := s'.updates)
            && FlagsStaged(s'.flags, if more then s.flags else map[], gs)
            && UpdatesStaged(s'.updates, if more then s.updates else map[], gs)
  {
    assert gs[0] in gs;
    if s.state == WAIT_REQUEST_UPDATE {
      UpdatesGoOn(s, gs);
    } else {
      var clear := s.(flags := map[], updates := map[], state := WAIT_REQUEST_UPDATE);
      assert Stage(s, gs[0]) == Stage(clear, gs[0]);
      UpdatesGoOn(clear, gs);
    }
  }

  lemma {:induction false} QueriesGoOn(s: Session, gs: seq<Staging>)
    requires s.state == WAIT_QUERY && OnlyGets(gs)
    ensures var s' := StageAll(s, gs);
            && s' == s.(flags := s'.flags, queries := s'.queries)
            && FlagsStaged(s'.flags, s.flags, gs) && QueriesStaged(s'.queries, s.queries, gs)
    decreases |gs|
  {
    if gs != [] {
      var g, rest := gs[0], gs[1..];
      assert g in gs && forall x :: x in rest ==> x in gs;
      var s1, s' := Stage(s, g), StageAll(s, gs);
      QueriesGoOn(s1, rest);
      forall uid
        ensures Mentioned(gs, uid) <==> uid == g.uid || Mentioned(rest, uid)
      {
        MentionedStep(gs, uid);
      }
      forall uid | uid in s'.queries
        ensures KeysListed(s'.queries[uid], KeysOf(s.queries, uid), gs, uid)
      {
        assert KeysListed(s'.queries[uid], KeysOf(s1.queries, uid), rest, uid);
        KeysListedStep(s'.queries[uid], KeysOf(s.queries, uid), gs, uid);
      }
    }
  }

  /** A round of queries, likewise. */
  lemma QueryRound(s: Session, gs: seq<Staging>)
    requires gs != [] && OnlyGets(gs)
    ensures var s', more := StageAll(s, gs), s.state == WAIT_QUERY;
            && s' == s.(state := WAIT_QUERY, flags := s'.flags, queries := s'.queries)
            && FlagsStaged(s'.flags, if more then s.flags else map[], gs)
            && QueriesStaged(s'.queries, if more then s.queries else map[], gs)
  {
    assert gs[0] in gs;
    if s.state == WAIT_QUERY {
      QueriesGoOn(s, gs);
    } else {
      var clear := s.(flags := map[], queries := map[], state := WAIT_QUERY);
      assert Stage(s, gs[0]) == Stage(clear, gs[0]);
      QueriesGoOn(clear, gs);
    }
  }

  /** Staging in several rounds is staging one round after the other. */
  lemma {:induction false} RoundsJoin(s: Session, a: seq<Staging>, b: seq<Staging>)
    ensures StageAll(s, a + b) == StageAll(StageAll(s, a), b)
    decreases |a|
  {
    if a == [] {
      assert a + b == b;
    } else {
      assert (a + b)[1..] == a[1..] + b && (a + b)[0] == a[0];
      RoundsJoin(Stage(s, a[0]), a[1..], b);
    }
  }

  lemma LastStaged(s: Session, gs: seq<Staging>)
    requires gs != []
    ensures var s', g := StageAll(s, gs), gs[|gs| - 1];
            && g.uid in s'.flags && !s'.flags[g.uid]
            && (g.StageGet? ==> s'.state == WAIT_QUERY && g.uid in s'.queries)
            && (g.StageUpdate? ==> s'.state == WAIT_REQUEST_UPDATE && g.uid in s'.updates)
  {
    var init, g := gs[..|gs| - 1], gs[|gs| - 1];
    assert gs == init + [g];
    RoundsJoin(s, init, [g]);
    var s1 := StageAll(s, init);
    assert StageAll(s1, [g]) == StageAll(Stage(s1, g), []);
  }

  // ---- how a session goes on ----

  predicate Ended(s': Session, s: Session) {
    s' == s.(timer := false, released := true)
  }

  /** The session waits for the queries of `s`, which are out if there was a route. */
  ghost predicate QueriesOut(s': Session, s: Session, route: bool) {
    && s' == s.(log := s'.log, timer := s'.timer)
    && (!route ==> s' == s)
    && (route ==>
          && s'.timer == (s.timer || s.queries != map[])
          && s.log <= s'.log && AsksEach(s'.log[|s.log|..], s.own, s.queries))
  }

  /** The session waits for the updates of `s` to be confirmed, which are out if there was a connection. */
  ghost predicate UpdatesOut(s': Session, s: Session, handler: bool) {
    && s' == s.(state := WAIT_UPDATE, log := s'.log, timer := s'.timer)
    && (!handler ==> s'.log == s.log && s'.timer == s.timer)
    && (handler ==>
          && s'.timer == (s.timer || s.updates != map[])
          && s.log <= s'.log && TellsEach(s'.log[|s.log|..], s.own, s.updates))
  }

  /** From the session `s` as a handler with this result leaves it: anything but Succ ends it, staged updates are sent,
      and otherwise it stays as it is. */
  ghost predicate GoesOn(s': Session, s: Session, r: Result, p: Processor, out: Outlets) {
    if r == Completed || r == Failed then Ended(s', s)
    else if s.state != WAIT_REQUEST_UPDATE then s' == s
    else if s.flags != map[] then UpdatesOut(s', s, out.handler)
    else s' == StageAll(s.(called := s.called + [OnCompleted]), p.completed.staged)
  }

  /** From the session `s` with a query to be sent; with no flag to wait for, the request handler runs instead. */
  ghost predicate Queries(s': Session, s: Session, p: Processor, out: Outlets) {
    if s.flags != map[] then QueriesOut(s', s, out.route)
    else GoesOn(s', StageAll(s.(called := s.called + [OnRequest]), p.request.staged), p.request.result, p, out)
  }

  lemma SendsQueries(s: Session, open: bool)
    ensures QueriesOut(QueryUserData(s, open), s, open)
  {
    var mm := Fetching(s.queries);
    FetchingAsks(s.own, s.queries);
    NoKeys(mm);
    NoKeys(s.queries);
    if mm == map[] {
      assert Asks(s.own, InOrder(mm, mm.Keys)) == [];
    }
    assert AfterWave(s.log, s.own, mm, true)[|s.log|..] == Asks(s.own, InOrder(mm, mm.Keys));
  }

  lemma SendsUpdates(s: Session, open: bool)
    ensures UpdatesOut(UpdateUserData(s, open), s, open)
  {
    var mm := Storing(s.updates);
    StoringTells(s.own, s.updates);
    NoKeys(mm);
    NoKeys(s.updates);
    if mm == map[] {
      assert Asks(s.own, InOrder(mm, mm.Keys)) == [];
    }
    assert AfterWave(s.log, s.own, mm, true)[|s.log|..] == Asks(s.own, InOrder(mm, mm.Keys));
  }

  lemma Finishes(s: Session, r: Result, p: Processor, out: Outlets)
    ensures GoesOn(Finish(s, r, p, out), s, r, p, out)
  {
    SendsUpdates(s, out.handler);
  }

  lemma QueriesFinish(s: Session, p: Processor, out: Outlets)
    requires s.state == WAIT_QUERY
    ensures var (s1, r) := ProcessQueryUserData(s, p, out); Queries(Finish(s1, r, p, out), s, p, out)
  {
    SendsQueries(s, out.route);
    var (s1, r) := ProcessQueryUserData(s, p, out);
    Finishes(s1, r, p, out);
  }

  // ---- the cases of a message ----

  /** A request: pre-processing, and then the request handler, a query, or the end. */
  lemma RequestOutcome(s: Session, p: Processor, out: Outlets)
    ensures var s' := Process(s, Request, p, out);
            var s1 := StageAll(s.(log := s.log + [Other], called := s.called + [OnPre],
                                  state := if p.reset then IDLE else s.state), p.preStaged);
            match p.pre
            case PreDone => Ended(s', s1)
            case PreReady =>
              GoesOn(s', StageAll(s1.(called := s1.called + [OnRequest]), p.request.staged), p.request.result, p, out)
            case PreQuery => if s1.state == WAIT_QUERY then Queries(s', s1, p, out) else Ended(s', s1)
  {
    var h := Hear(s, Request);
    var s1 := StageAll(h.(called := h.called + [OnPre], state := if p.reset then IDLE else h.state), p.preStaged);
    match p.pre {
      case PreDone =>
      case PreReady =>
        var (s2, r) := Call(s1, OnRequest, p.request);
        Finishes(s2, r, p, out);
      case PreQuery =>
        if s1.state == WAIT_QUERY {
          QueriesFinish(s1, p, out);
        }
    }
  }

  /** A reply in the idle state: the response handler, and a query at once if it has staged one and goes on. */
  lemma IdleReplyOutcome(s: Session, e: Event, p: Processor, out: Outlets)
    requires s.state == IDLE && e.Reply?
    ensures var s' := Process(s, e, p, out);
            var s1 := StageAll(s.(log := s.log + [Other], called := s.called + [OnResponse]), p.response.staged);
            if p.response.result == Succ && s1.state == WAIT_QUERY then Queries(s', s1, p, out)
            else GoesOn(s', s1, p.response.result, p, out)
  {
    var (s1, r) := Call(Hear(s, e), OnResponse, p.response);
    if r == Succ && s1.state == WAIT_QUERY {
      QueriesFinish(s1, p, out);
    } else {
      Finishes(s1, r, p, out);
    }
  }

  /** A failed answer ends the session: the failure handler of the phase has run, nothing is sent, no flag is set and no
      data changed. */
  lemma FailedReplyOutcome(s: Session, e: Event, p: Processor, out: Outlets)
    requires (s.state == WAIT_QUERY || s.state == WAIT_UPDATE) && e.Reply? && !e.ok
    ensures Process(s, e, p, out) ==
              s.(log := s.log + [Other], timer := false, released := true,
                 called := s.called + [if s.state == WAIT_QUERY then OnQueryFailed else OnUpdateFailed])
  {
  }

  /** The session with an answer taken in: replaced in the query phase, merged in the update phase. */
  function Taken(s: Session, uid: int, d: Data): Session {
    var known := if uid in s.data then s.data[uid] else EMPTY;
    s.(log := s.log + [Answered(if s.state == WAIT_QUERY then Fetch else Store, uid)],
       flags := s.flags[uid := true], data := s.data[uid := if s.state == WAIT_QUERY then d else Merge(known, d)])
  }

  /** A successful answer while another user's flag is unset: it is taken in, and nothing else happens. */
  lemma PartialReplyOutcome(s: Session, e: Event, p: Processor, out: Outlets, other: int)
    requires (s.state == WAIT_QUERY || s.state == WAIT_UPDATE) && e.Reply? && e.ok
    requires other in s.flags && other != e.uid && !s.flags[other]
    ensures Process(s, e, p, out) == Taken(s, e.uid, e.data)
  {
    assert other in s.flags[e.uid := true] && !s.flags[e.uid := true][other];
  }

  /** A successful answer that sets the last flag: the session is idle, and the request handler, or the completion
      handler, runs. */
  lemma LastReplyOutcome(s: Session, e: Event, p: Processor, out: Outlets)
    requires (s.state == WAIT_QUERY || s.state == WAIT_UPDATE) && e.Reply? && e.ok
    requires forall uid :: uid in s.flags && uid != e.uid ==> s.flags[uid]
    ensures var c, r := if s.state == WAIT_QUERY then OnRequest else OnCompleted,
                        if s.state == WAIT_QUERY then p.request else p.completed;
            var t := Taken(s, e.uid, e.data);
            GoesOn(Process(s, e, p, out), StageAll(t.(state := IDLE, called := t.called + [c]), r.staged),
                   r.result, p, out)
  {
    var c, r := if s.state == WAIT_QUERY then OnRequest else OnCompleted,
                if s.state == WAIT_QUERY then p.request else p.completed;
    var (s1, v) := Call(Taken(s, e.uid, e.data).(state := IDLE), c, r);
    Finishes(s1, v, p, out);
  }

  /** A push: the push handler, in whatever state. */
  lemma PushOutcome(s: Session, p: Processor, out: Outlets)
    ensures GoesOn(Process(s, Push, p, out),
                   StageAll(s.(log := s.log + [Other], called := s.called + [OnPush]), p.push.staged),
                   p.push.result, p, out)
  {
    var (s1, r) := Call(Hear(s, Push), OnPush, p.push);
    Finishes(s1, r, p, out);
  }

  /** A reply in any other state ends the session. */
  lemma StrayReplyOutcome(s: Session, e: Event, p: Processor, out: Outlets)
    requires e.Reply? && s.state != IDLE && s.state != WAIT_QUERY && s.state != WAIT_UPDATE
    ensures Ended(Process(s, e, p, out), s.(log := s.log + [Other]))
  {
  }

  // ---- sessions that survive ----

  /** Pre-processing that ends on a query and answers so leaves the session waiting, with the queries sent. */
  lemma RequestAsks(s: Session, p: Processor, out: Outlets)
    requires !s.released && p.pre == PreQuery && out.route
    requires p.preStaged != [] && p.preStaged[|p.preStaged| - 1].StageGet?
    ensures var s' := Process(s, Request, p, out);
            && !s'.released && s'.state == WAIT_QUERY && s'.timer && s'.called == s.called + [OnPre]
            && s.log + [Other] < s'.log && AsksEach(s'.log[|s.log| + 1..], s.own, s'.queries)
            && p.preStaged[|p.preStaged| - 1].uid in s'.queries
  {
    var s0 := s.(log := s.log + [Other], called := s.called + [OnPre], state := if p.reset then IDLE else s.state);
    RequestOutcome(s, p, out);
    LastStaged(s0, p.preStaged);
    R.StagingKeeps(s0, p.preStaged);
    StagingKeepsOwner(s0, p.preStaged);
    NonEmptyWave(Process(s, Request, p, out).log[|s.log| + 1..], s.own, StageAll(s0, p.preStaged).queries.Keys,
                 p.preStaged[|p.preStaged| - 1].uid);
  }

  /** A request handler that ends on updates and goes on leaves the session waiting, with the updates sent. */
  lemma RequestTells(s: Session, p: Processor, out: Outlets)
    requires !s.released && p.pre == PreReady && p.request.result == Succ && out.handler
    requires p.request.staged != [] && p.request.staged[|p.request.staged| - 1].StageUpdate?
    ensures var s' := Process(s, Request, p, out);
            && !s'.released && s'.state == WAIT_UPDATE && s'.timer && s'.called == s.called + [OnPre, OnRequest]
            && s.log + [Other] < s'.log && TellsEach(s'.log[|s.log| + 1..], s.own, s'.updates)
            && p.request.staged[|p.request.staged| - 1].uid in s'.updates
  {
    var s0 := s.(log := s.log + [Other], called := s.called + [OnPre], state := if p.reset then IDLE else s.state);
    RequestOutcome(s, p, out);
    var s1 := StageAll(s0, p.preStaged);
    R.StagingKeeps(s0, p.preStaged);
    StagingKeepsOwner(s0, p.preStaged);
    var s2 := s1.(called := s1.called + [OnRequest]);
    LastStaged(s2, p.request.staged);
    R.StagingKeeps(s2, p.request.staged);
    StagingKeepsOwner(s2, p.request.staged);
    assert s.called + [OnPre] + [OnRequest] == s.called + [OnPre, OnRequest];
    NonEmptyWave(Process(s, Request, p, out).log[|s.log| + 1..], s.own, StageAll(s2, p.request.staged).updates.Keys,
                 p.request.staged[|p.request.staged| - 1].uid);
  }

  lemma {:induction false} StagingKeepsOwner(s: Session, gs: seq<Staging>)
    ensures StageAll(s, gs).own == s.own
    decreases |gs|
  {
    if gs != [] {
      StagingKeepsOwner(Stage(s, gs[0]), gs[1..]);
    }
  }

  lemma NonEmptyWave(wave: seq<Mark>, own: int, users: set<int>, uid: int)
    requires OneEach(wave, own, users) && uid in users
    ensures wave != []
  {
  }
}
