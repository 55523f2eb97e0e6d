/** What one message does to a session under NewProcessor, case by case and from beginning to end: which handler runs,
    what is staged afterwards, what is sent, and how the session goes on. */
module WaveOutcomes {
  import opened Orders
  import opened Requests
  import opened UserData
  import opened Waves
  import R = WaveRuns

  // ---- what staging adds up to ----

  /** The updates among `calls` that are for `uid`, in order. */
  function Own(calls: seq<(int, Update)>, uid: int): seq<Update> {
    if calls == [] then [] else (if calls[0].0 == uid then [calls[0].1] else []) + Own(calls[1..], uid)
  }

  ghost predicate Called<T>(calls: seq<(int, T)>, uid: int) {
    exists i :: 0 <= i < |calls| && calls[i].0 == uid
  }

  /** `m` is `base` with every called key added for its user. */
  ghost predicate GetsStaged(m: map<int, set<int>>, base: map<int, set<int>>, calls: seq<(int, int)>) {
    && (forall uid :: uid in m <==> uid in base || Called(calls, uid))
    && (forall uid, key :: uid in m ==>
          (key in m[uid] <==> (uid in base && key in base[uid]) || (uid, key) in calls))
  }

  /** `m` is `base` with every called update behind those of its user. */
  ghost predicate UpdatesStaged(m: map<int, seq<Update>>, base: map<int, seq<Update>>, calls: seq<(int, Update)>) {
    && (forall uid :: uid in m <==> uid in base || Called(calls, uid))
    && (forall uid :: uid in m ==> m[uid] == (if uid in base then base[uid] else []) + Own(calls, uid))
  }

  lemma {:induction false} AddGetsStaged(base: map<int, set<int>>, calls: seq<(int, int)>)
    ensures GetsStaged(AddGets(base, calls), base, calls)
    decreases |calls|
  {
    if calls != [] {
      var c, rest := calls[0], calls[1..];
      AddGetsStaged(AddGet(base, c.0, c.1), rest);
      CalledUsers(calls);
      assert forall x :: x in calls <==> x == c || x in rest;
    }
  }

  /** The users called are the first and those called later. */
  lemma CalledUsers<T>(calls: seq<(int, T)>)
    requires calls != []
    ensures forall uid :: Called(calls, uid) <==> uid == calls[0].0 || Called(calls[1..], uid)
  {
    forall uid
      ensures Called(calls, uid) <==> uid == calls[0].0 || Called(calls[1..], uid)
    {
      if i :| 0 <= i < |calls| && calls[i].0 == uid {
        assert i > 0 ==> calls[1..][i - 1].0 == uid;
      }
      if i :| 0 <= i < |calls[1..]| && calls[1..][i].0 == uid {
        assert calls[i + 1].0 == uid;
      }
    }
  }

  lemma {:induction false} AddUpdatesStaged(base: map<int, seq<Update>>, calls: seq<(int, Update)>)
    ensures UpdatesStaged(AddUpdates(base, calls), base, calls)
    decreases |calls|
  {
    if calls == [] {
      assert forall uid :: uid in base ==> base[uid] + [] == base[uid];
    } else {
      var c, rest := calls[0], calls[1..];
      var next, all := AddUpdate(base, c.0, c.1), AddUpdates(base, calls);
      AddUpdatesStaged(next, rest);
      CalledUsers(calls);
      forall uid | uid in all
        ensures all[uid] == (if uid in base then base[uid] else []) + Own(calls, uid)
      {
        var b := if uid in base then base[uid] else [];
        if uid == c.0 {
          assert next[uid] + Own(rest, uid) == b + ([c.1] + Own(rest, uid));
        } else {
          assert [] + Own(rest, uid) == Own(rest, uid);
        }
      }
    }
  }

  // ---- how a session goes on ----

  /** How a message is noted in the history. */
  function Noted(e: Event): Mark {
    match e
    case GetResponse(uid, ok, _) => if ok then Answered(Fetch, uid) else Other
    case UpdateResponse(uid, ok, _) => if ok then Answered(Store, uid) else Other
    case _ => Other
  }

  predicate Ended(s': Session, log: seq<Mark>) {
    s'.released && !s'.timer && s'.log == log
  }

  /** A wave of queries for all that is staged is out, if there was a route; the session waits for it in any case. */
  ghost predicate GetsBegun(s': Session, log: seq<Mark>, timer: bool, routes: nat) {
    && !s'.released && s'.state == WAIT_GET
    && (routes == 0 ==> s'.log == log && s'.timer == timer)
    && (routes > 0 ==>
          s'.timer && log <= s'.log &&
          AsksEach(s'.log[|log|..], s'.own, map uid | uid in s'.gets :: Ascending(s'.gets[uid])))
  }

  ghost predicate UpdatesBegun(s': Session, log: seq<Mark>, timer: bool, routes: nat) {
    && !s'.released && s'.state == WAIT_UPDATE
    && (routes == 0 ==> s'.log == log && s'.timer == timer)
    && (routes > 0 ==> s'.timer && log <= s'.log && TellsEach(s'.log[|log|..], s'.own, s'.updates))
  }

  /** The session after handler `c` has reacted with `r`, where `was` is the session before the message with what the
      message itself changed: its state, maps and data. A wave can only be begun from the idle state. */
  ghost predicate Handled(s': Session, was: Session, mark: Mark, c: Callback, r: Reaction, routes: nat) {
    var log := was.log + [mark];
    && s'.own == was.own && s'.data == was.data && s'.called == was.called + [c]
    && GetsStaged(s'.gets, was.gets, r.gets) && UpdatesStaged(s'.updates, was.updates, r.updates)
    && match r.verdict
       case Done => Ended(s', log)
       case Succ => !s'.released && s'.state == was.state && s'.timer == was.timer && s'.log == log
       case Get =>
         if was.state == IDLE && s'.gets != map[] then GetsBegun(s', log, was.timer, routes) else Ended(s', log)
       case Save =>
         if was.state == IDLE && s'.updates != map[] then UpdatesBegun(s', log, was.timer, routes) else Ended(s', log)
  }

  lemma GetTurn(s: Session, routes: nat)
    requires s.state == IDLE && s.gets != map[] && !s.released
    ensures var s' := Dispatch(s, Get, routes);
            && GetsBegun(s', s.log, s.timer, routes)
            && s' == s.(state := WAIT_GET, log := s'.log, timer := s'.timer)
  {
    NoKeys(s.gets);
    NoKeys(Fetching(Listed(s.gets)));
    if routes > 0 {
      R.WaveAsksEachUserOnce(s, routes);
    }
  }

  lemma UpdateTurn(s: Session, routes: nat)
    requires s.state == IDLE && s.updates != map[] && !s.released
    ensures var s' := Dispatch(s, Save, routes);
            && UpdatesBegun(s', s.log, s.timer, routes)
            && s' == s.(state := WAIT_UPDATE, log := s'.log, timer := s'.timer)
  {
    NoKeys(s.updates);
    NoKeys(Storing(s.updates));
    if routes > 0 {
      R.WaveTellsEachUserOnce(s, routes);
    }
  }

  lemma HandlerOutcome(was: Session, mark: Mark, c: Callback, r: Reaction, routes: nat)
    requires !was.released
    ensures var (s1, v) := Call(was.(log := was.log + [mark]), c, r);
            Handled(Dispatch(s1, v, routes), was, mark, c, r, routes)
  {
    var (s1, v) := Call(was.(log := was.log + [mark]), c, r);
    AddGetsStaged(was.gets, r.gets);
    AddUpdatesStaged(was.updates, r.updates);
    if v == Get && was.state == IDLE && s1.gets != map[] {
      GetTurn(s1, routes);
    } else if v == Save && was.state == IDLE && s1.updates != map[] {
      UpdateTurn(s1, routes);
    }
  }

  // ---- the cases of a message ----

  /** A request: in whatever state the session is, a new one included, it becomes idle and the request handler runs. */
  lemma RequestOutcome(s: Session, r: Reaction, routes: nat)
    requires !s.released
    ensures Handled(Process(s, Request, r, routes), s.(state := IDLE), Other, OnRequest, r, routes)
  {
    HandlerOutcome(s.(state := IDLE), Other, OnRequest, r, routes);
  }

  predicate IsResponse(e: Event) {
    e.GetResponse? || e.UpdateResponse? || e.OtherResponse?
  }

  /** Any response in the idle state: the response handler runs. */
  lemma IdleResponseOutcome(s: Session, e: Event, r: Reaction, routes: nat)
    requires !s.released && s.state == IDLE && IsResponse(e)
    ensures Handled(Process(s, e, r, routes), s, Noted(e), OnResponse, r, routes)
  {
    HandlerOutcome(s, Noted(e), OnResponse, r, routes);
  }

  /** The session with the data of an answer merged in and its user taken off the list of those awaited. */
  function Gathered(s: Session, uid: int, d: Data): Session {
    var data := s.data[uid := Merge(if uid in s.data then s.data[uid] else EMPTY, d)];
    if s.state == WAIT_GET then s.(data := data, gets := s.gets - {uid})
    else s.(data := data, updates := s.updates - {uid})
  }

  /** A successful answer that leaves somebody awaited: no handler runs, nothing else changes. */
  lemma PartialAnswerOutcome(s: Session, e: Event, r: Reaction, routes: nat)
    requires !s.released && R.Waiting(s) && R.Answers(s, e) && e.ok
    requires var g := Gathered(s, e.uid, e.data); if s.state == WAIT_GET then g.gets != map[] else g.updates != map[]
    ensures Process(s, e, r, routes) == Gathered(s, e.uid, e.data).(log := s.log + [Noted(e)])
  {
  }

  /** A successful answer that leaves nobody awaited: the session is idle and the success handler of the wave runs. */
  lemma LastAnswerOutcome(s: Session, e: Event, r: Reaction, routes: nat)
    requires !s.released && R.Waiting(s) && R.Answers(s, e) && e.ok
    requires var g := Gathered(s, e.uid, e.data); if s.state == WAIT_GET then g.gets == map[] else g.updates == map[]
    ensures Handled(Process(s, e, r, routes), Gathered(s, e.uid, e.data).(state := IDLE), Noted(e),
                    if s.state == WAIT_GET then OnGetSucc else OnUpdateSucc, r, routes)
  {
    if s.state == WAIT_GET {
      LastGet(s, e, r, routes);
    } else {
      LastUpdate(s, e, r, routes);
    }
  }

  lemma LastGet(s: Session, e: Event, r: Reaction, routes: nat)
    requires !s.released && s.state == WAIT_GET && e.GetResponse? && e.ok && s.gets - {e.uid} == map[]
    ensures Handled(Process(s, e, r, routes), Gathered(s, e.uid, e.data).(state := IDLE), Noted(e), OnGetSucc,
                    r, routes)
  {
    HandlerOutcome(Gathered(s, e.uid, e.data).(state := IDLE), Noted(e), OnGetSucc, r, routes);
  }

  lemma LastUpdate(s: Session, e: Event, r: Reaction, routes: nat)
    requires !s.released && s.state == WAIT_UPDATE && e.UpdateResponse? && e.ok && s.updates - {e.uid} == map[]
    ensures Handled(Process(s, e, r, routes), Gathered(s, e.uid, e.data).(state := IDLE), Noted(e), OnUpdateSucc,
                    r, routes)
  {
    HandlerOutcome(Gathered(s, e.uid, e.data).(state := IDLE), Noted(e), OnUpdateSucc, r, routes);
  }

  /** A failed answer: the failure handler of the wave runs, in the waiting state; its Get or Save ends the session. */
  lemma FailureOutcome(s: Session, e: Event, r: Reaction, routes: nat)
    requires !s.released && R.Waiting(s) && R.Answers(s, e) && !e.ok
    ensures Handled(Process(s, e, r, routes), s, Other,
                    if s.state == WAIT_GET then OnGetFailed else OnUpdateFailed, r, routes)
  {
    HandlerOutcome(s, Other, if s.state == WAIT_GET then OnGetFailed else OnUpdateFailed, r, routes);
  }

  /** Anything else, a push or a response that the state does not expect, ends the session, and no handler runs. */
  lemma UnexpectedOutcome(s: Session, e: Event, r: Reaction, routes: nat)
    requires e.Push? || (IsResponse(e) && s.state != IDLE && !R.Answers(s, e))
    ensures Process(s, e, r, routes) == s.(log := s.log + [Noted(e)], timer := false, released := true)
  {
  }
}
