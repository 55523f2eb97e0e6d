/** What every run of a session keeps, and how a wave ends. */
module WaveRuns {
  import opened Orders
  import opened Requests
  import opened UserData
  import opened Waves

  // ---- the invariant of waiting ----

  predicate Waiting(s: Session) {
    s.state == WAIT_GET || s.state == WAIT_UPDATE
  }

  function Pending(s: Session): set<int> {
    if s.state == WAIT_GET then s.gets.Keys else s.updates.Keys
  }

  function Awaited(state: int): Kind {
    if state == WAIT_GET then Fetch else Store
  }

  /** The requests whose answers the session waits for, by its map. */
  ghost function Wanted(s: Session): (mm: map<int, Message>)
    ensures mm.Keys == Pending(s)
  {
    if s.state == WAIT_GET then Fetching(Listed(s.gets)) else Storing(s.updates)
  }

  /** A session that waits has something to wait for: its map holds exactly the requests that, by the history, were
      sent in the last wave and have not been answered since, and the timer is there to end the wait. */
  ghost predicate WaitJustified(s: Session) {
    Waiting(s) && !s.released ==>
      Wanted(s) != map[] && Unanswered(s.log, Awaited(s.state)) == Wanted(s) && s.timer
  }

  lemma GetWave(s: Session)
    ensures var mm := Fetching(Listed(s.gets)); WaveOf(mm, Fetch) && (mm == map[] <==> s.gets == map[])
  {
    NoKeys(s.gets);
    NoKeys(Fetching(Listed(s.gets)));
  }

  lemma UpdateWave(s: Session)
    ensures var mm := Storing(s.updates); WaveOf(mm, Store) && (mm == map[] <==> s.updates == map[])
  {
    NoKeys(s.updates);
    NoKeys(Storing(s.updates));
  }

  /** The wave `mm` is out and not answered, under a timer, when it has been sent or still was. */
  lemma Sent(s: Session, mm: map<int, Message>, k: Kind, routes: nat)
    requires Quiet(s.log) && mm != map[] && WaveOf(mm, k)
    ensures var s' := SendWave(s, mm, routes);
            && s'.data == s.data && s'.called == s.called && s'.released == s.released && s'.gets == s.gets
            && s'.updates == s.updates
            && (Unanswered(s'.log, k) == mm && s'.timer <==> routes > 0 || (s.timer && Unanswered(s.log, k) == mm))
  {
    WaveSent(s.log, s.own, mm, k);
  }

  lemma GetTurn(s: Session, routes: nat)
    requires s.state == IDLE && !s.released && Quiet(s.log) && s.gets != map[]
    ensures var s' := OnGetData(s, routes).0;
            WaitJustified(s') <==> routes > 0 || (s.timer && Unanswered(s.log, Fetch) == Fetching(Listed(s.gets)))
  {
    GetWave(s);
    Sent(s, Fetching(Listed(s.gets)), Fetch, routes);
  }

  lemma UpdateTurn(s: Session, routes: nat)
    requires s.state == IDLE && !s.released && Quiet(s.log) && s.updates != map[]
    ensures var s' := OnUpdateData(s, routes).0;
            WaitJustified(s') <==> routes > 0 || (s.timer && Unanswered(s.log, Store) == Storing(s.updates))
  {
    UpdateWave(s);
    Sent(s, Storing(s.updates), Store, routes);
  }

  /** If the handler asks for a wave that can be begun, there is a route to send it through, or these very requests are
      still out, under a timer, from a wave that a new request cut short. */
  ghost predicate CanSend(s: Session, v: Verdict, routes: nat) {
    && (v == Get && s.state == IDLE && s.gets != map[] ==>
          routes > 0 || (s.timer && Unanswered(s.log, Fetch) == Fetching(Listed(s.gets))))
    && (v == Save && s.state == IDLE && s.updates != map[] ==>
          routes > 0 || (s.timer && Unanswered(s.log, Store) == Storing(s.updates)))
  }

  lemma DispatchJustified(s: Session, v: Verdict, routes: nat)
    requires !s.released && Quiet(s.log)
    ensures WaitJustified(Dispatch(s, v, routes)) <==> (v == Succ ==> WaitJustified(s)) && CanSend(s, v, routes)
  {
    if v == Get && s.state == IDLE && s.gets != map[] {
      GetTurn(s, routes);
    } else if v == Save && s.state == IDLE && s.updates != map[] {
      UpdateTurn(s, routes);
    }
  }

  /** Taking a user out of the map takes that user's request out of those wanted. */
  lemma WantedWithout(s: Session, uid: int)
    ensures Fetching(Listed(s.gets - {uid})) == Fetching(Listed(s.gets)) - {uid}
    ensures Storing(s.updates - {uid}) == Storing(s.updates) - {uid}
  {
  }

  lemma {:induction false} AddGetsGrows(m: map<int, set<int>>, calls: seq<(int, int)>, uid: int, key: int)
    requires uid in m && key in m[uid]
    ensures uid in AddGets(m, calls) && key in AddGets(m, calls)[uid]
    decreases |calls|
  {
    if calls != [] {
      AddGetsGrows(AddGet(m, calls[0].0, calls[0].1), calls[1..], uid, key);
    }
  }

  predicate Listing(m: map<int, set<int>>, call: (int, int)) {
    call.0 in m && call.1 in m[call.0]
  }

  lemma {:induction false} AddGetsSame(m: map<int, set<int>>, calls: seq<(int, int)>)
    ensures AddGets(m, calls) == m <==> forall c <- calls :: Listing(m, c)
    decreases |calls|
  {
    if calls != [] {
      var m1 := AddGet(m, calls[0].0, calls[0].1);
      AddGetsGrows(m1, calls[1..], calls[0].0, calls[0].1);
      if Listing(m, calls[0]) {
        assert m[calls[0].0] + {calls[0].1} == m[calls[0].0];
        assert m1 == m;
        AddGetsSame(m, calls[1..]);
        assert forall c <- calls :: c == calls[0] || c in calls[1..];
      }
    }
  }

  lemma {:induction false} AddUpdatesGrows(m: map<int, seq<Update>>, calls: seq<(int, Update)>, uid: int)
    requires uid in m
    ensures uid in AddUpdates(m, calls) && |m[uid]| <= |AddUpdates(m, calls)[uid]|
    decreases |calls|
  {
    if calls != [] {
      AddUpdatesGrows(AddUpdate(m, calls[0].0, calls[0].1), calls[1..], uid);
    }
  }

  lemma AddUpdatesSame(m: map<int, seq<Update>>, calls: seq<(int, Update)>)
    ensures AddUpdates(m, calls) == m <==> calls == []
  {
    if calls != [] {
      AddUpdatesGrows(AddUpdate(m, calls[0].0, calls[0].1), calls[1..], calls[0].0);
    }
  }

  /** Different maps ask for different messages. */
  lemma FetchingInjective(a: map<int, set<int>>, b: map<int, set<int>>)
    requires Fetching(Listed(a)) == Fetching(Listed(b))
    ensures a == b
  {
    assert a.Keys == Fetching(Listed(a)).Keys == b.Keys;
    forall uid | uid in a
      ensures a[uid] == b[uid]
    {
      assert Fetching(Listed(a))[uid] == Fetching(Listed(b))[uid];
      AscendingInjective(a[uid], b[uid]);
    }
  }

  lemma StoringInjective(a: map<int, seq<Update>>, b: map<int, seq<Update>>)
    requires Storing(a) == Storing(b)
    ensures a == b
  {
    assert a.Keys == Storing(a).Keys == b.Keys;
    forall uid | uid in a
      ensures a[uid] == b[uid]
    {
      assert Storing(a)[uid] == Storing(b)[uid];
    }
  }

  /** A failure handler that keeps the wave alive adds nothing to what is awaited. */
  predicate NothingNew(s: Session, r: Reaction) {
    if s.state == WAIT_GET then forall c <- r.gets :: Listing(s.gets, c) else r.updates == []
  }

  predicate FailureKept(s: Session, e: Event, r: Reaction) {
    Waiting(s) && Answers(s, e) && !e.ok && r.verdict == Succ
  }

  lemma FailureJustified(s: Session, e: Event, r: Reaction)
    requires WaitJustified(s) && !s.released && FailureKept(s, e, r)
    ensures var (s', v) := React(Hear(s, e), e, r);
            s'.log == Hear(s, e).log && !s'.released && v == Succ && (WaitJustified(s') <==> NothingNew(s, r))
  {
    var s' := React(Hear(s, e), e, r).0;
    Heard(s.log, MarkOf(e), Awaited(s.state));
    NoKeys(Wanted(s'));
    if s.state == WAIT_GET {
      AddGetsSame(s.gets, r.gets);
      if Wanted(s') == Wanted(s) {
        FetchingInjective(s'.gets, s.gets);
      }
    } else {
      AddUpdatesSame(s.updates, r.updates);
      if Wanted(s') == Wanted(s) {
        StoringInjective(s'.updates, s.updates);
      }
    }
  }

  lemma CloserJustified(s: Session, e: Event)
    requires WaitJustified(s) && !s.released && Waiting(s) && Answers(s, e) && e.ok && !(Pending(s) <= {e.uid})
    ensures WaitJustified(Closer(s, e))
  {
    Heard(s.log, MarkOf(e), Awaited(s.state));
    WantedWithout(s, e.uid);
    assert Pending(Closer(s, e)) == Pending(s) - {e.uid};
    NoKeys(Wanted(Closer(s, e)));
  }

  lemma AnswerJustified(s: Session, e: Event, r: Reaction)
    requires WaitJustified(s) && !s.released && Waiting(s) && Answers(s, e) && e.ok
    ensures var (s', v) := React(Hear(s, e), e, r); s'.log == Hear(s, e).log && !s'.released && WaitJustified(s')
  {
    if s.state == WAIT_GET {
      OneGetAnswer(s, e, r, 0);
    } else {
      OneUpdateAnswer(s, e, r, 0);
    }
    if !(Pending(s) <= {e.uid}) {
      CloserJustified(s, e);
    }
  }

  /** Any other message lets the session go on only where it does not wait. */
  lemma OtherMessage(s: Session, e: Event, r: Reaction)
    requires !s.released && !FailureKept(s, e, r) && !(Waiting(s) && Answers(s, e) && e.ok)
    ensures var (s', v) := React(Hear(s, e), e, r);
            s'.log == Hear(s, e).log && !s'.released && (v == Succ ==> !Waiting(s'))
  {
  }

  lemma ReactJustified(s: Session, e: Event, r: Reaction)
    requires WaitJustified(s) && !s.released
    ensures var (s', v) := React(Hear(s, e), e, r);
            && Quiet(s'.log) && !s'.released && (FailureKept(s, e, r) ==> v == Succ)
            && (v == Succ ==> (WaitJustified(s') <==> (FailureKept(s, e, r) ==> NothingNew(s, r))))
  {
    Heard(s.log, MarkOf(e), Fetch);
    if FailureKept(s, e, r) {
      FailureJustified(s, e, r);
    } else if Waiting(s) && Answers(s, e) && e.ok {
      AnswerJustified(s, e, r);
    } else {
      OtherMessage(s, e, r);
    }
  }

  /** The exact condition for the message to leave every wait justified, read off the session as the handler leaves it
      and off what the handler stages. */
  ghost predicate StepInOrder(s: Session, e: Event, r: Reaction, routes: nat) {
    var (s', v) := React(Hear(s, e), e, r);
    CanSend(s', v, routes) && (FailureKept(s, e, r) ==> NothingNew(s, r))
  }

  lemma ProcessJustified(s: Session, e: Event, r: Reaction, routes: nat)
    requires WaitJustified(s) && !s.released
    ensures WaitJustified(Process(s, e, r, routes)) <==> StepInOrder(s, e, r, routes)
  {
    ReactJustified(s, e, r);
    var (s', v) := React(Hear(s, e), e, r);
    StepJoined(s', v, routes, FailureKept(s, e, r) ==> NothingNew(s, r));
  }

  lemma StepJoined(s: Session, v: Verdict, routes: nat, kept: bool)
    requires !s.released && Quiet(s.log) && (v == Succ ==> (WaitJustified(s) <==> kept)) && (!kept ==> v == Succ)
    ensures WaitJustified(Dispatch(s, v, routes)) <==> CanSend(s, v, routes) && kept
  {
    DispatchJustified(s, v, routes);
  }

  /** The processor stages data only when it goes on to ask for it to be sent. */
  predicate Proper(r: Reaction) {
    r.verdict == Get || r.verdict == Save || (r.gets == [] && r.updates == [])
  }

  /** With such processors and a route, every message is in order. */
  lemma ProperInOrder(s: Session, e: Event, r: Reaction, routes: nat)
    requires Proper(r) && routes > 0
    ensures StepInOrder(s, e, r, routes)
  {
  }

  /** A message arrives, or the session timer fires, which releases the session. */
  datatype Input = Arrive(e: Event, r: Reaction, routes: nat) | Fire

  function NewSession(own: int): Session {
    Session(0, own, map[], map[], map[], false, false, [], [])
  }

  ghost function Step(s: Session, i: Input): Session {
    if s.released then s
    else match i
      case Arrive(e, r, routes) => Process(s, e, r, routes)
      case Fire => if s.timer then s.(released := true) else s
  }

  ghost function Run(s: Session, inputs: seq<Input>): Session {
    if inputs == [] then s else Step(Run(s, inputs[..|inputs| - 1]), inputs[|inputs| - 1])
  }

  ghost predicate InputInOrder(s: Session, i: Input) {
    s.released || i.Fire? || StepInOrder(s, i.e, i.r, i.routes)
  }

  /** Every message of the run was in order when it arrived. */
  ghost predicate RunInOrder(s: Session, inputs: seq<Input>) {
    inputs == [] ||
    (RunInOrder(s, inputs[..|inputs| - 1]) && InputInOrder(Run(s, inputs[..|inputs| - 1]), inputs[|inputs| - 1]))
  }

  lemma StepJustified(s: Session, i: Input)
    requires WaitJustified(s)
    ensures WaitJustified(Step(s, i)) <==> InputInOrder(s, i)
  {
    if !s.released && i.Arrive? {
      ProcessJustified(s, i.e, i.r, i.routes);
    }
  }

  /** In every run in order, whatever answers come and in whatever order, a waiting session's wait is justified ... */
  lemma {:induction false} RunJustified(own: int, inputs: seq<Input>)
    requires RunInOrder(NewSession(own), inputs)
    ensures WaitJustified(Run(NewSession(own), inputs))
  {
    if inputs != [] {
      RunJustified(own, inputs[..|inputs| - 1]);
      StepJustified(Run(NewSession(own), inputs[..|inputs| - 1]), inputs[|inputs| - 1]);
    }
  }

  /** ... and the first message that is not in order leaves one that is not. */
  lemma FirstMisstep(own: int, inputs: seq<Input>, i: Input)
    requires RunInOrder(NewSession(own), inputs) && !InputInOrder(Run(NewSession(own), inputs), i)
    ensures !WaitJustified(Run(NewSession(own), inputs + [i]))
  {
    RunJustified(own, inputs);
    assert (inputs + [i])[..|inputs|] == inputs;
    StepJustified(Run(NewSession(own), inputs), i);
  }

  /** With proper processors and a route for every message, every run is in order. */
  lemma {:induction false} ProperRunInOrder(s: Session, inputs: seq<Input>)
    requires forall i <- inputs :: i.Arrive? ==> Proper(i.r) && i.routes > 0
    ensures RunInOrder(s, inputs)
  {
    if inputs != [] {
      var init, i := inputs[..|inputs| - 1], inputs[|inputs| - 1];
      assert forall j :: j in init ==> j in inputs;
      assert i in inputs;
      ProperRunInOrder(s, init);
      if i.Arrive? {
        ProperInOrder(Run(s, init), i.e, i.r, i.routes);
      }
    }
  }

  /** Without a route the session waits all the same, for requests that were not sent. The wait that follows is
      justified exactly when there was a route, or when these very requests are still out, under a timer, from a wave
      that a new request cut short. */
  lemma WaveNeedsRoute(s: Session, routes: nat)
    requires s.state == IDLE && !s.released && Quiet(s.log)
    ensures s.gets != map[] ==>
              (WaitJustified(OnGetData(s, routes).0) <==>
                 routes > 0 || (s.timer && Unanswered(s.log, Fetch) == Fetching(Listed(s.gets))))
    ensures s.updates != map[] ==>
              (WaitJustified(OnUpdateData(s, routes).0) <==>
                 routes > 0 || (s.timer && Unanswered(s.log, Store) == Storing(s.updates)))
  {
    if s.gets != map[] {
      GetTurn(s, routes);
    }
    if s.updates != map[] {
      UpdateTurn(s, routes);
    }
  }

  /** A failed wave is not restarted: nothing more is sent in answer to the failure, and the session lives on only if
      the failure handler says so. */
  lemma FailureSendsNothing(s: Session, e: Event, r: Reaction, routes: nat)
    requires Waiting(s) && !s.released && Answers(s, e) && !e.ok
    ensures var s' := Process(s, e, r, routes);
            s'.log == s.log + [Other] && s'.state == s.state && (s'.released <==> r.verdict != Succ)
  {
  }

  // ---- what is sent ----

  /** A get wave asks every staged user once, for the staged keys in ascending order. */
  lemma WaveAsksEachUserOnce(s: Session, routes: nat)
    requires s.state == IDLE && s.gets != map[] && routes > 0
    ensures var log := OnGetData(s, routes).0.log;
            s.log <= log && AsksEach(log[|s.log|..], s.own, map uid | uid in s.gets :: Ascending(s.gets[uid]))
  {
    var mm := Fetching(Listed(s.gets));
    NoKeys(s.gets);
    NoKeys(mm);
    assert OnGetData(s, routes).0.log[|s.log|..] == Asks(s.own, InOrder(mm, mm.Keys));
    FetchingAsks(s.own, Listed(s.gets));
  }

  /** An update wave tells every staged user once, what is staged. */
  lemma WaveTellsEachUserOnce(s: Session, routes: nat)
    requires s.state == IDLE && s.updates != map[] && routes > 0
    ensures var log := OnUpdateData(s, routes).0.log;
            s.log <= log && TellsEach(log[|s.log|..], s.own, s.updates)
  {
    var mm := Storing(s.updates);
    NoKeys(s.updates);
    NoKeys(mm);
    assert OnUpdateData(s, routes).0.log[|s.log|..] == Asks(s.own, InOrder(mm, mm.Keys));
    StoringTells(s.own, s.updates);
  }

  // ---- gathering ----

  predicate Answers(s: Session, e: Event) {
    (s.state == WAIT_GET && e.GetResponse?) || (s.state == WAIT_UPDATE && e.UpdateResponse?)
  }

  function SuccessOf(state: int): Callback {
    if state == WAIT_GET then OnGetSucc else OnUpdateSucc
  }

  function WithAnswer(data: map<int, Data>, e: Event): map<int, Data>
    requires e.GetResponse? || e.UpdateResponse?
  {
    data[e.uid := Merge(Known(data, e.uid), e.data)]
  }

  /** What is left when a user has answered and others have not. */
  function Closer(s: Session, e: Event): Session
    requires Answers(s, e)
  {
    var s' := Hear(s, e).(data := WithAnswer(s.data, e));
    if s.state == WAIT_GET then s'.(gets := s.gets - {e.uid}) else s'.(updates := s.updates - {e.uid})
  }

  lemma OneGetAnswer(s: Session, e: Event, r: Reaction, routes: nat)
    requires s.state == WAIT_GET && !s.released && e.GetResponse? && e.ok
    ensures s.gets.Keys <= {e.uid} ==>
              React(Hear(s, e), e, r) == Call(Closer(s, e).(state := IDLE), OnGetSucc, r)
    ensures !(s.gets.Keys <= {e.uid}) ==>
              React(Hear(s, e), e, r) == (Closer(s, e), Succ) && Process(s, e, r, routes) == Closer(s, e)
  {
    NoKeys(s.gets - {e.uid});
    assert (s.gets - {e.uid}).Keys == s.gets.Keys - {e.uid};
  }

  lemma OneUpdateAnswer(s: Session, e: Event, r: Reaction, routes: nat)
    requires s.state == WAIT_UPDATE && !s.released && e.UpdateResponse? && e.ok
    ensures s.updates.Keys <= {e.uid} ==>
              React(Hear(s, e), e, r) == Call(Closer(s, e).(state := IDLE), OnUpdateSucc, r)
    ensures !(s.updates.Keys <= {e.uid}) ==>
              React(Hear(s, e), e, r) == (Closer(s, e), Succ) && Process(s, e, r, routes) == Closer(s, e)
  {
    NoKeys(s.updates - {e.uid});
    assert (s.updates - {e.uid}).Keys == s.updates.Keys - {e.uid};
  }

  /** Sending and ending leave the gathered data alone and call nothing. */
  lemma DispatchKeeps(s: Session, v: Verdict, routes: nat)
    ensures Dispatch(s, v, routes).data == s.data && Dispatch(s, v, routes).called == s.called
  {
  }

  /** One successful answer: its data is merged in, and the success handler runs exactly if nobody else is pending. */
  lemma OneAnswer(s: Session, e: Event, r: Reaction, routes: nat)
    requires Waiting(s) && !s.released && Answers(s, e) && e.ok
    ensures var s' := Process(s, e, r, routes);
            && s'.data == WithAnswer(s.data, e)
            && (Pending(s) <= {e.uid} ==> s'.called == s.called + [SuccessOf(s.state)])
            && (!(Pending(s) <= {e.uid}) ==> s' == Closer(s, e) && Pending(s') == Pending(s) - {e.uid})
  {
    if s.state == WAIT_GET {
      OneGetAnswer(s, e, r, routes);
    } else {
      OneUpdateAnswer(s, e, r, routes);
    }
    var (s1, v) := React(Hear(s, e), e, r);
    DispatchKeeps(s1, v, routes);
  }

  /** Answers with the reactions of the processor to them. */
  type Answer = a: (Event, Reaction) | (a.0.GetResponse? || a.0.UpdateResponse?) && a.0.ok
    witness (GetResponse(0, true, EMPTY), Reaction(Done, [], []))

  function Uids(answers: seq<Answer>): set<int> {
    if answers == [] then {} else Uids(answers[..|answers| - 1]) + {answers[|answers| - 1].0.uid}
  }

  ghost function Gather(s: Session, answers: seq<Answer>, routes: nat): Session {
    if answers == [] then s
    else
      var a := answers[|answers| - 1];
      Process(Gather(s, answers[..|answers| - 1], routes), a.0, a.1, routes)
  }

  function Marks(answers: seq<Answer>): (log: seq<Mark>)
    ensures forall i :: 0 <= i < |log| ==> !log[i].Asked?
  {
    if answers == [] then [] else Marks(answers[..|answers| - 1]) + [MarkOf(answers[|answers| - 1].0)]
  }

  function Merged(data: map<int, Data>, answers: seq<Answer>): map<int, Data> {
    if answers == [] then data else WithAnswer(Merged(data, answers[..|answers| - 1]), answers[|answers| - 1].0)
  }

  /** As long as someone asked has not answered, the wave stays open and no handler runs, whatever else arrives:
      repeated answers and answers nobody asked for included. */
  lemma {:induction false} WaveStaysOpen(s: Session, answers: seq<Answer>, routes: nat)
    requires Waiting(s) && !s.released && forall a :: a in answers ==> Answers(s, a.0)
    requires !(Pending(s) <= Uids(answers))
    ensures var s' := Gather(s, answers, routes);
            && s'.state == s.state && s'.called == s.called && !s'.released && s'.timer == s.timer
            && s'.log == s.log + Marks(answers)
            && Pending(s') == Pending(s) - Uids(answers) && s'.data == Merged(s.data, answers)
  {
    if answers != [] {
      var init, a := answers[..|answers| - 1], answers[|answers| - 1];
      assert forall b :: b in init ==> b in answers;
      assert a in answers;
      WaveStaysOpen(s, init, routes);
      OneAnswer(Gather(s, init, routes), a.0, a.1, routes);
      assert s.log + Marks(answers) == s.log + Marks(init) + [MarkOf(a.0)];
    }
  }

  /** The answer that completes the set of users asked runs the success handler, once, on the merged data. */
  lemma WaveCompletes(s: Session, answers: seq<Answer>, routes: nat)
    requires Waiting(s) && !s.released && forall a :: a in answers ==> Answers(s, a.0)
    requires answers != [] && Pending(s) <= Uids(answers) && !(Pending(s) <= Uids(answers[..|answers| - 1]))
    ensures var s' := Gather(s, answers, routes);
            s'.called == s.called + [SuccessOf(s.state)] && s'.data == Merged(s.data, answers)
  {
    var init, a := answers[..|answers| - 1], answers[|answers| - 1];
    assert forall b :: b in init ==> b in answers;
    assert a in answers;
    WaveStaysOpen(s, init, routes);
    OneAnswer(Gather(s, init, routes), a.0, a.1, routes);
  }

  /** The user's own answer, if there is one. */
  function Own(answers: seq<Answer>, uid: int): (d: Data) {
    if answers == [] then EMPTY
    else if answers[|answers| - 1].0.uid == uid then answers[|answers| - 1].0.data
    else Own(answers[..|answers| - 1], uid)
  }

  predicate OnceEach(answers: seq<Answer>) {
    answers == [] ||
    (answers[|answers| - 1].0.uid !in Uids(answers[..|answers| - 1]) && OnceEach(answers[..|answers| - 1]))
  }

  lemma {:induction false} MergedPointwise(data: map<int, Data>, answers: seq<Answer>, uid: int)
    requires OnceEach(answers)
    ensures uid in Merged(data, answers) <==> uid in data || uid in Uids(answers)
    ensures Known(Merged(data, answers), uid) == Merge(Known(data, uid), Own(answers, uid))
    ensures uid !in Uids(answers) ==> Own(answers, uid) == EMPTY
  {
    if answers != [] {
      MergedPointwise(data, answers[..|answers| - 1], uid);
      MergeIsOverlay(Known(data, uid), EMPTY, EMPTY);
    } else {
      MergeIsOverlay(Known(data, uid), EMPTY, EMPTY);
    }
  }

  lemma MergedConfluence(data: map<int, Data>, answers: seq<Answer>, others: seq<Answer>)
    requires OnceEach(answers) && OnceEach(others)
    requires Uids(answers) == Uids(others)
    requires forall uid :: uid in Uids(answers) ==> Own(answers, uid) == Own(others, uid)
    ensures Merged(data, answers) == Merged(data, others)
  {
    forall uid
      ensures uid in Merged(data, answers) <==> uid in Merged(data, others)
      ensures uid in Merged(data, answers) ==> Merged(data, answers)[uid] == Merged(data, others)[uid]
    {
      MergedPointwise(data, answers, uid);
      MergedPointwise(data, others, uid);
    }
  }

  /** One answer per user asked, in either order, from the same session: both runs gather the same data and call the
      success handler once, with the last answer. */
  lemma WaveConfluence(s: Session, answers: seq<Answer>, others: seq<Answer>, routes: nat)
    requires Waiting(s) && !s.released && Pending(s) != {}
    requires forall a :: a in answers + others ==> Answers(s, a.0)
    requires OnceEach(answers) && OnceEach(others) && Uids(answers) == Pending(s) == Uids(others)
    requires forall uid :: uid in Pending(s) ==> Own(answers, uid) == Own(others, uid)
    ensures var a, b := Gather(s, answers, routes), Gather(s, others, routes);
            && a.data == b.data && a.called == b.called == s.called + [SuccessOf(s.state)]
            && Gather(s, answers[..|answers| - 1], routes).called == s.called
            && Gather(s, others[..|others| - 1], routes).called == s.called
  {
    LastCompletes(s, answers, routes);
    LastCompletes(s, others, routes);
    MergedConfluence(s.data, answers, others);
  }

  /** With one answer per user, it is the last that completes the wave. */
  lemma LastCompletes(s: Session, answers: seq<Answer>, routes: nat)
    requires Waiting(s) && !s.released && Pending(s) != {} && forall a :: a in answers ==> Answers(s, a.0)
    requires OnceEach(answers) && Uids(answers) == Pending(s)
    ensures answers != [] && Gather(s, answers[..|answers| - 1], routes).called == s.called
    ensures var s' := Gather(s, answers, routes);
            s'.called == s.called + [SuccessOf(s.state)] && s'.data == Merged(s.data, answers)
  {
    assert answers != [];
    var init := answers[..|answers| - 1];
    assert forall b :: b in init ==> b in answers;
    assert answers[|answers| - 1].0.uid !in Uids(init);
    WaveCompletes(s, answers, routes);
    WaveStaysOpen(s, init, routes);
  }

  /** An answer repeated at once changes nothing but the history. */
  lemma RepeatedAnswer(s: Session, e: Event, r: Reaction, routes: nat)
    requires Waiting(s) && !s.released && Answers(s, e) && e.ok && !(Pending(s) <= {e.uid})
    ensures var s' := Process(s, e, r, routes); Process(s', e, r, routes) == Hear(s', e)
  {
    var s' := Process(s, e, r, routes);
    OneAnswer(s, e, r, routes);
    OneAnswer(s', e, r, routes);
    MergeIsOverlay(Known(s.data, e.uid), e.data, e.data);
    assert s'.data[e.uid := s'.data[e.uid]] == s'.data;
    assert s'.gets - {e.uid} == s'.gets || s.state == WAIT_UPDATE;
    assert s'.updates - {e.uid} == s'.updates || s.state == WAIT_GET;
  }
}
