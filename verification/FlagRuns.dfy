/** The older barrier: what staging leaves, what a wait means, and that it opens when the newer one does. */
module FlagRuns {
  import opened Orders
  import opened Requests
  import opened Sequences
  import opened UserData
  import opened Flags
  import W = Waves
  import R = WaveRuns

  // ---- staging ----

  function KeySet(keys: seq<int>): set<int> {
    set k | k in keys
  }

  /** The elements of `ks`, each once. */
  predicate Lists(keys: seq<int>, ks: set<int>) {
    Distinct(keys) && KeySet(keys) == ks
  }

  /** Key lists without duplicates that say what a map of key sets says. */
  ghost predicate SameKeys(queries: map<int, seq<int>>, gets: map<int, set<int>>) {
    && queries.Keys == gets.Keys
    && (forall uid :: uid in gets ==> Lists(queries[uid], gets[uid]))
  }

  /** One unset flag per user with a key list. */
  ghost predicate FreshQuery(s: Session) {
    s.flags.Keys == s.queries.Keys && forall uid :: uid in s.flags ==> !s.flags[uid]
  }

  function Gets(calls: seq<(int, int)>): seq<Staging> {
    seq(|calls|, i requires 0 <= i < |calls| => StageGet(calls[i].0, calls[i].1))
  }

  lemma KeyAdded(keys: seq<int>, ks: set<int>, key: int)
    requires Lists(keys, ks)
    ensures Lists(if key in keys then keys else keys + [key], ks + {key})
  {
    assert KeySet(keys + [key]) == KeySet(keys) + {key};
  }

  lemma NoKeysListed()
    ensures Lists([], {})
  {
    assert KeySet([]) == {};
  }

  lemma SameKeysPut(queries: map<int, seq<int>>, gets: map<int, set<int>>, uid: int, keys: seq<int>, ks: set<int>)
    requires SameKeys(queries, gets) && Lists(keys, ks)
    ensures SameKeys(queries[uid := keys], gets[uid := ks])
  {
  }

  lemma SameKeysAdd(queries: map<int, seq<int>>, gets: map<int, set<int>>, uid: int, key: int)
    requires SameKeys(queries, gets)
    ensures var keys := KeysOf(queries, uid);
            SameKeys(queries[uid := if key in keys then keys else keys + [key]], W.AddGet(gets, uid, key))
  {
    var keys, ks := KeysOf(queries, uid), if uid in gets then gets[uid] else {};
    if uid !in gets {
      NoKeysListed();
    }
    KeyAdded(keys, ks, key);
    SameKeysPut(queries, gets, uid, if key in keys then keys else keys + [key], ks + {key});
  }

  lemma AddGetAgrees(s: Session, gets: map<int, set<int>>, uid: int, key: int)
    requires StagedAlike(s, gets)
    ensures var s' := AddGetData(s, uid, key); s'.state == WAIT_QUERY && StagedAlike(s', W.AddGet(gets, uid, key))
  {
    SameKeysAdd(if s.state != WAIT_QUERY then map[] else s.queries, gets, uid, key);
  }

  /** The older session has staged what `gets` has, or both are about to start. */
  ghost predicate StagedAlike(s: Session, gets: map<int, set<int>>) {
    if s.state == WAIT_QUERY then FreshQuery(s) && SameKeys(s.queries, gets) else gets == map[]
  }

  /** From an idle session, the older staging calls and the newer ones record the same keys for the same users. */
  lemma {:induction false} StagingAgrees(s: Session, gets: map<int, set<int>>, calls: seq<(int, int)>)
    requires StagedAlike(s, gets)
    ensures StagedAlike(StageAll(s, Gets(calls)), W.AddGets(gets, calls))
    ensures calls != [] ==> StageAll(s, Gets(calls)).state == WAIT_QUERY
    decreases |calls|
  {
    if calls != [] {
      AddGetAgrees(s, gets, calls[0].0, calls[0].1);
      var s1, g1 := AddGetData(s, calls[0].0, calls[0].1), W.AddGet(gets, calls[0].0, calls[0].1);
      assert Gets(calls)[1..] == Gets(calls[1..]);
      StagingAgrees(s1, g1, calls[1..]);
    }
  }

  // ---- one abstract pending set ----

  /** The users whose flag is not set. */
  function Unset(flags: map<int, bool>): set<int> {
    set uid | uid in flags && !flags[uid]
  }

  /** Both sessions are in the same phase of a wave and wait for the same users. */
  ghost predicate Alike(old_: Session, new_: W.Session) {
    && ((old_.state == WAIT_QUERY && new_.state == W.WAIT_GET) ||
        (old_.state == WAIT_UPDATE && new_.state == W.WAIT_UPDATE))
    && !old_.released && !new_.released
    && Unset(old_.flags) == R.Pending(new_) != {}
  }

  function ReplyOf(e: W.Event): Event
    requires e.GetResponse? || e.UpdateResponse?
  {
    Reply(e.uid, e.ok, e.data)
  }

  /** The success handlers: the older processor goes on with the request, or completes the update. */
  function SuccessOf(state: int): Callback {
    if state == WAIT_QUERY then OnRequest else OnCompleted
  }

  lemma FlagSet(flags: map<int, bool>, uid: int)
    ensures Unset(flags[uid := true]) == Unset(flags) - {uid}
    ensures AllReady(flags) <==> Unset(flags) == {}
  {
    HasElement(Unset(flags));
    if !AllReady(flags) {
      var u :| u in flags && !flags[u];
      assert u in Unset(flags);
    }
  }

  /** The session with an answer noted: the flag set, the data replaced or merged, the history one longer. */
  function Noted(s: Session, e: Event): Session
    requires e.Reply?
  {
    var d := if s.state == WAIT_QUERY then e.data else Merge(Known(s.data, e.uid), e.data);
    Hear(s, e).(flags := s.flags[e.uid := true], data := s.data[e.uid := d])
  }

  /** The success handler of the state, and what it does. */
  function SuccessReaction(state: int, p: Processor): Reaction {
    if state == WAIT_QUERY then p.request else p.completed
  }

  predicate Waiting(s: Session) {
    s.state == WAIT_QUERY || s.state == WAIT_UPDATE
  }

  lemma OneReply(s: Session, e: Event, p: Processor, out: Outlets)
    requires Waiting(s) && !s.released && e.Reply? && e.ok
    ensures Unset(s.flags) <= {e.uid} ==>
              React(Hear(s, e), e, p, out) ==
                Call(Noted(s, e).(state := IDLE), SuccessOf(s.state), SuccessReaction(s.state, p))
    ensures !(Unset(s.flags) <= {e.uid}) ==> Process(s, e, p, out) == Noted(s, e)
  {
    FlagSet(s.flags, e.uid);
    FlagSet(s.flags[e.uid := true], e.uid);
  }

  lemma {:induction false} StagingKeeps(s: Session, gs: seq<Staging>)
    ensures var s' := StageAll(s, gs);
            && s'.called == s.called && s'.data == s.data && s'.log == s.log && s'.timer == s.timer
            && s'.released == s.released
    decreases |gs|
  {
    if gs != [] {
      StagingKeeps(Stage(s, gs[0]), gs[1..]);
    }
  }

  /** One successful answer, given to both: either both stay in the wave and still wait for the same users, or both
      leave it with this answer and run their success handlers. */
  lemma BarriersInStep(old_: Session, new_: W.Session, e: W.Event, p: Processor, r: W.Reaction, out: Outlets,
                       routes: nat)
    requires Alike(old_, new_) && R.Answers(new_, e) && e.ok
    ensures R.Pending(new_) <= {e.uid} ==>
              && React(Hear(old_, ReplyOf(e)), ReplyOf(e), p, out).0.called == old_.called + [SuccessOf(old_.state)]
              && W.Process(new_, e, r, routes).called == new_.called + [R.SuccessOf(new_.state)]
    ensures !(R.Pending(new_) <= {e.uid}) ==>
              var old', new' := Process(old_, ReplyOf(e), p, out), W.Process(new_, e, r, routes);
              && Alike(old', new') && old'.called == old_.called && new'.called == new_.called
  {
    R.OneAnswer(new_, e, r, routes);
    FlagSet(old_.flags, e.uid);
    OneReply(old_, ReplyOf(e), p, out);
    var s1 := Noted(old_, ReplyOf(e)).(state := IDLE, called := old_.called + [SuccessOf(old_.state)]);
    StagingKeeps(s1, SuccessReaction(old_.state, p).staged);
  }

  ghost function Gather(s: Session, answers: seq<R.Answer>, p: Processor, out: Outlets): Session {
    if answers == [] then s
    else
      Process(Gather(s, answers[..|answers| - 1], p, out), ReplyOf(answers[|answers| - 1].0), p, out)
  }

  /** Over any trace of successful answers, repeated and unasked ones included: until the users asked have all
      answered, both sessions wait, for the same users, and call nothing. */
  lemma {:induction false} BarriersStayClosed(old_: Session, new_: W.Session, answers: seq<R.Answer>, p: Processor,
                                               out: Outlets, routes: nat)
    requires Alike(old_, new_) && forall a :: a in answers ==> R.Answers(new_, a.0)
    requires !(R.Pending(new_) <= R.Uids(answers))
    ensures var old', new' := Gather(old_, answers, p, out), R.Gather(new_, answers, routes);
            && Alike(old', new') && old'.state == old_.state && new'.state == new_.state
            && R.Pending(new') == R.Pending(new_) - R.Uids(answers)
            && old'.called == old_.called && new'.called == new_.called
  {
    if answers != [] {
      var init, a := answers[..|answers| - 1], answers[|answers| - 1];
      assert forall b :: b in init ==> b in answers;
      assert a in answers;
      BarriersStayClosed(old_, new_, init, p, out, routes);
      R.WaveStaysOpen(new_, answers, routes);
      BarriersInStep(Gather(old_, init, p, out), R.Gather(new_, init, routes), a.0, p, a.1, out, routes);
    }
  }

  /** ... and both open with the answer that completes the set. */
  lemma BarriersOpenTogether(old_: Session, new_: W.Session, answers: seq<R.Answer>, p: Processor, out: Outlets,
                             routes: nat)
    requires Alike(old_, new_) && forall a :: a in answers ==> R.Answers(new_, a.0)
    requires answers != [] && R.Pending(new_) <= R.Uids(answers)
    requires !(R.Pending(new_) <= R.Uids(answers[..|answers| - 1]))
    ensures var init, a := answers[..|answers| - 1], answers[|answers| - 1];
            var old', new' := Gather(old_, init, p, out), R.Gather(new_, init, routes);
            && React(Hear(old', ReplyOf(a.0)), ReplyOf(a.0), p, out).0.called == old_.called + [SuccessOf(old_.state)]
            && W.Process(new', a.0, a.1, routes).called == new_.called + [R.SuccessOf(new_.state)]
  {
    var init, a := answers[..|answers| - 1], answers[|answers| - 1];
    assert forall b :: b in init ==> b in answers;
    assert a in answers;
    BarriersStayClosed(old_, new_, init, p, out, routes);
    BarriersInStep(Gather(old_, init, p, out), R.Gather(new_, init, routes), a.0, p, a.1, out, routes);
  }

  /** The data the two keep for a query answer differ exactly when something was known of the user that the answer
      leaves out. */
  lemma QueryDataAgrees(data: map<int, Data>, e: W.Event)
    requires e.GetResponse?
    ensures data[e.uid := e.data] == R.WithAnswer(data, e) <==>
              forall i :: 0 <= i < 5 ==> Parts(Known(data, e.uid))[i].Set? ==> Parts(e.data)[i].Set?
  {
    MergeIsReplacement(Known(data, e.uid), e.data);
    assert data[e.uid := e.data][e.uid] == e.data;
    assert R.WithAnswer(data, e)[e.uid] == Merge(Known(data, e.uid), e.data);
  }

  /** Staged alike, the two send the same wave: one message per user, in the same order, by the same routes, for the
      same keys; and then wait for the same users. */
  lemma WavesStartAlike(s: Session, n: W.Session, p: Processor, out: Outlets, routes: nat)
    requires s.state == WAIT_QUERY && !s.released && StagedAlike(s, n.gets) && out.route && s.own == n.own
    requires n.state == W.IDLE && !n.released && n.gets != map[] && routes > 0
    ensures var s', n' := ProcessQueryUserData(s, p, out).0, W.OnGetData(n, routes).0;
            Alike(s', n') && s.log <= s'.log && n.log <= n'.log &&
            SameWave(s'.log[|s.log|..], n'.log[|n.log|..])
  {
    NoneSet(s.flags);
    NoKeys(s.flags);
    NoKeys(n.gets);
    var a, b := Fetching(s.queries), Fetching(W.Listed(n.gets));
    NoKeys(a);
    NoKeys(b);
    var s', n' := ProcessQueryUserData(s, p, out).0, W.OnGetData(n, routes).0;
    assert s'.log[|s.log|..] == Asks(s.own, InOrder(a, a.Keys));
    assert n'.log[|n.log|..] == Asks(s.own, InOrder(b, b.Keys));
    SameAsks(s.own, s.queries, n.gets);
  }

  function Puts(calls: seq<(int, Update)>): seq<Staging> {
    seq(|calls|, i requires 0 <= i < |calls| => StageUpdate(calls[i].0, [calls[i].1]))
  }

  /** The older session has staged the updates `m` has, or both are about to start. */
  predicate UpdatesAlike(s: Session, m: map<int, seq<Update>>) {
    if s.state == WAIT_REQUEST_UPDATE then UpdatesStaged(s) && s.updates == m else m == map[]
  }

  lemma AddUpdateAgrees(s: Session, m: map<int, seq<Update>>, uid: int, u: Update)
    requires UpdatesAlike(s, m)
    ensures var s' := AddUpdateData(s, uid, [u]);
            s'.state == WAIT_REQUEST_UPDATE && UpdatesAlike(s', W.AddUpdate(m, uid, u))
  {
    FlagUnset(if s.state == WAIT_REQUEST_UPDATE then s.flags else map[], uid);
    assert uid in AddUpdateData(s, uid, [u]).flags;
  }

  /** Updates staged one by one are the same in both, for the same users in the same order. */
  lemma {:induction false} UpdateStagingAgrees(s: Session, m: map<int, seq<Update>>, calls: seq<(int, Update)>)
    requires UpdatesAlike(s, m)
    ensures UpdatesAlike(StageAll(s, Puts(calls)), W.AddUpdates(m, calls))
    ensures calls != [] ==> StageAll(s, Puts(calls)).state == WAIT_REQUEST_UPDATE
    decreases |calls|
  {
    if calls != [] {
      AddUpdateAgrees(s, m, calls[0].0, calls[0].1);
      assert Puts(calls)[1..] == Puts(calls[1..]);
      var s1, m1 := AddUpdateData(s, calls[0].0, [calls[0].1]), W.AddUpdate(m, calls[0].0, calls[0].1);
      UpdateStagingAgrees(s1, m1, calls[1..]);
    }
  }

  /** In the update phase the waves are the same message for message. */
  lemma UpdatesStartAlike(s: Session, n: W.Session, p: Processor, out: Outlets, routes: nat)
    requires s.state == WAIT_REQUEST_UPDATE && !s.released && UpdatesAlike(s, n.updates) && out.handler
    requires n.state == W.IDLE && !n.released && routes > 0 && s.own == n.own
    ensures var s', n' := ProcessUpdateUserData(s, p, out).0, W.OnUpdateData(n, routes).0;
            Alike(s', n') && s.log <= s'.log && n.log <= n'.log && s'.log[|s.log|..] == n'.log[|n.log|..] != []
  {
    NoKeys(s.flags);
    NoKeys(s.updates);
    var mm := Storing(s.updates);
    NoKeys(mm);
    var asks := Asks(s.own, InOrder(mm, mm.Keys));
    var s', n' := ProcessUpdateUserData(s, p, out).0, W.OnUpdateData(n, routes).0;
    assert s'.log == s.log + asks && n'.log == n.log + asks;
  }

  lemma SameAsks(own: int, queries: map<int, seq<int>>, gets: map<int, set<int>>)
    requires SameKeys(queries, gets)
    ensures var a, b := Fetching(queries), Fetching(W.Listed(gets));
            SameWave(Asks(own, InOrder(a, a.Keys)), Asks(own, InOrder(b, b.Keys)))
  {
    var a, b := Fetching(queries), Fetching(W.Listed(gets));
    var x, y := Asks(own, InOrder(a, a.Keys)), Asks(own, InOrder(b, b.Keys));
    forall i | 0 <= i < |x|
      ensures SameAsk(x[i], y[i])
    {
      OnePerUser(a, a.Keys, i);
      OnePerUser(b, a.Keys, i);
      var uid := Ascending(a.Keys)[i];
      assert x[i].m == a[uid] && y[i].m == b[uid] && Lists(queries[uid], gets[uid]);
    }
  }

  /** The older wave lists, without duplicates, the keys that the newer one lists in ascending order. */
  ghost predicate SameWave(a: seq<Mark>, b: seq<Mark>) {
    |a| == |b| && forall i :: 0 <= i < |a| ==> SameAsk(a[i], b[i])
  }

  ghost predicate SameAsk(a: Mark, b: Mark) {
    && a.Asked? && b.Asked? && a.route == b.route
    && a.m.GetRequest? && b.m.GetRequest? && a.m.to == b.m.to
    && Distinct(a.m.keys) && b.m.keys == Ascending(KeySet(a.m.keys))
  }

  lemma NoneSet(flags: map<int, bool>)
    requires forall uid :: uid in flags ==> !flags[uid]
    ensures Unset(flags) == flags.Keys
  {
    assert forall uid :: uid in Unset(flags) <==> uid in flags.Keys;
  }

  // ---- when a wait is justified ----

  /** The requests whose answers the session waits for, by its flags. */
  ghost function Wanted(s: Session): map<int, Message> {
    Restrict(if s.state == WAIT_QUERY then Fetching(s.queries) else Storing(s.updates), Unset(s.flags))
  }

  /** By the history, nobody asked in the last wave has still to answer. */
  predicate NobodyOwes(log: seq<Mark>) {
    Unanswered(log, Fetch) == map[] && Unanswered(log, Store) == map[]
  }

  /** The unset flags are exactly those of the users asked in the last wave and not heard since, each for what is
      staged for it, and the timer is there to end the wait; a session that does not wait is owed no answer, and no
      updates are left staged and unsent. */
  ghost predicate Justified(s: Session) {
    s.released ||
    (&& (s.state == IDLE || Waiting(s))
     && Unanswered(s.log, Fetch) == (if s.state == WAIT_QUERY then Wanted(s) else map[])
     && Unanswered(s.log, Store) == (if s.state == WAIT_UPDATE then Wanted(s) else map[])
     && (Waiting(s) ==> s.timer && Unset(s.flags) != {} && Unset(s.flags) == Wanted(s).Keys))
  }

  // ---- staging a round ----

  predicate QueriesStaged(s: Session) {
    s.state == WAIT_QUERY ==> s.flags != map[] && Unset(s.flags) == s.flags.Keys == s.queries.Keys
  }

  predicate UpdatesStaged(s: Session) {
    s.state == WAIT_REQUEST_UPDATE ==> s.flags != map[] && Unset(s.flags) == s.flags.Keys == s.updates.Keys
  }

  /** The state that staging ends in. */
  function Ends(state: int, gs: seq<Staging>): int {
    if gs == [] then state else if gs[|gs| - 1].StageGet? then WAIT_QUERY else WAIT_REQUEST_UPDATE
  }

  lemma StageKeepsRound(s: Session, g: Staging)
    requires QueriesStaged(s) && UpdatesStaged(s)
    ensures var s' := Stage(s, g); QueriesStaged(s') && UpdatesStaged(s') && s'.state == Ends(s.state, [g])
  {
    var s' := Stage(s, g);
    assert g.uid in s'.flags;
    FlagUnset(if s'.state == s.state then s.flags else map[], g.uid);
  }

  lemma FlagUnset(flags: map<int, bool>, uid: int)
    ensures Unset(flags[uid := false]) == Unset(flags) + {uid}
  {
  }

  lemma {:induction false} StageAllKeepsRound(s: Session, gs: seq<Staging>)
    requires QueriesStaged(s) && UpdatesStaged(s)
    ensures var s' := StageAll(s, gs);
            QueriesStaged(s') && UpdatesStaged(s') && s'.state == Ends(s.state, gs)
    decreases |gs|
  {
    if gs != [] {
      StageKeepsRound(s, gs[0]);
      StageAllKeepsRound(Stage(s, gs[0]), gs[1..]);
    }
  }

  // ---- sending a round ----

  lemma RoundSent(log: seq<Mark>, own: int, mm: map<int, Message>, k: Kind, open: bool)
    requires Quiet(log) && NobodyOwes(log) && mm != map[] && WaveOf(mm, k)
    ensures var after := AfterWave(log, own, mm, open);
            Unanswered(after, k) == (if open then mm else map[]) && forall j :: j != k ==> Unanswered(after, j) == map[]
  {
    WaveSent(log, own, mm, k);
  }

  lemma WholeRound(m: map<int, Message>, users: set<int>)
    requires users == m.Keys
    ensures Restrict(m, users) == m
  {
  }

  /** A staged query round becomes a justified wait exactly when there is a route to send it through. */
  lemma QueryNeedsRoute(s: Session, p: Processor, out: Outlets)
    requires s.state == WAIT_QUERY && QueriesStaged(s) && !s.released && Quiet(s.log) && NobodyOwes(s.log)
    ensures var (s', r) := ProcessQueryUserData(s, p, out);
            r == Succ && s'.state == WAIT_QUERY && (Justified(s') <==> out.route)
  {
    var mm := Fetching(s.queries);
    NoKeys(mm);
    NoKeys(s.flags);
    WholeRound(mm, Unset(s.flags));
    RoundSent(s.log, s.own, mm, Fetch, out.route);
  }

  /** A staged update round becomes a justified wait exactly when the connection it came by is there. */
  lemma UpdateNeedsHandler(s: Session, p: Processor, out: Outlets)
    requires s.state == WAIT_REQUEST_UPDATE && UpdatesStaged(s) && !s.released && Quiet(s.log) && NobodyOwes(s.log)
    ensures var s' := ProcessUpdateUserData(s, p, out).0; s'.state == WAIT_UPDATE && (Justified(s') <==> out.handler)
  {
    var mm := Storing(s.updates);
    NoKeys(mm);
    NoKeys(s.flags);
    WholeRound(mm, Unset(s.flags));
    RoundSent(s.log, s.own, mm, Store, out.handler);
  }

  /** With the connection there, the same also in the middle of a wave, whose missing answers are given up. */
  lemma UpdateSent(s: Session, p: Processor, out: Outlets)
    requires s.state == WAIT_REQUEST_UPDATE && UpdatesStaged(s) && !s.released && Quiet(s.log) && out.handler
    ensures Justified(ProcessUpdateUserData(s, p, out).0)
  {
    var mm := Storing(s.updates);
    NoKeys(mm);
    NoKeys(s.flags);
    WholeRound(mm, Unset(s.flags));
    WaveSent(s.log, s.own, mm, Store);
  }

  // ---- handlers ----

  /** What a handler whose queries nobody sends may end on: it ends the session, or stages nothing, or ends on updates
      that can be sent. */
  predicate Good(end: int, r: Result, out: Outlets) {
    r != Succ || end == IDLE || (end == WAIT_REQUEST_UPDATE && out.handler)
  }

  /** For every call of a handler with nobody owing an answer: what follows is justified exactly when the handler ends
      well. In particular a query staged there is never sent. */
  lemma HandlerJustified(s: Session, c: Callback, r: Reaction, p: Processor, out: Outlets)
    requires s.state == IDLE || s.state == WAIT_QUERY || s.state == WAIT_REQUEST_UPDATE
    requires QueriesStaged(s) && UpdatesStaged(s) && !s.released && Quiet(s.log) && NobodyOwes(s.log)
    ensures var (s', v) := Call(s, c, r); Justified(Finish(s', v, p, out)) <==> Good(Ends(s.state, r.staged), v, out)
  {
    var s1 := s.(called := s.called + [c]);
    StagingKeeps(s1, r.staged);
    StageAllKeepsRound(s1, r.staged);
    var s' := StageAll(s1, r.staged);
    if r.result == Succ && s'.state == WAIT_REQUEST_UPDATE {
      UpdateNeedsHandler(s', p, out);
    } else if r.result == Succ && s'.state == WAIT_QUERY {
      UnsentQuery(s');
    }
  }

  lemma UnsentQuery(s: Session)
    requires s.state == WAIT_QUERY && !s.released && NobodyOwes(s.log)
    ensures !Justified(s)
  {
  }

  // ---- one message ----

  /** The exact condition for the message to leave the session justified, read off the state and what the processor
      does. */
  predicate StepInOrder(s: Session, e: Event, p: Processor, out: Outlets) {
    match e
    case Request =>
      var before := Ends(if p.reset then IDLE else s.state, p.preStaged);
      && (p.pre == PreReady ==> Good(Ends(before, p.request.staged), p.request.result, out))
      && (p.pre == PreQuery && before == WAIT_QUERY ==> out.route)
    case Reply(uid, ok, _) =>
      if s.state == IDLE then
        var end := Ends(IDLE, p.response.staged);
        Good(end, p.response.result, out) || (end == WAIT_QUERY && out.route)
      else
        var r := SuccessReaction(s.state, p);
        ok && Unset(s.flags) <= {uid} ==> Good(Ends(IDLE, r.staged), r.result, out)
    case Push => p.push.result != Succ || p.push.staged == [] || Good(Ends(s.state, p.push.staged), Succ, out)
  }

  predicate OnlyUpdates(gs: seq<Staging>) {
    forall g <- gs :: g.StageUpdate?
  }

  /** A request finds the session idle, and a push in the middle of a wave stages at most updates, and those only where
      they can be sent. */
  predicate Expected(s: Session, e: Event, p: Processor, out: Outlets) {
    && (e.Request? ==> s.state == IDLE)
    && (e.Push? && Waiting(s) ==> OnlyUpdates(p.push.staged) && (p.push.staged == [] || out.handler))
  }

  lemma HeardJustified(s: Session, e: Event)
    requires Justified(s) && !s.released
    ensures Quiet(Hear(s, e).log)
    ensures s.state == IDLE ==> NobodyOwes(Hear(s, e).log)
    ensures !(e.Reply? && e.ok) ==> Justified(Hear(s, e))
  {
    Heard(s.log, MarkOf(s.state, e), Fetch);
    Heard(s.log, MarkOf(s.state, e), Store);
  }

  lemma RequestStep(s: Session, p: Processor, out: Outlets)
    requires Justified(s) && !s.released && s.state == IDLE
    ensures Justified(Process(s, Request, p, out)) <==> StepInOrder(s, Request, p, out)
  {
    HeardJustified(s, Request);
    var s1 := Hear(s, Request).(called := s.called + [OnPre]);
    var s2 := StageAll(s1, p.preStaged);
    StagingKeeps(s1, p.preStaged);
    StageAllKeepsRound(s1, p.preStaged);
    assert s1 == Hear(s, Request).(called := s.called + [OnPre], state := if p.reset then IDLE else s.state);
    if p.pre == PreReady {
      HandlerJustified(s2, OnRequest, p.request, p, out);
    } else if p.pre == PreQuery && s2.state == WAIT_QUERY {
      QueryNeedsRoute(s2, p, out);
      var (s3, r) := ProcessQueryUserData(s2, p, out);
      assert Process(s, Request, p, out) == Finish(s3, r, p, out);
    }
  }

  /** An answer noted in the middle of a wave. */
  lemma NotedWanted(s: Session, e: Event)
    requires Justified(s) && !s.released && Waiting(s) && e.Reply? && e.ok
    ensures var s' := Noted(s, e);
            && Unset(s'.flags) == Unset(s.flags) - {e.uid} && Wanted(s') == Wanted(s) - {e.uid}
            && Unanswered(s'.log, if s.state == WAIT_QUERY then Fetch else Store) == Wanted(s')
            && Unanswered(s'.log, if s.state == WAIT_QUERY then Store else Fetch) == map[]
  {
    FlagSet(s.flags, e.uid);
    Heard(s.log, MarkOf(s.state, e), Fetch);
    Heard(s.log, MarkOf(s.state, e), Store);
    RestrictLess(if s.state == WAIT_QUERY then Fetching(s.queries) else Storing(s.updates), Unset(s.flags), e.uid);
  }

  lemma RestrictLess(m: map<int, Message>, users: set<int>, uid: int)
    ensures Restrict(m, users - {uid}) == Restrict(m, users) - {uid}
  {
  }

  lemma IdleReplyStep(s: Session, e: Event, p: Processor, out: Outlets)
    requires Justified(s) && !s.released && s.state == IDLE && e.Reply?
    ensures Justified(Process(s, e, p, out)) <==> StepInOrder(s, e, p, out)
  {
    HeardJustified(s, e);
    var h := Hear(s, e);
    var (s1, r) := Call(h, OnResponse, p.response);
    StagingKeeps(h.(called := h.called + [OnResponse]), p.response.staged);
    StageAllKeepsRound(h.(called := h.called + [OnResponse]), p.response.staged);
    if r == Succ && s1.state == WAIT_QUERY {
      QueryNeedsRoute(s1, p, out);
      var (s2, r2) := ProcessQueryUserData(s1, p, out);
      assert Process(s, e, p, out) == Finish(s2, r2, p, out);
    } else {
      HandlerJustified(h, OnResponse, p.response, p, out);
      assert Process(s, e, p, out) == Finish(s1, r, p, out);
    }
  }

  lemma WaveReplyStep(s: Session, e: Event, p: Processor, out: Outlets)
    requires Justified(s) && !s.released && Waiting(s) && e.Reply?
    ensures Justified(Process(s, e, p, out)) <==> StepInOrder(s, e, p, out)
  {
    if e.ok {
      OneReply(s, e, p, out);
      NotedWanted(s, e);
      if Unset(s.flags) <= {e.uid} {
        WaveOver(s, e);
        HandlerJustified(Noted(s, e).(state := IDLE), SuccessOf(s.state), SuccessReaction(s.state, p), p, out);
      } else {
        WaveGoesOn(s, e);
      }
    }
  }

  lemma WaveGoesOn(s: Session, e: Event)
    requires Justified(s) && !s.released && Waiting(s) && e.Reply? && e.ok && !(Unset(s.flags) <= {e.uid})
    ensures Justified(Noted(s, e))
  {
    NotedWanted(s, e);
  }

  lemma WaveOver(s: Session, e: Event)
    requires Justified(s) && !s.released && Waiting(s) && e.Reply? && e.ok && Unset(s.flags) <= {e.uid}
    ensures NobodyOwes(Noted(s, e).log) && Quiet(Noted(s, e).log)
  {
    NotedWanted(s, e);
    Heard(s.log, MarkOf(s.state, e), Fetch);
    NoKeys(Wanted(Noted(s, e)));
  }

  lemma PushStep(s: Session, p: Processor, out: Outlets)
    requires Justified(s) && !s.released && Expected(s, Push, p, out)
    ensures Justified(Process(s, Push, p, out)) <==> StepInOrder(s, Push, p, out)
  {
    HeardJustified(s, Push);
    var h := Hear(s, Push);
    var (s1, r) := Call(h, OnPush, p.push);
    assert Process(s, Push, p, out) == Finish(s1, r, p, out);
    if s.state == IDLE {
      HandlerJustified(h, OnPush, p.push, p, out);
    } else if p.push.staged != [] && r == Succ {
      assert p.push.staged[|p.push.staged| - 1] in p.push.staged;
      StagingKeeps(h.(called := h.called + [OnPush]), p.push.staged);
      FromWave(h.(called := h.called + [OnPush]), p.push.staged);
      UpdateSent(s1, p, out);
    }
  }

  /** Updates staged in the middle of a wave start a round of their own. */
  lemma FromWave(s: Session, gs: seq<Staging>)
    requires Waiting(s) && gs != [] && OnlyUpdates(gs)
    ensures var s' := StageAll(s, gs); s'.state == WAIT_REQUEST_UPDATE && UpdatesStaged(s')
  {
    assert gs[0] in gs && gs[|gs| - 1] in gs;
    var s1 := Stage(s, gs[0]);
    FlagUnset(map[], gs[0].uid);
    assert gs[0].uid in s1.flags;
    StageAllKeepsRound(s1, gs[1..]);
  }

  /** One message, on any session whose waiting is justified: afterwards it is justified exactly when the step is in
      order. */
  lemma ProcessJustified(s: Session, e: Event, p: Processor, out: Outlets)
    requires Justified(s) && !s.released && Expected(s, e, p, out)
    ensures Justified(Process(s, e, p, out)) <==> StepInOrder(s, e, p, out)
  {
    match e {
      case Request => RequestStep(s, p, out);
      case Reply(_, _, _) =>
        if s.state == IDLE {
          IdleReplyStep(s, e, p, out);
        } else {
          WaveReplyStep(s, e, p, out);
        }
      case Push => PushStep(s, p, out);
    }
  }

  /** The request handler on an idle session, whatever pre-processing has staged: justified exactly when the handler
      does not leave a query staged, and updates only with the connection there. */
  lemma QueryFromRequestHandler(s: Session, p: Processor, out: Outlets)
    requires Justified(s) && !s.released && s.state == IDLE && p.pre == PreReady
    ensures Justified(Process(s, Request, p, out)) <==>
              Good(Ends(Ends(IDLE, p.preStaged), p.request.staged), p.request.result, out)
  {
    RequestStep(s, p, out);
  }

  /** The request handler behind a query wave, called by the answer that completes it: a further query is not sent. */
  lemma QueryAfterWave(s: Session, e: Event, p: Processor, out: Outlets)
    requires Justified(s) && !s.released && s.state == WAIT_QUERY && e.Reply? && e.ok && Unset(s.flags) <= {e.uid}
    ensures Justified(Process(s, e, p, out)) <==> Good(Ends(IDLE, p.request.staged), p.request.result, out)
  {
    WaveReplyStep(s, e, p, out);
  }

  // ---- runs ----

  function NewSession(own: int): Session {
    Session(IDLE, own, map[], map[], map[], map[], false, false, [], [])
  }

  /** A message arrives, or the session timer fires, which releases the session. */
  datatype Input = Arrive(e: Event, p: Processor, out: Outlets) | Fire

  ghost function Step(s: Session, i: Input): Session {
    if s.released then s
    else match i
      case Arrive(e, p, out) => Process(s, e, p, out)
      case Fire => if s.timer then s.(released := true) else s
  }

  ghost function Run(s: Session, inputs: seq<Input>): Session {
    if inputs == [] then s else Step(Run(s, inputs[..|inputs| - 1]), inputs[|inputs| - 1])
  }

  predicate InputExpected(s: Session, i: Input) {
    s.released || i.Fire? || Expected(s, i.e, i.p, i.out)
  }

  predicate InputInOrder(s: Session, i: Input) {
    s.released || i.Fire? || StepInOrder(s, i.e, i.p, i.out)
  }

  /** Every message of the run was expected and in order when it arrived. */
  ghost predicate RunInOrder(s: Session, inputs: seq<Input>) {
    inputs == [] ||
    var before, i := Run(s, inputs[..|inputs| - 1]), inputs[|inputs| - 1];
    RunInOrder(s, inputs[..|inputs| - 1]) && InputExpected(before, i) && InputInOrder(before, i)
  }

  lemma StepJustified(s: Session, i: Input)
    requires Justified(s) && InputExpected(s, i)
    ensures Justified(Step(s, i)) <==> InputInOrder(s, i)
  {
    if !s.released && i.Arrive? {
      ProcessJustified(s, i.e, i.p, i.out);
    }
  }

  /** In every run in order, from a new session, every wait is justified ... */
  lemma {:induction false} RunJustified(own: int, inputs: seq<Input>)
    requires RunInOrder(NewSession(own), inputs)
    ensures Justified(Run(NewSession(own), inputs))
  {
    if inputs == [] {
      assert Unanswered([], Fetch) == map[] && Unanswered([], Store) == map[];
    } else {
      RunJustified(own, inputs[..|inputs| - 1]);
      StepJustified(Run(NewSession(own), inputs[..|inputs| - 1]), inputs[|inputs| - 1]);
    }
  }

  /** ... and the first expected message that is not in order leaves one that is not. */
  lemma FirstMisstep(own: int, inputs: seq<Input>, i: Input)
    requires RunInOrder(NewSession(own), inputs)
    requires var s := Run(NewSession(own), inputs); InputExpected(s, i) && !InputInOrder(s, i)
    ensures !Justified(Run(NewSession(own), inputs + [i]))
  {
    RunJustified(own, inputs);
    assert (inputs + [i])[..|inputs|] == inputs;
    StepJustified(Run(NewSession(own), inputs), i);
  }

  /** Handlers that keep to their phase: only pre-processing that answers "query", and the response handler, stage
      queries. */
  predicate Disciplined(p: Processor) {
    && (p.pre == PreReady ==> OnlyUpdates(p.preStaged))
    && OnlyUpdates(p.request.staged) && OnlyUpdates(p.completed.staged) && OnlyUpdates(p.push.staged)
  }

  lemma UpdatesEnd(state: int, gs: seq<Staging>)
    requires OnlyUpdates(gs)
    ensures Ends(state, gs) == if gs == [] then state else WAIT_REQUEST_UPDATE
  {
    assert gs != [] ==> gs[|gs| - 1] in gs;
  }

  /** With disciplined handlers and both ways out open, every message is in order. */
  lemma DisciplinedInOrder(s: Session, e: Event, p: Processor, out: Outlets)
    requires Disciplined(p) && out.route && out.handler && (e.Request? ==> s.state == IDLE)
    ensures Expected(s, e, p, out) && StepInOrder(s, e, p, out)
  {
    if p.pre == PreReady {
      UpdatesEnd(IDLE, p.preStaged);
      UpdatesEnd(s.state, p.preStaged);
      UpdatesEnd(Ends(if p.reset then IDLE else s.state, p.preStaged), p.request.staged);
    }
    UpdatesEnd(IDLE, p.request.staged);
    UpdatesEnd(IDLE, p.completed.staged);
    UpdatesEnd(s.state, p.push.staged);
  }
}
