/** One session under ProcesserBasic: the older barrier, with a flag per user. */
module Flags {
  import opened Orders
  import opened Requests
  import opened UserData

  // the values of _kvdb_state
  const IDLE: int := 0
  const WAIT_QUERY: int := 1
  const WAIT_REQUEST_UPDATE: int := 2
  const WAIT_UPDATE: int := 3

  /** A reply is what the response accessor of the awaited kind yields. */
  datatype Event = Request | Reply(uid: int, ok: bool, data: Data) | Push

  datatype Callback = OnPre | OnRequest | OnResponse | OnQueryFailed | OnUpdateFailed | OnCompleted | OnPush

  datatype Result = Completed | Failed | Succ

  datatype PreResult = PreQuery | PreReady | PreDone

  datatype Staging = StageGet(uid: int, key: int) | StageUpdate(uid: int, updates: seq<Update>)

  datatype Reaction = Reaction(result: Result, staged: seq<Staging>)

  /** What the processor's virtual methods do. The default pre-processing also resets the state. */
  datatype Processor = Processor(pre: PreResult, reset: bool, preStaged: seq<Staging>,
                                 request: Reaction, response: Reaction, completed: Reaction, push: Reaction)

  /** What the session can send through: a route picked at random, and the connection the message came by. Queries
      take the first, updates the second. */
  datatype Outlets = Outlets(route: bool, handler: bool)

  /** `own` is the session's own user, `log` the history of requests and answers. */
  datatype Session = Session(
    state: int,
    own: int,
    flags: map<int, bool>,
    data: map<int, Data>,
    queries: map<int, seq<int>>,
    updates: map<int, seq<Update>>,
    timer: bool,
    released: bool,
    log: seq<Mark>,
    called: seq<Callback>)

  // ---- staging ----

  function KeysOf(m: map<int, seq<int>>, uid: int): seq<int> {
    if uid in m then m[uid] else []
  }

  function UpdatesOf(m: map<int, seq<Update>>, uid: int): seq<Update> {
    if uid in m then m[uid] else []
  }

  /** The first call of a round clears what an earlier round left; a key already listed is not listed again. */
  function AddGetData(s: Session, uid: int, key: int): Session {
    var s1 := if s.state != WAIT_QUERY then s.(flags := map[], queries := map[]) else s;
    var keys := KeysOf(s1.queries, uid);
    s1.(queries := s1.queries[uid := if key in keys then keys else keys + [key]],
        flags := s1.flags[uid := false], state := WAIT_QUERY)
  }

  function AddUpdateData(s: Session, uid: int, updates: seq<Update>): Session {
    var s1 := if s.state != WAIT_REQUEST_UPDATE then s.(flags := map[], updates := map[]) else s;
    s1.(updates := s1.updates[uid := UpdatesOf(s1.updates, uid) + updates],
        flags := s1.flags[uid := false], state := WAIT_REQUEST_UPDATE)
  }

  function Stage(s: Session, g: Staging): Session {
    match g
    case StageGet(uid, key) => AddGetData(s, uid, key)
    case StageUpdate(uid, updates) => AddUpdateData(s, uid, updates)
  }

  function StageAll(s: Session, gs: seq<Staging>): Session
    decreases |gs|
  {
    if gs == [] then s else StageAll(Stage(s, gs[0]), gs[1..])
  }

  function Call(s: Session, c: Callback, r: Reaction): (Session, Result) {
    (StageAll(s.(called := s.called + [c]), r.staged), r.result)
  }

  // ---- sending ----

  ghost function QueryUserData(s: Session, open: bool): Session {
    var mm := Fetching(s.queries);
    s.(log := AfterWave(s.log, s.own, mm, open), timer := s.timer || (open && mm != map[]))
  }

  ghost function UpdateUserData(s: Session, open: bool): Session {
    var mm := Storing(s.updates);
    s.(log := AfterWave(s.log, s.own, mm, open), timer := s.timer || (open && mm != map[]), state := WAIT_UPDATE)
  }

  ghost function ProcessQueryUserData(s: Session, p: Processor, out: Outlets): (Session, Result) {
    if s.state != WAIT_QUERY then (s, Failed)
    else if s.flags == map[] then Call(s, OnRequest, p.request)
    else (QueryUserData(s, out.route), Succ)
  }

  ghost function ProcessUpdateUserData(s: Session, p: Processor, out: Outlets): (Session, Result) {
    if s.state != WAIT_REQUEST_UPDATE then (s, Failed)
    else if s.flags == map[] then Call(s, OnCompleted, p.completed)
    else (UpdateUserData(s, out.handler), Succ)
  }

  // ---- gathering ----

  predicate AllReady(flags: map<int, bool>) {
    forall uid :: uid in flags ==> flags[uid]
  }

  /** The query phase replaces what was known of the user. */
  function ResponseQuery(s: Session, e: Event, p: Processor): (Session, Result)
    requires e.Reply?
  {
    if !e.ok then (s.(called := s.called + [OnQueryFailed]), Failed)
    else
      var s1 := s.(flags := s.flags[e.uid := true], data := s.data[e.uid := e.data]);
      if AllReady(s1.flags) then Call(s1.(state := IDLE), OnRequest, p.request) else (s1, Succ)
  }

  /** The update phase merges. */
  function ResponseUpdate(s: Session, e: Event, p: Processor): (Session, Result)
    requires e.Reply?
  {
    if !e.ok then (s.(called := s.called + [OnUpdateFailed]), Failed)
    else
      var s1 := s.(flags := s.flags[e.uid := true], data := s.data[e.uid := Merge(Known(s.data, e.uid), e.data)]);
      if AllReady(s1.flags) then Call(s1.(state := IDLE), OnCompleted, p.completed) else (s1, Succ)
  }

  // ---- Process ----

  /** A successful reply counts as the answer that the state is waiting for. */
  function MarkOf(state: int, e: Event): (m: Mark)
    ensures !m.Asked?
  {
    if e.Reply? && e.ok && state == WAIT_QUERY then Answered(Fetch, e.uid)
    else if e.Reply? && e.ok && state == WAIT_UPDATE then Answered(Store, e.uid)
    else Other
  }

  function Hear(s: Session, e: Event): Session {
    s.(log := s.log + [MarkOf(s.state, e)])
  }

  /** What the session does with a message it has heard. */
  ghost function React(s: Session, e: Event, p: Processor, out: Outlets): (Session, Result) {
    if e.Request? then
      var s1 := s.(called := s.called + [OnPre], state := if p.reset then IDLE else s.state);
      var s2 := StageAll(s1, p.preStaged);
      if p.pre == PreReady then Call(s2, OnRequest, p.request)
      else if p.pre == PreQuery then ProcessQueryUserData(s2, p, out)
      else (s2, Failed)
    else if e.Push? then Call(s, OnPush, p.push)
    else if s.state == IDLE then
      var (s1, r) := Call(s, OnResponse, p.response);
      if r == Succ && s1.state == WAIT_QUERY then ProcessQueryUserData(s1, p, out) else (s1, r)
    else if s.state == WAIT_QUERY then ResponseQuery(s, e, p)
    else if s.state == WAIT_UPDATE then ResponseUpdate(s, e, p)
    else (s, Failed)
  }

  /** The end of Process. The result of the final update request is not looked at. */
  ghost function Finish(s: Session, r: Result, p: Processor, out: Outlets): Session {
    if r != Succ then s.(timer := false, released := true)
    else if s.state == WAIT_REQUEST_UPDATE then ProcessUpdateUserData(s, p, out).0
    else s
  }

  ghost function Process(s: Session, e: Event, p: Processor, out: Outlets): Session {
    var (s1, r) := React(Hear(s, e), e, p, out);
    Finish(s1, r, p, out)
  }
}
