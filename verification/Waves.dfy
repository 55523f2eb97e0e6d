/** One session under NewProcessor: requests staged per user, sent as a wave, and gathered again. */
module Waves {
  import opened Orders
  import opened Requests
  import opened UserData

  // the values of _kvdb_state
  const IDLE: int := 1
  const WAIT_GET: int := 2
  const WAIT_UPDATE: int := 3

  /** What arrives: a request, one of the two data responses, any other response, or a push. */
  datatype Event =
    | Request
    | GetResponse(uid: int, ok: bool, data: Data)
    | UpdateResponse(uid: int, ok: bool, data: Data)
    | OtherResponse
    | Push

  datatype Callback = OnRequest | OnResponse | OnGetSucc | OnGetFailed | OnUpdateSucc | OnUpdateFailed

  datatype Verdict = Done | Succ | Get | Save

  /** What the processor's virtual method does when it is called: stage data, then return a verdict. Each event calls
      at most one, so one reaction per event covers every processor. */
  datatype Reaction = Reaction(verdict: Verdict, gets: seq<(int, int)>, updates: seq<(int, Update)>)

  /** `own` is the session's own user, `log` the history of requests and answers. */
  datatype Session = Session(
    state: int,
    own: int,
    gets: map<int, set<int>>,
    updates: map<int, seq<Update>>,
    data: map<int, Data>,
    timer: bool,
    released: bool,
    log: seq<Mark>,
    called: seq<Callback>)

  // ---- staging ----

  function AddGet(m: map<int, set<int>>, uid: int, key: int): map<int, set<int>> {
    m[uid := (if uid in m then m[uid] else {}) + {key}]
  }

  function AddGets(m: map<int, set<int>>, s: seq<(int, int)>): map<int, set<int>>
    decreases |s|
  {
    if s == [] then m else AddGets(AddGet(m, s[0].0, s[0].1), s[1..])
  }

  function AddUpdate(m: map<int, seq<Update>>, uid: int, u: Update): map<int, seq<Update>> {
    m[uid := (if uid in m then m[uid] else []) + [u]]
  }

  function AddUpdates(m: map<int, seq<Update>>, s: seq<(int, Update)>): map<int, seq<Update>>
    decreases |s|
  {
    if s == [] then m else AddUpdates(AddUpdate(m, s[0].0, s[0].1), s[1..])
  }

  function Call(s: Session, c: Callback, r: Reaction): (Session, Verdict) {
    (s.(gets := AddGets(s.gets, r.gets), updates := AddUpdates(s.updates, r.updates), called := s.called + [c]),
     r.verdict)
  }

  // ---- sending ----

  /** The keys of each user as they are listed in its request. */
  ghost function Listed(m: map<int, set<int>>): (r: map<int, seq<int>>)
    ensures r.Keys == m.Keys
  {
    map uid | uid in m :: Ascending(m[uid])
  }

  /** Sends through a route picked at random; with no route nothing is sent and no timer starts. */
  ghost function SendWave(s: Session, mm: map<int, Message>, routes: nat): Session {
    s.(log := AfterWave(s.log, s.own, mm, routes > 0), timer := s.timer || (routes > 0 && mm != map[]))
  }

  ghost function OnGetData(s: Session, routes: nat): (Session, Verdict) {
    if s.state != IDLE then (s, Done)
    else if s.gets == map[] then (s, Done)
    else (SendWave(s, Fetching(Listed(s.gets)), routes).(state := WAIT_GET), Succ)
  }

  ghost function OnUpdateData(s: Session, routes: nat): (Session, Verdict) {
    if s.state != IDLE then (s, Done)
    else if s.updates == map[] then (s, Done)
    else (SendWave(s, Storing(s.updates), routes).(state := WAIT_UPDATE), Succ)
  }

  // ---- gathering ----

  function OnGetResponse(s: Session, e: Event, r: Reaction): (Session, Verdict) {
    if !e.GetResponse? then (s, Done)
    else if !e.ok then Call(s, OnGetFailed, r)
    else
      var s1 := s.(data := s.data[e.uid := Merge(Known(s.data, e.uid), e.data)], gets := s.gets - {e.uid});
      if s1.gets != map[] then (s1, Succ) else Call(s1.(state := IDLE), OnGetSucc, r)
  }

  function OnUpdateResponse(s: Session, e: Event, r: Reaction): (Session, Verdict) {
    if !e.UpdateResponse? then (s, Done)
    else if !e.ok then Call(s, OnUpdateFailed, r)
    else
      var s1 := s.(data := s.data[e.uid := Merge(Known(s.data, e.uid), e.data)], updates := s.updates - {e.uid});
      if s1.updates != map[] then (s1, Succ) else Call(s1.(state := IDLE), OnUpdateSucc, r)
  }

  // ---- Process ----

  function MarkOf(e: Event): (m: Mark)
    ensures !m.Asked?
  {
    if e.GetResponse? && e.ok then Answered(Fetch, e.uid)
    else if e.UpdateResponse? && e.ok then Answered(Store, e.uid)
    else Other
  }

  function Hear(s: Session, e: Event): Session {
    s.(log := s.log + [MarkOf(e)])
  }

  /** What the session does with a message it has heard. */
  function React(s: Session, e: Event, r: Reaction): (Session, Verdict) {
    if e.Request? then Call(s.(state := IDLE), OnRequest, r)
    else if e.Push? then (s, Done)
    else if s.state == IDLE then Call(s, OnResponse, r)
    else if s.state == WAIT_GET then OnGetResponse(s, e, r)
    else if s.state == WAIT_UPDATE then OnUpdateResponse(s, e, r)
    else (s, Done)
  }

  function EndProcess(s: Session): Session {
    s.(timer := false, released := true)
  }

  /** One turn of the dispatch loop. */
  ghost function Turn(s: Session, v: Verdict, routes: nat): (Session, Verdict) {
    if v == Get then OnGetData(s, routes) else OnUpdateData(s, routes)
  }

  ghost function Dispatch(s: Session, v: Verdict, routes: nat): Session {
    var (s1, v1) := if v == Get || v == Save then Turn(s, v, routes) else (s, v);
    if v1 == Done then EndProcess(s1) else s1
  }

  ghost function Process(s: Session, e: Event, r: Reaction, routes: nat): Session {
    var (s1, v) := React(Hear(s, e), e, r);
    Dispatch(s1, v, routes)
  }
}
