/** `SessionEvictionMiddleware` (infra/serve_http.py): per-session activity, and the eviction of the oldest
    idle session when the cap is reached. The event loop switches tasks only at awaits, so each stretch
    between two awaits is one step; the steps are methods of the class, and a machine interleaves them. */
module SessionEviction {
  import opened Options
  import opened TextOrder

  type Sid = string

  /** The two dictionaries: `_last_seen` and `_in_flight`. */
  datatype Table = Table(lastSeen: map<Sid, real>, inFlight: map<Sid, nat>)

  function Flying(t: Table, s: Sid): nat { if s in t.inFlight then t.inFlight[s] else 0 }

  function Begin(t: Table, s: Sid, now: real): Table {
    Table(t.lastSeen[s := now], t.inFlight[s := Flying(t, s) + 1])
  }

  function Finish(t: Table, s: Sid, now: real): Table {
    var remaining := (if s in t.inFlight then t.inFlight[s] else 1) as int - 1;
    Table(if s in t.lastSeen then t.lastSeen[s := now] else t.lastSeen,
          if remaining > 0 then t.inFlight[s := remaining] else t.inFlight - {s})
  }

  function Opened(t: Table, s: Sid, now: real): Table { t.(lastSeen := t.lastSeen[s := now]) }

  function Forget(t: Table, s: Sid): Table { t.(lastSeen := t.lastSeen - {s}) }

  /** When a live session was last seen; one never seen counts as seen now. */
  function Seen(t: Table, s: Sid, now: real): real { if s in t.lastSeen then t.lastSeen[s] else now }

  /** The table after the sessions no longer live are dropped and the idle unseen ones are stamped. */
  function Refresh(t: Table, live: set<Sid>, now: real): Table {
    t.(lastSeen := map s | s in live && (s in t.lastSeen || Flying(t, s) == 0) :: Seen(t, s, now))
  }

  predicate Eligible(t: Table, live: set<Sid>, now: real, minIdle: real, s: Sid) {
    s in live && Flying(t, s) == 0 && now - Seen(t, s, now) >= minIdle
  }

  /** The order of the (last seen, id) pairs. */
  predicate Before(a: real, s: Sid, b: real, r: Sid) { a < b || (a == b && Leq(s, r)) }

  /** The choice made under the lock: nothing below the cap or when no session is eligible, otherwise the
      least (last seen, id) among the eligible ones. */
  ghost predicate IsChoice(t: Table, live: set<Sid>, cap: int, minIdle: real, now: real, victim: Option<Sid>) {
    match victim
    case None => |live| < cap || forall s :: !Eligible(t, live, now, minIdle, s)
    case Some(v) =>
      && |live| >= cap && Eligible(t, live, now, minIdle, v)
      && forall s :: Eligible(t, live, now, minIdle, s) ==> Before(Seen(t, v, now), v, Seen(t, s, now), s)
  }

  /** There is one choice: of two sessions idle for as long, the one with the smaller id. */
  lemma ChoiceIsUnique(t: Table, live: set<Sid>, cap: int, minIdle: real, now: real, v: Option<Sid>, w: Option<Sid>)
    requires IsChoice(t, live, cap, minIdle, now, v) && IsChoice(t, live, cap, minIdle, now, w)
    ensures v == w
  {
    if v.Some? && w.Some? && Leq(v.value, w.value) && Leq(w.value, v.value) { LeqAntisymmetric(v.value, w.value); }
  }

  function AfterChoice(t: Table, live: set<Sid>, cap: int, now: real): Table {
    if |live| < cap then t else Refresh(t, live, now)
  }

  class Middleware {
    const maxSessions: int
    const minIdle: real
    var lastSeen: map<Sid, real>
    var inFlight: map<Sid, nat>
    var evictions: nat

    function View(): Table
      reads this
    {
      Table(lastSeen, inFlight)
    }

    constructor (maxSessions: int, minIdle: real)
      ensures View() == Table(map[], map[]) && evictions == 0
      ensures this.maxSessions == maxSessions && this.minIdle == minIdle
    {
      this.maxSessions, this.minIdle := maxSessions, minIdle;
      lastSeen, inFlight, evictions := map[], map[], 0;
    }

    /** A request that carries a session id, up to the await of the app. */
    method BeginRequest(s: Sid, now: real)
      modifies this
      ensures View() == Begin(old(View()), s, now) && evictions == old(evictions)
    {
      lastSeen := lastSeen[s := now];
      inFlight := inFlight[s := (if s in inFlight then inFlight[s] else 0) + 1];
    }

    /** Its `finally` block, after the app returned or raised. */
    method FinishRequest(s: Sid, now: real)
      modifies this
      ensures View() == Finish(old(View()), s, now) && evictions == old(evictions)
    {
      var remaining := (if s in inFlight then inFlight[s] else 1) as int - 1;
      if remaining > 0 {
        inFlight := inFlight[s := remaining];
      } else {
        inFlight := inFlight - {s};
      }
      if s in lastSeen { lastSeen := lastSeen[s := now]; }
    }

    /** observing_send on a response that opens a session. */
    method ObserveOpened(s: Sid, now: real)
      modifies this
      ensures View() == Opened(old(View()), s, now) && evictions == old(evictions)
    {
      lastSeen := lastSeen[s := now];
    }

    /** Under the lock, up to the await of the discard: who is to be evicted, if anyone. */
    method ChooseVictim(live: set<Sid>, now: real) returns (victim: Option<Sid>)
      modifies this
      ensures IsChoice(old(View()), live, maxSessions, minIdle, now, victim)
      ensures View() == AfterChoice(old(View()), live, maxSessions, now) && evictions == old(evictions)
    {
      if |live| < maxSessions { return None; }
      ghost var t := View();
      DropStale(live);
      var candidates := Candidates(live, now, t);
      if candidates == [] {
        forall s ensures !Eligible(t, live, now, minIdle, s) {
          assert (Seen(t, s, now), s) !in candidates;
        }
        return None;
      }
      var least := MinPair(candidates);
      assert least in candidates;
      forall s | Eligible(t, live, now, minIdle, s)
        ensures Before(Seen(t, least.1, now), least.1, Seen(t, s, now), s)
      {
        assert (Seen(t, s, now), s) in candidates;
      }
      victim := Some(least.1);
    }

    method DropStale(live: set<Sid>)
      modifies this`lastSeen
      ensures lastSeen == map s | s in old(lastSeen) && s in live :: old(lastSeen)[s]
    {
      var stale := set s | s in lastSeen && s !in live;
      while stale != {}
        invariant stale <= old(lastSeen).Keys - live
        invariant lastSeen == map s | s in old(lastSeen) && (s in live || s in stale) :: old(lastSeen)[s]
        decreases stale
      {
        var s :| s in stale;
        lastSeen := lastSeen - {s};
        stale := stale - {s};
      }
    }

    /** The loop over the live sessions: stamp the unseen idle ones, collect the eligible ones. */
    method Candidates(live: set<Sid>, now: real, ghost t: Table) returns (candidates: seq<(real, Sid)>)
      requires inFlight == t.inFlight && lastSeen == map s | s in t.lastSeen && s in live :: t.lastSeen[s]
      modifies this`lastSeen
      ensures lastSeen == Refresh(t, live, now).lastSeen
      ensures forall c :: c in candidates <==> Eligible(t, live, now, minIdle, c.1) && c.0 == Seen(t, c.1, now)
    {
      candidates := [];
      var todo := live;
      while todo != {}
        invariant todo <= live
        invariant lastSeen == map s | s in live && (s in t.lastSeen || (s !in todo && Flying(t, s) == 0)) :: Seen(t, s, now)
        invariant forall c :: c in candidates <==>
                    c.1 !in todo && Eligible(t, live, now, minIdle, c.1) && c.0 == Seen(t, c.1, now)
        decreases todo
      {
        var sid :| sid in todo;
        todo := todo - {sid};
        if sid in inFlight && inFlight[sid] > 0 { continue; }
        if sid !in lastSeen { lastSeen := lastSeen[sid := now]; }
        var seen := lastSeen[sid];
        assert seen == Seen(t, sid, now);
        if now - seen >= minIdle { candidates := candidates + [(seen, sid)]; }
      }
    }

    /** After the discard returned. */
    method RecordEviction(victim: Sid)
      modifies this
      ensures View() == Forget(old(View()), victim) && evictions == old(evictions) + 1
    {
      lastSeen := lastSeen - {victim};
      evictions := evictions + 1;
    }
  }

  /** min() of a list of (last seen, id) pairs. */
  function MinPair(pairs: seq<(real, Sid)>): (m: (real, Sid))
    requires pairs != []
    ensures m in pairs && forall p :: p in pairs ==> Before(m.0, m.1, p.0, p.1)
  {
    LeqReflexive(pairs[0].1);
    if |pairs| == 1 then pairs[0]
    else
      var rest := MinPair(pairs[1..]);
      var first := pairs[0];
      LeqTotal(first.1, rest.1);
      MinKeepsOrder(pairs, first, rest);
      assert pairs == [first] + pairs[1..];
      if Before(first.0, first.1, rest.0, rest.1) then first else rest
  }

  lemma MinKeepsOrder(pairs: seq<(real, Sid)>, first: (real, Sid), rest: (real, Sid))
    requires pairs != [] && first == pairs[0]
    requires forall p :: p in pairs[1..] ==> Before(rest.0, rest.1, p.0, p.1)
    ensures Before(first.0, first.1, rest.0, rest.1) ==>
              forall p :: p in pairs[1..] ==> Before(first.0, first.1, p.0, p.1)
  {
    forall p | p in pairs[1..] && Before(first.0, first.1, rest.0, rest.1)
      ensures Before(first.0, first.1, p.0, p.1)
    {
      if Leq(first.1, rest.1) && Leq(rest.1, p.1) { LeqTransitive(first.1, rest.1, p.1); }
    }
  }

  // ----- interleaving at awaits -----

  type TaskId = nat

  /** Where a request is suspended: in the app with a session id; waiting for the lock; inside the discard,
      holding the lock; or in the app without a session id. */
  datatype Task = Serving(sid: Sid) | Waiting | Discarding(victim: Sid) | Admitted

  /** A discard at the moment it starts. */
  datatype Discard = Discard(task: TaskId, victim: Sid, at: real, live: set<Sid>, table: Table,
                             tasks: map<TaskId, Task>, activity: map<Sid, real>)

  /** `live` is the SDK's session table. History: `activity`, when a session last began, ended or opened a
      request; `kept`, the sessions that since they last began or opened a request were live at every choice at
      the cap and were not discarded; `noticed`, when another session was first live at such a choice without an
      open request; and `discards`. */
  datatype World = World(table: Table, live: set<Sid>, lock: Option<TaskId>, tasks: map<TaskId, Task>,
                         used: set<TaskId>, clock: real, activity: map<Sid, real>, kept: set<Sid>,
                         noticed: map<Sid, real>, discards: seq<Discard>)

  datatype Event =
    | Arrive(id: TaskId, sid: Sid)             // a request with a session id
    | Leave(id: TaskId)                        // its finally block
    | ArrivePost(id: TaskId)                   // a POST without one: the unlocked test of the cap
    | ArriveOther(id: TaskId)                  // any other request without one
    | Choose(id: TaskId, victim: Option<Sid>)  // the lock is taken, the victim chosen, its discard started
    | Discarded(id: TaskId)
    | DiscardFailed(id: TaskId)                // logged, and the request goes on
    | Respond(id: TaskId, sid: Sid)            // a response below 400 that names a session
    | End(id: TaskId)                          // the app returned, or the request was cancelled
    | Sdk(live: set<Sid>)                      // the SDK opens or closes sessions at any time

  function Put(w: World, id: TaskId, task: Task): World {
    w.(tasks := w.tasks[id := task], used := w.used + {id})
  }

  function Drop(w: World, id: TaskId): World {
    w.(tasks := w.tasks - {id}, lock := if w.lock == Some(id) then None else w.lock)
  }

  function Touch(w: World, s: Sid, now: real): World { w.(activity := w.activity[s := now]) }

  /** The history of a choice. */
  function AtChoice(w: World, cap: int, now: real): (r: World)
    ensures r == w.(kept := r.kept, noticed := r.noticed)
  {
    if |w.live| < cap then w
    else
      var kept := w.kept * w.live;
      w.(kept := kept,
         noticed := map s | s in w.live - kept && (s in w.noticed || OpenRequests(w.tasks, s) == {}) ::
                      if s in w.noticed then w.noticed[s] else now)
  }

  function Next(w: World, cap: int, e: Event, now: real): World
    requires Enabled(w, e)
  {
    var w := w.(clock := now);
    match e
    case Arrive(id, s) => Touch(Put(w, id, Serving(s)), s, now).(table := Begin(w.table, s, now), kept := w.kept + {s}, noticed := w.noticed - {s})
    case Leave(id) =>
      var s := w.tasks[id].sid;
      Touch(Drop(w, id), s, now).(table := Finish(w.table, s, now))
    case ArrivePost(id) => Put(w, id, if |w.live| < cap then Admitted else Waiting)
    case ArriveOther(id) => Put(w, id, Admitted)
    case Choose(id, victim) =>
      var after := AtChoice(w, cap, now).(table := AfterChoice(w.table, w.live, cap, now));
      if victim == None then Put(after, id, Admitted)
      else
        Put(after, id, Discarding(victim.value)).(
          lock := Some(id),
          discards := w.discards + [Discard(id, victim.value, now, w.live, w.table, w.tasks, w.activity)])
    case Discarded(id) =>
      var v := w.tasks[id].victim;
      Put(w, id, Admitted).(table := Forget(w.table, v), kept := w.kept - {v}, noticed := w.noticed - {v}, lock := None)
    case DiscardFailed(id) => Put(w, id, Admitted).(lock := None)
    case Respond(id, s) => Touch(w, s, now).(table := Opened(w.table, s, now), kept := w.kept + {s}, noticed := w.noticed - {s})
    case End(id) => Drop(w, id)
    case Sdk(live) => w.(live := live)
  }

  predicate Enabled(w: World, e: Event) {
    match e
    case Arrive(id, _) => id !in w.used
    case ArrivePost(id) => id !in w.used
    case ArriveOther(id) => id !in w.used
    case Leave(id) => id in w.tasks && w.tasks[id].Serving?
    case Choose(id, _) => id in w.tasks && w.tasks[id].Waiting? && w.lock == None
    case Discarded(id) => id in w.tasks && w.tasks[id].Discarding?
    case DiscardFailed(id) => id in w.tasks && w.tasks[id].Discarding?
    case Respond(id, _) => id in w.tasks && w.tasks[id].Admitted?
    case End(id) => id in w.tasks && !w.tasks[id].Serving?
    case Sdk(_) => true
  }

  /** A step at a moment no earlier than the last one, with the choice the locked code makes. */
  ghost predicate Step(w: World, cap: int, minIdle: real, e: Event, now: real, w': World) {
    && w.clock <= now && Enabled(w, e) && w' == Next(w, cap, e, now)
    && (e.Choose? ==> IsChoice(w.table, w.live, cap, minIdle, now, e.victim))
  }

  const START := World(Table(map[], map[]), {}, None, map[], {}, 0.0, map[], {}, map[], [])

  /** w is reached by these events, each with the moment it happens. */
  ghost predicate Reached(w: World, events: seq<(Event, real)>, cap: int, minIdle: real)
    decreases |events|
  {
    if events == [] then w == START
    else
      var last := events[|events| - 1];
      exists v :: Reached(v, events[..|events| - 1], cap, minIdle) && Step(v, cap, minIdle, last.0, last.1, w)
  }

  // ----- what every reachable world satisfies -----

  function OpenRequests(tasks: map<TaskId, Task>, s: Sid): set<TaskId> {
    set id | id in tasks && tasks[id] == Serving(s)
  }

  ghost predicate CountsOpenRequests(table: Table, tasks: map<TaskId, Task>) {
    && (forall s :: Flying(table, s) == |OpenRequests(tasks, s)|)
    && (forall s :: s in table.inFlight ==> table.inFlight[s] > 0)
  }

  /** What `last seen` says is never earlier than the session's real last activity. */
  ghost predicate SeenCoversActivity(w: World) {
    forall s :: s in w.activity ==>
      w.activity[s] <= w.clock && (s in w.table.lastSeen ==> w.activity[s] <= w.table.lastSeen[s])
  }

  /** It says exactly that for a session that was kept, when it was noticed for any other that was, and nothing
      for the rest. */
  ghost predicate SeenIsExact(w: World) {
    && w.kept !! w.noticed.Keys && w.table.lastSeen.Keys == w.kept + w.noticed.Keys
    && (forall s :: s in w.kept ==> s in w.activity && w.table.lastSeen[s] == w.activity[s])
    && (forall s :: s in w.noticed ==> w.table.lastSeen[s] == w.noticed[s] && OpenRequests(w.tasks, s) == {})
  }

  ghost predicate LockIsExclusive(w: World) {
    forall id :: id in w.tasks && w.tasks[id].Discarding? <==> w.lock == Some(id)
  }

  /** The victim had no request open and had been idle long enough; it was the least eligible pair; and
      the table was at the cap. */
  ghost predicate Justified(d: Discard, cap: int, minIdle: real) {
    && |d.live| >= cap && d.victim in d.live
    && OpenRequests(d.tasks, d.victim) == {}
    && (d.victim in d.activity ==> d.at - d.activity[d.victim] >= minIdle)
    && IsChoice(d.table, d.live, cap, minIdle, d.at, Some(d.victim))
  }

  ghost predicate Inv(w: World, cap: int, minIdle: real) {
    && w.tasks.Keys <= w.used
    && CountsOpenRequests(w.table, w.tasks)
    && SeenCoversActivity(w)
    && SeenIsExact(w)
    && LockIsExclusive(w)
    && (forall d :: d in w.discards ==> Justified(d, cap, minIdle) && d.task in w.used)
    && (forall d :: d in w.discards && d.task in w.tasks ==> !w.tasks[d.task].Waiting?)
    && (forall i, j :: 0 <= i < j < |w.discards| ==> w.discards[i].task != w.discards[j].task)
  }

  lemma PutTask(tasks: map<TaskId, Task>, id: TaskId, task: Task, s: Sid)
    requires id in tasks ==> !tasks[id].Serving?
    ensures OpenRequests(tasks[id := task], s) == OpenRequests(tasks, s) + if task == Serving(s) then {id} else {}
    ensures id !in OpenRequests(tasks, s)
  {
  }

  lemma DropTask(tasks: map<TaskId, Task>, id: TaskId, s: Sid)
    ensures OpenRequests(tasks - {id}, s) == OpenRequests(tasks, s) - {id}
    ensures id in tasks ==> (id in OpenRequests(tasks, s) <==> tasks[id] == Serving(s))
  {
  }

  lemma ArriveKeepsCounts(t: Table, tasks: map<TaskId, Task>, id: TaskId, sid: Sid, now: real)
    requires CountsOpenRequests(t, tasks) && id !in tasks
    ensures CountsOpenRequests(Begin(t, sid, now), tasks[id := Serving(sid)])
  {
    hide OpenRequests;
    forall s ensures Flying(Begin(t, sid, now), s) == |OpenRequests(tasks[id := Serving(sid)], s)| {
      PutTask(tasks, id, Serving(sid), s);
      assert Flying(t, s) == |OpenRequests(tasks, s)|;
    }
  }

  lemma LeaveKeepsCounts(t: Table, tasks: map<TaskId, Task>, id: TaskId, sid: Sid, now: real)
    requires CountsOpenRequests(t, tasks) && id in tasks && tasks[id] == Serving(sid)
    ensures CountsOpenRequests(Finish(t, sid, now), tasks - {id})
  {
    hide OpenRequests;
    DropTask(tasks, id, sid);
    assert Flying(t, sid) == |OpenRequests(tasks, sid)|;
    assert OpenRequests(tasks, sid) == (OpenRequests(tasks, sid) - {id}) + {id};
    forall s ensures Flying(Finish(t, sid, now), s) == |OpenRequests(tasks - {id}, s)| {
      DropTask(tasks, id, s);
      assert Flying(t, s) == |OpenRequests(tasks, s)|;
      if s != sid { assert OpenRequests(tasks, s) - {id} == OpenRequests(tasks, s); }
    }
  }

  lemma OthersKeepCounts(t: Table, t': Table, tasks: map<TaskId, Task>, tasks': map<TaskId, Task>)
    requires CountsOpenRequests(t, tasks) && t'.inFlight == t.inFlight
    requires forall s :: OpenRequests(tasks', s) == OpenRequests(tasks, s)
    ensures CountsOpenRequests(t', tasks')
  {
    forall s ensures Flying(t', s) == |OpenRequests(tasks', s)| {
      assert Flying(t, s) == |OpenRequests(tasks, s)|;
    }
  }

  lemma StepKeepsCounts(w: World, cap: int, minIdle: real, e: Event, now: real, w': World)
    requires Inv(w, cap, minIdle) && Step(w, cap, minIdle, e, now, w')
    ensures CountsOpenRequests(w'.table, w'.tasks)
  {
    hide OpenRequests, IsChoice, SeenCoversActivity, SeenIsExact, LockIsExclusive, Justified, CountsOpenRequests, Begin, Finish, AtChoice;
    match e {
      case Arrive(id, sid) => ArriveKeepsCounts(w.table, w.tasks, id, sid, now);
      case Leave(id) => LeaveKeepsCounts(w.table, w.tasks, id, w.tasks[id].sid, now);
      case Respond(_, _) => OthersKeepCounts(w.table, w'.table, w.tasks, w'.tasks);
      case Sdk(_) => OthersKeepCounts(w.table, w'.table, w.tasks, w'.tasks);
      case End(id) =>
        forall s ensures OpenRequests(w'.tasks, s) == OpenRequests(w.tasks, s) { DropTask(w.tasks, id, s); }
        OthersKeepCounts(w.table, w'.table, w.tasks, w'.tasks);
      case _ =>
        forall s ensures OpenRequests(w'.tasks, s) == OpenRequests(w.tasks, s) {
          PutTask(w.tasks, e.id, w'.tasks[e.id], s);
        }
        OthersKeepCounts(w.table, w'.table, w.tasks, w'.tasks);
    }
  }

  lemma StepKeepsActivity(w: World, cap: int, minIdle: real, e: Event, now: real, w': World)
    requires SeenCoversActivity(w) && Step(w, cap, minIdle, e, now, w')
    ensures SeenCoversActivity(w')
  {
    hide AtChoice, IsChoice;
  }

  lemma StepKeepsExact(w: World, cap: int, minIdle: real, e: Event, now: real, w': World)
    requires SeenIsExact(w) && CountsOpenRequests(w.table, w.tasks) && w.tasks.Keys <= w.used
    requires Step(w, cap, minIdle, e, now, w')
    ensures SeenIsExact(w')
  {
    match e {
      case Arrive(_, _) => ArriveKeepsExact(w, cap, e, now);
      case Leave(_) => LeaveKeepsExact(w, cap, e, now);
      case Choose(_, _) => ChooseKeepsExact(w, cap, e, now);
      case _ => OthersKeepExact(w, cap, e, now);
    }
  }

  lemma ArriveKeepsExact(w: World, cap: int, e: Event, now: real)
    requires SeenIsExact(w) && w.tasks.Keys <= w.used && e.Arrive? && Enabled(w, e)
    ensures SeenIsExact(Next(w, cap, e, now))
  {
    hide OpenRequests;
    forall s { PutTask(w.tasks, e.id, Serving(e.sid), s); }
  }

  /** A session with an open request was not noticed, so it is stamped exactly if it was kept. */
  lemma LeaveKeepsExact(w: World, cap: int, e: Event, now: real)
    requires SeenIsExact(w) && e.Leave? && Enabled(w, e)
    ensures SeenIsExact(Next(w, cap, e, now))
  {
    hide OpenRequests;
    forall s { DropTask(w.tasks, e.id, s); }
  }

  /** The same entries and history stay exact while no request is opened. */
  lemma ExactAgain(w: World, w': World)
    requires SeenIsExact(w) && w'.table.lastSeen == w.table.lastSeen
    requires w'.kept == w.kept && w'.noticed == w.noticed && w'.activity == w.activity
    requires forall s :: OpenRequests(w'.tasks, s) <= OpenRequests(w.tasks, s)
    ensures SeenIsExact(w')
  {
    hide OpenRequests;
  }

  lemma ChooseKeepsExact(w: World, cap: int, e: Event, now: real)
    requires SeenIsExact(w) && CountsOpenRequests(w.table, w.tasks) && e.Choose? && Enabled(w, e)
    ensures SeenIsExact(Next(w, cap, e, now))
  {
    hide OpenRequests, CountsOpenRequests, SeenIsExact, AtChoice, AfterChoice;
    var clocked := w.(clock := now);
    var x, w' := AtChoice(clocked, cap, now).(table := AfterChoice(w.table, w.live, cap, now)), Next(w, cap, e, now);
    forall s ensures OpenRequests(w'.tasks, s) == OpenRequests(w.tasks, s) { PutTask(w.tasks, e.id, w'.tasks[e.id], s); }
    assert SeenIsExact(clocked) by { ExactAgain(w, clocked); }
    RefreshIsExact(clocked, cap, now);
    ExactAgain(x, w');
  }

  lemma RefreshIsExact(w: World, cap: int, now: real)
    requires SeenIsExact(w) && CountsOpenRequests(w.table, w.tasks)
    ensures SeenIsExact(AtChoice(w, cap, now).(table := AfterChoice(w.table, w.live, cap, now)))
  {
    hide OpenRequests, CountsOpenRequests, Flying;
    forall s ensures Flying(w.table, s) == 0 <==> OpenRequests(w.tasks, s) == {} { NoneOpen(w.table, w.tasks, s); }
  }

  lemma OthersKeepExact(w: World, cap: int, e: Event, now: real)
    requires SeenIsExact(w) && w.tasks.Keys <= w.used && Enabled(w, e) && !e.Arrive? && !e.Leave? && !e.Choose?
    ensures SeenIsExact(Next(w, cap, e, now))
  {
    hide OpenRequests, SeenIsExact;
    var w' := Next(w, cap, e, now);
    forall s ensures OpenRequests(w'.tasks, s) == OpenRequests(w.tasks, s) {
      if e.End? {
        DropTask(w.tasks, e.id, s);
      } else if !e.Respond? && !e.Sdk? {
        PutTask(w.tasks, e.id, w'.tasks[e.id], s);
      }
    }
    if e.Respond? || e.Discarded? { StampKeepsExact(w, w', e, now); } else { ExactAgain(w, w'); }
  }

  /** A session that opens is stamped, and one that was discarded is forgotten. */
  lemma StampKeepsExact(w: World, w': World, e: Event, now: real)
    requires SeenIsExact(w) && Enabled(w, e) && (e.Respond? || e.Discarded?)
    requires forall s :: OpenRequests(w'.tasks, s) == OpenRequests(w.tasks, s)
    requires e.Respond? ==>
               && w'.table.lastSeen == w.table.lastSeen[e.sid := now] && w'.activity == w.activity[e.sid := now]
               && w'.kept == w.kept + {e.sid} && w'.noticed == w.noticed - {e.sid}
    requires e.Discarded? ==> var v := w.tasks[e.id].victim;
               && w'.table.lastSeen == w.table.lastSeen - {v} && w'.activity == w.activity
               && w'.kept == w.kept - {v} && w'.noticed == w.noticed - {v}
    ensures SeenIsExact(w')
  {
    hide OpenRequests;
  }

  lemma NoneOpen(t: Table, tasks: map<TaskId, Task>, s: Sid)
    requires CountsOpenRequests(t, tasks)
    ensures Flying(t, s) == 0 <==> OpenRequests(tasks, s) == {}
  {
    hide OpenRequests;
    assert Flying(t, s) == |OpenRequests(tasks, s)|;
  }

  lemma StepKeepsLock(w: World, cap: int, minIdle: real, e: Event, now: real, w': World)
    requires LockIsExclusive(w) && w.tasks.Keys <= w.used && Step(w, cap, minIdle, e, now, w')
    ensures LockIsExclusive(w') && w'.tasks.Keys <= w'.used && w.used <= w'.used
  {
    hide AtChoice, IsChoice, Begin, Finish, Forget, AfterChoice;
  }

  /** The choice made from the table is justified by what really happened. */
  lemma ChoiceIsJustified(w: World, cap: int, minIdle: real, now: real, id: TaskId, v: Sid)
    requires CountsOpenRequests(w.table, w.tasks) && SeenCoversActivity(w)
    requires IsChoice(w.table, w.live, cap, minIdle, now, Some(v)) && w.clock <= now
    ensures Justified(Discard(id, v, now, w.live, w.table, w.tasks, w.activity), cap, minIdle)
  {
    assert Flying(w.table, v) == |OpenRequests(w.tasks, v)|;
  }

  lemma StepKeepsDiscards(w: World, cap: int, minIdle: real, e: Event, now: real, w': World)
    requires Inv(w, cap, minIdle) && Step(w, cap, minIdle, e, now, w')
    ensures forall d :: d in w'.discards ==> Justified(d, cap, minIdle) && d.task in w'.used
    ensures forall d :: d in w'.discards && d.task in w'.tasks ==> !w'.tasks[d.task].Waiting?
    ensures forall i, j :: 0 <= i < j < |w'.discards| ==> w'.discards[i].task != w'.discards[j].task
  {
    hide AtChoice, Justified, CountsOpenRequests, SeenCoversActivity, SeenIsExact, LockIsExclusive, IsChoice, Begin, Finish, Forget, AfterChoice;
    if e.Choose? && e.victim.Some? {
      ChoiceIsJustified(w, cap, minIdle, now, e.id, e.victim.value);
      assert forall i :: 0 <= i < |w.discards| ==> w.discards[i] in w.discards;
    } else {
      assert w'.discards == w.discards;
    }
  }

  lemma {:induction false} EveryWorldSatisfiesInv(w: World, events: seq<(Event, real)>, cap: int, minIdle: real)
    requires Reached(w, events, cap, minIdle)
    ensures Inv(w, cap, minIdle)
    decreases |events|
  {
    if events == [] {
      assert forall s :: OpenRequests(START.tasks, s) == {};
    } else {
      var last := events[|events| - 1];
      var v :| Reached(v, events[..|events| - 1], cap, minIdle) && Step(v, cap, minIdle, last.0, last.1, w);
      EveryWorldSatisfiesInv(v, events[..|events| - 1], cap, minIdle);
      StepKeepsCounts(v, cap, minIdle, last.0, last.1, w);
      StepKeepsActivity(v, cap, minIdle, last.0, last.1, w);
      StepKeepsExact(v, cap, minIdle, last.0, last.1, w);
      StepKeepsLock(v, cap, minIdle, last.0, last.1, w);
      StepKeepsDiscards(v, cap, minIdle, last.0, last.1, w);
    }
  }

  // ----- and sessions are evicted -----

  /** Since when the session has been idle as far as it counts: its last activity if it was kept, the choice
      that noticed it if one did, and now otherwise. */
  function IdleSince(w: World, s: Sid, now: real): real
    requires w.kept <= w.activity.Keys
  {
    if s in w.kept then w.activity[s] else if s in w.noticed then w.noticed[s] else now
  }

  /** The session is live, has no request open, and has been idle long enough. */
  predicate ReallyIdle(w: World, minIdle: real, now: real, s: Sid)
    requires w.kept <= w.activity.Keys
  {
    s in w.live && OpenRequests(w.tasks, s) == {} && now - IdleSince(w, s, now) >= minIdle
  }

  lemma IdleIsEligible(w: World, cap: int, minIdle: real, now: real, s: Sid)
    requires Inv(w, cap, minIdle)
    ensures w.kept <= w.activity.Keys && Seen(w.table, s, now) == IdleSince(w, s, now)
    ensures Eligible(w.table, w.live, now, minIdle, s) <==> ReallyIdle(w, minIdle, now, s)
  {
    hide OpenRequests, CountsOpenRequests;
    NoneOpen(w.table, w.tasks, s);
  }

  /** The choice is decided by what really happened: at the cap, the session that has been idle for longest among
      those idle long enough, and nobody when there is none. */
  lemma ChoiceIsByActivity(w: World, events: seq<(Event, real)>, cap: int, minIdle: real,
                           id: TaskId, victim: Option<Sid>, now: real, w': World)
    requires Reached(w, events, cap, minIdle) && Step(w, cap, minIdle, Choose(id, victim), now, w')
    ensures w.kept <= w.activity.Keys
    ensures victim == None <==> |w.live| < cap || forall s :: !ReallyIdle(w, minIdle, now, s)
    ensures victim.Some? ==>
              && ReallyIdle(w, minIdle, now, victim.value)
              && forall s :: ReallyIdle(w, minIdle, now, s) ==>
                   var mine, other := IdleSince(w, victim.value, now), IdleSince(w, s, now);
                   mine <= other && (mine == other ==> Leq(victim.value, s))
  {
    hide Next, Enabled, Reached, Leq, Eligible, Seen, Inv, IdleSince;
    EveryWorldSatisfiesInv(w, events, cap, minIdle);
    IdleIsEligible(w, cap, minIdle, now, "");
    forall s
      ensures Eligible(w.table, w.live, now, minIdle, s) <==> ReallyIdle(w, minIdle, now, s)
      ensures Seen(w.table, s, now) == IdleSince(w, s, now)
    {
      IdleIsEligible(w, cap, minIdle, now, s);
    }
    assert IsChoice(w.table, w.live, cap, minIdle, now, victim);
  }

  lemma Extend(v: World, events: seq<(Event, real)>, cap: int, minIdle: real, e: Event, now: real, w: World)
    requires Reached(v, events, cap, minIdle) && Step(v, cap, minIdle, e, now, w)
    ensures Reached(w, events + [(e, now)], cap, minIdle)
  {
    hide Step;
    var all := events + [(e, now)];
    assert all[..|all| - 1] == events && all[|all| - 1] == (e, now);
  }

  /** A session opens, fills the table, and stays idle. */
  lemma SessionOpens(s: Sid, minIdle: real) returns (w: World, events: seq<(Event, real)>)
    ensures Reached(w, events, 1, minIdle)
    ensures w.table == Table(map[s := 0.0], map[]) && w.live == {s} && w.clock == 0.0
    ensures w.lock == None && 1 !in w.used && w.discards == []
  {
    hide Reached, IsChoice;
    assert Reached(START, [], 1, minIdle) by { StartIsReached(1, minIdle); }
    var w1 := Next(START, 1, ArriveOther(0), 0.0);
    events := [(ArriveOther(0), 0.0)];
    Extend(START, [], 1, minIdle, ArriveOther(0), 0.0, w1);
    assert [] + [(ArriveOther(0), 0.0)] == events;
    var w2 := Next(w1, 1, Respond(0, s), 0.0);
    Extend(w1, events, 1, minIdle, Respond(0, s), 0.0, w2);
    events := events + [(Respond(0, s), 0.0)];
    w := Next(w2, 1, Sdk({s}), 0.0);
    Extend(w2, events, 1, minIdle, Sdk({s}), 0.0, w);
    events := events + [(Sdk({s}), 0.0)];
  }

  /** A run in which the cap is reached by a session that then stays idle: the next POST without a session
      starts its discard, as soon as it has been idle for exactly the minimum. */
  lemma IdleSessionIsEvicted(s: Sid, minIdle: real) returns (w: World, events: seq<(Event, real)>)
    requires minIdle >= 0.0
    ensures Reached(w, events, 1, minIdle)
    ensures |w.discards| == 1 && w.discards[0].victim == s && w.discards[0].at == minIdle
  {
    hide Reached, IsChoice;
    var idle, before := SessionOpens(s, minIdle);
    var waiting := Next(idle, 1, ArrivePost(1), minIdle);
    Extend(idle, before, 1, minIdle, ArrivePost(1), minIdle, waiting);
    OnlySessionIsChosen(waiting.table, s, minIdle);
    w := Next(waiting, 1, Choose(1, Some(s)), minIdle);
    events := before + [(ArrivePost(1), minIdle)];
    Extend(waiting, events, 1, minIdle, Choose(1, Some(s)), minIdle, w);
    events := events + [(Choose(1, Some(s)), minIdle)];
  }

  lemma StartIsReached(cap: int, minIdle: real)
    ensures Reached(START, [], cap, minIdle)
  {
  }

  lemma OnlySessionIsChosen(t: Table, s: Sid, minIdle: real)
    requires t == Table(map[s := 0.0], map[]) && minIdle >= 0.0
    ensures IsChoice(t, {s}, 1, minIdle, minIdle, Some(s))
  {
    LeqReflexive(s);
  }
}
