/** Put and get queries over an unreliable DHT: retries, the queue of postponed puts, and bootstrapping. */
module Dht {
  import opened Bytes
  import opened Time
  import opened Backoff

  type QueryId = nat

  datatype Payload = Payload(key: Bytes, value: Bytes)

  datatype PutQuery = PutQuery(timer: Timer, payload: Payload)

  datatype GetQuery = GetQuery(timer: Timer, key: Bytes, retryCount: u8, records: map<Bytes, nat>)

  datatype Phase = NotStarted | Started | Finished

  datatype Event = IsBootstrapped

  datatype State = State(
    beginBootstrap: bool,
    phase: Phase,
    bootstrapTimer: Timer,
    puts: map<QueryId, PutQuery>,
    gets: map<QueryId, GetQuery>,
    putQueue: seq<PutQuery>,
    getQueue: seq<GetQuery>,
    events: seq<Event>)

  function Start(): State {
    State(false, NotStarted, Timer(NANOS_PER_SEC, 2, 2 * NANOS_PER_SEC, None), map[], map[], [], [], [])
  }

  // ---------------------------------------------------------------- puts and gets

  /** Hands a put to the backend, which answers with a query id or refuses; during bootstrap it waits. */
  function Put(s: State, q: PutQuery, answer: Option<QueryId>, now: Instant): State {
    if s.beginBootstrap then s.(putQueue := s.putQueue + [q])
    else if answer.Some? then s.(puts := s.puts[answer.value := q])
    else s.(putQueue := s.putQueue + [q.(timer := q.timer.Next(false, now))])
  }

  function PutFinished(s: State, id: QueryId, ok: bool, now: Instant): State {
    if id !in s.puts then s
    else
      var q := s.puts[id];
      var s' := s.(puts := s.puts - {id});
      if ok then s' else s'.(putQueue := s.putQueue + [q.(timer := q.timer.Next(false, now))])
  }

  function Get(s: State, key: Bytes, timer: Timer, retryCount: u8, id: QueryId): State {
    if retryCount == 0 then s else s.(gets := s.gets[id := GetQuery(timer, key, retryCount - 1, map[])])
  }

  function Counted(records: map<Bytes, nat>, value: Option<Bytes>): map<Bytes, nat> {
    if value.None? then records
    else records[value.value := if value.value in records then records[value.value] + 1 else 1]
  }

  /** On the last result the query is asked again, even when records were found; they are dropped. */
  function GetProgressed(s: State, id: QueryId, value: Option<Bytes>, last: bool, next: QueryId): State {
    if id !in s.gets then s
    else
      var q := s.gets[id].(records := Counted(s.gets[id].records, value));
      if last then Get(s.(gets := s.gets - {id}), q.key, q.timer, q.retryCount, next)
      else s.(gets := s.gets[id := q])
  }

  /** One turn of the loop over the postponed puts. */
  function DrainPut(s: State, answer: Option<QueryId>, now: Instant): State {
    if s.putQueue == [] then s
    else
      var q, s' := s.putQueue[0], s.(putQueue := s.putQueue[1..]);
      if q.timer.Expired(now) then Put(s', q, answer, now) else s'.(putQueue := s'.putQueue + [q])
  }

  function DrainGet(s: State, id: QueryId, now: Instant): State {
    if s.getQueue == [] then s
    else
      var q, s' := s.getQueue[0], s.(getQueue := s.getQueue[1..]);
      if q.timer.Expired(now) then Get(s', q.key, q.timer, q.retryCount, id) else s'.(getQueue := s'.getQueue + [q])
  }

  // ---------------------------------------------------------------- bootstrap

  /** Whether a poll asks the backend to bootstrap. */
  predicate Bootstraps(s: State, now: Instant) {
    s.phase.NotStarted? && s.bootstrapTimer.Expired(now) && s.beginBootstrap
  }

  function TryBootstrap(s: State, started: bool, now: Instant): State {
    if Bootstraps(s, now) && started then s.(phase := Started) else s
  }

  function BootstrapProgressed(s: State, remaining: nat): State {
    if remaining == 0 then s.(phase := Finished, events := s.events + [IsBootstrapped], beginBootstrap := false) else s
  }

  function BootstrapFailed(s: State, now: Instant): State {
    s.(phase := NotStarted, bootstrapTimer := s.bootstrapTimer.Next(true, now))
  }

  // ---------------------------------------------------------------- the behaviour

  /** What a turn of the loop over postponed puts meets. */
  datatype Turn = Turn(answer: Option<QueryId>, now: Instant)

  function DrainPuts(s: State, env: nat -> Turn, n: nat): State {
    if n == 0 then s else DrainPut(DrainPuts(s, env, n - 1), env(n - 1).answer, env(n - 1).now)
  }

  class Behaviour {
    var beginBootstrap: bool
    var inProgressPutRecordQueries: map<QueryId, PutQuery>
    var inProgressGetRecordQueries: map<QueryId, GetQuery>
    var queuedPutRecordQueries: seq<PutQuery>
    var queuedGetRecordQueries: seq<GetQuery>
    var eventQueue: seq<Event>
    var bootstrapState: Phase
    const bootstrapBackoff: ExponentialBackoff

    constructor ()
      ensures Model() == Start() && fresh(bootstrapBackoff)
    {
      beginBootstrap := false;
      inProgressPutRecordQueries, inProgressGetRecordQueries := map[], map[];
      queuedPutRecordQueries, queuedGetRecordQueries, eventQueue := [], [], [];
      bootstrapState := NotStarted;
      bootstrapBackoff := new ExponentialBackoff(2, NANOS_PER_SEC);
    }

    function Model(): State
      reads this, bootstrapBackoff
    {
      State(beginBootstrap, bootstrapState, bootstrapBackoff.Model(), inProgressPutRecordQueries,
            inProgressGetRecordQueries, queuedPutRecordQueries, queuedGetRecordQueries, eventQueue)
    }

    method BeginBootstrap()
      modifies `beginBootstrap
      ensures beginBootstrap
    {
      beginBootstrap := true;
    }

    method PutRecord(query: PutQuery, answer: Option<QueryId>, now: Instant)
      modifies `inProgressPutRecordQueries, `queuedPutRecordQueries
      ensures Model() == Put(old(Model()), query, answer, now)
    {
      if !beginBootstrap {
        match answer {
          case Some(queryId) =>
            inProgressPutRecordQueries := inProgressPutRecordQueries[queryId := query];
          case None =>
            var later := query.timer.Next(false, now);
            queuedPutRecordQueries := queuedPutRecordQueries + [query.(timer := later)];
        }
      } else {
        queuedPutRecordQueries := queuedPutRecordQueries + [query];
      }
    }

    method HandlePutQuery(ok: bool, id: QueryId, now: Instant)
      modifies `inProgressPutRecordQueries, `queuedPutRecordQueries
      ensures Model() == PutFinished(old(Model()), id, ok, now)
    {
      if id in inProgressPutRecordQueries {
        var query := inProgressPutRecordQueries[id];
        inProgressPutRecordQueries := inProgressPutRecordQueries - {id};
        if !ok {
          query := query.(timer := query.timer.Next(false, now));
          queuedPutRecordQueries := queuedPutRecordQueries + [query];
        }
      }
    }

    method GetRecord(key: Bytes, backoff: Timer, retryCount: u8, queryId: QueryId)
      modifies `inProgressGetRecordQueries
      ensures Model() == Get(old(Model()), key, backoff, retryCount, queryId)
    {
      if retryCount == 0 {
        return;
      }
      var query := GetQuery(backoff, key, retryCount - 1, map[]);
      inProgressGetRecordQueries := inProgressGetRecordQueries[queryId := query];
    }

    method HandleGetQuery(found: Option<Bytes>, id: QueryId, last: bool, next: QueryId)
      modifies `inProgressGetRecordQueries
      ensures Model() == GetProgressed(old(Model()), id, found, last, next)
    {
      if id !in inProgressGetRecordQueries {
        return;
      }
      var query := inProgressGetRecordQueries[id];
      if found.Some? {
        var value := found.value;
        var entries := if value in query.records then query.records[value] + 1 else 1;
        query := query.(records := query.records[value := entries]);
      }
      if last {
        inProgressGetRecordQueries := inProgressGetRecordQueries - {id};
        GetRecord(query.key, query.timer, query.retryCount, next);
      } else {
        inProgressGetRecordQueries := inProgressGetRecordQueries[id := query];
      }
    }

    method HandleBootstrapOk(remaining: nat)
      modifies `bootstrapState, `eventQueue, `beginBootstrap
      ensures Model() == BootstrapProgressed(old(Model()), remaining)
    {
      if remaining == 0 {
        bootstrapState := Finished;
        eventQueue := eventQueue + [IsBootstrapped];
        beginBootstrap := false;
      }
    }

    method HandleBootstrapErr(now: Instant)
      modifies `bootstrapState, bootstrapBackoff
      ensures Model() == BootstrapFailed(old(Model()), now)
    {
      bootstrapState := NotStarted;
      bootstrapBackoff.StartNext(true, now);
    }

    /** The head of the poll; `started` is the backend's answer, if it is asked. */
    method PollBootstrap(started: bool, now: Instant) returns (asked: bool)
      modifies `bootstrapState
      ensures Model() == TryBootstrap(old(Model()), started, now) && (asked <==> Bootstraps(old(Model()), now))
    {
      var expired := bootstrapBackoff.IsExpired(now);
      asked := bootstrapState.NotStarted? && expired && beginBootstrap;
      if asked && started {
        bootstrapState := Started;
      }
    }

    method DrainPutOnce(answer: Option<QueryId>, now: Instant)
      requires queuedPutRecordQueries != []
      modifies `inProgressPutRecordQueries, `queuedPutRecordQueries
      ensures Model() == DrainPut(old(Model()), answer, now)
    {
      var req := queuedPutRecordQueries[0];
      queuedPutRecordQueries := queuedPutRecordQueries[1..];
      if req.timer.Expired(now) {
        PutRecord(req, answer, now);
      } else {
        queuedPutRecordQueries := queuedPutRecordQueries + [req];
      }
    }

    method DrainGetOnce(queryId: QueryId, now: Instant)
      requires queuedGetRecordQueries != []
      modifies `inProgressGetRecordQueries, `queuedGetRecordQueries
      ensures Model() == DrainGet(old(Model()), queryId, now)
    {
      var req := queuedGetRecordQueries[0];
      queuedGetRecordQueries := queuedGetRecordQueries[1..];
      if req.timer.Expired(now) {
        GetRecord(req.key, req.timer, req.retryCount, queryId);
      } else {
        queuedGetRecordQueries := queuedGetRecordQueries + [req];
      }
    }

    /** The loop of the poll over postponed puts, watched for at most `budget` turns, in any world. */
    method DrainAtMost(env: nat -> Turn, budget: nat) returns (turns: nat)
      modifies `inProgressPutRecordQueries, `queuedPutRecordQueries
      ensures Model() == DrainPuts(old(Model()), env, turns) && turns <= budget
      ensures turns < budget ==> queuedPutRecordQueries == []
      ensures forall k: nat :: k < turns ==> DrainPuts(old(Model()), env, k).putQueue != []
    {
      hide DrainPut;
      turns := 0;
      while turns < budget && queuedPutRecordQueries != []
        invariant Model() == DrainPuts(old(Model()), env, turns) && turns <= budget
        invariant forall k: nat :: k < turns ==> DrainPuts(old(Model()), env, k).putQueue != []
      {
        DrainPutOnce(env(turns).answer, env(turns).now);
        turns := turns + 1;
      }
    }

    /** The loop itself, in worlds in which it has to end: with nothing postponed, or outside bootstrap with
        a clock that goes on and a backend that takes everything from some turn on. */
    method DrainQueuedPuts(env: nat -> Turn, ghost obliging: nat) returns (turns: nat)
      requires queuedPutRecordQueries == [] || (!beginBootstrap && ClockAdvances(env) && TakesFrom(env, obliging))
      modifies `inProgressPutRecordQueries, `queuedPutRecordQueries
      ensures Model() == DrainPuts(old(Model()), env, turns)
      ensures queuedPutRecordQueries == []
      ensures forall k: nat :: k < turns ==> DrainPuts(old(Model()), env, k).putQueue != []
    {
      hide DrainPut, ClockAdvances, TakesFrom;
      ghost var limit := 0;
      if queuedPutRecordQueries != [] {
        limit := DrainEndsOnceTaken(Model(), env, obliging);
      }
      turns := 0;
      while queuedPutRecordQueries != []
        invariant Model() == DrainPuts(old(Model()), env, turns) && turns <= limit
        invariant DrainPuts(old(Model()), env, limit).putQueue == []
        invariant forall k: nat :: k < turns ==> DrainPuts(old(Model()), env, k).putQueue != []
        decreases limit - turns
      {
        DrainPutOnce(env(turns).answer, env(turns).now);
        turns := turns + 1;
      }
    }
  }

  // ---------------------------------------------------------------- the loop over postponed puts

  function Payloads(queue: seq<PutQuery>): seq<Payload> {
    seq(|queue|, i requires 0 <= i < |queue| => queue[i].payload)
  }

  /** What the backend took in a turn. */
  function TakenInTurn(s: State, turn: Turn): seq<Payload> {
    if s.putQueue != [] && s.putQueue[0].timer.Expired(turn.now) && !s.beginBootstrap && turn.answer.Some?
    then [s.putQueue[0].payload] else []
  }

  function TakenInTurns(s: State, env: nat -> Turn, n: nat): seq<Payload> {
    if n == 0 then [] else TakenInTurns(s, env, n - 1) + TakenInTurn(DrainPuts(s, env, n - 1), env(n - 1))
  }

  lemma TurnPayloads(s: State, turn: Turn)
    requires s.putQueue != []
    ensures var t, taken := DrainPut(s, turn.answer, turn.now), TakenInTurn(s, turn);
            var head, rest := s.putQueue[0].payload, Payloads(s.putQueue[1..]);
            && (taken == [] ==> Payloads(t.putQueue) == rest + [head])
            && (taken != [] ==> taken == [head] && Payloads(t.putQueue) == rest)
            && t.beginBootstrap == s.beginBootstrap && (s.beginBootstrap ==> taken == [])
  {
    hide Timer.Expired, Timer.Next;
  }

  lemma HeadOrTail<T>(head: T, rest: seq<T>)
    ensures multiset([head] + rest) == multiset([head]) + multiset(rest) == multiset([]) + multiset(rest + [head])
  {
  }

  lemma TurnAccounts(s: State, turn: Turn)
    ensures var t := DrainPut(s, turn.answer, turn.now);
            && multiset(Payloads(s.putQueue)) == multiset(TakenInTurn(s, turn)) + multiset(Payloads(t.putQueue))
            && t.beginBootstrap == s.beginBootstrap && (s.beginBootstrap ==> TakenInTurn(s, turn) == [])
  {
    if s.putQueue != [] {
      hide DrainPut, TakenInTurn;
      TurnPayloads(s, turn);
      HeadOrTail(s.putQueue[0].payload, Payloads(s.putQueue[1..]));
      assert Payloads(s.putQueue) == [s.putQueue[0].payload] + Payloads(s.putQueue[1..]);
    }
  }

  /** However many turns the loop makes, a postponed put is taken by the backend once or still postponed
      once; during bootstrap none is taken. */
  lemma {:induction false} DrainAccounts(s: State, env: nat -> Turn, n: nat)
    ensures multiset(Payloads(s.putQueue))
         == multiset(TakenInTurns(s, env, n)) + multiset(Payloads(DrainPuts(s, env, n).putQueue))
    ensures DrainPuts(s, env, n).beginBootstrap == s.beginBootstrap
    ensures s.beginBootstrap ==> TakenInTurns(s, env, n) == []
  {
    hide DrainPut, TakenInTurn;
    if n > 0 {
      var before := DrainPuts(s, env, n - 1);
      DrainAccounts(s, env, n - 1);
      TurnAccounts(before, env(n - 1));
      Accumulate(Payloads(s.putQueue), TakenInTurns(s, env, n - 1), Payloads(before.putQueue),
                 TakenInTurn(before, env(n - 1)), Payloads(DrainPuts(s, env, n).putQueue));
    }
  }

  lemma Accumulate<T>(all: seq<T>, taken: seq<T>, waiting: seq<T>, more: seq<T>, left: seq<T>)
    requires multiset(all) == multiset(taken) + multiset(waiting)
    requires multiset(waiting) == multiset(more) + multiset(left)
    ensures multiset(all) == multiset(taken + more) + multiset(left)
  {
  }

  /** During bootstrap the loop never ends once something is postponed. */
  lemma {:induction false} BootstrapNeverEnds(s: State, env: nat -> Turn, n: nat)
    requires s.beginBootstrap
    ensures DrainPuts(s, env, n).putQueue == [] <==> s.putQueue == []
  {
    DrainAccounts(s, env, n);
    var left := DrainPuts(s, env, n).putQueue;
    assert |multiset(Payloads(s.putQueue))| == |multiset(Payloads(left))|;
  }

  lemma TurnedOnce(q: seq<PutQuery>, j: nat)
    requires j < |q|
    ensures var before := q[j..] + q[..j];
            before[1..] + [before[0]] == if j + 1 < |q| then q[j + 1..] + q[..j + 1] else q[0..] + q[..0]
  {
  }

  /** During bootstrap the loop only turns the queue round. */
  lemma {:induction false} BootstrapRotates(s: State, env: nat -> Turn, n: nat) returns (k: nat)
    requires s.beginBootstrap && s.putQueue != []
    ensures k < |s.putQueue| && DrainPuts(s, env, n) == s.(putQueue := s.putQueue[k..] + s.putQueue[..k])
  {
    if n == 0 {
      k := 0;
      assert s.putQueue[0..] + s.putQueue[..0] == s.putQueue;
    } else {
      var j := BootstrapRotates(s, env, n - 1);
      TurnedOnce(s.putQueue, j);
      k := if j + 1 < |s.putQueue| then j + 1 else 0;
    }
  }

  // ---------------------------------------------------------------- when that loop ends

  /** From turn `k` on the clock is past `t`. */
  ghost predicate PastFrom(env: nat -> Turn, k: nat, t: Instant) {
    forall j: nat :: j >= k ==> env(j).now > t
  }

  ghost predicate Passes(env: nat -> Turn, t: Instant) {
    exists k: nat :: PastFrom(env, k, t)
  }

  /** The clock passes every instant for good. */
  ghost predicate ClockAdvances(env: nat -> Turn) {
    forall t: Instant :: Passes(env, t)
  }

  ghost predicate TakesFrom(env: nat -> Turn, m: nat) {
    forall j: nat :: j >= m ==> env(j).answer.Some?
  }

  ghost predicate RefusesFrom(env: nat -> Turn, m: nat) {
    forall j: nat :: j >= m ==> env(j).answer.None?
  }

  /** How often the backend would have taken a put in the first `n` turns. */
  function Yeses(env: nat -> Turn, n: nat): nat {
    if n == 0 then 0 else Yeses(env, n - 1) + if env(n - 1).answer.Some? then 1 else 0
  }

  lemma TurnLength(s: State, turn: Turn)
    ensures var t := DrainPut(s, turn.answer, turn.now);
            && |t.putQueue| + (if turn.answer.Some? then 1 else 0) >= |s.putQueue|
            && t.beginBootstrap == s.beginBootstrap
            && (s.putQueue == [] ==> t.putQueue == [])
  {
  }

  /** Before it ends, the loop needs a yes for every postponed put. */
  lemma {:induction false} DrainNeedsYeses(s: State, env: nat -> Turn, n: nat)
    ensures DrainPuts(s, env, n).putQueue == [] ==> Yeses(env, n) >= |s.putQueue|
    ensures |DrainPuts(s, env, n).putQueue| + Yeses(env, n) >= |s.putQueue|
  {
    hide DrainPut;
    if n > 0 {
      DrainNeedsYeses(s, env, n - 1);
      TurnLength(DrainPuts(s, env, n - 1), env(n - 1));
    }
  }

  lemma {:induction false} StaysEmpty(s: State, env: nat -> Turn, m: nat, n: nat)
    requires m <= n && DrainPuts(s, env, m).putQueue == []
    ensures DrainPuts(s, env, n).putQueue == []
  {
    hide DrainPut;
    if m < n {
      StaysEmpty(s, env, m, n - 1);
      TurnLength(DrainPuts(s, env, n - 1), env(n - 1));
    }
  }

  lemma {:induction false} StaysRefused(s: State, env: nat -> Turn, m: nat, n: nat)
    requires m <= n && RefusesFrom(env, m) && DrainPuts(s, env, m).putQueue != []
    ensures DrainPuts(s, env, n).putQueue != []
  {
    hide DrainPut;
    if m < n {
      StaysRefused(s, env, m, n - 1);
      TurnLength(DrainPuts(s, env, n - 1), env(n - 1));
    }
  }

  /** The last instant at which a timer of the queue has not run out. */
  function Deadline(queue: seq<PutQuery>): Instant {
    if queue == [] then 0
    else
      var t := queue[0].timer;
      Max(if t.started.Some? then t.started.value + t.timeout else 0, Deadline(queue[1..]))
  }

  lemma {:induction false} DeadlineExpires(queue: seq<PutQuery>, q: PutQuery, now: Instant)
    requires q in queue && now > Deadline(queue)
    ensures q.timer.Expired(now)
  {
    if q != queue[0] {
      assert queue == [queue[0]] + queue[1..];
      DeadlineExpires(queue[1..], q, now);
    }
  }

  lemma TakenTurnMembers(s: State, turn: Turn)
    requires !s.beginBootstrap && turn.answer.Some?
    ensures forall q :: q in DrainPut(s, turn.answer, turn.now).putQueue ==> q in s.putQueue
  {
  }

  lemma {:induction false} DrainKeepsFlag(s: State, env: nat -> Turn, n: nat)
    ensures DrainPuts(s, env, n).beginBootstrap == s.beginBootstrap
  {
    hide DrainPut;
    if n > 0 {
      DrainKeepsFlag(s, env, n - 1);
      TurnLength(DrainPuts(s, env, n - 1), env(n - 1));
    }
  }

  /** While the backend takes everything no timer is restarted. */
  lemma {:induction false} TakenMembers(s: State, env: nat -> Turn, m: nat, n: nat)
    requires !s.beginBootstrap && m <= n && TakesFrom(env, m)
    ensures forall q :: q in DrainPuts(s, env, n).putQueue ==> q in DrainPuts(s, env, m).putQueue
  {
    hide DrainPut;
    if m < n {
      TakenMembers(s, env, m, n - 1);
      DrainKeepsFlag(s, env, n - 1);
      TakenTurnMembers(DrainPuts(s, env, n - 1), env(n - 1));
    }
  }

  lemma FrontIsTaken(s: State, turn: Turn)
    requires !s.beginBootstrap && s.putQueue != [] && turn.answer.Some? && s.putQueue[0].timer.Expired(turn.now)
    ensures DrainPut(s, turn.answer, turn.now).putQueue == s.putQueue[1..]
  {
  }

  /** From a turn at which all timers have run out, with a yes every time, each put is taken in its turn. */
  lemma {:induction false} DrainEndsWhenAccepted(s: State, env: nat -> Turn, p: nat, n: nat)
    requires !s.beginBootstrap && n <= |DrainPuts(s, env, p).putQueue|
    requires forall k: nat :: p <= k < p + n ==>
               env(k).answer.Some? && DrainPuts(s, env, p).putQueue[k - p].timer.Expired(env(k).now)
    ensures DrainPuts(s, env, p + n).putQueue == DrainPuts(s, env, p).putQueue[n..]
  {
    hide DrainPut;
    if n > 0 {
      DrainEndsWhenAccepted(s, env, p, n - 1);
      DrainKeepsFlag(s, env, p + n - 1);
      FrontIsTaken(DrainPuts(s, env, p + n - 1), env(p + n - 1));
    }
  }

  /** Outside bootstrap, with a clock that goes on and a backend that takes everything from turn `m` on, the
      loop ends: within as many turns as are postponed after the clock has passed their timers. */
  lemma DrainEndsOnceTaken(s: State, env: nat -> Turn, m: nat) returns (n: nat)
    requires !s.beginBootstrap && ClockAdvances(env) && TakesFrom(env, m)
    ensures DrainPuts(s, env, n).putQueue == []
  {
    hide DrainPuts, Deadline;
    var queue := DrainPuts(s, env, m).putQueue;
    assert Passes(env, Deadline(queue));
    var k: nat :| PastFrom(env, k, Deadline(queue));
    var p := Max(m, k);
    TakenMembers(s, env, m, p);
    var left := DrainPuts(s, env, p).putQueue;
    forall j: nat | p <= j < p + |left| ensures env(j).answer.Some? && left[j - p].timer.Expired(env(j).now) {
      assert left[j - p] in queue;
      DeadlineExpires(queue, left[j - p], env(j).now);
    }
    DrainEndsWhenAccepted(s, env, p, |left|);
    n := p + |left|;
  }

  /** Whatever happened before turn `m`, once the backend gives always the same answer the loop ends if and
      only if it has ended by then, or it is outside bootstrap and the answer is yes. */
  lemma {:induction false} DrainEndsFrom(s: State, env: nat -> Turn, m: nat)
    requires ClockAdvances(env) && (TakesFrom(env, m) || RefusesFrom(env, m))
    ensures (exists n: nat :: DrainPuts(s, env, n).putQueue == [])
            <==> DrainPuts(s, env, m).putQueue == [] || (!s.beginBootstrap && TakesFrom(env, m))
  {
    hide DrainPuts, ClockAdvances;
    if !s.beginBootstrap && TakesFrom(env, m) {
      var _ := DrainEndsOnceTaken(s, env, m);
    } else if n: nat :| DrainPuts(s, env, n).putQueue == [] {
      if s.beginBootstrap {
        BootstrapNeverEnds(s, env, n);
        BootstrapNeverEnds(s, env, m);
      } else if m <= n && DrainPuts(s, env, m).putQueue != [] {
        StaysRefused(s, env, m, n);
      } else if n < m {
        StaysEmpty(s, env, n, m);
      }
    }
  }

  /** With a backend that gives always the same answer, and a clock that goes on, the loop ends if and only
      if nothing is postponed, or it is outside bootstrap and the answer is yes. */
  lemma {:induction false} DrainEndsExactly(s: State, env: nat -> Turn)
    requires ClockAdvances(env) && (TakesFrom(env, 0) || RefusesFrom(env, 0))
    ensures (exists n: nat :: DrainPuts(s, env, n).putQueue == [])
            <==> s.putQueue == [] || (!s.beginBootstrap && env(0).answer.Some?)
  {
    DrainEndsFrom(s, env, 0);
    assert DrainPuts(s, env, 0) == s;
  }
}
