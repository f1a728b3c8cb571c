/** Whole runs of the DHT behaviour: what becomes of every put, how often every get is asked, and when
    bootstrapping holds everything up. */
module DhtRuns {
  import opened Bytes
  import opened Time
  import opened Backoff
  import opened Dht

  datatype Step =
    | BeginBootstrap
    | PutAsked(query: PutQuery, answer: Option<QueryId>, now: Instant)
    | PutDone(id: QueryId, ok: bool, now: Instant)
    | GetAsked(key: Bytes, timer: Timer, retryCount: u8, next: QueryId)
    | GetResult(id: QueryId, value: Option<Bytes>, last: bool, next: QueryId)
    | PutTurn(answer: Option<QueryId>, now: Instant)
    | GetTurn(next: QueryId, now: Instant)
    | BootstrapPolled(started: bool, now: Instant)
    | BootstrapOk(remaining: nat)
    | BootstrapErr(now: Instant)

  function Next(s: State, step: Step): State {
    match step
    case BeginBootstrap => s.(beginBootstrap := true)
    case PutAsked(query, answer, now) => Put(s, query, answer, now)
    case PutDone(id, ok, now) => PutFinished(s, id, ok, now)
    case GetAsked(key, timer, retryCount, next) => Get(s, key, timer, retryCount, next)
    case GetResult(id, value, last, next) => GetProgressed(s, id, value, last, next)
    case PutTurn(answer, now) => DrainPut(s, answer, now)
    case GetTurn(next, now) => DrainGet(s, next, now)
    case BootstrapPolled(started, now) => TryBootstrap(s, started, now)
    case BootstrapOk(remaining) => BootstrapProgressed(s, remaining)
    case BootstrapErr(now) => BootstrapFailed(s, now)
  }

  function After(steps: seq<Step>): State {
    if steps == [] then Start() else Next(After(steps[..|steps| - 1]), steps[|steps| - 1])
  }

  /** The query ids the backend gives out in a step. */
  function Offered(step: Step): set<QueryId> {
    match step
    case PutAsked(_, Some(id), _) => {id}
    case PutTurn(Some(id), _) => {id}
    case GetAsked(_, _, _, next) => {next}
    case GetResult(_, _, _, next) => {next}
    case GetTurn(next, _) => {next}
    case _ => {}
  }

  function OfferedIn(steps: seq<Step>): set<QueryId> {
    if steps == [] then {} else OfferedIn(steps[..|steps| - 1]) + Offered(steps[|steps| - 1])
  }

  /** The backend never gives out a query id twice. */
  ghost predicate Fresh(steps: seq<Step>) {
    steps == [] || (Fresh(steps[..|steps| - 1]) && Offered(steps[|steps| - 1]) !! OfferedIn(steps[..|steps| - 1]))
  }

  lemma StepIds(s: State, step: Step)
    requires s.getQueue == []
    ensures Next(s, step).getQueue == []
    ensures Next(s, step).puts.Keys <= s.puts.Keys + Offered(step)
    ensures Next(s, step).gets.Keys <= s.gets.Keys + Offered(step)
  {
    hide Counted;
  }

  /** Ids in progress were given out; and no get is ever postponed. */
  lemma {:induction false} IdsWereOffered(steps: seq<Step>)
    ensures After(steps).puts.Keys <= OfferedIn(steps) && After(steps).gets.Keys <= OfferedIn(steps)
    ensures After(steps).getQueue == []
  {
    hide Next, Offered;
    if steps != [] {
      IdsWereOffered(steps[..|steps| - 1]);
      StepIds(After(steps[..|steps| - 1]), steps[|steps| - 1]);
    } else {
      assert After(steps).puts.Keys == {} && After(steps).gets.Keys == {};
    }
  }

  // ---------------------------------------------------------------- what becomes of puts

  ghost function Pick<V>(m: map<QueryId, V>): QueryId
    requires m != map[]
    ensures Pick(m) in m
  {
    assert exists id :: id in m;
    var id :| id in m;
    id
  }

  /** The payloads of the puts in progress. */
  ghost function InProgress(m: map<QueryId, PutQuery>): multiset<Payload>
    decreases m.Keys
  {
    if m == map[] then multiset{} else multiset{m[Pick(m)].payload} + InProgress(m - {Pick(m)})
  }

  lemma NothingInProgress()
    ensures InProgress(map[]) == multiset{}
  {
  }

  lemma {:induction false} InProgressPick(m: map<QueryId, PutQuery>)
    requires m != map[]
    ensures InProgress(m) == multiset{m[Pick(m)].payload} + InProgress(m - {Pick(m)})
  {
  }

  lemma Swap(a: multiset<Payload>, b: multiset<Payload>, c: multiset<Payload>)
    ensures a + (b + c) == b + (a + c)
  {
  }

  lemma {:induction false} InProgressTake(m: map<QueryId, PutQuery>, id: QueryId)
    requires id in m
    ensures InProgress(m) == multiset{m[id].payload} + InProgress(m - {id})
    decreases m.Keys
  {
    hide InProgress;
    var p := Pick(m);
    InProgressPick(m);
    if p != id {
      InProgressTake(m - {p}, id);
      InProgressTake(m - {id}, p);
      assert m - {p} - {id} == m - {id} - {p};
      Swap(multiset{m[p].payload}, multiset{m[id].payload}, InProgress(m - {id} - {p}));
    }
  }

  lemma InProgressAdd(m: map<QueryId, PutQuery>, id: QueryId, q: PutQuery)
    requires id !in m
    ensures InProgress(m[id := q]) == multiset{q.payload} + InProgress(m)
  {
    InProgressTake(m[id := q], id);
    assert m[id := q] - {id} == m;
  }

  function GivenIn(step: Step): seq<Payload> {
    if step.PutAsked? then [step.query.payload] else []
  }

  function SucceededIn(s: State, step: Step): seq<Payload> {
    if step.PutDone? && step.ok && step.id in s.puts then [s.puts[step.id].payload] else []
  }

  function Given(steps: seq<Step>): seq<Payload> {
    if steps == [] then [] else Given(steps[..|steps| - 1]) + GivenIn(steps[|steps| - 1])
  }

  function Succeeded(steps: seq<Step>): seq<Payload> {
    if steps == [] then []
    else Succeeded(steps[..|steps| - 1]) + SucceededIn(After(steps[..|steps| - 1]), steps[|steps| - 1])
  }

  /** Everything not finished: in progress or postponed. */
  ghost function Open(s: State): multiset<Payload> {
    InProgress(s.puts) + multiset(Payloads(s.putQueue))
  }

  lemma Postponed(queue: seq<PutQuery>, q: PutQuery)
    ensures multiset(Payloads(queue + [q])) == multiset{q.payload} + multiset(Payloads(queue))
  {
    assert Payloads(queue + [q]) == Payloads(queue) + [q.payload];
  }

  lemma HeadPostponed(queue: seq<PutQuery>)
    requires queue != []
    ensures multiset(Payloads(queue)) == multiset{queue[0].payload} + multiset(Payloads(queue[1..]))
  {
    assert Payloads(queue) == [queue[0].payload] + Payloads(queue[1..]);
  }

  lemma PutOpens(s: State, q: PutQuery, answer: Option<QueryId>, now: Instant)
    requires answer.Some? ==> answer.value !in s.puts
    ensures Open(Put(s, q, answer, now)) == multiset{q.payload} + Open(s)
  {
    hide InProgress, Payloads;
    if s.beginBootstrap {
      Postponed(s.putQueue, q);
    } else if answer.Some? {
      InProgressAdd(s.puts, answer.value, q);
    } else {
      Postponed(s.putQueue, q.(timer := q.timer.Next(false, now)));
    }
  }

  lemma StepConserves(s: State, step: Step)
    requires Offered(step) !! s.puts.Keys
    ensures Open(s) + multiset(GivenIn(step)) == Open(Next(s, step)) + multiset(SucceededIn(s, step))
  {
    hide Put, Open;
    match step
    case PutAsked(query, answer, now) =>
      PutOpens(s, query, answer, now);
    case PutDone(id, ok, now) =>
      FinishedCloses(s, id, ok, now);
    case PutTurn(answer, now) =>
      TurnKeepsOpen(s, answer, now);
    case _ =>
      SamePutsOpen(s, Next(s, step));
  }

  lemma SamePutsOpen(s: State, t: State)
    requires s.puts == t.puts && s.putQueue == t.putQueue
    ensures Open(s) == Open(t)
  {
  }

  lemma FinishedCloses(s: State, id: QueryId, ok: bool, now: Instant)
    ensures Open(s) == Open(PutFinished(s, id, ok, now)) + multiset(SucceededIn(s, PutDone(id, ok, now)))
  {
    hide InProgress, Payloads;
    if id in s.puts {
      InProgressTake(s.puts, id);
      if !ok {
        Postponed(s.putQueue, s.puts[id].(timer := s.puts[id].timer.Next(false, now)));
      }
    }
  }

  lemma TurnKeepsOpen(s: State, answer: Option<QueryId>, now: Instant)
    requires answer.Some? ==> answer.value !in s.puts
    ensures Open(DrainPut(s, answer, now)) == Open(s)
  {
    hide Put;
    if s.putQueue != [] {
      var q, s' := s.putQueue[0], s.(putQueue := s.putQueue[1..]);
      HeadPostponed(s.putQueue);
      if q.timer.Expired(now) {
        PutOpens(s', q, answer, now);
      } else {
        Postponed(s'.putQueue, q);
      }
    }
  }

  lemma Tally(given: multiset<Payload>, before: multiset<Payload>, done: multiset<Payload>, more: multiset<Payload>,
              after: multiset<Payload>, finished: multiset<Payload>)
    requires given == before + done && before + more == after + finished
    ensures given + more == after + (done + finished)
  {
    assert given + more == before + more + done;
  }

  /** In every run with fresh ids, every put is at all times in progress, or postponed, or has succeeded:
      once, and in one of the three. */
  lemma {:induction false} PutsAreConserved(steps: seq<Step>)
    requires Fresh(steps)
    ensures multiset(Given(steps))
         == InProgress(After(steps).puts) + multiset(Payloads(After(steps).putQueue)) + multiset(Succeeded(steps))
  {
    hide Next, GivenIn, SucceededIn, Offered, InProgress;
    if steps == [] {
      NothingInProgress();
    } else {
      var earlier, step := steps[..|steps| - 1], steps[|steps| - 1];
      PutsAreConserved(earlier);
      IdsWereOffered(earlier);
      StepConserves(After(earlier), step);
      Tally(multiset(Given(earlier)), Open(After(earlier)), multiset(Succeeded(earlier)), multiset(GivenIn(step)),
            Open(After(steps)), multiset(SucceededIn(After(earlier), step)));
    }
  }

  // ---------------------------------------------------------------- how often a get is asked

  /** What a call of `get_record` asks for, and the timer it comes with. */
  datatype Want = Want(key: Bytes, timer: Timer)

  /** For every call of `get_record`, the retries it was given, what it wants, and the queries issued for it so
      far; and the call each query id was issued for. */
  datatype Ledger = Ledger(requested: seq<nat>, wanted: seq<Want>, issued: seq<nat>, origin: map<QueryId, nat>)

  /** Read off the states before and after: a query is issued when its id appears among those in progress. */
  function Entered(l: Ledger, s: State, step: Step): Ledger {
    var t := Next(s, step);
    match step
    case GetAsked(key, timer, retryCount, next) =>
      var issued := if next in t.gets then 1 else 0;
      Ledger(l.requested + [retryCount], l.wanted + [Want(key, timer)], l.issued + [issued],
             l.origin[next := |l.requested|])
    case GetResult(id, _, _, next) =>
      if next !in t.gets || id !in l.origin || l.origin[id] >= |l.issued| then l
      else
        var o := l.origin[id];
        l.(issued := l.issued[o := l.issued[o] + 1], origin := l.origin[next := o])
    case _ => l
  }

  function LedgerOf(steps: seq<Step>): Ledger {
    if steps == [] then Ledger([], [], [], map[])
    else Entered(LedgerOf(steps[..|steps| - 1]), After(steps[..|steps| - 1]), steps[|steps| - 1])
  }

  /** The query in progress for a call, if there is one. */
  ghost predicate Serves(l: Ledger, gets: map<QueryId, GetQuery>, id: QueryId, o: nat) {
    id in gets && id in l.origin && l.origin[id] == o
  }

  /** A query in progress has just the retries left that were not issued for its call, and asks for what its
      call wants. */
  ghost predicate LeftOver(l: Ledger, id: QueryId, q: GetQuery) {
    && |l.issued| == |l.wanted| == |l.requested| && id in l.origin && l.origin[id] < |l.requested|
    && l.issued[l.origin[id]] + q.retryCount == l.requested[l.origin[id]]
    && l.wanted[l.origin[id]] == Want(q.key, q.timer)
  }

  /** A call without a query in progress has had all its queries issued. */
  ghost predicate Settled(l: Ledger, gets: map<QueryId, GetQuery>, o: nat)
    requires o < |l.requested| == |l.issued|
  {
    l.issued[o] == l.requested[o] || exists id :: Serves(l, gets, id, o)
  }

  /** No call has two queries in progress. */
  ghost predicate Balanced(l: Ledger, gets: map<QueryId, GetQuery>) {
    && |l.issued| == |l.wanted| == |l.requested|
    && (forall id :: id in gets ==> LeftOver(l, id, gets[id]))
    && (forall id, other :: id in gets && other in gets && l.origin[id] == l.origin[other] ==> id == other)
    && (forall o :: 0 <= o < |l.requested| ==> Settled(l, gets, o))
  }

  ghost predicate AtMostOne(l: Ledger, gets: map<QueryId, GetQuery>, o: nat) {
    forall id, other :: Serves(l, gets, id, o) && Serves(l, gets, other, o) ==> id == other
  }

  lemma Opened(l: Ledger, gets: map<QueryId, GetQuery>, retryCount: nat, next: QueryId, q: GetQuery)
    requires Balanced(l, gets) && next !in gets && retryCount == q.retryCount + 1
    ensures Balanced(Ledger(l.requested + [retryCount], l.wanted + [Want(q.key, q.timer)], l.issued + [1],
                            l.origin[next := |l.requested|]), gets[next := q])
  {
    var l' := Ledger(l.requested + [retryCount], l.wanted + [Want(q.key, q.timer)], l.issued + [1],
                     l.origin[next := |l.requested|]);
    var after := gets[next := q];
    forall id | id in after ensures LeftOver(l', id, after[id]) {
      assert id != next ==> LeftOver(l, id, gets[id]);
    }
    forall o | 0 <= o < |l'.requested| ensures Settled(l', after, o) {
      KeepsServing(l, gets, l', after, o, next);
    }
  }

  /** A call keeps its query when the new one is somebody else's. */
  lemma KeepsServing(l: Ledger, gets: map<QueryId, GetQuery>, l': Ledger, after: map<QueryId, GetQuery>, o: nat,
                     next: QueryId)
    requires Balanced(l, gets) && next !in gets && next in after && o < |l'.requested| == |l'.issued|
    requires o < |l.requested| ==> l'.issued[o] == l.issued[o] && l'.requested[o] == l.requested[o]
    requires forall id :: id in gets ==> id in l'.origin && l'.origin[id] == l.origin[id] && id in after
    requires o >= |l.requested| ==> next in l'.origin && l'.origin[next] == o
    ensures Settled(l', after, o)
  {
    if o < |l.requested| {
      assert Settled(l, gets, o);
      if l.issued[o] != l.requested[o] {
        var id :| Serves(l, gets, id, o);
        assert Serves(l', after, id, o);
      }
    } else {
      assert Serves(l', after, next, o);
    }
  }

  lemma OpenedEmpty(l: Ledger, gets: map<QueryId, GetQuery>, want: Want, next: QueryId)
    requires Balanced(l, gets) && next !in gets
    ensures Balanced(Ledger(l.requested + [0], l.wanted + [want], l.issued + [0], l.origin[next := |l.requested|]),
                     gets)
  {
    var l' := Ledger(l.requested + [0], l.wanted + [want], l.issued + [0], l.origin[next := |l.requested|]);
    forall id | id in gets ensures LeftOver(l', id, gets[id]) {
      assert LeftOver(l, id, gets[id]);
    }
    forall o | 0 <= o < |l'.requested| ensures Settled(l', gets, o) {
      if o < |l.requested| {
        assert Settled(l, gets, o);
        if l.issued[o] != l.requested[o] {
          var id :| Serves(l, gets, id, o);
          assert Serves(l', gets, id, o);
        }
      }
    }
  }

  lemma Reissued(l: Ledger, gets: map<QueryId, GetQuery>, id: QueryId, next: QueryId, q: GetQuery)
    requires Balanced(l, gets) && next !in gets && id in gets && gets[id].retryCount == q.retryCount + 1
    requires q.key == gets[id].key && q.timer == gets[id].timer
    ensures LeftOver(l, id, gets[id])
    ensures var o := l.origin[id];
            Balanced(l.(issued := l.issued[o := l.issued[o] + 1], origin := l.origin[next := o]),
                     (gets - {id})[next := q])
  {
    assert LeftOver(l, id, gets[id]);
    var o := l.origin[id];
    var l' := l.(issued := l.issued[o := l.issued[o] + 1], origin := l.origin[next := o]);
    var after := (gets - {id})[next := q];
    forall x | x in after ensures LeftOver(l', x, after[x]) {
      assert x != next ==> LeftOver(l, x, gets[x]) && l.origin[x] != o;
    }
    forall c | 0 <= c < |l'.requested| ensures Settled(l', after, c) {
      if c == o {
        assert Serves(l', after, next, c);
      } else {
        Unaffected(l, gets, l', after, c, id);
      }
    }
  }

  lemma Unaffected(l: Ledger, gets: map<QueryId, GetQuery>, l': Ledger, after: map<QueryId, GetQuery>, c: nat,
                   id: QueryId)
    requires Balanced(l, gets) && id in gets && id in l.origin && c != l.origin[id]
    requires c < |l.requested| == |l'.requested| == |l'.issued|
    requires l'.issued[c] == l.issued[c] && l'.requested[c] == l.requested[c]
    requires forall x :: x in gets && x != id ==>
               x in after && x in l'.origin && x in l.origin && l'.origin[x] == l.origin[x]
    ensures Settled(l', after, c)
  {
    assert Settled(l, gets, c);
    if l.issued[c] != l.requested[c] {
      var x :| Serves(l, gets, x, c);
      assert Serves(l', after, x, c);
    }
  }

  lemma Ended(l: Ledger, gets: map<QueryId, GetQuery>, id: QueryId)
    requires Balanced(l, gets) && id in gets && gets[id].retryCount == 0
    ensures Balanced(l, gets - {id})
  {
    assert LeftOver(l, id, gets[id]);
    forall c | 0 <= c < |l.requested| ensures Settled(l, gets - {id}, c) {
      if c != l.origin[id] {
        forall x | x in gets ensures x in l.origin {
          assert LeftOver(l, x, gets[x]);
        }
        Unaffected(l, gets, l, gets - {id}, c, id);
      }
    }
  }

  lemma SameBalance(l: Ledger, gets: map<QueryId, GetQuery>, after: map<QueryId, GetQuery>)
    requires Balanced(l, gets) && after.Keys == gets.Keys
    requires forall id :: id in gets ==>
               && after[id].retryCount == gets[id].retryCount
               && after[id].key == gets[id].key && after[id].timer == gets[id].timer
    ensures Balanced(l, after)
  {
    forall id | id in after ensures LeftOver(l, id, after[id]) {
      assert id in gets.Keys && LeftOver(l, id, gets[id]);
    }
    forall o | 0 <= o < |l.requested| ensures Settled(l, after, o) {
      assert Settled(l, gets, o);
      if l.issued[o] != l.requested[o] {
        var id :| Serves(l, gets, id, o);
        assert id in gets.Keys && Serves(l, after, id, o);
      }
    }
  }

  lemma AskedBalances(l: Ledger, s: State, key: Bytes, timer: Timer, retryCount: u8, next: QueryId)
    requires Balanced(l, s.gets) && next !in s.gets
    ensures var step := GetAsked(key, timer, retryCount, next); Balanced(Entered(l, s, step), Next(s, step).gets)
  {
    hide Balanced;
    if retryCount == 0 {
      OpenedEmpty(l, s.gets, Want(key, timer), next);
    } else {
      Opened(l, s.gets, retryCount, next, GetQuery(timer, key, retryCount - 1, map[]));
    }
  }

  lemma ProgressBalances(l: Ledger, s: State, id: QueryId, value: Option<Bytes>, last: bool, next: QueryId)
    requires Balanced(l, s.gets) && next !in s.gets && id in s.gets
    ensures var step := GetResult(id, value, last, next); Balanced(Entered(l, s, step), Next(s, step).gets)
  {
    hide Balanced, Counted;
    var step := GetResult(id, value, last, next);
    var q := s.gets[id];
    if !last {
      SameBalance(l, s.gets, Next(s, step).gets);
    } else if q.retryCount == 0 {
      Ended(l, s.gets, id);
    } else {
      Reissued(l, s.gets, id, next, GetQuery(q.timer, q.key, q.retryCount - 1, map[]));
    }
  }

  lemma StepBalances(l: Ledger, s: State, step: Step)
    requires Balanced(l, s.gets) && s.getQueue == [] && Offered(step) !! s.gets.Keys
    ensures Balanced(Entered(l, s, step), Next(s, step).gets)
  {
    hide Balanced, Counted;
    match step
    case GetAsked(key, timer, retryCount, next) =>
      AskedBalances(l, s, key, timer, retryCount, next);
    case GetResult(id, value, last, next) =>
      if id in s.gets {
        ProgressBalances(l, s, id, value, last, next);
      }
    case _ =>
  }

  lemma {:induction false} RunBalances(steps: seq<Step>)
    requires Fresh(steps)
    ensures Balanced(LedgerOf(steps), After(steps).gets)
  {
    hide Next, Entered, Offered;
    if steps != [] {
      var earlier := steps[..|steps| - 1];
      RunBalances(earlier);
      IdsWereOffered(earlier);
      StepBalances(LedgerOf(earlier), After(earlier), steps[|steps| - 1]);
    } else {
      assert After(steps).gets == map[];
    }
  }

  /** In every run with fresh ids, at most as many queries are issued for a get as it was given retries,
      and exactly that many once no query for it is in progress, whatever was found meanwhile; and every one
      asks for the key the call was given, with its timer. */
  lemma {:induction false} GetBudget(steps: seq<Step>, o: nat)
    requires Fresh(steps) && o < |LedgerOf(steps).requested|
    ensures |LedgerOf(steps).issued| == |LedgerOf(steps).wanted| == |LedgerOf(steps).requested|
    ensures LedgerOf(steps).issued[o] <= LedgerOf(steps).requested[o]
    ensures LedgerOf(steps).issued[o] == LedgerOf(steps).requested[o]
            || exists id :: Serves(LedgerOf(steps), After(steps).gets, id, o)
    ensures forall id :: Serves(LedgerOf(steps), After(steps).gets, id, o) ==>
              && LedgerOf(steps).issued[o] + After(steps).gets[id].retryCount == LedgerOf(steps).requested[o]
              && Want(After(steps).gets[id].key, After(steps).gets[id].timer) == LedgerOf(steps).wanted[o]
    ensures AtMostOne(LedgerOf(steps), After(steps).gets, o)
  {
    hide LedgerOf, After;
    RunBalances(steps);
    var l, gets := LedgerOf(steps), After(steps).gets;
    forall id | Serves(l, gets, id, o)
      ensures l.issued[o] + gets[id].retryCount == l.requested[o] && Want(gets[id].key, gets[id].timer) == l.wanted[o]
    {
      assert LeftOver(l, id, gets[id]);
    }
    assert Settled(l, gets, o);
  }

  function CallsIn(step: Step): seq<Want> {
    if step.GetAsked? then [Want(step.key, step.timer)] else []
  }

  /** The calls of `get_record` in a run. */
  function Calls(steps: seq<Step>): seq<Want> {
    if steps == [] then [] else Calls(steps[..|steps| - 1]) + CallsIn(steps[|steps| - 1])
  }

  /** The ledger is of the run's calls, and every query in progress is for one of them: with its key and its
      timer. */
  lemma {:induction false} GetsKeepTheirKey(steps: seq<Step>, id: QueryId)
    requires Fresh(steps)
    ensures LedgerOf(steps).wanted == Calls(steps)
    ensures id in After(steps).gets ==>
              && id in LedgerOf(steps).origin && LedgerOf(steps).origin[id] < |Calls(steps)|
              && Calls(steps)[LedgerOf(steps).origin[id]]
                 == Want(After(steps).gets[id].key, After(steps).gets[id].timer)
  {
    RunWanted(steps);
    RunBalances(steps);
    hide LedgerOf, After, Calls;
    if id in After(steps).gets {
      assert LeftOver(LedgerOf(steps), id, After(steps).gets[id]);
    }
  }

  lemma {:induction false} RunWanted(steps: seq<Step>)
    ensures LedgerOf(steps).wanted == Calls(steps)
  {
    hide Next, After;
    if steps != [] {
      RunWanted(steps[..|steps| - 1]);
    }
  }

  // ---------------------------------------------------------------- what a get has found

  /** The values found under a query id since the backend gave it out. */
  function FoundUnder(steps: seq<Step>, id: QueryId): multiset<Bytes> {
    if steps == [] then multiset{}
    else
      var earlier, step := steps[..|steps| - 1], steps[|steps| - 1];
      if id in Offered(step) then multiset{}
      else if step.GetResult? && step.id == id && step.value.Some?
      then FoundUnder(earlier, id) + multiset{step.value.value} else FoundUnder(earlier, id)
  }

  ghost predicate Tallied(records: map<Bytes, nat>, found: multiset<Bytes>) {
    forall v :: (v in records <==> v in found) && (v in records ==> records[v] == found[v])
  }

  lemma CountedTallies(records: map<Bytes, nat>, found: multiset<Bytes>, value: Option<Bytes>)
    requires Tallied(records, found)
    ensures Tallied(Counted(records, value), if value.Some? then found + multiset{value.value} else found)
  {
  }

  lemma StepTallies(s: State, step: Step, id: QueryId, found: multiset<Bytes>)
    requires s.getQueue == [] && Offered(step) !! s.gets.Keys && id in Next(s, step).gets
    requires id in s.gets ==> Tallied(s.gets[id].records, found)
    ensures if id in Offered(step) then Next(s, step).gets[id].records == map[]
            else if step.GetResult? && step.id == id && step.value.Some?
            then Tallied(Next(s, step).gets[id].records, found + multiset{step.value.value})
            else Tallied(Next(s, step).gets[id].records, found)
  {
    hide Tallied, Counted;
    if step.GetResult? && step.id == id && id in s.gets {
      CountedTallies(s.gets[id].records, found, step.value);
    }
  }

  /** In every run with fresh ids, a query in progress has counted each value as often as it was found under its
      id, and no others: what was found by the queries before it for the same call is dropped. */
  lemma {:induction false} RecordsAreCounted(steps: seq<Step>, id: QueryId)
    requires Fresh(steps) && id in After(steps).gets
    ensures Tallied(After(steps).gets[id].records, FoundUnder(steps, id))
  {
    hide Next, Offered, Tallied;
    if steps != [] {
      var earlier, step := steps[..|steps| - 1], steps[|steps| - 1];
      IdsWereOffered(earlier);
      if id in After(earlier).gets {
        RecordsAreCounted(earlier, id);
      }
      StepTallies(After(earlier), step, id, FoundUnder(earlier, id));
      NothingTallied();
    }
  }

  lemma NothingTallied()
    ensures Tallied(map[], multiset{})
  {
  }

  function Sum(xs: seq<nat>): nat {
    if xs == [] then 0 else Sum(xs[..|xs| - 1]) + xs[|xs| - 1]
  }

  lemma {:induction false} SumSnoc(xs: seq<nat>, x: nat)
    ensures Sum(xs + [x]) == Sum(xs) + x
  {
    assert (xs + [x])[..|xs|] == xs;
  }

  lemma {:induction false} SumUpdate(xs: seq<nat>, i: nat, x: nat)
    requires i < |xs|
    ensures Sum(xs[i := x]) + xs[i] == Sum(xs) + x
  {
    var init := xs[..|xs| - 1];
    if i == |init| {
      assert xs[i := x][..|xs| - 1] == init;
    } else {
      SumUpdate(init, i, x);
      assert xs[i := x][..|xs| - 1] == init[i := x];
    }
  }

  /** The retries left to all queries in progress. */
  ghost function RetriesLeft(m: map<QueryId, GetQuery>): nat
    decreases m.Keys
  {
    if m == map[] then 0 else m[Pick(m)].retryCount + RetriesLeft(m - {Pick(m)})
  }

  lemma {:induction false} LeftTake(m: map<QueryId, GetQuery>, id: QueryId)
    requires id in m
    ensures RetriesLeft(m) == m[id].retryCount + RetriesLeft(m - {id})
    decreases m.Keys
  {
    var p := Pick(m);
    if p != id {
      LeftTake(m - {p}, id);
      LeftTake(m - {id}, p);
      assert m - {p} - {id} == m - {id} - {p};
    }
  }

  lemma LeftAdd(m: map<QueryId, GetQuery>, id: QueryId, q: GetQuery)
    requires id !in m
    ensures RetriesLeft(m[id := q]) == q.retryCount + RetriesLeft(m)
  {
    LeftTake(m[id := q], id);
    assert m[id := q] - {id} == m;
  }

  /** Queries issued and retries left make up the retries requested. */
  ghost predicate AddsUp(l: Ledger, gets: map<QueryId, GetQuery>) {
    Sum(l.issued) + RetriesLeft(gets) == Sum(l.requested)
  }

  lemma AskedAddsUp(l: Ledger, s: State, key: Bytes, timer: Timer, retryCount: u8, next: QueryId)
    requires AddsUp(l, s.gets) && next !in s.gets
    ensures var step := GetAsked(key, timer, retryCount, next); AddsUp(Entered(l, s, step), Next(s, step).gets)
  {
    hide Sum, RetriesLeft;
    SumSnoc(l.requested, retryCount);
    SumSnoc(l.issued, if retryCount == 0 then 0 else 1);
    if retryCount > 0 {
      LeftAdd(s.gets, next, GetQuery(timer, key, retryCount - 1, map[]));
    }
  }

  lemma ProgressAddsUp(l: Ledger, s: State, id: QueryId, value: Option<Bytes>, last: bool, next: QueryId)
    requires AddsUp(l, s.gets) && Balanced(l, s.gets) && next !in s.gets && id in s.gets
    ensures var step := GetResult(id, value, last, next); AddsUp(Entered(l, s, step), Next(s, step).gets)
  {
    hide Sum, RetriesLeft, Counted;
    var q := s.gets[id];
    assert LeftOver(l, id, q);
    var o := l.origin[id];
    LeftTake(s.gets, id);
    if !last {
      var counted := q.(records := Counted(q.records, value));
      LeftAdd(s.gets - {id}, id, counted);
      assert (s.gets - {id})[id := counted] == s.gets[id := counted];
    } else if q.retryCount > 0 {
      LeftAdd(s.gets - {id}, next, GetQuery(q.timer, q.key, q.retryCount - 1, map[]));
      SumUpdate(l.issued, o, l.issued[o] + 1);
    }
  }

  lemma StepAddsUp(l: Ledger, s: State, step: Step)
    requires AddsUp(l, s.gets) && Balanced(l, s.gets) && s.getQueue == [] && Offered(step) !! s.gets.Keys
    ensures AddsUp(Entered(l, s, step), Next(s, step).gets)
  {
    hide AddsUp, Balanced, Counted;
    match step
    case GetAsked(key, timer, retryCount, next) =>
      AskedAddsUp(l, s, key, timer, retryCount, next);
    case GetResult(id, value, last, next) =>
      if id in s.gets {
        ProgressAddsUp(l, s, id, value, last, next);
      }
    case _ =>
  }

  /** In every run with fresh ids, the queries issued for all gets together and the retries left to those in
      progress are exactly the retries requested. */
  lemma {:induction false} AllGetsAddUp(steps: seq<Step>)
    requires Fresh(steps)
    ensures Sum(LedgerOf(steps).issued) + RetriesLeft(After(steps).gets) == Sum(LedgerOf(steps).requested)
  {
    hide Next, Entered, Offered, Balanced;
    if steps == [] {
      NoneLeft();
    } else {
      var earlier := steps[..|steps| - 1];
      AllGetsAddUp(earlier);
      RunBalances(earlier);
      IdsWereOffered(earlier);
      StepAddsUp(LedgerOf(earlier), After(earlier), steps[|steps| - 1]);
    }
  }

  lemma NoneLeft()
    ensures RetriesLeft(map[]) == 0 && Sum([]) == 0
  {
  }

  // ---------------------------------------------------------------- bootstrap

  predicate Completes(step: Step) {
    step.BootstrapOk? && step.remaining == 0
  }

  /** A bootstrap was begun, and none has completed since. */
  ghost predicate Pending(steps: seq<Step>) {
    exists i :: 0 <= i < |steps| && steps[i].BeginBootstrap? && forall j :: i < j < |steps| ==> !Completes(steps[j])
  }

  /** Puts are held up exactly while some call of `begin_bootstrap` has not been followed by a completed
      bootstrap. */
  lemma {:induction false} BootstrapHoldsUp(steps: seq<Step>)
    ensures After(steps).beginBootstrap
            <==> Pending(steps)
  {
    if steps != [] {
      var earlier, last := steps[..|steps| - 1], steps[|steps| - 1];
      BootstrapHoldsUp(earlier);
      FlagStep(After(earlier), last);
      if last.BeginBootstrap? {
        assert steps[|steps| - 1].BeginBootstrap?;
      } else if After(earlier).beginBootstrap && !Completes(last) {
        var i :| 0 <= i < |earlier| && earlier[i].BeginBootstrap?
                 && forall j :: i < j < |earlier| ==> !Completes(earlier[j]);
        assert steps[i].BeginBootstrap?;
        forall j | i < j < |steps| ensures !Completes(steps[j]) {
          assert j < |earlier| ==> steps[j] == earlier[j];
        }
      } else if After(steps).beginBootstrap == false {
        forall i | 0 <= i < |steps| && steps[i].BeginBootstrap?
          ensures exists j :: i < j < |steps| && Completes(steps[j])
        {
          if Completes(last) {
            assert Completes(steps[|steps| - 1]);
          } else {
            assert earlier[i].BeginBootstrap?;
            var j :| i < j < |earlier| && Completes(earlier[j]);
            assert Completes(steps[j]);
          }
        }
      }
    }
  }

  lemma FlagStep(s: State, step: Step)
    ensures Next(s, step).beginBootstrap == if step.BeginBootstrap? then true else s.beginBootstrap && !Completes(step)
  {
  }

  /** How many bootstraps have completed. */
  function Completions(steps: seq<Step>): nat {
    if steps == [] then 0 else Completions(steps[..|steps| - 1]) + if Completes(steps[|steps| - 1]) then 1 else 0
  }

  lemma EventsStep(s: State, step: Step)
    ensures |Next(s, step).events| == |s.events| + if Completes(step) then 1 else 0
  {
  }

  /** In every run one event is queued for each completed bootstrap, and none for anything else. */
  lemma {:induction false} CompletionsAreReported(steps: seq<Step>)
    ensures |After(steps).events| == Completions(steps)
  {
    hide Next, Completes;
    if steps != [] {
      CompletionsAreReported(steps[..|steps| - 1]);
      EventsStep(After(steps[..|steps| - 1]), steps[|steps| - 1]);
    }
  }

  function AfterFrom(s: State, steps: seq<Step>): State {
    if steps == [] then s else Next(AfterFrom(s, steps[..|steps| - 1]), steps[|steps| - 1])
  }

  /** No put is in progress that was not, and none in progress was replaced. */
  ghost predicate NoneJoined(before: map<QueryId, PutQuery>, after: map<QueryId, PutQuery>) {
    forall id :: id in after ==> id in before && after[id] == before[id]
  }

  lemma HeldUpStep(s: State, step: Step)
    requires s.beginBootstrap && !Completes(step)
    ensures Next(s, step).beginBootstrap && NoneJoined(s.puts, Next(s, step).puts)
  {
  }

  /** From `begin_bootstrap` until a bootstrap completes, no put reaches the backend: none joins those in
      progress, and none takes the place of one, even if a query id were given out again. */
  lemma {:induction false} NoPutWhileHeldUp(s: State, steps: seq<Step>)
    requires s.beginBootstrap && forall i :: 0 <= i < |steps| ==> !Completes(steps[i])
    ensures AfterFrom(s, steps).beginBootstrap && NoneJoined(s.puts, AfterFrom(s, steps).puts)
  {
    hide Next;
    if steps != [] {
      NoPutWhileHeldUp(s, steps[..|steps| - 1]);
      HeldUpStep(AfterFrom(s, steps[..|steps| - 1]), steps[|steps| - 1]);
    }
  }

  lemma BegunStep(s: State, step: Step)
    requires !s.phase.NotStarted? && !step.BootstrapErr?
    ensures !Next(s, step).phase.NotStarted? && (s.phase.Finished? ==> Next(s, step).phase.Finished?)
  {
  }

  /** A bootstrap that has started is not started again unless one fails. */
  lemma {:induction false} StaysBegun(s: State, steps: seq<Step>)
    requires !s.phase.NotStarted? && forall i :: 0 <= i < |steps| ==> !steps[i].BootstrapErr?
    ensures !AfterFrom(s, steps).phase.NotStarted? && (s.phase.Finished? ==> AfterFrom(s, steps).phase.Finished?)
  {
    hide Next;
    if steps != [] {
      StaysBegun(s, steps[..|steps| - 1]);
      BegunStep(AfterFrom(s, steps[..|steps| - 1]), steps[|steps| - 1]);
    }
  }

  /** After a poll that started a bootstrap no poll asks for another, at whatever time, unless one fails. */
  lemma {:induction false} AskedOnce(s: State, now: Instant, steps: seq<Step>, later: Instant)
    requires Bootstraps(s, now) && forall i :: 0 <= i < |steps| ==> !steps[i].BootstrapErr?
    ensures !Bootstraps(AfterFrom(Next(s, BootstrapPolled(true, now)), steps), later)
  {
    StaysBegun(Next(s, BootstrapPolled(true, now)), steps);
  }

  /** Once a bootstrap has completed, `begin_bootstrap` no longer starts one: as long as none fails, no
      poll asks the backend, at whatever time, while puts are held up again. */
  lemma {:induction false} FinishedForGood(s: State, remaining: nat, steps: seq<Step>, later: Instant)
    requires Completes(BootstrapOk(remaining)) && forall i :: 0 <= i < |steps| ==> !steps[i].BootstrapErr?
    ensures var after := AfterFrom(Next(s, BootstrapOk(remaining)), steps + [BeginBootstrap]);
            after.beginBootstrap && after.phase.Finished? && !Bootstraps(after, later)
  {
    hide Next;
    assert (steps + [BeginBootstrap])[..|steps|] == steps;
    CompletedStep(s, remaining);
    StaysBegun(Next(s, BootstrapOk(remaining)), steps);
    BeginStep(AfterFrom(Next(s, BootstrapOk(remaining)), steps));
  }

  lemma CompletedStep(s: State, remaining: nat)
    requires Completes(BootstrapOk(remaining))
    ensures Next(s, BootstrapOk(remaining)).phase.Finished?
  {
  }

  lemma BeginStep(s: State)
    ensures Next(s, BeginBootstrap) == s.(beginBootstrap := true)
  {
  }

  lemma TimerStep(s: State, step: Step)
    ensures Next(s, step).bootstrapTimer
         == if step.BootstrapErr? then s.bootstrapTimer.Next(true, step.now) else s.bootstrapTimer
  {
  }

  /** When the last bootstrap failed, if one did. */
  function LastFailure(steps: seq<Step>): Option<Instant> {
    if steps == [] then None
    else if steps[|steps| - 1].BootstrapErr? then Some(steps[|steps| - 1].now)
    else LastFailure(steps[..|steps| - 1])
  }

  /** In every run, however often bootstrapping has failed, the next attempt waits a second and no longer:
      the timer is only ever restarted as after a success. */
  lemma {:induction false} BootstrapRetryIsFlat(steps: seq<Step>, now: Instant)
    ensures var s, failed := After(steps), LastFailure(steps);
            Bootstraps(s, now)
            <==> s.phase.NotStarted? && s.beginBootstrap && (failed.Some? ==> now - failed.value > NANOS_PER_SEC)
    ensures After(steps).bootstrapTimer.resetVal == NANOS_PER_SEC
    ensures LastFailure(steps).None? ==> After(steps).bootstrapTimer.started == None
    ensures LastFailure(steps).Some? ==>
              && After(steps).bootstrapTimer.started == LastFailure(steps)
              && After(steps).bootstrapTimer.timeout == NANOS_PER_SEC
  {
    hide Next;
    if steps != [] {
      BootstrapRetryIsFlat(steps[..|steps| - 1], now);
      TimerStep(After(steps[..|steps| - 1]), steps[|steps| - 1]);
    }
  }

  // ---------------------------------------------------------------- when a poll asks, by history alone

  /** The step at `i` started a bootstrap, or completed one. */
  ghost predicate Engages(steps: seq<Step>, i: nat)
    requires i < |steps|
    decreases i, 2
  {
    Completes(steps[i]) || (steps[i].BootstrapPolled? && steps[i].started && Asks(steps[..i], steps[i].now))
  }

  ghost predicate FailsAfter(steps: seq<Step>, i: nat) {
    exists j :: i < j < |steps| && steps[j].BootstrapErr?
  }

  /** A poll at `now` asks the backend to bootstrap when one was begun and has not completed, every bootstrap
      started or completed so far was followed by a failure, and the last failure is over a second ago. */
  ghost predicate Asks(steps: seq<Step>, now: Instant)
    decreases |steps|, 1
  {
    && Pending(steps)
    && (forall i :: 0 <= i < |steps| && Engages(steps, i) ==> FailsAfter(steps, i))
    && (LastFailure(steps).Some? ==> now - LastFailure(steps).value > NANOS_PER_SEC)
  }

  /** Nothing is started and nothing finished. */
  ghost predicate Idle(steps: seq<Step>) {
    forall i :: 0 <= i < |steps| && Engages(steps, i) ==> FailsAfter(steps, i)
  }

  lemma {:induction false} EngagesEarlier(steps: seq<Step>, i: nat)
    requires i < |steps| - 1
    ensures Engages(steps, i) <==> Engages(steps[..|steps| - 1], i)
    ensures FailsAfter(steps, i) <==> FailsAfter(steps[..|steps| - 1], i) || steps[|steps| - 1].BootstrapErr?
  {
    var earlier := steps[..|steps| - 1];
    assert steps[..i] == earlier[..i] && steps[i] == earlier[i];
    if j :| i < j < |earlier| && earlier[j].BootstrapErr? {
      assert steps[j].BootstrapErr?;
    } else if steps[|steps| - 1].BootstrapErr? {
      assert FailsAfter(steps, i);
    }
  }

  lemma {:induction false} IdleSnoc(steps: seq<Step>)
    requires steps != []
    ensures var last := |steps| - 1;
            Idle(steps) <==> steps[last].BootstrapErr? || (Idle(steps[..last]) && !Engages(steps, last))
  {
    var last := |steps| - 1;
    var earlier := steps[..last];
    hide Engages, FailsAfter;
    NothingAfterLast(steps);
    forall i | 0 <= i < last
      ensures Engages(steps, i) <==> Engages(earlier, i)
      ensures FailsAfter(steps, i) <==> FailsAfter(earlier, i) || steps[last].BootstrapErr?
    {
      EngagesEarlier(steps, i);
    }
    if steps[last].BootstrapErr? {
      FailureEngagesNothing(steps);
    }
  }

  lemma NothingAfterLast(steps: seq<Step>)
    requires steps != []
    ensures !FailsAfter(steps, |steps| - 1)
  {
  }

  lemma {:induction false} FailureEngagesNothing(steps: seq<Step>)
    requires steps != [] && steps[|steps| - 1].BootstrapErr?
    ensures !Engages(steps, |steps| - 1)
  {
  }

  lemma PhaseStep(s: State, step: Step)
    ensures Next(s, step).phase.NotStarted?
            <==> || step.BootstrapErr?
                 || (s.phase.NotStarted? && !Completes(step)
                     && !(step.BootstrapPolled? && step.started && Bootstraps(s, step.now)))
  {
  }

  lemma {:induction false} AsksByParts(steps: seq<Step>, now: Instant)
    ensures Asks(steps, now) <==> && Pending(steps) && Idle(steps)
                                  && (LastFailure(steps).Some? ==> now - LastFailure(steps).value > NANOS_PER_SEC)
  {
    hide Pending, Engages, FailsAfter;
  }

  lemma {:induction false} PhaseIsIdle(steps: seq<Step>)
    ensures After(steps).phase.NotStarted? <==> Idle(steps)
  {
    if steps != [] {
      hide Next, Idle, Engages, Asks, Bootstraps;
      var earlier, step := steps[..|steps| - 1], steps[|steps| - 1];
      PhaseIsIdle(earlier);
      PhaseStep(After(earlier), step);
      IdleSnoc(steps);
      EngagesLast(steps);
      if step.BootstrapPolled? {
        AsksWhenBootstraps(earlier, step.now);
      }
    }
  }

  lemma {:induction false} EngagesLast(steps: seq<Step>)
    requires steps != []
    ensures var step := steps[|steps| - 1];
            Engages(steps, |steps| - 1)
            <==> Completes(step) || (step.BootstrapPolled? && step.started && Asks(steps[..|steps| - 1], step.now))
  {
  }

  lemma {:induction false} AsksWhenBootstraps(steps: seq<Step>, now: Instant)
    requires After(steps).phase.NotStarted? <==> Idle(steps)
    ensures Bootstraps(After(steps), now) <==> Asks(steps, now)
  {
    hide Idle, Asks, Next;
    AsksByParts(steps, now);
    BootstrapHoldsUp(steps);
    BootstrapRetryIsFlat(steps, now);
  }

  /** In every run, at every moment: a poll asks the backend to bootstrap exactly when the history says so. */
  lemma {:induction false} PollAsksExactly(steps: seq<Step>, now: Instant)
    ensures Bootstraps(After(steps), now) <==> Asks(steps, now)
  {
    hide Idle, Asks, Next;
    PhaseIsIdle(steps);
    AsksWhenBootstraps(steps, now);
  }
}
