/** One put through a run: where it is, when it is handed to the backend again, and how long that takes. */
module DhtRetries {
  import opened Bytes
  import opened Time
  import opened Backoff
  import opened Dht
  import opened DhtRuns

  /** Where a put is: postponed, in progress under a query id, or finished. */
  datatype Place = Postponed(index: nat) | Under(id: QueryId) | Done

  /** What happens to it on the way. */
  datatype Mark = Handed(now: Instant) | Refused(now: Instant)

  ghost predicate Here(s: State, p: Place) {
    match p
    case Postponed(index) => index < |s.putQueue|
    case Under(id) => id in s.puts
    case Done => false
  }

  ghost function QueryAt(s: State, p: Place): PutQuery
    requires Here(s, p)
  {
    match p
    case Postponed(index) => s.putQueue[index]
    case Under(id) => s.puts[id]
  }

  /** The put at the front of the queue is handed to the backend in this step. */
  predicate HandsFront(s: State, step: Step) {
    step.PutTurn? && s.putQueue != [] && s.putQueue[0].timer.Expired(step.now) && !s.beginBootstrap
  }

  /** Where the put is after a step. */
  function Move(s: State, p: Place, step: Step): Place {
    match p
    case Postponed(index) =>
      if !step.PutTurn? || s.putQueue == [] then p
      else if index > 0 then Postponed(index - 1)
      else if HandsFront(s, step) && step.answer.Some? then Under(step.answer.value)
      else Postponed(|s.putQueue| - 1)
    case Under(id) =>
      if !step.PutDone? || step.id != id then p else if step.ok then Done else Postponed(|s.putQueue|)
    case Done => Done
  }

  /** What the step does to it. */
  function Marks(s: State, p: Place, step: Step): seq<Mark> {
    match p
    case Postponed(index) =>
      if index > 0 || !HandsFront(s, step) then []
      else if step.answer.Some? then [Handed(step.now)]
      else [Handed(step.now), Refused(step.now)]
    case Under(id) => if step.PutDone? && step.id == id && !step.ok then [Refused(step.now)] else []
    case Done => []
  }

  function Log(s: State, p: Place, steps: seq<Step>): seq<Mark>
    decreases |steps|
  {
    if steps == [] then [] else Marks(s, p, steps[0]) + Log(Next(s, steps[0]), Move(s, p, steps[0]), steps[1..])
  }

  /** No query id is given out while it is in use. */
  ghost predicate FreshFrom(s: State, steps: seq<Step>)
    decreases |steps|
  {
    steps == [] || (Offered(steps[0]) !! s.puts.Keys && FreshFrom(Next(s, steps[0]), steps[1..]))
  }

  /** The refusals, as uses of the put's timer. */
  function Refusals(log: seq<Mark>): seq<Use> {
    if log == [] then []
    else
      var last := log[|log| - 1];
      Refusals(log[..|log| - 1]) + if last.Refused? then [Use(false, last.now)] else []
  }

  lemma {:induction false} RefusalsFail(log: seq<Mark>)
    ensures AllFail(Refusals(log)) && |Refusals(log)| <= |log|
  {
    if log != [] {
      RefusalsFail(log[..|log| - 1]);
    }
  }

  lemma {:induction false} RefusalsCat(a: seq<Mark>, b: seq<Mark>)
    ensures Refusals(a + b) == Refusals(a) + Refusals(b)
    decreases |b|
  {
    if b == [] {
      assert a + b == a;
    } else {
      RefusalsCat(a, b[..|b| - 1]);
      assert (a + b)[..|a + b| - 1] == a + b[..|b| - 1];
    }
  }

  /** The timer after what is in the log. */
  function TimerAfter(t: Timer, log: seq<Mark>): Timer {
    Backoff.After(t, Refusals(log))
  }

  lemma {:induction false} TimerAfterCat(t: Timer, a: seq<Mark>, b: seq<Mark>)
    ensures TimerAfter(t, a + b) == TimerAfter(TimerAfter(t, a), b)
  {
    RefusalsCat(a, b);
    AfterCat(t, Refusals(a), Refusals(b));
  }

  lemma {:induction false} TimerAfterNone(t: Timer)
    ensures TimerAfter(t, []) == t
  {
  }

  lemma {:induction false} TimerAfterOne(t: Timer, mark: Mark)
    ensures TimerAfter(t, [mark]) == if mark.Refused? then t.Next(false, mark.now) else t
  {
    var init := [mark][..|[mark]| - 1];
    assert init == [] && Refusals(init) == [];
    if mark.Refused? {
      assert Refusals([mark]) == [Use(false, mark.now)];
      AfterOne(t, Use(false, mark.now));
    } else {
      assert Refusals([mark]) == [];
    }
  }

  lemma {:induction false} AfterOne(t: Timer, use: Use)
    ensures Backoff.After(t, [use]) == t.Next(use.ok, use.now)
  {
    var init := [use][..|[use]| - 1];
    assert init == [] && Backoff.After(t, init) == t;
  }

  lemma {:induction false} TimerAfterTwo(t: Timer, now: Instant)
    ensures TimerAfter(t, [Handed(now), Refused(now)]) == t.Next(false, now)
  {
    TimerAfterOne(t, Handed(now));
    TimerAfterOne(t, Refused(now));
    TimerAfterCat(t, [Handed(now)], [Refused(now)]);
    assert [Handed(now), Refused(now)] == [Handed(now)] + [Refused(now)];
  }

  // ---------------------------------------------------------------- one step

  lemma WhilePostponed(s: State, index: nat, step: Step)
    requires index < |s.putQueue| && !(step.PutTurn? && index == 0)
    ensures var p := Move(s, Postponed(index), step);
            Here(Next(s, step), p) && QueryAt(Next(s, step), p) == s.putQueue[index]
  {
    hide Counted, Timer.Expired, Timer.Next;
  }

  lemma AtTheFront(s: State, step: Step)
    requires s.putQueue != [] && step.PutTurn?
    ensures var q, p := s.putQueue[0], Move(s, Postponed(0), step);
            && Here(Next(s, step), p)
            && QueryAt(Next(s, step), p)
               == if HandsFront(s, step) && step.answer.None? then q.(timer := q.timer.Next(false, step.now)) else q
  {
    hide Timer.Expired, Timer.Next;
  }

  lemma WhileUnder(s: State, id: QueryId, step: Step)
    requires id in s.puts && Offered(step) !! s.puts.Keys
    ensures var p := Move(s, Under(id), step);
            p.Done? || (Here(Next(s, step), p)
                        && QueryAt(Next(s, step), p)
                           == if step.PutDone? && step.id == id
                              then s.puts[id].(timer := s.puts[id].timer.Next(false, step.now)) else s.puts[id])
  {
    hide Counted, Timer.Expired, Timer.Next;
  }

  /** A step keeps track of the put, and restarts its timer just when it was refused. */
  lemma StepTracks(s: State, p: Place, step: Step)
    requires Here(s, p) && Offered(step) !! s.puts.Keys
    ensures var p', q := Move(s, p, step), QueryAt(s, p);
            p'.Done? || (Here(Next(s, step), p')
                         && QueryAt(Next(s, step), p') == q.(timer := TimerAfter(q.timer, Marks(s, p, step))))
  {
    hide Next, TimerAfter;
    var t := QueryAt(s, p).timer;
    TimerAfterNone(t);
    match p
    case Postponed(index) =>
      if step.PutTurn? && index == 0 {
        AtTheFront(s, step);
        TimerAfterOne(t, Handed(step.now));
        TimerAfterTwo(t, step.now);
      } else {
        WhilePostponed(s, index, step);
      }
    case Under(id) =>
      WhileUnder(s, id, step);
      if step.PutDone? {
        TimerAfterOne(t, Refused(step.now));
      }
  }

  /** It is handed over only when its timer has run out, and first of all that the step does to it. */
  lemma HandedFirst(s: State, p: Place, step: Step, k: nat)
    requires Here(s, p) && k < |Marks(s, p, step)| && Marks(s, p, step)[k].Handed?
    ensures k == 0 && QueryAt(s, p).timer.Expired(Marks(s, p, step)[k].now)
  {
  }

  // ---------------------------------------------------------------- whole runs

  lemma {:induction false} NothingWhenDone(s: State, steps: seq<Step>)
    ensures Log(s, Done, steps) == []
    decreases |steps|
  {
    if steps != [] {
      NothingWhenDone(Next(s, steps[0]), steps[1..]);
    }
  }

  /** In every run, from wherever a put is: it is handed to the backend again only when its timer, restarted
      at each of its refusals and at nothing else, has run out. */
  lemma {:induction false} HandedWhenExpired(s: State, p: Place, steps: seq<Step>, k: nat)
    requires Here(s, p) && FreshFrom(s, steps)
    requires k < |Log(s, p, steps)| && Log(s, p, steps)[k].Handed?
    ensures TimerAfter(QueryAt(s, p).timer, Log(s, p, steps)[..k]).Expired(Log(s, p, steps)[k].now)
    decreases |steps|
  {
    hide Next, Move, Marks, TimerAfter, Refusals;
    var step, t := steps[0], QueryAt(s, p).timer;
    var marks, s', p' := Marks(s, p, step), Next(s, step), Move(s, p, step);
    var rest := Log(s', p', steps[1..]);
    assert Log(s, p, steps) == marks + rest;
    if k < |marks| {
      HandedFirst(s, p, step, k);
      TimerAfterNone(t);
      assert (marks + rest)[..0] == [];
    } else {
      StepTracks(s, p, step);
      if p'.Done? {
        NothingWhenDone(s', steps[1..]);
      } else {
        HandedWhenExpired(s', p', steps[1..], k - |marks|);
        assert (marks + rest)[..k] == marks + rest[..k - |marks|];
        TimerAfterCat(t, marks, rest[..k - |marks|]);
      }
    }
  }

  lemma {:induction false} LastRefusal(log: seq<Mark>, j: nat)
    requires j < |log| && log[j].Refused? && forall i :: j < i < |log| ==> log[i].Handed?
    ensures var uses := Refusals(log); uses != [] && uses[|uses| - 1] == Use(false, log[j].now)
    decreases |log|
  {
    if j < |log| - 1 {
      LastRefusal(log[..|log| - 1], j);
    }
  }

  /** In every run a put that started with the default timer, whatever happened to it in the `past`, is handed
      over again after its n-th refusal only when more than 500 * 2^min(n, 64) milliseconds have passed. */
  lemma {:induction false} RetriesSpreadOut(s: State, p: Place, steps: seq<Step>, past: seq<Mark>, j: nat, k: nat)
    requires Here(s, p) && FreshFrom(s, steps) && QueryAt(s, p).timer == TimerAfter(DefaultTimer(), past)
    requires j < k && |past| <= k < |past + Log(s, p, steps)|
    requires (past + Log(s, p, steps))[j].Refused? && (past + Log(s, p, steps))[k].Handed?
    requires forall i :: j < i < k ==> (past + Log(s, p, steps))[i].Handed?
    ensures var log := past + Log(s, p, steps);
            log[k].now - log[j].now > DEFAULT_TIMEOUT * Power(2, Min(|Refusals(log[..k])|, 64))
  {
    hide Log, Refusals, Power;
    var own := Log(s, p, steps);
    var log := past + own;
    var uses := Refusals(log[..k]);
    HandedWhenExpired(s, p, steps, k - |past|);
    assert log[..k] == past + own[..k - |past|];
    TimerAfterCat(DefaultTimer(), past, own[..k - |past|]);
    LastRefusal(log[..k], j);
    RefusalsFail(log[..k]);
    DefaultTimeout(DefaultTimer(), uses);
    UsesKeepSettings(DefaultTimer(), uses);
  }

  /** A put just given with the default timer: where it is, and what has happened to it. */
  lemma {:induction false} JustGiven(s: State, payload: Payload, answer: Option<QueryId>, now: Instant)
    requires answer.Some? ==> answer.value !in s.puts
    ensures var s' := Next(s, PutAsked(PutQuery(DefaultTimer(), payload), answer, now));
            var p := if s.beginBootstrap || answer.None? then Postponed(|s.putQueue|) else Under(answer.value);
            var past := if s.beginBootstrap then []
                        else if answer.Some? then [Handed(now)]
                        else [Handed(now), Refused(now)];
            Here(s', p) && QueryAt(s', p) == PutQuery(TimerAfter(DefaultTimer(), past), payload)
  {
    hide TimerAfter, Timer.Next;
    TimerAfterNone(DefaultTimer());
    TimerAfterOne(DefaultTimer(), Handed(now));
    TimerAfterTwo(DefaultTimer(), now);
  }
}
