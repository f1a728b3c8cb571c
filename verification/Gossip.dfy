/** Republishing of gossip messages: a queue of refused messages, drained round robin whenever the retry
    timer has expired. */
module Gossip {
  import opened Bytes
  import opened Time
  import opened Backoff

  datatype Message = Message(topic: Bytes, contents: Bytes)

  /** Whether the backend takes the k-th message a drain offers it. */
  type Backend = nat -> bool

  // ---------------------------------------------------------------- one drain

  /** What a drain did: the messages the backend took, the queue it left, and whether all were taken. */
  datatype Drain = Drain(accepted: seq<Message>, left: seq<Message>, ok: bool) {
    /** How many messages were offered. */
    function Tried(): nat {
      |accepted| + if ok then 0 else 1
    }
  }

  function Drained(queue: seq<Message>, backend: Backend, k: nat): Drain {
    if queue == [] then Drain([], [], true)
    else if !backend(k) then Drain([], queue[1..] + [queue[0]], false)
    else
      var rest := Drained(queue[1..], backend, k + 1);
      Drain([queue[0]] + rest.accepted, rest.left, rest.ok)
  }

  /** A drain is decided by the first refusal, the one at `c`: what is before it is taken, and it goes
      behind what comes after it, untried. Without a refusal the queue is empty afterwards. */
  lemma {:induction false} DrainSplits(queue: seq<Message>, backend: Backend, k: nat) returns (c: nat)
    ensures c <= |queue| && (forall i :: k <= i < k + c ==> backend(i)) && (c < |queue| ==> !backend(k + c))
    ensures Drained(queue, backend, k)
         == Drain(queue[..c], if c < |queue| then queue[c + 1..] + [queue[c]] else [], c == |queue|)
  {
    if queue == [] || !backend(k) {
      c := 0;
    } else {
      var d := DrainSplits(queue[1..], backend, k + 1);
      c := d + 1;
      assert queue[..c] == [queue[0]] + queue[1..][..d];
      if c < |queue| {
        assert queue[1..][d + 1..] == queue[c + 1..];
      }
    }
  }

  /** The messages are offered from the front until one is refused, which goes to the back; `taken` are taken
      and `left` stays queued. */
  ghost predicate Offers(queue: seq<Message>, backend: Backend, taken: seq<Message>, left: seq<Message>) {
    var c := |taken|;
    && c <= |queue| && taken == queue[..c] && (forall i :: 0 <= i < c ==> backend(i))
    && if c == |queue| then left == [] else !backend(c) && left == queue[c + 1..] + [queue[c]]
  }

  lemma {:induction false} DrainOffers(queue: seq<Message>, backend: Backend)
    ensures var d := Drained(queue, backend, 0);
            Offers(queue, backend, d.accepted, d.left) && (d.ok <==> forall i :: 0 <= i < |queue| ==> backend(i))
  {
    hide Drained;
    var _ := DrainSplits(queue, backend, 0);
  }

  // ---------------------------------------------------------------- steps

  datatype State = State(queue: seq<Message>, timer: Timer)

  /** A message is published, and the backend takes it or not; or the behaviour is polled. */
  datatype Step = Published(m: Message, accepted: bool) | Polled(now: Instant, backend: Backend)

  function Start(): State {
    State([], DefaultTimer())
  }

  /** Whether a step drains the queue. */
  predicate Drains(enabled: bool, s: State, step: Step) {
    step.Polled? && enabled && s.timer.Expired(step.now)
  }

  function Next(enabled: bool, s: State, step: Step): State {
    if step.Published? then
      if !step.accepted && enabled then s.(queue := s.queue + [step.m]) else s
    else if Drains(enabled, s, step) then
      var d := Drained(s.queue, step.backend, 0);
      State(d.left, s.timer.Next(d.ok, step.now))
    else s
  }

  /** What the backend took in a step. */
  function Taken(enabled: bool, s: State, step: Step): seq<Message> {
    if step.Published? then if step.accepted then [step.m] else []
    else if Drains(enabled, s, step) then Drained(s.queue, step.backend, 0).accepted
    else []
  }

  class Behaviour {
    const enableRepublish: bool
    const backoff: ExponentialBackoff
    var inProgressMessages: seq<Message>

    constructor (enableRepublish: bool)
      ensures Model() == Start() && fresh(backoff) && this.enableRepublish == enableRepublish
    {
      this.enableRepublish := enableRepublish;
      inProgressMessages := [];
      backoff := new ExponentialBackoff.Default();
    }

    function Model(): State
      reads this, backoff
    {
      State(inProgressMessages, backoff.Model())
    }

    method Publish(m: Message, accepted: bool)
      modifies `inProgressMessages
      ensures Model() == Next(enableRepublish, old(Model()), Published(m, accepted))
    {
      if !accepted && enableRepublish {
        inProgressMessages := inProgressMessages + [m];
      }
    }

    method DrainPublish(backend: Backend) returns (all: bool, ghost accepted: seq<Message>)
      modifies `inProgressMessages
      ensures Drain(accepted, inProgressMessages, all) == Drained(old(inProgressMessages), backend, 0)
    {
      var k := 0;
      accepted := [];
      while inProgressMessages != []
        invariant Drained(old(inProgressMessages), backend, 0)
               == var d := Drained(inProgressMessages, backend, k); d.(accepted := accepted + d.accepted)
        decreases |inProgressMessages|
      {
        var m := inProgressMessages[0];
        inProgressMessages := inProgressMessages[1..];
        if !backend(k) {
          inProgressMessages := inProgressMessages + [m];
          return false, accepted;
        }
        accepted := accepted + [m];
        k := k + 1;
      }
      return true, accepted;
    }

    /** The gate at the head of the poll. */
    method Poll(now: Instant, backend: Backend) returns (ghost accepted: seq<Message>)
      modifies this, backoff
      ensures Model() == Next(enableRepublish, old(Model()), Polled(now, backend))
      ensures accepted == Taken(enableRepublish, old(Model()), Polled(now, backend))
      ensures if enableRepublish && old(backoff.started.None? || now - backoff.started.value > backoff.timeout)
              then && backoff.started == Some(now)
                   && Offers(old(inProgressMessages), backend, accepted, inProgressMessages)
              else Model() == old(Model()) && accepted == []
    {
      accepted := [];
      var expired := backoff.IsExpired(now);
      if enableRepublish && expired {
        var allRepublished;
        DrainOffers(inProgressMessages, backend);
        allRepublished, accepted := DrainPublish(backend);
        backoff.StartNext(allRepublished, now);
      }
    }
  }

  // ---------------------------------------------------------------- conservation

  function After(enabled: bool, steps: seq<Step>): State {
    if steps == [] then Start() else Next(enabled, After(enabled, steps[..|steps| - 1]), steps[|steps| - 1])
  }

  function GivenIn(step: Step): seq<Message> {
    if step.Published? then [step.m] else []
  }

  function Given(steps: seq<Step>): seq<Message> {
    if steps == [] then [] else Given(steps[..|steps| - 1]) + GivenIn(steps[|steps| - 1])
  }

  function AllTaken(enabled: bool, steps: seq<Step>): seq<Message> {
    if steps == [] then []
    else
      var earlier := steps[..|steps| - 1];
      AllTaken(enabled, earlier) + Taken(enabled, After(enabled, earlier), steps[|steps| - 1])
  }

  function TakenAtOnce(steps: seq<Step>): seq<Message> {
    if steps == [] then []
    else
      var last := steps[|steps| - 1];
      TakenAtOnce(steps[..|steps| - 1]) + if last.Published? && last.accepted then [last.m] else []
  }

  lemma {:induction false} DrainConserves(queue: seq<Message>, backend: Backend)
    ensures var d := Drained(queue, backend, 0); multiset(d.accepted) + multiset(d.left) == multiset(queue)
  {
    hide Drained;
    var c := DrainSplits(queue, backend, 0);
    if c < |queue| {
      Rotated(queue[..c], queue[c], queue[c + 1..]);
      assert queue == queue[..c] + ([queue[c]] + queue[c + 1..]);
    } else {
      assert queue[..c] == queue;
    }
  }

  lemma Rotated(a: seq<Message>, m: Message, b: seq<Message>)
    ensures multiset(a) + multiset(b + [m]) == multiset(a + ([m] + b))
  {
  }

  lemma StepConserves(s: State, step: Step)
    ensures multiset(s.queue) + multiset(GivenIn(step))
         == multiset(Taken(true, s, step)) + multiset(Next(true, s, step).queue)
  {
    if Drains(true, s, step) {
      DrainConserves(s.queue, step.backend);
    } else if step.Published? && step.accepted {
      assert multiset(s.queue) + multiset([step.m]) == multiset([step.m]) + multiset(s.queue);
    }
  }

  lemma Settle(given: seq<Message>, taken: seq<Message>, queue: seq<Message>, moreGiven: seq<Message>,
               moreTaken: seq<Message>, left: seq<Message>)
    requires multiset(given) == multiset(taken) + multiset(queue)
    requires multiset(queue) + multiset(moreGiven) == multiset(moreTaken) + multiset(left)
    ensures multiset(given + moreGiven) == multiset(taken + moreTaken) + multiset(left)
  {
    calc {
      multiset(given + moreGiven);
      multiset(given) + multiset(moreGiven);
      multiset(taken) + (multiset(queue) + multiset(moreGiven));
      multiset(taken + moreTaken) + multiset(left);
    }
  }

  /** With republishing, every message given to `publish` has been taken by the backend once or is still
      queued once. */
  lemma {:induction false} MessagesAreConserved(steps: seq<Step>)
    ensures multiset(Given(steps)) == multiset(AllTaken(true, steps)) + multiset(After(true, steps).queue)
  {
    hide Next, Taken, GivenIn;
    if steps != [] {
      var earlier, step := steps[..|steps| - 1], steps[|steps| - 1];
      var s := After(true, earlier);
      MessagesAreConserved(earlier);
      StepConserves(s, step);
      Settle(Given(earlier), AllTaken(true, earlier), s.queue, GivenIn(step), Taken(true, s, step), Next(true, s,
          step).queue);
    } else {
      assert After(true, steps).queue == [];
    }
  }

  /** Without it nothing is ever queued: a message the backend refuses at once is dropped. */
  lemma {:induction false} RefusedIsDropped(steps: seq<Step>)
    ensures After(false, steps).queue == [] && AllTaken(false, steps) == TakenAtOnce(steps)
  {
    if steps != [] {
      RefusedIsDropped(steps[..|steps| - 1]);
    }
  }

  // ---------------------------------------------------------------- fairness

  function AfterFrom(enabled: bool, s: State, steps: seq<Step>): State
    decreases |steps|
  {
    if steps == [] then s else AfterFrom(enabled, Next(enabled, s, steps[0]), steps[1..])
  }

  function DrainCount(enabled: bool, s: State, steps: seq<Step>): nat
    decreases |steps|
  {
    if steps == [] then 0
    else (if Drains(enabled, s, steps[0]) then 1 else 0) + DrainCount(enabled, Next(enabled, s, steps[0]), steps[1..])
  }

  /** Where the message at position `i` is after some steps, as long as no drain has offered it. */
  function Untried(enabled: bool, s: State, i: nat, steps: seq<Step>): Option<nat>
    decreases |steps|
  {
    if steps == [] then Some(i)
    else if !Drains(enabled, s, steps[0]) then Untried(enabled, Next(enabled, s, steps[0]), i, steps[1..])
    else
      var tried := Drained(s.queue, steps[0].backend, 0).Tried();
      if i < tried then None else Untried(enabled, Next(enabled, s, steps[0]), i - tried, steps[1..])
  }

  /** A message that has not been offered has moved up by a place or more with every drain. */
  lemma {:induction false} UntriedMovesUp(enabled: bool, s: State, i: nat, steps: seq<Step>)
    requires i < |s.queue| && Untried(enabled, s, i, steps).Some?
    ensures var j := Untried(enabled, s, i, steps).value;
            && j < |AfterFrom(enabled, s, steps).queue| && AfterFrom(enabled, s, steps).queue[j] == s.queue[i]
            && j + DrainCount(enabled, s, steps) <= i
    decreases |steps|
  {
    if steps != [] {
      var next := Next(enabled, s, steps[0]);
      if Drains(enabled, s, steps[0]) {
        var c := DrainSplits(s.queue, steps[0].backend, 0);
        UntriedMovesUp(enabled, next, i - (c + 1), steps[1..]);
      } else {
        UntriedMovesUp(enabled, next, i, steps[1..]);
      }
    }
  }

  /** Round robin: whatever the backend does and whatever is published in between, a message at position
      `i` is offered again within the next `i + 1` drains. */
  lemma {:induction false} OfferedInTurn(enabled: bool, s: State, i: nat, steps: seq<Step>)
    requires i < |s.queue| && DrainCount(enabled, s, steps) > i
    ensures Untried(enabled, s, i, steps) == None
  {
    if Untried(enabled, s, i, steps).Some? {
      UntriedMovesUp(enabled, s, i, steps);
    }
  }

  // ---------------------------------------------------------------- time

  /** The drains of a run, with their outcomes. */
  function DrainsOf(enabled: bool, steps: seq<Step>): seq<Use> {
    if steps == [] then []
    else
      var earlier, step := steps[..|steps| - 1], steps[|steps| - 1];
      var s := After(enabled, earlier);
      DrainsOf(enabled, earlier)
      + if Drains(enabled, s, step) then [Use(Drained(s.queue, step.backend, 0).ok, step.now)] else []
  }

  lemma {:induction false} WaitedSnoc(t: Timer, uses: seq<Use>, use: Use)
    requires Waited(t, uses) && Backoff.After(t, uses).Expired(use.now)
    ensures Waited(t, uses + [use]) && Backoff.After(t, uses + [use]) == Backoff.After(t, uses).Next(use.ok, use.now)
  {
    assert (uses + [use])[..|uses|] == uses;
    forall k | 0 <= k < |uses + [use]| ensures Backoff.After(t, (uses + [use])[..k]).Expired((uses + [use])[k].now) {
      assert k < |uses| ==> (uses + [use])[..k] == uses[..k];
    }
  }

  /** The timer of a run has been through the run's drains and nothing else, each of which waited for it. */
  lemma {:induction false} TimerFollowsDrains(enabled: bool, steps: seq<Step>)
    ensures After(enabled, steps).timer == Backoff.After(DefaultTimer(), DrainsOf(enabled, steps))
    ensures Waited(DefaultTimer(), DrainsOf(enabled, steps))
  {
    if steps != [] {
      var earlier, step := steps[..|steps| - 1], steps[|steps| - 1];
      TimerFollowsDrains(enabled, earlier);
      var s := After(enabled, earlier);
      if Drains(enabled, s, step) {
        WaitedSnoc(DefaultTimer(), DrainsOf(enabled, earlier), Use(Drained(s.queue, step.backend, 0).ok, step.now));
      } else {
        assert DrainsOf(enabled, steps) == DrainsOf(enabled, earlier);
      }
    }
  }

  // ---------------------------------------------------------------- when a poll offers, by history alone

  /** With republishing, a poll at `now` is due if none has offered yet, or if more time has passed since the
      last one that did than half a second, doubled for each failure since the last success, 64 times at most. */
  predicate Due(offers: seq<Use>, now: Instant) {
    || offers == []
    || now - offers[|offers| - 1].now > 500 * MILLIS * Power(2, Min(Failing(offers), 64))
  }

  /** A poll that offers: a success if the backend takes every message. */
  ghost function Offering(queue: seq<Message>, backend: Backend, now: Instant): Use {
    Use(forall i :: 0 <= i < |queue| ==> backend(i), now)
  }

  /** The polls of a run that were due, with their outcomes. */
  ghost function OffersOf(steps: seq<Step>): seq<Use> {
    if steps == [] then []
    else
      var earlier, step := steps[..|steps| - 1], steps[|steps| - 1];
      var offers := OffersOf(earlier);
      if step.Polled? && Due(offers, step.now)
      then offers + [Offering(After(true, earlier).queue, step.backend, step.now)] else offers
  }

  lemma {:induction false} DrainsWhenDue(offers: seq<Use>, s: State, step: Step)
    requires step.Polled? && s.timer == Backoff.After(DefaultTimer(), offers)
    ensures Drains(true, s, step) <==> Due(offers, step.now)
  {
    hide Backoff.After, Power;
    TimeoutByFailures(offers);
  }

  lemma {:induction false} OffersAreDrains(steps: seq<Step>)
    ensures OffersOf(steps) == DrainsOf(true, steps)
  {
    if steps != [] {
      var earlier, step := steps[..|steps| - 1], steps[|steps| - 1];
      var s := After(true, earlier);
      hide Next, Drains, Due, Backoff.After, Drained;
      OffersAreDrains(earlier);
      TimerFollowsDrains(true, earlier);
      if step.Polled? {
        DrainsWhenDue(OffersOf(earlier), s, step);
        DrainOffers(s.queue, step.backend);
      } else {
        PublishedNeverDrains(s, step);
      }
    }
  }

  lemma PublishedNeverDrains(s: State, step: Step)
    requires step.Published?
    ensures !Drains(true, s, step)
  {
  }

  /** In every run with republishing and at every moment: a poll that is due offers the queue from its front
      and restarts the timer, with the timeout its outcome calls for; one that is not takes nothing, moves
      nothing and leaves the timer alone. */
  lemma {:induction false} PollOffersExactly(steps: seq<Step>, now: Instant, backend: Backend)
    ensures var s, step := After(true, steps), Polled(now, backend);
            var t := After(true, steps + [step]);
            if Due(OffersOf(steps), now) then
              && Offers(s.queue, backend, Taken(true, s, step), t.queue)
              && t.timer.started == Some(now)
              && t.timer.timeout
                 == 500 * MILLIS * Power(2, Min(Failing(OffersOf(steps) + [Offering(s.queue, backend, now)]), 64))
            else t == s && Taken(true, s, step) == []
  {
    hide Due, Backoff.After, Power, Failing, Drained, Offers;
    var s, step := After(true, steps), Polled(now, backend);
    assert (steps + [step])[..|steps|] == steps;
    OffersAreDrains(steps);
    OffersAreDrains(steps + [step]);
    TimerFollowsDrains(true, steps);
    TimerFollowsDrains(true, steps + [step]);
    DrainsWhenDue(OffersOf(steps), s, step);
    DrainOffers(s.queue, backend);
    TimeoutByFailures(OffersOf(steps + [step]));
  }

  /** Without republishing no poll of any run offers anything, whatever the clock, and none touches the timer. */
  lemma {:induction false} NoPollOffers(steps: seq<Step>, now: Instant, backend: Backend)
    ensures After(false, steps) == State([], DefaultTimer())
    ensures Taken(false, After(false, steps), Polled(now, backend)) == []
  {
    if steps != [] {
      NoPollOffers(steps[..|steps| - 1], now, backend);
    }
  }

  lemma {:induction false} FreshTimeout(uses: seq<Use>)
    requires uses == [] || uses[|uses| - 1].ok
    ensures var t := Backoff.After(DefaultTimer(), uses); t.timeout == DEFAULT_TIMEOUT && t.factor == 2
  {
    UsesKeepSettings(DefaultTimer(), uses);
    if uses != [] {
      UsesKeepSettings(DefaultTimer(), uses[..|uses| - 1]);
    }
  }

  lemma {:induction false} WaitedFrom(t: Timer, uses: seq<Use>, i: nat, j: nat)
    requires i <= j <= |uses| && Waited(t, uses)
    ensures Waited(Backoff.After(t, uses[..i]), uses[i..j])
  {
    var part := uses[i..j];
    forall k | 0 <= k < |part| ensures Backoff.After(Backoff.After(t, uses[..i]), part[..k]).Expired(part[k].now) {
      assert uses[..i] + part[..k] == uses[..i + k];
      AfterCat(t, uses[..i], part[..k]);
      assert Backoff.After(t, uses[..i + k]).Expired(uses[i + k].now);
    }
  }

  /** In every run: when a series of drains starts the run or follows a success, and all but perhaps its
      last one fail, the last comes more than 500 * (2^n - 2) milliseconds after the first, for `n` drains up to 65. */
  lemma {:induction false} FailingDrainsSpreadOut(enabled: bool, steps: seq<Step>, i: nat, j: nat)
    requires i < j < |DrainsOf(enabled, steps)|
    requires i == 0 || DrainsOf(enabled, steps)[i - 1].ok
    requires AllFail(DrainsOf(enabled, steps)[i..j])
    ensures var n := j - i + 1;
            && DrainsOf(enabled, steps)[j].now - DrainsOf(enabled, steps)[i].now > LeastSpan(n)
            && (n <= 65 ==> LeastSpan(n) == 500 * (Power(2, n) - 2) * MILLIS)
  {
    hide DrainsOf, Power, LeastSpan, Backoff.After, Waited;
    var drains := DrainsOf(enabled, steps);
    TimerFollowsDrains(enabled, steps);
    FreshTimeout(drains[..i]);
    WaitedFrom(DefaultTimer(), drains, i, j + 1);
    var series := drains[i..j + 1];
    assert series[..|series| - 1] == drains[i..j];
    assert series[|series| - 1] == drains[j] && series[0] == drains[i];
    FailuresSpreadOut(Backoff.After(DefaultTimer(), drains[..i]), series);
    LeastSpanIs(j - i + 1);
  }
}
