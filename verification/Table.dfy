/** The table of discovered nodes: announcements extend entries, sweeps expire them, and every change
    of the set of live pairs is queued as an event. */
module Table {
  import opened Bytes
  import opened Time
  import opened Multiaddrs
  import opened Query

  datatype Pair = Pair(peer: PeerId, addr: Multiaddr)

  datatype Event = Discovered(pairs: seq<Pair>) | Expired(pairs: seq<Pair>)

  function PairOf(d: Discovery): Pair {
    Pair(d.peer, d.addr)
  }

  // ---------------------------------------------------------------- the list of entries

  /** Extends the first entry for the pair, or appends a new one. */
  function Absorb(nodes: seq<Discovery>, d: Discovery): seq<Discovery> {
    if nodes == [] then [d]
    else if PairOf(nodes[0]) == PairOf(d) then
      [nodes[0].(expiration := Max(nodes[0].expiration, d.expiration))] + nodes[1..]
    else [nodes[0]] + Absorb(nodes[1..], d)
  }

  function Unexpired(nodes: seq<Discovery>, now: Instant): seq<Discovery> {
    if nodes == [] then []
    else if nodes[0].expiration <= now then Unexpired(nodes[1..], now)
    else [nodes[0]] + Unexpired(nodes[1..], now)
  }

  function ExpiredPairs(nodes: seq<Discovery>, now: Instant): seq<Pair> {
    if nodes == [] then []
    else if nodes[0].expiration <= now then [PairOf(nodes[0])] + ExpiredPairs(nodes[1..], now)
    else ExpiredPairs(nodes[1..], now)
  }

  /** The expiration of the first entry for the pair. */
  function Lookup(nodes: seq<Discovery>, pair: Pair): Option<Instant> {
    if nodes == [] then None
    else if PairOf(nodes[0]) == pair then Some(nodes[0].expiration)
    else Lookup(nodes[1..], pair)
  }

  ghost predicate NoDuplicates(nodes: seq<Discovery>) {
    forall i, j :: 0 <= i < j < |nodes| ==> PairOf(nodes[i]) != PairOf(nodes[j])
  }

  lemma {:induction false} LookupFinds(nodes: seq<Discovery>, i: nat)
    requires i < |nodes| && NoDuplicates(nodes)
    ensures Lookup(nodes, PairOf(nodes[i])) == Some(nodes[i].expiration)
  {
    if i > 0 {
      LookupFinds(nodes[1..], i - 1);
    }
  }

  lemma {:induction false} LookupFrom(nodes: seq<Discovery>, pair: Pair)
    ensures Lookup(nodes, pair).Some?
            <==> exists i :: 0 <= i < |nodes| && PairOf(nodes[i]) == pair
    ensures Lookup(nodes, pair).Some? ==>
              Discovery(pair.peer, pair.addr, Lookup(nodes, pair).value) in nodes
  {
    if nodes != [] && PairOf(nodes[0]) != pair {
      LookupFrom(nodes[1..], pair);
      assert nodes == [nodes[0]] + nodes[1..];
      if i :| 0 <= i < |nodes| && PairOf(nodes[i]) == pair {
        assert PairOf(nodes[1..][i - 1]) == pair;
      }
    }
  }

  /** On the pairs, absorbing is a map update with the later of the two expirations. */
  lemma {:induction false} LookupOfAbsorb(nodes: seq<Discovery>, d: Discovery, pair: Pair)
    ensures Lookup(Absorb(nodes, d), pair)
         == if pair != PairOf(d) then Lookup(nodes, pair)
            else if Lookup(nodes, pair).Some? then Some(Max(Lookup(nodes, pair).value, d.expiration))
            else Some(d.expiration)
  {
    if nodes != [] {
      LookupOfAbsorb(nodes[1..], d, pair);
    }
  }

  lemma {:induction false} AbsorbShape(nodes: seq<Discovery>, d: Discovery)
    ensures var after := Absorb(nodes, d);
            && |after| == |nodes| + (if Lookup(nodes, PairOf(d)).Some? then 0 else 1)
            && (forall i :: 0 <= i < |nodes| ==> PairOf(after[i]) == PairOf(nodes[i]))
            && (|after| > |nodes| ==> after[|nodes|] == d)
  {
    if nodes != [] {
      AbsorbShape(nodes[1..], d);
    }
  }

  lemma {:induction false} AbsorbKeepsDistinct(nodes: seq<Discovery>, d: Discovery)
    requires NoDuplicates(nodes)
    ensures NoDuplicates(Absorb(nodes, d))
  {
    AbsorbShape(nodes, d);
    LookupFrom(nodes, PairOf(d));
  }

  lemma {:induction false} UnexpiredMembers(nodes: seq<Discovery>, now: Instant)
    ensures forall d :: d in Unexpired(nodes, now) <==> d in nodes && d.expiration > now
  {
    if nodes != [] {
      UnexpiredMembers(nodes[1..], now);
      assert nodes == [nodes[0]] + nodes[1..];
    }
  }

  lemma {:induction false} UnexpiredKeepsDistinct(nodes: seq<Discovery>, now: Instant)
    requires NoDuplicates(nodes)
    ensures NoDuplicates(Unexpired(nodes, now))
  {
    if nodes != [] {
      var rest := nodes[1..];
      UnexpiredKeepsDistinct(rest, now);
      UnexpiredMembers(rest, now);
      var kept := Unexpired(rest, now);
      forall i | 0 <= i < |kept| ensures PairOf(kept[i]) != PairOf(nodes[0]) {
        assert kept[i] in rest;
      }
    }
  }

  lemma HeadIsOnly(nodes: seq<Discovery>)
    requires nodes != [] && NoDuplicates(nodes)
    ensures Lookup(nodes[1..], PairOf(nodes[0])) == None
  {
    LookupFrom(nodes[1..], PairOf(nodes[0]));
  }

  /** On the pairs, a sweep drops those whose expiration is not after `now` and keeps the others. */
  lemma {:induction false} LookupOfUnexpired(nodes: seq<Discovery>, now: Instant, pair: Pair)
    requires NoDuplicates(nodes)
    ensures Lookup(Unexpired(nodes, now), pair)
         == if Lookup(nodes, pair).Some? && Lookup(nodes, pair).value > now then Lookup(nodes, pair) else None
  {
    if nodes != [] {
      LookupOfUnexpired(nodes[1..], now, pair);
      if PairOf(nodes[0]) == pair && nodes[0].expiration <= now {
        HeadIsOnly(nodes);
      }
    }
  }

  /** A sweep keeps the entries that expire later, and gives up the pairs of the others, both in table order. */
  lemma {:induction false} SweepSplits(nodes: seq<Discovery>, now: Instant, kept: Discovery -> Option<Discovery>,
                                       gone: Discovery -> Option<Pair>)
    requires forall d :: kept(d) == if d.expiration > now then Some(d) else None
    requires forall d :: gone(d) == if d.expiration > now then None else Some(Pair(d.peer, d.addr))
    ensures Unexpired(nodes, now) == FilterMap(kept, nodes) && ExpiredPairs(nodes, now) == FilterMap(gone, nodes)
  {
    if nodes != [] {
      SweepSplits(nodes[1..], now, kept, gone);
    }
  }

  lemma {:induction false} ExpiredMembers(nodes: seq<Discovery>, now: Instant)
    ensures forall p :: p in ExpiredPairs(nodes, now)
                        <==> exists d :: d in nodes && PairOf(d) == p && d.expiration <= now
  {
    if nodes != [] {
      ExpiredMembers(nodes[1..], now);
      assert nodes == [nodes[0]] + nodes[1..];
    }
  }

  // ---------------------------------------------------------------- histories

  /** What happens to the table, one thing at a time. */
  datatype Step = Received(d: Discovery) | Swept(now: Instant)

  function Apply(nodes: seq<Discovery>, step: Step): seq<Discovery> {
    match step
    case Received(d) => Absorb(nodes, d)
    case Swept(now) => Unexpired(nodes, now)
  }

  function After(history: seq<Step>): seq<Discovery> {
    if history == [] then [] else Apply(After(history[..|history| - 1]), history[|history| - 1])
  }

  lemma {:induction false} AfterHasNoDuplicates(history: seq<Step>)
    ensures NoDuplicates(After(history))
  {
    if history != [] {
      var before := history[..|history| - 1];
      AfterHasNoDuplicates(before);
      match history[|history| - 1]
      case Received(d) => AbsorbKeepsDistinct(After(before), d);
      case Swept(now) => UnexpiredKeepsDistinct(After(before), now);
    }
  }

  /** The announcement at `i` concerns the pair and outlasts every sweep since. */
  ghost predicate Survives(history: seq<Step>, i: int, pair: Pair) {
    && 0 <= i < |history| && history[i].Received? && PairOf(history[i].d) == pair
    && forall j :: i < j < |history| && history[j].Swept? ==> history[j].now < history[i].d.expiration
  }

  ghost predicate IsLatestSurvivor(history: seq<Step>, i: int, pair: Pair) {
    && Survives(history, i, pair)
    && forall k :: Survives(history, k, pair) ==> history[k].d.expiration <= history[i].d.expiration
  }

  lemma SurvivesSnoc(before: seq<Step>, step: Step, i: int, pair: Pair)
    ensures Survives(before + [step], i, pair)
            <==> || (Survives(before, i, pair) && (step.Swept? ==> step.now < before[i].d.expiration))
                 || (i == |before| && step.Received? && PairOf(step.d) == pair)
  {
    var history := before + [step];
    if 0 <= i < |before| {
      assert history[i] == before[i];
      if Survives(history, i, pair) {
        forall j | i < j < |before| && before[j].Swept? ensures before[j].now < before[i].d.expiration {
          assert history[j] == before[j];
        }
        if step.Swept? {
          assert history[|before|] == step;
        }
      }
    }
  }

  /** `latest` is the greatest expiration among the announcements of the pair that survive, if any. */
  ghost predicate LatestIs(history: seq<Step>, pair: Pair, latest: Option<Instant>) {
    if latest.None? then forall i :: !Survives(history, i, pair)
    else exists i :: IsLatestSurvivor(history, i, pair) && history[i].d.expiration == latest.value
  }

  lemma {:induction false} ReceivedKeepsLatest(before: seq<Step>, d: Discovery, pair: Pair)
    requires LatestIs(before, pair, Lookup(After(before), pair))
    ensures LatestIs(before + [Received(d)], pair, Lookup(Absorb(After(before), d), pair))
  {
    LookupOfAbsorb(After(before), d, pair);
    var history, was := before + [Received(d)], Lookup(After(before), pair);
    forall i
      ensures Survives(history, i, pair) <==> Survives(before, i, pair) || (i == |before| && PairOf(d) == pair)
    {
      SurvivesSnoc(before, Received(d), i, pair);
    }
    if PairOf(d) == pair && (was.None? || d.expiration >= was.value) {
      assert IsLatestSurvivor(history, |before|, pair);
    } else if was.Some? {
      var i :| IsLatestSurvivor(before, i, pair) && before[i].d.expiration == was.value;
      assert IsLatestSurvivor(history, i, pair);
    }
  }

  lemma {:induction false} SweptKeepsLatest(before: seq<Step>, now: Instant, pair: Pair)
    requires NoDuplicates(After(before)) && LatestIs(before, pair, Lookup(After(before), pair))
    ensures LatestIs(before + [Swept(now)], pair, Lookup(Unexpired(After(before), now), pair))
  {
    LookupOfUnexpired(After(before), now, pair);
    var history, was := before + [Swept(now)], Lookup(After(before), pair);
    forall i
      ensures Survives(history, i, pair) <==> Survives(before, i, pair) && now < before[i].d.expiration
    {
      SurvivesSnoc(before, Swept(now), i, pair);
    }
    if was.Some? {
      var i :| IsLatestSurvivor(before, i, pair) && before[i].d.expiration == was.value;
      if was.value > now {
        assert IsLatestSurvivor(history, i, pair);
      }
    }
  }

  /** The table depends only on which announcements have outlasted the sweeps that followed them: a
      pair is in it exactly when one has, and expires at the latest of their expirations. */
  lemma {:induction false} TableHoldsSurvivors(history: seq<Step>, pair: Pair)
    ensures LatestIs(history, pair, Lookup(After(history), pair))
  {
    if history != [] {
      var before, step := history[..|history| - 1], history[|history| - 1];
      assert history == before + [step];
      TableHoldsSurvivors(before, pair);
      AfterHasNoDuplicates(before);
      match step
      case Received(d) => ReceivedKeepsLatest(before, d, pair);
      case Swept(now) => SweptKeepsLatest(before, now, pair);
    }
  }

  // ---------------------------------------------------------------- the behaviour's poll

  lemma {:induction false} AbsorbSkips(nodes: seq<Discovery>, i: nat, d: Discovery)
    requires i < |nodes| && PairOf(nodes[i]) != PairOf(d)
    ensures nodes[..i] + Absorb(nodes[i..], d) == nodes[..i + 1] + Absorb(nodes[i + 1..], d)
    ensures Lookup(nodes[i..], PairOf(d)) == Lookup(nodes[i + 1..], PairOf(d))
  {
    assert nodes[i..][1..] == nodes[i + 1..];
    Assoc(nodes[..i], [nodes[i]], Absorb(nodes[i + 1..], d));
    assert nodes[..i] + [nodes[i]] == nodes[..i + 1];
  }

  lemma {:induction false} AbsorbStops(nodes: seq<Discovery>, i: nat, d: Discovery)
    requires i < |nodes| && PairOf(nodes[i]) == PairOf(d)
    ensures nodes[..i] + Absorb(nodes[i..], d)
         == nodes[i := nodes[i].(expiration := Max(nodes[i].expiration, d.expiration))]
    ensures Lookup(nodes[i..], PairOf(d)).Some?
  {
  }

  /** The fields a poll changes: entries, queued events, and when the timer is set to fire. */
  datatype State = State(nodes: seq<Discovery>, queue: seq<Event>, timer: Option<Instant>)

  /** What one poll is given: the announcements waiting in the channel, and the clock. */
  datatype Input = Input(received: seq<Discovery>, now: Instant)

  function AbsorbAll(nodes: seq<Discovery>, received: seq<Discovery>): seq<Discovery> {
    if received == [] then nodes
    else Absorb(AbsorbAll(nodes, received[..|received| - 1]), received[|received| - 1])
  }

  /** The pairs that were not in the table when their announcement came. */
  function NewPairs(nodes: seq<Discovery>, received: seq<Discovery>): seq<Pair> {
    if received == [] then []
    else
      var earlier, d := received[..|received| - 1], received[|received| - 1];
      NewPairs(nodes, earlier) + if Lookup(AbsorbAll(nodes, earlier), PairOf(d)).None? then [PairOf(d)] else []
  }

  function Earliest(nodes: seq<Discovery>): Option<Instant> {
    if nodes == [] then None
    else
      match Earliest(nodes[..|nodes| - 1])
      case None => Some(nodes[|nodes| - 1].expiration)
      case Some(t) => Some(Min(t, nodes[|nodes| - 1].expiration))
  }

  /** An event for the pairs, if there are any. */
  function EventFor(appeared: bool, pairs: seq<Pair>): seq<Event> {
    if pairs == [] then [] else if appeared then [Discovered(pairs)] else [Expired(pairs)]
  }

  /** Everything queued by a poll before it hands out the first queued event. */
  function Queued(nodes: seq<Discovery>, input: Input): seq<Event> {
    EventFor(true, NewPairs(nodes, input.received))
    + EventFor(false, ExpiredPairs(AbsorbAll(nodes, input.received), input.now))
  }

  function AfterPoll(s: State, input: Input): State {
    var nodes := Unexpired(AbsorbAll(s.nodes, input.received), input.now);
    var queue := s.queue + Queued(s.nodes, input);
    State(nodes, if queue == [] then [] else queue[1..], if nodes == [] then s.timer else Earliest(nodes))
  }

  function Emitted(s: State, input: Input): Option<Event> {
    var queue := s.queue + Queued(s.nodes, input);
    if queue == [] then None else Some(queue[0])
  }

  lemma {:induction false} EarliestIsMinimum(nodes: seq<Discovery>)
    requires nodes != []
    ensures Earliest(nodes).Some?
    ensures exists d :: d in nodes && Earliest(nodes).value == d.expiration
    ensures forall d :: d in nodes ==> Earliest(nodes).value <= d.expiration
  {
    var init, last := nodes[..|nodes| - 1], nodes[|nodes| - 1];
    assert nodes == init + [last];
    if init != [] {
      EarliestIsMinimum(init);
    }
  }

  lemma {:induction false} EarliestWhen(nodes: seq<Discovery>)
    ensures Earliest(nodes).Some? <==> nodes != []
  {
  }

  lemma {:induction false} EarliestSnoc(nodes: seq<Discovery>, d: Discovery)
    ensures Earliest(nodes + [d])
         == Some(if Earliest(nodes).Some? then Min(Earliest(nodes).value, d.expiration) else d.expiration)
  {
    assert (nodes + [d])[..|nodes|] == nodes;
  }

  lemma {:induction false} RetainStep(nodes: seq<Discovery>, d: Discovery, now: Instant)
    ensures Unexpired(nodes + [d], now) == Unexpired(nodes, now) + if d.expiration <= now then [] else [d]
    ensures ExpiredPairs(nodes + [d], now) == ExpiredPairs(nodes, now) + if d.expiration <= now then [PairOf(d)] else []
  {
    if nodes == [] {
      assert (nodes + [d])[1..] == [];
    } else {
      RetainStep(nodes[1..], d, now);
      assert (nodes + [d])[1..] == nodes[1..] + [d] && (nodes + [d])[0] == nodes[0];
      var kept, gone := if d.expiration <= now then [] else [d], if d.expiration <= now then [PairOf(d)] else [];
      Assoc([nodes[0]], Unexpired(nodes[1..], now), kept);
      Assoc([PairOf(nodes[0])], ExpiredPairs(nodes[1..], now), gone);
    }
  }

  // ---------------------------------------------------------------- what a poll queues and hands out

  lemma {:induction false} LookupOfAbsorbAll(nodes: seq<Discovery>, received: seq<Discovery>, pair: Pair)
    ensures Lookup(AbsorbAll(nodes, received), pair).Some?
            <==> Lookup(nodes, pair).Some? || exists d :: d in received && PairOf(d) == pair
  {
    if received != [] {
      var earlier, last := received[..|received| - 1], received[|received| - 1];
      assert received == earlier + [last];
      LookupOfAbsorbAll(nodes, earlier, pair);
      LookupOfAbsorb(AbsorbAll(nodes, earlier), last, pair);
    }
  }

  /** A Discovered lists just the announced pairs that had no entry, each once. */
  lemma {:induction false} NewPairsExactly(nodes: seq<Discovery>, received: seq<Discovery>)
    ensures forall p :: p in NewPairs(nodes, received)
                        <==> Lookup(nodes, p).None? && exists d :: d in received && PairOf(d) == p
    ensures forall i, j :: 0 <= i < j < |NewPairs(nodes, received)| ==>
              NewPairs(nodes, received)[i] != NewPairs(nodes, received)[j]
  {
    if received != [] {
      var earlier, last := received[..|received| - 1], received[|received| - 1];
      assert received == earlier + [last];
      NewPairsExactly(nodes, earlier);
      LookupOfAbsorbAll(nodes, earlier, PairOf(last));
    }
  }

  /** And in the order of the announcements: what is announced later is listed later. */
  lemma {:induction false} NewPairsInOrder(nodes: seq<Discovery>, received: seq<Discovery>, more: seq<Discovery>)
    ensures NewPairs(nodes, received) <= NewPairs(nodes, received + more)
    decreases |more|
  {
    if more == [] {
      assert received + more == received;
    } else {
      NewPairsInOrder(nodes, received, more[..|more| - 1]);
      assert (received + more)[..|received + more| - 1] == received + more[..|more| - 1];
    }
  }

  /** Some announcement is of a pair without an entry. */
  ghost predicate Announces(nodes: seq<Discovery>, input: Input) {
    exists d :: d in input.received && Lookup(nodes, PairOf(d)).None?
  }

  /** Some entry is past its expiration when the announcements have been absorbed. */
  ghost predicate Removes(nodes: seq<Discovery>, input: Input) {
    exists d :: d in AbsorbAll(nodes, input.received) && d.expiration <= input.now
  }

  /** What a poll adds to the events: a Discovered exactly when some announced pair had no entry, then an
      Expired exactly when the sweep removed an entry; neither ever empty. */
  ghost function Added(nodes: seq<Discovery>, input: Input): seq<Event> {
    (if Announces(nodes, input) then [Discovered(NewPairs(nodes, input.received))] else [])
    + if Removes(nodes, input) then [Expired(ExpiredPairs(AbsorbAll(nodes, input.received), input.now))] else []
  }

  ghost predicate NoneEmpty(events: seq<Event>) {
    forall i :: 0 <= i < |events| ==> events[i].pairs != []
  }

  lemma QueuedIsAdded(nodes: seq<Discovery>, input: Input)
    ensures Queued(nodes, input) == Added(nodes, input) && NoneEmpty(Added(nodes, input))
  {
    hide AbsorbAll, NewPairs, ExpiredPairs;
    var appeared, absorbed := NewPairs(nodes, input.received), AbsorbAll(nodes, input.received);
    NewPairsExactly(nodes, input.received);
    ExpiredMembers(absorbed, input.now);
    if appeared != [] {
      assert appeared[0] in appeared;
    }
    if d :| d in input.received && Lookup(nodes, PairOf(d)).None? {
      assert PairOf(d) in appeared;
    }
    if ExpiredPairs(absorbed, input.now) != [] {
      assert ExpiredPairs(absorbed, input.now)[0] in ExpiredPairs(absorbed, input.now);
    }
    if d :| d in absorbed && d.expiration <= input.now {
      assert PairOf(d) in ExpiredPairs(absorbed, input.now);
    }
  }

  /** A poll hands out the oldest event there is with those it adds, and keeps the others; it hands out nothing
      exactly when nothing was queued and it adds nothing. */
  lemma PollHandsOutOldest(s: State, input: Input)
    ensures var events := s.queue + Added(s.nodes, input);
            if s.queue == [] && !Announces(s.nodes, input) && !Removes(s.nodes, input)
            then Emitted(s, input) == None && AfterPoll(s, input).queue == []
            else events != [] && Emitted(s, input) == Some(events[0]) && AfterPoll(s, input).queue == events[1..]
  {
    hide Added, Queued, Announces, Removes;
    QueuedIsAdded(s.nodes, input);
    AddedWhen(s.nodes, input);
  }

  lemma AddedWhen(nodes: seq<Discovery>, input: Input)
    ensures Added(nodes, input) == [] <==> !Announces(nodes, input) && !Removes(nodes, input)
  {
  }

  /** After a poll every entry is still in the future, and the timer, when there is an entry, is set to
      the first expiration, no earlier and no later; without one it is left as it was. */
  lemma PollLeavesFuture(s: State, input: Input)
    ensures var after := AfterPoll(s, input);
            && (forall d :: d in after.nodes ==> d.expiration > input.now)
            && (after.nodes != [] ==>
                  && after.timer.Some?
                  && (exists d :: d in after.nodes && after.timer.value == d.expiration)
                  && forall d :: d in after.nodes ==> after.timer.value <= d.expiration)
            && (after.nodes == [] ==> after.timer == s.timer)
  {
    UnexpiredMembers(AbsorbAll(s.nodes, input.received), input.now);
    if AfterPoll(s, input).nodes != [] {
      EarliestIsMinimum(AfterPoll(s, input).nodes);
    }
  }

  class Behaviour {
    var discoveredNodes: seq<Discovery>
    var eventQueue: seq<Event>
    var closestExpiration: Option<Instant>

    constructor ()
      ensures Model() == State([], [], None)
    {
      discoveredNodes, eventQueue, closestExpiration := [], [], None;
    }

    function Model(): State
      reads this
    {
      State(discoveredNodes, eventQueue, closestExpiration)
    }

    /** Finds the entry for the pair and extends it, or appends one; says whether it appended. */
    method AbsorbOne(d: Discovery) returns (added: bool)
      modifies `discoveredNodes
      ensures discoveredNodes == Absorb(old(discoveredNodes), d)
      ensures added == Lookup(old(discoveredNodes), PairOf(d)).None?
    {
      var i := 0;
      assert discoveredNodes[i..] == discoveredNodes;
      while i < |discoveredNodes| && PairOf(discoveredNodes[i]) != PairOf(d)
        invariant 0 <= i <= |discoveredNodes| && discoveredNodes == old(discoveredNodes)
        invariant Absorb(discoveredNodes, d) == discoveredNodes[..i] + Absorb(discoveredNodes[i..], d)
        invariant Lookup(discoveredNodes, PairOf(d)) == Lookup(discoveredNodes[i..], PairOf(d))
      {
        AbsorbSkips(discoveredNodes, i, d);
        i := i + 1;
      }
      if i < |discoveredNodes| {
        AbsorbStops(discoveredNodes, i, d);
        var entry := discoveredNodes[i];
        discoveredNodes := discoveredNodes[i := entry.(expiration := Max(entry.expiration, d.expiration))];
        added := false;
      } else {
        assert discoveredNodes[..i] == discoveredNodes && discoveredNodes[i..] == [];
        discoveredNodes := discoveredNodes + [d];
        added := true;
      }
    }

    /** The closure given to `retain`, for one entry. */
    static method RetainOne(entry: Discovery, now: Instant, kept: seq<Discovery>, closest: Option<Instant>,
                            expired: seq<Pair>, ghost done: seq<Discovery>)
      returns (kept': seq<Discovery>, closest': Option<Instant>, expired': seq<Pair>)
      requires kept == Unexpired(done, now) && expired == ExpiredPairs(done, now) && closest == Earliest(kept)
      ensures kept' == Unexpired(done + [entry], now) && expired' == ExpiredPairs(done + [entry], now)
      ensures closest' == Earliest(kept')
    {
      RetainStep(done, entry, now);
      if entry.expiration <= now {
        kept', closest', expired' := kept, closest, expired + [PairOf(entry)];
        assert kept + [] == kept;
      } else {
        EarliestSnoc(kept, entry);
        kept', expired' := kept + [entry], expired;
        closest' := Some(Min(if closest.Some? then closest.value else entry.expiration, entry.expiration));
        assert expired + [] == expired;
      }
    }

    /** Drops expired entries in order; gives their pairs and the first expiration left. */
    method Retain(now: Instant) returns (closest: Option<Instant>, expired: seq<Pair>)
      modifies `discoveredNodes
      ensures discoveredNodes == Unexpired(old(discoveredNodes), now)
      ensures expired == ExpiredPairs(old(discoveredNodes), now)
      ensures closest == Earliest(discoveredNodes)
    {
      var nodes, kept: seq<Discovery> := discoveredNodes, [];
      closest, expired := None, [];
      var i := 0;
      while i < |nodes|
        invariant 0 <= i <= |nodes|
        invariant kept == Unexpired(nodes[..i], now)
        invariant expired == ExpiredPairs(nodes[..i], now)
        invariant closest == Earliest(kept)
      {
        assert nodes[..i + 1] == nodes[..i] + [nodes[i]];
        kept, closest, expired := RetainOne(nodes[i], now, kept, closest, expired, nodes[..i]);
        i := i + 1;
      }
      assert nodes[..i] == nodes;
      discoveredNodes := kept;
    }

    /** Empties the channel into the table; gives the pairs that are new in it. */
    method TakeReceived(received: seq<Discovery>) returns (discovered: seq<Pair>)
      modifies `discoveredNodes
      ensures discoveredNodes == AbsorbAll(old(discoveredNodes), received)
      ensures discovered == NewPairs(old(discoveredNodes), received)
    {
      discovered := [];
      var i := 0;
      while i < |received|
        invariant 0 <= i <= |received|
        invariant discoveredNodes == AbsorbAll(old(discoveredNodes), received[..i])
        invariant discovered == NewPairs(old(discoveredNodes), received[..i])
      {
        assert received[..i + 1][..i] == received[..i];
        var added := AbsorbOne(received[i]);
        if added {
          discovered := discovered + [PairOf(received[i])];
        }
        i := i + 1;
      }
      assert received[..i] == received;
    }

    method Poll(received: seq<Discovery>, now: Instant) returns (event: Option<Event>)
      modifies this
      ensures Model() == AfterPoll(old(Model()), Input(received, now))
      ensures event == Emitted(old(Model()), Input(received, now))
      ensures var events := old(eventQueue) + Added(old(discoveredNodes), Input(received, now));
              if events == [] then event == None && eventQueue == []
              else event == Some(events[0]) && eventQueue == events[1..]
    {
      hide AbsorbAll, NewPairs, Unexpired, ExpiredPairs, Earliest, Added;
      QueuedIsAdded(discoveredNodes, Input(received, now));
      var discovered := TakeReceived(received);
      if discovered != [] {
        eventQueue := eventQueue + [Discovered(discovered)];
      }
      var closest, expired := Retain(now);
      if expired != [] {
        eventQueue := eventQueue + [Expired(expired)];
      }
      if closest.Some? {
        closestExpiration := closest;
      }
      EarliestWhen(discoveredNodes);
      assert eventQueue == old(eventQueue) + Queued(old(discoveredNodes), Input(received, now));
      if eventQueue != [] {
        event := Some(eventQueue[0]);
        eventQueue := eventQueue[1..];
      } else {
        event := None;
      }
    }

    /** Addresses offered for dialing a peer: those of its entries, in table order. */
    method HandlePendingOutboundConnection(peer: Option<PeerId>) returns (addrs: seq<Multiaddr>)
      ensures addrs == if peer.None? then [] else AddressesOfPeer(discoveredNodes, peer.value)
    {
      addrs := [];
      if peer.None? {
        return;
      }
      for i := 0 to |discoveredNodes|
        invariant addrs + AddressesOfPeer(discoveredNodes[i..], peer.value)
               == AddressesOfPeer(discoveredNodes, peer.value)
      {
        assert discoveredNodes[i..][1..] == discoveredNodes[i + 1..];
        if discoveredNodes[i].peer == peer.value {
          addrs := addrs + [discoveredNodes[i].addr];
        }
      }
    }
  }

  function AddressesOfPeer(nodes: seq<Discovery>, peer: PeerId): seq<Multiaddr> {
    if nodes == [] then []
    else if nodes[0].peer == peer then [nodes[0].addr] + AddressesOfPeer(nodes[1..], peer)
    else AddressesOfPeer(nodes[1..], peer)
  }

  lemma {:induction false} AddressesOfPeerMembers(nodes: seq<Discovery>, peer: PeerId, addr: Multiaddr)
    ensures addr in AddressesOfPeer(nodes, peer) <==> Lookup(nodes, Pair(peer, addr)).Some?
  {
    if nodes != [] {
      AddressesOfPeerMembers(nodes[1..], peer, addr);
    }
  }

  /** The addresses are offered in table order, each as often as it has an entry. */
  lemma {:induction false} OfferedInOrder(nodes: seq<Discovery>, peer: PeerId, addrOf: Discovery -> Option<Multiaddr>)
    requires forall d :: addrOf(d) == if d.peer == peer then Some(d.addr) else None
    ensures AddressesOfPeer(nodes, peer) == FilterMap(addrOf, nodes)
  {
    if nodes != [] {
      OfferedInOrder(nodes[1..], peer, addrOf);
    }
  }

  lemma {:induction false} OfferedOnce(nodes: seq<Discovery>, peer: PeerId)
    requires NoDuplicates(nodes)
    ensures var addrs := AddressesOfPeer(nodes, peer); forall i, j :: 0 <= i < j < |addrs| ==> addrs[i] != addrs[j]
  {
    if nodes != [] {
      OfferedOnce(nodes[1..], peer);
      HeadIsOnly(nodes);
      AddressesOfPeerMembers(nodes[1..], peer, nodes[0].addr);
    }
  }

  /** The addresses offered for a peer are exactly those some announcement of which has outlasted every
      sweep since. */
  lemma {:induction false} OfferedAddressesSurvive(history: seq<Step>, peer: PeerId, addr: Multiaddr)
    ensures addr in AddressesOfPeer(After(history), peer) <==> exists i :: Survives(history, i, Pair(peer, addr))
  {
    AddressesOfPeerMembers(After(history), peer, addr);
    TableHoldsSurvivors(history, Pair(peer, addr));
    if Lookup(After(history), Pair(peer, addr)).Some? {
      var i :| IsLatestSurvivor(history, i, Pair(peer, addr));
      assert Survives(history, i, Pair(peer, addr));
    }
  }

  // ---------------------------------------------------------------- events over whole runs

  datatype Signal = Appeared(pair: Pair) | Vanished(pair: Pair)

  function Signals(appeared: bool, pairs: seq<Pair>): seq<Signal> {
    seq(|pairs|, i requires 0 <= i < |pairs| => if appeared then Appeared(pairs[i]) else Vanished(pairs[i]))
  }

  function EventSignals(e: Event): seq<Signal> {
    match e
    case Discovered(pairs) => Signals(true, pairs)
    case Expired(pairs) => Signals(false, pairs)
  }

  function SignalsIn(events: seq<Event>): seq<Signal> {
    if events == [] then [] else SignalsIn(events[..|events| - 1]) + EventSignals(events[|events| - 1])
  }

  function StepSignals(nodes: seq<Discovery>, step: Step): seq<Signal> {
    match step
    case Received(d) => if Lookup(nodes, PairOf(d)).None? then [Appeared(PairOf(d))] else []
    case Swept(now) => Signals(false, ExpiredPairs(nodes, now))
  }

  /** The signals a history produces, step by step. */
  function SignalsOf(history: seq<Step>): seq<Signal> {
    if history == [] then []
    else
      var before := history[..|history| - 1];
      SignalsOf(before) + StepSignals(After(before), history[|history| - 1])
  }

  /** The signals about one pair: true for its appearances, false for its disappearances. */
  function About(signals: seq<Signal>, pair: Pair): seq<bool> {
    if signals == [] then []
    else
      var last := signals[|signals| - 1];
      About(signals[..|signals| - 1], pair) + if last.pair == pair then [last.Appeared?] else []
  }

  /** Takes turns, beginning with an appearance; `live` says whether an appearance came last. */
  ghost predicate Alternates(bs: seq<bool>, live: bool) {
    if bs == [] then !live else bs[|bs| - 1] == live && Alternates(bs[..|bs| - 1], !live)
  }

  lemma {:induction false} AboutCat(a: seq<Signal>, b: seq<Signal>, pair: Pair)
    ensures About(a + b, pair) == About(a, pair) + About(b, pair)
    decreases |b|
  {
    if b == [] {
      assert a + b == a;
    } else {
      AboutCat(a, b[..|b| - 1], pair);
      assert (a + b)[..|a + b| - 1] == a + b[..|b| - 1];
    }
  }

  lemma {:induction false} AboutOne(s: Signal, pair: Pair)
    ensures About([s], pair) == if s.pair == pair then [s.Appeared?] else []
  {
    assert About([s][..0], pair) == [];
  }

  lemma {:induction false} AboutCons(s: Signal, more: seq<Signal>, pair: Pair)
    ensures About([s] + more, pair) == if s.pair == pair then [s.Appeared?] + About(more, pair) else About(more, pair)
  {
    AboutCat([s], more, pair);
    AboutOne(s, pair);
    assert [] + About(more, pair) == About(more, pair);
  }

  lemma SignalsCons(appeared: bool, pair: Pair, more: seq<Pair>)
    ensures Signals(appeared, [pair] + more)
         == [if appeared then Appeared(pair) else Vanished(pair)] + Signals(appeared, more)
  {
  }

  lemma {:induction false} AboutExpired(nodes: seq<Discovery>, now: Instant, pair: Pair)
    requires NoDuplicates(nodes)
    ensures About(Signals(false, ExpiredPairs(nodes, now)), pair)
         == if Lookup(nodes, pair).Some? && Lookup(nodes, pair).value <= now then [false] else []
  {
    if nodes != [] {
      var more := nodes[1..];
      AboutExpired(more, now, pair);
      HeadIsOnly(nodes);
      if nodes[0].expiration <= now {
        SignalsCons(false, PairOf(nodes[0]), ExpiredPairs(more, now));
        AboutCons(Vanished(PairOf(nodes[0])), Signals(false, ExpiredPairs(more, now)), pair);
      }
    }
  }

  lemma AlternatesSnoc(bs: seq<bool>, live: bool)
    requires Alternates(bs, live)
    ensures Alternates(bs + [!live], !live)
  {
    assert (bs + [!live])[..|bs|] == bs;
  }

  lemma {:induction false} ReceivedAlternates(before: seq<Step>, d: Discovery, pair: Pair)
    requires Alternates(About(SignalsOf(before), pair), Lookup(After(before), pair).Some?)
    ensures Alternates(About(SignalsOf(before) + StepSignals(After(before), Received(d)), pair),
                       Lookup(Absorb(After(before), d), pair).Some?)
  {
    LookupOfAbsorb(After(before), d, pair);
    if Lookup(After(before), PairOf(d)).None? {
      AboutCat(SignalsOf(before), [Appeared(PairOf(d))], pair);
      AboutOne(Appeared(PairOf(d)), pair);
      if PairOf(d) == pair {
        AlternatesSnoc(About(SignalsOf(before), pair), false);
      } else {
        assert About(SignalsOf(before), pair) + [] == About(SignalsOf(before), pair);
      }
    } else {
      assert SignalsOf(before) + [] == SignalsOf(before);
    }
  }

  lemma {:induction false} SweptAlternates(before: seq<Step>, now: Instant, pair: Pair)
    requires NoDuplicates(After(before))
    requires Alternates(About(SignalsOf(before), pair), Lookup(After(before), pair).Some?)
    ensures Alternates(About(SignalsOf(before) + StepSignals(After(before), Swept(now)), pair),
                       Lookup(Unexpired(After(before), now), pair).Some?)
  {
    var nodes, bs := After(before), About(SignalsOf(before), pair);
    LookupOfUnexpired(nodes, now, pair);
    AboutCat(SignalsOf(before), Signals(false, ExpiredPairs(nodes, now)), pair);
    AboutExpired(nodes, now, pair);
    if Lookup(nodes, pair).Some? && Lookup(nodes, pair).value <= now {
      AlternatesSnoc(bs, true);
    } else {
      assert bs + [] == bs;
    }
  }

  /** Over any history every pair appears, disappears, appears, and so on; it is in the table exactly
      when it appeared last. */
  lemma {:induction false} PairsAlternate(history: seq<Step>, pair: Pair)
    ensures Alternates(About(SignalsOf(history), pair), Lookup(After(history), pair).Some?)
  {
    if history != [] {
      var before, step := history[..|history| - 1], history[|history| - 1];
      PairsAlternate(before, pair);
      AfterHasNoDuplicates(before);
      match step
      case Received(d) => ReceivedAlternates(before, d, pair);
      case Swept(now) => SweptAlternates(before, now, pair);
    }
  }

  // ---------------------------------------------------------------- the table, from the signals

  function PairsIn(nodes: seq<Discovery>): seq<Pair> {
    seq(|nodes|, i requires 0 <= i < |nodes| => PairOf(nodes[i]))
  }

  function Dropped(pairs: seq<Pair>, pair: Pair): seq<Pair> {
    if pairs == [] then []
    else (if pairs[0] == pair then [] else [pairs[0]]) + Dropped(pairs[1..], pair)
  }

  /** The pairs left by signals: one that appears goes to the back, one that vanishes is dropped. */
  function Live(pairs: seq<Pair>, signals: seq<Signal>): seq<Pair>
    decreases |signals|
  {
    if signals == [] then pairs
    else
      match signals[0]
      case Appeared(pair) => Live(pairs + [pair], signals[1..])
      case Vanished(pair) => Live(Dropped(pairs, pair), signals[1..])
  }

  lemma {:induction false} LiveCat(pairs: seq<Pair>, a: seq<Signal>, b: seq<Signal>)
    ensures Live(pairs, a + b) == Live(Live(pairs, a), b)
    decreases |a|
  {
    if a == [] {
      assert a + b == b;
    } else {
      assert (a + b)[1..] == a[1..] + b;
      LiveCat(if a[0].Appeared? then pairs + [a[0].pair] else Dropped(pairs, a[0].pair), a[1..], b);
    }
  }

  lemma {:induction false} LiveOne(pairs: seq<Pair>, signal: Signal)
    ensures Live(pairs, [signal])
         == if signal.Appeared? then pairs + [signal.pair] else Dropped(pairs, signal.pair)
  {
    assert [signal][1..] == [];
  }

  lemma {:induction false} DropsNone(pairs: seq<Pair>, pair: Pair)
    requires pair !in pairs
    ensures Dropped(pairs, pair) == pairs
  {
    if pairs != [] {
      DropsNone(pairs[1..], pair);
      assert pairs == [pairs[0]] + pairs[1..];
    }
  }

  lemma {:induction false} DroppedCons(head: Pair, pairs: seq<Pair>, pair: Pair)
    ensures Dropped([head] + pairs, pair) == (if head == pair then [] else [head]) + Dropped(pairs, pair)
  {
    assert ([head] + pairs)[1..] == pairs;
  }

  /** A pair that does not vanish stays in front. */
  lemma {:induction false} LiveBehind(head: Pair, pairs: seq<Pair>, gone: seq<Pair>)
    requires head !in gone
    ensures Live([head] + pairs, Signals(false, gone)) == [head] + Live(pairs, Signals(false, gone))
    decreases |gone|
  {
    if gone != [] {
      SignalsCons(false, gone[0], gone[1..]);
      assert gone == [gone[0]] + gone[1..];
      assert Signals(false, gone)[1..] == Signals(false, gone[1..]);
      DroppedCons(head, pairs, gone[0]);
      LiveBehind(head, Dropped(pairs, gone[0]), gone[1..]);
    }
  }

  /** A pair in front that vanishes, and is nowhere else, is gone. */
  lemma {:induction false} LiveWithout(head: Pair, pairs: seq<Pair>, gone: seq<Pair>)
    requires head !in pairs
    ensures Live([head] + pairs, Signals(false, [head] + gone)) == Live(pairs, Signals(false, gone))
  {
    SignalsCons(false, head, gone);
    LiveCat([head] + pairs, [Vanished(head)], Signals(false, gone));
    LiveOne([head] + pairs, Vanished(head));
    DroppedCons(head, pairs, head);
    assert [] + Dropped(pairs, head) == Dropped(pairs, head);
    DropsNone(pairs, head);
  }

  lemma {:induction false} SweptLive(nodes: seq<Discovery>, now: Instant)
    requires NoDuplicates(nodes)
    ensures Live(PairsIn(nodes), Signals(false, ExpiredPairs(nodes, now))) == PairsIn(Unexpired(nodes, now))
  {
    hide Live, Signals;
    if nodes != [] {
      var head, more := nodes[0], nodes[1..];
      SweptLive(more, now);
      ExpiredMembers(more, now);
      assert PairsIn(nodes) == [PairOf(head)] + PairsIn(more);
      if head.expiration <= now {
        LiveWithout(PairOf(head), PairsIn(more), ExpiredPairs(more, now));
      } else {
        LiveBehind(PairOf(head), PairsIn(more), ExpiredPairs(more, now));
        assert PairsIn([head] + Unexpired(more, now)) == [PairOf(head)] + PairsIn(Unexpired(more, now));
      }
    } else {
      NoSignals();
    }
  }

  lemma NoSignals()
    ensures Live([], Signals(false, [])) == []
  {
  }

  lemma {:induction false} ReceivedLive(nodes: seq<Discovery>, d: Discovery)
    ensures Live(PairsIn(nodes), StepSignals(nodes, Received(d))) == PairsIn(Absorb(nodes, d))
  {
    AbsorbShape(nodes, d);
    if Lookup(nodes, PairOf(d)).None? {
      LiveOne(PairsIn(nodes), Appeared(PairOf(d)));
    }
  }

  /** Replaying the signals of any history gives the pairs of the table, in the order of their last appearance. */
  lemma {:induction false} TableIsReplayed(history: seq<Step>)
    ensures PairsIn(After(history)) == Live([], SignalsOf(history))
  {
    hide Live, StepSignals, Apply;
    if history == [] {
      NothingLive();
    } else {
      var before, step := history[..|history| - 1], history[|history| - 1];
      TableIsReplayed(before);
      AfterHasNoDuplicates(before);
      LiveCat([], SignalsOf(before), StepSignals(After(before), step));
      StepLive(After(before), step);
    }
  }

  lemma NothingLive()
    ensures Live([], []) == []
  {
  }

  lemma {:induction false} StepLive(nodes: seq<Discovery>, step: Step)
    requires NoDuplicates(nodes)
    ensures Live(PairsIn(nodes), StepSignals(nodes, step)) == PairsIn(Apply(nodes, step))
  {
    match step
    case Received(d) => ReceivedLive(nodes, d);
    case Swept(now) => SweptLive(nodes, now);
  }

  // ---------------------------------------------------------------- runs of polls

  datatype Run = Run(state: State, emitted: seq<Event>)

  function RunPolls(inputs: seq<Input>): Run {
    if inputs == [] then Run(State([], [], None), [])
    else
      var before, input := RunPolls(inputs[..|inputs| - 1]), inputs[|inputs| - 1];
      var event := Emitted(before.state, input);
      Run(AfterPoll(before.state, input), before.emitted + if event.Some? then [event.value] else [])
  }

  function Receipts(received: seq<Discovery>): seq<Step> {
    seq(|received|, i requires 0 <= i < |received| => Received(received[i]))
  }

  function StepsOf(inputs: seq<Input>): seq<Step> {
    if inputs == [] then []
    else
      var input := inputs[|inputs| - 1];
      StepsOf(inputs[..|inputs| - 1]) + Receipts(input.received) + [Swept(input.now)]
  }

  lemma {:induction false} HistorySnoc(history: seq<Step>, step: Step)
    ensures After(history + [step]) == Apply(After(history), step)
    ensures SignalsOf(history + [step]) == SignalsOf(history) + StepSignals(After(history), step)
  {
    assert (history + [step])[..|history|] == history;
  }

  lemma SignalsSnoc(appeared: bool, pairs: seq<Pair>, pair: Pair)
    ensures Signals(appeared, pairs + [pair])
         == Signals(appeared, pairs) + [if appeared then Appeared(pair) else Vanished(pair)]
  {
  }

  lemma ReceiptsSnoc(history: seq<Step>, received: seq<Discovery>)
    requires received != []
    ensures history + Receipts(received)
         == history + Receipts(received[..|received| - 1]) + [Received(received[|received| - 1])]
  {
  }

  lemma {:induction false} AfterReceipts(history: seq<Step>, received: seq<Discovery>)
    ensures After(history + Receipts(received)) == AbsorbAll(After(history), received)
    decreases |received|
  {
    if received == [] {
      assert history + Receipts(received) == history;
    } else {
      var earlier := received[..|received| - 1];
      AfterReceipts(history, earlier);
      ReceiptsSnoc(history, received);
      HistorySnoc(history + Receipts(earlier), Received(received[|received| - 1]));
    }
  }

  lemma SignalsOfNew(nodes: seq<Discovery>, received: seq<Discovery>)
    requires received != []
    ensures var earlier, d := received[..|received| - 1], received[|received| - 1];
            Signals(true, NewPairs(nodes, received))
            == Signals(true, NewPairs(nodes, earlier)) + StepSignals(AbsorbAll(nodes, earlier), Received(d))
  {
    var earlier, d := received[..|received| - 1], received[|received| - 1];
    var pairs := NewPairs(nodes, earlier);
    if Lookup(AbsorbAll(nodes, earlier), PairOf(d)).None? {
      SignalsSnoc(true, pairs, PairOf(d));
    } else {
      assert pairs + [] == pairs;
      assert Signals(true, pairs) + [] == Signals(true, pairs);
    }
  }

  lemma {:induction false} SignalsOfReceipts(history: seq<Step>, received: seq<Discovery>)
    ensures SignalsOf(history + Receipts(received))
         == SignalsOf(history) + Signals(true, NewPairs(After(history), received))
    decreases |received|
  {
    if received == [] {
      assert history + Receipts(received) == history;
      assert SignalsOf(history) + [] == SignalsOf(history);
    } else {
      var earlier, d := received[..|received| - 1], received[|received| - 1];
      SignalsOfReceipts(history, earlier);
      AfterReceipts(history, earlier);
      ReceiptsSnoc(history, received);
      HistorySnoc(history + Receipts(earlier), Received(d));
      SignalsOfNew(After(history), received);
      Assoc(SignalsOf(history), Signals(true, NewPairs(After(history), earlier)),
            StepSignals(AbsorbAll(After(history), earlier), Received(d)));
    }
  }

  lemma {:induction false} SignalsInSnoc(events: seq<Event>, e: Event)
    ensures SignalsIn(events + [e]) == SignalsIn(events) + EventSignals(e)
  {
    assert (events + [e])[..|events|] == events;
  }

  lemma {:induction false} SignalsInFor(events: seq<Event>, appeared: bool, pairs: seq<Pair>)
    ensures SignalsIn(events + EventFor(appeared, pairs)) == SignalsIn(events) + Signals(appeared, pairs)
  {
    if pairs == [] {
      assert events + [] == events;
      assert SignalsIn(events) + [] == SignalsIn(events);
    } else {
      SignalsInSnoc(events, EventFor(appeared, pairs)[0]);
    }
  }

  lemma {:induction false} SignalsQueued(events: seq<Event>, nodes: seq<Discovery>, input: Input)
    ensures SignalsIn(events + Queued(nodes, input))
         == SignalsIn(events) + Signals(true, NewPairs(nodes, input.received))
            + Signals(false, ExpiredPairs(AbsorbAll(nodes, input.received), input.now))
  {
    var added, gone := NewPairs(nodes, input.received), ExpiredPairs(AbsorbAll(nodes, input.received), input.now);
    Assoc(events, EventFor(true, added), EventFor(false, gone));
    SignalsInFor(events, true, added);
    SignalsInFor(events + EventFor(true, added), false, gone);
  }

  lemma QueueAndEmitted(emitted: seq<Event>, s: State, input: Input)
    ensures var event := Emitted(s, input);
            emitted + (if event.Some? then [event.value] else []) + AfterPoll(s, input).queue
            == emitted + s.queue + Queued(s.nodes, input)
  {
    var queue := s.queue + Queued(s.nodes, input);
    if queue != [] {
      assert queue == [queue[0]] + queue[1..];
    }
  }

  /** What polls do is what their steps do: the table is the one the steps leave, and the events handed
      out so far, followed by those still queued, carry the steps' signals, in order. */
  lemma {:induction false} PollsFollowSteps(inputs: seq<Input>)
    ensures RunPolls(inputs).state.nodes == After(StepsOf(inputs))
    ensures SignalsIn(RunPolls(inputs).emitted + RunPolls(inputs).state.queue) == SignalsOf(StepsOf(inputs))
  {
    if inputs != [] {
      var earlier, input := inputs[..|inputs| - 1], inputs[|inputs| - 1];
      PollsFollowSteps(earlier);
      var before, history := RunPolls(earlier), StepsOf(earlier);
      AfterReceipts(history, input.received);
      SignalsOfReceipts(history, input.received);
      HistorySnoc(history + Receipts(input.received), Swept(input.now));
      QueueAndEmitted(before.emitted, before.state, input);
      SignalsQueued(before.emitted + before.state.queue, before.state.nodes, input);
    } else {
      assert RunPolls(inputs).emitted + RunPolls(inputs).state.queue == [];
    }
  }

  /** The events of all polls, poll by poll: each adds at most one Discovered, of the pairs that were not
      in the table when announced, and then at most one Expired, of the pairs its sweep removed. */
  ghost function EventsOf(inputs: seq<Input>): seq<Event> {
    if inputs == [] then []
    else
      var earlier := inputs[..|inputs| - 1];
      EventsOf(earlier) + Added(After(StepsOf(earlier)), inputs[|inputs| - 1])
  }

  /** Over any sequence of polls, the events handed out, one a poll, followed by those still queued, are
      the polls' events, whole and in order. */
  lemma {:induction false} EventsInOrder(inputs: seq<Input>)
    ensures RunPolls(inputs).emitted + RunPolls(inputs).state.queue == EventsOf(inputs)
    ensures |RunPolls(inputs).emitted| <= |inputs|
    ensures NoneEmpty(EventsOf(inputs))
  {
    if inputs == [] {
      assert RunPolls(inputs).emitted + RunPolls(inputs).state.queue == [];
    } else {
      hide Queued, Added, AbsorbAll, StepsOf, After;
      var earlier, input := inputs[..|inputs| - 1], inputs[|inputs| - 1];
      EventsInOrder(earlier);
      PollsFollowSteps(earlier);
      var before := RunPolls(earlier);
      QueueAndEmitted(before.emitted, before.state, input);
      Assoc(before.emitted, before.state.queue, Queued(before.state.nodes, input));
      QueuedIsAdded(before.state.nodes, input);
    }
  }

  /** After any polls, the next one hands out the oldest event not yet handed out; nothing exactly when none is
      queued, no announced pair is without an entry, and no entry is past its expiration. */
  lemma {:induction false} NextPollHandsOut(inputs: seq<Input>, input: Input)
    ensures var run, next := RunPolls(inputs), RunPolls(inputs + [input]);
            && next.emitted + next.state.queue == run.emitted + run.state.queue + Added(run.state.nodes, input)
            && |next.emitted| == |run.emitted| + (if run.state.queue == [] && !Announces(run.state.nodes, input)
                                                     && !Removes(run.state.nodes, input) then 0 else 1)
            && NoneEmpty(next.emitted) && NoneEmpty(next.state.queue)
  {
    hide Added, Queued, Announces, Removes, EventsOf;
    var run := RunPolls(inputs);
    assert (inputs + [input])[..|inputs|] == inputs;
    QueueAndEmitted(run.emitted, run.state, input);
    QueuedIsAdded(run.state.nodes, input);
    PollHandsOutOldest(run.state, input);
    EventsInOrder(inputs + [input]);
    var next, all := RunPolls(inputs + [input]), EventsOf(inputs + [input]);
    forall i | 0 <= i < |next.emitted| ensures next.emitted[i].pairs != [] {
      assert next.emitted[i] == all[i];
    }
    forall i | 0 <= i < |next.state.queue| ensures next.state.queue[i].pairs != [] {
      assert next.state.queue[i] == all[|next.emitted| + i];
    }
  }

  /** Over any sequence of polls, each pair's events alternate, beginning with Discovered, and the live
      table is exactly the pairs whose last event, handed out or queued, is Discovered. */
  lemma {:induction false} EventsAlternate(inputs: seq<Input>, pair: Pair)
    ensures var run := RunPolls(inputs);
            Alternates(About(SignalsIn(run.emitted + run.state.queue), pair), Lookup(run.state.nodes, pair).Some?)
  {
    PollsFollowSteps(inputs);
    PairsAlternate(StepsOf(inputs), pair);
  }

  /** Whoever replays all events of any sequence of polls, those handed out and then those still queued, has the
      pairs of the table, in table order: nothing the table does goes unreported. */
  lemma {:induction false} EventsTellTable(inputs: seq<Input>)
    ensures var run := RunPolls(inputs);
            PairsIn(run.state.nodes) == Live([], SignalsIn(run.emitted + run.state.queue))
  {
    hide Live, PairsIn, SignalsIn;
    PollsFollowSteps(inputs);
    TableIsReplayed(StepsOf(inputs));
  }

  /** After any sequence of polls the entry of a pair is the latest announcement that has outlasted every
      sweep since it came, and no pair has two entries. */
  lemma {:induction false} PolledTableHoldsSurvivors(inputs: seq<Input>, pair: Pair)
    ensures NoDuplicates(RunPolls(inputs).state.nodes)
    ensures LatestIs(StepsOf(inputs), pair, Lookup(RunPolls(inputs).state.nodes, pair))
  {
    PollsFollowSteps(inputs);
    AfterHasNoDuplicates(StepsOf(inputs));
    TableHoldsSurvivors(StepsOf(inputs), pair);
  }

  // ---------------------------------------------------------------- what stays known

  /** The pair has an entry that does not expire before `until`. */
  ghost predicate Knows(nodes: seq<Discovery>, pair: Pair, until: Instant) {
    Lookup(nodes, pair).Some? && Lookup(nodes, pair).value >= until
  }

  lemma {:induction false} AbsorbKeepsAllDistinct(nodes: seq<Discovery>, received: seq<Discovery>)
    requires NoDuplicates(nodes)
    ensures NoDuplicates(AbsorbAll(nodes, received))
  {
    if received != [] {
      AbsorbKeepsAllDistinct(nodes, received[..|received| - 1]);
      AbsorbKeepsDistinct(AbsorbAll(nodes, received[..|received| - 1]), received[|received| - 1]);
    }
  }

  lemma {:induction false} AbsorbKeepsKnown(nodes: seq<Discovery>, received: seq<Discovery>, pair: Pair, until: Instant)
    requires Knows(nodes, pair, until)
    ensures Knows(AbsorbAll(nodes, received), pair, until)
  {
    if received != [] {
      var earlier, last := received[..|received| - 1], received[|received| - 1];
      AbsorbKeepsKnown(nodes, earlier, pair, until);
      LookupOfAbsorb(AbsorbAll(nodes, earlier), last, pair);
    }
  }

  lemma {:induction false} AbsorbedIsKnown(nodes: seq<Discovery>, received: seq<Discovery>, d: Discovery)
    requires d in received
    ensures Knows(AbsorbAll(nodes, received), PairOf(d), d.expiration)
  {
    var earlier, last := received[..|received| - 1], received[|received| - 1];
    assert received == earlier + [last];
    LookupOfAbsorb(AbsorbAll(nodes, earlier), last, PairOf(d));
    if d != last {
      AbsorbedIsKnown(nodes, earlier, d);
    }
  }

  /** A poll before `until` keeps what is known until then, and learns what it receives. */
  lemma PollKnows(s: State, input: Input, pair: Pair, until: Instant)
    requires NoDuplicates(s.nodes) && input.now < until
    requires Knows(s.nodes, pair, until) || Discovery(pair.peer, pair.addr, until) in input.received
    ensures Knows(AfterPoll(s, input).nodes, pair, until)
  {
    hide AbsorbAll, Queued;
    AbsorbKeepsAllDistinct(s.nodes, input.received);
    if Knows(s.nodes, pair, until) {
      AbsorbKeepsKnown(s.nodes, input.received, pair, until);
    } else {
      AbsorbedIsKnown(s.nodes, input.received, Discovery(pair.peer, pair.addr, until));
    }
    LookupOfUnexpired(AbsorbAll(s.nodes, input.received), input.now, pair);
  }

  lemma {:induction false} StaysKnown(earlier: seq<Input>, later: seq<Input>, pair: Pair, until: Instant)
    requires Knows(RunPolls(earlier).state.nodes, pair, until)
    requires forall i :: 0 <= i < |later| ==> later[i].now < until
    ensures Knows(RunPolls(earlier + later).state.nodes, pair, until)
    decreases |later|
  {
    hide AfterPoll, Emitted, Knows;
    if later == [] {
      assert earlier + later == earlier;
    } else {
      var init, last := later[..|later| - 1], later[|later| - 1];
      StaysKnown(earlier, init, pair, until);
      PolledTableHoldsSurvivors(earlier + init, pair);
      assert (earlier + later)[..|earlier + later| - 1] == earlier + init;
      PollKnows(RunPolls(earlier + init).state, last, pair, until);
    }
  }

  /** After any polls, an address received in one of them is offered for its peer through all polls that come
      before its expiration. */
  lemma {:induction false} ReceivedStaysOffered(earlier: seq<Input>, input: Input, later: seq<Input>, d: Discovery)
    requires d in input.received && input.now < d.expiration
    requires forall i :: 0 <= i < |later| ==> later[i].now < d.expiration
    ensures d.addr in AddressesOfPeer(RunPolls(earlier + [input] + later).state.nodes, d.peer)
  {
    hide AfterPoll, Emitted;
    PolledTableHoldsSurvivors(earlier, PairOf(d));
    assert (earlier + [input])[..|earlier|] == earlier;
    PollKnows(RunPolls(earlier).state, input, PairOf(d), d.expiration);
    StaysKnown(earlier + [input], later, PairOf(d), d.expiration);
    AddressesOfPeerMembers(RunPolls(earlier + [input] + later).state.nodes, d.peer, d.addr);
  }
}
