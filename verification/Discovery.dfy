/** The whole discovery protocol: any number of interface tasks, each running its loop at its own pace,
    one channel, and the behaviour that creates and aborts tasks and keeps the table. */
module Discovery {
  import opened Bytes
  import opened Time
  import opened Multiaddrs
  import opened Config
  import opened Query
  import opened Table
  import opened Iface

  datatype IpAddr = V4(text: Bytes) | V6(text: Bytes)

  /** A task, and everything its interface has ever extracted from responses. A task that was told to
      abort may still run until it is gone. */
  datatype Task = Task(local: Local, state: IfaceState, aborted: bool, alive: bool, extracted: seq<Discovery>)

  /** An address on its way to the table, and the task it came from. */
  datatype Tagged = Tagged(task: nat, d: Discovery)

  datatype World = World(
    tasks: seq<Task>,
    ifTasks: map<IpAddr, nat>,
    channel: seq<Tagged>,
    table: State,
    absorbed: seq<Tagged>,
    emitted: seq<Event>)

  /** The node's configuration, shared by all tasks. */
  datatype Node = Node(config: Config, localPeer: PeerId, translate: Translation) {
    predicate Valid() {
      LocalWith(0).Valid()
    }

    function LocalWith(jitter: Duration): Local {
      Local(config, localPeer, config.queryInterval + jitter, translate)
    }
  }

  /** What can happen next. `created` says whether the sockets of a new task could be opened. */
  datatype Happening =
    | Up(ip: IpAddr, loopback: bool, created: bool, jitter: Duration)
    | Down(ip: IpAddr)
    | Gone(task: nat)
    | Turned(task: nat, turn: Turn)
    | Polled(now: Instant)

  predicate Admissible(h: Happening) {
    h.Turned? ==> h.turn.Valid()
  }

  function Empty(): World {
    World([], map[], [], State([], [], None), [], [])
  }

  // ---------------------------------------------------------------- one happening

  /** An address of the other family, a loopback address, a known one and one whose sockets cannot be
      opened start no task. */
  function OnUp(node: Node, w: World, ip: IpAddr, loopback: bool, created: bool, jitter: Duration): World {
    if loopback || (ip.V4? && node.config.ipv6) || (ip.V6? && !node.config.ipv6) || ip in w.ifTasks || !created then w
    else
      var task := Task(node.LocalWith(jitter), Start(node.config), false, true, []);
      w.(tasks := w.tasks + [task], ifTasks := w.ifTasks[ip := |w.tasks|])
  }

  function OnDown(w: World, ip: IpAddr): World {
    if ip !in w.ifTasks then w
    else
      var t := w.ifTasks[ip];
      w.(ifTasks := w.ifTasks - {ip},
         tasks := if t < |w.tasks| then w.tasks[t := w.tasks[t].(aborted := true)] else w.tasks)
  }

  function OnGone(w: World, t: nat): World {
    if t >= |w.tasks| || !w.tasks[t].aborted then w else w.(tasks := w.tasks[t := w.tasks[t].(alive := false)])
  }

  function Tags(t: nat, found: seq<Discovery>): seq<Tagged> {
    seq(|found|, i requires 0 <= i < |found| => Tagged(t, found[i]))
  }

  function TaskAfter(task: Task, p: Pass): Task {
    task.(state := p.state, alive := p.control != Stopped, extracted := task.extracted + p.found)
  }

  function OnTurn(w: World, t: nat, turn: Turn): World
    requires turn.Valid() && forall k :: 0 <= k < |w.tasks| ==> w.tasks[k].local.Valid()
  {
    if t >= |w.tasks| || !w.tasks[t].alive then w
    else
      var p := LoopPass(w.tasks[t].local, w.tasks[t].state, turn);
      w.(tasks := w.tasks[t := TaskAfter(w.tasks[t], p)], channel := w.channel + Tags(t, p.delivered))
  }

  function Untagged(items: seq<Tagged>): seq<Discovery> {
    seq(|items|, i requires 0 <= i < |items| => items[i].d)
  }

  /** A poll of the behaviour empties the channel into the table. */
  function OnPoll(w: World, now: Instant): World {
    var input := Input(Untagged(w.channel), now);
    var event := Emitted(w.table, input);
    w.(channel := [], absorbed := w.absorbed + w.channel, table := AfterPoll(w.table, input),
       emitted := w.emitted + if event.Some? then [event.value] else [])
  }

  function Next(node: Node, w: World, h: Happening): World
    requires Admissible(h) && forall k :: 0 <= k < |w.tasks| ==> w.tasks[k].local.Valid()
  {
    match h
    case Up(ip, loopback, created, jitter) => OnUp(node, w, ip, loopback, created, jitter)
    case Down(ip) => OnDown(w, ip)
    case Gone(t) => OnGone(w, t)
    case Turned(t, turn) => OnTurn(w, t, turn)
    case Polled(now) => OnPoll(w, now)
  }

  /** The world after a run; every interleaving of the tasks and the behaviour is one. */
  function After(node: Node, run: seq<Happening>): (w: World)
    requires node.Valid() && forall k :: 0 <= k < |run| ==> Admissible(run[k])
    ensures forall k :: 0 <= k < |w.tasks| ==> w.tasks[k].local.Valid() && w.tasks[k].local.localPeer == node.localPeer
  {
    if run == [] then Empty() else Next(node, After(node, run[..|run| - 1]), run[|run| - 1])
  }

  // ---------------------------------------------------------------- delivery

  function From(items: seq<Tagged>, t: nat): seq<Discovery> {
    if items == [] then []
    else
      var last := items[|items| - 1];
      From(items[..|items| - 1], t) + if last.task == t then [last.d] else []
  }

  lemma {:induction false} FromCat(a: seq<Tagged>, b: seq<Tagged>, t: nat)
    ensures From(a + b, t) == From(a, t) + From(b, t)
    decreases |b|
  {
    if b == [] {
      assert a + b == a;
    } else {
      FromCat(a, b[..|b| - 1], t);
      assert (a + b)[..|a + b| - 1] == a + b[..|b| - 1];
    }
  }

  lemma {:induction false} FromTags(found: seq<Discovery>, t: nat, u: nat)
    ensures From(Tags(t, found), u) == if t == u then found else []
    decreases |found|
  {
    if found != [] {
      var init := found[..|found| - 1];
      FromTags(init, t, u);
      assert Tags(t, found)[..|found| - 1] == Tags(t, init);
      assert found == init + [found[|found| - 1]];
    }
  }

  /** What the task's interface extracted and has let go of: absorbed by the behaviour, or in the channel. */
  function Passed(w: World, t: nat): seq<Discovery> {
    From(w.absorbed, t) + From(w.channel, t)
  }

  ghost predicate Delivers(w: World, t: nat)
    requires t < |w.tasks|
  {
    var task := w.tasks[t];
    if task.alive then task.extracted == Passed(w, t) + task.state.discovered
    else Passed(w, t) <= task.extracted
  }

  ghost predicate NothingFromLater(w: World) {
    && (forall i :: 0 <= i < |w.channel| ==> w.channel[i].task < |w.tasks|)
    && (forall i :: 0 <= i < |w.absorbed| ==> w.absorbed[i].task < |w.tasks|)
  }

  lemma {:induction false} FromNone(items: seq<Tagged>, t: nat)
    requires forall i :: 0 <= i < |items| ==> items[i].task < t
    ensures From(items, t) == []
  {
    if items != [] {
      FromNone(items[..|items| - 1], t);
    }
  }

  lemma TurnDelivers(w: World, t: nat, turn: Turn, u: nat)
    requires turn.Valid() && forall k :: 0 <= k < |w.tasks| ==> w.tasks[k].local.Valid()
    requires u < |w.tasks| && Delivers(w, u)
    ensures Delivers(OnTurn(w, t, turn), u)
  {
    hide LoopPass, From, Tags;
    if t < |w.tasks| && w.tasks[t].alive {
      var task := w.tasks[t];
      var p := LoopPass(task.local, task.state, turn);
      FromCat(w.channel, Tags(t, p.delivered), u);
      FromTags(p.delivered, t, u);
      if t == u {
        OwnTurnDelivers(w, t, turn);
      } else {
        assert From(w.channel, u) + [] == From(w.channel, u);
        assert OnTurn(w, t, turn).tasks[u] == w.tasks[u];
      }
    }
  }

  lemma {:induction false} OwnTurnDelivers(w: World, t: nat, turn: Turn)
    requires turn.Valid() && forall k :: 0 <= k < |w.tasks| ==> w.tasks[k].local.Valid()
    requires t < |w.tasks| && w.tasks[t].alive && Delivers(w, t)
    requires var p := LoopPass(w.tasks[t].local, w.tasks[t].state, turn);
             From(w.channel + Tags(t, p.delivered), t) == From(w.channel, t) + p.delivered
    ensures Delivers(OnTurn(w, t, turn), t)
  {
    hide LoopPass, From, Tags;
    var task := w.tasks[t];
    var p := LoopPass(task.local, task.state, turn);
    PassConserves(task.local, task.state, turn);
    Handover(From(w.absorbed, t), From(w.channel, t), task.state.discovered, p.found, p.delivered, p.lost,
             p.state.discovered);
    if p.control != Stopped {
      assert p.lost + p.state.discovered == p.state.discovered;
    }
  }

  /** Extracted so far: absorbed, in the channel, waiting. A pass adds what it found, moves what it
      delivered, and drops what it lost. */
  lemma Handover<T>(absorbed: seq<T>, channel: seq<T>, waiting: seq<T>, found: seq<T>, delivered: seq<T>, lost: seq<T>,
                    left: seq<T>)
    requires waiting + found == delivered + lost + left
    ensures absorbed + channel + waiting + found == absorbed + (channel + delivered) + (lost + left)
    ensures absorbed + (channel + delivered) <= absorbed + channel + waiting + found
  {
    Assoc(absorbed + channel, waiting, found);
    Assoc(delivered, lost, left);
    Assoc(absorbed + channel, delivered, lost + left);
    Assoc(absorbed, channel, delivered);
  }

  lemma PollDelivers(w: World, now: Instant, u: nat)
    requires u < |w.tasks| && Delivers(w, u)
    ensures Delivers(OnPoll(w, now), u)
  {
    FromCat(w.absorbed, w.channel, u);
    assert From(w.absorbed + w.channel, u) + [] == From(w.absorbed + w.channel, u);
  }

  lemma NextKeepsSources(node: Node, w: World, h: Happening)
    requires Admissible(h) && forall k :: 0 <= k < |w.tasks| ==> w.tasks[k].local.Valid()
    requires NothingFromLater(w)
    ensures NothingFromLater(Next(node, w, h)) && |w.tasks| <= |Next(node, w, h).tasks|
  {
    hide LoopPass, AfterPoll, Emitted;
  }

  lemma NextDelivers(node: Node, w: World, h: Happening, u: nat)
    requires Admissible(h) && forall k :: 0 <= k < |w.tasks| ==> w.tasks[k].local.Valid()
    requires NothingFromLater(w) && (u < |w.tasks| ==> Delivers(w, u))
    requires u < |Next(node, w, h).tasks|
    ensures Delivers(Next(node, w, h), u)
  {
    hide OnTurn, OnPoll;
    match h {
      case Up(_, _, _, _) =>
        if u == |w.tasks| {
          FromNone(w.channel, u);
          FromNone(w.absorbed, u);
        }
      case Down(_) =>
      case Gone(_) =>
      case Turned(t, turn) =>
        TurnKeepsTasks(w, t, turn);
        TurnDelivers(w, t, turn, u);
      case Polled(now) =>
        PollKeepsTasks(w, now);
        PollDelivers(w, now, u);
    }
  }

  lemma TurnKeepsTasks(w: World, t: nat, turn: Turn)
    requires turn.Valid() && forall k :: 0 <= k < |w.tasks| ==> w.tasks[k].local.Valid()
    ensures |OnTurn(w, t, turn).tasks| == |w.tasks|
  {
    hide LoopPass;
  }

  lemma PollKeepsTasks(w: World, now: Instant)
    ensures OnPoll(w, now).tasks == w.tasks
  {
    hide AfterPoll, Emitted;
  }

  lemma {:induction false} RunKeepsSources(node: Node, run: seq<Happening>)
    requires node.Valid() && forall k :: 0 <= k < |run| ==> Admissible(run[k])
    ensures NothingFromLater(After(node, run))
  {
    hide Next;
    if run != [] {
      RunKeepsSources(node, run[..|run| - 1]);
      NextKeepsSources(node, After(node, run[..|run| - 1]), run[|run| - 1]);
    } else {
      assert NothingFromLater(Empty());
    }
  }

  /** In every run, what a live task's interface extracted is what the behaviour absorbed from it, then
      what is in the channel, then what the task still holds, in order, nothing lost and nothing twice;
      of a task that is gone, what got through is a prefix of what it extracted. */
  lemma {:induction false} EveryRunDelivers(node: Node, run: seq<Happening>, t: nat)
    requires node.Valid() && forall k :: 0 <= k < |run| ==> Admissible(run[k])
    requires t < |After(node, run).tasks|
    ensures var w := After(node, run);
            var task := w.tasks[t];
            if task.alive then task.extracted == Passed(w, t) + task.state.discovered
            else Passed(w, t) <= task.extracted
    decreases |run|
  {
    hide Next;
    if run != [] {
      var earlier, h := run[..|run| - 1], run[|run| - 1];
      var before := After(node, earlier);
      if t < |before.tasks| {
        EveryRunDelivers(node, earlier, t);
      }
      RunKeepsSources(node, earlier);
      NextDelivers(node, before, h, t);
    }
  }

  // ---------------------------------------------------------------- from a task to the table

  /** What never shrinks: tasks, what each has extracted, and what the behaviour has absorbed. */
  ghost predicate Grows(w: World, after: World) {
    && |w.tasks| <= |after.tasks| && w.absorbed <= after.absorbed
    && forall t :: 0 <= t < |w.tasks| ==> w.tasks[t].extracted <= after.tasks[t].extracted
  }

  lemma NextGrows(node: Node, w: World, h: Happening)
    requires Admissible(h) && forall k :: 0 <= k < |w.tasks| ==> w.tasks[k].local.Valid()
    ensures Grows(w, Next(node, w, h))
  {
    hide LoopPass, AfterPoll, Emitted;
  }

  /** The world after a run that goes on. */
  lemma {:induction false} LaterSnoc(node: Node, before: seq<Happening>, more: seq<Happening>)
    requires node.Valid() && more != [] && forall k :: 0 <= k < |before + more| ==> Admissible((before + more)[k])
    ensures var earlier := before + more[..|more| - 1];
            && (forall k :: 0 <= k < |earlier| ==> Admissible(earlier[k])) && Admissible(more[|more| - 1])
            && After(node, before + more) == Next(node, After(node, earlier), more[|more| - 1])
            && (before + more)[..|before + more| - 1] == earlier
  {
    hide Next;
    var run, earlier := before + more, before + more[..|more| - 1];
    assert run[..|run| - 1] == earlier && run[|run| - 1] == more[|more| - 1];
    forall k | 0 <= k < |earlier| ensures Admissible(earlier[k]) {
      assert earlier[k] == run[k];
    }
  }

  lemma {:induction false} RunGrows(node: Node, before: seq<Happening>, more: seq<Happening>)
    requires node.Valid() && forall k :: 0 <= k < |before + more| ==> Admissible((before + more)[k])
    ensures forall k :: 0 <= k < |before| ==> Admissible(before[k])
    ensures Grows(After(node, before), After(node, before + more))
    decreases |more|
  {
    hide Next, After;
    forall k | 0 <= k < |before| ensures Admissible(before[k]) {
      assert before[k] == (before + more)[k];
    }
    if more == [] {
      assert before + more == before;
    } else {
      LaterSnoc(node, before, more);
      RunGrows(node, before, more[..|more| - 1]);
      NextGrows(node, After(node, before + more[..|more| - 1]), more[|more| - 1]);
    }
  }

  lemma {:induction false} FromMember(items: seq<Tagged>, t: nat, d: Discovery)
    requires d in From(items, t)
    ensures Tagged(t, d) in items
  {
    var init, last := items[..|items| - 1], items[|items| - 1];
    assert items == init + [last];
    if last != Tagged(t, d) {
      FromMember(init, t, d);
    }
  }

  lemma UntaggedMember(items: seq<Tagged>, item: Tagged)
    requires item in items
    ensures item.d in Untagged(items)
  {
    var i :| 0 <= i < |items| && items[i] == item;
    assert Untagged(items)[i] == item.d;
  }

  lemma {:induction false} TableHasNoDuplicates(node: Node, run: seq<Happening>)
    requires node.Valid() && forall k :: 0 <= k < |run| ==> Admissible(run[k])
    ensures NoDuplicates(After(node, run).table.nodes)
  {
    hide After, PollsOf, RunPolls;
    RunTable(node, run);
    PolledTableHoldsSurvivors(PollsOf(node, run), Pair([49], []));
  }

  lemma NextKnows(node: Node, w: World, h: Happening, item: Tagged)
    requires Admissible(h) && forall k :: 0 <= k < |w.tasks| ==> w.tasks[k].local.Valid()
    requires NoDuplicates(w.table.nodes) && (h.Polled? ==> h.now < item.d.expiration)
    requires Knows(w.table.nodes, PairOf(item.d), item.d.expiration) || (h.Polled? && item in w.channel)
    ensures Knows(Next(node, w, h).table.nodes, PairOf(item.d), item.d.expiration)
  {
    hide AfterPoll, Emitted, Knows;
    if h.Polled? {
      if item in w.channel {
        UntaggedMember(w.channel, item);
      }
      PollKnows(w.table, Input(Untagged(w.channel), h.now), PairOf(item.d), item.d.expiration);
    } else {
      OthersLeaveTable(node, w, h);
    }
  }

  lemma AbsorbedNext(node: Node, w: World, h: Happening)
    requires Admissible(h) && forall k :: 0 <= k < |w.tasks| ==> w.tasks[k].local.Valid()
    ensures Next(node, w, h).absorbed == w.absorbed + if h.Polled? then w.channel else []
  {
    hide LoopPass, AfterPoll, Emitted;
  }

  /** What was absorbed after `before` is still known when every poll since was before its expiration. */
  lemma {:induction false} AbsorbedStaysKnown(node: Node, before: seq<Happening>, more: seq<Happening>, item: Tagged)
    requires node.Valid() && forall k :: 0 <= k < |before + more| ==> Admissible((before + more)[k])
    requires forall k :: 0 <= k < |more| && more[k].Polled? ==> more[k].now < item.d.expiration
    requires forall k :: 0 <= k < |before| ==> Admissible(before[k])
    requires |After(node, before).absorbed| <= |After(node, before + more).absorbed|
    requires item in After(node, before + more).absorbed[|After(node, before).absorbed|..]
    ensures Knows(After(node, before + more).table.nodes, PairOf(item.d), item.d.expiration)
    decreases |more|
  {
    hide Next, After, Knows;
    assert more == [] ==> before + more == before;
    if more != [] {
      var init, h := more[..|more| - 1], more[|more| - 1];
      LaterSnoc(node, before, more);
      RunGrows(node, before, init);
      var w, n := After(node, before + init), |After(node, before).absorbed|;
      TableHasNoDuplicates(node, before + init);
      AbsorbedNext(node, w, h);
      if item in w.absorbed[n..] {
        AbsorbedStaysKnown(node, before, init, item);
      } else {
        var added := if h.Polled? then w.channel else [];
        assert (w.absorbed + added)[n..] == w.absorbed[n..] + added;
      }
      NextKnows(node, w, h, item);
    }
  }

  lemma {:induction false} PassedIsPrefix(node: Node, run: seq<Happening>, t: nat)
    requires node.Valid() && forall k :: 0 <= k < |run| ==> Admissible(run[k])
    requires t < |After(node, run).tasks|
    ensures From(After(node, run).absorbed, t) <= After(node, run).tasks[t].extracted
  {
    hide After;
    EveryRunDelivers(node, run, t);
  }

  /** In the order of delivery, what was found after `extracted` is absorbed after what was absorbed before. */
  lemma {:induction false} AbsorbedLater(absorbed: seq<Tagged>, later: seq<Tagged>, t: nat, extracted: seq<Discovery>,
                                         found: seq<Discovery>,
                      all: seq<Discovery>, d: Discovery)
    requires d in found && extracted + found <= all
    requires From(absorbed, t) <= extracted && From(absorbed + later, t) <= all
    requires |From(absorbed + later, t)| >= |extracted| + |found|
    ensures Tagged(t, d) in later
  {
    hide From;
    FromCat(absorbed, later, t);
    var j :| 0 <= j < |found| && found[j] == d;
    var k := |extracted| + j;
    assert (extracted + found)[k] == d && all[k] == d;
    assert From(absorbed + later, t)[k] == d;
    assert From(later, t)[k - |From(absorbed, t)|] == d;
    FromMember(later, t, d);
  }

  /** What a task found in a pass is offered for dialing once everything the task had extracted by then has
      been absorbed, and through every later poll before its expiration. */
  lemma {:induction false} FoundIsOffered(node: Node, before: seq<Happening>, t: nat, turn: Turn, more: seq<Happening>,
                                          d: Discovery)
    requires node.Valid() && forall k :: 0 <= k < |before + [Turned(t, turn)] + more| ==>
               Admissible((before + [Turned(t, turn)] + more)[k])
    requires forall k :: 0 <= k < |before| ==> Admissible(before[k])
    requires turn.Valid() && t < |After(node, before).tasks| && After(node, before).tasks[t].alive
    requires var task := After(node, before).tasks[t]; d in LoopPass(task.local, task.state, turn).found
    requires forall k :: 0 <= k < |more| && more[k].Polled? ==> more[k].now < d.expiration
    requires var task := After(node, before).tasks[t];
             var w := After(node, before + [Turned(t, turn)] + more);
             |From(w.absorbed, t)| >= |task.extracted| + |LoopPass(task.local, task.state, turn).found|
    ensures d.addr in AddressesOfPeer(After(node, before + [Turned(t, turn)] + more).table.nodes, d.peer)
  {
    hide Next, After, LoopPass, Knows, From;
    var h := Turned(t, turn);
    var w0, mid, w := After(node, before), After(node, before + [h]), After(node, before + [h] + more);
    RunGrows(node, before + [h], more);
    TurnExtracts(node, before, t, turn);
    var task, later := w0.tasks[t], w.absorbed[|mid.absorbed|..];
    PassedIsPrefix(node, before, t);
    PassedIsPrefix(node, before + [h] + more, t);
    assert w.absorbed == mid.absorbed + later;
    AbsorbedLater(mid.absorbed, later, t, task.extracted, LoopPass(task.local, task.state, turn).found,
                  w.tasks[t].extracted, d);
    AbsorbedStaysKnown(node, before + [h], more, Tagged(t, d));
    AddressesOfPeerMembers(w.table.nodes, d.peer, d.addr);
    KnownIsThere(w.table.nodes, PairOf(d), d.expiration);
  }

  lemma {:induction false} KnownIsThere(nodes: seq<Discovery>, pair: Pair, until: Instant)
    requires Knows(nodes, pair, until)
    ensures Lookup(nodes, pair).Some?
  {
  }

  lemma {:induction false} TurnExtracts(node: Node, before: seq<Happening>, t: nat, turn: Turn)
    requires node.Valid() && forall k :: 0 <= k < |before| ==> Admissible(before[k])
    requires turn.Valid() && t < |After(node, before).tasks| && After(node, before).tasks[t].alive
    requires forall k :: 0 <= k < |before + [Turned(t, turn)]| ==> Admissible((before + [Turned(t, turn)])[k])
    ensures var task, mid := After(node, before).tasks[t], After(node, before + [Turned(t, turn)]);
            && t < |mid.tasks|
            && mid.tasks[t].extracted == task.extracted + LoopPass(task.local, task.state, turn).found
            && mid.absorbed == After(node, before).absorbed
  {
    hide LoopPass;
    assert (before + [Turned(t, turn)])[..|before|] == before;
  }

  // ---------------------------------------------------------------- tasks and interfaces

  /** The task map names tasks not told to abort, one for each address, and misses none of them. */
  ghost predicate OneTaskEach(w: World) {
    && (forall ip :: ip in w.ifTasks ==> w.ifTasks[ip] < |w.tasks| && !w.tasks[w.ifTasks[ip]].aborted)
    && (forall ip, other :: ip in w.ifTasks && other in w.ifTasks && w.ifTasks[ip] == w.ifTasks[other] ==> ip == other)
    && (forall t :: 0 <= t < |w.tasks| && !w.tasks[t].aborted ==> t in w.ifTasks.Values)
  }

  lemma UpKeepsOneTask(node: Node, w: World, ip: IpAddr, loopback: bool, created: bool, jitter: Duration)
    requires OneTaskEach(w)
    ensures OneTaskEach(OnUp(node, w, ip, loopback, created, jitter))
  {
    var after := OnUp(node, w, ip, loopback, created, jitter);
    if after != w {
      forall t | 0 <= t < |after.tasks| && !after.tasks[t].aborted ensures t in after.ifTasks.Values {
        var who := ip;
        if t < |w.tasks| {
          assert t in w.ifTasks.Values;
          who :| who in w.ifTasks && w.ifTasks[who] == t;
        }
        assert who in after.ifTasks && after.ifTasks[who] == t;
      }
    }
  }

  lemma DownKeepsOneTask(w: World, ip: IpAddr)
    requires OneTaskEach(w)
    ensures OneTaskEach(OnDown(w, ip))
  {
    var after := OnDown(w, ip);
    if ip in w.ifTasks {
      forall t | 0 <= t < |after.tasks| && !after.tasks[t].aborted ensures t in after.ifTasks.Values {
        assert t in w.ifTasks.Values;
        var who :| who in w.ifTasks && w.ifTasks[who] == t;
        assert who in after.ifTasks && after.ifTasks[who] == t;
      }
    }
  }

  lemma OthersKeepOneTask(w: World, after: World)
    requires OneTaskEach(w) && after.ifTasks == w.ifTasks && |after.tasks| == |w.tasks|
    requires forall t :: 0 <= t < |w.tasks| ==> after.tasks[t].aborted == w.tasks[t].aborted
    ensures OneTaskEach(after)
  {
  }

  lemma TurnKeepsAborted(w: World, t: nat, turn: Turn)
    requires turn.Valid() && forall k :: 0 <= k < |w.tasks| ==> w.tasks[k].local.Valid()
    ensures var after := OnTurn(w, t, turn);
            && after.ifTasks == w.ifTasks && |after.tasks| == |w.tasks|
            && forall k :: 0 <= k < |w.tasks| ==> after.tasks[k].aborted == w.tasks[k].aborted
  {
    hide LoopPass;
  }

  /** In every run there is exactly one task not told to abort for each address in the task map, and none
      besides, however often interfaces come and go. */
  lemma {:induction false} EveryRunKeepsOneTaskEach(node: Node, run: seq<Happening>)
    requires node.Valid() && forall k :: 0 <= k < |run| ==> Admissible(run[k])
    ensures OneTaskEach(After(node, run))
  {
    hide OnUp, OnDown, OnTurn, OneTaskEach, AfterPoll, Emitted;
    if run == [] {
      NoTasksYet();
    } else {
      var earlier, h := run[..|run| - 1], run[|run| - 1];
      EveryRunKeepsOneTaskEach(node, earlier);
      var w := After(node, earlier);
      match h
      case Up(ip, loopback, created, jitter) => UpKeepsOneTask(node, w, ip, loopback, created, jitter);
      case Down(ip) => DownKeepsOneTask(w, ip);
      case Gone(t) => OthersKeepOneTask(w, OnGone(w, t));
      case Turned(t, turn) =>
        TurnKeepsAborted(w, t, turn);
        OthersKeepOneTask(w, OnTurn(w, t, turn));
      case Polled(now) => OthersKeepOneTask(w, OnPoll(w, now));
    }
  }

  lemma NoTasksYet()
    ensures OneTaskEach(Empty())
  {
  }

  /** An address that has come up: not loopback, of the configured family, with sockets that could be opened. */
  predicate ComesUp(node: Node, h: Happening, ip: IpAddr) {
    h.Up? && h.ip == ip && !h.loopback && h.created && (ip.V6? <==> node.config.ipv6)
  }

  /** It has come up, and not gone down since. */
  ghost predicate IsUp(node: Node, run: seq<Happening>, ip: IpAddr) {
    exists i :: 0 <= i < |run| && ComesUp(node, run[i], ip) && forall j :: i < j < |run| ==> run[j] != Down(ip)
  }

  lemma WatchedStep(node: Node, w: World, h: Happening, ip: IpAddr)
    requires Admissible(h) && forall k :: 0 <= k < |w.tasks| ==> w.tasks[k].local.Valid()
    ensures ip in Next(node, w, h).ifTasks <==> ComesUp(node, h, ip) || (ip in w.ifTasks && h != Down(ip))
  {
    hide LoopPass, AfterPoll, Emitted;
  }

  lemma IsUpSnoc(node: Node, earlier: seq<Happening>, h: Happening, ip: IpAddr)
    ensures IsUp(node, earlier + [h], ip) <==> ComesUp(node, h, ip) || (IsUp(node, earlier, ip) && h != Down(ip))
  {
    hide ComesUp;
    var run := earlier + [h];
    if ComesUp(node, h, ip) {
      assert run[|earlier|] == h;
    } else if IsUp(node, earlier, ip) && h != Down(ip) {
      var i :| 0 <= i < |earlier| && ComesUp(node, earlier[i], ip)
               && forall j :: i < j < |earlier| ==> earlier[j] != Down(ip);
      assert run[i] == earlier[i];
    } else if IsUp(node, run, ip) {
      var i :| 0 <= i < |run| && ComesUp(node, run[i], ip) && forall j :: i < j < |run| ==> run[j] != Down(ip);
      assert run[|earlier|] == h && earlier[i] == run[i];
      forall j | i < j < |earlier| ensures earlier[j] != Down(ip) {
        assert earlier[j] == run[j];
      }
    }
  }

  /** In every run an address has a task exactly when it has come up and not gone down since. */
  lemma {:induction false} TasksFollowInterfaces(node: Node, run: seq<Happening>, ip: IpAddr)
    requires node.Valid() && forall k :: 0 <= k < |run| ==> Admissible(run[k])
    ensures ip in After(node, run).ifTasks <==> IsUp(node, run, ip)
  {
    hide Next, IsUp, ComesUp;
    if run != [] {
      var earlier, h := run[..|run| - 1], run[|run| - 1];
      TasksFollowInterfaces(node, earlier, ip);
      WatchedStep(node, After(node, earlier), h, ip);
      IsUpSnoc(node, earlier, h, ip);
      assert run == earlier + [h];
    } else {
      NothingUp(node, ip);
    }
  }

  lemma NothingUp(node: Node, ip: IpAddr)
    ensures !IsUp(node, [], ip)
  {
  }

  /** The task was started with the node's settings and the jitter drawn when its address came up, and probes as
      a task of these settings does. */
  ghost predicate StartedBy(node: Node, run: seq<Happening>, task: Task) {
    && Probes(task.local, task.state)
    && exists i :: 0 <= i < |run| && run[i].Up?
                   && task.local
                      == Local(node.config, node.localPeer, node.config.queryInterval + run[i].jitter, node.translate)
  }

  lemma StillStarted(node: Node, earlier: seq<Happening>, h: Happening, task: Task, after: Task)
    requires StartedBy(node, earlier, task) && after.local == task.local && Probes(after.local, after.state)
    ensures StartedBy(node, earlier + [h], after)
  {
    var i :| 0 <= i < |earlier| && earlier[i].Up?
             && task.local
                == Local(node.config, node.localPeer, node.config.queryInterval + earlier[i].jitter, node.translate);
    assert (earlier + [h])[i] == earlier[i];
  }

  lemma TurnProbes(w: World, t: nat, turn: Turn, u: nat)
    requires turn.Valid() && forall k :: 0 <= k < |w.tasks| ==> w.tasks[k].local.Valid()
    requires u < |w.tasks| && Probes(w.tasks[u].local, w.tasks[u].state)
    ensures var after := OnTurn(w, t, turn);
            |after.tasks| == |w.tasks| && after.tasks[u].local == w.tasks[u].local
            && Probes(after.tasks[u].local, after.tasks[u].state)
  {
    hide LoopPass;
    if t < |w.tasks| && w.tasks[t].alive {
      PassProbes(w.tasks[u].local, w.tasks[u].state, turn);
    }
  }

  /** What a task keeps through anything but the start of another. */
  lemma NextKeepsTask(node: Node, w: World, h: Happening, u: nat)
    requires Admissible(h) && forall k :: 0 <= k < |w.tasks| ==> w.tasks[k].local.Valid()
    requires u < |w.tasks| && Probes(w.tasks[u].local, w.tasks[u].state)
    ensures var after := Next(node, w, h);
            u < |after.tasks| && after.tasks[u].local == w.tasks[u].local
            && Probes(after.tasks[u].local, after.tasks[u].state)
  {
    hide OnTurn, OnPoll, Probes;
    match h
    case Up(_, _, _, _) =>
    case Down(_) =>
    case Gone(_) =>
    case Turned(t, turn) => TurnProbes(w, t, turn, u);
    case Polled(now) => PollKeepsTasks(w, now);
  }

  lemma NewTask(node: Node, w: World, h: Happening)
    requires Admissible(h) && forall k :: 0 <= k < |w.tasks| ==> w.tasks[k].local.Valid()
    requires |Next(node, w, h).tasks| > |w.tasks|
    ensures h.Up? && |Next(node, w, h).tasks| == |w.tasks| + 1
    ensures var task := Next(node, w, h).tasks[|w.tasks|];
            && task.local == Local(node.config, node.localPeer, node.config.queryInterval + h.jitter, node.translate)
            && Probes(task.local, task.state) && task.alive && !task.aborted
            && task.state.sendBuffer == [] && task.state.discovered == [] && task.state.probe.Probing?
  {
    hide LoopPass, AfterPoll, Emitted;
  }

  /** In every run every task works on the settings it was started with, and is in one of the two probe states
      they give. */
  lemma {:induction false} EveryTaskKeepsItsSettings(node: Node, run: seq<Happening>, t: nat)
    requires node.Valid() && forall k :: 0 <= k < |run| ==> Admissible(run[k])
    requires t < |After(node, run).tasks|
    ensures StartedBy(node, run, After(node, run).tasks[t])
    decreases |run|
  {
    hide Next, StartedBy, Probes;
    if run != [] {
      var earlier, h := run[..|run| - 1], run[|run| - 1];
      var w := After(node, earlier);
      assert run == earlier + [h];
      if t < |w.tasks| {
        EveryTaskKeepsItsSettings(node, earlier, t);
        StartedProbes(node, earlier, w.tasks[t]);
        NextKeepsTask(node, w, h, t);
        StillStarted(node, earlier, h, w.tasks[t], After(node, run).tasks[t]);
      } else {
        NewTask(node, w, h);
        JustStarted(node, run, After(node, run).tasks[t]);
      }
    }
  }

  lemma StartedProbes(node: Node, run: seq<Happening>, task: Task)
    requires StartedBy(node, run, task)
    ensures Probes(task.local, task.state)
  {
  }

  lemma JustStarted(node: Node, run: seq<Happening>, task: Task)
    requires run != [] && run[|run| - 1].Up? && Probes(task.local, task.state)
    requires task.local
          == Local(node.config, node.localPeer, node.config.queryInterval + run[|run| - 1].jitter, node.translate)
    ensures StartedBy(node, run, task)
  {
  }

  /** The channel is there for every task that uses it. */
  ghost predicate ChannelStays(run: seq<Happening>) {
    forall k :: 0 <= k < |run| && run[k].Turned? ==> run[k].turn.send != Disconnected
  }

  lemma NextKeepsAlive(node: Node, w: World, h: Happening)
    requires Admissible(h) && forall k :: 0 <= k < |w.tasks| ==> w.tasks[k].local.Valid()
    requires h.Turned? ==> h.turn.send != Disconnected
    requires forall t :: 0 <= t < |w.tasks| && !w.tasks[t].aborted ==> w.tasks[t].alive
    ensures forall t :: 0 <= t < |Next(node, w, h).tasks| && !Next(node, w, h).tasks[t].aborted ==>
              Next(node, w, h).tasks[t].alive
  {
    hide LoopPass, AfterPoll, Emitted;
    if h.Turned? && h.task < |w.tasks| {
      PassEndsExactly(w.tasks[h.task].local, w.tasks[h.task].state, h.turn);
    }
  }

  /** As long as the channel is there, no task ends unless it was told to. */
  lemma {:induction false} TasksStayAlive(node: Node, run: seq<Happening>, t: nat)
    requires node.Valid() && ChannelStays(run) && forall k :: 0 <= k < |run| ==> Admissible(run[k])
    requires t < |After(node, run).tasks| && !After(node, run).tasks[t].aborted
    ensures After(node, run).tasks[t].alive
  {
    AllStayAlive(node, run);
  }

  lemma {:induction false} AllStayAlive(node: Node, run: seq<Happening>)
    requires node.Valid() && ChannelStays(run) && forall k :: 0 <= k < |run| ==> Admissible(run[k])
    ensures forall t :: 0 <= t < |After(node, run).tasks| && !After(node, run).tasks[t].aborted ==>
              After(node, run).tasks[t].alive
  {
    hide Next;
    if run != [] {
      AllStayAlive(node, run[..|run| - 1]);
      NextKeepsAlive(node, After(node, run[..|run| - 1]), run[|run| - 1]);
    }
  }

  // ---------------------------------------------------------------- the table of a run

  /** The polls of a run, with what each found in the channel. */
  function PollsOf(node: Node, run: seq<Happening>): seq<Input>
    requires node.Valid() && forall k :: 0 <= k < |run| ==> Admissible(run[k])
  {
    if run == [] then []
    else
      var earlier, h := run[..|run| - 1], run[|run| - 1];
      PollsOf(node, earlier)
      + if h.Polled? then [Input(Untagged(After(node, earlier).channel), h.now)] else []
  }

  lemma {:induction false} PollIsNextPoll(w: World, now: Instant, inputs: seq<Input>)
    requires RunPolls(inputs) == Run(w.table, w.emitted)
    ensures RunPolls(inputs + [Input(Untagged(w.channel), now)]) == Run(OnPoll(w, now).table, OnPoll(w, now).emitted)
  {
    hide AfterPoll, Emitted;
    assert (inputs + [Input(Untagged(w.channel), now)])[..|inputs|] == inputs;
  }

  lemma OthersLeaveTable(node: Node, w: World, h: Happening)
    requires Admissible(h) && !h.Polled? && forall k :: 0 <= k < |w.tasks| ==> w.tasks[k].local.Valid()
    ensures Next(node, w, h).table == w.table && Next(node, w, h).emitted == w.emitted
  {
    hide LoopPass;
  }

  /** Whatever the tasks do in between, the table and the events of a run are those of its polls. */
  lemma {:induction false} RunTable(node: Node, run: seq<Happening>)
    requires node.Valid() && forall k :: 0 <= k < |run| ==> Admissible(run[k])
    ensures RunPolls(PollsOf(node, run)) == Run(After(node, run).table, After(node, run).emitted)
  {
    hide OnPoll, OnTurn, OnUp, OnDown, OnGone, AfterPoll, Emitted;
    if run != [] {
      var earlier, h := run[..|run| - 1], run[|run| - 1];
      RunTable(node, earlier);
      var w := After(node, earlier);
      if h.Polled? {
        PollIsNextPoll(w, h.now, PollsOf(node, earlier));
      } else {
        OthersLeaveTable(node, w, h);
        assert PollsOf(node, earlier) + [] == PollsOf(node, earlier);
      }
    }
  }

  /** In every run each pair is discovered, expires, is discovered, and so on; it is in the table exactly
      when its last event, handed out or queued, is a discovery; and its entry is the latest
      announcement that has outlasted every sweep since it was absorbed. */
  lemma {:induction false} EveryRunAlternates(node: Node, run: seq<Happening>, pair: Pair)
    requires node.Valid() && forall k :: 0 <= k < |run| ==> Admissible(run[k])
    ensures var w := After(node, run);
            && Alternates(About(SignalsIn(w.emitted + w.table.queue), pair), Lookup(w.table.nodes, pair).Some?)
            && LatestIs(StepsOf(PollsOf(node, run)), pair, Lookup(w.table.nodes, pair))
  {
    RunTable(node, run);
    EventsAlternate(PollsOf(node, run), pair);
    PolledTableHoldsSurvivors(PollsOf(node, run), pair);
  }

  // ---------------------------------------------------------------- a node never discovers itself

  ghost predicate NoPair(pairs: seq<Pair>, peer: PeerId) {
    forall i :: 0 <= i < |pairs| ==> pairs[i].peer != peer
  }

  function PairsOf(e: Event): seq<Pair> {
    e.pairs
  }

  ghost predicate NoEvent(events: seq<Event>, peer: PeerId) {
    forall i :: 0 <= i < |events| ==> NoPair(PairsOf(events[i]), peer)
  }

  ghost predicate NoTagged(items: seq<Tagged>, peer: PeerId) {
    forall i :: 0 <= i < |items| ==> items[i].d.peer != peer
  }

  ghost predicate Without(w: World, peer: PeerId) {
    && (forall t :: 0 <= t < |w.tasks| ==> NoneFrom(w.tasks[t].state.discovered, peer))
    && NoTagged(w.channel, peer)
    && NoneFrom(w.table.nodes, peer)
    && NoEvent(w.table.queue, peer)
    && NoEvent(w.emitted, peer)
  }

  lemma {:induction false} AbsorbAllWithout(nodes: seq<Discovery>, received: seq<Discovery>, peer: PeerId)
    requires NoneFrom(nodes, peer) && NoneFrom(received, peer)
    ensures NoneFrom(AbsorbAll(nodes, received), peer) && NoPair(NewPairs(nodes, received), peer)
  {
    if received != [] {
      var earlier, d := received[..|received| - 1], received[|received| - 1];
      AbsorbAllWithout(nodes, earlier, peer);
      AbsorbShape(AbsorbAll(nodes, earlier), d);
      forall i | 0 <= i < |AbsorbAll(nodes, earlier)| ensures AbsorbAll(nodes, received)[i].peer != peer {
        assert PairOf(AbsorbAll(nodes, received)[i]) == PairOf(AbsorbAll(nodes, earlier)[i]);
      }
    }
  }

  lemma {:induction false} SweepWithout(nodes: seq<Discovery>, now: Instant, peer: PeerId)
    requires NoneFrom(nodes, peer)
    ensures NoneFrom(Unexpired(nodes, now), peer) && NoPair(ExpiredPairs(nodes, now), peer)
  {
    if nodes != [] {
      SweepWithout(nodes[1..], now, peer);
    }
  }

  lemma PollWithout(w: World, now: Instant, peer: PeerId)
    requires Without(w, peer)
    ensures Without(OnPoll(w, now), peer)
  {
    var input := Input(Untagged(w.channel), now);
    AbsorbAllWithout(w.table.nodes, input.received, peer);
    SweepWithout(AbsorbAll(w.table.nodes, input.received), now, peer);
    assert NoEvent(w.table.queue + Queued(w.table.nodes, input), peer);
  }

  lemma TurnWithout(node: Node, w: World, t: nat, turn: Turn)
    requires turn.Valid() && Without(w, node.localPeer)
    requires forall k :: 0 <= k < |w.tasks| ==> w.tasks[k].local.Valid() && w.tasks[k].local.localPeer == node.localPeer
    ensures Without(OnTurn(w, t, turn), node.localPeer)
  {
    hide LoopPass;
    if t < |w.tasks| && w.tasks[t].alive {
      PassNeverFindsSelf(w.tasks[t].local, w.tasks[t].state, turn);
    }
  }

  /** In every run, whatever packets arrive, the node's own included, the local peer is in no task's
      queue, not in the channel, not in the table and in no event. */
  lemma {:induction false} NeverDiscoversSelf(node: Node, run: seq<Happening>)
    requires node.Valid() && forall k :: 0 <= k < |run| ==> Admissible(run[k])
    ensures Without(After(node, run), node.localPeer)
  {
    hide OnTurn, OnPoll;
    if run != [] {
      var earlier, h := run[..|run| - 1], run[|run| - 1];
      NeverDiscoversSelf(node, earlier);
      var w := After(node, earlier);
      match h
      case Up(_, _, _, _) =>
      case Down(_) =>
      case Gone(_) =>
      case Turned(t, turn) => TurnWithout(node, w, t, turn);
      case Polled(now) => PollWithout(w, now, node.localPeer);
    }
  }
}
