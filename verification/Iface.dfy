/** One interface task: the prioritised poll loop over a timer, a send buffer, a queue of found
    addresses and the channel to the behaviour. */
module Iface {
  import opened Bytes
  import opened Time
  import opened Names
  import opened Multiaddrs
  import opened Config
  import opened Dns
  import opened Query
  import opened Limits

  datatype ProbeState = Probing(interval: Duration) | Finished(interval: Duration)

  /** What stays fixed while a task lives. `queryInterval` is the configured one plus the task's jitter. */
  datatype Local = Local(config: Config, localPeer: PeerId, queryInterval: Duration, translate: Translation) {
    predicate Valid() {
      ValidName(config.serviceName) && ValidName(config.metaQueryService)
    }
  }

  /** What the loop changes. `timer` is the interval the discovery timer was last started with. */
  datatype IfaceState = IfaceState(sendBuffer: seq<Bytes>, discovered: seq<Discovery>, probe: ProbeState,
                                   timer: Duration)

  datatype WriteOutcome = Sent | Failed | Busy

  datatype SendOutcome = Accepted | Full | Disconnected

  /** A datagram comes with what answering it takes: the clock, a random peer name, the listen addresses. */
  datatype ReadOutcome =
    | Datagram(bytes: Bytes, from: SocketAddr, now: Instant, peerName: Bytes, listen: seq<Multiaddr>)
    | NothingToRead
    | ReadError

  /** Everything the outside world answers in one pass of the loop. */
  datatype Turn = Turn(tick: bool, queryId: u16, write: WriteOutcome, channelReady: bool, send: SendOutcome,
                       read: ReadOutcome) {
    predicate Valid() {
      read.Datagram? ==> IsPeerName(read.peerName) && ValidName(read.peerName)
    }

    /** Gives the loop nothing new to work on. */
    predicate Quiet() {
      !tick && !read.Datagram? && !(channelReady && send.Full?)
    }
  }

  datatype Control = Again | Waiting | Stopped

  /** One pass: the new state, how the loop goes on, and what passed through the buffers. */
  datatype Pass = Pass(
    state: IfaceState,
    control: Control,
    queued: seq<Bytes>,
    handed: seq<Bytes>,
    found: seq<Discovery>,
    delivered: seq<Discovery>,
    lost: seq<Discovery>)

  // ---------------------------------------------------------------- one pass

  function Start(config: Config): IfaceState {
    IfaceState([], [], Probing(config.probeInterval), config.probeInterval)
  }

  /** Probing ends when twice the probe interval reaches the query interval; it is never doubled. */
  function NextProbe(l: Local, probe: ProbeState): ProbeState {
    match probe
    case Probing(interval) => if interval * 2 >= l.queryInterval then Finished(l.queryInterval) else Probing(interval)
    case Finished(interval) => Finished(interval)
  }

  function TickState(l: Local, s: IfaceState, turn: Turn): IfaceState
    requires l.Valid()
  {
    if !turn.tick then s
    else
      var probe := NextProbe(l, s.probe);
      s.(sendBuffer := s.sendBuffer + [QueryPacket(turn.queryId, l.config.serviceName)],
         probe := probe, timer := probe.interval)
  }

  function TickQueued(l: Local, turn: Turn): seq<Bytes>
    requires l.Valid()
  {
    if turn.tick then [QueryPacket(turn.queryId, l.config.serviceName)] else []
  }

  function Heard(l: Local, read: ReadOutcome): Result<Option<MdnsPacket>, ()>
    requires read.Datagram?
  {
    NewFromBytes(Received(read.bytes), read.from, l.config.serviceNameFqdn, l.config.metaQueryServiceFqdn)
  }

  /** The packets a pass answers a datagram with. */
  function Replies(l: Local, read: ReadOutcome): seq<Bytes>
    requires l.Valid() && (read.Datagram? ==> IsPeerName(read.peerName) && ValidName(read.peerName))
  {
    if !read.Datagram? then []
    else
      match Heard(l, read)
      case Ok(Some(Query(_, id))) =>
        Sender(id, l.localPeer, DurationToSecs(l.config.ttl), l.config.serviceName, read.peerName).Packets(read.listen)
      case Ok(Some(ServiceDiscovery(_, id))) =>
        [ServiceDiscoveryPacket(id, DurationToSecs(l.config.ttl), l.config.serviceName, l.config.metaQueryService)]
      case _ => []
  }

  /** The addresses a pass takes from a datagram. */
  function Findings(l: Local, read: ReadOutcome): seq<Discovery> {
    if !read.Datagram? then []
    else
      match Heard(l, read)
      case Ok(Some(Response(response))) => ExtractDiscovered(response, read.now, l.localPeer, l.translate)
      case _ => []
  }

  /** A datagram that is one of ours keeps the loop going; one that is not, or none, ends it. */
  predicate Understands(l: Local, read: ReadOutcome) {
    read.Datagram? && Heard(l, read).Ok? && Heard(l, read).value.Some?
  }

  predicate IsResponse(l: Local, read: ReadOutcome) {
    Understands(l, read) && Heard(l, read).value.value.Response?
  }

  /** A response that leaves an address to deliver ends probing. */
  function TakeIn(l: Local, s: IfaceState, queued: seq<Bytes>, response: bool, replies: seq<Bytes>,
                  found: seq<Discovery>): Pass {
    var s' := s.(sendBuffer := s.sendBuffer + replies, discovered := s.discovered + found);
    if response && s'.discovered != [] then
      Pass(s'.(probe := Finished(l.queryInterval), timer := l.queryInterval), Again,
           queued + replies, [], found, [], [])
    else
      Pass(s', Again, queued + replies, [], found, [], [])
  }

  function ReadPass(l: Local, s: IfaceState, turn: Turn): Pass
    requires l.Valid() && turn.Valid()
  {
    if Understands(l, turn.read) then
      TakeIn(l, s, TickQueued(l, turn), IsResponse(l, turn.read), Replies(l, turn.read), Findings(l, turn.read))
    else
      Pass(s, Waiting, TickQueued(l, turn), [], [], [], [])
  }

  function DeliverPass(l: Local, s: IfaceState, turn: Turn): Pass
    requires l.Valid() && turn.Valid()
  {
    if turn.channelReady && s.discovered != [] then
      match turn.send
      case Accepted =>
        Pass(s.(discovered := s.discovered[1..]), Again, TickQueued(l, turn), [], [], [s.discovered[0]], [])
      case Full => Pass(s, Again, TickQueued(l, turn), [], [], [], [])
      case Disconnected =>
        Pass(s.(discovered := s.discovered[1..]), Stopped, TickQueued(l, turn), [], [], [], [s.discovered[0]])
    else ReadPass(l, s, turn)
  }

  function LoopPass(l: Local, s: IfaceState, turn: Turn): Pass
    requires l.Valid() && turn.Valid()
  {
    var s := TickState(l, s, turn);
    if s.sendBuffer != [] && turn.write != Busy then
      Pass(s.(sendBuffer := s.sendBuffer[1..]), Again, TickQueued(l, turn), [s.sendBuffer[0]], [], [], [])
    else DeliverPass(l, s, turn)
  }

  /** What waited, then what came, is what went out, then what waits. */
  ghost predicate Conserves(s: IfaceState, p: Pass) {
    && s.sendBuffer + p.queued == p.handed + p.state.sendBuffer
    && s.discovered + p.found == p.delivered + p.lost + p.state.discovered
    && (p.lost != [] ==> p.control == Stopped)
  }

  lemma TakeInConserves(l: Local, s: IfaceState, t: IfaceState, queued: seq<Bytes>, response: bool,
                        replies: seq<Bytes>, found: seq<Discovery>)
    requires t.sendBuffer == s.sendBuffer + queued && t.discovered == s.discovered
    ensures Conserves(s, TakeIn(l, t, queued, response, replies, found))
  {
    Assoc(s.sendBuffer, queued, replies);
  }

  /** No pass loses, repeats or reorders a packet or an address. */
  lemma PassConserves(l: Local, s: IfaceState, turn: Turn)
    requires l.Valid() && turn.Valid()
    ensures Conserves(s, LoopPass(l, s, turn))
  {
    hide Heard, Replies, Findings, QueryPacket;
    var t := TickState(l, s, turn);
    assert t.sendBuffer == s.sendBuffer + TickQueued(l, turn);
    if t.sendBuffer != [] && turn.write != Busy {
      assert t.sendBuffer == [t.sendBuffer[0]] + t.sendBuffer[1..];
    } else if turn.channelReady && t.discovered != [] {
      assert t.discovered == [t.discovered[0]] + t.discovered[1..];
    } else if Understands(l, turn.read) {
      TakeInConserves(l, s, t, TickQueued(l, turn), IsResponse(l, turn.read), Replies(l, turn.read), Findings(l,
          turn.read));
    }
  }

  /** The loop only goes round again after new input or with less in its buffers. */
  lemma PassMakesProgress(l: Local, s: IfaceState, turn: Turn)
    requires l.Valid() && turn.Valid() && turn.Quiet()
    ensures var p := LoopPass(l, s, turn);
            p.control == Again ==> |p.state.sendBuffer| + |p.state.discovered| < |s.sendBuffer| + |s.discovered|
  {
  }

  predicate Sendable(s: IfaceState, turn: Turn) {
    (turn.tick || s.sendBuffer != []) && turn.write != Busy
  }

  predicate Deliverable(s: IfaceState, turn: Turn) {
    turn.channelReady && s.discovered != []
  }

  /** The order of priorities: nothing is delivered or read while a packet can be sent, and nothing is read
      while an address can be delivered. A tick is served whatever else there is. */
  lemma PassPriorities(l: Local, s: IfaceState, turn: Turn)
    requires l.Valid() && turn.Valid()
    ensures var p := LoopPass(l, s, turn);
            && (Sendable(s, turn) ==> |p.handed| == 1 && p.found == p.delivered == p.lost == [])
            && (!Sendable(s, turn) && Deliverable(s, turn) ==>
                  && p.handed == [] && p.found == []
                  && |p.delivered| == (if turn.send == Accepted then 1 else 0)
                  && |p.lost| == (if turn.send == Disconnected then 1 else 0))
            && (turn.tick ==> QueryPacket(turn.queryId, l.config.serviceName) in p.queued)
  {
    hide Heard, Replies, Findings, QueryPacket;
  }

  /** A pass ends the loop to wait exactly when nothing can be sent, nothing can be delivered, and there is
      either nothing to read or something that is not understood: what is behind that stays unread. What it
      leaves in its buffers could not go anywhere. It ends the task exactly when the channel is gone. */
  lemma PassEndsExactly(l: Local, s: IfaceState, turn: Turn)
    requires l.Valid() && turn.Valid()
    ensures var p := LoopPass(l, s, turn);
            && (p.control == Waiting <==> !Sendable(s, turn) && !Deliverable(s, turn) && !Understands(l, turn.read))
            && (p.control == Stopped <==> !Sendable(s, turn) && Deliverable(s, turn) && turn.send == Disconnected)
            && (p.control == Waiting && p.state.sendBuffer != [] ==> turn.write == Busy)
            && (p.control == Waiting && p.state.discovered != [] ==> !turn.channelReady)
  {
    hide Heard, Replies, Findings, QueryPacket;
  }

  /** The pass gets as far as reading. */
  predicate Reads(s: IfaceState, turn: Turn) {
    !Sendable(s, turn) && !Deliverable(s, turn)
  }

  /** A pass queues the query of a tick, if there is one, then the whole answer to the datagram it reads, and
      nothing else; only a pass that gets as far as reading takes in anything. */
  lemma PassQueues(l: Local, s: IfaceState, turn: Turn)
    requires l.Valid() && turn.Valid()
    ensures var p, query := LoopPass(l, s, turn), if turn.tick then [QueryPacket(turn.queryId, l.config.serviceName)]
                                                  else [];
            && p.queued == query + (if Reads(s, turn) then Replies(l, turn.read) else [])
            && p.found == (if Reads(s, turn) then Findings(l, turn.read) else [])
            && (Reads(s, turn) ==>
                  && p.handed == [] && p.delivered == [] && p.lost == []
                  && p.state.sendBuffer == s.sendBuffer + query + Replies(l, turn.read)
                  && p.state.discovered == s.discovered + Findings(l, turn.read))
  {
    hide NewFromBytes, ExtractDiscovered, Sender.Packets, ServiceDiscoveryPacket, QueryPacket;
    var query := TickQueued(l, turn);
    assert query + [] == query && s.sendBuffer + [] == s.sendBuffer && s.discovered + [] == s.discovered;
    assert s.sendBuffer + query + [] == s.sendBuffer + query;
  }

  /** A query that is heard leaves the whole answer behind what waits: every packet of the listen addresses,
      under the query's own id, the configured time to live and the peer name drawn for it. */
  lemma HeardQueryIsAnswered(l: Local, s: IfaceState, turn: Turn, from: SocketAddr, id: u16)
    requires l.Valid() && turn.Valid() && Reads(s, turn)
    requires turn.read.Datagram? && Heard(l, turn.read) == Result.Ok(Some(Query(from, id)))
    ensures var p := LoopPass(l, s, turn);
            && p.control == Again && p.state.discovered == s.discovered && p.state.probe == TickState(l, s, turn).probe
            && p.state.sendBuffer
               == s.sendBuffer + (if turn.tick then [QueryPacket(turn.queryId, l.config.serviceName)] else [])
                  + Sender(id, l.localPeer, DurationToSecs(l.config.ttl), l.config.serviceName,
                           turn.read.peerName).Packets(turn.read.listen)
  {
    hide Heard, Sender.Packets, QueryPacket;
    PassQueues(l, s, turn);
    assert s.discovered + [] == s.discovered;
  }

  /** A meta question that is heard leaves the one packet that names the service. */
  lemma HeardMetaQuestionIsAnswered(l: Local, s: IfaceState, turn: Turn, from: SocketAddr, id: u16)
    requires l.Valid() && turn.Valid() && Reads(s, turn)
    requires turn.read.Datagram? && Heard(l, turn.read) == Result.Ok(Some(ServiceDiscovery(from, id)))
    ensures var p := LoopPass(l, s, turn);
            && p.control == Again && p.state.discovered == s.discovered && p.state.probe == TickState(l, s, turn).probe
            && p.state.sendBuffer
               == s.sendBuffer + (if turn.tick then [QueryPacket(turn.queryId, l.config.serviceName)] else [])
                  + [ServiceDiscoveryPacket(id, DurationToSecs(l.config.ttl), l.config.serviceName,
                                            l.config.metaQueryService)]
  {
    hide Heard, ServiceDiscoveryPacket, QueryPacket;
    PassQueues(l, s, turn);
    assert s.discovered + [] == s.discovered;
  }

  lemma FindingsNeverSelf(l: Local, read: ReadOutcome)
    ensures NoneFrom(Findings(l, read), l.localPeer)
  {
    if IsResponse(l, read) {
      var response := Heard(l, read).value.value.response;
      NeverExtractsSelf(response.peers, response.from, read.now, l.localPeer, l.translate);
    }
  }

  /** Whatever is received, the local peer is never queued nor delivered. */
  lemma PassNeverFindsSelf(l: Local, s: IfaceState, turn: Turn)
    requires l.Valid() && turn.Valid() && NoneFrom(s.discovered, l.localPeer)
    ensures var p := LoopPass(l, s, turn);
            && NoneFrom(p.state.discovered, l.localPeer)
            && NoneFrom(p.found, l.localPeer) && NoneFrom(p.delivered, l.localPeer)
  {
    hide Heard, Replies, Findings, QueryPacket;
    FindingsNeverSelf(l, turn.read);
  }

  /** The only two probe states there ever are, and the timer runs on the interval of the current one. */
  predicate Probes(l: Local, s: IfaceState) {
    (s.probe == Probing(l.config.probeInterval) || s.probe == Finished(l.queryInterval)) && s.timer == s.probe.interval
  }

  /** What ends probing: a tick when twice the probe interval reaches the query interval, or a response that
      leaves an address to deliver. */
  predicate EndsProbing(l: Local, s: IfaceState, turn: Turn)
    requires l.Valid() && turn.Valid()
  {
    || (turn.tick && l.config.probeInterval * 2 >= l.queryInterval)
    || (Reads(s, turn) && IsResponse(l, turn.read) && s.discovered + Findings(l, turn.read) != [])
  }

  /** Probing is left for good, and exactly then. */
  lemma PassProbes(l: Local, s: IfaceState, turn: Turn)
    requires l.Valid() && turn.Valid() && Probes(l, s)
    ensures var p := LoopPass(l, s, turn);
            && Probes(l, p.state)
            && (p.state.probe.Finished? <==> s.probe.Finished? || EndsProbing(l, s, turn))
  {
    hide Heard, Replies, Findings, QueryPacket;
  }

  // ---------------------------------------------------------------- polls

  /** One pass after others: the last state, and everything that went through the buffers. */
  function Then(before: Pass, p: Pass): Pass {
    Pass(p.state, p.control, before.queued + p.queued, before.handed + p.handed, before.found + p.found,
         before.delivered + p.delivered, before.lost + p.lost)
  }

  /** The first `n` passes of the loop. */
  function Passes(l: Local, s: IfaceState, env: nat -> Turn, n: nat): Pass
    requires l.Valid() && forall k: nat :: env(k).Valid()
  {
    if n == 0 then Pass(s, Again, [], [], [], [], [])
    else
      var before := Passes(l, s, env, n - 1);
      Then(before, LoopPass(l, before.state, env(n - 1)))
  }

  lemma {:induction false} NoPasses(l: Local, s: IfaceState, env: nat -> Turn)
    requires l.Valid() && forall k: nat :: env(k).Valid()
    ensures Passes(l, s, env, 0) == Pass(s, Again, [], [], [], [], [])
  {
  }

  lemma PassesStep(l: Local, s: IfaceState, env: nat -> Turn, n: nat, before: Pass, p: Pass)
    requires l.Valid() && forall k: nat :: env(k).Valid()
    requires before == Passes(l, s, env, n) && p == LoopPass(l, before.state, env(n))
    ensures Passes(l, s, env, n + 1) == Then(before, p)
  {
    hide LoopPass;
  }

  ghost predicate ProbingEnded(l: Local, s: IfaceState, env: nat -> Turn, n: nat)
    requires l.Valid() && forall k: nat :: env(k).Valid()
  {
    exists k: nat :: k < n && EndsProbing(l, Passes(l, s, env, k).state, env(k))
  }

  /** A new task probes, on the probe interval, until the first pass that ends probing, and from then on asks
      at the query interval. */
  lemma {:induction false} PassesProbe(l: Local, env: nat -> Turn, n: nat)
    requires l.Valid() && forall k: nat :: env(k).Valid()
    ensures var s := Passes(l, Start(l.config), env, n).state;
            && s.probe == (if ProbingEnded(l, Start(l.config), env, n) then Finished(l.queryInterval)
                           else Probing(l.config.probeInterval))
            && s.timer == s.probe.interval
  {
    hide LoopPass, EndsProbing, Passes;
    var start := Start(l.config);
    NoPasses(l, start, env);
    if n > 0 {
      PassesProbe(l, env, n - 1);
      var before := Passes(l, start, env, n - 1);
      PassProbes(l, before.state, env(n - 1));
      PassesStep(l, start, env, n - 1, before, LoopPass(l, before.state, env(n - 1)));
      if EndsProbing(l, before.state, env(n - 1)) {
        assert ProbingEnded(l, start, env, n);
      }
    }
  }

  /** Over any number of passes, packets and addresses leave in the order they came. */
  lemma {:induction false} PassesConserve(l: Local, s: IfaceState, env: nat -> Turn, n: nat)
    requires l.Valid() && forall k: nat :: env(k).Valid()
    requires forall k: nat :: 1 <= k < n ==> Passes(l, s, env, k).control == Again
    ensures Conserves(s, Passes(l, s, env, n))
  {
    hide LoopPass;
    if n > 0 {
      PassesConserve(l, s, env, n - 1);
      var before := Passes(l, s, env, n - 1);
      PassConserves(l, before.state, env(n - 1));
      ThenConserves(s, before, LoopPass(l, before.state, env(n - 1)));
    }
  }

  lemma ThenConserves(s: IfaceState, before: Pass, p: Pass)
    requires Conserves(s, before) && Conserves(before.state, p) && before.control == Again
    ensures Conserves(s, Then(before, p))
  {
    assert before.lost + p.lost == p.lost;
    assert before.delivered + before.lost == before.delivered;
    Interleave(s.sendBuffer, before.queued, before.handed, before.state.sendBuffer, p.queued, p.handed,
               p.state.sendBuffer);
    Interleave(s.discovered, before.found, before.delivered, before.state.discovered, p.found, p.delivered + p.lost,
               p.state.discovered);
    Assoc(before.delivered, p.delivered, p.lost);
  }

  lemma Interleave<T>(a: seq<T>, b: seq<T>, c: seq<T>, d: seq<T>, e: seq<T>, f: seq<T>, g: seq<T>)
    requires a + b == c + d && d + e == f + g
    ensures a + (b + e) == (c + f) + g
  {
    Assoc(a, b, e);
    Assoc(c, d, e);
    Assoc(c, f, g);
  }

  /** Nothing new comes, the socket takes packets, and the channel takes addresses. */
  predicate Obliging(turn: Turn) {
    !turn.tick && turn.write != Busy && turn.channelReady && turn.send == Accepted
  }

  /** A pass that hands out one of what waits, packets first. */
  function HandOut(s: IfaceState): Pass
    requires s.sendBuffer != [] || s.discovered != []
  {
    if s.sendBuffer != [] then
      Pass(s.(sendBuffer := s.sendBuffer[1..]), Again, [], [s.sendBuffer[0]], [], [], [])
    else
      Pass(s.(discovered := s.discovered[1..]), Again, [], [], [], [s.discovered[0]], [])
  }

  lemma ObligedPass(l: Local, s: IfaceState, turn: Turn)
    requires l.Valid() && turn.Valid() && Obliging(turn) && (s.sendBuffer != [] || s.discovered != [])
    ensures LoopPass(l, s, turn) == HandOut(s)
  {
    hide Heard, Replies, Findings, QueryPacket;
  }

  /** The first `i` packets and `j` addresses handed out. */
  function HandedOut(s: IfaceState, i: nat, j: nat): Pass
    requires i <= |s.sendBuffer| && j <= |s.discovered|
  {
    Pass(s.(sendBuffer := s.sendBuffer[i..], discovered := s.discovered[j..]), Again, [], s.sendBuffer[..i], [],
         s.discovered[..j], [])
  }

  lemma HandOutPacket(s: IfaceState, i: nat, j: nat)
    requires i < |s.sendBuffer| && j <= |s.discovered|
    ensures Then(HandedOut(s, i, j), HandOut(HandedOut(s, i, j).state)) == HandedOut(s, i + 1, j)
  {
    assert s.sendBuffer[i..][1..] == s.sendBuffer[i + 1..];
    assert s.sendBuffer[..i] + [s.sendBuffer[i]] == s.sendBuffer[..i + 1];
    assert s.discovered[..j] + [] == s.discovered[..j];
  }

  lemma HandOutAddress(s: IfaceState, j: nat)
    requires j < |s.discovered|
    ensures Then(HandedOut(s, |s.sendBuffer|, j), HandOut(HandedOut(s, |s.sendBuffer|, j).state))
         == HandedOut(s, |s.sendBuffer|, j + 1)
  {
    assert s.discovered[j..][1..] == s.discovered[j + 1..];
    assert s.discovered[..j] + [s.discovered[j]] == s.discovered[..j + 1];
    assert s.sendBuffer[..|s.sendBuffer|] + [] == s.sendBuffer[..|s.sendBuffer|];
  }

  lemma NothingHandedOut(s: IfaceState)
    ensures HandedOut(s, 0, 0) == Pass(s, Again, [], [], [], [], [])
  {
    assert s.sendBuffer[0..] == s.sendBuffer && s.discovered[0..] == s.discovered;
  }

  /** The first `n` passes hand out the first `n` of what waits, packets first. */
  lemma {:induction false} BuffersShrink(l: Local, s: IfaceState, env: nat -> Turn, n: nat)
    requires l.Valid() && forall k: nat :: env(k).Valid()
    requires n <= |s.sendBuffer| + |s.discovered| && forall k: nat :: k < n ==> Obliging(env(k))
    ensures Passes(l, s, env, n) == HandedOut(s, Min(n, |s.sendBuffer|), Max(0, n - |s.sendBuffer|))
  {
    hide LoopPass, HandOut, HandedOut, Then;
    if n == 0 {
      NothingHandedOut(s);
    } else {
      BuffersShrink(l, s, env, n - 1);
      var i, j := Min(n - 1, |s.sendBuffer|), Max(0, n - 1 - |s.sendBuffer|);
      StillWaiting(s, i, j);
      ObligedPass(l, HandedOut(s, i, j).state, env(n - 1));
      if i < |s.sendBuffer| {
        HandOutPacket(s, i, j);
      } else {
        HandOutAddress(s, j);
      }
    }
  }

  lemma StillWaiting(s: IfaceState, i: nat, j: nat)
    requires i <= |s.sendBuffer| && j <= |s.discovered| && i + j < |s.sendBuffer| + |s.discovered|
    ensures HandedOut(s, i, j).state.sendBuffer != [] || HandedOut(s, i, j).state.discovered != []
  {
    assert |s.sendBuffer[i..]| + |s.discovered[j..]| > 0;
  }

  /** As long as nothing is asked of it and socket and channel oblige, a task has sent and delivered all that
      waited after as many passes as there was to hand out, in order, whatever datagrams have come meanwhile. */
  lemma {:induction false} BuffersEmpty(l: Local, s: IfaceState, env: nat -> Turn)
    requires l.Valid() && forall k: nat :: env(k).Valid()
    requires forall k: nat :: k < |s.sendBuffer| + |s.discovered| ==> Obliging(env(k))
    ensures var p := Passes(l, s, env, |s.sendBuffer| + |s.discovered|);
            && p.state.sendBuffer == [] && p.state.discovered == []
            && p.handed == s.sendBuffer && p.delivered == s.discovered && p.lost == []
  {
    hide Passes;
    BuffersShrink(l, s, env, |s.sendBuffer| + |s.discovered|);
    assert s.sendBuffer[..|s.sendBuffer|] == s.sendBuffer && s.discovered[..|s.discovered|] == s.discovered;
  }

  lemma RefusedPass(l: Local, s: IfaceState, turn: Turn)
    requires l.Valid() && turn.Valid() && s.discovered != [] && turn.channelReady && turn.send == Full
    ensures LoopPass(l, s, turn).control == Again && LoopPass(l, s, turn).state.discovered == s.discovered
  {
    hide QueryPacket;
  }

  /** A channel that reports itself ready and then refuses keeps the loop going round for ever. */
  lemma {:induction false} RefusingChannelSpins(l: Local, s: IfaceState, env: nat -> Turn, n: nat)
    requires l.Valid() && forall k: nat :: env(k).Valid()
    requires s.discovered != []
    requires forall k: nat :: env(k).channelReady && env(k).send == Full
    ensures Passes(l, s, env, n).control == Again && Passes(l, s, env, n).state.discovered == s.discovered
  {
    hide LoopPass;
    if n > 0 {
      RefusingChannelSpins(l, s, env, n - 1);
      RefusedPass(l, Passes(l, s, env, n - 1).state, env(n - 1));
    }
  }

  class InterfaceState {
    const local: Local
    var sendBuffer: seq<Bytes>
    var discovered: seq<Discovery>
    var probeState: ProbeState
    var timer: Duration

    constructor (local: Local)
      ensures this.local == local && Model() == Start(local.config)
    {
      this.local := local;
      sendBuffer, discovered := [], [];
      probeState := Probing(local.config.probeInterval);
      timer := local.config.probeInterval;
    }

    function Model(): IfaceState
      reads this
    {
      IfaceState(sendBuffer, discovered, probeState, timer)
    }

    method ResetTimer()
      modifies `timer
      ensures timer == probeState.interval
    {
      timer := probeState.interval;
    }

    /** First priority: a query as soon as the timer fires. */
    method Tick(queryId: u16)
      requires local.Valid()
      modifies this
      ensures forall turn: Turn :: turn.tick && turn.queryId == queryId ==>
                Model() == TickState(local, old(Model()), turn)
    {
      var packet := BuildQuery(queryId, local.config.serviceName);
      sendBuffer := sendBuffer + [packet];
      if probeState.Probing? {
        probeState := if probeState.interval * 2 >= local.queryInterval then Finished(local.queryInterval)
                      else Probing(probeState.interval);
      }
      ResetTimer();
    }

    /** Fourth priority: a datagram; says whether the loop goes on. */
    method Answer(read: ReadOutcome) returns (again: bool)
      requires local.Valid() && read.Datagram? && IsPeerName(read.peerName) && ValidName(read.peerName)
      modifies this
      ensures forall turn: Turn :: turn.read == read ==>
                && Model() == ReadPass(local, old(Model()), turn).state
                && (again <==> ReadPass(local, old(Model()), turn).control == Again)
      ensures sendBuffer == old(sendBuffer) + Replies(local, read)
      ensures discovered == old(discovered) + Findings(local, read)
    {
      hide NewFromBytes, Received, ExtractDiscovered, Sender.Packets;
      hide ServiceDiscoveryPacket, QueryPacket, DurationToSecs;
      var config := local.config;
      var packet := NewFromBytes(Received(read.bytes), read.from, config.serviceNameFqdn, config.metaQueryServiceFqdn);
      if packet.Err? || packet.value.None? {
        return false;
      }
      match packet.value.value {
        case Query(_, id) =>
          var packets := BuildQueryResponse(id, local.localPeer, read.listen, config.ttl, config.serviceName,
                                            read.peerName);
          sendBuffer := sendBuffer + packets;
        case Response(response) =>
          discovered := discovered + ExtractDiscovered(response, read.now, local.localPeer, local.translate);
          if discovered != [] {
            probeState := Finished(local.queryInterval);
            ResetTimer();
          }
        case ServiceDiscovery(_, id) =>
          var reply := BuildServiceDiscoveryResponse(id, config.ttl, config.serviceName, config.metaQueryService);
          sendBuffer := sendBuffer + [reply];
      }
      return true;
    }

    /** One pass of the poll loop. */
    method Once(turn: Turn) returns (control: Control, sent: seq<Bytes>, delivered: seq<Discovery>)
      requires local.Valid() && turn.Valid()
      modifies this
      ensures var p := LoopPass(local, old(Model()), turn);
              Model() == p.state && control == p.control && sent == p.handed && delivered == p.delivered
      ensures sent + sendBuffer
           == old(sendBuffer) + (if turn.tick then [QueryPacket(turn.queryId, local.config.serviceName)] else [])
              + (if old(Reads(Model(), turn)) then Replies(local, turn.read) else [])
    {
      PassConserves(local, Model(), turn);
      PassQueues(local, Model(), turn);
      if turn.tick {
        Tick(turn.queryId);
      }
      if sendBuffer != [] && turn.write != Busy {
        var packet := sendBuffer[0];
        sendBuffer := sendBuffer[1..];
        return Again, [packet], [];
      }
      if turn.channelReady && discovered != [] {
        var d := discovered[0];
        match turn.send {
          case Accepted =>
            discovered := discovered[1..];
            return Again, [], [d];
          case Full =>
            return Again, [], [];
          case Disconnected =>
            discovered := discovered[1..];
            return Stopped, [], [];
        }
      }
      if turn.read.Datagram? {
        var again := Answer(turn.read);
        return if again then Again else Waiting, [], [];
      }
      return Waiting, [], [];
    }

    /** The poll loop, watched for at most `budget` passes, in any world. */
    method PollAtMost(env: nat -> Turn, budget: nat)
      returns (used: nat, sent: seq<Bytes>, delivered: seq<Discovery>, control: Control)
      requires local.Valid() && forall k: nat :: env(k).Valid()
      modifies this
      ensures used <= budget && (used < budget ==> control != Again)
      ensures forall k: nat :: k < used ==> Passes(local, old(Model()), env, k).control == Again
      ensures var p := Passes(local, old(Model()), env, used);
              Model() == p.state && sent == p.handed && delivered == p.delivered && control == p.control
    {
      hide LoopPass, Passes;
      used, sent, delivered, control := 0, [], [], Again;
      ghost var start := Model();
      NoPasses(local, start, env);
      ghost var done := Pass(start, Again, [], [], [], [], []);
      while used < budget && control == Again
        invariant used <= budget && done == Passes(local, start, env, used) && done.control == control
        invariant forall k: nat :: k < used ==> Passes(local, start, env, k).control == Again
        invariant Model() == done.state && sent == done.handed && delivered == done.delivered
      {
        ghost var p := LoopPass(local, done.state, env(used));
        PassesStep(local, start, env, used, done, p);
        var packets, addresses;
        control, packets, addresses := Once(env(used));
        done := Then(done, p);
        used := used + 1;
        sent, delivered := sent + packets, delivered + addresses;
      }
    }

    /** The poll loop. After `horizon` passes the world has nothing new for it, and then it ends:
        `used` passes, all but the last of which go round again, and which hand `sent` to the socket and
        `delivered` to the channel. */
    method Poll(env: nat -> Turn, ghost horizon: nat)
      returns (used: nat, sent: seq<Bytes>, delivered: seq<Discovery>, stopped: bool)
      requires local.Valid() && forall k: nat :: env(k).Valid()
      requires forall k: nat :: k >= horizon ==> env(k).Quiet()
      modifies this
      ensures used >= 1
      ensures forall k: nat :: k < used ==> Passes(local, old(Model()), env, k).control == Again
      ensures var p := Passes(local, old(Model()), env, used);
              && Model() == p.state && sent == p.handed && delivered == p.delivered
              && p.control == if stopped then Stopped else Waiting
    {
      hide LoopPass, Passes;
      used, sent, delivered := 0, [], [];
      ghost var start := Model();
      NoPasses(local, start, env);
      ghost var done := Pass(start, Again, [], [], [], [], []);
      while true
        invariant done == Passes(local, start, env, used) && done.control == Again
        invariant forall k: nat :: k < used ==> Passes(local, start, env, k).control == Again
        invariant Model() == done.state && sent == done.handed && delivered == done.delivered
        decreases if used < horizon then horizon - used else 0, |sendBuffer| + |discovered|
      {
        var turn := env(used);
        ghost var p := LoopPass(local, done.state, turn);
        if turn.Quiet() {
          PassMakesProgress(local, done.state, turn);
        }
        PassesStep(local, start, env, used, done, p);
        var control, packets, addresses := Once(turn);
        done := Then(done, p);
        used := used + 1;
        sent, delivered := sent + packets, delivered + addresses;
        if control != Again {
          return used, sent, delivered, control == Stopped;
        }
      }
    }
  }
}
