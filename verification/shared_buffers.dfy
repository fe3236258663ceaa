/** Zero copy over several autonotify links. One sender passes one buffer to all its receivers, or one
    receiver works in the buffers of all its senders; the memory is one and the same for all. */
module SharedBuffers {
  import opened Wire
  import opened FlagBits
  import opened MessageStream
  import opened LinkProtocol
  import opened ZeroCopy
  import opened Network

  /** snapshots[j][k] is what the buffer of message k on link j held when its send began. */
  datatype NetSystem = NetSystem(net: Net, memory: map<nat, seq<byte>>, snapshots: seq<seq<seq<byte>>>)

  datatype NetEvent =
    | Moved(move: Move)
    | Filled(link: nat, address: nat, content: seq<byte>)   // the sender of the link prepares a buffer

  function NewNetSystem(plan: Plan, flags: bv32): NetSystem
    requires plan != []
  {
    NetSystem(NewNet(plan, flags), map[], seq(|plan|, _ => []))
  }

  /** The process that sends over the link is between two calls of icom_send. */
  predicate InOwnCode(shape: Shape, net: Net, j: nat)
    requires j < |net.links|
  {
    if shape.oneSender then net.sending == 0 && net.links[0].sender.pc.Ready? else net.links[j].sender.pc.Ready?
  }

  /** An independent sender writes to the buffers that it sends from; buffers lists them by link. */
  predicate MayTouch(shape: Shape, buffers: seq<set<nat>>, j: nat, address: nat) {
    shape.oneSender || (j < |buffers| && address in buffers[j])
  }

  predicate UsesBuffers(shape: Shape, plan: Plan, buffers: seq<set<nat>>) {
    forall j | 0 <= j < |plan| :: forall k | 0 <= k < |plan[j]| :: MayTouch(shape, buffers, j, plan[j][k].BufferAt())
  }

  /** No two senders share a buffer. */
  predicate Disjoint(buffers: seq<set<nat>>) {
    forall i, j | 0 <= i < j < |buffers| :: buffers[i] !! buffers[j]
  }

  predicate OwnBuffers(shape: Shape, plan: Plan, buffers: seq<set<nat>>) {
    UsesBuffers(shape, plan, buffers) && (shape.oneSender || Disjoint(buffers))
  }

  predicate CanOccur(shape: Shape, plan: Plan, buffers: seq<set<nat>>, s: NetSystem, e: NetEvent) {
    && |s.snapshots| == |s.net.links| == |plan|
    && match e
       case Moved(m) => CanMove(shape, plan, s.net, m)
       case Filled(j, a, _) => j < |plan| && InOwnCode(shape, s.net, j) && MayTouch(shape, buffers, j, a)
  }

  function SnapshotsAfter(memory: map<nat, seq<byte>>, snapshots: seq<seq<byte>>, a: Action): seq<seq<byte>> {
    match a
    case BeginSend(Zero(pointer, _)) => snapshots + [Content(memory, pointer)]
    case _ => snapshots
  }

  function Occur(shape: Shape, plan: Plan, buffers: seq<set<nat>>, s: NetSystem, e: NetEvent): NetSystem
    requires CanOccur(shape, plan, buffers, s, e)
  {
    match e
    case Moved(m) =>
      NetSystem(DoMove(shape, plan, s.net, m), s.memory,
                s.snapshots[m.link := SnapshotsAfter(s.memory, s.snapshots[m.link], m.action)])
    case Filled(_, address, content) => s.(memory := s.memory[address := content])
  }

  predicate IsNetHistory(shape: Shape, plan: Plan, buffers: seq<set<nat>>, s: NetSystem, events: seq<NetEvent>)
    decreases |events|
  {
    events == [] || (CanOccur(shape, plan, buffers, s, events[0])
                     && IsNetHistory(shape, plan, buffers, Occur(shape, plan, buffers, s, events[0]), events[1..]))
  }

  function NetOutcome(shape: Shape, plan: Plan, buffers: seq<set<nat>>, s: NetSystem, events: seq<NetEvent>): NetSystem
    requires IsNetHistory(shape, plan, buffers, s, events)
    decreases |events|
  {
    if events == [] then s
    else NetOutcome(shape, plan, buffers, Occur(shape, plan, buffers, s, events[0]), events[1..])
  }

  // ----- every link by itself

  /** One link with the memory that all links share. */
  function View(s: NetSystem, j: nat): System
    requires j < |s.net.links| == |s.snapshots|
  {
    System(s.net.links[j], s.memory, s.snapshots[j])
  }

  predicate AllKept(s: NetSystem) {
    && |s.snapshots| == |s.net.links|
    && forall j | 0 <= j < |s.net.links| :: BufferKept(View(s, j))
  }

  /** Where the process that owns several ends stands in its loop. */
  predicate RoundOk(shape: Shape, net: Net, round: nat) {
    if shape == FAN_OUT then InRound(net, round) else InReceiveRound(net, round)
  }

  predicate SharedInv(shape: Shape, plan: Plan, flags: bv32, s: NetSystem, round: nat) {
    NetInv(plan, flags, s.net) && RoundOk(shape, s.net, round) && AllKept(s)
  }

  lemma ViewMoves(p: Pair, memory: map<nat, seq<byte>>, snapshots: seq<seq<byte>>, a: Action)
    requires Enabled(p, a) && NotificationOf(p.flags).AutoNotify?
    ensures var v := System(p, memory, snapshots);
            CanHappen(v, Step(a)) && Happen(v, Step(a)) == System(Next(p, a), memory, SnapshotsAfter(memory, snapshots, a))
  {
    hide Enabled, Next, NotificationOf;
  }

  lemma MoveKeepsOne(p: Pair, memory: map<nat, seq<byte>>, snapshots: seq<seq<byte>>, a: Action, todo: seq<Message>, flags: bv32)
    requires LinkInv(p, todo, flags) && Enabled(p, a) && IsZero(flags) && NotificationOf(flags).AutoNotify?
    requires BufferKept(System(p, memory, snapshots))
    ensures BufferKept(System(Next(p, a), memory, SnapshotsAfter(memory, snapshots, a)))
  {
    hide Inv, Lockstep, BufferKept, Enabled, Next, NotificationOf, IsZero, Happen, CanHappen, SnapshotsAfter;
    ViewMoves(p, memory, snapshots, a);
    StepKeepsBuffer(System(p, memory, snapshots), Step(a));
  }

  lemma MoveKeepsAll(shape: Shape, plan: Plan, flags: bv32, buffers: seq<set<nat>>, s: NetSystem, m: Move)
    requires NetInv(plan, flags, s.net) && AllKept(s) && IsZero(flags) && NotificationOf(flags).AutoNotify?
    requires CanOccur(shape, plan, buffers, s, Moved(m))
    ensures AllKept(Occur(shape, plan, buffers, s, Moved(m)))
  {
    hide LinkInv, BufferKept, Enabled, Next, NotificationOf, IsZero, SnapshotsAfter, FollowsPlan, Returns;
    assert BufferKept(View(s, m.link));
    MoveKeepsOne(s.net.links[m.link], s.memory, s.snapshots[m.link], m.action, plan[m.link], flags);
    var s' := Occur(shape, plan, buffers, s, Moved(m));
    forall j | 0 <= j < |s'.net.links| ensures BufferKept(View(s', j)) {
      assert j != m.link ==> View(s', j) == View(s, j);
    }
  }

  /** What a sender in its own code writes disturbs no buffer that is waiting to be acknowledged. */
  lemma FillKeepsOne(p: Pair, memory: map<nat, seq<byte>>, snapshots: seq<seq<byte>>, address: nat, content: seq<byte>)
    requires Lockstep(p) && NotificationOf(p.flags).AutoNotify? && BufferKept(System(p, memory, snapshots))
    requires p.sender.pc.Ready? || (p.sender.sent != [] ==> Last(p.sender.sent).BufferAt() != address)
    ensures BufferKept(System(p, memory[address := content], snapshots))
  {
    hide NotificationOf, ReceiverCounts;
  }

  lemma LastIsPlanned(shape: Shape, plan: Plan, buffers: seq<set<nat>>, flags: bv32, net: Net, j: nat)
    requires NetInv(plan, flags, net) && OwnBuffers(shape, plan, buffers) && j < |plan|
    requires net.links[j].sender.sent != []
    ensures MayTouch(shape, buffers, j, Last(net.links[j].sender.sent).BufferAt())
  {
    hide Inv, Lockstep, MayTouch, Message.BufferAt;
    var sent := net.links[j].sender.sent;
    assert LinkInv(net.links[j], plan[j], flags);
    assert sent[|sent| - 1] == plan[j][|sent| - 1];
  }

  lemma TouchedApart(shape: Shape, plan: Plan, buffers: seq<set<nat>>, i: nat, j: nat, a: nat, b: nat)
    requires OwnBuffers(shape, plan, buffers) && !shape.oneSender && i != j
    requires MayTouch(shape, buffers, i, a) && MayTouch(shape, buffers, j, b)
    ensures a != b
  {
    hide UsesBuffers;
    assert if i < j then buffers[i] !! buffers[j] else buffers[j] !! buffers[i];
  }

  lemma FillKeepsAll(shape: Shape, plan: Plan, flags: bv32, buffers: seq<set<nat>>, s: NetSystem, e: NetEvent, round: nat)
    requires (shape == FAN_OUT || shape == FAN_IN) && SharedInv(shape, plan, flags, s, round)
    requires NotificationOf(flags).AutoNotify? && OwnBuffers(shape, plan, buffers)
    requires e.Filled? && CanOccur(shape, plan, buffers, s, e)
    ensures AllKept(Occur(shape, plan, buffers, s, e))
  {
    hide Inv, Lockstep, BufferKept, NotificationOf, OwnBuffers;
    var s' := Occur(shape, plan, buffers, s, e);
    forall j | 0 <= j < |s'.net.links| ensures BufferKept(View(s', j)) {
      var p := s.net.links[j];
      assert LinkInv(p, plan[j], flags);
      assert BufferKept(View(s, j));
      if shape == FAN_IN && j != e.link && p.sender.sent != [] {
        LastIsPlanned(shape, plan, buffers, flags, s.net, j);
        TouchedApart(shape, plan, buffers, j, e.link, Last(p.sender.sent).BufferAt(), e.address);
      }
      FillKeepsOne(p, s.memory, s.snapshots[j], e.address, e.content);
    }
  }

  lemma EventKeepsSharedInv(shape: Shape, plan: Plan, flags: bv32, buffers: seq<set<nat>>, s: NetSystem, e: NetEvent, round: nat)
    returns (round': nat)
    requires (shape == FAN_OUT || shape == FAN_IN) && SharedInv(shape, plan, flags, s, round)
    requires IsZero(flags) && NotificationOf(flags).AutoNotify? && OwnBuffers(shape, plan, buffers)
    requires CanOccur(shape, plan, buffers, s, e)
    ensures SharedInv(shape, plan, flags, Occur(shape, plan, buffers, s, e), round')
  {
    hide NetInv, CanMove, DoMove, AllKept, NotificationOf, IsZero, InRound, InReceiveRound, OwnBuffers, MayTouch;
    round' := round;
    if e.Moved? {
      MoveKeepsAll(shape, plan, flags, buffers, s, e.move);
      MoveKeepsNetInv(shape, plan, flags, s.net, e.move);
      if shape == FAN_OUT {
        round' := MoveKeepsRound(plan, flags, s.net, e.move, round);
      } else {
        round' := MoveKeepsReceiveRound(plan, flags, s.net, e.move, round);
      }
    } else {
      FillKeepsAll(shape, plan, flags, buffers, s, e, round);
    }
  }

  lemma {:induction false} HistoryKeepsSharedInv(shape: Shape, plan: Plan, flags: bv32, buffers: seq<set<nat>>,
                                                 s: NetSystem, events: seq<NetEvent>, round: nat)
    returns (round': nat)
    requires (shape == FAN_OUT || shape == FAN_IN) && SharedInv(shape, plan, flags, s, round)
    requires IsZero(flags) && NotificationOf(flags).AutoNotify? && OwnBuffers(shape, plan, buffers)
    requires IsNetHistory(shape, plan, buffers, s, events)
    ensures SharedInv(shape, plan, flags, NetOutcome(shape, plan, buffers, s, events), round')
    decreases |events|
  {
    hide SharedInv, CanOccur, Occur, NotificationOf, IsZero, OwnBuffers;
    if events == [] {
      round' := round;
    } else {
      round' := EventKeepsSharedInv(shape, plan, flags, buffers, s, events[0], round);
      round' := HistoryKeepsSharedInv(shape, plan, flags, buffers, Occur(shape, plan, buffers, s, events[0]), events[1..],
                                      round');
    }
  }

  lemma NewSharedInv(shape: Shape, plan: Plan, flags: bv32)
    requires plan != [] && NotificationOf(flags).AutoNotify?
    ensures SharedInv(shape, plan, flags, NewNetSystem(plan, flags), 0)
  {
    hide LinkInv, NotificationOf;
    NewNetInv(plan, flags);
  }

  // ----- the theorems

  lemma NotificationIsAuto(flags: bv32)
    requires NotificationOf(flags).AutoNotify?
    ensures !NotificationOf(flags).Plain? && !NotificationOf(flags).Notify?
  {
  }

  lemma LinkHeldIntact(plan: Plan, flags: bv32, s: NetSystem, j: nat)
    requires NetInv(plan, flags, s.net) && AllKept(s) && NotificationOf(flags).AutoNotify? && j < |plan|
    ensures HeldIntact(View(s, j))
    ensures Holding(s.net.links[j]) ==> !s.net.links[j].sender.pc.Ready?
  {
    hide Inv, Lockstep, BufferKept, NotificationOf, HeldIntact, Holding;
    assert LinkInv(s.net.links[j], plan[j], flags);
    assert BufferKept(View(s, j));
    SystemInvHeldIntact(View(s, j), flags);
    NotificationIsAuto(flags);
  }

  /** One sender, many receivers: whatever the interleaving, the buffer a receiver works on is as it was
      sent. Receivers have their turns one at a time: while one works, the sender stands at its link,
      inside icom_send, and can fill no buffer. */
  lemma FanOutBuffersIntact(plan: Plan, flags: bv32, buffers: seq<set<nat>>, events: seq<NetEvent>)
    requires plan != [] && IsZero(flags) && NotificationOf(flags).AutoNotify?
    requires IsNetHistory(FAN_OUT, plan, buffers, NewNetSystem(plan, flags), events)
    ensures var s := NetOutcome(FAN_OUT, plan, buffers, NewNetSystem(plan, flags), events);
            && |s.net.links| == |s.snapshots| == |plan|
            && forall j | 0 <= j < |plan| ::
                 && HeldIntact(View(s, j))
                 && (Holding(s.net.links[j]) ==>
                       j == s.net.sending && forall i | 0 <= i < |plan| :: !InOwnCode(FAN_OUT, s.net, i))
  {
    hide Inv, Lockstep, BufferKept, CanOccur, Occur, NotificationOf, IsZero, HeldIntact, Holding, IsNetHistory, NetOutcome;
    var s0 := NewNetSystem(plan, flags);
    NewSharedInv(FAN_OUT, plan, flags);
    assert OwnBuffers(FAN_OUT, plan, buffers);
    var round := HistoryKeepsSharedInv(FAN_OUT, plan, flags, buffers, s0, events, 0);
    var s := NetOutcome(FAN_OUT, plan, buffers, s0, events);
    forall j | 0 <= j < |plan|
      ensures HeldIntact(View(s, j))
      ensures Holding(s.net.links[j]) ==> j == s.net.sending && !s.net.links[j].sender.pc.Ready?
    {
      LinkHeldIntact(plan, flags, s, j);
    }
  }

  /** The receiver is between two calls of icom_recv3. */
  predicate ReceiverAtRest(net: Net)
    requires net.links != []
  {
    net.receiving == |net.links| - 1 && net.links[net.receiving].receiver.pc.Idle?
  }

  /** Many senders, one receiver: if no two senders share a buffer, every buffer received is as it was
      sent for as long as the receiver may work on it. Between two calls of icom_recv3 these are the
      buffers of all links, all of the same round, and no sender can fill any. */
  lemma FanInBuffersIntact(plan: Plan, flags: bv32, buffers: seq<set<nat>>, events: seq<NetEvent>)
    requires plan != [] && IsZero(flags) && NotificationOf(flags).AutoNotify? && OwnBuffers(FAN_IN, plan, buffers)
    requires IsNetHistory(FAN_IN, plan, buffers, NewNetSystem(plan, flags), events)
    ensures var s := NetOutcome(FAN_IN, plan, buffers, NewNetSystem(plan, flags), events);
            && |s.net.links| == |s.snapshots| == |plan|
            && (forall j | 0 <= j < |plan| ::
                  HeldIntact(View(s, j)) && (Holding(s.net.links[j]) ==> !InOwnCode(FAN_IN, s.net, j)))
            && (ReceiverAtRest(s.net) && s.net.links[0].receiver.delivered != [] ==>
                  forall j | 0 <= j < |plan| ::
                    && Holding(s.net.links[j])
                    && |s.net.links[j].receiver.delivered| == |s.net.links[0].receiver.delivered|)
  {
    hide Inv, Lockstep, BufferKept, CanOccur, Occur, NotificationOf, IsZero, HeldIntact, IsNetHistory, NetOutcome, OwnBuffers;
    var s0 := NewNetSystem(plan, flags);
    NewSharedInv(FAN_IN, plan, flags);
    var round := HistoryKeepsSharedInv(FAN_IN, plan, flags, buffers, s0, events, 0);
    var s := NetOutcome(FAN_IN, plan, buffers, s0, events);
    NotificationIsAuto(flags);
    forall j | 0 <= j < |plan|
      ensures HeldIntact(View(s, j)) && (Holding(s.net.links[j]) ==> !s.net.links[j].sender.pc.Ready?)
      ensures ReceiverAtRest(s.net) && s.net.links[0].receiver.delivered != [] ==>
                Holding(s.net.links[j]) && |s.net.links[j].receiver.delivered| == |s.net.links[0].receiver.delivered|
    {
      assert LinkInv(s.net.links[j], plan[j], flags);
      LinkHeldIntact(plan, flags, s, j);
    }
  }

  // ----- what is in memory

  /** What the last fill of the address wrote, or what was there before. */
  function LastFill(events: seq<NetEvent>, address: nat, before: seq<byte>): seq<byte> {
    if events == [] then before
    else
      var now := if events[0].Filled? && events[0].address == address then events[0].content else before;
      LastFill(events[1..], address, now)
  }

  /** Nothing but the sending programs' fills changes the memory, and each of them does. */
  lemma {:induction false} MemoryIsLastFill(shape: Shape, plan: Plan, buffers: seq<set<nat>>, s: NetSystem,
                                            events: seq<NetEvent>, address: nat)
    requires IsNetHistory(shape, plan, buffers, s, events)
    ensures Content(NetOutcome(shape, plan, buffers, s, events).memory, address)
            == LastFill(events, address, Content(s.memory, address))
    decreases |events|
  {
    hide CanOccur, DoMove, SnapshotsAfter;
    if events == [] {
    } else {
      MemoryIsLastFill(shape, plan, buffers, Occur(shape, plan, buffers, s, events[0]), events[1..], address);
    }
  }

  function AsEvents(moves: seq<Move>): (r: seq<NetEvent>)
    ensures |r| == |moves|
  {
    if moves == [] then [] else [Moved(moves[0])] + AsEvents(moves[1..])
  }

  lemma SameCount(shape: Shape, plan: Plan, net: Net, m: Move)
    requires CanMove(shape, plan, net, m)
    ensures m.link < |net.links| == |DoMove(shape, plan, net, m).links|
  {
    hide Enabled, Next, FollowsPlan, Returns;
  }

  lemma SnapshotsGrow(memory: map<nat, seq<byte>>, snapshots: seq<seq<byte>>, a: Action)
    ensures snapshots <= SnapshotsAfter(memory, snapshots, a)
  {
  }

  /** A run of the network is a history in which no buffer is filled. */
  lemma {:induction false} RunIsHistory(shape: Shape, plan: Plan, buffers: seq<set<nat>>, s: NetSystem, moves: seq<Move>)
    requires IsNetRun(shape, plan, s.net, moves) && |s.snapshots| == |s.net.links| == |plan|
    ensures IsNetHistory(shape, plan, buffers, s, AsEvents(moves))
    ensures var after := NetOutcome(shape, plan, buffers, s, AsEvents(moves));
            && after.net == NetAfter(shape, plan, s.net, moves) && after.memory == s.memory
            && |after.snapshots| == |s.snapshots| == |after.net.links|
            && forall j | 0 <= j < |s.snapshots| :: s.snapshots[j] <= after.snapshots[j]
    decreases |moves|
  {
    hide CanMove, DoMove, SnapshotsAfter;
    if moves == [] {
    } else {
      assert AsEvents(moves)[1..] == AsEvents(moves[1..]);
      SameCount(shape, plan, s.net, moves[0]);
      SnapshotsGrow(s.memory, s.snapshots[moves[0].link], moves[0].action);
      RunIsHistory(shape, plan, buffers, Occur(shape, plan, buffers, s, Moved(moves[0])), moves[1..]);
    }
  }

  // ----- sharing a buffer does harm

  predicate AllHeldIntact(s: NetSystem) {
    && |s.net.links| == |s.snapshots|
    && forall j | 0 <= j < |s.net.links| :: HeldIntact(View(s, j))
  }

  function OneEach(addresses: seq<nat>): (plan: Plan)
    ensures |plan| == |addresses|
    ensures forall j | 0 <= j < |plan| :: plan[j] == [Zero(addresses[j], POINTER_SIZE)]
  {
    seq(|addresses|, j requires 0 <= j < |addresses| => [Zero(addresses[j], POINTER_SIZE)])
  }

  lemma OneEachUsable(addresses: seq<nat>, flags: bv32)
    requires IsZero(flags) && forall j | 0 <= j < |addresses| :: addresses[j] < POINTER_LIMIT
    ensures AllUsable(OneEach(addresses), flags)
  {
  }

  lemma OneEachUses(shape: Shape, addresses: seq<nat>, buffers: seq<set<nat>>)
    requires |addresses| == |buffers| && forall j | 0 <= j < |addresses| :: addresses[j] in buffers[j]
    ensures UsesBuffers(shape, OneEach(addresses), buffers)
  {
  }

  /** One address out of each sender's buffers, and the given one for the given sender. */
  lemma Pick(buffers: seq<set<nat>>, i: nat, a: nat) returns (addresses: seq<nat>)
    requires i < |buffers| && a in buffers[i] && forall j | 0 <= j < |buffers| :: buffers[j] != {}
    ensures |addresses| == |buffers| && addresses[i] == a
    ensures forall j | 0 <= j < |buffers| :: addresses[j] in buffers[j]
  {
    addresses := [];
    while |addresses| < |buffers|
      invariant |addresses| <= |buffers|
      invariant forall j | 0 <= j < |addresses| :: addresses[j] in buffers[j]
    {
      var x :| x in buffers[|addresses|];
      addresses := addresses + [x];
    }
    addresses := addresses[i := a];
  }

  lemma TwoEvents(shape: Shape, plan: Plan, buffers: seq<set<nat>>, s: NetSystem, e: NetEvent, f: NetEvent)
    requires CanOccur(shape, plan, buffers, s, e) && CanOccur(shape, plan, buffers, Occur(shape, plan, buffers, s, e), f)
    ensures IsNetHistory(shape, plan, buffers, s, [e, f])
    ensures NetOutcome(shape, plan, buffers, s, [e, f])
            == Occur(shape, plan, buffers, Occur(shape, plan, buffers, s, e), f)
  {
    hide CanOccur, Occur;
    var s1 := Occur(shape, plan, buffers, s, e);
    assert [e, f][1..] == [f] && [f][1..] == [];
    assert IsNetHistory(shape, plan, buffers, s1, [f]);
    assert NetOutcome(shape, plan, buffers, s1, [f]) == Occur(shape, plan, buffers, s1, f);
  }

  /** The first send has begun, and another sender, not yet sending, has filled the same buffer. */
  lemma SharedFill(plan: Plan, flags: bv32, buffers: seq<set<nat>>, i: nat, j: nat, a: nat)
    requires i < |plan| && j < |plan| && i != j && |buffers| == |plan| && a in buffers[j]
    requires plan[i] == [Zero(a, POINTER_SIZE)] && Usable(plan[i][0], flags)
    ensures var events := [Moved(Move(i, BeginSend(plan[i][0]))), Filled(j, a, [1])];
            && IsNetHistory(FAN_IN, plan, buffers, NewNetSystem(plan, flags), events)
            && var s := NetOutcome(FAN_IN, plan, buffers, NewNetSystem(plan, flags), events);
               && s.memory == map[a := [1]] && |s.snapshots| == |s.net.links| == |plan| && s.snapshots[i] == [[]]
               && CanMove(FAN_IN, plan, NewNet(plan, flags), Move(i, BeginSend(plan[i][0])))
               && s.net == DoMove(FAN_IN, plan, NewNet(plan, flags), Move(i, BeginSend(plan[i][0])))
  {
    hide Message.Sendable, Message.Fits, IsNetHistory, NetOutcome;
    var s0, e, f := NewNetSystem(plan, flags), Moved(Move(i, BeginSend(plan[i][0]))), Filled(j, a, [1]);
    assert CanOccur(FAN_IN, plan, buffers, s0, e);
    var s1 := Occur(FAN_IN, plan, buffers, s0, e);
    assert CanOccur(FAN_IN, plan, buffers, s1, f);
    TwoEvents(FAN_IN, plan, buffers, s0, e, f);
    assert map[][a := [1]] == map[a := [1]];
  }

  lemma FlagsOfLink(p: Pair, todo: seq<Message>, flags: bv32)
    requires LinkInv(p, todo, flags)
    ensures p.flags == flags
  {
  }

  lemma FanInFinishes(plan: Plan, flags: bv32, net: Net, moves: seq<Move>)
    requires NetInv(plan, flags, net) && AllUsable(plan, flags) && NotificationOf(flags).AutoNotify?
    requires InReceiveRound(net, 0) && IsNetRun(FAN_IN, plan, net, moves)
    requires Stuck(FAN_IN, plan, NetAfter(FAN_IN, plan, net, moves))
    requires forall j | 0 <= j < |plan| :: |plan[j]| == 1
    ensures var after := NetAfter(FAN_IN, plan, net, moves);
            |after.links| == |plan| && forall j | 0 <= j < |plan| - 1 ::
              after.links[j].receiver.pc.Idle? && after.links[j].receiver.delivered == plan[j]
              && after.links[j].flags == flags
  {
    hide LinkInv, CanMove, DoMove, NotificationOf, IsNetRun, NetAfter, AllUsable, Stuck;
    var round := RunKeepsReceiveRound(plan, flags, net, moves, 0);
    RunKeepsNetInv(FAN_IN, plan, flags, net, moves);
    var after := NetAfter(FAN_IN, plan, net, moves);
    EqualFanInEnds(plan, flags, after, round, 1);
    forall j | 0 <= j < |plan| ensures after.links[j].flags == flags {
      FlagsOfLink(after.links[j], plan[j], flags);
    }
  }

  lemma OverwrittenHeld(p: Pair, memory: map<nat, seq<byte>>, snapshots: seq<seq<byte>>, a: nat)
    requires Holding(p) && p.receiver.delivered == [Zero(a, POINTER_SIZE)]
    requires memory == map[a := [1]] && [[]] <= snapshots
    ensures !HeldIntact(System(p, memory, snapshots))
  {
    assert Last(p.receiver.delivered) == Zero(a, POINTER_SIZE);
    assert snapshots[0] == [[]][0];
  }

  lemma IdleHolds(p: Pair)
    requires NotificationOf(p.flags).AutoNotify? && p.receiver.pc.Idle? && p.receiver.delivered != []
    ensures Holding(p)
  {
  }

  lemma UsableOf(plan: Plan, flags: bv32, i: nat)
    requires AllUsable(plan, flags) && i < |plan| && plan[i] != []
    ensures Usable(plan[i][0], flags)
  {
    hide Usable;
  }

  lemma NothingReceivedYet(plan: Plan, flags: bv32, m: Move)
    requires plan != [] && m.action.BeginSend? && CanMove(FAN_IN, plan, NewNet(plan, flags), m)
    ensures var net := DoMove(FAN_IN, plan, NewNet(plan, flags), m);
            && InReceiveRound(net, 0) && |net.links| == |plan|
            && forall j | 0 <= j < |plan| :: net.links[j].receiver.delivered == []
  {
  }

  /** After one first move the run is carried on until nobody can move. */
  lemma FinishFanIn(plan: Plan, flags: bv32, m: Move) returns (moves: seq<Move>)
    requires plan != [] && AllUsable(plan, flags) && NotificationOf(flags).AutoNotify?
    requires (forall j | 0 <= j < |plan| :: |plan[j]| == 1) && m.action.BeginSend?
    requires CanMove(FAN_IN, plan, NewNet(plan, flags), m)
    ensures var net := DoMove(FAN_IN, plan, NewNet(plan, flags), m);
            && IsNetRun(FAN_IN, plan, net, moves)
            && var after := NetAfter(FAN_IN, plan, net, moves);
               |after.links| == |plan| && forall j | 0 <= j < |plan| - 1 ::
                 after.links[j].receiver.pc.Idle? && after.links[j].receiver.delivered == plan[j]
                 && after.links[j].flags == flags
  {
    hide LinkInv, CanMove, DoMove, NotificationOf, IsNetRun, NetAfter, AllUsable, Stuck, InReceiveRound;
    var net0 := NewNet(plan, flags);
    var net := DoMove(FAN_IN, plan, net0, m);
    NewNetInv(plan, flags);
    NewNetReceives(plan, flags);
    MoveKeepsNetInv(FAN_IN, plan, flags, net0, m);
    NothingReceivedYet(plan, flags, m);
    moves := RunsCanFinish(FAN_IN, plan, flags, net);
    FanInFinishes(plan, flags, net, moves);
  }

  lemma {:induction false} HistoriesJoin(shape: Shape, plan: Plan, buffers: seq<set<nat>>, s: NetSystem,
                                         a: seq<NetEvent>, b: seq<NetEvent>)
    requires IsNetHistory(shape, plan, buffers, s, a)
    requires IsNetHistory(shape, plan, buffers, NetOutcome(shape, plan, buffers, s, a), b)
    ensures IsNetHistory(shape, plan, buffers, s, a + b)
    ensures NetOutcome(shape, plan, buffers, s, a + b)
            == NetOutcome(shape, plan, buffers, NetOutcome(shape, plan, buffers, s, a), b)
    decreases |a|
  {
    hide CanOccur, Occur;
    if a == [] {
      assert a + b == b;
    } else {
      HistoriesJoin(shape, plan, buffers, Occur(shape, plan, buffers, s, a[0]), a[1..], b);
      assert (a + b)[1..] == a[1..] + b;
    }
  }

  /** Two senders that share a buffer: the one fills it while the other's message is on its way. */
  lemma SharedBufferOverwritten(flags: bv32, buffers: seq<set<nat>>, i: nat, j: nat, a: nat)
    returns (plan: Plan, events: seq<NetEvent>)
    requires IsZero(flags) && NotificationOf(flags).AutoNotify?
    requires i < j < |buffers| && a in buffers[i] && a in buffers[j]
    requires forall m | 0 <= m < |buffers| :: buffers[m] != {} && forall x | x in buffers[m] :: x < POINTER_LIMIT
    ensures |plan| == |buffers| && UsesBuffers(FAN_IN, plan, buffers)
    ensures IsNetHistory(FAN_IN, plan, buffers, NewNetSystem(plan, flags), events)
    ensures !AllHeldIntact(NetOutcome(FAN_IN, plan, buffers, NewNetSystem(plan, flags), events))
  {
    hide CanMove, DoMove, IsNetHistory, NetOutcome, IsNetRun, NetAfter, NotificationOf, IsZero, NetInv, Stuck, AllUsable,
         UsesBuffers, HeldIntact, Holding, InReceiveRound, Usable, OneEach;
    var addresses := Pick(buffers, i, a);
    plan := OneEach(addresses);
    OneEachUsable(addresses, flags);
    OneEachUses(FAN_IN, addresses, buffers);
    assert Usable(plan[i][0], flags) by { UsableOf(plan, flags, i); }
    var first := [Moved(Move(i, BeginSend(plan[i][0]))), Filled(j, a, [1])];
    SharedFill(plan, flags, buffers, i, j, a);
    var s := NetOutcome(FAN_IN, plan, buffers, NewNetSystem(plan, flags), first);
    var moves := FinishFanIn(plan, flags, Move(i, BeginSend(plan[i][0])));
    RunIsHistory(FAN_IN, plan, buffers, s, moves);
    HistoriesJoin(FAN_IN, plan, buffers, NewNetSystem(plan, flags), first, AsEvents(moves));
    events := first + AsEvents(moves);
    var end := NetOutcome(FAN_IN, plan, buffers, NewNetSystem(plan, flags), events);
    IdleHolds(end.net.links[i]);
    OverwrittenHeld(end.net.links[i], end.memory, end.snapshots[i], a);
    assert View(end, i) == System(end.net.links[i], end.memory, end.snapshots[i]);
  }

  lemma SharedByTwo(buffers: seq<set<nat>>) returns (i: nat, j: nat, a: nat)
    requires !Disjoint(buffers)
    ensures i < j < |buffers| && a in buffers[i] && a in buffers[j]
  {
    i, j :| 0 <= i < j < |buffers| && !(buffers[i] !! buffers[j]);
    a :| a in buffers[i] && a in buffers[j];
  }

  /** So with one receiver on many links the guarantee holds, whatever is sent from the senders' buffers
      and in all interleavings, if and only if no two senders share a buffer. */
  lemma FanInIntactExactly(flags: bv32, buffers: seq<set<nat>>)
    requires IsZero(flags) && NotificationOf(flags).AutoNotify? && buffers != []
    requires forall m | 0 <= m < |buffers| :: buffers[m] != {} && forall x | x in buffers[m] :: x < POINTER_LIMIT
    ensures (forall plan: Plan, events: seq<NetEvent> |
               |plan| == |buffers| && UsesBuffers(FAN_IN, plan, buffers)
               && IsNetHistory(FAN_IN, plan, buffers, NewNetSystem(plan, flags), events) ::
               AllHeldIntact(NetOutcome(FAN_IN, plan, buffers, NewNetSystem(plan, flags), events)))
            <==> Disjoint(buffers)
  {
    hide IsNetHistory, NetOutcome, HeldIntact, UsesBuffers, NotificationOf, IsZero, Disjoint, Holding;
    if Disjoint(buffers) {
      forall plan: Plan, events: seq<NetEvent> |
        |plan| == |buffers| && UsesBuffers(FAN_IN, plan, buffers)
        && IsNetHistory(FAN_IN, plan, buffers, NewNetSystem(plan, flags), events)
        ensures AllHeldIntact(NetOutcome(FAN_IN, plan, buffers, NewNetSystem(plan, flags), events))
      {
        FanInBuffersIntact(plan, flags, buffers, events);
      }
    } else {
      var i, j, a := SharedByTwo(buffers);
      var plan, events := SharedBufferOverwritten(flags, buffers, i, j, a);
    }
  }

  // ----- a buffer can be used again

  lemma AtFirstLink(plan: Plan, flags: bv32, net: Net, round: nat, count: nat)
    requires NetInv(plan, flags, net) && InRound(net, round) && AllDone(plan, net)
    requires forall j | 0 <= j < |plan| :: |plan[j]| == count
    ensures InOwnCode(FAN_OUT, net, 0)
  {
    hide LinkInv;
    assert LinkDone(net.links[0], plan[0]) && LinkDone(net.links[net.sending], plan[net.sending]);
  }

  lemma NewNetSends(plan: Plan, flags: bv32)
    requires plan != []
    ensures InRound(NewNet(plan, flags), 0)
  {
  }

  lemma OneEvent(shape: Shape, plan: Plan, buffers: seq<set<nat>>, s: NetSystem, e: NetEvent)
    requires CanOccur(shape, plan, buffers, s, e)
    ensures IsNetHistory(shape, plan, buffers, s, [e])
    ensures NetOutcome(shape, plan, buffers, s, [e]) == Occur(shape, plan, buffers, s, e)
  {
    hide CanOccur, Occur;
    assert [e][1..] == [];
  }

  /** A single sender that has sent the same number of messages to all receivers gets to a state in which
      all of them are acknowledged and it can fill any buffer. */
  lemma FanOutCanRefill(plan: Plan, flags: bv32, buffers: seq<set<nat>>, count: nat, address: nat, content: seq<byte>)
    returns (events: seq<NetEvent>)
    requires plan != [] && AllUsable(plan, flags) && NotificationOf(flags).AutoNotify?
    requires forall j | 0 <= j < |plan| :: |plan[j]| == count
    ensures IsNetHistory(FAN_OUT, plan, buffers, NewNetSystem(plan, flags), events)
    ensures var s := NetOutcome(FAN_OUT, plan, buffers, NewNetSystem(plan, flags), events);
            AllDone(plan, s.net) && Content(s.memory, address) == content
  {
    hide LinkInv, CanMove, DoMove, NotificationOf, IsNetRun, NetAfter, AllUsable, Stuck, InRound, IsNetHistory, NetOutcome,
         AllDone;
    var s0, net0 := NewNetSystem(plan, flags), NewNet(plan, flags);
    NewNetInv(plan, flags);
    var moves := RunsCanFinish(FAN_OUT, plan, flags, net0);
    RunIsHistory(FAN_OUT, plan, buffers, s0, moves);
    FanOutCompletes(plan, flags, count, moves);
    RunKeepsNetInv(FAN_OUT, plan, flags, net0, moves);
    assert InRound(net0, 0) by { NewNetSends(plan, flags); }
    var round := RunKeepsRound(plan, flags, net0, moves, 0);
    var s := NetOutcome(FAN_OUT, plan, buffers, s0, AsEvents(moves));
    AtFirstLink(plan, flags, s.net, round, count);
    var fill := Filled(0, address, content);
    OneEvent(FAN_OUT, plan, buffers, s, fill);
    HistoriesJoin(FAN_OUT, plan, buffers, s0, AsEvents(moves), [fill]);
    events := AsEvents(moves) + [fill];
  }
}
