/** Zero copy over several links with manual notification. In one round of the loops all receivers may
    hold the buffer of a single sender at once, and a single receiver holds the buffers of all senders. */
module NotifyBuffers {
  import opened Wire
  import opened FlagBits
  import opened MessageStream
  import opened LinkProtocol
  import opened ZeroCopy
  import opened Network
  import opened SharedBuffers
  import opened NotifyNetwork

  /** snapshots[j][k] is what the buffer of message k on link j held when its send began. */
  datatype RoundSystem = RoundSystem(net: Rounds, memory: map<nat, seq<byte>>, snapshots: seq<seq<seq<byte>>>)

  function NewRoundSystem(plan: Plan, flags: bv32): RoundSystem {
    RoundSystem(NewRounds(plan, flags), map[], seq(|plan|, _ => []))
  }

  /** The program that sends over the link has collected every acknowledgement of its last round. */
  predicate BetweenRounds(shape: Shape, net: Rounds, j: nat)
    requires j < |net.links|
  {
    if shape.oneSender then net.sending == 0 && net.links[0].sender.pc.Ready?
    else net.links[j].sender.pc.Ready? && net.links[j].sender.acksReceived == |net.links[j].sender.sent|
  }

  predicate CanArise(shape: Shape, plan: Plan, buffers: seq<set<nat>>, s: RoundSystem, e: NetEvent) {
    && |s.snapshots| == |s.net.links| == |plan|
    && match e
       case Moved(m) => CanStep(shape, plan, s.net, m)
       case Filled(j, a, _) => j < |plan| && BetweenRounds(shape, s.net, j) && MayTouch(shape, buffers, j, a)
  }

  function Arise(shape: Shape, plan: Plan, buffers: seq<set<nat>>, s: RoundSystem, e: NetEvent): RoundSystem
    requires CanArise(shape, plan, buffers, s, e)
  {
    match e
    case Moved(m) =>
      RoundSystem(DoStep(shape, plan, s.net, m), s.memory,
                  s.snapshots[m.link := SnapshotsAfter(s.memory, s.snapshots[m.link], m.action)])
    case Filled(_, address, content) => s.(memory := s.memory[address := content])
  }

  predicate IsRoundHistory(shape: Shape, plan: Plan, buffers: seq<set<nat>>, s: RoundSystem, events: seq<NetEvent>)
    decreases |events|
  {
    events == [] || (CanArise(shape, plan, buffers, s, events[0])
                     && IsRoundHistory(shape, plan, buffers, Arise(shape, plan, buffers, s, events[0]), events[1..]))
  }

  function RoundOutcome(shape: Shape, plan: Plan, buffers: seq<set<nat>>, s: RoundSystem, events: seq<NetEvent>): RoundSystem
    requires IsRoundHistory(shape, plan, buffers, s, events)
    decreases |events|
  {
    if events == [] then s
    else RoundOutcome(shape, plan, buffers, Arise(shape, plan, buffers, s, events[0]), events[1..])
  }

  function LinkView(s: RoundSystem, j: nat): System
    requires j < |s.net.links| == |s.snapshots|
  {
    System(s.net.links[j], s.memory, s.snapshots[j])
  }

  predicate EachKept(s: RoundSystem) {
    && |s.snapshots| == |s.net.links|
    && forall j | 0 <= j < |s.net.links| :: BufferKept(LinkView(s, j))
  }

  predicate RoundInv(shape: Shape, plan: Plan, flags: bv32, s: RoundSystem, sent: nat, received: nat) {
    && NetOk(plan, flags, s.net) && EachKept(s)
    && SendersOk(shape, s.net, sent) && ReceiversOk(shape, s.net, received)
  }

  lemma ViewSteps(p: Pair, memory: map<nat, seq<byte>>, snapshots: seq<seq<byte>>, a: Action)
    requires Enabled(p, a) && Disciplined(p, a)
    ensures var v := System(p, memory, snapshots);
            CanHappen(v, Step(a)) && Happen(v, Step(a)) == System(Next(p, a), memory, SnapshotsAfter(memory, snapshots, a))
  {
    hide Enabled, Next, Disciplined;
  }

  lemma StepKeepsOne(p: Pair, memory: map<nat, seq<byte>>, snapshots: seq<seq<byte>>, a: Action, todo: seq<Message>, flags: bv32)
    requires LinkOk(p, todo, flags) && Enabled(p, a) && InOrder(p, a) && IsZero(flags) && NotificationOf(flags).Notify?
    requires BufferKept(System(p, memory, snapshots))
    ensures BufferKept(System(Next(p, a), memory, SnapshotsAfter(memory, snapshots, a)))
  {
    hide Inv, Lockstep, BufferKept, Enabled, Next, NotificationOf, IsZero, Happen, CanHappen, SnapshotsAfter, Disciplined;
    ViewSteps(p, memory, snapshots, a);
    StepKeepsBuffer(System(p, memory, snapshots), Step(a));
  }

  lemma StepKeepsEach(shape: Shape, plan: Plan, flags: bv32, buffers: seq<set<nat>>, s: RoundSystem, m: Move)
    requires NetOk(plan, flags, s.net) && EachKept(s) && IsZero(flags) && NotificationOf(flags).Notify?
    requires CanArise(shape, plan, buffers, s, Moved(m))
    ensures EachKept(Arise(shape, plan, buffers, s, Moved(m)))
  {
    hide LinkOk, BufferKept, Enabled, Next, NotificationOf, IsZero, SnapshotsAfter, FollowsPlan, InOrder, HasTurn, CallReturns;
    assert BufferKept(LinkView(s, m.link));
    StepKeepsOne(s.net.links[m.link], s.memory, s.snapshots[m.link], m.action, plan[m.link], flags);
    var s' := Arise(shape, plan, buffers, s, Moved(m));
    forall j | 0 <= j < |s'.net.links| ensures BufferKept(LinkView(s', j)) {
      assert j != m.link ==> LinkView(s', j) == LinkView(s, j);
    }
  }

  /** Between rounds a single sender has all its acknowledgements. */
  lemma AllCollected(shape: Shape, plan: Plan, net: Rounds, round: nat, i: nat, j: nat)
    requires SendersOk(shape, net, round) && i < |net.links| && j < |net.links| && BetweenRounds(shape, net, i)
    requires shape.oneSender || i == j
    ensures net.links[j].sender.acksReceived == |net.links[j].sender.sent|
  {
    if shape.oneSender {
      assert SenderStands(net, 0, round) && SenderStands(net, j, round);
    }
  }

  lemma FillKeepsLink(p: Pair, memory: map<nat, seq<byte>>, snapshots: seq<seq<byte>>, address: nat, content: seq<byte>)
    requires BufferKept(System(p, memory, snapshots))
    requires p.sender.acksReceived == |p.sender.sent|
             || (p.sender.sent != [] ==> Last(p.sender.sent).BufferAt() != address)
    ensures BufferKept(System(p, memory[address := content], snapshots))
  {
  }

  lemma LastIsTouchable(shape: Shape, plan: Plan, buffers: seq<set<nat>>, flags: bv32, net: Rounds, j: nat)
    requires NetOk(plan, flags, net) && OwnBuffers(shape, plan, buffers) && j < |plan|
    requires net.links[j].sender.sent != []
    ensures MayTouch(shape, buffers, j, Last(net.links[j].sender.sent).BufferAt())
  {
    hide Inv, Lockstep, MayTouch, Message.BufferAt;
    var sent := net.links[j].sender.sent;
    assert LinkOk(net.links[j], plan[j], flags);
    assert sent[|sent| - 1] == plan[j][|sent| - 1];
  }

  lemma FillKeepsEach(shape: Shape, plan: Plan, flags: bv32, buffers: seq<set<nat>>, s: RoundSystem, e: NetEvent, sent: nat)
    requires NetOk(plan, flags, s.net) && EachKept(s) && SendersOk(shape, s.net, sent) && OwnBuffers(shape, plan, buffers)
    requires e.Filled? && CanArise(shape, plan, buffers, s, e)
    ensures EachKept(Arise(shape, plan, buffers, s, e))
  {
    hide LinkOk, BufferKept, OwnBuffers, BetweenRounds, SendersOk;
    var s' := Arise(shape, plan, buffers, s, e);
    forall j | 0 <= j < |s'.net.links| ensures BufferKept(LinkView(s', j)) {
      assert BufferKept(LinkView(s, j));
      if shape.oneSender || j == e.link {
        AllCollected(shape, plan, s.net, sent, e.link, j);
      } else if s.net.links[j].sender.sent != [] {
        LastIsTouchable(shape, plan, buffers, flags, s.net, j);
        TouchedApart(shape, plan, buffers, j, e.link, Last(s.net.links[j].sender.sent).BufferAt(), e.address);
      }
      FillKeepsLink(s.net.links[j], s.memory, s.snapshots[j], e.address, e.content);
    }
  }

  lemma EventKeepsRoundInv(shape: Shape, plan: Plan, flags: bv32, buffers: seq<set<nat>>, s: RoundSystem, e: NetEvent,
                           sent: nat, received: nat)
    returns (sent': nat, received': nat)
    requires RoundInv(shape, plan, flags, s, sent, received) && OwnBuffers(shape, plan, buffers)
    requires IsZero(flags) && NotificationOf(flags).Notify? && CanArise(shape, plan, buffers, s, e)
    ensures RoundInv(shape, plan, flags, Arise(shape, plan, buffers, s, e), sent', received')
  {
    hide NetOk, CanStep, DoStep, EachKept, NotificationOf, IsZero, SendersOk, ReceiversOk, OwnBuffers, MayTouch;
    sent', received' := sent, received;
    if e.Moved? {
      StepKeepsEach(shape, plan, flags, buffers, s, e.move);
      StepKeepsNetOk(shape, plan, flags, s.net, e.move);
      sent' := StepKeepsSenders(shape, plan, flags, s.net, e.move, sent);
      received' := StepKeepsReceivers(shape, plan, flags, s.net, e.move, received);
    } else {
      FillKeepsEach(shape, plan, flags, buffers, s, e, sent);
    }
  }

  lemma {:induction false} HistoryKeepsRoundInv(shape: Shape, plan: Plan, flags: bv32, buffers: seq<set<nat>>,
                                                s: RoundSystem, events: seq<NetEvent>, sent: nat, received: nat)
    returns (sent': nat, received': nat)
    requires RoundInv(shape, plan, flags, s, sent, received) && OwnBuffers(shape, plan, buffers)
    requires IsZero(flags) && NotificationOf(flags).Notify? && IsRoundHistory(shape, plan, buffers, s, events)
    ensures RoundInv(shape, plan, flags, RoundOutcome(shape, plan, buffers, s, events), sent', received')
    decreases |events|
  {
    hide RoundInv, CanArise, Arise, NotificationOf, IsZero, OwnBuffers;
    if events == [] {
      sent', received' := sent, received;
    } else {
      sent', received' := EventKeepsRoundInv(shape, plan, flags, buffers, s, events[0], sent, received);
      sent', received' :=
        HistoryKeepsRoundInv(shape, plan, flags, buffers, Arise(shape, plan, buffers, s, events[0]), events[1..],
                             sent', received');
    }
  }

  lemma NewRoundInv(shape: Shape, plan: Plan, flags: bv32)
    requires plan != []
    ensures RoundInv(shape, plan, flags, NewRoundSystem(plan, flags), 0, 0)
  {
    hide LinkOk, SendersOk, ReceiversOk;
    NewRoundsOk(plan, flags);
    NewRoundsStand(shape, plan, flags);
  }

  lemma NotNotifyIs(flags: bv32)
    requires NotificationOf(flags).Notify?
    ensures !NotificationOf(flags).Plain?
  {
  }

  lemma HeldIsKept(shape: Shape, plan: Plan, flags: bv32, s: RoundSystem, sent: nat, i: nat, j: nat)
    requires NetOk(plan, flags, s.net) && EachKept(s) && SendersOk(shape, s.net, sent) && NotificationOf(flags).Notify?
    requires i < |plan| && j < |plan| && (shape.oneSender || i == j)
    ensures HeldIntact(LinkView(s, j))
    ensures Holding(s.net.links[j]) ==> !BetweenRounds(shape, s.net, i)
  {
    hide Inv, BufferKept, HeldIntact, BetweenRounds, SendersOk, SenderCounts, ReceiverCounts;
    assert LinkOk(s.net.links[j], plan[j], flags);
    assert BufferKept(LinkView(s, j));
    NotNotifyIs(flags);
    SystemInvHeldIntact(LinkView(s, j), flags);
    LockstepChain(s.net.links[j]);
    if BetweenRounds(shape, s.net, i) {
      AllCollected(shape, plan, s.net, sent, i, j);
    }
  }

  /** The receiver has come from icom_recv3 and not yet called icom_notify_send. */
  predicate HasReceived(net: Rounds) {
    net.receiving == net.Count()
  }

  lemma ReceivedIsHeld(shape: Shape, net: Rounds, round: nat, j: nat)
    requires shape.oneReceiver && ReceiversOk(shape, net, round) && HasReceived(net) && j < |net.links|
    ensures Holding(net.links[j])
  {
    assert ReceiverStands(net, j, round);
  }

  /** Whether the sending ends belong to one program or to several with buffers of their own, and the
      receiving ends likewise: in every interleaving each buffer held is as it was sent, and the program
      that sent it cannot fill a buffer before every holder has acknowledged. A single receiver holds the
      buffers of all links from icom_recv3 to icom_notify_send. */
  lemma NotifyBuffersIntact(shape: Shape, plan: Plan, flags: bv32, buffers: seq<set<nat>>, events: seq<NetEvent>)
    requires plan != [] && IsZero(flags) && NotificationOf(flags).Notify? && OwnBuffers(shape, plan, buffers)
    requires IsRoundHistory(shape, plan, buffers, NewRoundSystem(plan, flags), events)
    ensures var s := RoundOutcome(shape, plan, buffers, NewRoundSystem(plan, flags), events);
            && |s.net.links| == |s.snapshots| == |plan|
            && (forall j | 0 <= j < |plan| :: HeldIntact(LinkView(s, j)))
            && (forall i, j | 0 <= i < |plan| && 0 <= j < |plan| && (shape.oneSender || i == j) ::
                  Holding(s.net.links[j]) ==> !BetweenRounds(shape, s.net, i))
            && (shape.oneReceiver && HasReceived(s.net) ==> forall j | 0 <= j < |plan| :: Holding(s.net.links[j]))
  {
    hide LinkOk, BufferKept, CanArise, Arise, NotificationOf, IsZero, HeldIntact, Holding, IsRoundHistory, RoundOutcome,
         OwnBuffers, BetweenRounds, SendersOk, ReceiversOk;
    var s0 := NewRoundSystem(plan, flags);
    NewRoundInv(shape, plan, flags);
    var sent, received := HistoryKeepsRoundInv(shape, plan, flags, buffers, s0, events, 0, 0);
    var s := RoundOutcome(shape, plan, buffers, s0, events);
    forall j | 0 <= j < |plan| ensures HeldIntact(LinkView(s, j)) {
      HeldIsKept(shape, plan, flags, s, sent, j, j);
    }
    forall i, j | 0 <= i < |plan| && 0 <= j < |plan| && (shape.oneSender || i == j)
      ensures Holding(s.net.links[j]) ==> !BetweenRounds(shape, s.net, i)
    {
      HeldIsKept(shape, plan, flags, s, sent, i, j);
    }
    if shape.oneReceiver && HasReceived(s.net) {
      forall j | 0 <= j < |plan| ensures Holding(s.net.links[j]) {
        ReceivedIsHeld(shape, s.net, received, j);
      }
    }
  }

  // ----- what is in memory

  /** Nothing but the sending programs' fills changes the memory, and each of them does. */
  lemma {:induction false} RoundMemoryIsLastFill(shape: Shape, plan: Plan, buffers: seq<set<nat>>, s: RoundSystem,
                                                 events: seq<NetEvent>, address: nat)
    requires IsRoundHistory(shape, plan, buffers, s, events)
    ensures Content(RoundOutcome(shape, plan, buffers, s, events).memory, address)
            == LastFill(events, address, Content(s.memory, address))
    decreases |events|
  {
    hide CanArise, DoStep, SnapshotsAfter;
    if events == [] {
    } else {
      RoundMemoryIsLastFill(shape, plan, buffers, Arise(shape, plan, buffers, s, events[0]), events[1..], address);
    }
  }

  lemma SameLinks(shape: Shape, plan: Plan, net: Rounds, m: Move)
    requires CanStep(shape, plan, net, m)
    ensures m.link < |net.links| == |DoStep(shape, plan, net, m).links|
  {
    hide Enabled, Next, FollowsPlan, CallReturns, InOrder, HasTurn;
  }

  /** A course is a history in which no buffer is filled. */
  lemma {:induction false} CourseIsHistory(shape: Shape, plan: Plan, buffers: seq<set<nat>>, s: RoundSystem, moves: seq<Move>)
    requires IsCourse(shape, plan, s.net, moves) && |s.snapshots| == |s.net.links| == |plan|
    ensures IsRoundHistory(shape, plan, buffers, s, AsEvents(moves))
    ensures var after := RoundOutcome(shape, plan, buffers, s, AsEvents(moves));
            && after.net == AfterCourse(shape, plan, s.net, moves) && after.memory == s.memory
            && |after.snapshots| == |s.snapshots| == |after.net.links|
            && forall j | 0 <= j < |s.snapshots| :: s.snapshots[j] <= after.snapshots[j]
    decreases |moves|
  {
    hide CanStep, DoStep, SnapshotsAfter;
    if moves == [] {
    } else {
      assert AsEvents(moves)[1..] == AsEvents(moves[1..]);
      SameLinks(shape, plan, s.net, moves[0]);
      SnapshotsGrow(s.memory, s.snapshots[moves[0].link], moves[0].action);
      CourseIsHistory(shape, plan, buffers, Arise(shape, plan, buffers, s, Moved(moves[0])), moves[1..]);
    }
  }

  lemma {:induction false} RoundHistoriesJoin(shape: Shape, plan: Plan, buffers: seq<set<nat>>, s: RoundSystem,
                                              a: seq<NetEvent>, b: seq<NetEvent>)
    requires IsRoundHistory(shape, plan, buffers, s, a)
    requires IsRoundHistory(shape, plan, buffers, RoundOutcome(shape, plan, buffers, s, a), b)
    ensures IsRoundHistory(shape, plan, buffers, s, a + b)
    ensures RoundOutcome(shape, plan, buffers, s, a + b)
            == RoundOutcome(shape, plan, buffers, RoundOutcome(shape, plan, buffers, s, a), b)
    decreases |a|
  {
    hide CanArise, Arise;
    if a == [] {
      assert a + b == b;
    } else {
      RoundHistoriesJoin(shape, plan, buffers, Arise(shape, plan, buffers, s, a[0]), a[1..], b);
      assert (a + b)[1..] == a[1..] + b;
    }
  }

  lemma TwoRoundEvents(shape: Shape, plan: Plan, buffers: seq<set<nat>>, s: RoundSystem, e: NetEvent, f: NetEvent)
    requires CanArise(shape, plan, buffers, s, e) && CanArise(shape, plan, buffers, Arise(shape, plan, buffers, s, e), f)
    ensures IsRoundHistory(shape, plan, buffers, s, [e, f])
    ensures RoundOutcome(shape, plan, buffers, s, [e, f])
            == Arise(shape, plan, buffers, Arise(shape, plan, buffers, s, e), f)
  {
    hide CanArise, Arise;
    var s1 := Arise(shape, plan, buffers, s, e);
    assert [e, f][1..] == [f] && [f][1..] == [];
    assert IsRoundHistory(shape, plan, buffers, s1, [f]);
    assert RoundOutcome(shape, plan, buffers, s1, [f]) == Arise(shape, plan, buffers, s1, f);
  }

  // ----- sharing a buffer does harm

  predicate EachHeldIntact(s: RoundSystem) {
    && |s.net.links| == |s.snapshots|
    && forall j | 0 <= j < |s.net.links| :: HeldIntact(LinkView(s, j))
  }

  lemma AckerHolds(shape: Shape, plan: Plan, flags: bv32, net: Rounds, m: Move, i: nat)
    requires NetOk(plan, flags, net) && NotificationOf(flags).Notify? && CanStep(shape, plan, net, m) && i < |plan|
    requires net.links[i].receiver.acksSent == 0 && |DoStep(shape, plan, net, m).links| == |plan|
    requires DoStep(shape, plan, net, m).links[i].receiver.acksSent > 0
    ensures Holding(net.links[i])
  {
    hide Inv, SenderEnabled, SenderNext, ReceiverNext, SenderCounts, NotificationOf, HasTurn, FollowsPlan;
    var p := net.links[i];
    assert LinkOk(p, plan[i], flags);
    if m.link == i {
      NoErrorAfter(p, m.action);
      if m.action.OfSender() {
        SenderStep(p, m.action);
      } else {
        ReceiverStep(p, m.action);
      }
    }
  }

  /** Before its first acknowledgement a receiver holds the message. */
  lemma {:induction false} FirstAck(shape: Shape, plan: Plan, flags: bv32, net: Rounds, moves: seq<Move>, i: nat)
    returns (k: nat)
    requires NetOk(plan, flags, net) && NotificationOf(flags).Notify? && IsCourse(shape, plan, net, moves) && i < |plan|
    requires net.links[i].receiver.acksSent == 0
    requires |AfterCourse(shape, plan, net, moves).links| == |plan|
    requires AfterCourse(shape, plan, net, moves).links[i].receiver.acksSent > 0
    ensures k <= |moves| && IsCourse(shape, plan, net, moves[..k])
    ensures var after := AfterCourse(shape, plan, net, moves[..k]);
            |after.links| == |plan| && Holding(after.links[i]) && LinkOk(after.links[i], plan[i], flags)
    decreases |moves|
  {
    hide LinkOk, CanStep, DoStep, NotificationOf, Holding;
    k := 0;
    if moves == [] {
    } else {
      var next := DoStep(shape, plan, net, moves[0]);
      StepKeepsNetOk(shape, plan, flags, net, moves[0]);
      if next.links[i].receiver.acksSent == 0 {
        k := FirstAck(shape, plan, flags, next, moves[1..], i);
        k := k + 1;
        assert moves[..k][0] == moves[0] && moves[..k][1..] == moves[1..][..k - 1];
      } else {
        AckerHolds(shape, plan, flags, net, moves[0], i);
        assert moves[..0] == [];
      }
    }
  }

  /** The first send has begun, and another sender, not yet sending, has filled the same buffer. */
  lemma SharedRoundFill(shape: Shape, plan: Plan, flags: bv32, buffers: seq<set<nat>>, i: nat, j: nat, a: nat)
    requires !shape.oneSender && i < |plan| && j < |plan| && i != j && |buffers| == |plan| && a in buffers[j]
    requires plan[i] == [Zero(a, POINTER_SIZE)] && Usable(plan[i][0], flags) && NotificationOf(flags).Notify?
    ensures var events := [Moved(Move(i, BeginSend(plan[i][0]))), Filled(j, a, [1])];
            && IsRoundHistory(shape, plan, buffers, NewRoundSystem(plan, flags), events)
            && var s := RoundOutcome(shape, plan, buffers, NewRoundSystem(plan, flags), events);
               && s.memory == map[a := [1]] && |s.snapshots| == |s.net.links| == |plan| && s.snapshots[i] == [[]]
               && CanStep(shape, plan, NewRounds(plan, flags), Move(i, BeginSend(plan[i][0])))
               && s.net == DoStep(shape, plan, NewRounds(plan, flags), Move(i, BeginSend(plan[i][0])))
               && s.net.links[i].receiver.acksSent == 0
  {
    hide Message.Sendable, Message.Fits, IsRoundHistory, RoundOutcome, NotificationOf;
    var s0, e, f := NewRoundSystem(plan, flags), Moved(Move(i, BeginSend(plan[i][0]))), Filled(j, a, [1]);
    assert CanArise(shape, plan, buffers, s0, e);
    var s1 := Arise(shape, plan, buffers, s0, e);
    assert CanArise(shape, plan, buffers, s1, f);
    TwoRoundEvents(shape, plan, buffers, s0, e, f);
    assert map[][a := [1]] == map[a := [1]];
  }

  lemma MoveInRange(shape: Shape, plan: Plan, net: Rounds, m: Move)
    requires CanStep(shape, plan, net, m)
    ensures m.link < |net.links| == |plan|
  {
  }

  lemma DoneIsAcked(plan: Plan, flags: bv32, net: Rounds, i: nat)
    requires NetOk(plan, flags, net) && EachDone(plan, net) && i < |plan| && |plan[i]| == 1
    ensures net.links[i].receiver.acksSent > 0
  {
    hide LinkOk;
    CountsAreDone(net.links[i], plan[i], flags);
    assert LinkDone(net.links[i], plan[i]);
  }

  /** From there on to a state in which the receiver holds that message. */
  lemma RunToHolding(shape: Shape, plan: Plan, flags: bv32, m: Move) returns (moves: seq<Move>)
    requires plan != [] && AllUsable(plan, flags) && NotificationOf(flags).Notify?
    requires forall j | 0 <= j < |plan| :: |plan[j]| == 1
    requires CanStep(shape, plan, NewRounds(plan, flags), m)
    requires DoStep(shape, plan, NewRounds(plan, flags), m).links[m.link].receiver.acksSent == 0
    ensures IsCourse(shape, plan, DoStep(shape, plan, NewRounds(plan, flags), m), moves)
    ensures var after := AfterCourse(shape, plan, DoStep(shape, plan, NewRounds(plan, flags), m), moves);
            |after.links| == |plan| && Holding(after.links[m.link]) && LinkOk(after.links[m.link], plan[m.link], flags)
  {
    hide LinkOk, DoStep, NotificationOf, IsCourse, AfterCourse, AllUsable, Halted, SendersOk, ReceiversOk, Holding, CanStep,
         EachDone;
    var net0 := NewRounds(plan, flags);
    var net := DoStep(shape, plan, net0, m);
    NewRoundsOk(plan, flags);
    NewRoundsStand(shape, plan, flags);
    StepKeepsNetOk(shape, plan, flags, net0, m);
    var s := StepKeepsSenders(shape, plan, flags, net0, m, 0);
    var r := StepKeepsReceivers(shape, plan, flags, net0, m, 0);
    var all := CoursesCanFinish(shape, plan, flags, net);
    s, r := CourseKeepsAll(shape, plan, flags, net, all, s, r);
    var end := AfterCourse(shape, plan, net, all);
    HaltedIsAtRest(shape, plan, flags, end, s, r);
    RestIsDone(shape, plan, flags, end, s, r);
    MoveInRange(shape, plan, net0, m);
    DoneIsAcked(plan, flags, end, m.link);
    var k := FirstAck(shape, plan, flags, net, all, m.link);
    moves := all[..k];
  }

  lemma HeldIsThatMessage(p: Pair, m: Message, flags: bv32)
    requires LinkOk(p, [m], flags) && Holding(p)
    ensures p.receiver.delivered == [m]
  {
    hide Lockstep, SenderInv, FlowInv, AckInv;
    assert p.receiver.delivered <= p.sender.sent <= [m];
  }

  lemma SharedRoundOverwritten(shape: Shape, flags: bv32, buffers: seq<set<nat>>, i: nat, j: nat, a: nat)
    returns (plan: Plan, events: seq<NetEvent>)
    requires IsZero(flags) && NotificationOf(flags).Notify? && !shape.oneSender
    requires i < j < |buffers| && a in buffers[i] && a in buffers[j]
    requires forall m | 0 <= m < |buffers| :: buffers[m] != {} && forall x | x in buffers[m] :: x < POINTER_LIMIT
    ensures |plan| == |buffers| && UsesBuffers(shape, plan, buffers)
    ensures IsRoundHistory(shape, plan, buffers, NewRoundSystem(plan, flags), events)
    ensures !EachHeldIntact(RoundOutcome(shape, plan, buffers, NewRoundSystem(plan, flags), events))
  {
    hide CanStep, DoStep, IsRoundHistory, RoundOutcome, IsCourse, AfterCourse, NotificationOf, IsZero, LinkOk, AllUsable,
         UsesBuffers, HeldIntact, Holding, Usable, OneEach;
    var addresses := Pick(buffers, i, a);
    plan := OneEach(addresses);
    OneEachUsable(addresses, flags);
    OneEachUses(shape, addresses, buffers);
    assert Usable(plan[i][0], flags) by { UsableOf(plan, flags, i); }
    var m := Move(i, BeginSend(plan[i][0]));
    var first := [Moved(m), Filled(j, a, [1])];
    SharedRoundFill(shape, plan, flags, buffers, i, j, a);
    var s := RoundOutcome(shape, plan, buffers, NewRoundSystem(plan, flags), first);
    var moves := RunToHolding(shape, plan, flags, m);
    CourseIsHistory(shape, plan, buffers, s, moves);
    RoundHistoriesJoin(shape, plan, buffers, NewRoundSystem(plan, flags), first, AsEvents(moves));
    events := first + AsEvents(moves);
    var end := RoundOutcome(shape, plan, buffers, NewRoundSystem(plan, flags), events);
    HeldIsThatMessage(end.net.links[i], plan[i][0], flags);
    OverwrittenHeld(end.net.links[i], end.memory, end.snapshots[i], a);
    assert LinkView(end, i) == System(end.net.links[i], end.memory, end.snapshots[i]);
  }

  /** So the guarantee holds, whatever is sent from the senders' buffers and in all interleavings, if and
      only if the sending ends belong to one program or no two senders share a buffer. */
  lemma NotifyIntactExactly(shape: Shape, flags: bv32, buffers: seq<set<nat>>)
    requires IsZero(flags) && NotificationOf(flags).Notify? && buffers != []
    requires forall m | 0 <= m < |buffers| :: buffers[m] != {} && forall x | x in buffers[m] :: x < POINTER_LIMIT
    ensures (forall plan: Plan, events: seq<NetEvent> |
               |plan| == |buffers| && UsesBuffers(shape, plan, buffers)
               && IsRoundHistory(shape, plan, buffers, NewRoundSystem(plan, flags), events) ::
               EachHeldIntact(RoundOutcome(shape, plan, buffers, NewRoundSystem(plan, flags), events)))
            <==> shape.oneSender || Disjoint(buffers)
  {
    hide IsRoundHistory, RoundOutcome, HeldIntact, UsesBuffers, NotificationOf, IsZero, Disjoint, Holding, BetweenRounds;
    if shape.oneSender || Disjoint(buffers) {
      forall plan: Plan, events: seq<NetEvent> |
        |plan| == |buffers| && UsesBuffers(shape, plan, buffers)
        && IsRoundHistory(shape, plan, buffers, NewRoundSystem(plan, flags), events)
        ensures EachHeldIntact(RoundOutcome(shape, plan, buffers, NewRoundSystem(plan, flags), events))
      {
        NotifyBuffersIntact(shape, plan, flags, buffers, events);
      }
    } else {
      var i, j, a := SharedByTwo(buffers);
      var plan, events := SharedRoundOverwritten(shape, flags, buffers, i, j, a);
    }
  }

  // ----- a buffer can be used again

  lemma OneRoundEvent(shape: Shape, plan: Plan, buffers: seq<set<nat>>, s: RoundSystem, e: NetEvent)
    requires CanArise(shape, plan, buffers, s, e)
    ensures IsRoundHistory(shape, plan, buffers, s, [e])
    ensures RoundOutcome(shape, plan, buffers, s, [e]) == Arise(shape, plan, buffers, s, e)
  {
    hide CanArise, Arise;
    assert [e][1..] == [];
  }

  lemma RestsBetweenRounds(shape: Shape, plan: Plan, flags: bv32, net: Rounds, round: nat)
    requires NetOk(plan, flags, net) && SendersOk(shape, net, round) && EachDone(plan, net)
    ensures BetweenRounds(shape, net, 0)
  {
    hide LinkOk;
    assert LinkDone(net.links[0], plan[0]);
    if shape.oneSender {
      var c := net.SenderLink();
      assert LinkDone(net.links[c], plan[c]);
      assert SenderStands(net, 0, round) && SenderStands(net, c, round);
    } else {
      CountsAreDone(net.links[0], plan[0], flags);
    }
  }

  /** A sender that has sent equally many messages over all its links gets to a state in which all of them
      are acknowledged and it can fill its buffers. */
  lemma NotifyCanRefill(shape: Shape, plan: Plan, flags: bv32, buffers: seq<set<nat>>, address: nat, content: seq<byte>)
    returns (events: seq<NetEvent>)
    requires plan != [] && AllUsable(plan, flags) && NotificationOf(flags).Notify? && EqualPlans(plan)
    requires MayTouch(shape, buffers, 0, address)
    ensures IsRoundHistory(shape, plan, buffers, NewRoundSystem(plan, flags), events)
    ensures var s := RoundOutcome(shape, plan, buffers, NewRoundSystem(plan, flags), events);
            EachDone(plan, s.net) && Content(s.memory, address) == content
  {
    hide LinkOk, CanStep, DoStep, NotificationOf, IsCourse, AfterCourse, AllUsable, Halted, SendersOk, ReceiversOk, EqualPlans,
         EachDone, IsRoundHistory, RoundOutcome, BetweenRounds, MayTouch;
    var s0, net0 := NewRoundSystem(plan, flags), NewRounds(plan, flags);
    NewRoundsOk(plan, flags);
    NewRoundsStand(shape, plan, flags);
    var moves := CoursesCanFinish(shape, plan, flags, net0);
    var sent, received := CourseKeepsAll(shape, plan, flags, net0, moves, 0, 0);
    CourseIsHistory(shape, plan, buffers, s0, moves);
    var s := RoundOutcome(shape, plan, buffers, s0, AsEvents(moves));
    HaltedIsAtRest(shape, plan, flags, s.net, sent, received);
    RestIsDone(shape, plan, flags, s.net, sent, received);
    RestsBetweenRounds(shape, plan, flags, s.net, sent);
    var fill := Filled(0, address, content);
    OneRoundEvent(shape, plan, buffers, s, fill);
    RoundHistoriesJoin(shape, plan, buffers, s0, AsEvents(moves), [fill]);
    events := AsEvents(moves) + [fill];
  }
}
