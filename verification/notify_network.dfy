/** Several links with manual notification. A program with several links sends over them in ascending
    order (icom_send) and then awaits the acknowledgements in descending order (icom_notify_recv); it
    receives in descending order (icom_recv3) and then acknowledges in descending order
    (icom_notify_send). All programs interleave freely. */
module NotifyNetwork {
  import opened Wire
  import opened FlagBits
  import opened MessageStream
  import opened LinkProtocol
  import opened ZeroCopy
  import opened Network

  /** sending and receiving are the places of such programs in their loops, of twice as many steps as
      there are links: first the sends or receives, then the waits or acknowledgements. */
  datatype Rounds = Rounds(links: seq<Pair>, sending: nat, receiving: nat)
  {
    function Count(): nat {
      |links|
    }

    function SenderLink(): int {
      if sending < Count() then sending else 2 * Count() - 1 - sending
    }

    function ReceiverLink(): int {
      if receiving < Count() then Count() - 1 - receiving else 2 * Count() - 1 - receiving
    }
  }

  function NewRounds(plan: Plan, flags: bv32): Rounds {
    Rounds(seq(|plan|, _ => NewPair(flags)), 0, 0)
  }

  /** One link as documented: a message is awaited before the next, and acknowledged once. */
  predicate InOrder(p: Pair, a: Action) {
    Disciplined(p, a) && (a.BeginAwait? ==> p.sender.acksReceived < |p.sender.sent|)
  }

  predicate HasTurn(shape: Shape, net: Rounds, m: Move) {
    if m.action.OfSender() then
      shape.oneSender ==>
        && m.link == net.SenderLink()
        && (m.action.BeginSend? ==> net.sending < net.Count())
        && (m.action.BeginAwait? ==> net.sending >= net.Count())
    else
      shape.oneReceiver ==>
        && m.link == net.ReceiverLink()
        && (m.action.BeginReceive? ==> net.receiving < net.Count())
        && (m.action.NotifySend? ==> net.receiving >= net.Count())
  }

  predicate CanStep(shape: Shape, plan: Plan, net: Rounds, m: Move) {
    && m.link < |net.links| == |plan|
    && Enabled(net.links[m.link], m.action)
    && InOrder(net.links[m.link], m.action)
    && FollowsPlan(net.links[m.link], m.action, plan[m.link])
    && HasTurn(shape, net, m)
  }

  /** A program with one link on its side does whatever the documented order allows. */
  lemma EndsStepFreely(shape: Shape, plan: Plan, net: Rounds, j: nat, a: Action)
    requires j < |net.links| == |plan| && Enabled(net.links[j], a) && NotificationOf(net.links[j].flags).Notify?
    requires var p := net.links[j];
             match a
             case BeginSend(m) => p.sender.acksReceived == |p.sender.sent| < |plan[j]| && m == plan[j][|p.sender.sent|]
             case BeginAwait => p.sender.acksReceived < |p.sender.sent|
             case BeginReceive => p.receiver.acksSent == |p.receiver.delivered|
             case NotifySend => p.receiver.acksSent < |p.receiver.delivered|
             case _ => true
    ensures !(if a.OfSender() then shape.oneSender else shape.oneReceiver) ==> CanStep(shape, plan, net, Move(j, a))
  {
    hide Enabled, NotificationOf;
  }

  /** A send returns with its last write, a wait with its acknowledgement, a receive with its body. */
  predicate CallReturns(p: Pair, a: Action)
    requires Enabled(p, a)
  {
    || a.WriteBody? || a.NotifySend?
    || (a.TakeAck? && Next(p, a).sender.pc.Ready?)
    || (a.TakeBody? && Next(p, a).receiver.pc.Idle?)
  }

  function Onward(k: nat, n: nat): nat {
    if k + 1 < 2 * n then k + 1 else 0
  }

  function DoStep(shape: Shape, plan: Plan, net: Rounds, m: Move): Rounds
    requires CanStep(shape, plan, net, m)
  {
    var p, done := net.links[m.link], CallReturns(net.links[m.link], m.action);
    Rounds(net.links[m.link := Next(p, m.action)],
           if done && m.action.OfSender() && shape.oneSender then Onward(net.sending, net.Count()) else net.sending,
           if done && !m.action.OfSender() && shape.oneReceiver then Onward(net.receiving, net.Count()) else net.receiving)
  }

  predicate IsCourse(shape: Shape, plan: Plan, net: Rounds, moves: seq<Move>)
    decreases |moves|
  {
    moves == [] || (CanStep(shape, plan, net, moves[0])
                    && IsCourse(shape, plan, DoStep(shape, plan, net, moves[0]), moves[1..]))
  }

  function AfterCourse(shape: Shape, plan: Plan, net: Rounds, moves: seq<Move>): Rounds
    requires IsCourse(shape, plan, net, moves)
    decreases |moves|
  {
    if moves == [] then net else AfterCourse(shape, plan, DoStep(shape, plan, net, moves[0]), moves[1..])
  }

  // ----- each link by itself

  predicate LinkOk(p: Pair, todo: seq<Message>, flags: bv32) {
    LinkInv(p, todo, flags) && (p.sender.pc.AwaitAck? ==> |p.sender.sent| == p.sender.acksReceived + 1)
  }

  /** What a step does to the counts and the place of the sending end. */
  lemma SenderStep(p: Pair, a: Action)
    requires a.OfSender() && SenderEnabled(p, a) && NotificationOf(p.flags).Notify?
    requires !SenderNext(p, a).sender.pc.BadAck?
    ensures var s, s' := p.sender, SenderNext(p, a).sender;
            && SenderNext(p, a).receiver == p.receiver
            && |s'.sent| == |s.sent| + (if a.BeginSend? then 1 else 0)
            && s'.acksReceived == s.acksReceived + (if a.TakeAck? && s'.pc.Ready? then 1 else 0)
            && match a
               case BeginSend(_) => s.pc.Ready? && s'.pc.HeaderNext?
               case WriteHeader => s.pc.HeaderNext? && s'.pc.BodyNext?
               case WriteBody => s.pc.BodyNext? && s'.pc.Ready?
               case BeginAwait => s.pc.Ready? && s'.pc.AwaitAck?
               case _ => s.pc.AwaitAck? && (s'.pc.Ready? || s'.pc.AwaitAck?)
  {
    hide EncodeWord, DecodeWord, EncodeHeader, NotificationOf, Message.Sendable, Message.Fits, Message.Body;
  }

  /** The same for the receiving end. */
  lemma ReceiverStep(p: Pair, a: Action)
    requires !a.OfSender() && ReceiverEnabled(p, a) && NotificationOf(p.flags).Notify?
    requires !ReceiverNext(p, a).receiver.pc.Crashed? && !p.receiver.pc.AckNext?
    ensures var r, r' := p.receiver, ReceiverNext(p, a).receiver;
            && ReceiverNext(p, a).sender == p.sender
            && |r'.delivered| == |r.delivered| + (if a.TakeBody? && r'.pc.Idle? then 1 else 0)
            && r'.acksSent == r.acksSent + (if a.NotifySend? then 1 else 0)
            && (a.BeginReceive? || a.NotifySend? ==> r.pc.Idle?)
            && (a.BeginReceive? || a.TakeHeader? ==> !r'.pc.Idle?)
            && (a.TakeHeader? || a.TakeBody? ==> !r.pc.Idle?)
            && (a.NotifySend? ==> r'.pc.Idle?)
            && !a.WriteAck?
  {
    hide EncodeWord, DecodeHeader, ReceiveBody, AfterHeader, NotificationOf;
  }

  lemma NoErrorAfter(p: Pair, a: Action)
    requires Inv(p) && Lockstep(p) && NotificationOf(p.flags).Notify? && Enabled(p, a)
    ensures Inv(Next(p, a))
    ensures !Next(p, a).sender.pc.BadAck? && !Next(p, a).receiver.pc.Crashed? && !p.receiver.pc.AckNext?
  {
    hide Inv, Enabled, Next;
    StepKeepsInv(p, a);
    NoErrorBranch(Next(p, a));
  }

  lemma StepKeepsLinkOk(p: Pair, a: Action, todo: seq<Message>, flags: bv32)
    requires LinkOk(p, todo, flags) && NotificationOf(flags).Notify?
    requires Enabled(p, a) && InOrder(p, a) && FollowsPlan(p, a, todo)
    ensures LinkOk(Next(p, a), todo, flags)
  {
    hide Inv, SenderEnabled, SenderNext, ReceiverEnabled, ReceiverNext, NotificationOf, ReceiverCounts;
    NoErrorAfter(p, a);
    StepKeepsLockstep(p, a);
    StepKeepsFlags(p, a);
    SentFollowsPlan(p, a, todo);
    if a.OfSender() {
      SenderStep(p, a);
    } else {
      ReceiverStep(p, a);
    }
  }

  predicate NetOk(plan: Plan, flags: bv32, net: Rounds) {
    && |net.links| == |plan| > 0
    && net.sending < 2 * |plan| && net.receiving < 2 * |plan|
    && forall j | 0 <= j < |plan| :: LinkOk(net.links[j], plan[j], flags)
  }

  lemma NewRoundsOk(plan: Plan, flags: bv32)
    requires plan != []
    ensures NetOk(plan, flags, NewRounds(plan, flags))
  {
    forall j | 0 <= j < |plan| ensures LinkOk(NewPair(flags), plan[j], flags) {
      NewPairInv(flags);
    }
  }

  lemma StepKeepsNetOk(shape: Shape, plan: Plan, flags: bv32, net: Rounds, m: Move)
    requires NetOk(plan, flags, net) && NotificationOf(flags).Notify? && CanStep(shape, plan, net, m)
    ensures NetOk(plan, flags, DoStep(shape, plan, net, m))
  {
    hide LinkOk, Enabled, Next, NotificationOf, FollowsPlan, InOrder, HasTurn, CallReturns;
    StepKeepsLinkOk(net.links[m.link], m.action, plan[m.link], flags);
  }

  // ----- where the programs stand

  /** The sender is in its round-th turn through the links. */
  predicate SenderStands(net: Rounds, j: nat, round: nat)
    requires j < |net.links|
  {
    var s, c, waiting := net.links[j].sender, net.SenderLink(), net.sending >= net.Count();
    if j < c || (j == c && waiting) then
      |s.sent| == round + 1 && s.acksReceived == round && (s.pc.Ready? || (j == c && s.pc.AwaitAck?))
    else if j == c then
      && s.acksReceived == round
      && if s.pc.Ready? then |s.sent| == round else |s.sent| == round + 1 && (s.pc.HeaderNext? || s.pc.BodyNext?)
    else s.pc.Ready? && |s.sent| == s.acksReceived == if waiting then round + 1 else round
  }

  predicate ReceiverStands(net: Rounds, j: nat, round: nat)
    requires j < |net.links|
  {
    var r, c := net.links[j].receiver, net.ReceiverLink();
    if net.receiving < net.Count() then
      && r.acksSent == round
      && |r.delivered| == (if j > c then round + 1 else round)
      && (j != c ==> r.pc.Idle?)
    else
      r.pc.Idle? && |r.delivered| == round + 1 && r.acksSent == if j > c then round + 1 else round
  }

  predicate SendersOk(shape: Shape, net: Rounds, round: nat) {
    shape.oneSender ==> forall j | 0 <= j < |net.links| :: SenderStands(net, j, round)
  }

  predicate ReceiversOk(shape: Shape, net: Rounds, round: nat) {
    shape.oneReceiver ==> forall j | 0 <= j < |net.links| :: ReceiverStands(net, j, round)
  }

  lemma StepKeepsSenders(shape: Shape, plan: Plan, flags: bv32, net: Rounds, m: Move, round: nat) returns (round': nat)
    requires NetOk(plan, flags, net) && NotificationOf(flags).Notify? && CanStep(shape, plan, net, m)
    requires SendersOk(shape, net, round)
    ensures SendersOk(shape, DoStep(shape, plan, net, m), round')
  {
    hide Inv, Lockstep, SenderEnabled, SenderNext, ReceiverEnabled, ReceiverNext, NotificationOf, InOrder, FollowsPlan;
    var p := net.links[m.link];
    assert LinkOk(p, plan[m.link], flags);
    NoErrorAfter(p, m.action);
    round' := round;
    if m.action.OfSender() {
      SenderStep(p, m.action);
      if shape.oneSender && CallReturns(p, m.action) && net.sending + 1 == 2 * net.Count() {
        round' := round + 1;
      }
    } else {
      ReceiverStep(p, m.action);
    }
    if shape.oneSender {
      var net' := DoStep(shape, plan, net, m);
      forall j | 0 <= j < |net.links| ensures SenderStands(net', j, round') {
        assert SenderStands(net, j, round) && SenderStands(net, m.link, round);
      }
    }
  }

  lemma StepKeepsReceivers(shape: Shape, plan: Plan, flags: bv32, net: Rounds, m: Move, round: nat) returns (round': nat)
    requires NetOk(plan, flags, net) && NotificationOf(flags).Notify? && CanStep(shape, plan, net, m)
    requires ReceiversOk(shape, net, round)
    ensures ReceiversOk(shape, DoStep(shape, plan, net, m), round')
  {
    hide Inv, Lockstep, SenderEnabled, SenderNext, ReceiverEnabled, ReceiverNext, NotificationOf, InOrder, FollowsPlan;
    var p := net.links[m.link];
    assert LinkOk(p, plan[m.link], flags);
    NoErrorAfter(p, m.action);
    round' := round;
    if m.action.OfSender() {
      SenderStep(p, m.action);
    } else {
      ReceiverStep(p, m.action);
      if shape.oneReceiver && CallReturns(p, m.action) && net.receiving + 1 == 2 * net.Count() {
        round' := round + 1;
      }
    }
    if shape.oneReceiver {
      var net' := DoStep(shape, plan, net, m);
      forall j | 0 <= j < |net.links| ensures ReceiverStands(net', j, round') {
        assert ReceiverStands(net, j, round) && ReceiverStands(net, m.link, round);
      }
    }
  }

  lemma {:induction false} CourseKeepsAll(shape: Shape, plan: Plan, flags: bv32, net: Rounds, moves: seq<Move>, s: nat, r: nat)
    returns (s': nat, r': nat)
    requires NetOk(plan, flags, net) && NotificationOf(flags).Notify? && IsCourse(shape, plan, net, moves)
    requires SendersOk(shape, net, s) && ReceiversOk(shape, net, r)
    ensures var after := AfterCourse(shape, plan, net, moves);
            NetOk(plan, flags, after) && SendersOk(shape, after, s') && ReceiversOk(shape, after, r')
    decreases |moves|
  {
    hide NetOk, CanStep, DoStep, NotificationOf, SendersOk, ReceiversOk;
    s', r' := s, r;
    if moves == [] {
    } else {
      s' := StepKeepsSenders(shape, plan, flags, net, moves[0], s);
      r' := StepKeepsReceivers(shape, plan, flags, net, moves[0], r);
      StepKeepsNetOk(shape, plan, flags, net, moves[0]);
      s', r' := CourseKeepsAll(shape, plan, flags, DoStep(shape, plan, net, moves[0]), moves[1..], s', r');
    }
  }

  lemma NewRoundsStand(shape: Shape, plan: Plan, flags: bv32)
    requires plan != []
    ensures SendersOk(shape, NewRounds(plan, flags), 0) && ReceiversOk(shape, NewRounds(plan, flags), 0)
  {
  }

  // ----- no course goes on forever

  function SenderWork(p: Pair, todo: seq<Message>): int {
    8 * (|todo| - |p.sender.sent|) +
    match p.sender.pc
    case Ready => if p.sender.acksReceived < |p.sender.sent| then 5 else 0
    case HeaderNext => 7
    case BodyNext => 6
    case AwaitAck(got) => WORD_SIZE - |got|
    case BadAck => 0
  }

  function ReceiverWork(p: Pair, todo: seq<Message>): int {
    var d := |p.receiver.delivered|;
    4 * (|todo| - d)
    + (if d <= |todo| then |Stream(todo[d..], TYPE_SOCKET_TX, p.flags)| else 0) - |Taken(p.receiver, p.flags)|
    + if p.receiver.pc.Idle? then 1 + d - p.receiver.acksSent else 0
  }

  /** An upper bound on the steps still possible on a link. */
  function LinkWork(p: Pair, todo: seq<Message>): int {
    SenderWork(p, todo) + ReceiverWork(p, todo)
  }

  lemma WorkIsNatural(p: Pair, todo: seq<Message>, flags: bv32)
    requires LinkOk(p, todo, flags)
    ensures LinkWork(p, todo) >= 0
  {
    hide Matches, Lockstep, EncodeHeader, NotificationOf, Message.Body, Message.Size, Stream, Acks, Taken, Unwritten;
    var d, n := |p.receiver.delivered|, |p.sender.sent|;
    StreamConcat(p.sender.sent[d..], todo[n..], flags);
    assert p.sender.sent[d..] + todo[n..] == todo[d..];
    LockstepChain(p);
  }

  lemma SenderStepWorks(p: Pair, a: Action, todo: seq<Message>)
    requires Inv(p) && Lockstep(p) && NotificationOf(p.flags).Notify? && a.OfSender() && Enabled(p, a) && InOrder(p, a)
    requires p.sender.pc.AwaitAck? ==> |p.sender.sent| == p.sender.acksReceived + 1
    ensures LinkWork(Next(p, a), todo) < LinkWork(p, todo)
  {
    hide FlowInv, AckInv, ReceiverInv, ReceiverCounts, EncodeWord, DecodeWord, EncodeHeader, NotificationOf, Stream, Taken,
         Message.Sendable, Message.Fits, Message.Body;
    NoErrorAfter(p, a);
    SenderStep(p, a);
  }

  lemma BodyStepWorks(p: Pair, n: nat, todo: seq<Message>)
    requires Inv(p) && Lockstep(p) && NotificationOf(p.flags).Notify? && Enabled(p, TakeBody(n))
    requires p.sender.sent <= todo
    ensures ReceiverWork(Next(p, TakeBody(n)), todo) < ReceiverWork(p, todo)
  {
    hide SenderInv, FlowInv, AckInv, SenderCounts, EncodeHeader, NotificationOf, Message.Body, Message.Sendable, Matches,
         ReceiveBody, AfterHeader, Unwritten, Stream;
    var d, got := |p.receiver.delivered|, p.receiver.pc.got + p.tx.unread[..n];
    if |got| == p.receiver.rx.recvSize {
      NoErrorAfter(p, TakeBody(n));
      ReceiverStep(p, TakeBody(n));
      TakeBodyDelivers(p, n);
      StreamShrinks(todo, d, p.flags);
      assert p.sender.sent[d] == todo[d];
    }
  }

  lemma ReceiverStepWorks(p: Pair, a: Action, todo: seq<Message>)
    requires Inv(p) && Lockstep(p) && NotificationOf(p.flags).Notify? && !a.OfSender() && Enabled(p, a) && InOrder(p, a)
    requires p.sender.sent <= todo
    ensures LinkWork(Next(p, a), todo) < LinkWork(p, todo)
  {
    hide SenderInv, FlowInv, AckInv, SenderCounts, EncodeWord, DecodeWord, EncodeHeader, DecodeHeader, NotificationOf, Stream,
         Frame, Matches, ReceiveBody, AfterHeader, Message.Body;
    NoErrorAfter(p, a);
    ReceiverStep(p, a);
    if a.TakeBody? {
      BodyStepWorks(p, a.count, todo);
    }
  }

  lemma StepWorks(p: Pair, a: Action, todo: seq<Message>, flags: bv32)
    requires LinkOk(p, todo, flags) && NotificationOf(flags).Notify? && Enabled(p, a) && InOrder(p, a)
    ensures LinkWork(Next(p, a), todo) < LinkWork(p, todo)
  {
    hide Inv, Lockstep, Enabled, Next, NotificationOf, InOrder, LinkWork;
    if a.OfSender() {
      SenderStepWorks(p, a, todo);
    } else {
      ReceiverStepWorks(p, a, todo);
    }
  }

  function Work(plan: Plan, links: seq<Pair>, j: nat): int
    requires j <= |links| == |plan|
    decreases |links| - j
  {
    if j == |links| then 0 else LinkWork(links[j], plan[j]) + Work(plan, links, j + 1)
  }

  lemma {:induction false} AllWorkIsNatural(plan: Plan, flags: bv32, net: Rounds, j: nat)
    requires NetOk(plan, flags, net) && j <= |plan|
    ensures Work(plan, net.links, j) >= 0
    decreases |plan| - j
  {
    hide LinkOk, LinkWork;
    if j == |plan| {
    } else {
      WorkIsNatural(net.links[j], plan[j], flags);
      AllWorkIsNatural(plan, flags, net, j + 1);
    }
  }

  lemma {:induction false} WorkUpdate(plan: Plan, links: seq<Pair>, j: nat, i: nat, q: Pair)
    requires j <= |links| == |plan| && i < |links|
    ensures Work(plan, links[i := q], j) ==
            Work(plan, links, j) + if j <= i then LinkWork(q, plan[i]) - LinkWork(links[i], plan[i]) else 0
    decreases |links| - j
  {
    hide LinkWork;
    if j == |links| {
    } else {
      WorkUpdate(plan, links, j + 1, i, q);
    }
  }

  ghost function WorkLeft(plan: Plan, flags: bv32, net: Rounds): nat
    requires NetOk(plan, flags, net)
  {
    AllWorkIsNatural(plan, flags, net, 0);
    Work(plan, net.links, 0)
  }

  lemma StepLeavesLess(shape: Shape, plan: Plan, flags: bv32, net: Rounds, m: Move)
    requires NetOk(plan, flags, net) && NotificationOf(flags).Notify? && CanStep(shape, plan, net, m)
    ensures NetOk(plan, flags, DoStep(shape, plan, net, m))
    ensures WorkLeft(plan, flags, DoStep(shape, plan, net, m)) < WorkLeft(plan, flags, net)
  {
    hide LinkOk, Enabled, Next, NotificationOf, FollowsPlan, InOrder, HasTurn, CallReturns, LinkWork, Work;
    StepKeepsNetOk(shape, plan, flags, net, m);
    StepWorks(net.links[m.link], m.action, plan[m.link], flags);
    WorkUpdate(plan, net.links, 0, m.link, Next(net.links[m.link], m.action));
  }

  lemma {:induction false} CoursesAreBounded(shape: Shape, plan: Plan, flags: bv32, net: Rounds, moves: seq<Move>)
    requires NetOk(plan, flags, net) && NotificationOf(flags).Notify? && IsCourse(shape, plan, net, moves)
    ensures |moves| <= WorkLeft(plan, flags, net)
    decreases |moves|
  {
    hide NetOk, CanStep, DoStep, NotificationOf, WorkLeft;
    if moves == [] {
    } else {
      StepLeavesLess(shape, plan, flags, net, moves[0]);
      CoursesAreBounded(shape, plan, flags, DoStep(shape, plan, net, moves[0]), moves[1..]);
    }
  }

  // ----- where a course can stop

  ghost predicate Halted(shape: Shape, plan: Plan, net: Rounds) {
    forall m: Move :: !CanStep(shape, plan, net, m)
  }

  lemma {:induction false} CoursesCanFinish(shape: Shape, plan: Plan, flags: bv32, net: Rounds) returns (moves: seq<Move>)
    requires NetOk(plan, flags, net) && NotificationOf(flags).Notify?
    ensures IsCourse(shape, plan, net, moves) && Halted(shape, plan, AfterCourse(shape, plan, net, moves))
    decreases WorkLeft(plan, flags, net)
  {
    hide NetOk, CanStep, DoStep, NotificationOf, WorkLeft;
    if Halted(shape, plan, net) {
      moves := [];
    } else {
      var m: Move :| CanStep(shape, plan, net, m);
      StepLeavesLess(shape, plan, flags, net, m);
      var rest := CoursesCanFinish(shape, plan, flags, DoStep(shape, plan, net, m));
      moves := [m] + rest;
      assert moves[1..] == rest;
    }
  }

  /** A sender whose turn it is and that cannot move has sent all it had, or waits for an acknowledgement
      that the receiver has not sent. */
  predicate SenderIdle(p: Pair, todo: seq<Message>) {
    || (p.sender.pc.Ready? && p.sender.acksReceived == |p.sender.sent| == |todo|)
    || (p.sender.pc.AwaitAck? && p.receiver.acksSent == p.sender.acksReceived == |p.sender.sent| - 1)
  }

  /** A receiver whose turn it is and that cannot move has taken all that was sent. */
  predicate ReceiverIdle(p: Pair) {
    !p.receiver.pc.Idle? && p.receiver.acksSent == |p.receiver.delivered| == |p.sender.sent|
  }

  function NextOfSender(p: Pair, todo: seq<Message>): (r: seq<Action>)
    ensures |r| <= 1
  {
    match p.sender.pc
    case Ready =>
      if p.sender.acksReceived < |p.sender.sent| then [BeginAwait]
      else if |p.sender.sent| < |todo| then [BeginSend(todo[|p.sender.sent|])] else []
    case HeaderNext => [WriteHeader]
    case BodyNext => [WriteBody]
    case AwaitAck(_) => if p.ack.unread != [] then [TakeAck(1)] else []
    case BadAck => []
  }

  lemma NextOfSenderFits(p: Pair, todo: seq<Message>, flags: bv32)
    requires LinkOk(p, todo, flags) && NotificationOf(flags).Notify? && (forall k | 0 <= k < |todo| :: Usable(todo[k], flags))
    requires NextOfSender(p, todo) != []
    ensures var a := NextOfSender(p, todo)[0];
            && a.OfSender() && Enabled(p, a) && InOrder(p, a) && FollowsPlan(p, a, todo)
            && (a.BeginSend? ==> p.sender.pc.Ready? && p.sender.acksReceived == |p.sender.sent|)
            && (a.BeginAwait? ==> p.sender.pc.Ready? && p.sender.acksReceived < |p.sender.sent|)
  {
    hide FlowInv, AckInv, ReceiverInv, ReceiverCounts, NotificationOf;
    LockstepChain(p);
  }

  lemma NoNextOfSender(p: Pair, todo: seq<Message>, flags: bv32)
    requires LinkOk(p, todo, flags) && NotificationOf(flags).Notify? && NextOfSender(p, todo) == []
    ensures SenderIdle(p, todo)
  {
    hide FlowInv, ReceiverInv, ReceiverCounts, NotificationOf, Acks;
    LockstepChain(p);
    AcksLength(p.receiver.acksSent - p.sender.acksReceived);
  }

  function NextOfReceiver(p: Pair): (r: seq<Action>)
    ensures |r| <= 1
  {
    match p.receiver.pc
    case Idle => if p.receiver.acksSent < |p.receiver.delivered| then [NotifySend] else [BeginReceive]
    case AckNext => []
    case HeaderPart(_) => if p.tx.unread != [] then [TakeHeader(1)] else []
    case BodyPart(got) => if |got| == p.receiver.rx.recvSize then [TakeBody(0)]
                          else if p.tx.unread != [] then [TakeBody(1)] else []
    case Crashed => []
  }

  lemma NextOfReceiverFits(p: Pair, todo: seq<Message>, flags: bv32)
    requires LinkOk(p, todo, flags) && NotificationOf(flags).Notify? && NextOfReceiver(p) != []
    ensures var a := NextOfReceiver(p)[0];
            && !a.OfSender() && !a.BeginSend? && Enabled(p, a) && InOrder(p, a)
            && (a.BeginReceive? ==> p.receiver.pc.Idle? && p.receiver.acksSent == |p.receiver.delivered|)
            && (a.NotifySend? ==> p.receiver.pc.Idle? && p.receiver.acksSent < |p.receiver.delivered|)
  {
    hide FlowInv, AckInv, SenderInv, SenderCounts, NotificationOf, Matches, Message.Body, Message.Size;
    LockstepChain(p);
  }

  /** Nothing unread, and nothing being written, means that nothing sent is undelivered. */
  lemma NoNextOfReceiver(p: Pair, todo: seq<Message>, flags: bv32)
    requires LinkOk(p, todo, flags) && NotificationOf(flags).Notify? && NextOfReceiver(p) == []
    requires p.sender.pc.Ready? || p.sender.pc.AwaitAck?
    ensures ReceiverIdle(p)
  {
    hide Matches, EncodeHeader, NotificationOf, SenderCounts, AckInv;
    LockstepChain(p);
    NoErrorBranch(p);
  }

  lemma SenderCanStep(shape: Shape, plan: Plan, flags: bv32, net: Rounds, j: nat, round: nat)
    requires NetOk(plan, flags, net) && AllUsable(plan, flags) && NotificationOf(flags).Notify?
    requires SendersOk(shape, net, round) && j < |plan| && (shape.oneSender ==> j == net.SenderLink())
    requires NextOfSender(net.links[j], plan[j]) != []
    ensures CanStep(shape, plan, net, Move(j, NextOfSender(net.links[j], plan[j])[0]))
  {
    hide LinkInv, Enabled, FollowsPlan, InOrder, NotificationOf, NextOfSender;
    assert LinkOk(net.links[j], plan[j], flags);
    NextOfSenderFits(net.links[j], plan[j], flags);
    assert shape.oneSender ==> SenderStands(net, j, round);
  }

  lemma HaltedSender(shape: Shape, plan: Plan, flags: bv32, net: Rounds, j: nat, round: nat)
    requires NetOk(plan, flags, net) && AllUsable(plan, flags) && NotificationOf(flags).Notify?
    requires SendersOk(shape, net, round) && Halted(shape, plan, net)
    requires j < |plan| && (shape.oneSender ==> j == net.SenderLink())
    ensures SenderIdle(net.links[j], plan[j])
  {
    hide LinkOk, CanStep, SendersOk, NotificationOf, NextOfSender, SenderIdle;
    if NextOfSender(net.links[j], plan[j]) == [] {
      NoNextOfSender(net.links[j], plan[j], flags);
    } else {
      SenderCanStep(shape, plan, flags, net, j, round);
    }
  }

  lemma ReceiverFollows(p: Pair, a: Action, todo: seq<Message>)
    requires !a.BeginSend?
    ensures FollowsPlan(p, a, todo)
  {
  }

  lemma ReceiverCanStep(shape: Shape, plan: Plan, flags: bv32, net: Rounds, j: nat, round: nat)
    requires NetOk(plan, flags, net) && NotificationOf(flags).Notify?
    requires ReceiversOk(shape, net, round) && j < |plan| && (shape.oneReceiver ==> j == net.ReceiverLink())
    requires NextOfReceiver(net.links[j]) != []
    ensures CanStep(shape, plan, net, Move(j, NextOfReceiver(net.links[j])[0]))
  {
    hide LinkInv, Enabled, FollowsPlan, InOrder, NotificationOf, NextOfReceiver;
    assert LinkOk(net.links[j], plan[j], flags);
    NextOfReceiverFits(net.links[j], plan[j], flags);
    ReceiverFollows(net.links[j], NextOfReceiver(net.links[j])[0], plan[j]);
    assert shape.oneReceiver ==> ReceiverStands(net, j, round);
  }

  lemma HaltedReceiver(shape: Shape, plan: Plan, flags: bv32, net: Rounds, j: nat, round: nat)
    requires NetOk(plan, flags, net) && NotificationOf(flags).Notify?
    requires ReceiversOk(shape, net, round) && Halted(shape, plan, net)
    requires j < |plan| && (shape.oneReceiver ==> j == net.ReceiverLink())
    requires net.links[j].sender.pc.Ready? || net.links[j].sender.pc.AwaitAck?
    ensures ReceiverIdle(net.links[j])
  {
    hide LinkOk, CanStep, ReceiversOk, NotificationOf, NextOfReceiver, ReceiverIdle;
    if NextOfReceiver(net.links[j]) == [] {
      NoNextOfReceiver(net.links[j], plan[j], flags);
    } else {
      ReceiverCanStep(shape, plan, flags, net, j, round);
    }
  }

  /** All there is to say of a net in which nobody can move. */
  predicate AtRest(shape: Shape, plan: Plan, net: Rounds)
    requires |net.links| == |plan|
  {
    forall j | 0 <= j < |plan| ::
      && (net.links[j].sender.pc.Ready? || net.links[j].sender.pc.AwaitAck?)
      && ((shape.oneSender ==> j == net.SenderLink()) ==> SenderIdle(net.links[j], plan[j]))
      && ((shape.oneReceiver ==> j == net.ReceiverLink()) ==> ReceiverIdle(net.links[j]))
  }

  lemma HaltedIsAtRest(shape: Shape, plan: Plan, flags: bv32, net: Rounds, s: nat, r: nat)
    requires NetOk(plan, flags, net) && AllUsable(plan, flags) && NotificationOf(flags).Notify?
    requires SendersOk(shape, net, s) && ReceiversOk(shape, net, r) && Halted(shape, plan, net)
    ensures AtRest(shape, plan, net)
  {
    hide LinkOk, AllUsable, Halted, NotificationOf, ReceiverStands, ReceiverIdle;
    forall j | 0 <= j < |plan|
      ensures net.links[j].sender.pc.Ready? || net.links[j].sender.pc.AwaitAck?
      ensures (shape.oneSender ==> j == net.SenderLink()) ==> SenderIdle(net.links[j], plan[j])
      ensures (shape.oneReceiver ==> j == net.ReceiverLink()) ==> ReceiverIdle(net.links[j])
    {
      if shape.oneSender ==> j == net.SenderLink() {
        HaltedSender(shape, plan, flags, net, j, s);
      } else {
        assert SenderStands(net, j, s);
      }
      if shape.oneReceiver ==> j == net.ReceiverLink() {
        HaltedReceiver(shape, plan, flags, net, j, r);
      }
    }
  }

  predicate EqualPlans(plan: Plan) {
    forall i, j | 0 <= i < j < |plan| :: |plan[i]| == |plan[j]|
  }

  predicate EachDone(plan: Plan, net: Rounds) {
    |net.links| == |plan| && forall j | 0 <= j < |plan| :: LinkDone(net.links[j], plan[j])
  }

  lemma CountsAreDone(p: Pair, todo: seq<Message>, flags: bv32)
    requires LinkOk(p, todo, flags)
    ensures LinkDone(p, todo) <==> p.sender.pc.Ready? && p.sender.acksReceived == |p.sender.sent| == |todo|
    ensures p.sender.acksReceived <= p.receiver.acksSent <= |p.receiver.delivered| <= |p.sender.sent| <= |todo|
  {
    hide Inv;
    LockstepChain(p);
    NoErrorBranch(p);
  }

  lemma EqualLengths(plan: Plan, i: nat, j: nat)
    requires EqualPlans(plan) && i < |plan| && j < |plan|
    ensures |plan[i]| == |plan[j]|
  {
  }

  /** A single sender cannot be kept waiting: whoever it waits for has been sent the message. */
  lemma NoSenderWaits(shape: Shape, plan: Plan, flags: bv32, net: Rounds, s: nat, r: nat, i: nat)
    requires NetOk(plan, flags, net) && AtRest(shape, plan, net)
    requires SendersOk(shape, net, s) && ReceiversOk(shape, net, r)
    requires i < |plan| && (shape.oneSender ==> i == net.SenderLink())
    requires shape.oneSender || !shape.oneReceiver || EqualPlans(plan)
    ensures net.links[i].sender.pc.Ready?
  {
    hide LinkInv, EqualPlans;
    var p := net.links[i];
    if p.sender.pc.AwaitAck? && shape.oneReceiver {
      var k := net.ReceiverLink();
      assert ReceiverStands(net, i, r) && ReceiverStands(net, k, r);
      if shape.oneSender {
        assert SenderStands(net, i, s) && SenderStands(net, k, s);
      } else {
        EqualLengths(plan, i, k);
        CountsAreDone(p, plan[i], flags);
      }
    }
  }

  lemma RestIsDone(shape: Shape, plan: Plan, flags: bv32, net: Rounds, s: nat, r: nat)
    requires NetOk(plan, flags, net) && AtRest(shape, plan, net)
    requires SendersOk(shape, net, s) && ReceiversOk(shape, net, r)
    requires EqualPlans(plan) || (!shape.oneSender && !shape.oneReceiver)
    ensures EachDone(plan, net)
  {
    hide LinkInv, EqualPlans, LinkDone;
    forall j | 0 <= j < |plan| ensures LinkDone(net.links[j], plan[j]) {
      assert LinkOk(net.links[j], plan[j], flags);
      CountsAreDone(net.links[j], plan[j], flags);
      if shape.oneSender {
        var c := net.SenderLink();
        NoSenderWaits(shape, plan, flags, net, s, r, c);
        assert SenderStands(net, c, s) && SenderStands(net, 0, s) && SenderStands(net, j, s);
        CountsAreDone(net.links[0], plan[0], flags);
        EqualLengths(plan, c, 0);
        EqualLengths(plan, c, j);
      } else {
        NoSenderWaits(shape, plan, flags, net, s, r, j);
      }
    }
  }

  lemma DoneIsEqual(shape: Shape, plan: Plan, flags: bv32, net: Rounds, s: nat, r: nat)
    requires NetOk(plan, flags, net) && AtRest(shape, plan, net) && EachDone(plan, net)
    requires SendersOk(shape, net, s) && ReceiversOk(shape, net, r)
    requires shape.oneSender || shape.oneReceiver
    ensures EqualPlans(plan)
  {
    hide LinkInv, LinkDone;
    var k := if shape.oneSender then net.SenderLink() else net.ReceiverLink();
    forall j | 0 <= j < |plan| ensures |plan[j]| == |plan[k]| {
      assert LinkOk(net.links[j], plan[j], flags) && LinkOk(net.links[k], plan[k], flags);
      assert LinkDone(net.links[j], plan[j]) && LinkDone(net.links[k], plan[k]);
      CountsAreDone(net.links[j], plan[j], flags);
      CountsAreDone(net.links[k], plan[k], flags);
      if shape.oneSender {
        assert SenderStands(net, j, s) && SenderStands(net, k, s);
      } else {
        assert ReceiverStands(net, j, r) && ReceiverStands(net, k, r);
      }
    }
  }

  lemma SameLength(plan: Plan, flags: bv32, net: Rounds)
    requires NetOk(plan, flags, net)
    ensures |net.links| == |plan|
  {
  }

  /** With manual notification, whether the sending ends belong to one program or to several, and the
      receiving ends likewise: every course is finite, and where nobody can move everything planned has
      been sent, delivered and acknowledged, exactly if all links were planned for equally, or every end
      is a program of its own. Two programs joined by several links do not block each other here. */
  lemma NotifyCompletesExactly(shape: Shape, plan: Plan, flags: bv32, moves: seq<Move>)
    requires plan != [] && AllUsable(plan, flags) && NotificationOf(flags).Notify?
    requires IsCourse(shape, plan, NewRounds(plan, flags), moves)
    ensures NetOk(plan, flags, NewRounds(plan, flags)) && |moves| <= WorkLeft(plan, flags, NewRounds(plan, flags))
    ensures var net := AfterCourse(shape, plan, NewRounds(plan, flags), moves);
            Halted(shape, plan, net) ==>
              (EachDone(plan, net) <==> EqualPlans(plan) || (!shape.oneSender && !shape.oneReceiver))
  {
    hide NetOk, CanStep, DoStep, NotificationOf, SendersOk, ReceiversOk, IsCourse, AfterCourse, Halted, WorkLeft, AllUsable,
         EachDone, EqualPlans, AtRest;
    var net0 := NewRounds(plan, flags);
    NewRoundsOk(plan, flags);
    NewRoundsStand(shape, plan, flags);
    CoursesAreBounded(shape, plan, flags, net0, moves);
    var s, r := CourseKeepsAll(shape, plan, flags, net0, moves, 0, 0);
    var net := AfterCourse(shape, plan, net0, moves);
    if Halted(shape, plan, net) {
      assert |net.links| == |plan| by { SameLength(plan, flags, net); }
      HaltedIsAtRest(shape, plan, flags, net, s, r);
      if EqualPlans(plan) || (!shape.oneSender && !shape.oneReceiver) {
        RestIsDone(shape, plan, flags, net, s, r);
      } else if EachDone(plan, net) {
        DoneIsEqual(shape, plan, flags, net, s, r);
      }
    }
  }
}
