/** Several autonotify links at once. A process with several links sends over them in ascending
    order, waiting on each for its acknowledgement (icom_send), and receives over them in descending
    order (icom_recv3). All processes interleave freely. */
module Network {
  import opened Sequences
  import opened Wire
  import opened FlagBits
  import opened MessageStream
  import opened LinkProtocol
  import opened ZeroCopy

  /** Whether one process owns all sending ends, and whether one owns all receiving ends. */
  datatype Shape = Shape(oneSender: bool, oneReceiver: bool)

  const FAN_OUT := Shape(true, false)
  const FAN_IN := Shape(false, true)
  const PAIRED := Shape(true, true)

  /** sending and receiving are the link indices at which such a process stands in its loop. */
  datatype Net = Net(links: seq<Pair>, sending: nat, receiving: nat)

  datatype Move = Move(link: nat, action: Action)

  /** What is to be sent over each link, in order. */
  type Plan = seq<seq<Message>>

  predicate AllUsable(plan: Plan, flags: bv32) {
    forall j | 0 <= j < |plan| :: forall k | 0 <= k < |plan[j]| :: Usable(plan[j][k], flags)
  }

  function NewNet(plan: Plan, flags: bv32): Net
    requires plan != []
  {
    Net(seq(|plan|, _ => NewPair(flags)), 0, |plan| - 1)
  }

  predicate FollowsPlan(p: Pair, a: Action, todo: seq<Message>) {
    a.BeginSend? ==> |p.sender.sent| < |todo| && a.message == todo[|p.sender.sent|]
  }

  predicate CanMove(shape: Shape, plan: Plan, net: Net, m: Move) {
    && m.link < |net.links| == |plan|
    && Enabled(net.links[m.link], m.action)
    && FollowsPlan(net.links[m.link], m.action, plan[m.link])
    && (if m.action.OfSender() then shape.oneSender ==> m.link == net.sending
        else shape.oneReceiver ==> m.link == net.receiving)
  }

  /** An end of its own moves whenever its link lets it; one of several ends of a process moves whenever it
      has its turn. */
  lemma EndsMoveFreely(shape: Shape, plan: Plan, net: Net, j: nat, a: Action)
    requires j < |net.links| == |plan| && Enabled(net.links[j], a)
    requires a.BeginSend? ==> |net.links[j].sender.sent| < |plan[j]| && a.message == plan[j][|net.links[j].sender.sent|]
    ensures a.OfSender() && (!shape.oneSender || j == net.sending) ==> CanMove(shape, plan, net, Move(j, a))
    ensures !a.OfSender() && (!shape.oneReceiver || j == net.receiving) ==> CanMove(shape, plan, net, Move(j, a))
  {
    hide Enabled;
  }

  /** A send returns when the acknowledgement is complete, a receive when the body is. */
  predicate Returns(p: Pair, a: Action)
    requires Enabled(p, a)
  {
    || (a.TakeAck? && Next(p, a).sender.pc.Ready?)
    || (a.TakeBody? && Next(p, a).receiver.pc.Idle?)
  }

  function Up(k: nat, n: nat): nat {
    if k + 1 < n then k + 1 else 0
  }

  function Down(k: nat, n: nat): nat
    requires n > 0
  {
    if k > 0 then k - 1 else n - 1
  }

  function DoMove(shape: Shape, plan: Plan, net: Net, m: Move): Net
    requires CanMove(shape, plan, net, m)
  {
    var p, n := net.links[m.link], |net.links|;
    var done := Returns(p, m.action);
    Net(net.links[m.link := Next(p, m.action)],
        if done && m.action.OfSender() && shape.oneSender then Up(net.sending, n) else net.sending,
        if done && !m.action.OfSender() && shape.oneReceiver then Down(net.receiving, n) else net.receiving)
  }

  predicate IsNetRun(shape: Shape, plan: Plan, net: Net, moves: seq<Move>)
    decreases |moves|
  {
    moves == [] || (CanMove(shape, plan, net, moves[0])
                    && IsNetRun(shape, plan, DoMove(shape, plan, net, moves[0]), moves[1..]))
  }

  function NetAfter(shape: Shape, plan: Plan, net: Net, moves: seq<Move>): Net
    requires IsNetRun(shape, plan, net, moves)
    decreases |moves|
  {
    if moves == [] then net else NetAfter(shape, plan, DoMove(shape, plan, net, moves[0]), moves[1..])
  }

  // ----- each link by itself

  predicate LinkInv(p: Pair, todo: seq<Message>, flags: bv32) {
    && Inv(p) && Lockstep(p) && p.flags == flags
    && p.sender.sent <= todo
  }

  lemma SentFollowsPlan(p: Pair, a: Action, todo: seq<Message>)
    requires p.sender.sent <= todo && Enabled(p, a) && FollowsPlan(p, a, todo)
    ensures Next(p, a).sender.sent <= todo
  {
    if !a.BeginSend? {
      OnlySendsAdd(p, a);
    }
  }

  lemma MoveKeepsLinkInv(p: Pair, a: Action, todo: seq<Message>, flags: bv32)
    requires LinkInv(p, todo, flags) && NotificationOf(flags).AutoNotify?
    requires Enabled(p, a) && FollowsPlan(p, a, todo)
    ensures LinkInv(Next(p, a), todo, flags)
  {
    hide Inv, Lockstep, Enabled, Next, NotificationOf;
    StepKeepsInv(p, a);
    assert Disciplined(p, a);
    StepKeepsLockstep(p, a);
    StepKeepsFlags(p, a);
    SentFollowsPlan(p, a, todo);
  }

  /** The next thing the sending end of a link can do, if any. */
  function SenderMove(p: Pair, todo: seq<Message>): (r: seq<Action>)
    ensures |r| <= 1
  {
    match p.sender.pc
    case Ready => if |p.sender.sent| < |todo| then [BeginSend(todo[|p.sender.sent|])] else []
    case HeaderNext => [WriteHeader]
    case BodyNext => [WriteBody]
    case AwaitAck(_) => if p.ack.unread != [] then [TakeAck(1)] else []
    case BadAck => []
  }

  function ReceiverMove(p: Pair): (r: seq<Action>)
    ensures |r| <= 1
  {
    match p.receiver.pc
    case Idle => [BeginReceive]
    case AckNext => [WriteAck]
    case HeaderPart(_) => if p.tx.unread != [] then [TakeHeader(1)] else []
    case BodyPart(got) => if |got| == p.receiver.rx.recvSize then [TakeBody(0)]
                          else if p.tx.unread != [] then [TakeBody(1)] else []
    case Crashed => []
  }

  lemma SenderMoveEnabled(p: Pair, todo: seq<Message>, flags: bv32)
    requires LinkInv(p, todo, flags) && (forall k | 0 <= k < |todo| :: Usable(todo[k], flags))
    requires SenderMove(p, todo) != []
    ensures SenderMove(p, todo)[0].OfSender()
    ensures Enabled(p, SenderMove(p, todo)[0]) && FollowsPlan(p, SenderMove(p, todo)[0], todo)
  {
    hide Lockstep, FlowInv, AckInv, ReceiverInv;
  }

  lemma ReceiverMoveEnabled(p: Pair, todo: seq<Message>, flags: bv32)
    requires LinkInv(p, todo, flags)
    requires ReceiverMove(p) != []
    ensures !ReceiverMove(p)[0].OfSender() && !ReceiverMove(p)[0].BeginSend?
    ensures Enabled(p, ReceiverMove(p)[0])
  {
    hide Lockstep, FlowInv, AckInv, SenderInv, Message.Body, Message.Size;
  }

  /** A sender that waits for an acknowledgement the receiver has not sent is owed a reception. */
  lemma UnreadWhileAwaiting(p: Pair)
    requires Inv(p) && Lockstep(p) && NotificationOf(p.flags).AutoNotify?
    requires p.sender.pc.AwaitAck? && p.ack.unread == []
    requires p.receiver.pc.HeaderPart? || p.receiver.pc.BodyPart?
    ensures p.tx.unread != [] || (p.receiver.pc.BodyPart? && |p.receiver.pc.got| == p.receiver.rx.recvSize)
  {
    hide Matches, EncodeWord, EncodeHeader, NotificationOf, Acks;
    AcksLength(p.receiver.acksSent - p.sender.acksReceived);
    var d := |p.receiver.delivered|;
    LockstepChain(p);
    assert p.receiver.acksSent == p.sender.acksReceived == d && |p.sender.sent| == d + 1;
    var ms := p.sender.sent[d..];
    assert |Stream(ms, TYPE_SOCKET_TX, p.flags)| == HEADER_SIZE + |ms[0].Body()|;
  }

  /** A link on which neither end can do anything has carried all it was to carry. */
  lemma QuietLinkIsDone(p: Pair, todo: seq<Message>, flags: bv32)
    requires LinkInv(p, todo, flags) && NotificationOf(flags).AutoNotify?
    requires SenderMove(p, todo) == [] && ReceiverMove(p) == []
    ensures p.sender.pc.Ready? && p.sender.sent == todo && p.receiver.delivered == todo
    ensures p.sender.acksReceived == |todo|
  {
    hide Matches, EncodeHeader, EncodeWord, NotificationOf, Message.Body, Message.Size, Stream, Acks;
    AcksLength(p.receiver.acksSent - p.sender.acksReceived);
    LockstepChain(p);
    if p.sender.pc.AwaitAck? {
      UnreadWhileAwaiting(p);
      assert false;
    }
  }

  // ----- all links together

  predicate NetInv(plan: Plan, flags: bv32, net: Net) {
    && |net.links| == |plan| > 0
    && net.sending < |plan| && net.receiving < |plan|
    && forall j | 0 <= j < |plan| :: LinkInv(net.links[j], plan[j], flags)
  }

  lemma NewNetInv(plan: Plan, flags: bv32)
    requires plan != [] && NotificationOf(flags).AutoNotify?
    ensures NetInv(plan, flags, NewNet(plan, flags))
  {
    forall j | 0 <= j < |plan| ensures LinkInv(NewPair(flags), plan[j], flags) {
      NewPairInv(flags);
    }
  }

  lemma MoveKeepsNetInv(shape: Shape, plan: Plan, flags: bv32, net: Net, m: Move)
    requires NetInv(plan, flags, net) && NotificationOf(flags).AutoNotify?
    requires CanMove(shape, plan, net, m)
    ensures NetInv(plan, flags, DoMove(shape, plan, net, m))
  {
    hide LinkInv, Enabled, Next, NotificationOf, FollowsPlan, Returns;
    MoveKeepsLinkInv(net.links[m.link], m.action, plan[m.link], flags);
  }

  lemma {:induction false} RunKeepsNetInv(shape: Shape, plan: Plan, flags: bv32, net: Net, moves: seq<Move>)
    requires NetInv(plan, flags, net) && NotificationOf(flags).AutoNotify?
    requires IsNetRun(shape, plan, net, moves)
    ensures NetInv(plan, flags, NetAfter(shape, plan, net, moves))
    decreases |moves|
  {
    hide NetInv, CanMove, DoMove, NotificationOf;
    if moves == [] {
    } else {
      MoveKeepsNetInv(shape, plan, flags, net, moves[0]);
      RunKeepsNetInv(shape, plan, flags, DoMove(shape, plan, net, moves[0]), moves[1..]);
    }
  }

  // ----- no run goes on forever

  function SenderRank(p: Pair, todo: seq<Message>): int {
    7 * (|todo| - |p.sender.sent|) +
    match p.sender.pc
    case HeaderNext => 6
    case BodyNext => 5
    case AwaitAck(got) => WORD_SIZE - |got|
    case _ => 0
  }

  function ReceiverRank(p: Pair, todo: seq<Message>): int
    requires |p.receiver.delivered| <= |todo|
  {
    3 * (|todo| - |p.receiver.delivered|)
    + |Stream(todo[|p.receiver.delivered|..], TYPE_SOCKET_TX, p.flags)| - |Taken(p.receiver, p.flags)| +
    match p.receiver.pc
    case Idle => 2
    case AckNext => 1
    case _ => 0
  }

  /** An upper bound on the steps still possible on a link. */
  function LinkRank(p: Pair, todo: seq<Message>): int
    requires |p.receiver.delivered| <= |todo|
  {
    SenderRank(p, todo) + ReceiverRank(p, todo)
  }

  lemma {:induction false} StreamConcat(a: seq<Message>, b: seq<Message>, flags: bv32)
    ensures Stream(a + b, TYPE_SOCKET_TX, flags) == Stream(a, TYPE_SOCKET_TX, flags) + Stream(b, TYPE_SOCKET_TX, flags)
  {
    hide Frame;
    if a == [] {
      assert a + b == b;
    } else {
      StreamConcat(a[1..], b, flags);
      assert (a + b)[1..] == a[1..] + b && (a + b)[0] == a[0];
      ConcatAssociates(Frame(a[0], TYPE_SOCKET_TX, flags), Stream(a[1..], TYPE_SOCKET_TX, flags),
                       Stream(b, TYPE_SOCKET_TX, flags));
    }
  }

  lemma LinkRankBounds(p: Pair, todo: seq<Message>, flags: bv32)
    requires LinkInv(p, todo, flags)
    ensures |p.receiver.delivered| <= |todo| && LinkRank(p, todo) >= 0
  {
    hide Matches, Lockstep, EncodeHeader, NotificationOf, Message.Body, Message.Size, Stream, Acks, AckInv, Taken, Unwritten;
    var d, n := |p.receiver.delivered|, |p.sender.sent|;
    StreamConcat(p.sender.sent[d..], todo[n..], flags);
    assert p.sender.sent[d..] + todo[n..] == todo[d..];
  }

  lemma SenderStepLowersRank(p: Pair, a: Action, todo: seq<Message>)
    requires Enabled(p, a) && a.OfSender() && NotificationOf(p.flags).AutoNotify? && Inv(p)
    ensures SenderRank(Next(p, a), todo) < SenderRank(p, todo)
    ensures Next(p, a).receiver == p.receiver
  {
    hide EncodeHeader, EncodeWord, DecodeWord, NotificationOf, Message.Body, Message.Sendable, Message.Fits,
         FlowInv, AckInv, ReceiverInv;
  }

  /** A read that completes the body hands over exactly one message. */
  lemma TakeBodyDelivers(p: Pair, n: nat)
    requires Enabled(p, TakeBody(n)) && Inv(p)
    requires |p.receiver.pc.got| + n == p.receiver.rx.recvSize
    ensures var r := Next(p, TakeBody(n)).receiver;
            r.pc.Idle? && |r.delivered| == |p.receiver.delivered| + 1
  {
    hide Inv, ReceiveBody, Matches;
    TakeBodyKeepsInv(p, n);
    NoErrorBranch(Next(p, TakeBody(n)));
  }

  lemma StreamShrinks(todo: seq<Message>, d: nat, flags: bv32)
    requires d < |todo|
    ensures |Stream(todo[d..], TYPE_SOCKET_TX, flags)|
            == HEADER_SIZE + |todo[d].Body()| + |Stream(todo[d + 1..], TYPE_SOCKET_TX, flags)|
  {
    assert todo[d..][1..] == todo[d + 1..];
  }

  lemma TakeBodyLowersRank(p: Pair, n: nat, todo: seq<Message>)
    requires Enabled(p, TakeBody(n)) && Inv(p)
    requires p.sender.sent <= todo
    ensures |Next(p, TakeBody(n)).receiver.delivered| <= |todo|
    ensures ReceiverRank(Next(p, TakeBody(n)), todo) < ReceiverRank(p, todo)
  {
    hide EncodeHeader, EncodeWord, DecodeWord, DecodeHeader, NotificationOf, Message.Body, Message.Sendable, AckInv,
         Matches, ReceiveBody, AfterHeader, Unwritten, Stream, FlowInv;
    var d, got := |p.receiver.delivered|, p.receiver.pc.got + p.tx.unread[..n];
    if |got| == p.receiver.rx.recvSize {
      TakeBodyDelivers(p, n);
      StreamShrinks(todo, d, p.flags);
      assert p.sender.sent[d] == todo[d];
    }
  }

  lemma ReceiverStepLowersRank(p: Pair, a: Action, todo: seq<Message>)
    requires Enabled(p, a) && !a.OfSender() && NotificationOf(p.flags).AutoNotify? && Inv(p)
    requires p.sender.sent <= todo
    ensures |Next(p, a).receiver.delivered| <= |todo|
    ensures ReceiverRank(Next(p, a), todo) < ReceiverRank(p, todo)
    ensures Next(p, a).sender == p.sender
  {
    hide EncodeHeader, EncodeWord, DecodeWord, DecodeHeader, NotificationOf, Message.Body, Message.Sendable, FlowInv, AckInv,
         Stream, Frame, Matches, ReceiveBody, AfterHeader;
    if a.TakeBody? {
      TakeBodyLowersRank(p, a.count, todo);
    }
  }

  function RankFrom(plan: Plan, links: seq<Pair>, j: nat): int
    requires j <= |links| == |plan|
    requires forall k | j <= k < |links| :: |links[k].receiver.delivered| <= |plan[k]|
    decreases |links| - j
  {
    if j == |links| then 0 else LinkRank(links[j], plan[j]) + RankFrom(plan, links, j + 1)
  }

  function Rank(plan: Plan, net: Net): int
    requires |net.links| == |plan|
    requires forall k | 0 <= k < |plan| :: |net.links[k].receiver.delivered| <= |plan[k]|
  {
    RankFrom(plan, net.links, 0)
  }

  lemma RanksDefined(plan: Plan, flags: bv32, net: Net)
    requires NetInv(plan, flags, net)
    ensures forall k | 0 <= k < |plan| :: |net.links[k].receiver.delivered| <= |plan[k]|
    ensures forall k | 0 <= k < |plan| :: LinkRank(net.links[k], plan[k]) >= 0
  {
    hide LinkInv, LinkRank;
    forall k | 0 <= k < |plan|
      ensures |net.links[k].receiver.delivered| <= |plan[k]| && LinkRank(net.links[k], plan[k]) >= 0
    {
      LinkRankBounds(net.links[k], plan[k], flags);
    }
  }

  lemma {:induction false} RankFromNonNegative(plan: Plan, links: seq<Pair>, j: nat)
    requires j <= |links| == |plan|
    requires forall k | j <= k < |links| :: |links[k].receiver.delivered| <= |plan[k]| && LinkRank(links[k], plan[k]) >= 0
    ensures RankFrom(plan, links, j) >= 0
    decreases |links| - j
  {
    hide LinkRank;
    if j == |links| {
    } else {
      RankFromNonNegative(plan, links, j + 1);
    }
  }

  lemma {:induction false} RankFromUpdate(plan: Plan, links: seq<Pair>, j: nat, i: nat, q: Pair)
    requires j <= |links| == |plan| && i < |links|
    requires forall k | j <= k < |links| :: |links[k].receiver.delivered| <= |plan[k]|
    requires |q.receiver.delivered| <= |plan[i]|
    ensures RankFrom(plan, links[i := q], j) ==
            RankFrom(plan, links, j)
            + if j <= i then LinkRank(q, plan[i]) - LinkRank(links[i], plan[i]) else 0
    decreases |links| - j
  {
    hide LinkRank;
    if j == |links| {
    } else {
      RankFromUpdate(plan, links, j + 1, i, q);
    }
  }

  lemma LinkStepLowersRank(p: Pair, a: Action, todo: seq<Message>, flags: bv32)
    requires LinkInv(p, todo, flags) && NotificationOf(flags).AutoNotify?
    requires Enabled(p, a) && FollowsPlan(p, a, todo)
    ensures |p.receiver.delivered| <= |todo| && |Next(p, a).receiver.delivered| <= |todo|
    ensures LinkRank(Next(p, a), todo) < LinkRank(p, todo)
  {
    hide Lockstep, Enabled, Next, NotificationOf, Inv, Message.Body, Stream, Taken;
    LinkRankBounds(p, todo, flags);
    StepKeepsFlags(p, a);
    if a.OfSender() {
      SenderStepLowersRank(p, a, todo);
    } else {
      ReceiverStepLowersRank(p, a, todo);
    }
  }

  lemma MoveLowersRank(shape: Shape, plan: Plan, flags: bv32, net: Net, m: Move)
    requires NetInv(plan, flags, net) && NotificationOf(flags).AutoNotify?
    requires CanMove(shape, plan, net, m)
    ensures NetInv(plan, flags, DoMove(shape, plan, net, m))
    ensures forall k | 0 <= k < |plan| :: |net.links[k].receiver.delivered| <= |plan[k]|
    ensures forall k | 0 <= k < |plan| :: |DoMove(shape, plan, net, m).links[k].receiver.delivered| <= |plan[k]|
    ensures Rank(plan, DoMove(shape, plan, net, m)) < Rank(plan, net)
  {
    hide LinkInv, Enabled, Next, NotificationOf, FollowsPlan, Returns, LinkRank;
    MoveKeepsNetInv(shape, plan, flags, net, m);
    RanksDefined(plan, flags, net);
    RanksDefined(plan, flags, DoMove(shape, plan, net, m));
    LinkStepLowersRank(net.links[m.link], m.action, plan[m.link], flags);
    RankFromUpdate(plan, net.links, 0, m.link, Next(net.links[m.link], m.action));
  }

  /** Whatever the topology, a run that is to carry finitely many messages ends: every step lowers
      a rank that never falls below zero. */
  lemma {:induction false} RunsAreBounded(shape: Shape, plan: Plan, flags: bv32, net: Net, moves: seq<Move>)
    requires NetInv(plan, flags, net) && NotificationOf(flags).AutoNotify?
    requires IsNetRun(shape, plan, net, moves)
    requires forall k | 0 <= k < |plan| :: |net.links[k].receiver.delivered| <= |plan[k]|
    ensures |moves| <= Rank(plan, net)
    decreases |moves|
  {
    hide LinkInv, LinkRank, CanMove, DoMove, NotificationOf, RankFrom;
    RanksDefined(plan, flags, net);
    if moves == [] {
      RankFromNonNegative(plan, net.links, 0);
    } else {
      MoveLowersRank(shape, plan, flags, net, moves[0]);
      RunsAreBounded(shape, plan, flags, DoMove(shape, plan, net, moves[0]), moves[1..]);
    }
  }

  // ----- where a run can stop

  ghost predicate Stuck(shape: Shape, plan: Plan, net: Net) {
    forall m: Move :: !CanMove(shape, plan, net, m)
  }

  predicate LinkDone(p: Pair, todo: seq<Message>) {
    p.sender.pc.Ready? && p.sender.sent == todo && p.sender.acksReceived == |todo| && p.receiver.delivered == todo
  }

  lemma SenderCanMove(shape: Shape, plan: Plan, flags: bv32, net: Net, j: nat)
    requires NetInv(plan, flags, net) && AllUsable(plan, flags)
    requires j < |plan| && (shape.oneSender ==> j == net.sending)
    requires SenderMove(net.links[j], plan[j]) != []
    ensures CanMove(shape, plan, net, Move(j, SenderMove(net.links[j], plan[j])[0]))
  {
    hide LinkInv, Enabled, FollowsPlan, SenderMove;
    SenderMoveEnabled(net.links[j], plan[j], flags);
  }

  lemma ReceiverCanMove(shape: Shape, plan: Plan, flags: bv32, net: Net, j: nat)
    requires NetInv(plan, flags, net)
    requires j < |plan| && (shape.oneReceiver ==> j == net.receiving)
    requires ReceiverMove(net.links[j]) != []
    ensures CanMove(shape, plan, net, Move(j, ReceiverMove(net.links[j])[0]))
  {
    hide LinkInv, Enabled, ReceiverMove;
    ReceiverMoveEnabled(net.links[j], plan[j], flags);
  }

  predicate AllDone(plan: Plan, net: Net) {
    |net.links| == |plan| && forall j | 0 <= j < |plan| :: LinkDone(net.links[j], plan[j])
  }

  lemma StuckSender(shape: Shape, plan: Plan, flags: bv32, net: Net, j: nat)
    requires NetInv(plan, flags, net) && AllUsable(plan, flags) && Stuck(shape, plan, net)
    requires j < |plan| && (shape.oneSender ==> j == net.sending)
    ensures SenderMove(net.links[j], plan[j]) == []
  {
    hide LinkInv, Enabled, FollowsPlan, SenderMove;
    if SenderMove(net.links[j], plan[j]) != [] {
      SenderCanMove(shape, plan, flags, net, j);
    }
  }

  lemma StuckReceiver(shape: Shape, plan: Plan, flags: bv32, net: Net, j: nat)
    requires NetInv(plan, flags, net) && Stuck(shape, plan, net)
    requires j < |plan| && (shape.oneReceiver ==> j == net.receiving)
    ensures ReceiverMove(net.links[j]) == []
  {
    hide LinkInv, Enabled, ReceiverMove;
    if ReceiverMove(net.links[j]) != [] {
      ReceiverCanMove(shape, plan, flags, net, j);
    }
  }

  lemma StuckLink(shape: Shape, plan: Plan, flags: bv32, net: Net, j: nat)
    requires NetInv(plan, flags, net) && AllUsable(plan, flags) && Stuck(shape, plan, net)
    requires NotificationOf(flags).AutoNotify?
    requires j < |plan| && (shape.oneSender ==> j == net.sending) && (shape.oneReceiver ==> j == net.receiving)
    ensures LinkDone(net.links[j], plan[j])
  {
    hide LinkInv, Enabled, ReceiverMove, SenderMove, Stuck;
    StuckSender(shape, plan, flags, net, j);
    StuckReceiver(shape, plan, flags, net, j);
    QuietLinkIsDone(net.links[j], plan[j], flags);
  }

  ghost function RankBound(plan: Plan, flags: bv32, net: Net): nat
    requires NetInv(plan, flags, net)
  {
    RanksDefined(plan, flags, net);
    RankFromNonNegative(plan, net.links, 0);
    Rank(plan, net)
  }

  /** Whatever has happened so far, a network can be carried on to a state in which nobody can move. */
  lemma {:induction false} RunsCanFinish(shape: Shape, plan: Plan, flags: bv32, net: Net) returns (moves: seq<Move>)
    requires NetInv(plan, flags, net) && NotificationOf(flags).AutoNotify?
    requires forall k | 0 <= k < |plan| :: |net.links[k].receiver.delivered| <= |plan[k]|
    ensures IsNetRun(shape, plan, net, moves) && Stuck(shape, plan, NetAfter(shape, plan, net, moves))
    decreases RankBound(plan, flags, net)
  {
    hide NetInv, CanMove, DoMove, NotificationOf, RankFrom;
    if Stuck(shape, plan, net) {
      moves := [];
    } else {
      var m: Move :| CanMove(shape, plan, net, m);
      MoveLowersRank(shape, plan, flags, net, m);
      var rest := RunsCanFinish(shape, plan, flags, DoMove(shape, plan, net, m));
      moves := [m] + rest;
      assert moves[1..] == rest;
    }
  }

  predicate NothingPlanned(plan: Plan) {
    forall j | 0 <= j < |plan| :: plan[j] == []
  }

  lemma NothingToSend(p: Pair, flags: bv32)
    requires LinkInv(p, [], flags) && NotificationOf(flags).AutoNotify?
    ensures LinkDone(p, [])
  {
    hide Inv, NotificationOf;
    NoErrorBranch(p);
    LockstepChain(p);
  }

  // ----- one sender, independent receivers

  /** The sender is in its round-th icom_send, at link net.sending. */
  predicate InRound(net: Net, round: nat) {
    forall j | 0 <= j < |net.links| ::
      var s := net.links[j].sender;
      && |s.sent| == (if j < net.sending then round + 1
                      else if j == net.sending && !s.pc.Ready? then round + 1 else round)
      && (j != net.sending ==> s.pc.Ready?)
  }

  lemma SenderPcAfter(p: Pair, a: Action)
    requires Enabled(p, a) && NotificationOf(p.flags).AutoNotify? && Inv(p)
    ensures !a.OfSender() ==> Next(p, a).sender == p.sender
    ensures a.OfSender() && a.BeginSend? ==> p.sender.pc.Ready?
    ensures a.OfSender() && !a.BeginSend? ==> !p.sender.pc.Ready?
    ensures a.OfSender() && !a.TakeAck? ==> !Next(p, a).sender.pc.Ready?
    ensures |Next(p, a).sender.sent| == |p.sender.sent| + if a.BeginSend? then 1 else 0
  {
    hide EncodeHeader, EncodeWord, DecodeWord, NotificationOf, Message.Body, Message.Sendable, Message.Fits, FlowInv, AckInv,
         ReceiverInv, ReceiveBody, AfterHeader, DecodeHeader;
  }

  lemma MoveKeepsRound(plan: Plan, flags: bv32, net: Net, m: Move, round: nat) returns (round': nat)
    requires NetInv(plan, flags, net) && NotificationOf(flags).AutoNotify? && CanMove(FAN_OUT, plan, net, m)
    requires InRound(net, round)
    ensures InRound(DoMove(FAN_OUT, plan, net, m), round')
  {
    hide Inv, Lockstep, Enabled, Next, NotificationOf, FollowsPlan;
    SenderPcAfter(net.links[m.link], m.action);
    var net' := DoMove(FAN_OUT, plan, net, m);
    round' := if net'.sending != net.sending && net'.sending == 0 then round + 1 else round;
    if |plan| == 1 && Returns(net.links[0], m.action) && m.action.OfSender() {
      round' := round + 1;
    }
  }

  lemma {:induction false} RunKeepsRound(plan: Plan, flags: bv32, net: Net, moves: seq<Move>, round: nat) returns (round': nat)
    requires NetInv(plan, flags, net) && NotificationOf(flags).AutoNotify? && IsNetRun(FAN_OUT, plan, net, moves)
    requires InRound(net, round)
    ensures InRound(NetAfter(FAN_OUT, plan, net, moves), round')
    decreases |moves|
  {
    hide NetInv, CanMove, DoMove, NotificationOf, InRound;
    round' := round;
    if moves == [] {
    } else {
      MoveKeepsNetInv(FAN_OUT, plan, flags, net, moves[0]);
      round' := MoveKeepsRound(plan, flags, net, moves[0], round);
      round' := RunKeepsRound(plan, flags, DoMove(FAN_OUT, plan, net, moves[0]), moves[1..], round');
    }
  }

  /** No link has more to carry than one before it, nor the first more than one message more than the
      last: what a number of calls of icom_send can have planned, the last perhaps in progress. */
  predicate InTurn(plan: Plan) {
    forall i, j | 0 <= i < j < |plan| :: |plan[j]| <= |plan[i]| <= |plan[j]| + 1
  }

  lemma FanOutStuckDone(plan: Plan, flags: bv32, net: Net, round: nat)
    requires NetInv(plan, flags, net) && AllUsable(plan, flags) && NotificationOf(flags).AutoNotify?
    requires InRound(net, round) && Stuck(FAN_OUT, plan, net)
    ensures AllDone(plan, net) <==> InTurn(plan)
  {
    hide Inv, NotificationOf, Stuck;
    var c := net.sending;
    StuckLink(FAN_OUT, plan, flags, net, c);
    assert |plan[c]| == |net.links[c].sender.sent| == round;
    if InTurn(plan) {
      forall j | 0 <= j < |plan| ensures LinkDone(net.links[j], plan[j]) {
        NoErrorBranch(net.links[j]);
        LockstepChain(net.links[j]);
        assert net.links[j].receiver.delivered <= net.links[j].sender.sent <= plan[j];
        assert j < c ==> |plan[c]| <= |plan[j]| <= |plan[c]| + 1;
        assert c < j ==> |plan[j]| <= |plan[c]| <= |plan[j]| + 1;
      }
    }
    if AllDone(plan, net) {
      forall j | 0 <= j < |plan| ensures |plan[j]| == if j < c then round + 1 else round {
        assert LinkDone(net.links[j], plan[j]);
      }
    }
  }

  /** One autonotify sender with any number of links to receivers that keep receiving: every run is
      finite, and where it can go no further everything planned is done exactly if the links were
      planned for in turn. */
  lemma FanOutCompletesExactly(plan: Plan, flags: bv32, moves: seq<Move>)
    requires plan != [] && AllUsable(plan, flags) && NotificationOf(flags).AutoNotify?
    requires IsNetRun(FAN_OUT, plan, NewNet(plan, flags), moves)
    ensures |moves| <= Rank(plan, NewNet(plan, flags))
    ensures var net := NetAfter(FAN_OUT, plan, NewNet(plan, flags), moves);
            Stuck(FAN_OUT, plan, net) ==> (AllDone(plan, net) <==> InTurn(plan))
  {
    hide NetInv, CanMove, DoMove, NotificationOf, RankFrom, Stuck, IsNetRun, NetAfter, AllUsable, InTurn;
    var net0 := NewNet(plan, flags);
    NewNetInv(plan, flags);
    RunsAreBounded(FAN_OUT, plan, flags, net0, moves);
    var round := RunKeepsRound(plan, flags, net0, moves, 0);
    RunKeepsNetInv(FAN_OUT, plan, flags, net0, moves);
    var net := NetAfter(FAN_OUT, plan, net0, moves);
    if Stuck(FAN_OUT, plan, net) {
      FanOutStuckDone(plan, flags, net, round);
    }
  }

  /** In particular, if the same number of messages goes to every receiver, every icom_send returns on
      every link. */
  lemma FanOutCompletes(plan: Plan, flags: bv32, count: nat, moves: seq<Move>)
    requires plan != [] && AllUsable(plan, flags) && NotificationOf(flags).AutoNotify?
    requires forall j | 0 <= j < |plan| :: |plan[j]| == count
    requires IsNetRun(FAN_OUT, plan, NewNet(plan, flags), moves)
    ensures |moves| <= Rank(plan, NewNet(plan, flags))
    ensures var net := NetAfter(FAN_OUT, plan, NewNet(plan, flags), moves);
            Stuck(FAN_OUT, plan, net) ==> AllDone(plan, net)
  {
    hide NotificationOf, RankFrom, Stuck, IsNetRun, NetAfter, AllUsable, AllDone;
    FanOutCompletesExactly(plan, flags, moves);
  }

  // ----- independent senders, one receiver

  /** The receiver is in its round-th icom_recv3, at link net.receiving. */
  predicate InReceiveRound(net: Net, round: nat) {
    forall j | 0 <= j < |net.links| ::
      var r := net.links[j].receiver;
      && |r.delivered| == (if j > net.receiving then round + 1 else round)
      && (j != net.receiving ==> r.pc.Idle?)
  }

  lemma ReceiverPcAfter(p: Pair, a: Action)
    requires Enabled(p, a) && Inv(p)
    ensures a.OfSender() ==> Next(p, a).receiver == p.receiver
    ensures !a.OfSender() && Next(p, a).receiver.pc.Idle? ==> a.TakeBody? || a.NotifySend?
    ensures |Next(p, a).receiver.delivered|
            == |p.receiver.delivered| + if a.TakeBody? && Next(p, a).receiver.pc.Idle? then 1 else 0
  {
    hide EncodeHeader, EncodeWord, DecodeWord, NotificationOf, Message.Body, Message.Sendable, Message.Fits, FlowInv, AckInv,
         ReceiverInv, AfterHeader, DecodeHeader, ReceiveBody;
  }

  lemma MoveKeepsReceiveRound(plan: Plan, flags: bv32, net: Net, m: Move, round: nat) returns (round': nat)
    requires NetInv(plan, flags, net) && NotificationOf(flags).AutoNotify? && CanMove(FAN_IN, plan, net, m)
    requires InReceiveRound(net, round)
    ensures InReceiveRound(DoMove(FAN_IN, plan, net, m), round')
  {
    hide Inv, Lockstep, Next, FollowsPlan, Message.Sendable, Message.Fits;
    ReceiverPcAfter(net.links[m.link], m.action);
    var back := Returns(net.links[m.link], m.action) && !m.action.OfSender();
    round' := if back && net.receiving == 0 then round + 1 else round;
  }

  lemma {:induction false} RunKeepsReceiveRound(plan: Plan, flags: bv32, net: Net, moves: seq<Move>, round: nat)
    returns (round': nat)
    requires NetInv(plan, flags, net) && NotificationOf(flags).AutoNotify? && IsNetRun(FAN_IN, plan, net, moves)
    requires InReceiveRound(net, round)
    ensures InReceiveRound(NetAfter(FAN_IN, plan, net, moves), round')
    decreases |moves|
  {
    hide NetInv, CanMove, DoMove, NotificationOf, InReceiveRound;
    round' := round;
    if moves == [] {
    } else {
      MoveKeepsNetInv(FAN_IN, plan, flags, net, moves[0]);
      round' := MoveKeepsReceiveRound(plan, flags, net, moves[0], round);
      round' := RunKeepsReceiveRound(plan, flags, DoMove(FAN_IN, plan, net, moves[0]), moves[1..], round');
    }
  }

  /** Link j has completed as many sends, or receives, as link i, or one more. */
  predicate LevelOrAhead(i: nat, j: nat) {
    i <= j <= i + 1
  }

  predicate OneApart(i: nat, j: nat) {
    LevelOrAhead(i, j) || LevelOrAhead(j, i)
  }

  /** Sends begun and completed against receives completed on one link. */
  lemma CompletedSends(p: Pair)
    requires Inv(p) && Lockstep(p) && NotificationOf(p.flags).AutoNotify?
    ensures p.sender.acksReceived <= |p.receiver.delivered| <= p.sender.acksReceived + 1
    ensures p.receiver.pc.Idle? && p.receiver.delivered != [] ==> p.sender.acksReceived == |p.receiver.delivered| - 1
    ensures |p.receiver.delivered| <= |p.sender.sent| <= p.sender.acksReceived + 1
  {
    hide Inv, NotificationOf;
    LockstepChain(p);
  }

  lemma RoundIsBarrier(plan: Plan, flags: bv32, net: Net, round: nat, i: nat, j: nat)
    requires NetInv(plan, flags, net) && NotificationOf(flags).AutoNotify? && InReceiveRound(net, round)
    requires i < j < |plan|
    ensures LevelOrAhead(net.links[i].sender.acksReceived, net.links[j].sender.acksReceived)
    ensures LevelOrAhead(|net.links[i].receiver.delivered|, |net.links[j].receiver.delivered|)
    ensures OneApart(|net.links[i].sender.sent|, |net.links[j].sender.sent|)
  {
    hide Inv, NotificationOf, Lockstep;
    CompletedSends(net.links[i]);
    CompletedSends(net.links[j]);
  }

  lemma NewNetReceives(plan: Plan, flags: bv32)
    requires plan != []
    ensures InReceiveRound(NewNet(plan, flags), 0)
  {
  }

  /** A receiver with several autonotify links holds its independent senders together: in every
      reachable state the sends of any two, begun or completed, differ by at most one, and a link that
      is received earlier in the loop is level with the others or one message ahead. */
  lemma FanInIsBarrier(plan: Plan, flags: bv32, moves: seq<Move>, i: nat, j: nat)
    requires plan != [] && NotificationOf(flags).AutoNotify?
    requires IsNetRun(FAN_IN, plan, NewNet(plan, flags), moves)
    requires i < j < |plan|
    ensures var links := NetAfter(FAN_IN, plan, NewNet(plan, flags), moves).links;
            && |links| == |plan|
            && LevelOrAhead(links[i].sender.acksReceived, links[j].sender.acksReceived)
            && LevelOrAhead(|links[i].receiver.delivered|, |links[j].receiver.delivered|)
            && OneApart(|links[i].sender.sent|, |links[j].sender.sent|)
  {
    hide LinkInv, CanMove, DoMove, NotificationOf, IsNetRun, NetAfter, InReceiveRound;
    var net0 := NewNet(plan, flags);
    NewNetInv(plan, flags);
    assert InReceiveRound(net0, 0) by { NewNetReceives(plan, flags); }
    var round := RunKeepsReceiveRound(plan, flags, net0, moves, 0);
    RunKeepsNetInv(FAN_IN, plan, flags, net0, moves);
    RoundIsBarrier(plan, flags, NetAfter(FAN_IN, plan, net0, moves), round, i, j);
  }

  predicate EndOfEqualFanIn(plan: Plan, net: Net, count: nat) {
    && |net.links| == |plan| && net.receiving == |plan| - 1
    && LinkDone(net.links[|plan| - 1], plan[|plan| - 1])
    && forall j | 0 <= j < |plan| ::
         && net.links[j].receiver.delivered == plan[j]
         && (j < |plan| - 1 && count > 0 ==> net.links[j].sender.acksReceived == count - 1)
  }

  lemma FanInStuckLink(plan: Plan, flags: bv32, net: Net)
    requires NetInv(plan, flags, net) && AllUsable(plan, flags) && NotificationOf(flags).AutoNotify?
    requires Stuck(FAN_IN, plan, net)
    ensures LinkDone(net.links[net.receiving], plan[net.receiving])
  {
    hide LinkInv, Stuck, AllUsable, NotificationOf;
    StuckLink(FAN_IN, plan, flags, net, net.receiving);
  }

  lemma EqualFanInEnds(plan: Plan, flags: bv32, net: Net, round: nat, count: nat)
    requires NetInv(plan, flags, net) && AllUsable(plan, flags) && NotificationOf(flags).AutoNotify?
    requires Stuck(FAN_IN, plan, net) && InReceiveRound(net, round)
    requires forall j | 0 <= j < |plan| :: |plan[j]| == count
    ensures EndOfEqualFanIn(plan, net, count)
  {
    hide Inv, Lockstep, Stuck, AllUsable, NotificationOf;
    FanInStuckLink(plan, flags, net);
    assert round == count;
    var last := |plan| - 1;
    NoErrorBranch(net.links[last]);
    assert net.links[last].receiver.delivered <= net.links[last].sender.sent <= plan[last];
    assert net.receiving == last;
    forall j | 0 <= j < |plan|
      ensures net.links[j].receiver.delivered == plan[j]
      ensures j < |plan| - 1 && count > 0 ==> net.links[j].sender.acksReceived == count - 1
    {
      NoErrorBranch(net.links[j]);
      CompletedSends(net.links[j]);
    }
  }

  /** Where a fan-in can go no further, the sender its receiver is waiting for has stopped. When all
      were to send equally many messages, all of these are delivered, yet only the sender on the last
      link sees its last send return: the receiver would acknowledge the others in a round that it
      cannot get into. */
  lemma FanInStops(plan: Plan, flags: bv32, moves: seq<Move>)
    requires plan != [] && AllUsable(plan, flags) && NotificationOf(flags).AutoNotify?
    requires IsNetRun(FAN_IN, plan, NewNet(plan, flags), moves)
    requires Stuck(FAN_IN, plan, NetAfter(FAN_IN, plan, NewNet(plan, flags), moves))
    ensures var net := NetAfter(FAN_IN, plan, NewNet(plan, flags), moves);
            && |net.links| == |plan| && net.receiving < |plan|
            && LinkDone(net.links[net.receiving], plan[net.receiving])
    ensures forall count: nat :: (forall j | 0 <= j < |plan| :: |plan[j]| == count) ==>
              EndOfEqualFanIn(plan, NetAfter(FAN_IN, plan, NewNet(plan, flags), moves), count)
  {
    hide LinkInv, CanMove, DoMove, NotificationOf, IsNetRun, NetAfter, InReceiveRound, AllUsable, Stuck, EndOfEqualFanIn;
    var net0 := NewNet(plan, flags);
    NewNetInv(plan, flags);
    NewNetReceives(plan, flags);
    var round := RunKeepsReceiveRound(plan, flags, net0, moves, 0);
    RunKeepsNetInv(FAN_IN, plan, flags, net0, moves);
    var net := NetAfter(FAN_IN, plan, net0, moves);
    FanInStuckLink(plan, flags, net);
    forall count: nat | forall j | 0 <= j < |plan| :: |plan[j]| == count
      ensures EndOfEqualFanIn(plan, net, count)
    {
      EqualFanInEnds(plan, flags, net, round, count);
    }
  }

  lemma StuckFanInDone(plan: Plan, flags: bv32, net: Net, round: nat)
    requires NetInv(plan, flags, net) && AllUsable(plan, flags) && NotificationOf(flags).AutoNotify?
    requires Stuck(FAN_IN, plan, net) && InReceiveRound(net, round)
    ensures AllDone(plan, net) <==> |plan| == 1 || NothingPlanned(plan)
    ensures forall j | 0 <= j < |plan| && j != net.receiving && plan[j] != [] ::
              net.links[j].sender.acksReceived < |plan[j]|
  {
    hide Inv, Lockstep, Stuck, AllUsable, NotificationOf;
    var c := net.receiving;
    FanInStuckLink(plan, flags, net);
    forall j | 0 <= j < |plan| && j != c && plan[j] != [] ensures net.links[j].sender.acksReceived < |plan[j]| {
      NoErrorBranch(net.links[j]);
      CompletedSends(net.links[j]);
    }
    forall j | 0 <= j < |plan| && plan[j] == [] ensures LinkDone(net.links[j], plan[j]) {
      NothingToSend(net.links[j], flags);
    }
    if AllDone(plan, net) && |plan| > 1 {
      assert forall j | 0 <= j < |plan| && j != c :: plan[j] == [] && |net.links[j].receiver.delivered| == 0;
      assert |plan[c]| == |net.links[c].receiver.delivered| == round;
      var other := if c == 0 then 1 else 0;
      assert |net.links[other].receiver.delivered| == if other > c then round + 1 else round;
    }
  }

  /** Where a fan-in can go no further, everything planned is done if and only if there is a single link
      or nothing was planned at all: on any link but the one being received from, the last message
      planned is not acknowledged. */
  lemma FanInCompletesExactly(plan: Plan, flags: bv32, moves: seq<Move>)
    requires plan != [] && AllUsable(plan, flags) && NotificationOf(flags).AutoNotify?
    requires IsNetRun(FAN_IN, plan, NewNet(plan, flags), moves)
    requires Stuck(FAN_IN, plan, NetAfter(FAN_IN, plan, NewNet(plan, flags), moves))
    ensures var net := NetAfter(FAN_IN, plan, NewNet(plan, flags), moves);
            && |net.links| == |plan|
            && (AllDone(plan, net) <==> |plan| == 1 || NothingPlanned(plan))
            && (forall j | 0 <= j < |plan| && j != net.receiving && plan[j] != [] ::
                  net.links[j].sender.acksReceived < |plan[j]|)
  {
    hide LinkInv, CanMove, DoMove, NotificationOf, IsNetRun, NetAfter, InReceiveRound, AllUsable, Stuck, LinkDone;
    var net0 := NewNet(plan, flags);
    NewNetInv(plan, flags);
    NewNetReceives(plan, flags);
    var round := RunKeepsReceiveRound(plan, flags, net0, moves, 0);
    RunKeepsNetInv(FAN_IN, plan, flags, net0, moves);
    StuckFanInDone(plan, flags, NetAfter(FAN_IN, plan, net0, moves), round);
  }

  // ----- one sender and one receiver

  /** Nothing has been sent but on the first link, and only the last is being received from. */
  predicate AtOddEnds(net: Net) {
    && |net.links| > 1 && net.sending == 0 && net.receiving == |net.links| - 1
    && forall j | 0 <= j < |net.links| ::
         && (j != 0 ==> net.links[j].sender.sent == [])
         && (j != |net.links| - 1 ==> net.links[j].receiver.acksSent == 0 && net.links[j].receiver.delivered == []
                                      && net.links[j].receiver.pc.Idle?)
  }

  lemma AckReturnsCount(p: Pair, a: Action)
    requires Enabled(p, a) && a.TakeAck? && Next(p, a).sender.pc.Ready?
    ensures Next(p, a).sender.acksReceived == p.sender.acksReceived + 1
    ensures Next(p, a).receiver == p.receiver
  {
  }

  lemma MoveKeepsOddEnds(plan: Plan, flags: bv32, net: Net, m: Move)
    requires NetInv(plan, flags, net) && NotificationOf(flags).AutoNotify? && CanMove(PAIRED, plan, net, m)
    requires AtOddEnds(net)
    ensures AtOddEnds(DoMove(PAIRED, plan, net, m))
  {
    hide Inv, Lockstep, Enabled, Next, NotificationOf, FollowsPlan;
    MoveKeepsNetInv(PAIRED, plan, flags, net, m);
    var p := net.links[m.link];
    NoErrorBranch(p);
    NoErrorBranch(Next(p, m.action));
    SenderPcAfter(p, m.action);
    ReceiverPcAfter(p, m.action);
    if Returns(p, m.action) && m.action.OfSender() {
      AckReturnsCount(p, m.action);
      assert false;
    }
  }

  lemma {:induction false} RunKeepsOddEnds(plan: Plan, flags: bv32, net: Net, moves: seq<Move>)
    requires NetInv(plan, flags, net) && NotificationOf(flags).AutoNotify? && IsNetRun(PAIRED, plan, net, moves)
    requires AtOddEnds(net)
    ensures AtOddEnds(NetAfter(PAIRED, plan, net, moves))
    decreases |moves|
  {
    hide NetInv, CanMove, DoMove, NotificationOf, AtOddEnds;
    if moves == [] {
    } else {
      MoveKeepsNetInv(PAIRED, plan, flags, net, moves[0]);
      MoveKeepsOddEnds(plan, flags, net, moves[0]);
      RunKeepsOddEnds(plan, flags, DoMove(PAIRED, plan, net, moves[0]), moves[1..]);
    }
  }

  lemma OddEndsNeverReturn(plan: Plan, flags: bv32, net: Net, j: nat)
    requires NetInv(plan, flags, net) && NotificationOf(flags).AutoNotify? && AtOddEnds(net)
    requires j < |plan|
    ensures net.links[j].sender.acksReceived == 0 && net.links[j].receiver.delivered == []
  {
    hide Inv, NotificationOf, Lockstep;
    LockstepChain(net.links[j]);
  }

  lemma WaitsForFirstAck(p: Pair, todo: seq<Message>, flags: bv32)
    requires LinkInv(p, todo, flags) && NotificationOf(flags).AutoNotify?
    requires todo != [] && p.sender.acksReceived == 0 && SenderMove(p, todo) == []
    ensures p.sender.pc.AwaitAck?
  {
    hide Inv, NotificationOf;
    NoErrorBranch(p);
  }

  /** Two processes joined by two or more autonotify links block each other: the one sends on the
      first link, the other receives on the last. In no run does any send or receive return, and
      where the run stops the sender waits for the acknowledgement of its first message. */
  lemma PairedLinksBlock(plan: Plan, flags: bv32, moves: seq<Move>)
    requires |plan| > 1 && AllUsable(plan, flags) && NotificationOf(flags).AutoNotify?
    requires IsNetRun(PAIRED, plan, NewNet(plan, flags), moves)
    ensures var net := NetAfter(PAIRED, plan, NewNet(plan, flags), moves);
            && |net.links| == |plan|
            && (forall j | 0 <= j < |plan| ::
                  net.links[j].sender.acksReceived == 0 && net.links[j].receiver.delivered == [])
            && (Stuck(PAIRED, plan, net) && plan[0] != [] ==> net.links[0].sender.pc.AwaitAck?)
  {
    hide LinkInv, CanMove, DoMove, NotificationOf, IsNetRun, NetAfter, AllUsable, Stuck;
    var net0 := NewNet(plan, flags);
    NewNetInv(plan, flags);
    RunKeepsOddEnds(plan, flags, net0, moves);
    RunKeepsNetInv(PAIRED, plan, flags, net0, moves);
    var net := NetAfter(PAIRED, plan, net0, moves);
    forall j | 0 <= j < |plan|
      ensures net.links[j].sender.acksReceived == 0 && net.links[j].receiver.delivered == []
    {
      OddEndsNeverReturn(plan, flags, net, j);
    }
    if Stuck(PAIRED, plan, net) && plan[0] != [] {
      StuckSender(PAIRED, plan, flags, net, 0);
      WaitsForFirstAck(net.links[0], plan[0], flags);
    }
  }

  /** Where such a pair of processes can go no further, everything planned has been done if and only
      if there is a single link or nothing was planned at all. */
  lemma PairedCompletesExactly(plan: Plan, flags: bv32, moves: seq<Move>)
    requires plan != [] && AllUsable(plan, flags) && NotificationOf(flags).AutoNotify?
    requires IsNetRun(PAIRED, plan, NewNet(plan, flags), moves)
    requires Stuck(PAIRED, plan, NetAfter(PAIRED, plan, NewNet(plan, flags), moves))
    ensures AllDone(plan, NetAfter(PAIRED, plan, NewNet(plan, flags), moves)) <==> |plan| == 1 || NothingPlanned(plan)
  {
    hide LinkInv, CanMove, DoMove, NotificationOf, IsNetRun, NetAfter, AllUsable, Stuck;
    var net0 := NewNet(plan, flags);
    NewNetInv(plan, flags);
    RunKeepsNetInv(PAIRED, plan, flags, net0, moves);
    var net := NetAfter(PAIRED, plan, net0, moves);
    if |plan| == 1 {
      StuckLink(PAIRED, plan, flags, net, 0);
    } else {
      PairedLinksBlock(plan, flags, moves);
      forall j | 0 <= j < |plan| && plan[j] == [] ensures LinkDone(net.links[j], plan[j]) {
        NothingToSend(net.links[j], flags);
      }
    }
  }
}
