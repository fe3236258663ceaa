/** The purpose of the acknowledgements: a zero-copy receiver works in the sender's memory, and the
    sender must not overwrite a buffer before the receiver is done with it. */
module ZeroCopy {
  import opened Wire
  import opened FlagBits
  import opened MessageStream
  import opened LinkProtocol

  /** snapshots[k] is what the buffer of message k held when its send began. */
  datatype System = System(pair: Pair, memory: map<nat, seq<byte>>, snapshots: seq<seq<byte>>)

  datatype Event =
    | Step(action: Action)
    | Fill(address: nat, content: seq<byte>)   // the sending program prepares a buffer

  function NewSystem(flags: bv32): System {
    System(NewPair(flags), map[], [])
  }

  function Content(memory: map<nat, seq<byte>>, address: nat): seq<byte> {
    if address in memory then memory[address] else []
  }

  /** How the programs on both sides use a link with manual notification: the sender waits for the
      acknowledgement of one message before it touches buffers or sends again, the receiver
      acknowledges a message once, and before it receives the next. */
  predicate Disciplined(p: Pair, a: Action) {
    NotificationOf(p.flags).Notify? ==>
      match a
      case BeginSend(_) => p.sender.acksReceived == |p.sender.sent|
      case BeginReceive => p.receiver.acksSent == |p.receiver.delivered|
      case NotifySend => p.receiver.acksSent < |p.receiver.delivered|
      case _ => true
  }

  predicate MayFill(p: Pair) {
    p.sender.pc.Ready? && (NotificationOf(p.flags).Notify? ==> p.sender.acksReceived == |p.sender.sent|)
  }

  predicate CanHappen(s: System, e: Event) {
    match e
    case Step(a) => Enabled(s.pair, a) && Disciplined(s.pair, a)
    case Fill(_, _) => MayFill(s.pair)
  }

  function Happen(s: System, e: Event): System
    requires CanHappen(s, e)
  {
    match e
    case Step(BeginSend(Zero(pointer, _))) =>
      System(Next(s.pair, e.action), s.memory, s.snapshots + [Content(s.memory, pointer)])
    case Step(a) => s.(pair := Next(s.pair, a))
    case Fill(address, content) => s.(memory := s.memory[address := content])
  }

  predicate IsHistory(s: System, events: seq<Event>)
    decreases |events|
  {
    events == [] || (CanHappen(s, events[0]) && IsHistory(Happen(s, events[0]), events[1..]))
  }

  function Outcome(s: System, events: seq<Event>): System
    requires IsHistory(s, events)
    decreases |events|
  {
    if events == [] then s else Outcome(Happen(s, events[0]), events[1..])
  }

  /** The receiving program has a message and may still be working on its buffer. */
  predicate Holding(p: Pair) {
    && p.receiver.pc.Idle?
    && p.receiver.delivered != []
    && (NotificationOf(p.flags).Notify? ==> p.receiver.acksSent < |p.receiver.delivered|)
  }

  /** The buffer the receiver was given last still holds what it held when that message was sent. */
  predicate HeldIntact(s: System) {
    Holding(s.pair) ==>
      && |s.pair.receiver.delivered| <= |s.snapshots|
      && var m := Last(s.pair.receiver.delivered);
         m.Zero? && Content(s.memory, m.pointer) == s.snapshots[|s.pair.receiver.delivered| - 1]
  }

  /** What the last fill of the address wrote, or what was there before. */
  function LastWritten(events: seq<Event>, address: nat, before: seq<byte>): seq<byte> {
    if events == [] then before
    else
      var now := if events[0].Fill? && events[0].address == address then events[0].content else before;
      LastWritten(events[1..], address, now)
  }

  /** Nothing but the sending program's fills changes the memory, and each of them does. */
  lemma {:induction false} MemoryIsLastWritten(s: System, events: seq<Event>, address: nat)
    requires IsHistory(s, events)
    ensures Content(Outcome(s, events).memory, address) == LastWritten(events, address, Content(s.memory, address))
    decreases |events|
  {
    hide CanHappen, Next;
    if events == [] {
    } else {
      MemoryIsLastWritten(Happen(s, events[0]), events[1..], address);
    }
  }

  // ----- the counts move in lockstep

  predicate SenderCounts(p: Pair) {
    var sent, acked := |p.sender.sent|, p.sender.acksReceived;
    if NotificationOf(p.flags).AutoNotify? then
      sent == if p.sender.pc.Ready? then acked else acked + 1
    else
      && sent <= acked + 1
      && (p.sender.pc.HeaderNext? || p.sender.pc.BodyNext? ==> sent == acked + 1)
  }

  predicate ReceiverCounts(p: Pair) {
    var got, acked := |p.receiver.delivered|, p.receiver.acksSent;
    if NotificationOf(p.flags).AutoNotify? then
      match p.receiver.pc
      case Idle => acked == (if got == 0 then 0 else got - 1) && (p.receiver.armed <==> got > 0)
      case AckNext => got > 0 && acked == got - 1 && p.receiver.armed
      case _ => acked == got && p.receiver.armed
    else
      match p.receiver.pc
      case Idle => got <= acked + 1 && acked <= got
      case AckNext => false
      case _ => acked == got
  }

  predicate Lockstep(p: Pair) {
    SenderCounts(p) && ReceiverCounts(p)
  }

  lemma SenderStepCounts(p: Pair, a: Action)
    requires a.OfSender() && SenderEnabled(p, a) && Disciplined(p, a) && !NotificationOf(p.flags).Plain?
    requires SenderCounts(p) && !SenderNext(p, a).sender.pc.BadAck?
    ensures var q := SenderNext(p, a); SenderCounts(q) && q.receiver == p.receiver && q.flags == p.flags
  {
    hide EncodeWord, DecodeWord, EncodeHeader, NotificationOf, Message.Sendable, Message.Fits, Message.Body;
  }

  lemma ReceiverStepCounts(p: Pair, a: Action)
    requires !a.OfSender() && ReceiverEnabled(p, a) && Disciplined(p, a) && !NotificationOf(p.flags).Plain?
    requires ReceiverCounts(p) && !ReceiverNext(p, a).receiver.pc.Crashed?
    ensures var q := ReceiverNext(p, a); ReceiverCounts(q) && q.sender == p.sender && q.flags == p.flags
  {
    hide EncodeWord, DecodeHeader, ReceiveBody, AfterHeader, NotificationOf;
  }

  lemma NoErrorBranch(p: Pair)
    requires Inv(p)
    ensures !p.receiver.pc.Crashed? && !p.sender.pc.BadAck?
    ensures p.receiver.delivered <= p.sender.sent
    ensures p.sender.acksReceived <= p.receiver.acksSent
  {
  }

  lemma StepKeepsLockstep(p: Pair, a: Action)
    requires Inv(p) && Lockstep(p) && !NotificationOf(p.flags).Plain?
    requires Enabled(p, a) && Disciplined(p, a)
    ensures Lockstep(Next(p, a))
  {
    hide Inv, SenderEnabled, SenderNext, ReceiverEnabled, ReceiverNext, Disciplined, NotificationOf;
    StepKeepsInv(p, a);
    NoErrorBranch(Next(p, a));
    if a.OfSender() {
      SenderStepCounts(p, a);
    } else {
      ReceiverStepCounts(p, a);
    }
  }

  /** Acknowledgements received, acknowledgements sent, messages received and messages sent: each
      count is at most the next, and the last at most one above the first. */
  lemma LockstepChain(p: Pair)
    requires Inv(p) && Lockstep(p)
    ensures p.sender.acksReceived <= p.receiver.acksSent <= |p.receiver.delivered| <= |p.sender.sent|
            <= p.sender.acksReceived + 1
  {
    hide Inv;
    NoErrorBranch(p);
  }

  // ----- the buffer in use is left alone

  /** While a message is not acknowledged, its buffer is as it was sent. */
  predicate BufferKept(s: System) {
    && |s.snapshots| == |s.pair.sender.sent|
    && (|s.pair.sender.sent| == s.pair.sender.acksReceived + 1 ==>
          var m := Last(s.pair.sender.sent);
          m.Zero? && Content(s.memory, m.pointer) == s.snapshots[|s.snapshots| - 1])
  }

  predicate SystemInv(s: System, flags: bv32) {
    s.pair.flags == flags && Inv(s.pair) && Lockstep(s.pair) && BufferKept(s)
  }

  lemma OnlySendsAdd(p: Pair, a: Action)
    requires Enabled(p, a) && !a.BeginSend?
    ensures Next(p, a).sender.sent == p.sender.sent
    ensures Next(p, a).sender.acksReceived == p.sender.acksReceived || Next(p, a).sender.acksReceived == p.sender.acksReceived + 1
  {
  }

  lemma StepKeepsBuffer(s: System, e: Event)
    requires SystemInv(s, s.pair.flags) && IsZero(s.pair.flags) && !NotificationOf(s.pair.flags).Plain?
    requires CanHappen(s, e)
    ensures BufferKept(Happen(s, e))
  {
    hide Inv, ReceiverEnabled, ReceiverNext, ReceiverCounts, NotificationOf, IsZero, EncodeWord, EncodeHeader, DecodeWord,
         Message.Body;
    LockstepChain(s.pair);
    if e.Step? && !e.action.BeginSend? {
      OnlySendsAdd(s.pair, e.action);
    }
  }

  lemma StepKeepsSystemInv(s: System, e: Event)
    requires SystemInv(s, s.pair.flags) && IsZero(s.pair.flags) && !NotificationOf(s.pair.flags).Plain?
    requires CanHappen(s, e)
    ensures SystemInv(Happen(s, e), s.pair.flags)
  {
    hide Inv, Lockstep, BufferKept, Enabled, Next, MayFill, Disciplined, NotificationOf, IsZero;
    StepKeepsBuffer(s, e);
    if e.Step? {
      StepKeepsInv(s.pair, e.action);
      StepKeepsLockstep(s.pair, e.action);
      StepKeepsFlags(s.pair, e.action);
    }
  }

  lemma {:induction false} HistoryKeepsSystemInv(s: System, events: seq<Event>)
    requires SystemInv(s, s.pair.flags) && IsZero(s.pair.flags) && !NotificationOf(s.pair.flags).Plain?
    requires IsHistory(s, events)
    ensures SystemInv(Outcome(s, events), s.pair.flags)
    decreases |events|
  {
    hide Inv, Lockstep, BufferKept, CanHappen, Happen, NotificationOf, IsZero;
    if events == [] {
    } else {
      StepKeepsSystemInv(s, events[0]);
      HistoryKeepsSystemInv(Happen(s, events[0]), events[1..]);
    }
  }

  lemma SystemInvHeldIntact(s: System, flags: bv32)
    requires SystemInv(s, flags) && !NotificationOf(flags).Plain?
    ensures HeldIntact(s)
    ensures Holding(s.pair) ==> s.pair.receiver.delivered == s.pair.sender.sent && !MayFill(s.pair)
  {
    hide Inv, NotificationOf;
    LockstepChain(s.pair);
    NoErrorBranch(s.pair);
  }

  lemma NewSystemInv(flags: bv32)
    ensures SystemInv(NewSystem(flags), flags)
  {
    NewPairInv(flags);
  }

  /** Without manual notification every step that the link allows can happen. */
  lemma StepsHappen(s: System, a: Action)
    requires !NotificationOf(s.pair.flags).Notify?
    ensures CanHappen(s, Step(a)) <==> Enabled(s.pair, a)
  {
    hide Enabled, NotificationOf;
  }

  /** With notification the sender can fill a buffer exactly when it is in its own code and everything it
      sent has been acknowledged. */
  lemma FillableExactly(p: Pair, address: nat, content: seq<byte>, memory: map<nat, seq<byte>>, snapshots: seq<seq<byte>>)
    requires Inv(p) && Lockstep(p) && !NotificationOf(p.flags).Plain?
    ensures CanHappen(System(p, memory, snapshots), Fill(address, content))
            <==> p.sender.pc.Ready? && p.sender.acksReceived == |p.sender.sent|
  {
    hide Inv;
  }

  /** In every interleaving, under autonotify and under disciplined manual notification: as long as
      the receiver holds message k, its buffer contains what was sent as message k, and the sender
      is not in a position to change any buffer. */
  lemma HeldBufferIntact(flags: bv32, events: seq<Event>)
    requires IsZero(flags) && !NotificationOf(flags).Plain?
    requires IsHistory(NewSystem(flags), events)
    ensures var s := Outcome(NewSystem(flags), events);
            && HeldIntact(s)
            && (Holding(s.pair) ==> s.pair.receiver.delivered == s.pair.sender.sent && !MayFill(s.pair))
            && s.pair.sender.acksReceived <= s.pair.receiver.acksSent <= |s.pair.receiver.delivered|
               <= |s.pair.sender.sent| <= s.pair.sender.acksReceived + 1
  {
    hide Inv, Lockstep, BufferKept, CanHappen, Happen, HeldIntact, MayFill;
    NewSystemInv(flags);
    HistoryKeepsSystemInv(NewSystem(flags), events);
    var s := Outcome(NewSystem(flags), events);
    SystemInvHeldIntact(s, flags);
    LockstepChain(s.pair);
  }

  // ----- without acknowledgements it is not

  lemma {:induction false} HistoryExtends(s: System, events: seq<Event>, e: Event)
    requires IsHistory(s, events) && CanHappen(Outcome(s, events), e)
    ensures IsHistory(s, events + [e])
    ensures Outcome(s, events + [e]) == Happen(Outcome(s, events), e)
    decreases |events|
  {
    hide CanHappen, Happen;
    if events == [] {
      assert [e][1..] == [];
      assert events + [e] == [e];
    } else {
      HistoryExtends(Happen(s, events[0]), events[1..], e);
      assert (events + [e])[1..] == events[1..] + [e];
    }
  }

  /** The whole first message is on the wire and the sender is back in its own code. */
  lemma PlainFirstSend(flags: bv32, m: Message) returns (events: seq<Event>)
    requires NotificationOf(flags).Plain? && m.Zero? && Usable(m, flags)
    ensures IsHistory(NewSystem(flags), events)
    ensures var s := Outcome(NewSystem(flags), events);
            && s.memory == map[] && s.snapshots == [[]]
            && s.pair.flags == flags && s.pair.sender == Sender(Ready, [m], 0)
            && s.pair.receiver == Receiver(Idle, FreshRx(flags), false, [], 0)
            && s.pair.tx.unread == Frame(m, TYPE_SOCKET_TX, flags)
  {
    hide EncodeHeader, EncodeWord, EncodePointer, Message.Size, Message.Body, Message.Sendable, Message.Fits, IsZero;
    var s0 := NewSystem(flags);
    HistoryExtends(s0, [], Step(BeginSend(m)));
    HistoryExtends(s0, [Step(BeginSend(m))], Step(WriteHeader));
    HistoryExtends(s0, [Step(BeginSend(m)), Step(WriteHeader)], Step(WriteBody));
    events := [Step(BeginSend(m)), Step(WriteHeader), Step(WriteBody)];
    assert [] + [Step(BeginSend(m))] == [Step(BeginSend(m))];
  }

  lemma {:induction false} HistoryKeepsInv(s: System, events: seq<Event>)
    requires Inv(s.pair) && IsHistory(s, events)
    ensures Inv(Outcome(s, events).pair)
    decreases |events|
  {
    hide Inv, Enabled, Next;
    if events == [] {
    } else {
      if events[0].Step? {
        StepKeepsInv(s.pair, events[0].action);
      }
      HistoryKeepsInv(Happen(s, events[0]), events[1..]);
    }
  }

  lemma HeaderThenBody(p: Pair, m: Message)
    requires Inv(p) && p.sender == Sender(Ready, [m], 0) && p.receiver.delivered == []
    requires p.receiver.pc == HeaderPart([])
    requires |p.tx.unread| == HEADER_SIZE + |m.Body()|
    ensures Enabled(p, TakeHeader(HEADER_SIZE))
    ensures var q := Next(p, TakeHeader(HEADER_SIZE));
            q.receiver.pc == BodyPart([]) && q.receiver.rx.recvSize == |m.Body()| == |q.tx.unread|
            && q.sender == p.sender && q.receiver.delivered == []
  {
    hide EncodeWord, EncodeHeader, DecodeHeader, DecodeWord, Stream, Frame, Matches, Message.Body, AfterHeader;
    StepKeepsInv(p, TakeHeader(HEADER_SIZE));
  }

  lemma BodyThenIdle(p: Pair, m: Message)
    requires Inv(p) && p.sender == Sender(Ready, [m], 0) && p.receiver.delivered == []
    requires p.receiver.pc == BodyPart([]) && p.receiver.rx.recvSize == |m.Body()| == |p.tx.unread| > 0
    ensures var n := |m.Body()|;
            && Enabled(p, TakeBody(n))
            && Next(p, TakeBody(n)).receiver.pc.Idle? && Next(p, TakeBody(n)).receiver.delivered == [m]
            && Next(p, TakeBody(n)).sender == p.sender
  {
    hide EncodeWord, EncodeHeader, DecodeHeader, DecodeWord, Stream, Frame, Matches, Message.Body, ReceiveBody;
    StepKeepsInv(p, TakeBody(|m.Body()|));
    NoErrorBranch(Next(p, TakeBody(|m.Body()|)));
  }

  lemma PlainFirstReceive(s: System, m: Message) returns (events: seq<Event>)
    requires Inv(s.pair) && NotificationOf(s.pair.flags).Plain? && m.Zero?
    requires s.pair.sender == Sender(Ready, [m], 0) && s.pair.receiver.pc.Idle? && s.pair.receiver.delivered == []
    requires s.pair.tx.unread == Frame(m, TYPE_SOCKET_TX, s.pair.flags)
    ensures |events| == 3 && CanHappen(s, events[0])
    ensures var s1 := Happen(s, events[0]); CanHappen(s1, events[1])
    ensures var s2 := Happen(Happen(s, events[0]), events[1]); CanHappen(s2, events[2])
    ensures var s3 := Happen(Happen(Happen(s, events[0]), events[1]), events[2]);
            && s3.memory == s.memory && s3.snapshots == s.snapshots && s3.pair.flags == s.pair.flags
            && s3.pair.sender == s.pair.sender && s3.pair.receiver.pc.Idle? && s3.pair.receiver.delivered == [m]
  {
    hide EncodeWord, EncodeHeader, EncodePointer, Inv;
    events := [Step(BeginReceive), Step(TakeHeader(HEADER_SIZE)), Step(TakeBody(POINTER_SIZE))];
    var p1 := Next(s.pair, BeginReceive);
    StepKeepsInv(s.pair, BeginReceive);
    HeaderThenBody(p1, m);
    StepKeepsInv(p1, TakeHeader(HEADER_SIZE));
    BodyThenIdle(Next(p1, TakeHeader(HEADER_SIZE)), m);
  }

  lemma HistoryExtendsBy3(s0: System, events: seq<Event>, a: Event, b: Event, c: Event) returns (all: seq<Event>)
    requires IsHistory(s0, events) && CanHappen(Outcome(s0, events), a)
    requires CanHappen(Happen(Outcome(s0, events), a), b)
    requires CanHappen(Happen(Happen(Outcome(s0, events), a), b), c)
    ensures IsHistory(s0, all) && Outcome(s0, all) == Happen(Happen(Happen(Outcome(s0, events), a), b), c)
  {
    hide CanHappen, Happen, IsHistory, Outcome;
    HistoryExtends(s0, events, a);
    HistoryExtends(s0, events + [a], b);
    HistoryExtends(s0, events + [a] + [b], c);
    all := events + [a] + [b] + [c];
  }

  lemma FillBreaksHeld(s: System, m: Message)
    requires NotificationOf(s.pair.flags).Plain? && m.Zero?
    requires s.pair.sender.pc.Ready? && s.pair.receiver.pc.Idle? && s.pair.receiver.delivered == [m]
    requires s.snapshots == [[]]
    ensures CanHappen(s, Fill(m.pointer, [1])) && !HeldIntact(Happen(s, Fill(m.pointer, [1])))
  {
    assert Content(s.memory[m.pointer := [1]], m.pointer) == [1];
  }

  /** Without notification the sender can reach its buffer while the receiver works on it. */
  lemma PlainOverwrites(flags: bv32) returns (events: seq<Event>)
    requires IsZero(flags) && NotificationOf(flags).Plain?
    ensures IsHistory(NewSystem(flags), events)
    ensures !HeldIntact(Outcome(NewSystem(flags), events))
  {
    hide CanHappen, Happen, IsHistory, Outcome, HeldIntact, Inv, Frame, EncodePointer;
    var m, s0 := Zero(4096, POINTER_SIZE), NewSystem(flags);
    events := PlainFirstSend(flags, m);
    var s := Outcome(s0, events);
    NewPairInv(flags);
    HistoryKeepsInv(s0, events);
    var received := PlainFirstReceive(s, m);
    events := HistoryExtendsBy3(s0, events, received[0], received[1], received[2]);
    var held := Outcome(s0, events);
    FillBreaksHeld(held, m);
    HistoryExtends(s0, events, Fill(m.pointer, [1]));
    events := events + [Fill(m.pointer, [1])];
  }

  /** So on a zero-copy link the guarantee holds over all runs if and only if the link was
      configured with notify or autonotify. */
  lemma IntactExactlyWithNotification(flags: bv32)
    requires IsZero(flags)
    ensures (forall events: seq<Event> | IsHistory(NewSystem(flags), events) ::
               HeldIntact(Outcome(NewSystem(flags), events)))
            <==> !NotificationOf(flags).Plain?
  {
    hide IsHistory, Outcome, HeldIntact;
    if NotificationOf(flags).Plain? {
      var events := PlainOverwrites(flags);
    } else {
      forall events: seq<Event> | IsHistory(NewSystem(flags), events)
        ensures HeldIntact(Outcome(NewSystem(flags), events))
      {
        HeldBufferIntact(flags, events);
      }
    }
  }
}
