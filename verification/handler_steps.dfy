/** The step system of a link and the handlers of a link end are two descriptions of the same code.
    Here they are tied together: what a send or a receive comes to in the step system, one socket
    operation at a time and with the other end at work in between, is what the handler's contract
    says of the call as a whole. */
module HandlerSteps {
  import opened Sequences
  import opened Wire
  import opened FlagBits
  import opened MessageStream
  import opened LinkProtocol
  import LinkSocket

  // ----- a receive

  /** A receive at its beginning: the receive state, the bytes that are still unread or that the
      sender writes later, and what has been delivered and acknowledged so far. */
  datatype Call = Call(rx: Rx, ahead: seq<byte>, delivered: seq<Message>, armed: bool, acks: seq<byte>)

  function CallAt(p: Pair, coming: seq<byte>): Call {
    Call(p.receiver.rx, p.tx.unread + coming, p.receiver.delivered, p.receiver.armed, p.ack.history)
  }

  function WrittenBy(p: Pair, a: Action): seq<byte>
    requires Enabled(p, a)
  {
    match a
    case WriteHeader => EncodeHeader(HeaderOf(Last(p.sender.sent), p.flags))
    case WriteBody => Last(p.sender.sent).Body()
    case _ => []
  }

  function WrittenDuring(p: Pair, run: seq<Action>): seq<byte>
    requires IsRun(p, run)
    decreases |run|
  {
    if run == [] then [] else WrittenBy(p, run[0]) + WrittenDuring(Next(p, run[0]), run[1..])
  }

  /** The receiver does nothing but carry on with the call it is in. */
  predicate OneCall(p: Pair, run: seq<Action>)
    requires IsRun(p, run)
    decreases |run|
  {
    run == [] || ((run[0].OfSender() || !p.receiver.pc.Idle?) && OneCall(Next(p, run[0]), run[1..]))
  }

  /** How far the call has come, if coming is what the sender has still to write. */
  predicate Reading(c: Call, p: Pair, coming: seq<byte>) {
    var r, rest := p.receiver, p.tx.unread + coming;
    match r.pc
    case AckNext => r.rx == c.rx && r.delivered == c.delivered && rest == c.ahead
    case HeaderPart(got) => r.rx == c.rx && r.delivered == c.delivered && |got| < HEADER_SIZE && got + rest == c.ahead
    case BodyPart(got) =>
      && r.delivered == c.delivered && |got| <= r.rx.recvSize
      && |c.ahead| >= HEADER_SIZE && r.rx == AfterHeader(c.rx, DecodeHeader(c.ahead[..HEADER_SIZE]))
      && got + rest == c.ahead[HEADER_SIZE..]
    case Idle =>
      && r.delivered != [] && r.delivered == c.delivered + [Last(r.delivered)]
      && ReceiveOne(c.rx, c.ahead) == Received(Last(r.delivered), r.rx, rest)
    case Crashed => ReceiveOne(c.rx, c.ahead).OutOfBounds?
  }

  /** What the call has acknowledged so far. */
  predicate Acknowledging(c: Call, p: Pair) {
    var auto := NotificationOf(p.flags).AutoNotify?;
    && p.receiver.armed == (auto || c.armed)
    && (p.receiver.pc.AckNext? ==> auto && c.armed)
    && p.ack.history == c.acks + if auto && c.armed && !p.receiver.pc.AckNext? then EncodeWord(ACK) else []
  }

  lemma SenderWrites(p: Pair, a: Action)
    requires Enabled(p, a) && a.OfSender()
    ensures var q := Next(p, a);
            q.receiver == p.receiver && q.tx.unread == p.tx.unread + WrittenBy(p, a) && q.ack.history == p.ack.history
            && q.flags == p.flags
  {
    hide EncodeHeader, DecodeWord, EncodeWord, Message.Body;
    assert p.tx.unread + [] == p.tx.unread;
  }

  /** Whether a body is good, and which message it is, does not depend on what follows it. */
  lemma BodyDecides(rx: Rx, got: seq<byte>, rest: seq<byte>)
    requires |got| == rx.recvSize
    ensures match ReceiveBody(rx, got)
            case Received(m, _, _) => ReceiveBody(rx, got + rest) == Received(m, rx, rest)
            case _ => ReceiveBody(rx, got + rest).OutOfBounds?
  {
    hide DecodePointer, IsZero;
    var s := got + rest;
    assert s[..rx.recvSize] == got && s[rx.recvSize..] == rest;
    assert got[..rx.recvSize] == got;
  }

  lemma TakenMoves(got: seq<byte>, unread: seq<byte>, n: nat, coming: seq<byte>)
    requires n <= |unread|
    ensures (got + unread[..n]) + (unread[n..] + coming) == got + (unread + coming)
  {
  }

  lemma HeaderStep(c: Call, p: Pair, n: nat, coming: seq<byte>)
    requires Reading(c, p, coming) && Enabled(p, TakeHeader(n))
    ensures Reading(c, Next(p, TakeHeader(n)), coming)
  {
    hide DecodeHeader, AfterHeader, ReceiveOne;
    TakenMoves(p.receiver.pc.got, p.tx.unread, n, coming);
    var got, rest := p.receiver.pc.got + p.tx.unread[..n], p.tx.unread[n..] + coming;
    assert c.ahead == got + rest;
    if |got| == HEADER_SIZE {
      assert c.ahead[..HEADER_SIZE] == got && c.ahead[HEADER_SIZE..] == [] + rest;
    }
  }

  lemma BodyStep(c: Call, p: Pair, n: nat, coming: seq<byte>)
    requires Reading(c, p, coming) && Enabled(p, TakeBody(n))
    ensures Reading(c, Next(p, TakeBody(n)), coming)
  {
    hide DecodeHeader, AfterHeader, ReceiveBody;
    TakenMoves(p.receiver.pc.got, p.tx.unread, n, coming);
    var got, rest := p.receiver.pc.got + p.tx.unread[..n], p.tx.unread[n..] + coming;
    if |got| == p.receiver.rx.recvSize {
      BodyDecides(p.receiver.rx, got, rest);
    }
  }

  lemma UnreadGrows(c: Call, p: Pair, q: Pair, written: seq<byte>, coming: seq<byte>)
    requires Reading(c, p, written + coming)
    requires q.receiver == p.receiver && q.tx.unread == p.tx.unread + written
    ensures Reading(c, q, coming)
  {
    hide DecodeHeader, AfterHeader, ReceiveOne;
    assert q.tx.unread + coming == p.tx.unread + (written + coming);
  }

  lemma ReceiverStep(c: Call, p: Pair, a: Action, coming: seq<byte>)
    requires Enabled(p, a) && !a.OfSender() && !p.receiver.pc.Idle?
    requires Reading(c, p, coming) && Acknowledging(c, p)
    ensures Reading(c, Next(p, a), coming) && Acknowledging(c, Next(p, a))
    ensures Next(p, a).flags == p.flags
  {
    hide EncodeWord, DecodeHeader, AfterHeader, ReceiveBody, NotificationOf;
    match a
    case TakeHeader(n) => HeaderStep(c, p, n, coming);
    case TakeBody(n) => BodyStep(c, p, n, coming);
    case WriteAck => assert [] + (p.tx.unread + coming) == p.tx.unread + coming; assert c.acks + [] == c.acks;
  }

  lemma OneStep(c: Call, p: Pair, a: Action, coming: seq<byte>)
    requires Enabled(p, a) && (a.OfSender() || !p.receiver.pc.Idle?)
    requires Reading(c, p, WrittenBy(p, a) + coming) && Acknowledging(c, p)
    ensures Reading(c, Next(p, a), coming) && Acknowledging(c, Next(p, a))
    ensures Next(p, a).flags == p.flags
  {
    hide EncodeWord, EncodeHeader, DecodeHeader, AfterHeader, ReceiveBody, ReceiveOne, Reading, NotificationOf, Message.Body,
         AfterHeaderBytes, AfterBodyBytes;
    if a.OfSender() {
      SenderWrites(p, a);
      UnreadGrows(c, p, Next(p, a), WrittenBy(p, a), coming);
    } else {
      assert WrittenBy(p, a) + coming == coming;
      ReceiverStep(c, p, a, coming);
    }
  }

  lemma {:induction false} ManySteps(c: Call, p: Pair, run: seq<Action>, coming: seq<byte>)
    requires IsRun(p, run) && OneCall(p, run)
    requires Reading(c, p, WrittenDuring(p, run) + coming) && Acknowledging(c, p)
    ensures Reading(c, After(p, run), coming) && Acknowledging(c, After(p, run))
    ensures After(p, run).flags == p.flags
    decreases |run|
  {
    hide Reading, Acknowledging, Enabled, Next, WrittenBy;
    if run == [] {
      assert [] + coming == coming;
    } else {
      var later := WrittenDuring(Next(p, run[0]), run[1..]);
      ConcatAssociates(WrittenBy(p, run[0]), later, coming);
      OneStep(c, p, run[0], later + coming);
      ManySteps(c, Next(p, run[0]), run[1..], coming);
    }
  }

  lemma CallBegins(p: Pair, coming: seq<byte>)
    requires Enabled(p, BeginReceive)
    ensures Reading(CallAt(p, coming), Next(p, BeginReceive), coming)
    ensures Acknowledging(CallAt(p, coming), Next(p, BeginReceive))
    ensures Next(p, BeginReceive).flags == p.flags
  {
    hide EncodeWord, NotificationOf, AfterHeader, DecodeHeader, ReceiveOne;
    assert [] + (p.tx.unread + coming) == p.tx.unread + coming;
    assert p.ack.history + [] == p.ack.history;
  }

  /** The link end that a receiver of the step system is, with coming still to be written to it. */
  predicate IsEnd(s: LinkSocket.LinkState, p: Pair, coming: seq<byte>) {
    && s.rx == p.receiver.rx && s.inbound == p.tx.unread + coming
    && s.handlers.autoSendAck ==
       if !NotificationOf(p.flags).AutoNotify? then LinkSocket.Nop
       else if p.receiver.armed then LinkSocket.SendAck else LinkSocket.AutoSendAck
  }

  /** The sending link end that a sender of the step system is. */
  predicate IsSendingEnd(s: LinkSocket.LinkState, p: Pair) {
    && s.rx.flags == p.flags && s.kind == TYPE_SOCKET_TX && s.outbound == p.tx.history
    && LinkSocket.AwaitsAck(s.handlers) == NotificationOf(p.flags).AutoNotify?
  }

  /** Ends just initialised are the ends of a new pair. */
  lemma NewEnds(flags: bv32, rx: LinkSocket.LinkState, tx: LinkSocket.LinkState, rxAddr: nat, txAddr: nat)
    requires LinkSocket.Initialised(rx, rxAddr, rx.endpoint, TYPE_SOCKET_RX, flags, LinkSocket.BindHandlers(flags))
    requires LinkSocket.Initialised(tx, txAddr, tx.endpoint, TYPE_SOCKET_TX, flags, LinkSocket.ConnectHandlers(flags))
    ensures IsEnd(rx, NewPair(flags), rx.inbound)
    ensures IsSendingEnd(tx, NewPair(flags))
  {
    hide NotificationOf;
    assert [] + rx.inbound == rx.inbound;
  }

  /** The receive of r that began at p is what ReceiveOne makes of the bytes in front of the link end. */
  predicate Completed(p: Pair, r: Pair, coming: seq<byte>, before: LinkSocket.LinkState) {
    && r.receiver.delivered != []
    && ReceiveOne(before.rx, before.inbound) == Received(Last(r.receiver.delivered), r.receiver.rx, r.tx.unread + coming)
    && r.receiver.delivered == p.receiver.delivered + [Last(r.receiver.delivered)]
    && r.ack.history == p.ack.history + LinkSocket.AckOf(before.handlers)
    && IsEnd(before.(rx := r.receiver.rx, inbound := r.tx.unread + coming, handlers := LinkSocket.Armed(before.handlers)),
             r, coming)
  }

  lemma CallEnds(p: Pair, all: seq<byte>, r: Pair, coming: seq<byte>,
                 before: LinkSocket.LinkState, after: LinkSocket.LinkState)
    requires IsEnd(before, p, all) && r.flags == p.flags
    requires Reading(CallAt(p, all), r, coming) && Acknowledging(CallAt(p, all), r)
    ensures r.receiver.pc.Crashed? ==> ReceiveOne(before.rx, before.inbound).OutOfBounds?
    ensures r.receiver.pc.Idle? ==> Completed(p, r, coming, before)
    ensures r.receiver.pc.Idle? && LinkSocket.ReceivedBy(before, after) ==>
              && IsEnd(after, r, coming)
              && after.outbound == before.outbound + LinkSocket.AckOf(before.handlers)
  {
    hide ReceiveOne, EncodeWord, NotificationOf, AfterHeader, DecodeHeader, LinkSocket.LinkState.Holds;
  }

  /** A receive taken apart into socket operations, in any interleaving with the sender, that comes to
      its end has done what the handler's specification says: the message, the receive state, the
      remaining bytes and the acknowledgement are those of ReceiveOne, and a handler call that succeeds
      on the same link end is in the same state. It leaves the buffer where ReceiveOne says so. */
  lemma ReceiveCallRefines(p: Pair, run: seq<Action>, coming: seq<byte>,
                           before: LinkSocket.LinkState, after: LinkSocket.LinkState)
    requires Enabled(p, BeginReceive)
    requires var q := Next(p, BeginReceive); IsRun(q, run) && OneCall(q, run)
    requires IsEnd(before, p, WrittenDuring(Next(p, BeginReceive), run) + coming)
    ensures var r := After(Next(p, BeginReceive), run);
            && (r.receiver.pc.Crashed? ==> ReceiveOne(before.rx, before.inbound).OutOfBounds?)
            && (r.receiver.pc.Idle? ==> Completed(p, r, coming, before))
            && (r.receiver.pc.Idle? && LinkSocket.ReceivedBy(before, after) ==>
                  && IsEnd(after, r, coming)
                  && after.outbound == before.outbound + LinkSocket.AckOf(before.handlers))
  {
    var q, all := Next(p, BeginReceive), WrittenDuring(Next(p, BeginReceive), run) + coming;
    CallBegins(p, all);
    ManySteps(CallAt(p, all), q, run, coming);
    CallEnds(p, all, After(q, run), coming, before, after);
  }

  // ----- a send

  /** How far a send of m that began at p0 has come. */
  predicate Writing(p0: Pair, m: Message, p: Pair) {
    var s, header := p.sender, EncodeHeader(HeaderOf(m, p.flags));
    && p.flags == p0.flags && s.sent == p0.sender.sent + [m]
    && match s.pc
       case HeaderNext => p.tx.history == p0.tx.history && s.acksReceived == p0.sender.acksReceived
       case BodyNext => p.tx.history == p0.tx.history + header && s.acksReceived == p0.sender.acksReceived
       case AwaitAck(_) => NotificationOf(p.flags).AutoNotify?
                           && p.tx.history == p0.tx.history + Frame(m, TYPE_SOCKET_TX, p.flags)
                           && s.acksReceived == p0.sender.acksReceived
       case Ready => p.tx.history == p0.tx.history + Frame(m, TYPE_SOCKET_TX, p.flags)
                     && s.acksReceived == p0.sender.acksReceived + if NotificationOf(p.flags).AutoNotify? then 1 else 0
       case BadAck => true
  }

  /** The sender does nothing but carry on with the send it is in. */
  predicate OneSend(p: Pair, run: seq<Action>)
    requires IsRun(p, run)
    decreases |run|
  {
    run == [] || ((!run[0].OfSender() || !p.sender.pc.Ready?) && OneSend(Next(p, run[0]), run[1..]))
  }

  lemma SendStep(p0: Pair, m: Message, p: Pair, a: Action)
    requires Writing(p0, m, p) && Enabled(p, a) && (!a.OfSender() || !p.sender.pc.Ready?)
    ensures Writing(p0, m, Next(p, a))
  {
    hide EncodeHeader, DecodeWord, EncodeWord, NotificationOf, Message.Body, DecodeHeader, ReceiveBody, AfterHeader;
    if a.WriteBody? {
      ConcatAssociates(p0.tx.history, EncodeHeader(HeaderOf(m, p.flags)), m.Body());
    }
  }

  lemma {:induction false} SendSteps(p0: Pair, m: Message, p: Pair, run: seq<Action>)
    requires Writing(p0, m, p) && IsRun(p, run) && OneSend(p, run)
    ensures Writing(p0, m, After(p, run))
    decreases |run|
  {
    hide Writing, Enabled, Next;
    if run == [] {
    } else {
      SendStep(p0, m, p, run[0]);
      SendSteps(p0, m, Next(p, run[0]), run[1..]);
    }
  }

  /** The send of m that began at p has written exactly its frame, and has taken one acknowledgement
      exactly if the link has them come by themselves. */
  predicate SendDone(p: Pair, q: Pair, m: Message) {
    && q.flags == p.flags && q.sender.sent == p.sender.sent + [m]
    && q.tx.history == p.tx.history + Frame(m, TYPE_SOCKET_TX, p.flags)
    && q.sender.acksReceived == p.sender.acksReceived + if NotificationOf(p.flags).AutoNotify? then 1 else 0
  }

  /** A send taken apart into socket operations, in any interleaving with the receiver, that returns has
      done what the handler's specification says, and a handler call that succeeds on the same link end
      has written the same and is the same end afterwards. */
  lemma SendCallRefines(p: Pair, buf: nat, content: seq<byte>, run: seq<Action>,
                        before: LinkSocket.LinkState, after: LinkSocket.LinkState)
    requires var m := LinkSocket.Outgoing(p.flags, buf, content);
             Enabled(p, BeginSend(m)) && IsRun(Next(p, BeginSend(m)), run) && OneSend(Next(p, BeginSend(m)), run)
    ensures var m := LinkSocket.Outgoing(p.flags, buf, content);
            var q := After(Next(p, BeginSend(m)), run);
            q.sender.pc.Ready? ==>
              && SendDone(p, q, m)
              && (IsSendingEnd(before, p) && LinkSocket.SentBy(before, after, buf, content) ==>
                    && IsSendingEnd(after, q)
                    && (q.sender.acksReceived == p.sender.acksReceived + 1 <==> LinkSocket.AwaitsAck(before.handlers)))
  {
    hide EncodeHeader, NotificationOf, LinkSocket.Outgoing, Message.Body, Frame, DecodeWord;
    var m := LinkSocket.Outgoing(p.flags, buf, content);
    SendSteps(p, m, Next(p, BeginSend(m)), run);
  }

  // ----- manual notification

  /** An acknowledgement by request is the word that the handler writes. */
  lemma NotifySendRefines(p: Pair, before: LinkSocket.LinkState, after: LinkSocket.LinkState)
    requires Enabled(p, NotifySend) && before.handlers.notifySend.SendAck? && before.fdAccepted != 0
    requires before.outbound == p.ack.history && LinkSocket.AckSentBy(before, after, LinkSocket.Success)
    ensures after.outbound == Next(p, NotifySend).ack.history
    ensures Next(p, NotifySend).receiver.acksSent == p.receiver.acksSent + 1
  {
    hide EncodeWord;
  }

  function AckBy(p: Pair, a: Action): seq<byte>
    requires Enabled(p, a)
  {
    if a.WriteAck? || a.NotifySend? then EncodeWord(ACK) else []
  }

  function AcksDuring(p: Pair, run: seq<Action>): seq<byte>
    requires IsRun(p, run)
    decreases |run|
  {
    if run == [] then [] else AckBy(p, run[0]) + AcksDuring(Next(p, run[0]), run[1..])
  }

  /** The sender does nothing but carry on with the wait it is in. */
  predicate OneWait(p: Pair, run: seq<Action>)
    requires IsRun(p, run)
    decreases |run|
  {
    run == [] || ((!run[0].OfSender() || p.sender.pc.AwaitAck?) && OneWait(Next(p, run[0]), run[1..]))
  }

  /** How far a wait has come that found ahead in front of it, if coming is still to be acknowledged. */
  predicate Waiting(ahead: seq<byte>, received: nat, p: Pair, coming: seq<byte>) {
    var rest := p.ack.unread + coming;
    match p.sender.pc
    case AwaitAck(got) => |got| < WORD_SIZE && got + rest == ahead && p.sender.acksReceived == received
    case Ready =>
      && |ahead| >= WORD_SIZE && DecodeWord(ahead[..WORD_SIZE]) == ACK && rest == ahead[WORD_SIZE..]
      && p.sender.acksReceived == received + 1
    case BadAck => |ahead| >= WORD_SIZE && DecodeWord(ahead[..WORD_SIZE]) != ACK
    case _ => false
  }

  lemma AckArrives(p: Pair, a: Action, coming: seq<byte>)
    requires Enabled(p, a) && !a.OfSender()
    ensures p.ack.unread + (AckBy(p, a) + coming) == Next(p, a).ack.unread + coming && Next(p, a).sender == p.sender
  {
    hide EncodeWord, DecodeHeader, AfterHeader, ReceiveBody, NotificationOf;
    ConcatAssociates(p.ack.unread, AckBy(p, a), coming);
    assert p.ack.unread + [] == p.ack.unread;
  }

  lemma WaitStep(ahead: seq<byte>, received: nat, p: Pair, a: Action, coming: seq<byte>)
    requires Enabled(p, a) && (!a.OfSender() || p.sender.pc.AwaitAck?)
    requires Waiting(ahead, received, p, AckBy(p, a) + coming)
    ensures Waiting(ahead, received, Next(p, a), coming)
  {
    hide EncodeWord, DecodeWord, EncodeHeader, DecodeHeader, AfterHeader, ReceiveBody, NotificationOf, Message.Body;
    if a.OfSender() {
      assert [] + coming == coming;
      TakenMoves(p.sender.pc.got, p.ack.unread, a.count, coming);
      var got, rest := p.sender.pc.got + p.ack.unread[..a.count], p.ack.unread[a.count..] + coming;
      assert ahead == got + rest;
      if |got| == WORD_SIZE {
        assert ahead[..WORD_SIZE] == got && ahead[WORD_SIZE..] == rest;
      }
    } else {
      assert p.ack.unread + (AckBy(p, a) + coming) == Next(p, a).ack.unread + coming by { AckArrives(p, a, coming); }
    }
  }

  lemma {:induction false} WaitSteps(ahead: seq<byte>, received: nat, p: Pair, run: seq<Action>, coming: seq<byte>)
    requires IsRun(p, run) && OneWait(p, run)
    requires Waiting(ahead, received, p, AcksDuring(p, run) + coming)
    ensures Waiting(ahead, received, After(p, run), coming)
    decreases |run|
  {
    hide Waiting, Enabled, Next, AckBy;
    if run == [] {
      assert [] + coming == coming;
    } else {
      var later := AcksDuring(Next(p, run[0]), run[1..]);
      ConcatAssociates(AckBy(p, run[0]), later, coming);
      WaitStep(ahead, received, p, run[0], later + coming);
      WaitSteps(ahead, received, Next(p, run[0]), run[1..], coming);
    }
  }

  /** The wait of q that began at p against a call of the handler on the same link end. */
  predicate WaitDone(p: Pair, q: Pair, coming: seq<byte>, before: LinkSocket.LinkState, after: LinkSocket.LinkState,
                     st: LinkSocket.Status) {
    && (q.sender.pc.Ready? ==>
          && |before.inbound| >= WORD_SIZE && q.sender.acksReceived == p.sender.acksReceived + 1
          && q.ack.unread + coming == before.inbound[WORD_SIZE..]
          && (st.Success? <==> after.inbound == q.ack.unread + coming))
    && (q.sender.pc.BadAck? ==> !st.Success?)
  }

  lemma WaitEnds(p: Pair, q: Pair, coming: seq<byte>, before: LinkSocket.LinkState, after: LinkSocket.LinkState,
                 st: LinkSocket.Status)
    requires before.handlers.notifyRecv.RecvAck? && before.fdAccepted != 0
    requires Waiting(before.inbound, p.sender.acksReceived, q, coming) && LinkSocket.AckTakenBy(before, after, st)
    ensures WaitDone(p, q, coming, before, after, st)
  {
    hide DecodeWord, LinkSocket.FaultsOf;
  }

  lemma WaitBegins(p: Pair, inbound: seq<byte>, all: seq<byte>)
    requires Enabled(p, BeginAwait) && inbound == p.ack.unread + all
    ensures Waiting(inbound, p.sender.acksReceived, Next(p, BeginAwait), all)
  {
    hide DecodeWord, NotificationOf;
    assert [] + (p.ack.unread + all) == inbound;
  }

  /** A wait taken apart into reads, in any interleaving with the receiver, ends well exactly on four bytes
      that are an acknowledgement, and a call of the handler succeeds exactly if it took the same bytes. */
  lemma NotifyRecvRefines(p: Pair, run: seq<Action>, coming: seq<byte>,
                          before: LinkSocket.LinkState, after: LinkSocket.LinkState, st: LinkSocket.Status)
    requires Enabled(p, BeginAwait)
    requires var q := Next(p, BeginAwait); IsRun(q, run) && OneWait(q, run)
    requires before.handlers.notifyRecv.RecvAck? && before.fdAccepted != 0
    requires before.inbound == p.ack.unread + (AcksDuring(Next(p, BeginAwait), run) + coming)
    requires LinkSocket.AckTakenBy(before, after, st)
    ensures WaitDone(p, After(Next(p, BeginAwait), run), coming, before, after, st)
  {
    var q, all := Next(p, BeginAwait), AcksDuring(Next(p, BeginAwait), run) + coming;
    hide Enabled, Next, Waiting, WaitDone, LinkSocket.AckTakenBy, OneWait, IsRun, After, AcksDuring;
    WaitBegins(p, before.inbound, all);
    WaitSteps(before.inbound, p.sender.acksReceived, q, run, coming);
    WaitEnds(p, After(q, run), coming, before, after, st);
  }
}
