/** One connected pair of link ends as an interleaved step system. The sending end runs
    icom_send (and icom_notify_recv), the receiving end icom_recv (and icom_notify_send); each step
    is one send or recv on the socket, and a recv may return any part of what it asked for. */
module LinkProtocol {
  import opened Sequences
  import opened Wire
  import opened FlagBits
  import opened MessageStream

  // ----- state

  /** One direction of the connection: all bytes ever written, and those not yet read. */
  datatype Pipe = Pipe(history: seq<byte>, unread: seq<byte>)
  {
    function Write(bytes: seq<byte>): Pipe {
      Pipe(history + bytes, unread + bytes)
    }

    function Read(n: nat): Pipe
      requires n <= |unread|
    {
      Pipe(history, unread[n..])
    }
  }

  datatype SenderPc =
    | Ready                         // in the caller's code
    | HeaderNext                    // in link_sendHandler, before link_sendHeader
    | BodyNext                      // before link_sendData
    | AwaitAck(got: seq<byte>)      // in link_recvAck
    | BadAck                        // link_recvAck saw something other than 1

  datatype Sender = Sender(pc: SenderPc, sent: seq<Message>, acksReceived: nat)

  datatype ReceiverPc =
    | Idle                          // in the caller's code
    | AckNext                       // in link_recvHandler, before link_sendAck
    | HeaderPart(got: seq<byte>)    // in link_recvHeader
    | BodyPart(got: seq<byte>)      // in link_recvData
    | Crashed                       // link_recvData left the buffer

  /** armed: autoSendAck points to link_sendAck. */
  datatype Receiver = Receiver(pc: ReceiverPc, rx: Rx, armed: bool, delivered: seq<Message>, acksSent: nat)

  datatype Pair = Pair(flags: bv32, sender: Sender, tx: Pipe, ack: Pipe, receiver: Receiver)

  function NewPair(flags: bv32): Pair {
    Pair(flags, Sender(Ready, [], 0), Pipe([], []), Pipe([], []), Receiver(Idle, FreshRx(flags), false, [], 0))
  }

  // ----- steps

  datatype Action =
    | BeginSend(message: Message)
    | WriteHeader
    | WriteBody
    | BeginAwait                    // icom_notify_recv on a notify link
    | TakeAck(count: nat)
    | BeginReceive
    | WriteAck
    | TakeHeader(count: nat)
    | TakeBody(count: nat)
    | NotifySend                    // icom_notify_send on a notify link
  {
    predicate OfSender() {
      BeginSend? || WriteHeader? || WriteBody? || BeginAwait? || TakeAck?
    }
  }

  predicate MayTake(n: nat, wanted: nat, available: nat) {
    n <= wanted && n <= available && (n > 0 || wanted == 0)
  }

  predicate SenderEnabled(p: Pair, a: Action)
    requires a.OfSender()
  {
    match a
    case BeginSend(m) => p.sender.pc.Ready? && m.Sendable(p.flags) && m.Fits()
    case WriteHeader => p.sender.pc.HeaderNext? && p.sender.sent != []
    case WriteBody => p.sender.pc.BodyNext? && p.sender.sent != []
    case BeginAwait => p.sender.pc.Ready? && NotificationOf(p.flags).Notify? && p.sender.sent != []
    case TakeAck(n) => p.sender.pc.AwaitAck? && |p.sender.pc.got| < WORD_SIZE
                       && MayTake(n, WORD_SIZE - |p.sender.pc.got|, |p.ack.unread|)
  }

  predicate ReceiverEnabled(p: Pair, a: Action)
    requires !a.OfSender()
  {
    match a
    case BeginReceive => p.receiver.pc.Idle?
    case WriteAck => p.receiver.pc.AckNext?
    case TakeHeader(n) => p.receiver.pc.HeaderPart? && |p.receiver.pc.got| < HEADER_SIZE
                          && MayTake(n, HEADER_SIZE - |p.receiver.pc.got|, |p.tx.unread|)
    case TakeBody(n) => p.receiver.pc.BodyPart? && |p.receiver.pc.got| <= p.receiver.rx.recvSize
                        && MayTake(n, p.receiver.rx.recvSize - |p.receiver.pc.got|, |p.tx.unread|)
    case NotifySend => p.receiver.pc.Idle? && NotificationOf(p.flags).Notify? && p.receiver.delivered != []
  }

  predicate Enabled(p: Pair, a: Action) {
    if a.OfSender() then SenderEnabled(p, a) else ReceiverEnabled(p, a)
  }

  function Last(ms: seq<Message>): Message
    requires ms != []
  {
    ms[|ms| - 1]
  }

  function HeaderOf(m: Message, flags: bv32): Header {
    Header(TYPE_SOCKET_TX, flags, m.Size())
  }

  function AfterAckBytes(s: Sender, got: seq<byte>): Sender {
    if |got| != WORD_SIZE then s.(pc := AwaitAck(got))
    else if DecodeWord(got) == ACK then s.(pc := Ready, acksReceived := s.acksReceived + 1)
    else s.(pc := BadAck)
  }

  function SenderNext(p: Pair, a: Action): Pair
    requires a.OfSender() && SenderEnabled(p, a)
  {
    var s := p.sender;
    match a
    case BeginSend(m) => p.(sender := s.(pc := HeaderNext, sent := s.sent + [m]))
    case WriteHeader =>
      p.(sender := s.(pc := BodyNext), tx := p.tx.Write(EncodeHeader(HeaderOf(Last(s.sent), p.flags))))
    case WriteBody =>
      p.(sender := s.(pc := if NotificationOf(p.flags).AutoNotify? then AwaitAck([]) else Ready),
         tx := p.tx.Write(Last(s.sent).Body()))
    case BeginAwait => p.(sender := s.(pc := AwaitAck([])))
    case TakeAck(n) => p.(sender := AfterAckBytes(s, s.pc.got + p.ack.unread[..n]), ack := p.ack.Read(n))
  }

  function AfterHeaderBytes(r: Receiver, got: seq<byte>): Receiver {
    if |got| != HEADER_SIZE then r.(pc := HeaderPart(got))
    else r.(pc := BodyPart([]), rx := AfterHeader(r.rx, DecodeHeader(got)))
  }

  function AfterBodyBytes(r: Receiver, got: seq<byte>): Receiver {
    if |got| != r.rx.recvSize then r.(pc := BodyPart(got))
    else match ReceiveBody(r.rx, got)
      case Received(m, _, _) => r.(pc := Idle, delivered := r.delivered + [m])
      case _ => r.(pc := Crashed)
  }

  function ReceiverNext(p: Pair, a: Action): Pair
    requires !a.OfSender() && ReceiverEnabled(p, a)
  {
    var r := p.receiver;
    match a
    case BeginReceive =>
      if NotificationOf(p.flags).AutoNotify? then
        p.(receiver := r.(pc := if r.armed then AckNext else HeaderPart([]), armed := true))
      else p.(receiver := r.(pc := HeaderPart([])))
    case WriteAck =>
      p.(receiver := r.(pc := HeaderPart([]), acksSent := r.acksSent + 1), ack := p.ack.Write(EncodeWord(ACK)))
    case TakeHeader(n) =>
      p.(receiver := AfterHeaderBytes(r, r.pc.got + p.tx.unread[..n]), tx := p.tx.Read(n))
    case TakeBody(n) =>
      p.(receiver := AfterBodyBytes(r, r.pc.got + p.tx.unread[..n]), tx := p.tx.Read(n))
    case NotifySend =>
      p.(receiver := r.(acksSent := r.acksSent + 1), ack := p.ack.Write(EncodeWord(ACK)))
  }

  function Next(p: Pair, a: Action): Pair
    requires Enabled(p, a)
  {
    if a.OfSender() then SenderNext(p, a) else ReceiverNext(p, a)
  }

  /** A read may return any number of bytes up to what was asked for and is there, and at least one. */
  lemma AnyPartCanBeRead(p: Pair, n: nat)
    requires 0 < n
    ensures p.receiver.pc.HeaderPart? && |p.receiver.pc.got| + n <= 12 && n <= |p.tx.unread| ==> Enabled(p, TakeHeader(n))
    ensures p.receiver.pc.BodyPart? && |p.receiver.pc.got| + n <= p.receiver.rx.recvSize && n <= |p.tx.unread| ==>
              Enabled(p, TakeBody(n))
    ensures p.sender.pc.AwaitAck? && |p.sender.pc.got| + n <= 4 && n <= |p.ack.unread| ==> Enabled(p, TakeAck(n))
  {
  }

  // ----- what the bytes in flight are

  /** The part of the last message that its send has still to write. */
  function Unwritten(s: Sender, flags: bv32): seq<byte> {
    if s.sent == [] then []
    else if s.pc.HeaderNext? then Frame(Last(s.sent), TYPE_SOCKET_TX, flags)
    else if s.pc.BodyNext? then Last(s.sent).Body()
    else []
  }

  /** The bytes of the message under reception that have been read. */
  function Taken(r: Receiver, flags: bv32): seq<byte> {
    match r.pc
    case HeaderPart(got) => got
    case BodyPart(got) => EncodeHeader(Header(TYPE_SOCKET_TX, flags, r.rx.recvBufSize)) + got
    case _ => []
  }

  function Acks(n: nat): seq<byte> {
    if n == 0 then [] else EncodeWord(ACK) + Acks(n - 1)
  }

  function AckTaken(s: Sender): seq<byte> {
    if s.pc.AwaitAck? then s.pc.got else []
  }

  predicate Usable(m: Message, flags: bv32) {
    m.Sendable(flags) && m.Fits()
  }

  predicate SenderInv(s: Sender, flags: bv32) {
    && (forall i | 0 <= i < |s.sent| :: Usable(s.sent[i], flags))
    && (s.pc.HeaderNext? || s.pc.BodyNext? ==> s.sent != [])
    && (s.pc.AwaitAck? ==> |s.pc.got| < WORD_SIZE)
    && !s.pc.BadAck?
  }

  predicate ReceiverInv(r: Receiver, sent: seq<Message>, flags: bv32) {
    && r.delivered <= sent
    && Matches(r.rx, flags)
    && (r.pc.HeaderPart? ==> |r.pc.got| < HEADER_SIZE)
    && (r.pc.BodyPart? ==>
          && |r.delivered| < |sent|
          && var m := sent[|r.delivered|];
             r.rx.recvBufSize == m.Size() && r.rx.recvSize == |m.Body()|
             && (|r.pc.got| < r.rx.recvSize || r.pc.got == []))
    && !r.pc.Crashed?
  }

  predicate FlowInv(s: Sender, tx: Pipe, r: Receiver, flags: bv32)
    requires |r.delivered| <= |s.sent|
  {
    && tx.history + Unwritten(s, flags) == Stream(s.sent, TYPE_SOCKET_TX, flags)
    && Taken(r, flags) + tx.unread + Unwritten(s, flags) == Stream(s.sent[|r.delivered|..], TYPE_SOCKET_TX, flags)
  }

  predicate AckInv(s: Sender, ack: Pipe, acksSent: nat) {
    && s.acksReceived <= acksSent
    && ack.history == Acks(acksSent)
    && AckTaken(s) + ack.unread == Acks(acksSent - s.acksReceived)
  }

  predicate Inv(p: Pair) {
    && SenderInv(p.sender, p.flags)
    && ReceiverInv(p.receiver, p.sender.sent, p.flags)
    && FlowInv(p.sender, p.tx, p.receiver, p.flags)
    && AckInv(p.sender, p.ack, p.receiver.acksSent)
  }

  // ----- lemmas about streams

  lemma {:induction false} StreamAppend(ms: seq<Message>, m: Message, flags: bv32)
    ensures Stream(ms + [m], TYPE_SOCKET_TX, flags) == Stream(ms, TYPE_SOCKET_TX, flags) + Frame(m, TYPE_SOCKET_TX, flags)
  {
    hide Frame;
    if ms == [] {
      assert [m][1..] == [];
      assert ms + [m] == [m];
      assert Stream([m], TYPE_SOCKET_TX, flags) == Frame(m, TYPE_SOCKET_TX, flags) + [];
    } else {
      StreamAppend(ms[1..], m, flags);
      assert (ms + [m])[1..] == ms[1..] + [m];
    }
  }

  lemma {:induction false} AcksAppend(n: nat)
    ensures Acks(n + 1) == Acks(n) + EncodeWord(ACK)
  {
    if n == 0 {
    } else {
      AcksAppend(n - 1);
    }
  }

  lemma {:induction false} AcksLength(n: nat)
    ensures |Acks(n)| == WORD_SIZE * n
  {
    if n == 0 {
    } else {
      AcksLength(n - 1);
    }
  }

  lemma AcksRead(got: seq<byte>, rest: seq<byte>, n: nat)
    requires got + rest == Acks(n) && |got| == WORD_SIZE
    ensures n > 0 && DecodeWord(got) == ACK && rest == Acks(n - 1)
  {
    assert (got + rest)[..WORD_SIZE] == got && (got + rest)[WORD_SIZE..] == rest;
    assert n > 0;
    assert Acks(n)[..WORD_SIZE] == EncodeWord(ACK) && Acks(n)[WORD_SIZE..] == Acks(n - 1);
    WordRoundTrip(ACK);
  }

  /** Twelve bytes from the front of a stream of frames are the first message's header. */
  lemma HeaderRead(got: seq<byte>, rest: seq<byte>, ms: seq<Message>, flags: bv32)
    requires got + rest == Stream(ms, TYPE_SOCKET_TX, flags) && |got| == HEADER_SIZE
    requires ms != [] ==> ms[0].Sendable(flags)
    ensures ms != [] && got == EncodeHeader(HeaderOf(ms[0], flags)) && DecodeHeader(got) == HeaderOf(ms[0], flags)
  {
    assert ms != [];
    assert (got + rest)[..HEADER_SIZE] == got;
    assert Stream(ms, TYPE_SOCKET_TX, flags)[..HEADER_SIZE] == EncodeHeader(HeaderOf(ms[0], flags));
    HeaderRoundTrip(HeaderOf(ms[0], flags));
  }

  /** The bytes that follow that header, as many as its body has, are that body. */
  lemma BodyRead(got: seq<byte>, rest: seq<byte>, ms: seq<Message>, flags: bv32)
    requires ms != [] && |got| == |ms[0].Body()|
    requires EncodeHeader(HeaderOf(ms[0], flags)) + got + rest == Stream(ms, TYPE_SOCKET_TX, flags)
    ensures got == ms[0].Body() && rest == Stream(ms[1..], TYPE_SOCKET_TX, flags)
  {
    var h, tail := EncodeHeader(HeaderOf(ms[0], flags)), Stream(ms[1..], TYPE_SOCKET_TX, flags);
    var s := Stream(ms, TYPE_SOCKET_TX, flags);
    assert s == h + ms[0].Body() + tail;
    assert s[|h|..|h| + |got|] == got && s[|h| + |got|..] == rest;
    assert s[|h|..|h| + |got|] == ms[0].Body() && s[|h| + |got|..] == tail;
  }

  // ----- moving bytes along keeps their order

  lemma ReadOn(before: seq<byte>, got: seq<byte>, unread: seq<byte>, n: nat, after: seq<byte>)
    requires n <= |unread|
    ensures (before + (got + unread[..n])) + unread[n..] + after == (before + got) + unread + after
  {
    assert unread == unread[..n] + unread[n..];
  }

  // ----- every step keeps the invariant

  lemma BeginSendKeepsInv(p: Pair, m: Message)
    requires Inv(p) && Enabled(p, BeginSend(m))
    ensures Inv(Next(p, BeginSend(m)))
  {
    hide EncodeWord, DecodeWord, EncodeHeader, DecodeHeader, Stream, Frame, NotificationOf, Matches, Taken, Acks;
    var s, d := p.sender.sent, |p.receiver.delivered|;
    StreamAppend(s, m, p.flags);
    StreamAppend(s[d..], m, p.flags);
    assert (s + [m])[d..] == s[d..] + [m];
    assert Last(s + [m]) == m;
  }

  lemma WriteHeaderKeepsInv(p: Pair)
    requires Inv(p) && Enabled(p, WriteHeader)
    ensures Inv(Next(p, WriteHeader))
  {
    hide EncodeWord, DecodeWord, EncodeHeader, DecodeHeader, Stream, NotificationOf, Matches, Taken, Acks,
         Message.Body, Message.Size, Message.Sendable, Message.Fits;
    var m := Last(p.sender.sent);
    var h, b := EncodeHeader(HeaderOf(m, p.flags)), m.Body();
    assert p.tx.history + (h + b) == (p.tx.history + h) + b;
    assert (Taken(p.receiver, p.flags) + p.tx.unread) + (h + b) == Taken(p.receiver, p.flags) + (p.tx.unread + h) + b;
  }

  lemma WriteBodyKeepsInv(p: Pair)
    requires Inv(p) && Enabled(p, WriteBody)
    ensures Inv(Next(p, WriteBody))
  {
    hide EncodeWord, DecodeWord, EncodeHeader, DecodeHeader, Stream, Frame, Matches, Taken, Acks, Message.Body;
    var b := Last(p.sender.sent).Body();
    assert (p.tx.history + b) + [] == p.tx.history + b;
    assert Taken(p.receiver, p.flags) + (p.tx.unread + b) + [] == (Taken(p.receiver, p.flags) + p.tx.unread) + b;
  }

  lemma TakeAckKeepsInv(p: Pair, n: nat)
    requires Inv(p) && Enabled(p, TakeAck(n))
    ensures Inv(Next(p, TakeAck(n)))
    ensures !Next(p, TakeAck(n)).sender.pc.BadAck?
  {
    hide EncodeWord, DecodeWord, EncodeHeader, DecodeHeader, Stream, Frame, Matches, Taken, Acks, NotificationOf, Message.Body;
    var got, rest := p.sender.pc.got + p.ack.unread[..n], p.ack.unread[n..];
    assert got + rest == p.sender.pc.got + p.ack.unread;
    if |got| == WORD_SIZE {
      AcksRead(got, rest, p.receiver.acksSent - p.sender.acksReceived);
      assert [] + rest == rest;
    }
  }

  lemma WriteAckKeepsAckInv(s: Sender, ack: Pipe, acksSent: nat)
    requires AckInv(s, ack, acksSent)
    ensures AckInv(s, ack.Write(EncodeWord(ACK)), acksSent + 1)
  {
    hide EncodeWord, Acks;
    AcksAppend(acksSent);
    AcksAppend(acksSent - s.acksReceived);
    assert AckTaken(s) + (ack.unread + EncodeWord(ACK)) == (AckTaken(s) + ack.unread) + EncodeWord(ACK);
  }

  /** After its header the receiver is set up for the message, read anew or as it was. */
  lemma HeaderConfigures(r: Receiver, m: Message, flags: bv32)
    requires Matches(r.rx, flags) && Usable(m, flags)
    ensures var rx := AfterHeader(r.rx, HeaderOf(m, flags));
            Matches(rx, flags) && rx.recvBufSize == m.Size() && rx.recvSize == |m.Body()|
  {
    hide EncodePointer, IsZero;
  }

  lemma TakeHeaderKeepsInv(p: Pair, n: nat)
    requires Inv(p) && Enabled(p, TakeHeader(n))
    ensures Inv(Next(p, TakeHeader(n)))
  {
    hide EncodeWord, DecodeWord, EncodeHeader, DecodeHeader, Stream, Frame, Acks, Unwritten, NotificationOf, AfterHeader, Matches,
         Message.Body, Message.Size;
    var got, rest := p.receiver.pc.got + p.tx.unread[..n], p.tx.unread[n..];
    var u, ms := Unwritten(p.sender, p.flags), p.sender.sent[|p.receiver.delivered|..];
    ReadOn([], p.receiver.pc.got, p.tx.unread, n, u);
    assert [] + got == got && [] + p.receiver.pc.got == p.receiver.pc.got;
    if |got| == HEADER_SIZE {
      ConcatAssociates(got, rest, u);
      HeaderRead(got, rest + u, ms, p.flags);
      HeaderConfigures(p.receiver, ms[0], p.flags);
      assert got + [] == got;
    }
  }

  /** A complete body hands the next message over and ends the receive. */
  lemma BodyCompletes(r: Receiver, sent: seq<Message>, flags: bv32, got: seq<byte>)
    requires ReceiverInv(r, sent, flags) && r.pc.BodyPart?
    requires var m := sent[|r.delivered|]; Usable(m, flags) && got == m.Body()
    ensures AfterBodyBytes(r, got) == r.(pc := Idle, delivered := sent[..|r.delivered| + 1])
  {
    hide EncodeWord, DecodeWord, EncodePointer, DecodePointer, ReceiveBody, IsZero;
    assert got + [] == got;
    BodyReceived(sent[|r.delivered|], flags, r.rx, []);
    assert r.delivered + [sent[|r.delivered|]] == sent[..|r.delivered| + 1];
  }

  /** The bytes in flight after the last read of a body. */
  lemma BodyReadFlows(p: Pair, n: nat)
    requires Inv(p) && Enabled(p, TakeBody(n)) && |p.receiver.pc.got| + n == p.receiver.rx.recvSize
    ensures var d := |p.receiver.delivered|;
            && p.receiver.pc.got + p.tx.unread[..n] == p.sender.sent[d].Body()
            && p.tx.unread[n..] + Unwritten(p.sender, p.flags)
               == Stream(p.sender.sent[d + 1..], TYPE_SOCKET_TX, p.flags)
  {
    hide EncodeWord, DecodeWord, EncodeHeader, DecodeHeader, Stream, Frame, AckInv, Unwritten, NotificationOf, ReceiveBody,
         Matches, Message.Body, Message.Size, SenderInv, AfterBodyBytes;
    var d := |p.receiver.delivered|;
    var ms := p.sender.sent[d..];
    var h := EncodeHeader(HeaderOf(ms[0], p.flags));
    var got, rest, u := p.receiver.pc.got + p.tx.unread[..n], p.tx.unread[n..], Unwritten(p.sender, p.flags);
    ReadOn(h, p.receiver.pc.got, p.tx.unread, n, u);
    ConcatAssociates(h + got, rest, u);
    BodyRead(got, rest + u, ms, p.flags);
    assert ms[1..] == p.sender.sent[d + 1..];
  }

  lemma TakeBodyKeepsInv(p: Pair, n: nat)
    requires Inv(p) && Enabled(p, TakeBody(n))
    ensures Inv(Next(p, TakeBody(n)))
  {
    hide EncodeWord, DecodeWord, EncodeHeader, DecodeHeader, Stream, Frame, Acks, Unwritten, NotificationOf, ReceiveBody,
         IsZero, Message.Body, Message.Size;
    var got, u := p.receiver.pc.got + p.tx.unread[..n], Unwritten(p.sender, p.flags);
    if |got| == p.receiver.rx.recvSize {
      BodyReadFlows(p, n);
      BodyCompletes(p.receiver, p.sender.sent, p.flags, got);
      assert [] + p.tx.unread[n..] == p.tx.unread[n..];
    } else {
      ReadOn(EncodeHeader(Header(TYPE_SOCKET_TX, p.flags, p.receiver.rx.recvBufSize)), p.receiver.pc.got, p.tx.unread, n, u);
    }
  }

  lemma BeginAwaitKeepsInv(p: Pair)
    requires Inv(p) && Enabled(p, BeginAwait)
    ensures Inv(Next(p, BeginAwait))
  {
    hide Stream, Frame, Acks, Taken, NotificationOf, ReceiverInv, Usable, EncodeWord;
  }

  /** A receiver that has taken no bytes of a message. */
  predicate Between(pc: ReceiverPc) {
    pc.Idle? || pc.AckNext? || pc == HeaderPart([])
  }

  lemma BetweenKeepsReceiverInv(r: Receiver, r': Receiver, sent: seq<Message>, flags: bv32)
    requires ReceiverInv(r, sent, flags) && Between(r.pc) && Between(r'.pc)
    requires r'.rx == r.rx && r'.delivered == r.delivered
    ensures ReceiverInv(r', sent, flags) && Taken(r', flags) == Taken(r, flags) && |r.delivered| <= |sent|
  {
    hide Matches, EncodeHeader;
  }

  lemma BeginReceiveKeepsInv(p: Pair)
    requires Inv(p) && Enabled(p, BeginReceive)
    ensures Inv(Next(p, BeginReceive))
  {
    hide Stream, Unwritten, Taken, NotificationOf, SenderInv, ReceiverInv, AckInv;
    BetweenKeepsReceiverInv(p.receiver, Next(p, BeginReceive).receiver, p.sender.sent, p.flags);
  }

  lemma WriteAckKeepsInv(p: Pair, a: Action)
    requires Inv(p) && Enabled(p, a) && (a.WriteAck? || a.NotifySend?)
    ensures Inv(Next(p, a))
  {
    hide Stream, Unwritten, Taken, NotificationOf, SenderInv, ReceiverInv, AckInv, EncodeWord;
    BetweenKeepsReceiverInv(p.receiver, Next(p, a).receiver, p.sender.sent, p.flags);
    WriteAckKeepsAckInv(p.sender, p.ack, p.receiver.acksSent);
  }

  lemma StepKeepsInv(p: Pair, a: Action)
    requires Inv(p) && Enabled(p, a)
    ensures Inv(Next(p, a))
  {
    hide Inv, Enabled, Next;
    match a
    case BeginSend(m) => BeginSendKeepsInv(p, m);
    case WriteHeader => WriteHeaderKeepsInv(p);
    case WriteBody => WriteBodyKeepsInv(p);
    case BeginAwait => BeginAwaitKeepsInv(p);
    case TakeAck(n) => TakeAckKeepsInv(p, n);
    case BeginReceive => BeginReceiveKeepsInv(p);
    case WriteAck => WriteAckKeepsInv(p, a);
    case TakeHeader(n) => TakeHeaderKeepsInv(p, n);
    case TakeBody(n) => TakeBodyKeepsInv(p, n);
    case NotifySend => WriteAckKeepsInv(p, a);
  }

  // ----- every run

  predicate IsRun(p: Pair, run: seq<Action>)
    decreases |run|
  {
    run == [] || (Enabled(p, run[0]) && IsRun(Next(p, run[0]), run[1..]))
  }

  function After(p: Pair, run: seq<Action>): Pair
    requires IsRun(p, run)
    decreases |run|
  {
    if run == [] then p else After(Next(p, run[0]), run[1..])
  }

  lemma NewPairInv(flags: bv32)
    ensures Inv(NewPair(flags))
  {
  }

  lemma {:induction false} RunKeepsInv(p: Pair, run: seq<Action>)
    requires Inv(p) && IsRun(p, run)
    ensures Inv(After(p, run))
    decreases |run|
  {
    hide Inv, Enabled, Next;
    if run == [] {
    } else {
      StepKeepsInv(p, run[0]);
      RunKeepsInv(Next(p, run[0]), run[1..]);
    }
  }

  lemma StepKeepsFlags(p: Pair, a: Action)
    requires Enabled(p, a)
    ensures Next(p, a).flags == p.flags
  {
  }

  lemma {:induction false} FlagsConstant(p: Pair, run: seq<Action>)
    requires IsRun(p, run)
    ensures After(p, run).flags == p.flags
    decreases |run|
  {
    if run == [] {
    } else {
      StepKeepsFlags(p, run[0]);
      FlagsConstant(Next(p, run[0]), run[1..]);
    }
  }

  /** Whatever the interleaving and however the bytes are split into reads: one direction carries
      whole frames in order and the other acknowledgements only, the receiver has delivered exactly
      the first messages that were sent, and neither end ever takes its error branch. */
  lemma DirectionPurity(flags: bv32, run: seq<Action>)
    requires IsRun(NewPair(flags), run)
    ensures var p := After(NewPair(flags), run);
            && p.tx.history <= Stream(p.sender.sent, TYPE_SOCKET_TX, flags)
            && p.ack.history == Acks(p.receiver.acksSent)
            && p.receiver.delivered <= p.sender.sent
            && p.sender.acksReceived <= p.receiver.acksSent
            && !p.sender.pc.BadAck? && !p.receiver.pc.Crashed?
  {
    hide Enabled, Next, Stream, Acks, Unwritten, Taken, AckTaken;
    NewPairInv(flags);
    RunKeepsInv(NewPair(flags), run);
    FlagsConstant(NewPair(flags), run);
  }
}
