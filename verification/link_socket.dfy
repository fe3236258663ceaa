/** One socket link end (icomLink_t with its icomLinkSocket_t) and the handlers that work on it. */
module LinkSocket {
  import opened Sequences
  import opened Wire
  import opened FlagBits
  import opened MessageStream
  import opened OperatingSystem

  /** Three of these are not statuses of the library. Overrun marks where link_recvData would write or
      read outside the buffer, Indeterminate what is read outside an array: the handler table, or the
      statuses of an object without links. Misdirected marks a call on descriptor 0, which a link that is
      not connected has in place of its own. */
  datatype Status =
    | Success | InvalidArgument | Error | ConnectionRefused | Partial | Timeout | NotImplemented | InvalidType | NoMemory
    | Overrun | Indeterminate | Misdirected

  /** Why a system call failed: it would have blocked or timed out, the peer refused, or anything else. */
  datatype Fault = Again | RefusedByPeer | OtherFault

  /** The fault behind a status. */
  function FaultsOf(st: Status): seq<Fault> {
    match st
    case Timeout => [Again]
    case ConnectionRefused => [RefusedByPeer]
    case Error => [OtherFault]
    case _ => []
  }

  /** The functions a handler field can point to. */
  datatype Handler = Nop | Fail | SendMessage | ReceiveMessage | SendAck | RecvAck | AutoSendAck | AutoRecvAck

  datatype Handlers = Handlers(send: Handler, recv: Handler, notifySend: Handler, notifyRecv: Handler,
                               autoSendAck: Handler, autoRecvAck: Handler)

  function ConnectHandlers(flags: bv32): Handlers {
    match NotificationOf(flags)
    case AutoNotify => Handlers(SendMessage, Fail, Fail, Nop, Nop, AutoRecvAck)
    case Notify => Handlers(SendMessage, Fail, Fail, RecvAck, Nop, Nop)
    case Plain => Handlers(SendMessage, ReceiveMessage, Nop, Nop, Nop, Nop)
  }

  function BindHandlers(flags: bv32): Handlers {
    match NotificationOf(flags)
    case AutoNotify => Handlers(Fail, ReceiveMessage, Nop, Fail, AutoSendAck, Nop)
    case Notify => Handlers(Fail, ReceiveMessage, SendAck, Fail, Nop, Nop)
    case Plain => Handlers(SendMessage, ReceiveMessage, Nop, Nop, Nop, Nop)
  }

  predicate HandlersOk(h: Handlers) {
    && h.send in {SendMessage, Fail} && h.recv in {ReceiveMessage, Fail}
    && h.notifySend in {Nop, Fail, SendAck} && h.notifyRecv in {Nop, Fail, RecvAck}
    && h.autoSendAck in {Nop, AutoSendAck, SendAck} && h.autoRecvAck in {Nop, AutoRecvAck, RecvAck}
  }

  /** What autoSendAck is after a call, and what that call sends. */
  function Armed(h: Handlers): Handlers {
    if h.autoSendAck.AutoSendAck? then h.(autoSendAck := SendAck) else h
  }

  function AckOf(h: Handlers): seq<byte> {
    if h.autoSendAck.SendAck? then EncodeWord(ACK) else []
  }

  /** What autoRecvAck is after a call, and how many bytes that call reads. */
  function Awaited(h: Handlers): Handlers {
    if h.autoRecvAck.AutoRecvAck? then h.(autoRecvAck := RecvAck) else h
  }

  predicate AwaitsAck(h: Handlers) {
    !h.autoRecvAck.Nop?
  }

  /** The two ends of a link configured alike fit together. One end awaits an acknowledgement, by
      itself or on request, exactly if the other sends one in the same way, and which way follows
      from the flags, autonotify first. With either kind of notification messages go one way and
      acknowledgements the other; without it both ends can send and receive. */
  lemma EndsAgree(flags: bv32)
    ensures var tx, rx := ConnectHandlers(flags), BindHandlers(flags);
            && (AwaitsAck(tx) <==> !rx.autoSendAck.Nop?) && (AwaitsAck(tx) <==> flags & FLAG_AUTONOTIFY != 0)
            && (tx.notifyRecv.RecvAck? <==> rx.notifySend.SendAck?)
            && (tx.notifyRecv.RecvAck? <==> flags & FLAG_NOTIFY != 0 && flags & FLAG_AUTONOTIFY == 0)
            && (flags & FLAG_NOTIFY != 0 || flags & FLAG_AUTONOTIFY != 0 ==>
                  tx.send.SendMessage? && rx.recv.ReceiveMessage?
                  && tx.recv.Fail? && tx.notifySend.Fail? && rx.send.Fail? && rx.notifyRecv.Fail?)
            && (flags & FLAG_NOTIFY == 0 && flags & FLAG_AUTONOTIFY == 0 ==>
                  tx == rx == Handlers(SendMessage, ReceiveMessage, Nop, Nop, Nop, Nop))
            && HandlersOk(tx) && HandlersOk(rx)
  {
  }

  /** The receive block: the address of the owning link in front, then as much payload as announced. */
  predicate BlockOk(addr: nat, rx: Rx, block: seq<byte>) {
    && |block| == POINTER_SIZE + rx.recvBufSize
    && addr < POINTER_LIMIT
    && block[..POINTER_SIZE] == EncodePointer(addr)
    && rx.Valid()
  }

  /** The first n bytes of the payload. */
  function Filled(block: seq<byte>, n: nat): seq<byte>
    requires POINTER_SIZE + n <= |block|
  {
    block[POINTER_SIZE..POINTER_SIZE + n]
  }

  function OwnedBy(kind: nat, fd: nat, fdAccepted: nat): set<nat> {
    {fd} + if kind == TYPE_SOCKET_RX && fdAccepted != 0 then {fdAccepted} else {}
  }

  /** A binding end listens on fd and owns what it accepts; a connecting end has one descriptor,
      which fdAccepted repeats once it is connected. */
  predicate Attached(kind: nat, fd: nat, fdAccepted: nat, open: set<nat>, listening: set<nat>) {
    && fd in open && fd != 0
    && (kind == TYPE_SOCKET_RX || kind == TYPE_SOCKET_TX)
    && (fd in listening <==> kind == TYPE_SOCKET_RX)
    && (fdAccepted != 0 ==>
          if kind == TYPE_SOCKET_RX then fdAccepted in open && fdAccepted != fd && fdAccepted !in listening
          else fdAccepted == fd)
  }

  /** The link came to own the descriptors that were opened, and no other. */
  predicate OpenedOwn(ownedBefore: set<nat>, openBefore: set<nat>, ownedAfter: set<nat>, openAfter: set<nat>) {
    && ownedBefore <= ownedAfter
    && openAfter == openBefore + ownedAfter
    && (ownedAfter - ownedBefore) !! openBefore
  }

  /** Everything a link end consists of. block is the heap block of the receive buffer: the address
      of the link, then the payload, which recvBuf points to. inbound is what the peer sends from
      now on, outbound what this end has sent. */
  datatype LinkState = LinkState(
    addr: nat, endpoint: string, kind: nat, handlers: Handlers, rx: Rx, recvBuf: nat, block: seq<byte>,
    fd: nat, fdAccepted: nat, inbound: seq<byte>, outbound: seq<byte>, faults: seq<Fault>)
  {
    function Payload(): seq<byte>
      requires |block| >= POINTER_SIZE
    {
      block[POINTER_SIZE..]
    }

    /** The payload, or the pointer at its start, is the message. */
    predicate Holds(m: Message)
      requires |block| >= POINTER_SIZE
    {
      && rx.recvBufSize == m.Size()
      && (m.Zero? <==> IsZero(rx.flags))
      && match m
         case Deep(bytes) => Payload() == bytes
         case Zero(pointer, size) =>
           |block| >= 2 * POINTER_SIZE && DecodePointer(block[POINTER_SIZE..2 * POINTER_SIZE]) == pointer
    }

    function BufferOf(m: Message): nat {
      if m.Zero? then m.pointer else recvBuf
    }
  }

  predicate StateOk(s: LinkState, open: set<nat>, listening: set<nat>, blocks: set<nat>) {
    && BlockOk(s.addr, s.rx, s.block) && s.recvBuf > 0 && s.recvBuf in blocks
    && HandlersOk(s.handlers)
    && Attached(s.kind, s.fd, s.fdAccepted, open, listening)
  }

  lemma OkHandlers(s: LinkState, host: Host)
    requires StateOk(s, host.open, host.listening, host.blocks)
    ensures HandlersOk(s.handlers)
  {
  }

  lemma BlockHasOwner(addr: nat, rx: Rx, block: seq<byte>)
    requires BlockOk(addr, rx, block)
    ensures |block| >= POINTER_SIZE
  {
  }

  /** The message that a send of the content at address buf is, on a link with these flags. */
  function Outgoing(flags: bv32, buf: nat, content: seq<byte>): Message {
    if IsZero(flags) then Zero(buf, |content|) else Deep(content)
  }

  datatype RecvResult = Bytes(bytes: seq<byte>) | WouldBlock | RecvFailed

  // ----- what is read and what is left

  /** after is what is left of before when none, some or all of it was read. */
  predicate RestOf(before: seq<byte>, after: seq<byte>) {
    |after| <= |before| && after == before[|before| - |after|..]
  }

  lemma ReadLeavesRest(before: seq<byte>, got: seq<byte>, after: seq<byte>)
    requires before == got + after
    ensures RestOf(before, after)
  {
  }

  lemma RestIsShorter(before: seq<byte>, after: seq<byte>)
    requires RestOf(before, after)
    ensures |after| <= |before|
  {
  }

  lemma RestOfRest(a: seq<byte>, b: seq<byte>, c: seq<byte>)
    requires RestOf(a, b) && RestOf(b, c)
    ensures RestOf(a, c)
  {
  }

  /** after is what is left of before when fewer than limit bytes were read. */
  predicate ReadPart(before: seq<byte>, after: seq<byte>, limit: nat) {
    RestOf(before, after) && |before| - |after| < limit
  }

  lemma SplitLeaves(before: seq<byte>, got: seq<byte>, after: seq<byte>, limit: nat)
    requires IsSplit(before, got, after)
    ensures RestOf(before, after)
    ensures |got| < limit ==> ReadPart(before, after, limit)
  {
  }

  /** Only the beginning of bytes was sent. */
  ghost predicate SentPart(before: seq<byte>, after: seq<byte>, bytes: seq<byte>) {
    exists n: nat :: n < |bytes| && after == before + bytes[..n]
  }

  /** None, some or all of bytes was sent. */
  predicate Begun(before: seq<byte>, after: seq<byte>, bytes: seq<byte>) {
    before <= after <= before + bytes
  }

  lemma FilledBuffer(rx: Rx, block: seq<byte>, before: seq<byte>, after: seq<byte>)
    requires |block| == POINTER_SIZE + rx.recvBufSize && rx.Valid() && rx.recvSize <= rx.recvBufSize
    requires IsZero(rx.flags) ==> rx.recvBufSize >= POINTER_SIZE
    requires before == block[POINTER_SIZE..POINTER_SIZE + rx.recvSize] + after
    ensures var payload := block[POINTER_SIZE..];
            ReceiveBody(rx, before)
            == Received(if IsZero(rx.flags) then Zero(DecodePointer(block[POINTER_SIZE..2 * POINTER_SIZE]), rx.recvBufSize)
                        else Deep(payload), rx, after)
    ensures !IsZero(rx.flags) ==> rx.recvSize == rx.recvBufSize
  {
    hide IsZero, DecodePointer;
    assert before[..rx.recvSize] == block[POINTER_SIZE..POINTER_SIZE + rx.recvSize];
    assert before[rx.recvSize..] == after;
    if !IsZero(rx.flags) {
      assert block[POINTER_SIZE..POINTER_SIZE + rx.recvSize] == block[POINTER_SIZE..];
    }
  }

  /** At most the one block has moved, to an address that was free. */
  predicate MovedBlock(was: nat, blocksBefore: set<nat>, now: nat, blocksAfter: set<nat>) {
    && blocksAfter == blocksBefore - {was} + {now}
    && (now == was || now !in blocksBefore)
  }

  /** realloc keeps the common part; what it adds may be anything. */
  method Resize(block: seq<byte>, size: nat) returns (r: seq<byte>)
    ensures |r| == size
    ensures r[..if size < |block| then size else |block|] == block[..if size < |block| then size else |block|]
  {
    r := if size < |block| then block[..size] else block;
    while |r| < size
      invariant |r| <= size
      invariant |r| >= (if size < |block| then size else |block|)
      invariant r[..if size < |block| then size else |block|] == block[..if size < |block| then size else |block|]
    {
      var junk: byte := *;
      r := r + [junk];
    }
  }

  // ----- what a send, a receive and an acknowledgement come to

  /** A successful send: the message is on the wire and its acknowledgement, if the link awaits one,
      has come in. */
  predicate SentBy(before: LinkState, after: LinkState, buf: nat, content: seq<byte>) {
    && after.fdAccepted != 0
    && after == before.(fdAccepted := after.fdAccepted, inbound := after.inbound, handlers := Awaited(before.handlers),
                        outbound := before.outbound
                                    + Frame(Outgoing(before.rx.flags, buf, content), before.kind, before.rx.flags))
    && (if AwaitsAck(before.handlers) then
          |before.inbound| >= WORD_SIZE && DecodeWord(before.inbound[..WORD_SIZE]) == ACK
          && after.inbound == before.inbound[WORD_SIZE..]
        else after.inbound == before.inbound)
  }

  /** A send, successful or not, writes the frame of this one message or the beginning of it, reads
      at most an acknowledgement that the link awaits, and leaves the receive side alone. */
  predicate SendTouches(before: LinkState, after: LinkState, buf: nat, content: seq<byte>) {
    && after == before.(fdAccepted := after.fdAccepted, inbound := after.inbound, outbound := after.outbound,
                        handlers := after.handlers, faults := after.faults)
    && (before.fdAccepted != 0 ==> after.fdAccepted == before.fdAccepted)
    && after.handlers in {before.handlers, Awaited(before.handlers)}
    && Begun(before.outbound, after.outbound, Frame(Outgoing(before.rx.flags, buf, content), before.kind, before.rx.flags))
    && RestOf(before.inbound, after.inbound)
    && (!AwaitsAck(before.handlers) ==> after.inbound == before.inbound)
  }

  /** Four bytes that are not an acknowledgement were read where one was awaited. */
  predicate WrongAck(before: LinkState, after: LinkState) {
    && |before.inbound| >= WORD_SIZE && DecodeWord(before.inbound[..WORD_SIZE]) != ACK
    && after.inbound == before.inbound[WORD_SIZE..] && after.faults == before.faults
  }

  /** All that a successful send leaves behind, by whatever status. */
  predicate SentOut(before: LinkState, after: LinkState, buf: nat, content: seq<byte>) {
    SentBy(before, after.(faults := before.faults), buf, content)
  }

  /** A send fails through a fault of one system call, through a payload cut short, or through a wrong
      acknowledgement; otherwise it succeeds. It can fail with everything done only for an empty
      payload, which is all sent with its header. */
  predicate SendExplained(before: LinkState, after: LinkState, buf: nat, content: seq<byte>, st: Status) {
    && st in {Success, ConnectionRefused, Partial, Timeout, Error}
    && (after.faults == before.faults + FaultsOf(st)
        || (st.Error? && AwaitsAck(before.handlers) && WrongAck(before, after)))
    && (st.Success? ==> SentBy(before, after, buf, content))
    && (SentOut(before, after, buf, content) && !st.Success? ==>
          content == [] && !IsZero(before.rx.flags) && !AwaitsAck(before.handlers))
  }

  /** The same of what the handler field points to. */
  predicate CallSendExplained(before: LinkState, after: LinkState, buf: nat, content: seq<byte>, st: Status) {
    if before.handlers.send.Fail? then st.Error? && after == before else SendExplained(before, after, buf, content, st)
  }

  lemma NothingTouched(s: LinkState, faults: seq<Fault>, buf: nat, content: seq<byte>)
    ensures SendTouches(s, s.(faults := faults), buf, content) && !SentOut(s, s.(faults := faults), buf, content)
  {
    hide Outgoing, EncodeHeader, DecodeWord;
    var f := Frame(Outgoing(s.rx.flags, buf, content), s.kind, s.rx.flags);
    assert |f| >= HEADER_SIZE && |s.outbound + f| > |s.outbound|;
  }

  /** A send that had to connect first. */
  lemma ConnectedTouches(before: LinkState, connected: LinkState, after: LinkState, buf: nat, content: seq<byte>, st: Status)
    requires connected == before.(fdAccepted := connected.fdAccepted) && connected.fdAccepted != 0
    requires before.fdAccepted != 0 ==> connected == before
    requires SendTouches(connected, after, buf, content) && SendExplained(connected, after, buf, content, st)
    ensures SendTouches(before, after, buf, content) && SendExplained(before, after, buf, content, st)
    ensures after == before.(fdAccepted := connected.fdAccepted, inbound := after.inbound, outbound := after.outbound,
                             handlers := after.handlers, faults := after.faults)
  {
    hide Frame, Outgoing, DecodeWord, FaultsOf;
  }

  lemma NotConnected(before: LinkState, faults: seq<Fault>, buf: nat, content: seq<byte>, st: Status)
    requires st in {ConnectionRefused, Error} && faults == before.faults + FaultsOf(st)
    ensures SendTouches(before, before.(faults := faults), buf, content)
    ensures SendExplained(before, before.(faults := faults), buf, content, st)
  {
    hide SendTouches, SentOut, Outgoing;
    NothingTouched(before, faults, buf, content);
  }

  /** icom_notify_send on one link: an acknowledgement on a notify receiver, nothing on a link where
      it is not for the caller to send one, an error on a notifying sender. */
  predicate AckSentBy(before: LinkState, after: LinkState, st: Status) {
    match before.handlers.notifySend
    case SendAck =>
      if before.fdAccepted == 0 then st.Misdirected? && after == before
      else
        && st in {Success, Timeout, Error}
        && after == before.(faults := before.faults + FaultsOf(st),
                            outbound := if st.Success? then before.outbound + EncodeWord(ACK) else before.outbound)
    case Nop => st.Success? && after == before
    case _ => st.Error? && after == before
  }

  predicate TakenAsAck(before: LinkState, after: LinkState, st: Status) {
    if st.Success? then
      && |before.inbound| >= WORD_SIZE && DecodeWord(before.inbound[..WORD_SIZE]) == ACK
      && after.inbound == before.inbound[WORD_SIZE..] && after.faults == before.faults
    else
      || (after.faults == before.faults + FaultsOf(st) && ReadPart(before.inbound, after.inbound, WORD_SIZE))
      || (st.Error? && WrongAck(before, after))
  }

  /** icom_notify_recv on one link: it succeeds exactly if an acknowledgement was there to be read, and
      fails through a fault before its last byte or through four other bytes. */
  predicate AckTakenBy(before: LinkState, after: LinkState, st: Status) {
    match before.handlers.notifyRecv
    case RecvAck =>
      if before.fdAccepted == 0 then st.Misdirected? && after == before
      else
        && st in {Success, Timeout, Error}
        && after == before.(inbound := after.inbound, faults := after.faults)
        && TakenAsAck(before, after, st)
    case Nop => st.Success? && after == before
    case _ => st.Error? && after == before
  }

  lemma TakenBesides(before: LinkState, armed: LinkState, after: LinkState, st: Status)
    requires armed == before.(handlers := armed.handlers) && TakenAsAck(armed, after, st)
    ensures TakenAsAck(before, after, st)
  {
    hide DecodeWord, FaultsOf;
  }

  /** A successful receive: the next message of the stream was taken and is in the buffer, and an
      acknowledgement was sent if the link was armed for it. */
  predicate ReceivedBy(before: LinkState, after: LinkState) {
    var r := ReceiveOne(before.rx, before.inbound);
    && r.Received? && |after.block| >= POINTER_SIZE && after.Holds(r.message)
    && after.fdAccepted != 0 && (before.fdAccepted != 0 ==> after.fdAccepted == before.fdAccepted)
    && after == before.(rx := r.rx, inbound := r.rest, recvBuf := after.recvBuf, block := after.block,
                        fdAccepted := after.fdAccepted, handlers := Armed(before.handlers),
                        outbound := before.outbound + AckOf(before.handlers))
  }

  /** What the caller of that receive is given. */
  predicate Handed(before: LinkState, after: LinkState, buf: nat, size: nat)
    requires ReceivedBy(before, after)
  {
    var m := ReceiveOne(before.rx, before.inbound).message;
    buf == after.BufferOf(m) && size == m.Size()
  }

  /** The receive state is still the old one, or set up by the header in front of the bytes. */
  predicate SetUpBy(before: Rx, after: Rx, inbound: seq<byte>) {
    after == before || (|inbound| >= HEADER_SIZE && after == AfterHeader(before, DecodeHeader(inbound[..HEADER_SIZE])))
  }

  /** The acknowledgement that was due has been sent and the link is armed, or nothing of this. */
  predicate AckDueOrKept(before: LinkState, after: LinkState) {
    || (after.handlers == before.handlers && after.outbound == before.outbound)
    || (after.handlers == Armed(before.handlers) && after.outbound == before.outbound + AckOf(before.handlers))
  }

  /** A receive, successful or not, reads on in the stream, sends at most the acknowledgement that is
      due, takes its set-up from the next header if from any, and leaves a link what and whose it is. */
  predicate ReceiveTouches(before: LinkState, after: LinkState) {
    && after == before.(rx := after.rx, recvBuf := after.recvBuf, block := after.block, fdAccepted := after.fdAccepted,
                        inbound := after.inbound, handlers := after.handlers, outbound := after.outbound,
                        faults := after.faults)
    && (before.fdAccepted != 0 ==> after.fdAccepted == before.fdAccepted)
    && AckDueOrKept(before, after)
    && RestOf(before.inbound, after.inbound)
    && SetUpBy(before.rx, after.rx, before.inbound)
  }

  /** The next message of the stream has been taken, all of it. */
  predicate TookWhole(rx: Rx, before: seq<byte>, after: seq<byte>) {
    var r := ReceiveOne(rx, before); r.Received? && after == r.rest
  }

  /** Less than a header has been taken, or a header and less than the body it announces. */
  predicate TookPart(before: Rx, after: Rx, inbound: seq<byte>, rest: seq<byte>) {
    || (after == before && ReadPart(inbound, rest, HEADER_SIZE))
    || (|inbound| >= HEADER_SIZE && after == AfterHeader(before, DecodeHeader(inbound[..HEADER_SIZE]))
        && ReadPart(inbound, rest, HEADER_SIZE + after.recvSize))
  }

  lemma ReceiptSize(rx: Rx, s: seq<byte>)
    ensures ReceiveOne(rx, s).Received? ==>
              |s| >= HEADER_SIZE
              && |ReceiveOne(rx, s).rest| == |s| - HEADER_SIZE - AfterHeader(rx, DecodeHeader(s[..HEADER_SIZE])).recvSize
  {
    hide DecodeHeader, AfterHeader, DecodePointer, IsZero;
  }

  lemma PartIsNotWhole(before: Rx, after: Rx, inbound: seq<byte>, rest: seq<byte>)
    requires TookPart(before, after, inbound, rest)
    ensures !TookWhole(before, inbound, rest)
  {
    hide ReceiveOne, DecodeHeader, AfterHeader;
    ReceiptSize(before, inbound);
  }

  lemma WholeTaken(rx: Rx, inbound: seq<byte>, rest: seq<byte>)
    requires |inbound| >= HEADER_SIZE
    requires var r := ReceiveBody(AfterHeader(rx, DecodeHeader(inbound[..HEADER_SIZE])), inbound[HEADER_SIZE..]);
             r.Received? && rest == r.rest
    ensures TookWhole(rx, inbound, rest)
  {
    hide DecodeHeader, AfterHeader, ReceiveBody;
  }

  lemma HeaderFailed(rx: Rx, inbound: seq<byte>, rest: seq<byte>)
    requires ReadPart(inbound, rest, HEADER_SIZE)
    ensures TookPart(rx, rx, inbound, rest) && !TookWhole(rx, inbound, rest)
  {
    hide TookWhole, DecodeHeader, AfterHeader;
    PartIsNotWhole(rx, rx, inbound, rest);
  }

  lemma NothingTaken(rx: Rx, inbound: seq<byte>)
    ensures RestOf(inbound, inbound) && TookPart(rx, rx, inbound, inbound) && !TookWhole(rx, inbound, inbound)
  {
    hide TookWhole, TookPart;
    HeaderFailed(rx, inbound, inbound);
  }

  lemma BodyFailed(rx: Rx, inbound: seq<byte>, rest: seq<byte>)
    requires |inbound| >= HEADER_SIZE
    requires ReadPart(inbound[HEADER_SIZE..], rest, AfterHeader(rx, DecodeHeader(inbound[..HEADER_SIZE])).recvSize)
    ensures TookPart(rx, AfterHeader(rx, DecodeHeader(inbound[..HEADER_SIZE])), inbound, rest)
    ensures !TookWhole(rx, inbound, rest)
  {
    hide TookWhole, DecodeHeader, AfterHeader;
    PartIsNotWhole(rx, AfterHeader(rx, DecodeHeader(inbound[..HEADER_SIZE])), inbound, rest);
  }

  lemma BodyOverran(rx: Rx, inbound: seq<byte>, rest: seq<byte>)
    requires |inbound| >= HEADER_SIZE
    requires var now := AfterHeader(rx, DecodeHeader(inbound[..HEADER_SIZE])); IsZero(now.flags) && now.recvBufSize < POINTER_SIZE
    ensures !TookWhole(rx, inbound, rest)
  {
    hide DecodeHeader, AfterHeader, DecodePointer, IsZero;
  }

  /** A receive fails through a fault of one system call, and then has taken a part of a message at most,
      or it leaves the buffer, for a pointer announced with less than a pointer's size; it never ends
      with a partial payload. Otherwise it succeeds: it succeeds exactly if it took a whole message. */
  predicate Explained(before: LinkState, after: LinkState, st: Status) {
    && st in {Success, Timeout, Error, Overrun}
    && after.faults == before.faults + FaultsOf(st)
    && (st.Timeout? || st.Error? ==> TookPart(before.rx, after.rx, before.inbound, after.inbound))
    && (st.Overrun? ==> IsZero(after.rx.flags) && after.rx.recvBufSize < POINTER_SIZE)
    && (st.Success? <==> TookWhole(before.rx, before.inbound, after.inbound))
  }

  /** The same of what the handler field points to. */
  predicate CallExplained(before: LinkState, after: LinkState, st: Status) {
    if before.handlers.recv.Fail? then st.Error? && after == before else Explained(before, after, st)
  }

  /** A receive that failed before its acknowledgement, in accept or in sending that. */
  predicate StoppedEarly(before: LinkState, after: LinkState) {
    && after == before.(fdAccepted := after.fdAccepted, faults := after.faults)
    && (before.fdAccepted != 0 ==> after.fdAccepted == before.fdAccepted)
  }

  /** A receive that failed after its acknowledgement and before the first byte of a header. */
  predicate StoppedLate(before: LinkState, after: LinkState) {
    && after == before.(fdAccepted := after.fdAccepted, handlers := Armed(before.handlers), faults := after.faults,
                        outbound := before.outbound + AckOf(before.handlers))
    && after.fdAccepted != 0 && (before.fdAccepted != 0 ==> after.fdAccepted == before.fdAccepted)
  }

  /** A receive that consumed nothing leaves the receive state alone. It may have accepted the peer,
      and it may have used up the acknowledgement that was due. */
  predicate NothingReceived(before: LinkState, after: LinkState) {
    StoppedEarly(before, after) || StoppedLate(before, after)
  }

  // ----- a link end

  class Link {
    const addr: nat
    const endpoint: string
    var kind: nat
    var flags: bv32
    var recvBuf: nat
    var recvSize: nat
    var recvBufSize: nat
    var handlers: Handlers
    var block: seq<byte>
    var fd: nat
    var fdAccepted: nat
    var inbound: seq<byte>
    var outbound: seq<byte>
    var faults: seq<Fault>          // of the system calls on this link, in order

    constructor (addr: nat, endpoint: string, kind: nat, flags: bv32, handlers: Handlers, fd: nat, recvBuf: nat,
                 inbound: seq<byte>)
      ensures State() == LinkState(addr, endpoint, kind, handlers, FreshRx(flags), recvBuf, EncodePointer(addr),
                                   fd, 0, inbound, [], [])
    {
      this.addr, this.endpoint, this.kind, this.flags, this.handlers := addr, endpoint, kind, flags, handlers;
      this.fd, this.fdAccepted := fd, 0;
      this.recvBuf, this.recvSize, this.recvBufSize, this.block := recvBuf, 0, 0, EncodePointer(addr);
      this.inbound, this.outbound, this.faults := inbound, [], [];
    }

    function State(): LinkState
      reads this
    {
      LinkState(addr, endpoint, kind, handlers, CurrentRx(), recvBuf, block, fd, fdAccepted, inbound, outbound, faults)
    }

    function CurrentRx(): Rx
      reads this
    {
      Rx(flags, recvSize, recvBufSize)
    }

    ghost predicate BufferValid(host: Host)
      reads this, host
    {
      BlockOk(addr, CurrentRx(), block) && recvBuf > 0 && recvBuf in host.blocks
    }

    /** The descriptors that this end has to close. */
    function Owned(): set<nat>
      reads this
    {
      OwnedBy(kind, fd, fdAccepted)
    }

    ghost predicate Valid(host: Host)
      reads this, host
    {
      host.Valid() && StateOk(State(), host.open, host.listening, host.blocks)
    }

    // ----- the socket

    /** recv: some of the bytes asked for, in order. */
    method Recv(wanted: nat) returns (r: RecvResult)
      modifies this`inbound, this`faults
      ensures match r
              case Bytes(b) =>
                |b| <= wanted && (wanted > 0 ==> |b| > 0) && old(inbound) == b + inbound && faults == old(faults)
              case WouldBlock => inbound == old(inbound) && wanted > 0 && faults == old(faults) + [Again]
              case RecvFailed => inbound == old(inbound) && wanted > 0 && faults == old(faults) + [OtherFault]
    {
      if wanted == 0 {
        return Bytes([]);
      }
      var quiet: bool, failed: bool := *, *;
      if |inbound| == 0 || quiet {
        faults := faults + [if failed then OtherFault else Again];
        return if failed then RecvFailed else WouldBlock;
      }
      var n: nat :| 1 <= n <= wanted && n <= |inbound|;
      r := Bytes(inbound[..n]);
      inbound := inbound[n..];
    }

    /** What send returned -1 for, if it did. */
    method SendFault() returns (st: Status)
      modifies this`faults
      ensures st in {Success, Timeout, Error} && faults == old(faults) + FaultsOf(st)
    {
      var failed: bool, again: bool := *, *;
      assert faults + [] == faults;
      st := if !failed then Success else if again then Timeout else Error;
      faults := faults + FaultsOf(st);
    }

    /** send of a header or an acknowledgement: all of it or nothing. */
    method SendWhole(bytes: seq<byte>) returns (st: Status)
      modifies this`outbound, this`faults
      ensures st in {Success, Timeout, Error} && faults == old(faults) + FaultsOf(st)
      ensures outbound == if st.Success? then old(outbound) + bytes else old(outbound)
    {
      st := SendFault();
      if st.Success? {
        outbound := outbound + bytes;
      }
    }

    /** send of a payload: it may stop short. */
    method SendSome(bytes: seq<byte>) returns (st: Status, sent: nat)
      modifies this`outbound, this`faults
      ensures st in {Success, Timeout, Error} && sent <= |bytes| && faults == old(faults) + FaultsOf(st)
      ensures st.Success? ==> outbound == old(outbound) + bytes[..sent]
      ensures !st.Success? ==> outbound == old(outbound)
    {
      sent := 0;
      st := SendFault();
      if st.Success? {
        sent :| 0 <= sent <= |bytes|;
        outbound := outbound + bytes[..sent];
      }
    }

    // ----- receiving

    /** The loop that link_recvHeader and link_recvAck run over a local buffer. */
    method RecvWhole(wanted: nat) returns (st: Status, got: seq<byte>)
      requires wanted > 0
      modifies this`inbound, this`faults
      ensures st in {Success, Timeout, Error} && faults == old(faults) + FaultsOf(st)
      ensures old(inbound) == got + inbound
      ensures st.Success? ==> |got| == wanted
      ensures !st.Success? ==> ReadPart(old(inbound), inbound, wanted)
    {
      got := [];
      assert faults + [] == faults;
      while true
        invariant |got| <= wanted && old(inbound) == got + inbound
        invariant |got| < wanted && faults == old(faults)
        decreases wanted - |got|
      {
        var ret := Recv(wanted - |got|);
        if !ret.Bytes? {
          ReadLeavesRest(old(inbound), got, inbound);
          return if ret.WouldBlock? then Timeout else Error, got;
        }
        ConcatAssociates(got, ret.bytes, inbound);
        got := got + ret.bytes;
        if |got| >= wanted {
          return Success, got;
        }
      }
    }

    /** What link_recvHeader does with a header: only another size changes anything. */
    method Reconfigure(host: Host, h: Header)
      requires BufferValid(host)
      modifies this`flags, this`recvSize, this`recvBufSize, this`recvBuf, this`block, host`blocks
      ensures BufferValid(host)
      ensures State() == old(State()).(rx := AfterHeader(old(State()).rx, h), recvBuf := recvBuf, block := block)
      ensures MovedBlock(old(recvBuf), old(host.blocks), recvBuf, host.blocks)
    {
      hide EncodePointer, IsZero;
      if recvBufSize != h.bufSize {
        recvBufSize := h.bufSize;
        recvSize := if IsZero(h.flags) then POINTER_SIZE else h.bufSize;
        recvBuf := host.Reallocate(recvBuf);
        block := Resize(block, POINTER_SIZE + recvBufSize);
        flags := h.flags;
      }
    }

    method RecvHeader(host: Host) returns (st: Status)
      requires BufferValid(host)
      modifies this`inbound, this`faults, this`flags, this`recvSize, this`recvBufSize, this`recvBuf, this`block, host`blocks
      ensures BufferValid(host)
      ensures st in {Success, Timeout, Error} && faults == old(faults) + FaultsOf(st)
      ensures st.Success? ==>
                && |old(inbound)| >= HEADER_SIZE
                && State() == old(State()).(rx := AfterHeader(old(State()).rx, DecodeHeader(old(inbound)[..HEADER_SIZE])),
                                            recvBuf := recvBuf, block := block, inbound := old(inbound)[HEADER_SIZE..])
      ensures !st.Success? ==>
                && State() == old(State()).(inbound := inbound, faults := faults) && host.blocks == old(host.blocks)
                && ReadPart(old(inbound), inbound, HEADER_SIZE)
      ensures RestOf(old(inbound), inbound)
      ensures MovedBlock(old(recvBuf), old(host.blocks), recvBuf, host.blocks)
    {
      hide BlockOk, AfterHeader, DecodeHeader, ReadPart;
      assert faults + [] == faults;
      var header;
      st, header := RecvWhole(HEADER_SIZE);
      ReadLeavesRest(old(inbound), header, inbound);
      if st.Success? {
        assert old(inbound)[..HEADER_SIZE] == header;
        Reconfigure(host, DecodeHeader(header));
      }
    }

    method WriteAt(offset: nat, bytes: seq<byte>)
      requires |block| >= POINTER_SIZE + offset + |bytes|
      modifies this`block
      ensures |block| == |old(block)| && block[..POINTER_SIZE] == old(block)[..POINTER_SIZE]
      ensures Filled(block, offset + |bytes|) == Filled(old(block), offset) + bytes
    {
      var at := POINTER_SIZE + offset;
      block := block[..at] + bytes + block[at + |bytes|..];
    }

    /** One recv straight into the buffer, behind what is already there. What does not fit is not
        written: overrun says so. */
    method RecvInto(offset: nat, wanted: nat, ghost whole: seq<byte>, ghost got: seq<byte>)
      returns (r: RecvResult, overrun: bool, ghost now: seq<byte>)
      requires |block| == POINTER_SIZE + recvBufSize && offset == |got| <= recvBufSize
      requires IsSplit(whole, got, inbound) && Filled(block, offset) == got
      modifies this`inbound, this`block, this`faults
      ensures |block| == |old(block)| && block[..POINTER_SIZE] == old(block)[..POINTER_SIZE]
      ensures IsSplit(whole, now, inbound)
      ensures match r
              case Bytes(b) =>
                && |b| <= wanted && (wanted > 0 ==> |b| > 0) && |now| == offset + |b|
                && overrun == (|now| > recvBufSize)
                && (!overrun ==> Filled(block, |now|) == now)
                && faults == old(faults)
              case WouldBlock => wanted > 0 && now == got && block == old(block) && faults == old(faults) + [Again]
              case RecvFailed => wanted > 0 && now == got && block == old(block) && faults == old(faults) + [OtherFault]
    {
      hide IsSplit, Filled;
      now, overrun := got, false;
      r := Recv(wanted);
      if r.Bytes? {
        SplitMoves(whole, got, r.bytes, inbound);
        now := got + r.bytes;
        overrun := offset + |r.bytes| > recvBufSize;
        if !overrun {
          WriteAt(offset, r.bytes);
        }
      }
    }

    /** The receive loop of link_recvData. */
    method FillBuffer() returns (st: Status, bytesReceived: nat)
      requires |block| == POINTER_SIZE + recvBufSize
      modifies this`inbound, this`block, this`faults
      ensures |block| == |old(block)| && block[..POINTER_SIZE] == old(block)[..POINTER_SIZE]
      ensures st in {Success, Timeout, Error, Overrun} && faults == old(faults) + FaultsOf(st)
      ensures st.Success? ==>
                && bytesReceived == recvSize <= recvBufSize
                && old(inbound) == Filled(block, recvSize) + inbound
      ensures st.Overrun? ==> recvSize > recvBufSize
      ensures RestOf(old(inbound), inbound)
      ensures st.Timeout? || st.Error? ==> ReadPart(old(inbound), inbound, recvSize)
    {
      assert Filled(block, 0) == [];
      hide IsSplit, RestOf, ReadPart, Filled;
      bytesReceived := 0;
      ghost var got: seq<byte> := [];
      SplitAtStart(got, inbound);
      assert got + inbound == inbound && faults + [] == faults;
      while true
        invariant bytesReceived == |got| <= recvBufSize && (|got| < recvSize || recvSize == 0 == |got|)
        invariant IsSplit(old(inbound), got, inbound) && faults == old(faults)
        invariant |block| == |old(block)| && block[..POINTER_SIZE] == old(block)[..POINTER_SIZE]
        invariant Filled(block, bytesReceived) == got
        decreases recvSize - bytesReceived
      {
        var ret, overrun;
        ret, overrun, got := RecvInto(bytesReceived, recvSize - bytesReceived, old(inbound), got);
        SplitLeaves(old(inbound), got, inbound, recvSize);
        if !ret.Bytes? {
          return if ret.WouldBlock? then Timeout else Error, bytesReceived;
        }
        if overrun {
          return Overrun, bytesReceived;
        }
        bytesReceived := bytesReceived + |ret.bytes|;
        if bytesReceived >= recvSize {
          SplitIs(old(inbound), got, inbound);
          return Success, bytesReceived;
        }
      }
    }

    /** bufIn and sizeIn are what the caller's *buf and *bufSize hold, to be kept on failure. */
    method RecvData(bufIn: nat, sizeIn: nat) returns (st: Status, buf: nat, size: nat)
      requires BlockOk(addr, CurrentRx(), block)
      modifies this`inbound, this`block, this`faults
      ensures BlockOk(addr, CurrentRx(), block)
      ensures State() == old(State()).(inbound := inbound, block := block, faults := faults)
      ensures st in {Success, Timeout, Error, Overrun} && faults == old(faults) + FaultsOf(st)
      ensures st.Success? ==>
                var r := ReceiveBody(CurrentRx(), old(inbound));
                && r.Received? && r.rx == CurrentRx() && r.rest == inbound
                && State().Holds(r.message) && buf == State().BufferOf(r.message) && size == r.message.Size()
      ensures !st.Success? ==> buf == bufIn && size == sizeIn
      ensures RestOf(old(inbound), inbound)
      ensures st.Overrun? ==> IsZero(flags) && recvBufSize < POINTER_SIZE
      ensures st.Timeout? || st.Error? ==> ReadPart(old(inbound), inbound, recvSize)
    {
      hide IsZero, EncodePointer, DecodePointer, ReadPart, RestOf;
      buf, size := bufIn, sizeIn;
      var bytesReceived;
      st, bytesReceived := FillBuffer();
      if !st.Success? {
        return;
      }
      if IsZero(flags) && recvBufSize < POINTER_SIZE {
        return Overrun, buf, size;
      }
      FilledBuffer(CurrentRx(), block, old(inbound), inbound);
      if !IsZero(flags) && bytesReceived != recvBufSize {
        return Partial, recvBuf, bytesReceived;
      }
      buf := if IsZero(flags) then DecodePointer(block[POINTER_SIZE..2 * POINTER_SIZE]) else recvBuf;
      size := if IsZero(flags) then recvBufSize else bytesReceived;
    }

    method Accept(host: Host) returns (st: Status)
      requires Valid(host)
      modifies this`fdAccepted, this`faults, host`open
      ensures Valid(host)
      ensures st in {Success, Timeout, Error} && faults == old(faults) + FaultsOf(st)
      ensures State() == old(State()).(fdAccepted := fdAccepted, faults := faults)
      ensures OpenedOwn(old(Owned()), old(host.open), Owned(), host.open)
      ensures st.Success? ==> fdAccepted != 0 && (old(fdAccepted) != 0 ==> fdAccepted == old(fdAccepted))
      ensures !st.Success? ==> fdAccepted == old(fdAccepted)
    {
      assert faults + [] == faults;
      if fdAccepted == 0 {
        var conn, again := host.Accept(fd);
        if conn == -1 {
          faults := faults + [if again then Again else OtherFault];
          return if again then Timeout else Error;
        }
        fdAccepted := conn;
      }
      return Success;
    }

    method Connect(host: Host) returns (st: Status)
      requires Valid(host)
      modifies this`fdAccepted, this`faults
      ensures Valid(host) && Owned() == old(Owned())
      ensures st in {Success, ConnectionRefused, Error} && faults == old(faults) + FaultsOf(st)
      ensures State() == old(State()).(fdAccepted := fdAccepted, faults := faults)
      ensures st.Success? ==> fdAccepted != 0 && (old(fdAccepted) != 0 ==> fdAccepted == old(fdAccepted))
      ensures !st.Success? ==> fdAccepted == old(fdAccepted)
    {
      assert faults + [] == faults;
      if fdAccepted == 0 {
        var c := host.Connect(fd);
        if !c.Connected? {
          faults := faults + [if c.Refused? then RefusedByPeer else OtherFault];
          return if c.Refused? then ConnectionRefused else Error;
        }
        fdAccepted := fd;
      }
      return Success;
    }

    // ----- acknowledgements

    /** link_sendAck, which looks at no more than fdAccepted. */
    method WriteAck() returns (st: Status)
      modifies this`outbound, this`faults
      ensures fdAccepted == 0 ==> st.Misdirected? && outbound == old(outbound) && faults == old(faults)
      ensures fdAccepted != 0 ==>
                && st in {Success, Timeout, Error} && faults == old(faults) + FaultsOf(st)
                && outbound == if st.Success? then old(outbound) + EncodeWord(ACK) else old(outbound)
    {
      if fdAccepted == 0 {
        return Misdirected;
      }
      st := SendWhole(EncodeWord(ACK));
    }

    method ReadAck() returns (st: Status)
      modifies this`inbound, this`faults
      ensures fdAccepted == 0 ==> st.Misdirected? && inbound == old(inbound) && faults == old(faults)
      ensures fdAccepted != 0 ==> st in {Success, Timeout, Error} && TakenAsAck(old(State()), State(), st)
      ensures RestOf(old(inbound), inbound)
    {
      hide ReadPart;
      ReadLeavesRest(inbound, [], inbound);
      if fdAccepted == 0 {
        return Misdirected;
      }
      var got;
      st, got := RecvWhole(WORD_SIZE);
      assert old(faults) + [] == old(faults);
      ReadLeavesRest(old(inbound), got, inbound);
      if st.Success? {
        assert old(inbound)[..WORD_SIZE] == got;
        if DecodeWord(got) != ACK {
          return Error;
        }
      }
    }

    /** link->autoSendAck(...): the first call on an autonotify link only arms the next. */
    method CallAutoSendAck() returns (st: Status)
      requires HandlersOk(handlers) && fdAccepted != 0
      modifies this`handlers, this`outbound, this`faults
      ensures HandlersOk(handlers)
      ensures st in {Success, Timeout, Error} && faults == old(faults) + FaultsOf(st)
      ensures st.Success? ==> handlers == Armed(old(handlers)) && outbound == old(outbound) + AckOf(old(handlers))
      ensures !st.Success? ==> handlers == old(handlers) && outbound == old(outbound) && handlers.autoSendAck.SendAck?
    {
      assert outbound + [] == outbound && faults + [] == faults;
      st := Success;
      if handlers.autoSendAck.AutoSendAck? {
        handlers := handlers.(autoSendAck := SendAck);
      } else if handlers.autoSendAck.SendAck? {
        st := WriteAck();
      }
    }

    /** link->autoRecvAck(...). */
    method CallAutoRecvAck() returns (st: Status)
      requires HandlersOk(handlers) && fdAccepted != 0
      modifies this`handlers, this`inbound, this`faults
      ensures HandlersOk(handlers)
      ensures st in {Success, Timeout, Error}
      ensures handlers == Awaited(old(handlers))
      ensures AwaitsAck(old(handlers)) ==> TakenAsAck(old(State()), State(), st)
      ensures !AwaitsAck(old(handlers)) ==> st.Success? && inbound == old(inbound) && faults == old(faults)
      ensures RestOf(old(inbound), inbound)
    {
      hide TakenAsAck;
      ghost var before := State();
      ReadLeavesRest(inbound, [], inbound);
      st := Success;
      if handlers.autoRecvAck.AutoRecvAck? {
        handlers := handlers.(autoRecvAck := RecvAck);
        ghost var armed := State();
        st := ReadAck();
        TakenBesides(before, armed, State(), st);
      } else if handlers.autoRecvAck.RecvAck? {
        st := ReadAck();
      }
    }

    // ----- the send and receive handlers

    method SendHeader(bufSize: nat) returns (st: Status)
      modifies this`outbound, this`faults
      ensures st in {Success, Timeout, Error} && faults == old(faults) + FaultsOf(st)
      ensures outbound == if st.Success? then old(outbound) + EncodeHeader(Header(kind, flags, bufSize)) else old(outbound)
    {
      st := SendWhole(EncodeHeader(Header(kind, flags, bufSize)));
    }

    method SendData(buf: nat, content: seq<byte>) returns (st: Status)
      modifies this`outbound, this`faults
      ensures st in {Success, Timeout, Error, Partial} && faults == old(faults) + FaultsOf(st)
      ensures st.Success? ==> outbound == old(outbound) + Outgoing(flags, buf, content).Body()
      ensures st.Timeout? || st.Error? ==> outbound == old(outbound)
      ensures st.Partial? ==> SentPart(old(outbound), outbound, Outgoing(flags, buf, content).Body())
      ensures old(outbound) <= outbound <= old(outbound) + Outgoing(flags, buf, content).Body()
    {
      var bytes := if IsZero(flags) then EncodePointer(buf) else content;
      var ret;
      st, ret := SendSome(bytes);
      if st.Success? {
        if ret != |bytes| {
          return Partial;
        }
        assert bytes[..ret] == bytes;
      }
    }

    method SendFrame(buf: nat, content: seq<byte>) returns (st: Status)
      modifies this`outbound, this`faults
      ensures st in {Success, Timeout, Error, Partial} && faults == old(faults) + FaultsOf(st)
      ensures st.Success? ==> outbound == old(outbound) + Frame(Outgoing(flags, buf, content), kind, flags)
      ensures Begun(old(outbound), outbound, Frame(Outgoing(flags, buf, content), kind, flags))
      ensures outbound == old(outbound) + Frame(Outgoing(flags, buf, content), kind, flags) && !st.Success? ==>
                content == [] && !IsZero(flags)
    {
      hide IsZero, EncodeHeader;
      assert faults + [] == faults;
      st := SendHeader(|content|);
      if st.Success? {
        ghost var sent := outbound;
        st := SendData(buf, content);
        ConcatAssociates(old(outbound), EncodeHeader(Header(kind, flags, |content|)), Outgoing(flags, buf, content).Body());
      }
    }

    /** link_sendHandler once it is connected. */
    method SendConnected(buf: nat, content: seq<byte>) returns (st: Status)
      requires HandlersOk(handlers) && fdAccepted != 0
      modifies this`outbound, this`inbound, this`handlers, this`faults
      ensures HandlersOk(handlers) && st in {Success, Timeout, Error, Partial}
      ensures SendTouches(old(State()), State(), buf, content)
      ensures SendExplained(old(State()), State(), buf, content, st)
    {
      hide IsZero, EncodeHeader, DecodeWord, BlockOk, Frame, Outgoing, RestOf, Awaited, AwaitsAck, Begun;
      ReadLeavesRest(inbound, [], inbound);
      st := SendFrame(buf, content);
      if st.Success? {
        st := CallAutoRecvAck();
      }
    }

    method SendHandler(host: Host, buf: nat, content: seq<byte>) returns (st: Status)
      requires Valid(host)
      modifies this`fdAccepted, this`outbound, this`inbound, this`handlers, this`faults
      ensures Valid(host) && Owned() == old(Owned())
      ensures SendTouches(old(State()), State(), buf, content) && SendExplained(old(State()), State(), buf, content, st)
      ensures st.ConnectionRefused? ==> State() == old(State()).(faults := faults)
    {
      hide BlockOk, Attached, OwnedBy, SendTouches, SendExplained;
      st := Connect(host);
      if st.Success? {
        assert old(faults) + [] == old(faults);
        ghost var connected := State();
        st := SendConnected(buf, content);
        ConnectedTouches(old(State()), connected, State(), buf, content, st);
      } else {
        NotConnected(old(State()), faults, buf, content, st);
      }
    }

    method RecvMessage(host: Host, bufIn: nat, sizeIn: nat) returns (st: Status, buf: nat, size: nat)
      requires BufferValid(host)
      modifies this`inbound, this`faults, this`flags, this`recvSize, this`recvBufSize, this`recvBuf, this`block, host`blocks
      ensures BufferValid(host) && |block| >= POINTER_SIZE
      ensures MovedBlock(old(recvBuf), old(host.blocks), recvBuf, host.blocks)
      ensures State() == old(State()).(rx := CurrentRx(), recvBuf := recvBuf, block := block, inbound := inbound,
                                              faults := faults)
      ensures st.Success? ==>
                var r := ReceiveOne(old(CurrentRx()), old(inbound));
                && r.Received? && r.rx == CurrentRx() && r.rest == inbound
                && State().Holds(r.message) && buf == State().BufferOf(r.message) && size == r.message.Size()
      ensures !st.Success? ==> buf == bufIn && size == sizeIn
      ensures !st.Success? && inbound == old(inbound) ==> State() == old(State()).(faults := faults)
      ensures RestOf(old(inbound), inbound) && SetUpBy(old(CurrentRx()), CurrentRx(), old(inbound))
      ensures Explained(old(State()), State(), st)
    {
      hide IsZero, ReceiveBody, AfterHeader, DecodeHeader, LinkState.Holds, BlockOk, TookWhole, TookPart, ReadPart, RestOf;
      buf, size := bufIn, sizeIn;
      ghost var rx := CurrentRx();
      st := RecvHeader(host);
      assert old(faults) + [] == old(faults);
      if st.Success? {
        ghost var rest := inbound;
        st, buf, size := RecvData(buf, size);
        RestOfRest(old(inbound), rest, inbound);
        assert |inbound| <= |rest| by { RestIsShorter(rest, inbound); }
        if st.Success? {
          WholeTaken(rx, old(inbound), inbound);
        } else if st.Overrun? {
          BodyOverran(rx, old(inbound), inbound);
        } else {
          BodyFailed(rx, old(inbound), inbound);
        }
      } else {
        HeaderFailed(rx, old(inbound), inbound);
      }
      BlockHasOwner(addr, CurrentRx(), block);
    }

    method RecvHandler(host: Host, bufIn: nat, sizeIn: nat) returns (st: Status, buf: nat, size: nat)
      requires Valid(host)
      modifies this, host`open, host`blocks
      ensures Valid(host) && host.listening == old(host.listening)
      ensures OpenedOwn(old(Owned()), old(host.open), Owned(), host.open)
      ensures MovedBlock(old(recvBuf), old(host.blocks), recvBuf, host.blocks)
      ensures st.Success? ==> ReceivedBy(old(State()), State()) && Handed(old(State()), State(), buf, size)
      ensures !st.Success? ==> buf == bufIn && size == sizeIn
      ensures !st.Success? && inbound == old(inbound) ==> NothingReceived(old(State()), State())
      ensures ReceiveTouches(old(State()), State()) && Explained(old(State()), State(), st)
    {
      hide IsZero, BlockOk, EncodeWord, ReceiveOne, LinkState.Holds, Attached, OwnedBy, Armed, AckOf, TookWhole, TookPart, RestOf;
      buf, size := bufIn, sizeIn;
      NothingTaken(CurrentRx(), inbound);
      st := Accept(host);
      if !st.Success? {
        return;
      }
      st := CallAutoSendAck();
      assert old(faults) + [] == old(faults);
      if !st.Success? {
        return;
      }
      st, buf, size := RecvMessage(host, buf, size);
    }

    // ----- what the handler fields dispatch to

    /** Bookkeeping for the order of calls. */
    ghost method Serve(host: Host)
      modifies host`served
      ensures host.served == old(host.served) + [addr]
    {
      host.served := host.served + [addr];
    }

    method CallSend(host: Host, buf: nat, content: seq<byte>) returns (st: Status)
      requires Valid(host)
      modifies this`fdAccepted, this`outbound, this`inbound, this`handlers, this`faults, host`served
      ensures Valid(host) && Owned() == old(Owned())
      ensures host.served == old(host.served) + [addr]
      ensures SendTouches(old(State()), State(), buf, content)
      ensures CallSendExplained(old(State()), State(), buf, content, st)
      ensures st.ConnectionRefused? ==> State() == old(State()).(faults := faults)
    {
      hide StateOk, OwnedBy, Frame, Outgoing, DecodeWord;
      assert HandlersOk(handlers) by { OkHandlers(State(), host); }
      Serve(host);
      if handlers.send.Fail? {
        return Error;
      }
      st := SendHandler(host, buf, content);
    }

    method CallRecv(host: Host, bufIn: nat, sizeIn: nat) returns (st: Status, buf: nat, size: nat)
      requires Valid(host)
      modifies this, host`open, host`blocks, host`served
      ensures Valid(host) && host.listening == old(host.listening)
      ensures host.served == old(host.served) + [addr]
      ensures OpenedOwn(old(Owned()), old(host.open), Owned(), host.open)
      ensures MovedBlock(old(recvBuf), old(host.blocks), recvBuf, host.blocks)
      ensures st.Success? ==> ReceivedBy(old(State()), State()) && Handed(old(State()), State(), buf, size)
      ensures !st.Success? ==> buf == bufIn && size == sizeIn
      ensures ReceiveTouches(old(State()), State()) && CallExplained(old(State()), State(), st)
      ensures old(handlers.recv).Fail? ==> st.Error? && State() == old(State())
    {
      hide ReceivedBy, Handed, BlockOk, IsZero;
      Serve(host);
      if handlers.recv.Fail? {
        return Error, bufIn, sizeIn;
      }
      st, buf, size := RecvHandler(host, bufIn, sizeIn);
    }

    method CallNotifySend(host: Host) returns (st: Status)
      requires Valid(host)
      modifies this`outbound, this`faults, host`served
      ensures Valid(host)
      ensures host.served == old(host.served) + [addr]
      ensures AckSentBy(old(State()), State(), st)
    {
      hide BlockOk, Attached, EncodeWord;
      Serve(host);
      if handlers.notifySend.SendAck? {
        st := WriteAck();
      } else {
        st := if handlers.notifySend.Nop? then Success else Error;
      }
    }

    method CallNotifyRecv(host: Host) returns (st: Status)
      requires Valid(host)
      modifies this`inbound, this`faults, host`served
      ensures Valid(host)
      ensures host.served == old(host.served) + [addr]
      ensures AckTakenBy(old(State()), State(), st)
    {
      hide BlockOk, Attached, DecodeWord;
      Serve(host);
      if handlers.notifyRecv.RecvAck? {
        st := ReadAck();
      } else {
        st := if handlers.notifyRecv.Nop? then Success else Error;
      }
    }

    method Deinit(host: Host)
      requires Valid(host)
      modifies host
      ensures host.failed == old(host.failed) && host.served == old(host.served)
      ensures host.Valid() && host.open == old(host.open) - Owned() && host.listening == old(host.listening) - {fd}
      ensures host.blocks == if kind == TYPE_SOCKET_RX then old(host.blocks) - {recvBuf} else old(host.blocks)
    {
      hide BlockOk;
      if kind == TYPE_SOCKET_RX && fdAccepted != 0 {
        host.Close(fdAccepted);
      }
      host.Close(fd);
      if kind == TYPE_SOCKET_RX {
        host.Free(recvBuf);
      }
    }
  }

  // ----- initialisation

  /** A link end as initialised: nothing received, not connected, the owner's address in the block. */
  predicate Initialised(s: LinkState, addr: nat, endpoint: string, kind: nat, flags: bv32, handlers: Handlers) {
    s == LinkState(addr, endpoint, kind, handlers, FreshRx(flags), s.recvBuf, EncodePointer(addr), s.fd, 0, s.inbound, [], [])
  }

  /** The descriptor that an initialisation may leave open, and the block it may leave allocated. */
  twostate predicate InitEffect(host: Host, new link: Link?)
    reads host, if link == null then {} else {link}
  {
    if link == null then host.open == old(host.open) && host.listening == old(host.listening) && host.blocks == old(host.blocks)
    else
      && link.fd !in old(host.open) && host.open == old(host.open) + {link.fd}
      && host.listening == (if link.kind == TYPE_SOCKET_RX then old(host.listening) + {link.fd} else old(host.listening))
      && link.recvBuf !in old(host.blocks) && host.blocks == old(host.blocks) + {link.recvBuf}
  }

  /** What an initialisation meets: whether the address can be parsed and converted, memory is granted, and
      the system calls other than socket and listen succeed. */
  datatype Setup = Setup(addressParses: bool, granted: bool, ipConverts: bool, optionSet: bool, bound: bool)

  predicate Good(setup: Setup, kind: nat) {
    setup.addressParses && setup.granted && setup.ipConverts && (kind == TYPE_SOCKET_RX ==> setup.optionSet && setup.bound)
  }

  /** icom_initSocketConnect; inbound is what the peer will send. */
  method InitSocketConnect(host: Host, addr: nat, endpoint: string, flags: bv32, inbound: seq<byte>, setup: Setup)
    returns (st: Status, link: Link?)
    requires host.Valid() && addr < POINTER_LIMIT
    modifies host
    ensures host.Valid()
    ensures link != null <==> st.Success?
    ensures InitEffect(host, link)
    ensures link != null ==>
              fresh(link) && link.Valid(host)
              && Initialised(link.State(), addr, endpoint, TYPE_SOCKET_TX, flags, ConnectHandlers(flags))
    ensures if !setup.addressParses then st.InvalidArgument?
            else if !setup.granted then st.NoMemory?
            else if !setup.ipConverts then st in {InvalidArgument, Error}
            else st in {Success, Error}
    ensures st.Success? <==> Good(setup, TYPE_SOCKET_TX) && host.failed == old(host.failed)
  {
    if !setup.addressParses {
      return InvalidArgument, null;
    }
    if !setup.granted {
      return NoMemory, null;
    }
    var fd := host.Socket();
    if fd == -1 {
      return Error, null;
    }
    if !setup.ipConverts {
      host.Close(fd);
      return InvalidArgument, null;
    }
    var recvBuf := host.Allocate();
    link := new Link(addr, endpoint, TYPE_SOCKET_TX, flags, ConnectHandlers(flags), fd, recvBuf, inbound);
    return Success, link;
  }

  method InitSocketBind(host: Host, addr: nat, endpoint: string, flags: bv32, inbound: seq<byte>, setup: Setup)
    returns (st: Status, link: Link?)
    requires host.Valid() && addr < POINTER_LIMIT
    modifies host
    ensures host.Valid()
    ensures link != null <==> st.Success?
    ensures InitEffect(host, link)
    ensures link != null ==>
              fresh(link) && link.Valid(host)
              && Initialised(link.State(), addr, endpoint, TYPE_SOCKET_RX, flags, BindHandlers(flags))
    ensures if !setup.addressParses then st.InvalidArgument?
            else if !setup.granted then st.NoMemory?
            else if !setup.optionSet then st.Error?
            else if !setup.ipConverts then st in {InvalidArgument, Error}
            else if !setup.bound then st.Error?
            else st in {Success, Error}
    ensures st.Success? <==> Good(setup, TYPE_SOCKET_RX) && host.failed == old(host.failed)
  {
    if !setup.addressParses {
      return InvalidArgument, null;
    }
    if !setup.granted {
      return NoMemory, null;
    }
    var fd := host.Socket();
    if fd == -1 {
      return Error, null;
    }
    if !setup.optionSet || !setup.ipConverts || !setup.bound {
      host.Close(fd);
      return if setup.optionSet && !setup.ipConverts then InvalidArgument else Error, null;
    }
    var listening := host.Listen(fd);
    if !listening {
      host.Close(fd);
      return Error, null;
    }
    var recvBuf := host.Allocate();
    link := new Link(addr, endpoint, TYPE_SOCKET_RX, flags, BindHandlers(flags), fd, recvBuf, inbound);
    return Success, link;
  }
}
