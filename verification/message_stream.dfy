/** Messages on the byte stream of one link: how the sender lays them out, what the receiver
    keeps between two messages, and what one receive makes of the bytes in front of it. */
module MessageStream {
  import opened Wire
  import opened FlagBits

  const MAX_SIZE := 0x8000_0000

  /** What travels over a link: the bytes themselves, or a pointer with the size it announces. */
  datatype Message =
    | Deep(bytes: seq<byte>)
    | Zero(pointer: nat, size: nat)
  {
    function Size(): nat {
      if Deep? then |bytes| else size
    }

    function Body(): seq<byte> {
      if Deep? then bytes else EncodePointer(pointer)
    }

    /** The sender's buffer, where the message carries its address. */
    function BufferAt(): nat {
      if Zero? then pointer else 0
    }

    /** A message that icom_send can be asked to send on a link with these flags. */
    predicate Sendable(flags: bv32) {
      && Size() < MAX_SIZE
      && (Zero? <==> IsZero(flags))
      && (Zero? ==> pointer < POINTER_LIMIT)
    }

    /** The receiver allocates Size() bytes and stores Body() there. */
    predicate Fits() {
      |Body()| <= Size()
    }
  }

  function Frame(m: Message, kind: nat, flags: bv32): (s: seq<byte>) {
    EncodeHeader(Header(kind, flags, m.Size())) + m.Body()
  }

  function Stream(ms: seq<Message>, kind: nat, flags: bv32): (s: seq<byte>) {
    if ms == [] then [] else Frame(ms[0], kind, flags) + Stream(ms[1..], kind, flags)
  }

  function BodySize(flags: bv32, bufSize: nat): nat {
    if IsZero(flags) then POINTER_SIZE else bufSize
  }

  /** Two whole messages: a copied one, and one that announces 1000 bytes at address 4096. */
  lemma FramesLaidOut()
    ensures Frame(Deep([7, 8]), 0, 8) == [0, 0, 0, 0, 8, 0, 0, 0, 2, 0, 0, 0, 7, 8]
    ensures Frame(Zero(4096, 1000), 0, 1) == [0, 0, 0, 0, 1, 0, 0, 0, 232, 3, 0, 0, 0, 16, 0, 0, 0, 0, 0, 0]
  {
    assert (8 as bv32) as int == 8 && (1 as bv32) as int == 1;
  }

  /** The receive state of a link: flags, recvSize and recvBufSize of its icomLink_t. */
  datatype Rx = Rx(flags: bv32, recvSize: nat, recvBufSize: nat)
  {
    /** Payload capacity of the allocated buffer. */
    function Capacity(): nat {
      recvBufSize
    }

    predicate Valid() {
      recvSize == 0 == recvBufSize || recvSize == BodySize(flags, recvBufSize)
    }
  }

  function FreshRx(flags: bv32): Rx {
    Rx(flags, 0, 0)
  }

  function Configure(h: Header): Rx {
    Rx(h.flags, BodySize(h.flags, h.bufSize), h.bufSize)
  }

  /** The receiver looks at a header's flags only when the announced size differs from the last. */
  function AfterHeader(rx: Rx, h: Header): Rx {
    if rx.recvBufSize != h.bufSize then Configure(h) else rx
  }

  datatype Receipt =
    | Received(message: Message, rx: Rx, rest: seq<byte>)
    | Incomplete
    | OutOfBounds

  /** One payload read with the receive state in place: recvSize bytes go to the buffer, and a
      zero-copy link then loads a pointer from it. Both must stay inside the buffer. */
  function ReceiveBody(rx: Rx, s: seq<byte>): Receipt {
    if |s| < rx.recvSize then Incomplete
    else if rx.recvSize > rx.Capacity() then OutOfBounds
    else if IsZero(rx.flags) then
      if rx.Capacity() < POINTER_SIZE || rx.recvSize != POINTER_SIZE then OutOfBounds
      else Received(Zero(DecodePointer(s[..POINTER_SIZE]), rx.recvBufSize), rx, s[POINTER_SIZE..])
    else Received(Deep(s[..rx.recvSize]), rx, s[rx.recvSize..])
  }

  function ReceiveOne(rx: Rx, s: seq<byte>): Receipt {
    if |s| < HEADER_SIZE then Incomplete
    else ReceiveBody(AfterHeader(rx, DecodeHeader(s[..HEADER_SIZE])), s[HEADER_SIZE..])
  }

  /** The receiver without the shortcut: it reconfigures itself from every header. */
  function ReceiveOneUncached(s: seq<byte>): Receipt {
    if |s| < HEADER_SIZE then Incomplete
    else ReceiveBody(Configure(DecodeHeader(s[..HEADER_SIZE])), s[HEADER_SIZE..])
  }

  /** What a series of receives hands to the caller. */
  datatype Run = Run(delivered: seq<Message>, rest: seq<byte>, complete: bool)

  function Prepend(m: Message, r: Run): Run {
    r.(delivered := [m] + r.delivered)
  }

  function ReceiveMany(rx: Rx, s: seq<byte>, n: nat): (r: Run)
    decreases n
  {
    if n == 0 then Run([], s, true)
    else match ReceiveOne(rx, s)
      case Received(m, rx', rest) => Prepend(m, ReceiveMany(rx', rest, n - 1))
      case _ => Run([], s, false)
  }

  function ReceiveManyUncached(s: seq<byte>, n: nat): (r: Run)
    decreases n
  {
    if n == 0 then Run([], s, true)
    else match ReceiveOneUncached(s)
      case Received(m, _, rest) => Prepend(m, ReceiveManyUncached(rest, n - 1))
      case _ => Run([], s, false)
  }

  lemma ReceiveManyStep(rx: Rx, s: seq<byte>, n: nat)
    requires n > 0
    ensures match ReceiveOne(rx, s)
            case Received(m, rx', rest) => ReceiveMany(rx, s, n) == Prepend(m, ReceiveMany(rx', rest, n - 1))
            case _ => ReceiveMany(rx, s, n) == Run([], s, false)
  {
  }

  // ----- one message

  lemma FrameParts(m: Message, kind: nat, flags: bv32, rest: seq<byte>)
    requires m.Sendable(flags) && kind < WORD_LIMIT
    ensures var s := Frame(m, kind, flags) + rest;
            && |s| >= HEADER_SIZE
            && DecodeHeader(s[..HEADER_SIZE]) == Header(kind, flags, m.Size())
            && s[HEADER_SIZE..] == m.Body() + rest
  {
    var h := Header(kind, flags, m.Size());
    HeaderRoundTrip(h);
    var s := Frame(m, kind, flags) + rest;
    assert s[..HEADER_SIZE] == EncodeHeader(h);
  }

  /** A body read under the right configuration gives the message back, or runs out of the buffer. */
  lemma BodyReceived(m: Message, flags: bv32, rx: Rx, rest: seq<byte>)
    requires m.Sendable(flags)
    requires rx.recvBufSize == m.Size() && rx.recvSize == |m.Body()| && IsZero(rx.flags) == IsZero(flags)
    ensures ReceiveBody(rx, m.Body() + rest) == if m.Fits() then Received(m, rx, rest) else OutOfBounds
  {
    var s := m.Body() + rest;
    assert s[..rx.recvSize] == m.Body() && s[rx.recvSize..] == rest;
    if m.Zero? {
      PointerRoundTrip(m.pointer);
    }
  }

  /** The receive state agrees with a sender that uses these flags, once a header was read or
      from the start when both ends are in the same copy mode. */
  predicate Matches(rx: Rx, flags: bv32) {
    && rx.Valid()
    && IsZero(rx.flags) == IsZero(flags)
  }

  lemma FrameReceived(m: Message, kind: nat, flags: bv32, rx: Rx, rest: seq<byte>)
    requires m.Sendable(flags) && kind < WORD_LIMIT
    requires Matches(rx, flags)
    ensures var s := Frame(m, kind, flags) + rest;
            var rx' := AfterHeader(rx, Header(kind, flags, m.Size()));
            && Matches(rx', flags)
            && ReceiveOne(rx, s) == if m.Fits() then Received(m, rx', rest) else OutOfBounds
  {
    var s := Frame(m, kind, flags) + rest;
    var rx' := AfterHeader(rx, Header(kind, flags, m.Size()));
    FrameParts(m, kind, flags, rest);
    if rx'.recvSize == |m.Body()| {
      BodyReceived(m, flags, rx', rest);
    }
  }

  lemma FrameReceivedUncached(m: Message, kind: nat, flags: bv32, rest: seq<byte>)
    requires m.Sendable(flags) && kind < WORD_LIMIT
    ensures var s := Frame(m, kind, flags) + rest;
            var rx' := Configure(Header(kind, flags, m.Size()));
            && ReceiveOneUncached(s) == if m.Fits() then Received(m, rx', rest) else OutOfBounds
  {
    FrameParts(m, kind, flags, rest);
    BodyReceived(m, flags, Configure(Header(kind, flags, m.Size())), rest);
  }

  // ----- end-to-end framing

  predicate AllSendable(ms: seq<Message>, flags: bv32) {
    forall i | 0 <= i < |ms| :: ms[i].Sendable(flags)
  }

  predicate AllFit(ms: seq<Message>) {
    forall i | 0 <= i < |ms| :: ms[i].Fits()
  }

  /** What a receiver should make of these frames: the messages up to the first that does not fit
      the buffer allocated for it, whose frame is then still in front. */
  function Ideal(ms: seq<Message>, kind: nat, flags: bv32, rest: seq<byte>): (r: Run) {
    if ms == [] then Run([], rest, true)
    else if ms[0].Fits() then Prepend(ms[0], Ideal(ms[1..], kind, flags, rest))
    else Run([], Stream(ms, kind, flags) + rest, false)
  }

  lemma AllFitTail(ms: seq<Message>)
    requires ms != []
    ensures AllFit(ms) <==> ms[0].Fits() && AllFit(ms[1..])
  {
    if ms[0].Fits() && AllFit(ms[1..]) {
      forall i | 0 <= i < |ms| ensures ms[i].Fits() {
        assert i > 0 ==> ms[i] == ms[1..][i - 1];
      }
    }
  }

  lemma {:induction false} IdealExact(ms: seq<Message>, kind: nat, flags: bv32, rest: seq<byte>)
    ensures Ideal(ms, kind, flags, rest).complete <==> AllFit(ms)
    ensures AllFit(ms) ==> Ideal(ms, kind, flags, rest) == Run(ms, rest, true)
  {
    if ms == [] {
    } else {
      AllFitTail(ms);
      IdealExact(ms[1..], kind, flags, rest);
    }
  }

  /** A run that breaks off has delivered the messages before the first that does not fit. */
  lemma {:induction false} IdealStops(ms: seq<Message>, kind: nat, flags: bv32, rest: seq<byte>)
    ensures var d := Ideal(ms, kind, flags, rest).delivered;
            d <= ms && AllFit(d) && (|d| < |ms| ==> !ms[|d|].Fits())
  {
    if ms == [] || !ms[0].Fits() {
    } else {
      IdealStops(ms[1..], kind, flags, rest);
      AllFitTail(Ideal(ms, kind, flags, rest).delivered);
    }
  }

  lemma StreamHead(ms: seq<Message>, kind: nat, flags: bv32, rest: seq<byte>)
    ensures ms == [] ==> Stream(ms, kind, flags) + rest == rest
    ensures ms != [] ==>
              Stream(ms, kind, flags) + rest == Frame(ms[0], kind, flags) + (Stream(ms[1..], kind, flags) + rest)
  {
  }

  lemma {:induction false} ReceivesIdeal(ms: seq<Message>, kind: nat, flags: bv32, rx: Rx, rest: seq<byte>)
    requires AllSendable(ms, flags) && kind < WORD_LIMIT
    requires Matches(rx, flags)
    ensures ReceiveMany(rx, Stream(ms, kind, flags) + rest, |ms|) == Ideal(ms, kind, flags, rest)
  {
    StreamHead(ms, kind, flags, rest);
    if ms == [] {
    } else {
      var tail := Stream(ms[1..], kind, flags) + rest;
      var s := Stream(ms, kind, flags) + rest;
      FrameReceived(ms[0], kind, flags, rx, tail);
      ReceiveManyStep(rx, s, |ms|);
      if ms[0].Fits() {
        ReceivesIdeal(ms[1..], kind, flags, AfterHeader(rx, Header(kind, flags, ms[0].Size())), rest);
      }
    }
  }

  /** In deep-copy mode every message fits; in zero-copy mode those that announce a pointer's size. */
  lemma FitsExactly(m: Message)
    ensures m.Fits() <==> (m.Zero? ==> m.size >= POINTER_SIZE)
  {
  }

  /** End-to-end framing: n receives from a fresh link give back exactly the n messages that were
      sent and stop at the next header, if and only if every zero-copy message announces at least the
      size of a pointer. */
  lemma FramingExact(ms: seq<Message>, kind: nat, flags: bv32, own: bv32, rest: seq<byte>)
    requires AllSendable(ms, flags) && kind < WORD_LIMIT
    requires IsZero(own) == IsZero(flags)
    ensures ReceiveMany(FreshRx(own), Stream(ms, kind, flags) + rest, |ms|) == Run(ms, rest, true)
            <==> forall i | 0 <= i < |ms| :: ms[i].Zero? ==> ms[i].size >= POINTER_SIZE
  {
    forall i | 0 <= i < |ms| ensures ms[i].Fits() <==> (ms[i].Zero? ==> ms[i].size >= POINTER_SIZE) {
      FitsExactly(ms[i]);
    }
    ReceivesIdeal(ms, kind, flags, FreshRx(own), rest);
    IdealExact(ms, kind, flags, rest);
  }

  // ----- the shortcut is a cache

  lemma {:induction false} UncachedReceivesIdeal(ms: seq<Message>, kind: nat, flags: bv32, rest: seq<byte>)
    requires AllSendable(ms, flags) && kind < WORD_LIMIT
    ensures ReceiveManyUncached(Stream(ms, kind, flags) + rest, |ms|) == Ideal(ms, kind, flags, rest)
  {
    StreamHead(ms, kind, flags, rest);
    if ms == [] {
    } else {
      var tail := Stream(ms[1..], kind, flags) + rest;
      FrameReceivedUncached(ms[0], kind, flags, tail);
      if ms[0].Fits() {
        UncachedReceivesIdeal(ms[1..], kind, flags, rest);
      }
    }
  }

  lemma CacheInvisible(ms: seq<Message>, kind: nat, flags: bv32, rx: Rx)
    requires AllSendable(ms, flags) && kind < WORD_LIMIT
    requires Matches(rx, flags)
    ensures var s := Stream(ms, kind, flags);
            ReceiveMany(rx, s, |ms|) == ReceiveManyUncached(s, |ms|)
  {
    ReceivesIdeal(ms, kind, flags, rx, []);
    UncachedReceivesIdeal(ms, kind, flags, []);
    assert Stream(ms, kind, flags) + [] == Stream(ms, kind, flags);
  }

  /** A fresh link takes an empty first message in its own copy mode: it delivers an empty deep
      copy where a pointer was sent, and loads a missing pointer where nothing was sent. */
  lemma CacheSeenByEmptyFirst(ms: seq<Message>, kind: nat, flags: bv32, own: bv32)
    requires AllSendable(ms, flags) && kind < WORD_LIMIT
    requires ms != [] && ms[0].Size() == 0 && IsZero(own) != IsZero(flags)
    ensures var s := Stream(ms, kind, flags);
            (ReceiveMany(FreshRx(own), s, |ms|).delivered == []) != (ReceiveManyUncached(s, |ms|).delivered == [])
  {
    var s, tail := Stream(ms, kind, flags), Stream(ms[1..], kind, flags);
    FrameParts(ms[0], kind, flags, tail);
    FrameReceivedUncached(ms[0], kind, flags, tail);
    if !IsZero(own) {
      assert s[HEADER_SIZE..][..0] == [];
      assert ReceiveOne(FreshRx(own), s).Received?;
    } else {
      assert ReceiveOne(FreshRx(own), s) == OutOfBounds;
    }
  }

  lemma FirstFrameReceived(m: Message, kind: nat, flags: bv32, own: bv32, rest: seq<byte>)
    requires m.Sendable(flags) && kind < WORD_LIMIT && m.Size() > 0
    ensures ReceiveOne(FreshRx(own), Frame(m, kind, flags) + rest) == ReceiveOneUncached(Frame(m, kind, flags) + rest)
  {
    FrameParts(m, kind, flags, rest);
  }

  lemma SameFirstReceipt(rx: Rx, s: seq<byte>, r: Receipt, n: nat)
    requires n > 0
    requires ReceiveOne(rx, s) == r == ReceiveOneUncached(s)
    requires r.Received? ==> ReceiveMany(r.rx, r.rest, n - 1) == ReceiveManyUncached(r.rest, n - 1)
    ensures ReceiveMany(rx, s, n) == ReceiveManyUncached(s, n)
  {
  }

  lemma CacheAfterFirst(ms: seq<Message>, kind: nat, flags: bv32, own: bv32)
    requires AllSendable(ms, flags) && kind < WORD_LIMIT
    requires ms != [] && ms[0].Size() > 0
    ensures var s := Stream(ms, kind, flags);
            ReceiveMany(FreshRx(own), s, |ms|) == ReceiveManyUncached(s, |ms|)
  {
    var tail := Stream(ms[1..], kind, flags);
    var rx' := Configure(Header(kind, flags, ms[0].Size()));
    var r := if ms[0].Fits() then Received(ms[0], rx', tail) else OutOfBounds;
    FirstFrameReceived(ms[0], kind, flags, own, tail);
    FrameReceivedUncached(ms[0], kind, flags, tail);
    if ms[0].Fits() {
      CacheInvisible(ms[1..], kind, flags, rx');
    }
    SameFirstReceipt(FreshRx(own), Frame(ms[0], kind, flags) + tail, r, |ms|);
  }

  /** Over a whole run with constant sender flags the shortcut is invisible if and only if the
      first message is not empty or both ends are in the same copy mode. */
  lemma CacheExact(ms: seq<Message>, kind: nat, flags: bv32, own: bv32)
    requires AllSendable(ms, flags) && kind < WORD_LIMIT
    ensures var s := Stream(ms, kind, flags);
            ReceiveMany(FreshRx(own), s, |ms|) == ReceiveManyUncached(s, |ms|)
            <==> ms == [] || ms[0].Size() > 0 || IsZero(own) == IsZero(flags)
  {
    if IsZero(own) == IsZero(flags) {
      CacheInvisible(ms, kind, flags, FreshRx(own));
    } else if ms != [] {
      if ms[0].Size() > 0 {
        CacheAfterFirst(ms, kind, flags, own);
      } else {
        CacheSeenByEmptyFirst(ms, kind, flags, own);
      }
    }
  }
}
