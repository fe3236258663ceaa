/** Series of receive calls on one link, among them calls that time out or fail before they have
    consumed a byte. */
module Retries {
  import opened Wire
  import opened MessageStream
  import opened LinkSocket
  import LinkProtocol
  import Sequences

  /** A call took a message, failed before its acknowledgement, or timed out behind it. */
  datatype Outcome = Took | Early | Late

  predicate IsCall(before: LinkState, after: LinkState, o: Outcome) {
    match o
    case Took => ReceivedBy(before, after)
    case Early => StoppedEarly(before, after)
    case Late => StoppedLate(before, after)
  }

  /** The states of the link before, between and after the calls. */
  datatype Calls = Calls(states: seq<LinkState>, outcomes: seq<Outcome>)
  {
    predicate Valid() {
      && |states| == |outcomes| + 1
      && forall k | 0 <= k < |outcomes| :: IsCall(states[k], states[k + 1], outcomes[k])
    }

    function First(): LinkState
      requires |states| > 0
    {
      states[0]
    }

    function Last(): LinkState
      requires |states| > 0
    {
      states[|states| - 1]
    }
  }

  /** Every receive that succeeded or consumed nothing is such a call. */
  lemma EveryCallIsOne(before: LinkState, after: LinkState)
    ensures ReceivedBy(before, after) ==> IsCall(before, after, Took)
    ensures NothingReceived(before, after) ==> IsCall(before, after, Early) || IsCall(before, after, Late)
  {
    hide ReceiveOne;
  }

  function Count(outcomes: seq<Outcome>, o: Outcome): nat {
    if outcomes == [] then 0 else (if outcomes[0] == o then 1 else 0) + Count(outcomes[1..], o)
  }

  /** The messages that the successful calls handed out. */
  function Delivered(states: seq<LinkState>, outcomes: seq<Outcome>): seq<Message>
    requires |states| == |outcomes| + 1
  {
    if outcomes == [] then []
    else
      var r := ReceiveOne(states[0].rx, states[0].inbound);
      (if outcomes[0].Took? && r.Received? then [r.message] else []) + Delivered(states[1..], outcomes[1..])
  }

  lemma CallsTail(c: Calls)
    requires c.Valid() && c.outcomes != []
    ensures Calls(c.states[1..], c.outcomes[1..]).Valid()
  {
    hide IsCall;
  }

  // ----- what is delivered

  lemma NothingMoved(before: LinkState, after: LinkState)
    requires NothingReceived(before, after)
    ensures after.rx == before.rx && after.inbound == before.inbound
  {
  }

  lemma OneTaken(before: LinkState, after: LinkState)
    requires ReceivedBy(before, after)
    ensures var r := ReceiveOne(before.rx, before.inbound); r.Received? && after.rx == r.rx && after.inbound == r.rest
  {
    hide ReceiveOne;
  }

  /** Calls that consumed nothing are invisible: the messages delivered, and the bytes still to come,
      are those of as many receives in a row as there were successful calls. */
  lemma {:induction false} RetriesInvisible(c: Calls)
    requires c.Valid()
    ensures ReceiveMany(c.First().rx, c.First().inbound, Count(c.outcomes, Took))
            == Run(Delivered(c.states, c.outcomes), c.Last().inbound, true)
    decreases |c.outcomes|
  {
    hide ReceiveOne, ReceivedBy, StoppedEarly, StoppedLate;
    if c.outcomes == [] {
    } else {
      CallsTail(c);
      RetriesInvisible(Calls(c.states[1..], c.outcomes[1..]));
      if c.outcomes[0].Took? {
        OneTaken(c.states[0], c.states[1]);
      } else {
        NothingMoved(c.states[0], c.states[1]);
      }
    }
  }

  /** A receiver that repeats calls until enough have succeeded gets what was sent. */
  lemma RetriesDeliver(c: Calls, ms: seq<Message>, kind: nat, flags: bv32, rest: seq<byte>)
    requires c.Valid() && Count(c.outcomes, Took) == |ms|
    requires c.First().rx == FreshRx(c.First().rx.flags) && kind < WORD_LIMIT
    requires AllSendable(ms, flags) && AllFit(ms) && FlagBits.IsZero(c.First().rx.flags) == FlagBits.IsZero(flags)
    requires c.First().inbound == Stream(ms, kind, flags) + rest
    ensures Delivered(c.states, c.outcomes) == ms && c.Last().inbound == rest
  {
    hide ReceiveMany, Delivered;
    RetriesInvisible(c);
    FramingExact(ms, kind, flags, c.First().rx.flags, rest);
  }

  // ----- what is acknowledged

  /** The handlers after n calls that got past their acknowledgement, and what these calls sent. */
  function ArmedBy(h: Handlers, n: nat): Handlers {
    if n == 0 then h else Armed(h)
  }

  function AcksBy(h: Handlers, n: nat): seq<byte> {
    if h.autoSendAck.SendAck? then LinkProtocol.Acks(n)
    else if h.autoSendAck.AutoSendAck? && n > 0 then LinkProtocol.Acks(n - 1)
    else []
  }

  lemma OneMoreCall(h: Handlers, n: nat)
    requires HandlersOk(h)
    ensures AcksBy(h, n + 1) == AckOf(h) + AcksBy(Armed(h), n)
    ensures ArmedBy(h, n + 1) == ArmedBy(Armed(h), n) && HandlersOk(Armed(h))
  {
    hide EncodeWord;
  }

  lemma CallAcknowledges(before: LinkState, after: LinkState, o: Outcome)
    requires IsCall(before, after, o)
    ensures o.Early? ==> after.handlers == before.handlers && after.outbound == before.outbound
    ensures !o.Early? ==> after.handlers == Armed(before.handlers) && after.outbound == before.outbound + AckOf(before.handlers)
  {
    hide ReceiveOne, EncodeWord;
  }

  lemma NoCall(h: Handlers)
    ensures AcksBy(h, 0) == [] && ArmedBy(h, 0) == h
  {
  }

  /** Every call that gets past its acknowledgement counts, whether it then takes a message or not. */
  lemma {:induction false} AcksSent(c: Calls)
    requires c.Valid() && HandlersOk(c.First().handlers)
    ensures var n := Count(c.outcomes, Took) + Count(c.outcomes, Late);
            && c.Last().handlers == ArmedBy(c.First().handlers, n)
            && c.Last().outbound == c.First().outbound + AcksBy(c.First().handlers, n)
    decreases |c.outcomes|
  {
    hide IsCall, Armed, AckOf, AcksBy, ArmedBy, HandlersOk;
    var h := c.First().handlers;
    if c.outcomes == [] {
      assert AcksBy(h, 0) == [] && ArmedBy(h, 0) == h by { NoCall(h); }
    } else {
      var tail := Calls(c.states[1..], c.outcomes[1..]);
      CallsTail(c);
      CallAcknowledges(c.states[0], c.states[1], c.outcomes[0]);
      var n := Count(tail.outcomes, Took) + Count(tail.outcomes, Late);
      OneMoreCall(h, n);
      AcksSent(tail);
      if !c.outcomes[0].Early? {
        Sequences.ConcatAssociates(c.First().outbound, AckOf(h), AcksBy(Armed(h), n));
      }
    }
  }

  lemma AcksDiffer(h: Handlers, n: nat, m: nat)
    requires HandlersOk(h) && n < m
    ensures AcksBy(h, n) == AcksBy(h, m) && ArmedBy(h, n) == ArmedBy(h, m) <==> h.autoSendAck.Nop?
  {
    hide EncodeWord;
    LinkProtocol.AcksLength(n);
    LinkProtocol.AcksLength(m);
    LinkProtocol.AcksLength(m - 1);
    if n > 0 {
      LinkProtocol.AcksLength(n - 1);
    }
  }

  /** The receive state after as many receives in a row. */
  function RxAfter(rx: Rx, s: seq<byte>, n: nat): Rx
    decreases n
  {
    if n == 0 then rx
    else match ReceiveOne(rx, s)
      case Received(_, next, rest) => RxAfter(next, rest, n - 1)
      case _ => rx
  }

  lemma {:induction false} LastRx(c: Calls)
    requires c.Valid()
    ensures c.Last().rx == RxAfter(c.First().rx, c.First().inbound, Count(c.outcomes, Took))
    decreases |c.outcomes|
  {
    hide ReceiveOne, ReceivedBy, StoppedEarly, StoppedLate;
    if c.outcomes == [] {
    } else {
      CallsTail(c);
      LastRx(Calls(c.states[1..], c.outcomes[1..]));
      if c.outcomes[0].Took? {
        OneTaken(c.states[0], c.states[1]);
      } else {
        NothingMoved(c.states[0], c.states[1]);
      }
    }
  }

  /** A series of calls against the same receives without a failure among them. What is delivered, and
      what is still to come, is always the same. What the peer sees, and what the link will do next, is
      the same if and only if the link has no acknowledgements to send or no call timed out behind one. */
  lemma RetriesAgainstUndisturbed(c: Calls, u: Calls)
    requires c.Valid() && u.Valid() && c.First() == u.First() && HandlersOk(c.First().handlers)
    requires Count(u.outcomes, Took) == Count(c.outcomes, Took) && Count(u.outcomes, Late) == 0
    ensures Delivered(c.states, c.outcomes) == Delivered(u.states, u.outcomes)
    ensures c.Last().rx == u.Last().rx && c.Last().inbound == u.Last().inbound
    ensures c.Last().outbound == u.Last().outbound && c.Last().handlers == u.Last().handlers
            <==> c.First().handlers.autoSendAck.Nop? || Count(c.outcomes, Late) == 0
  {
    hide Delivered, AcksBy, ArmedBy, ReceiveMany, IsCall, HandlersOk;
    RetriesInvisible(c);
    RetriesInvisible(u);
    LastRx(c);
    LastRx(u);
    AcksSent(c);
    AcksSent(u);
    var h, few, many := c.First().handlers, Count(u.outcomes, Took), Count(c.outcomes, Took) + Count(c.outcomes, Late);
    Sequences.ConcatCancels(c.First().outbound, AcksBy(h, few), AcksBy(h, many));
    if few < many {
      AcksDiffer(h, few, many);
    }
  }

  /** On a link without automatic acknowledgement no call sends anything. */
  lemma {:induction false} RetriesSilent(c: Calls)
    requires c.Valid() && c.First().handlers.autoSendAck.Nop?
    ensures c.Last().outbound == c.First().outbound && c.Last().handlers == c.First().handlers
    decreases |c.outcomes|
  {
    hide IsCall;
    if c.outcomes == [] {
    } else {
      CallsTail(c);
      CallAcknowledges(c.states[0], c.states[1], c.outcomes[0]);
      assert c.First().outbound + [] == c.First().outbound;
      RetriesSilent(Calls(c.states[1..], c.outcomes[1..]));
    }
  }

  lemma NoAcks(s: LinkState, n: nat)
    requires s.handlers.autoSendAck.Nop?
    ensures ArmedBy(s.handlers, n) == s.handlers && s.outbound + AcksBy(s.handlers, n) == s.outbound
  {
  }

  /** An armed link that times out once acknowledges a message it has not been asked about again. */
  lemma LateTimeout(s: LinkState) returns (c: Calls)
    requires HandlersOk(s.handlers)
    ensures c.Valid() && c.First() == s && c.outcomes == [Late]
    ensures c.Last().outbound == s.outbound + AckOf(s.handlers) && c.Last().handlers == Armed(s.handlers)
  {
    var after := s.(fdAccepted := if s.fdAccepted != 0 then s.fdAccepted else 1, handlers := Armed(s.handlers),
                    outbound := s.outbound + AckOf(s.handlers));
    c := Calls([s, after], [Late]);
  }

  /** The series in which a call has left no trace but the messages taken. */
  predicate Traceless(c: Calls)
    requires c.Valid()
  {
    && c.Last().handlers == ArmedBy(c.First().handlers, Count(c.outcomes, Took))
    && c.Last().outbound == c.First().outbound + AcksBy(c.First().handlers, Count(c.outcomes, Took))
  }

  /** So a link can be retried without a trace, however its calls fare, if and only if it has no
      automatic acknowledgement. */
  lemma TracelessExactly(s: LinkState)
    requires HandlersOk(s.handlers)
    ensures (forall c: Calls | c.Valid() && c.First() == s :: Traceless(c)) <==> s.handlers.autoSendAck.Nop?
  {
    hide IsCall, AcksBy, ArmedBy, HandlersOk, Armed, AckOf;
    if s.handlers.autoSendAck.Nop? {
      forall c: Calls | c.Valid() && c.First() == s ensures Traceless(c) {
        RetriesSilent(c);
        NoAcks(s, Count(c.outcomes, Took));
      }
    } else {
      var c := LateTimeout(s);
      AcksSent(c);
      assert Count([Late], Took) == 0 && Count([Late], Late) == 1;
      AcksDiffer(s.handlers, 0, 1);
      Sequences.ConcatCancels(s.outbound, AcksBy(s.handlers, 0), AcksBy(s.handlers, 1));
      assert !Traceless(c);
    }
  }

  /** What this means for the peer. On a new autonotify link that has handed out a message, the
      acknowledgements sent are one fewer than the messages, so that the last message is still the
      receiver's to use, if and only if no call timed out behind its acknowledgement. After such a
      timeout the message in use is acknowledged already. */
  lemma HeldUnacknowledgedExactly(c: Calls)
    requires c.Valid() && HandlersOk(c.First().handlers) && c.First().handlers.autoSendAck.AutoSendAck?
    requires c.First().outbound == [] && Count(c.outcomes, Took) > 0
    ensures var taken, late := Count(c.outcomes, Took), Count(c.outcomes, Late);
            && c.Last().outbound == LinkProtocol.Acks(taken + late - 1)
            && (|c.Last().outbound| < |LinkProtocol.Acks(taken)| <==> late == 0)
  {
    hide EncodeWord, IsCall;
    AcksSent(c);
    var taken, late := Count(c.outcomes, Took), Count(c.outcomes, Late);
    LinkProtocol.AcksLength(taken);
    LinkProtocol.AcksLength(taken + late - 1);
  }
}
