/** A message from one program to the other: what icom_send was given, and what icom_recv gives. */
module RoundTrip {
  import opened Wire
  import opened FlagBits
  import opened MessageStream
  import opened LinkSocket

  /** The bytes that a send has added to what its link end had sent. */
  function Added(before: LinkState, after: LinkState): seq<byte> {
    if |before.outbound| <= |after.outbound| then after.outbound[|before.outbound|..] else []
  }

  lemma SentFrame(before: LinkState, after: LinkState, buf: nat, content: seq<byte>)
    requires SentBy(before, after, buf, content)
    ensures var m := if IsZero(before.rx.flags) then Zero(buf, |content|) else Deep(content);
            Added(before, after) == Frame(m, before.kind, before.rx.flags)
  {
    hide IsZero, EncodeHeader, DecodeWord, Message.Body;
  }

  /** A successful send followed by a receive of its bytes on an end with the same copy mode. The size is
      that of the sender's buffer in either mode. With zero copy the receiver is given the sender's
      address, otherwise a buffer of its own with the same contents. The receive can succeed exactly if
      the bytes are copied or the buffer is at least as large as a pointer. */
  lemma SendThenReceive(tx: LinkState, tx': LinkState, rx: LinkState, rx': LinkState, buf: nat, content: seq<byte>,
                        rest: seq<byte>, b: nat, size: nat)
    requires SentBy(tx, tx', buf, content) && tx.kind < 4294967296 && buf < 18446744073709551616 && |content| < 2147483648
    requires Matches(rx.rx, tx.rx.flags) && rx.inbound == Added(tx, tx') + rest
    ensures ReceiveOne(rx.rx, rx.inbound).Received? <==> !IsZero(tx.rx.flags) || |content| >= 8
    ensures ReceivedBy(rx, rx') && Handed(rx, rx', b, size) ==>
              && size == |content| && rx'.inbound == rest && Matches(rx'.rx, tx.rx.flags)
              && (if IsZero(tx.rx.flags) then b == buf else b == rx'.recvBuf && rx'.Payload() == content)
  {
    hide IsZero, EncodeHeader, DecodePointer, EncodePointer, AfterHeader, ReceiveOne, SentBy;
    SentFrame(tx, tx', buf, content);
    var m := if IsZero(tx.rx.flags) then Zero(buf, |content|) else Deep(content);
    FrameReceived(m, tx.kind, tx.rx.flags, rx.rx, rest);
    FitsExactly(m);
  }
}
