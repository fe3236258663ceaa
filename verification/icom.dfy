/** The communication object: an array of links that are opened, used and closed together. */
module Icom {
  import opened Wire
  import opened FlagBits
  import opened MessageStream
  import opened OperatingSystem
  import opened LinkSocket
  import opened Configuration
  import opened Traversal
  import opened StringParser

  // ----- the links of an object as values

  function StatesOf(links: seq<Link>): (r: seq<LinkState>)
    reads links
    ensures |r| == |links|
    ensures forall k | 0 <= k < |links| :: r[k] == links[k].State()
  {
    if links == [] then [] else [links[0].State()] + StatesOf(links[1..])
  }

  function OwnedOf(s: LinkState): set<nat> {
    OwnedBy(s.kind, s.fd, s.fdAccepted)
  }

  function AllOwned(states: seq<LinkState>): set<nat> {
    set k, d | 0 <= k < |states| && d in OwnedOf(states[k]) :: d
  }

  predicate Apart(a: LinkState, b: LinkState) {
    OwnedOf(a) !! OwnedOf(b) && a.recvBuf != b.recvBuf
  }

  /** Links side by side in an array at base, none sharing a descriptor or a buffer with another. */
  predicate AllOk(states: seq<LinkState>, base: nat, open: set<nat>, listening: set<nat>, blocks: set<nat>) {
    && (forall k | 0 <= k < |states| ::
          StateOk(states[k], open, listening, blocks) && states[k].addr == base + LINK_SIZE * k)
    && (forall i, j | 0 <= i < j < |states| :: Apart(states[i], states[j]))
  }

  lemma AllOkAt(states: seq<LinkState>, base: nat, open: set<nat>, listening: set<nat>, blocks: set<nat>, i: nat)
    requires AllOk(states, base, open, listening, blocks) && i < |states|
    ensures StateOk(states[i], open, listening, blocks) && states[i].addr == base + LINK_SIZE * i
  {
  }

  lemma OwnedIsOpen(s: LinkState, open: set<nat>, listening: set<nat>, blocks: set<nat>)
    requires StateOk(s, open, listening, blocks)
    ensures OwnedOf(s) <= open && 0 !in OwnedOf(s)
  {
    hide BlockOk;
  }

  lemma BufferInBlocks(s: LinkState, open: set<nat>, listening: set<nat>, blocks: set<nat>)
    requires StateOk(s, open, listening, blocks)
    ensures s.recvBuf in blocks && s.recvBuf > 0
  {
  }

  lemma StateStaysOk(s: LinkState, open: set<nat>, listening: set<nat>, blocks: set<nat>, open': set<nat>, blocks': set<nat>)
    requires StateOk(s, open, listening, blocks)
    requires OwnedOf(s) <= open' && s.recvBuf in blocks'
    ensures StateOk(s, open', listening, blocks')
  {
    hide BlockOk, HandlersOk;
  }

  /** One link may open descriptors and move its buffer without disturbing the others. */
  lemma ReplaceKeepsOk(states: seq<LinkState>, base: nat, open: set<nat>, listening: set<nat>, blocks: set<nat>,
                       i: nat, s: LinkState, open': set<nat>, blocks': set<nat>)
    requires AllOk(states, base, open, listening, blocks) && i < |states|
    requires StateOk(s, open', listening, blocks') && s.addr == states[i].addr
    requires OpenedOwn(OwnedOf(states[i]), open, OwnedOf(s), open')
    requires MovedBlock(states[i].recvBuf, blocks, s.recvBuf, blocks')
    ensures AllOk(states[i := s], base, open', listening, blocks')
  {
    hide StateOk, OwnedOf;
    forall k | 0 <= k < |states| && k != i
      ensures StateOk(states[k], open', listening, blocks') && Apart(states[k], s)
    {
      OwnedIsOpen(states[k], open, listening, blocks);
      assert Apart(states[k], states[i]);
      BufferInBlocks(states[k], open, listening, blocks);
      StateStaysOk(states[k], open, listening, blocks, open', blocks');
    }
  }

  lemma ReplaceOwned(states: seq<LinkState>, i: nat, s: LinkState, open: set<nat>, open': set<nat>)
    requires i < |states| && AllOwned(states) <= open
    requires OpenedOwn(OwnedOf(states[i]), open, OwnedOf(s), open')
    ensures OpenedOwn(AllOwned(states), open, AllOwned(states[i := s]), open')
  {
    hide OwnedOf;
    forall d | d in AllOwned(states) ensures d in AllOwned(states[i := s]) {
      var k :| 0 <= k < |states| && d in OwnedOf(states[k]);
      assert d in OwnedOf(states[i := s][k]);
    }
    forall d | d in AllOwned(states[i := s]) ensures d in AllOwned(states) || d in OwnedOf(s) {
      var k :| 0 <= k < |states| && d in OwnedOf(states[i := s][k]);
      assert k != i ==> d in OwnedOf(states[k]);
    }
    assert forall d | d in OwnedOf(s) :: d in OwnedOf(states[i := s][i]);
  }

  lemma AllOwnedOpen(states: seq<LinkState>, base: nat, open: set<nat>, listening: set<nat>, blocks: set<nat>)
    requires AllOk(states, base, open, listening, blocks)
    ensures AllOwned(states) <= open && 0 !in AllOwned(states)
  {
    hide StateOk, OwnedOf;
    forall k | 0 <= k < |states| ensures OwnedOf(states[k]) <= open && 0 !in OwnedOf(states[k]) {
      OwnedIsOpen(states[k], open, listening, blocks);
    }
  }

  /** A step of one link that concerns neither descriptors nor the heap. */
  lemma SameHostKeepsOk(states: seq<LinkState>, base: nat, open: set<nat>, listening: set<nat>, blocks: set<nat>,
                        i: nat, s: LinkState)
    requires AllOk(states, base, open, listening, blocks) && i < |states|
    requires StateOk(s, open, listening, blocks) && s.addr == states[i].addr && s.recvBuf == states[i].recvBuf
    requires OwnedOf(s) == OwnedOf(states[i])
    ensures AllOk(states[i := s], base, open, listening, blocks)
    ensures AllOwned(states[i := s]) == AllOwned(states)
  {
    hide StateOk, OwnedOf;
    OwnedIsOpen(states[i], open, listening, blocks);
    BufferInBlocks(s, open, listening, blocks);
    ReplaceKeepsOk(states, base, open, listening, blocks, i, s, open, blocks);
    forall d ensures d in AllOwned(states[i := s]) <==> d in AllOwned(states) {
      if d in AllOwned(states) {
        var k :| 0 <= k < |states| && d in OwnedOf(states[k]);
        assert d in OwnedOf(states[i := s][k]);
      }
      if d in AllOwned(states[i := s]) {
        var k :| 0 <= k < |states| && d in OwnedOf(states[i := s][k]);
        assert d in OwnedOf(states[k]);
      }
    }
  }

  lemma NothingOpened(states: seq<LinkState>, base: nat, open: set<nat>, listening: set<nat>, blocks: set<nat>)
    requires AllOk(states, base, open, listening, blocks)
    ensures OpenedOwn(AllOwned(states), open, AllOwned(states), open)
  {
    hide AllOk, AllOwned;
    AllOwnedOpen(states, base, open, listening, blocks);
  }

  lemma OpenedOwnChains(a: set<nat>, open0: set<nat>, b: set<nat>, open1: set<nat>, c: set<nat>, open2: set<nat>)
    requires OpenedOwn(a, open0, b, open1) && OpenedOwn(b, open1, c, open2)
    ensures OpenedOwn(a, open0, c, open2)
  {
  }

  // ----- what the loops over the links come to

  function FirstToLast(base: nat, n: nat): seq<nat> {
    if n == 0 then [] else FirstToLast(base, n - 1) + [base + LINK_SIZE * (n - 1)]
  }

  /** From link n - 1 down to link i. */
  function LastDownTo(base: nat, i: nat, n: nat): seq<nat>
    decreases n - i
  {
    if i >= n then [] else LastDownTo(base, i + 1, n) + [base + LINK_SIZE * i]
  }

  /** The k-th link served is link k in the one order, and the k-th from the end in the other. */
  lemma {:induction false} OrdersOfService(base: nat, i: nat, n: nat)
    requires i <= n
    ensures |FirstToLast(base, n)| == n && forall k | 0 <= k < n :: FirstToLast(base, n)[k] == base + LINK_SIZE * k
    ensures |LastDownTo(base, i, n)| == n - i
    ensures forall k | 0 <= k < n - i :: LastDownTo(base, i, n)[k] == base + LINK_SIZE * (n - 1 - k)
    decreases n + (n - i)
  {
    if n == 0 {
    } else {
      OrdersOfService(base, n - 1, n - 1);
      if i < n {
        OrdersOfService(base, i + 1, n);
      }
    }
  }

  /** What sending on the first |statuses| links has come to; the others are untouched. */
  predicate SentTo(before: seq<LinkState>, after: seq<LinkState>, statuses: seq<Status>, buf: nat, content: seq<byte>) {
    && |statuses| <= |before| == |after|
    && (forall k | |statuses| <= k < |before| :: after[k] == before[k])
    && (forall k | 0 <= k < |statuses| ::
          SendTouches(before[k], after[k], buf, content)
          && CallSendExplained(before[k], after[k], buf, content, statuses[k]))
  }

  lemma NothingSentYet(states: seq<LinkState>, buf: nat, content: seq<byte>)
    ensures SentTo(states, states, [], buf, content)
  {
  }

  lemma SentOneMore(before: seq<LinkState>, now: seq<LinkState>, statuses: seq<Status>, buf: nat, content: seq<byte>,
                    st: Status, s: LinkState)
    requires SentTo(before, now, statuses, buf, content) && |statuses| < |before|
    requires SendTouches(now[|statuses|], s, buf, content) && CallSendExplained(now[|statuses|], s, buf, content, st)
    ensures SentTo(before, now[|statuses| := s], statuses + [st], buf, content)
  {
    hide CallSendExplained, SendTouches;
  }

  /** Of the links from index i on, link k is the first that succeeded. */
  predicate FirstSuccess(statuses: seq<Status>, i: nat, k: nat)
    requires i <= k < |statuses|
  {
    statuses[k].Success? && forall j | i <= j < k :: !statuses[j].Success?
  }

  predicate NoSuccess(statuses: seq<Status>, i: nat) {
    forall k | i <= k < |statuses| :: !statuses[k].Success?
  }

  /** What receiving on the links from index i on has come to: the links before i are untouched, each
      successful receive took the next message of its link, and the caller has the buffer and the size
      of the first of the links that succeeded, or still its own values. */
  predicate ReceivedFrom(before: seq<LinkState>, after: seq<LinkState>, i: nat, statuses: seq<Status>,
                         bufIn: nat, sizeIn: nat, buf: nat, size: nat) {
    && i <= |statuses| == |before| == |after|
    && (forall k | 0 <= k < i :: after[k] == before[k])
    && (forall k | i <= k < |statuses| && statuses[k].Success? :: ReceivedBy(before[k], after[k]))
    && (forall k | i <= k < |statuses| && FirstSuccess(statuses, i, k) :: Handed(before[k], after[k], buf, size))
    && (NoSuccess(statuses, i) ==> buf == bufIn && size == sizeIn)
    && (forall k | i <= k < |statuses| :: ReceiveTouches(before[k], after[k]) && CallExplained(before[k], after[k], statuses[k]))
  }

  lemma NothingReceivedYet(states: seq<LinkState>, statuses: seq<Status>, buf: nat, size: nat)
    requires |statuses| == |states|
    ensures ReceivedFrom(states, states, |states|, statuses, buf, size, buf, size)
  {
  }

  lemma FirstSuccessTail(st: Status, statuses: seq<Status>, i: nat, k: nat)
    requires i < k < |statuses| && FirstSuccess(statuses[i := st], i, k)
    ensures !st.Success? && FirstSuccess(statuses, i + 1, k)
  {
    var all := statuses[i := st];
    assert !all[i].Success?;
    forall j | i + 1 <= j < k ensures !statuses[j].Success? {
      assert all[j] == statuses[j];
    }
  }

  lemma NoSuccessTail(st: Status, statuses: seq<Status>, i: nat)
    requires i < |statuses|
    ensures NoSuccess(statuses[i := st], i) ==> !st.Success? && NoSuccess(statuses, i + 1)
  {
    var all := statuses[i := st];
    if NoSuccess(all, i) {
      assert !all[i].Success?;
      forall k | i + 1 <= k < |statuses| ensures !statuses[k].Success? {
        assert all[k] == statuses[k];
      }
    }
  }

  lemma ReceivedOneMore(before: seq<LinkState>, now: seq<LinkState>, i: nat, statuses: seq<Status>,
                        bufIn: nat, sizeIn: nat, b: nat, z: nat, st: Status, s: LinkState, buf: nat, size: nat)
    requires ReceivedFrom(before, now, i + 1, statuses, bufIn, sizeIn, b, z)
    requires ReceiveTouches(now[i], s) && CallExplained(now[i], s, st)
    requires if st.Success? then ReceivedBy(now[i], s) && Handed(now[i], s, buf, size) else buf == b && size == z
    ensures ReceivedFrom(before, now[i := s], i, statuses[i := st], bufIn, sizeIn, buf, size)
  {
    hide ReceivedBy, Handed, ReceiveTouches, CallExplained;
    var all, after := statuses[i := st], now[i := s];
    forall k | i <= k < |all| && FirstSuccess(all, i, k)
      ensures ReceivedBy(before[k], after[k]) && Handed(before[k], after[k], buf, size)
    {
      if k > i {
        FirstSuccessTail(st, statuses, i, k);
      }
    }
    NoSuccessTail(st, statuses, i);
  }

  // ----- closing links one by one

  function OwnedIn(states: seq<LinkState>, lo: nat, hi: nat): set<nat>
    requires lo <= hi <= |states|
  {
    set k, d | lo <= k < hi && d in OwnedOf(states[k]) :: d
  }

  /** The links from lo to hi are still open and have nothing in common. */
  predicate OkIn(states: seq<LinkState>, lo: nat, hi: nat, open: set<nat>, listening: set<nat>, blocks: set<nat>)
    requires lo <= hi <= |states|
  {
    && (forall k | lo <= k < hi :: StateOk(states[k], open, listening, blocks))
    && (forall i, j | lo <= i < j < hi :: Apart(states[i], states[j]))
  }

  lemma AllOkIsOkIn(states: seq<LinkState>, base: nat, open: set<nat>, listening: set<nat>, blocks: set<nat>)
    requires AllOk(states, base, open, listening, blocks)
    ensures OkIn(states, 0, |states|, open, listening, blocks)
    ensures OwnedIn(states, 0, |states|) == AllOwned(states)
  {
    hide StateOk, Apart, OwnedOf;
  }

  lemma OkInLink(link: Link, host: Host, states: seq<LinkState>, i: nat, lo: nat, hi: nat)
    requires lo <= i < hi <= |states| && link.State() == states[i] && host.Valid()
    requires OkIn(states, lo, hi, host.open, host.listening, host.blocks)
    ensures link.Valid(host)
  {
    hide StateOk, Apart;
  }

  lemma SurvivesClose(s: LinkState, other: LinkState, open: set<nat>, listening: set<nat>, blocks: set<nat>,
                      open': set<nat>, listening': set<nat>, blocks': set<nat>)
    requires StateOk(s, open, listening, blocks) && (Apart(s, other) || Apart(other, s))
    requires open' == open - OwnedOf(other) && listening' == listening - {other.fd}
    requires blocks' == blocks - {other.recvBuf} || blocks' == blocks
    ensures StateOk(s, open', listening', blocks')
  {
    hide BlockOk, HandlersOk;
  }

  /** Closing a link at either end of the range leaves the others as they were. */
  lemma ClosedOne(states: seq<LinkState>, i: nat, lo: nat, hi: nat, open: set<nat>, listening: set<nat>, blocks: set<nat>,
                  open': set<nat>, listening': set<nat>, blocks': set<nat>)
    requires lo < hi <= |states| && (i == lo || i == hi - 1)
    requires OkIn(states, lo, hi, open, listening, blocks)
    requires open' == open - OwnedOf(states[i]) && listening' == listening - {states[i].fd}
    requires blocks' == blocks - {states[i].recvBuf} || blocks' == blocks
    ensures i == lo ==> OkIn(states, lo + 1, hi, open', listening', blocks')
    ensures i == hi - 1 ==> OkIn(states, lo, hi - 1, open', listening', blocks')
  {
    hide StateOk;
    forall k | lo <= k < hi && k != i
      ensures StateOk(states[k], open', listening', blocks')
    {
      assert Apart(states[i], states[k]) || Apart(states[k], states[i]);
      SurvivesClose(states[k], states[i], open, listening, blocks, open', listening', blocks');
    }
  }

  lemma OwnedInNone(states: seq<LinkState>, k: nat)
    requires k <= |states|
    ensures OwnedIn(states, k, k) == {}
  {
  }

  lemma OwnedInGrows(states: seq<LinkState>, lo: nat, hi: nat)
    requires lo <= hi < |states|
    ensures OwnedIn(states, lo, hi + 1) == OwnedIn(states, lo, hi) + OwnedOf(states[hi])
  {
    hide OwnedOf;
  }

  lemma OwnedInShrinks(states: seq<LinkState>, lo: nat, hi: nat)
    requires lo < hi <= |states|
    ensures OwnedIn(states, lo, hi) == OwnedOf(states[lo]) + OwnedIn(states, lo + 1, hi)
  {
    hide OwnedOf;
  }

  // ----- the buffers as the walk sees them

  /** There is a pointer's worth of bytes behind the owner's address wherever a pointer is loaded. */
  predicate Readable(s: LinkState) {
    |s.block| >= 2 * POINTER_SIZE
  }

  function SlotOf(s: LinkState): Slot {
    Slot(s.recvBuf, IsZero(s.rx.flags), s.rx.recvBufSize,
         if Readable(s) then DecodePointer(s.block[POINTER_SIZE..2 * POINTER_SIZE]) else 0)
  }

  lemma SlotBuffer(s: LinkState)
    ensures SlotOf(s).buffer == s.recvBuf && SlotOf(s).zero == IsZero(s.rx.flags) && SlotOf(s).size == s.rx.recvBufSize
  {
  }

  function SlotsOf(states: seq<LinkState>): (r: seq<Slot>)
    ensures |r| == |states|
    ensures forall k | 0 <= k < |states| :: r[k] == SlotOf(states[k])
  {
    if states == [] then [] else [SlotOf(states[0])] + SlotsOf(states[1..])
  }

  /** The word in front of an address: the owner's address where a receive buffer starts. */
  function WordBefore(states: seq<LinkState>, foreign: nat -> nat, a: nat): nat {
    if states == [] then foreign(a)
    else if states[0].recvBuf == a && |states[0].block| >= POINTER_SIZE then DecodePointer(states[0].block[..POINTER_SIZE])
    else WordBefore(states[1..], foreign, a)
  }

  function TableOf(base: nat, states: seq<LinkState>, foreign: nat -> nat): Table {
    Table(base, SlotsOf(states), a => WordBefore(states, foreign, a))
  }

  /** The search loads a pointer from every buffer up to the one it finds, and from the next. */
  predicate SearchReadable(states: seq<LinkState>, buf: nat, k: nat)
    decreases |states| - k
  {
    k + 1 >= |states|
    || (Readable(states[k])
        && if buf == SlotOf(states[k]).pointer then Readable(states[k + 1]) else SearchReadable(states, buf, k + 1))
  }

  lemma SearchReadableStep(states: seq<LinkState>, buf: nat, k: nat)
    ensures SearchReadable(states, buf, k) ==
            (k + 1 >= |states|
             || (Readable(states[k])
                 && if buf == SlotOf(states[k]).pointer then Readable(states[k + 1]) else SearchReadable(states, buf, k + 1)))
  {
  }

  lemma SearchStep(slots: seq<Slot>, buf: nat, k: nat)
    ensures Search(slots, buf, k) ==
            if k + 1 >= |slots| then End
            else if buf == slots[k].pointer then Found(slots[k + 1].pointer, slots[k + 1].size)
            else Search(slots, buf, k + 1)
  {
  }

  /** There is a first link, every pointer that is loaded is there, and a word that points into the link
      array points to a link. */
  predicate WalkDefined(base: nat, states: seq<LinkState>, foreign: nat -> nat, buf: nat) {
    && states != []
    && if buf == 0 then IsZero(states[0].rx.flags) ==> Readable(states[0])
       else
         var owner := WordBefore(states, foreign, buf);
         if owner < base || owner > base + LINK_SIZE * |states| then SearchReadable(states, buf, 0)
         else (owner - base) % LINK_SIZE == 0
  }

  /** The loop of icom_nextBuffer that looks for a zero-copy pointer. */
  method SearchNext(states: seq<LinkState>, buf: nat, sizeIn: nat)
    returns (defined: bool, r: nat, bufOut: nat, sizeOut: nat)
    requires states != []
    ensures defined == SearchReadable(states, buf, 0)
    ensures defined ==>
              match Search(SlotsOf(states), buf, 0)
              case Found(b, size) => r == bufOut == b && sizeOut == size
              case End => r == 0 && bufOut == buf && sizeOut == sizeIn
  {
    hide Readable, SlotOf, Search, SearchReadable;
    ghost var slots := SlotsOf(states);
    defined, r, bufOut, sizeOut := true, 0, buf, sizeIn;
    var k := 0;
    while k < |states| - 1
      invariant 0 <= k <= |states| - 1
      invariant Search(slots, buf, k) == Search(slots, buf, 0)
      invariant SearchReadable(states, buf, k) == SearchReadable(states, buf, 0)
    {
      SearchStep(slots, buf, k);
      SearchReadableStep(states, buf, k);
      if !Readable(states[k]) {
        return false, 0, buf, sizeIn;
      }
      if buf == SlotOf(states[k]).pointer {
        bufOut := SlotOf(states[k + 1]).pointer;
        return Readable(states[k + 1]), bufOut, bufOut, SlotOf(states[k + 1]).size;
      }
      k := k + 1;
    }
    SearchStep(slots, buf, k);
    SearchReadableStep(states, buf, k);
  }

  // ----- the object

  class Icom {
    const base: nat
    var links: seq<Link>

    constructor (base: nat, links: seq<Link>)
      ensures this.base == base && this.links == links
    {
      this.base, this.links := base, links;
    }

    function States(): seq<LinkState>
      reads this, links
    {
      StatesOf(links)
    }

    function Owned(): set<nat>
      reads this, links
    {
      AllOwned(States())
    }

    ghost predicate Valid(host: Host)
      reads this, links, host
    {
      && host.Valid()
      && (forall i, j | 0 <= i < j < |links| :: links[i] != links[j])
      && AllOk(States(), base, host.open, host.listening, host.blocks)
    }

    /** One turn of the loop in icom_recv3. */
    method RecvAt(host: Host, i: nat, bufIn: nat, sizeIn: nat) returns (st: Status, buf: nat, size: nat)
      requires Valid(host) && i < |links|
      modifies host, links[i]
      ensures Valid(host) && host.listening == old(host.listening)
      ensures host.served == old(host.served) + [base + LINK_SIZE * i]
      ensures States() == old(States())[i := links[i].State()]
      ensures OpenedOwn(old(Owned()), old(host.open), Owned(), host.open)
      ensures st.Success? ==> ReceivedBy(old(States())[i], States()[i]) && Handed(old(States())[i], States()[i], buf, size)
      ensures !st.Success? ==> buf == bufIn && size == sizeIn
      ensures ReceiveTouches(old(States())[i], States()[i]) && CallExplained(old(States())[i], States()[i], st)
    {
      hide StatesOf, AllOk, OpenedOwn, ReceivedBy, Handed, CallExplained, StateOk, MovedBlock, AllOwned, Apart, OwnedBy;
      ghost var states := States();
      AllOkAt(states, base, host.open, host.listening, host.blocks, i);
      st, buf, size := links[i].CallRecv(host, bufIn, sizeIn);
      assert States() == states[i := links[i].State()];
      ReplaceKeepsOk(states, base, old(host.open), old(host.listening), old(host.blocks),
                     i, links[i].State(), host.open, host.blocks);
      AllOwnedOpen(states, base, old(host.open), old(host.listening), old(host.blocks));
      ReplaceOwned(states, i, links[i].State(), old(host.open), host.open);
    }

    /** icom_recv3: from the last link to the first, so that what the caller is left with is the
        first link's. bufIn and sizeIn are what *buf and *bufSize held. Only the status of the first
        link is returned; the model keeps the others. */
    method Recv3(host: Host, bufIn: nat, sizeIn: nat) returns (st: Status, buf: nat, size: nat, ghost statuses: seq<Status>)
      requires Valid(host)
      modifies host, links
      ensures Valid(host) && host.listening == old(host.listening)
      ensures host.served == old(host.served) + LastDownTo(base, 0, |links|)
      ensures OpenedOwn(old(Owned()), old(host.open), Owned(), host.open)
      ensures |statuses| == |links| && st == (if |links| == 0 then Indeterminate else statuses[0])
      ensures ReceivedFrom(old(States()), States(), 0, statuses, bufIn, sizeIn, buf, size)
    {
      hide AllOk, OpenedOwn, AllOwned, StatesOf, ReceivedFrom, ReceivedBy, Handed, CallExplained, ReceiveTouches;
      ghost var states := States();
      NothingOpened(states, base, host.open, host.listening, host.blocks);
      buf, size, st, statuses := bufIn, sizeIn, Indeterminate, seq(|links|, _ => Error);
      NothingReceivedYet(states, statuses, bufIn, sizeIn);
      var i := |links|;
      while i > 0
        invariant 0 <= i <= |links| == |statuses|
        invariant Valid(host) && host.listening == old(host.listening)
        invariant ReceivedFrom(states, States(), i, statuses, bufIn, sizeIn, buf, size)
        invariant OpenedOwn(AllOwned(states), old(host.open), Owned(), host.open)
        invariant st == if i < |links| then statuses[i] else Indeterminate
        invariant host.served == old(host.served) + LastDownTo(base, i, |links|)
      {
        i := i - 1;
        ghost var owned, open, now, b, z := Owned(), host.open, States(), buf, size;
        st, buf, size := RecvAt(host, i, buf, size);
        OpenedOwnChains(AllOwned(states), old(host.open), owned, open, Owned(), host.open);
        ReceivedOneMore(states, now, i, statuses, bufIn, sizeIn, b, z, st, links[i].State(), buf, size);
        statuses := statuses[i := st];
      }
    }

    /** One turn of the loop in icom_send. */
    method SendAt(host: Host, i: nat, buf: nat, content: seq<byte>) returns (st: Status)
      requires Valid(host) && i < |links|
      modifies links[i], host`served
      ensures Valid(host) && Owned() == old(Owned())
      ensures host.served == old(host.served) + [base + LINK_SIZE * i]
      ensures States() == old(States())[i := links[i].State()]
      ensures SendTouches(old(States())[i], States()[i], buf, content)
      ensures CallSendExplained(old(States())[i], States()[i], buf, content, st)
    {
      hide StatesOf, AllOk, OpenedOwn, CallSendExplained, SendTouches, StateOk, MovedBlock, AllOwned, Apart, OwnedBy;
      ghost var states := States();
      AllOkAt(states, base, host.open, host.listening, host.blocks, i);
      st := links[i].CallSend(host, buf, content);
      assert States() == states[i := links[i].State()];
      SameHostKeepsOk(states, base, host.open, host.listening, host.blocks, i, links[i].State());
    }

    /** icom_send: the same message on every link in ascending order, whatever became of the link
        before. Only the status of the first link is returned. */
    method Send(host: Host, buf: nat, content: seq<byte>) returns (st: Status, ghost statuses: seq<Status>)
      requires Valid(host)
      modifies links, host`served
      ensures Valid(host) && Owned() == old(Owned())
      ensures host.served == old(host.served) + FirstToLast(base, |links|)
      ensures |statuses| == |links| && st == (if |links| == 0 then Indeterminate else statuses[0])
      ensures SentTo(old(States()), States(), statuses, buf, content)
    {
      hide AllOk, AllOwned, StatesOf, CallSendExplained, SendTouches, SentTo;
      ghost var states := States();
      NothingSentYet(states, buf, content);
      statuses, st := [], Indeterminate;
      var i := 0;
      while i < |links|
        invariant 0 <= i == |statuses| <= |links|
        invariant Valid(host) && Owned() == AllOwned(states)
        invariant SentTo(states, States(), statuses, buf, content)
        invariant st == if i == 0 then Indeterminate else statuses[0]
        invariant host.served == old(host.served) + FirstToLast(base, i)
      {
        ghost var now := States();
        var ret := SendAt(host, i, buf, content);
        SentOneMore(states, now, statuses, buf, content, ret, links[i].State());
        if i == 0 {
          st := ret;
        }
        statuses := statuses + [ret];
        i := i + 1;
      }
    }

    method NotifySendAt(host: Host, i: nat) returns (st: Status)
      requires Valid(host) && i < |links|
      modifies links[i], host`served
      ensures Valid(host) && Owned() == old(Owned())
      ensures host.served == old(host.served) + [base + LINK_SIZE * i]
      ensures States() == old(States())[i := links[i].State()]
      ensures AckSentBy(old(States())[i], States()[i], st)
    {
      hide StatesOf, AllOk, OpenedOwn, StateOk, MovedBlock, AllOwned, Apart, OwnedBy;
      ghost var states := States();
      AllOkAt(states, base, host.open, host.listening, host.blocks, i);
      st := links[i].CallNotifySend(host);
      assert States() == states[i := links[i].State()];
      SameHostKeepsOk(states, base, host.open, host.listening, host.blocks, i, links[i].State());
    }

    /** icom_notify_send. */
    method NotifySend(host: Host) returns (st: Status, ghost statuses: seq<Status>)
      requires Valid(host)
      modifies links, host`served
      ensures Valid(host) && Owned() == old(Owned())
      ensures host.served == old(host.served) + LastDownTo(base, 0, |links|)
      ensures |statuses| == |links| && st == (if |links| == 0 then Indeterminate else statuses[0])
      ensures forall k | 0 <= k < |links| :: AckSentBy(old(States())[k], States()[k], statuses[k])
    {
      hide AllOk, AllOwned, StatesOf, AckSentBy;
      ghost var states := States();
      statuses, st := seq(|links|, _ => Error), Indeterminate;
      var i := |links|;
      while i > 0
        invariant 0 <= i <= |links| == |statuses|
        invariant Valid(host) && Owned() == AllOwned(states)
        invariant forall k | 0 <= k < i :: States()[k] == states[k]
        invariant forall k | i <= k < |links| :: AckSentBy(states[k], States()[k], statuses[k])
        invariant st == if i < |links| then statuses[i] else Indeterminate
        invariant host.served == old(host.served) + LastDownTo(base, i, |links|)
      {
        i := i - 1;
        st := NotifySendAt(host, i);
        statuses := statuses[i := st];
      }
    }

    method NotifyRecvAt(host: Host, i: nat) returns (st: Status)
      requires Valid(host) && i < |links|
      modifies links[i], host`served
      ensures Valid(host) && Owned() == old(Owned())
      ensures host.served == old(host.served) + [base + LINK_SIZE * i]
      ensures States() == old(States())[i := links[i].State()]
      ensures AckTakenBy(old(States())[i], States()[i], st)
    {
      hide StatesOf, AllOk, OpenedOwn, StateOk, MovedBlock, AllOwned, Apart, OwnedBy;
      ghost var states := States();
      AllOkAt(states, base, host.open, host.listening, host.blocks, i);
      st := links[i].CallNotifyRecv(host);
      assert States() == states[i := links[i].State()];
      SameHostKeepsOk(states, base, host.open, host.listening, host.blocks, i, links[i].State());
    }

    /** icom_notify_recv. */
    method NotifyRecv(host: Host) returns (st: Status, ghost statuses: seq<Status>)
      requires Valid(host)
      modifies links, host`served
      ensures Valid(host) && Owned() == old(Owned())
      ensures host.served == old(host.served) + LastDownTo(base, 0, |links|)
      ensures |statuses| == |links| && st == (if |links| == 0 then Indeterminate else statuses[0])
      ensures forall k | 0 <= k < |links| :: AckTakenBy(old(States())[k], States()[k], statuses[k])
    {
      hide AllOk, AllOwned, StatesOf, AckTakenBy;
      ghost var states := States();
      statuses, st := seq(|links|, _ => Error), Indeterminate;
      var i := |links|;
      while i > 0
        invariant 0 <= i <= |links| == |statuses|
        invariant Valid(host) && Owned() == AllOwned(states)
        invariant forall k | 0 <= k < i :: States()[k] == states[k]
        invariant forall k | i <= k < |links| :: AckTakenBy(states[k], States()[k], statuses[k])
        invariant st == if i < |links| then statuses[i] else Indeterminate
        invariant host.served == old(host.served) + LastDownTo(base, i, |links|)
      {
        i := i - 1;
        st := NotifyRecvAt(host, i);
        statuses := statuses[i := st];
      }
    }

    /** icom_nextBuffer. buf is the caller's *buf, bufOut and sizeOut what the call leaves in *buf and
        *bufSize; foreign gives the words that lie in front of addresses outside the receive buffers.
        defined is false where the code loads from outside a buffer or from a link that is not there. */
    method NextBuffer(buf: nat, sizeIn: nat, foreign: nat -> nat)
      returns (defined: bool, r: nat, bufOut: nat, sizeOut: nat)
      ensures defined == WalkDefined(base, States(), foreign, buf)
      ensures defined ==>
                match Traversal.NextBuffer(TableOf(base, States(), foreign), buf)
                case Found(b, size) => r == bufOut == b && sizeOut == size
                case End => r == 0 && bufOut == buf && sizeOut == sizeIn
    {
      hide StatesOf, Readable, WordBefore, SlotOf, Search, SearchReadable;
      var states := States();
      ghost var t := TableOf(base, states, foreign);
      defined, r, bufOut, sizeOut := false, 0, buf, sizeIn;
      if |links| == 0 {
        return;
      }
      if buf == 0 {
        var first := SlotOf(states[0]);
        SlotBuffer(states[0]);
        bufOut := if first.zero then first.pointer else first.buffer;
        return !first.zero || Readable(states[0]), bufOut, bufOut, first.size;
      }
      var owner := WordBefore(states, foreign, buf);
      if owner < base || owner > base + LINK_SIZE * |links| {
        defined, r, bufOut, sizeOut := SearchNext(states, buf, sizeIn);
        return;
      }
      if (owner - base) % LINK_SIZE != 0 {
        return;
      }
      var bufIndex := (owner - base) / LINK_SIZE + 1;
      if bufIndex < |links| {
        bufOut := SlotOf(states[bufIndex]).buffer;
        return true, bufOut, bufOut, SlotOf(states[bufIndex]).size;
      }
      return true, 0, buf, sizeIn;
    }

    /** icom_deinit: every link is closed, and with them every descriptor the object owns. */
    method Deinit(host: Host)
      requires Valid(host)
      modifies host
      ensures host.served == old(host.served)
      ensures host.Valid() && host.open == old(host.open) - Owned()
    {
      hide AllOk, StateOk, StatesOf, OwnedBy, Apart;
      ghost var states := States();
      AllOkIsOkIn(states, base, host.open, host.listening, host.blocks);
      OwnedInNone(states, 0);
      var i := 0;
      while i < |links|
        invariant 0 <= i <= |links| && host.served == old(host.served)
        invariant host.Valid() && OkIn(states, i, |links|, host.open, host.listening, host.blocks)
        invariant host.open == old(host.open) - OwnedIn(states, 0, i)
      {
        OkInLink(links[i], host, states, i, i, |links|);
        ghost var open, listening, blocks := host.open, host.listening, host.blocks;
        links[i].Deinit(host);
        ClosedOne(states, i, i, |links|, open, listening, blocks, host.open, host.listening, host.blocks);
        OwnedInGrows(states, 0, i);
        i := i + 1;
      }
    }

    /** The rollback of icom_init: the links opened so far, from the last to the first. */
    method Rollback(host: Host)
      requires Valid(host)
      modifies host
      ensures host.failed == old(host.failed)
      ensures host.Valid() && host.open == old(host.open) - Owned()
    {
      hide AllOk, StateOk, StatesOf, OwnedBy, Apart;
      ghost var states, n := States(), |links|;
      AllOkIsOkIn(states, base, host.open, host.listening, host.blocks);
      OwnedInNone(states, n);
      var i := |links|;
      while i > 0
        invariant 0 <= i <= n && host.failed == old(host.failed)
        invariant host.Valid() && OkIn(states, 0, i, host.open, host.listening, host.blocks)
        invariant host.open == old(host.open) - OwnedIn(states, i, n)
      {
        i := i - 1;
        OkInLink(links[i], host, states, i, 0, i + 1);
        ghost var open, listening, blocks := host.open, host.listening, host.blocks;
        links[i].Deinit(host);
        ClosedOne(states, i, 0, i + 1, open, listening, blocks, host.open, host.listening, host.blocks);
        OwnedInShrinks(states, i, n);
      }
    }
  }

  // ----- opening links one by one

  /** Undetermined stands for the configurations whose execution C leaves open, or that have links of the
      trial-and-error type, which is not part of this model. */
  datatype Outcome = Opened | InitFailed(status: Status) | LookupFailed | Undetermined

  function HandlersFor(kind: nat, flags: bv32): Handlers {
    if kind == TYPE_SOCKET_RX then BindHandlers(flags) else ConnectHandlers(flags)
  }

  /** The links opened so far, for the endpoints in order. */
  predicate LinksInitialised(states: seq<LinkState>, base: nat, kind: nat, flags: bv32, endpoints: seq<string>) {
    && |states| <= |endpoints|
    && forall k | 0 <= k < |states| ::
         Initialised(states[k], base + LINK_SIZE * k, endpoints[k], kind, flags, HandlersFor(kind, flags))
  }

  /** The links are those of the configuration, in order, as initialised. */
  predicate AsConfigured(c: ConfigResult, states: seq<LinkState>, base: nat) {
    c.Config? && |states| == |c.endpoints| && LinksInitialised(states, base, c.kind, c.flags, c.endpoints)
  }

  /** What the types other than the two socket types come to: the entry of the handler table refuses, or
      there is no such entry, or the type is out of range. */
  function RefusalOf(kind: nat): Status {
    if kind < 9 then NotImplemented else if kind <= TYPE_AUTO then Indeterminate else InvalidType
  }

  /** An object is opened exactly if there is memory for it, its type is a socket type unless it has no
      links, every link's set-up is good, and no system call has failed; a failed link makes the whole
      fail with its status. */
  predicate OutcomeOk(outcome: Outcome, kind: nat, endpoints: seq<string>, memory: bool, setups: nat -> Setup, failed: bool) {
    && (outcome.Opened? <==>
          memory && LINK_SIZE * |endpoints| < POINTER_LIMIT - 1 && (endpoints == [] || kind <= TYPE_SOCKET_RX)
          && !failed && forall k | 0 <= k < |endpoints| :: Good(setups(k), kind))
    && (outcome.Opened? || outcome == InitFailed(NoMemory)
        || (endpoints != [] &&
            if kind <= TYPE_SOCKET_RX then outcome in {InitFailed(Status.InvalidArgument), InitFailed(Error)}
            else outcome == if RefusalOf(kind).Indeterminate? then Undetermined else InitFailed(RefusalOf(kind))))
  }

  /** icom_initGeneric by the handler table. */
  method InitGeneric(host: Host, addr: nat, endpoint: string, kind: nat, flags: bv32, setup: Setup)
    returns (st: Status, link: Link?)
    requires host.Valid() && addr < POINTER_LIMIT
    modifies host
    ensures host.Valid()
    ensures link != null <==> st.Success?
    ensures InitEffect(host, link)
    ensures link != null ==>
              fresh(link) && link.Valid(host)
              && Initialised(link.State(), addr, endpoint, kind, flags, HandlersFor(kind, flags))
    ensures if kind <= TYPE_SOCKET_RX then st in {Success, Status.InvalidArgument, NoMemory, Error} else st == RefusalOf(kind)
    ensures st.Success? <==> kind <= TYPE_SOCKET_RX && Good(setup, kind) && host.failed == old(host.failed)
    ensures 2 <= kind <= 8 ==> st.NotImplemented?
    ensures 9 <= kind <= 10 ==> st.Indeterminate?
    ensures kind >= 11 ==> st.InvalidType?
  {
    hide BlockOk, Attached, ConnectHandlers, BindHandlers;
    var inbound: seq<byte> := *;
    if kind == TYPE_SOCKET_TX {
      st, link := InitSocketConnect(host, addr, endpoint, flags, inbound, setup);
    } else if kind == TYPE_SOCKET_RX {
      st, link := InitSocketBind(host, addr, endpoint, flags, inbound, setup);
    } else {
      st, link := RefusalOf(kind), null;
    }
  }

  lemma OwnedOfExtended(states: seq<LinkState>, s: LinkState, d: nat)
    ensures d in AllOwned(states + [s]) <==> d in AllOwned(states) || d in OwnedOf(s)
  {
    hide OwnedOf;
    var all := states + [s];
    if d in AllOwned(states) {
      var k :| 0 <= k < |states| && d in OwnedOf(states[k]);
      assert d in OwnedOf(all[k]);
    }
    if d in OwnedOf(s) {
      assert d in OwnedOf(all[|states|]);
    }
  }

  lemma SurvivesOpen(s: LinkState, open: set<nat>, listening: set<nat>, blocks: set<nat>, fd: nat,
                     open': set<nat>, listening': set<nat>, blocks': set<nat>)
    requires StateOk(s, open, listening, blocks) && fd !in open
    requires open' == open + {fd} && (listening' == listening + {fd} || listening' == listening)
    requires blocks <= blocks'
    ensures StateOk(s, open', listening', blocks')
  {
    hide BlockOk, HandlersOk;
  }

  lemma ExtendKeepsOk(states: seq<LinkState>, base: nat, open: set<nat>, listening: set<nat>, blocks: set<nat>,
                      s: LinkState, open': set<nat>, listening': set<nat>, blocks': set<nat>)
    requires AllOk(states, base, open, listening, blocks)
    requires StateOk(s, open', listening', blocks') && s.addr == base + LINK_SIZE * |states| && s.fdAccepted == 0
    requires s.fd !in open && open' == open + {s.fd} && (listening' == listening + {s.fd} || listening' == listening)
    requires s.recvBuf !in blocks && blocks' == blocks + {s.recvBuf}
    ensures AllOk(states + [s], base, open', listening', blocks')
    ensures AllOwned(states + [s]) == AllOwned(states) + {s.fd}
  {
    hide StateOk;
    var all := states + [s];
    forall k | 0 <= k < |states|
      ensures StateOk(states[k], open', listening', blocks') && Apart(states[k], s)
    {
      OwnedIsOpen(states[k], open, listening, blocks);
      BufferInBlocks(states[k], open, listening, blocks);
      SurvivesOpen(states[k], open, listening, blocks, s.fd, open', listening', blocks');
    }
    assert OwnedOf(s) == {s.fd};
    forall d ensures d in AllOwned(all) <==> d in AllOwned(states) || d == s.fd {
      OwnedOfExtended(states, s, d);
    }
  }

  lemma InitialisedParts(s: LinkState, addr: nat, endpoint: string, kind: nat, flags: bv32, handlers: Handlers)
    requires Initialised(s, addr, endpoint, kind, flags, handlers)
    ensures s.addr == addr && s.kind == kind && s.fdAccepted == 0
  {
  }

  lemma InitialisedExtends(states: seq<LinkState>, s: LinkState, base: nat, kind: nat, flags: bv32, endpoints: seq<string>)
    requires LinksInitialised(states, base, kind, flags, endpoints) && |states| < |endpoints|
    requires Initialised(s, base + LINK_SIZE * |states|, endpoints[|states|], kind, flags, HandlersFor(kind, flags))
    ensures LinksInitialised(states + [s], base, kind, flags, endpoints)
  {
    hide Initialised, HandlersFor;
  }

  lemma OpenedOneMore(before: set<nat>, owned: set<nat>, open: set<nat>, fd: nat)
    requires OpenedOwn({}, before, owned, open) && fd !in open
    ensures OpenedOwn({}, before, owned + {fd}, open + {fd})
  {
  }

  /** One turn of the loop in icom_init. */
  method OpenNext(host: Host, icom: Icom, kind: nat, flags: bv32, endpoints: seq<string>, setup: Setup,
                  ghost before: set<nat>)
    returns (st: Status)
    requires |icom.links| < |endpoints|
    requires icom.Valid(host) && icom.base + LINK_SIZE * |icom.links| < POINTER_LIMIT
    requires OpenedOwn({}, before, icom.Owned(), host.open)
    requires LinksInitialised(icom.States(), icom.base, kind, flags, endpoints)
    modifies host, icom
    ensures host.Valid() && icom.Valid(host) && OpenedOwn({}, before, icom.Owned(), host.open)
    ensures LinksInitialised(icom.States(), icom.base, kind, flags, endpoints)
    ensures |icom.links| == |old(icom.links)| + if st.Success? then 1 else 0
    ensures icom.links[..|old(icom.links)|] == old(icom.links) && fresh(icom.links[|old(icom.links)|..])
    ensures st.Success? <==> kind <= TYPE_SOCKET_RX && Good(setup, kind) && host.failed == old(host.failed)
    ensures if kind <= TYPE_SOCKET_RX then st in {Success, Status.InvalidArgument, NoMemory, Error} else st == RefusalOf(kind)
  {
    hide StatesOf, Good, RefusalOf, AllOk, StateOk, AllOwned, HandlersFor, OpenedOwn, Initialised, LinksInitialised;
    ghost var states, open, listening, blocks := icom.States(), host.open, host.listening, host.blocks;
    var link;
    st, link := InitGeneric(host, icom.base + LINK_SIZE * |icom.links|, endpoints[|icom.links|], kind, flags, setup);
    if st.Success? {
      ghost var s := link.State();
      InitialisedParts(s, icom.base + LINK_SIZE * |states|, endpoints[|states|], kind, flags, HandlersFor(kind, flags));
      ExtendKeepsOk(states, icom.base, open, listening, blocks, s, host.open, host.listening, host.blocks);
      OpenedOneMore(before, AllOwned(states), open, s.fd);
      InitialisedExtends(states, s, icom.base, kind, flags, endpoints);
      icom.links := icom.links + [link];
      assert icom.States() == states + [s];
    }
  }

  lemma RolledBack(before: set<nat>, owned: set<nat>, open: set<nat>)
    requires OpenedOwn({}, before, owned, open)
    ensures open - owned == before
  {
  }

  lemma NoLinks(base: nat, open: set<nat>, listening: set<nat>, blocks: set<nat>)
    ensures StatesOf([]) == [] && AllOk([], base, open, listening, blocks)
    ensures AllOwned([]) == {} && OpenedOwn({}, open, {}, open)
  {
  }

  method NewIcom(host: Host, base: nat) returns (icom: Icom)
    requires host.Valid()
    ensures fresh(icom) && icom.base == base && icom.links == [] && icom.States() == []
    ensures icom.Valid(host) && OpenedOwn({}, host.open, icom.Owned(), host.open)
    ensures forall kind, flags, endpoints :: LinksInitialised(icom.States(), base, kind, flags, endpoints)
  {
    icom := new Icom(base, []);
    NoLinks(base, host.open, host.listening, host.blocks);
  }

  method OpenAll(host: Host, kind: nat, flags: bv32, endpoints: seq<string>, memory: bool, setups: nat -> Setup)
    returns (outcome: Outcome, icom: Icom?)
    requires host.Valid()
    modifies host
    ensures host.Valid()
    ensures icom != null <==> outcome.Opened?
    ensures icom == null ==> host.open == old(host.open)
    ensures icom != null ==>
              && fresh(icom) && fresh(icom.links) && icom.Valid(host)
              && OpenedOwn({}, old(host.open), icom.Owned(), host.open)
              && AsConfigured(Config(kind, flags, endpoints), icom.States(), icom.base)
    ensures OutcomeOk(outcome, kind, endpoints, memory, setups, host.failed != old(host.failed))
  {
    hide StatesOf, OpenedOwn, AllOwned, LinksInitialised, Icom.Valid;
    if !memory {
      return InitFailed(NoMemory), null;
    }
    if LINK_SIZE * |endpoints| >= POINTER_LIMIT - 1 {
      return InitFailed(NoMemory), null;
    }
    assert 0 < 1 && 1 + LINK_SIZE * |endpoints| < POINTER_LIMIT;
    var base: nat :| 0 < base && base + LINK_SIZE * |endpoints| < POINTER_LIMIT;
    icom := NewIcom(host, base);
    while |icom.links| < |endpoints|
      invariant fresh(icom) && fresh(icom.links) && icom.base == base
      invariant |icom.links| <= |endpoints| && (kind > TYPE_SOCKET_RX ==> |icom.links| == 0)
      invariant host.failed == old(host.failed) && forall k | 0 <= k < |icom.links| :: Good(setups(k), kind)
      invariant host.Valid() && icom.Valid(host) && OpenedOwn({}, old(host.open), icom.Owned(), host.open)
      invariant LinksInitialised(icom.States(), base, kind, flags, endpoints)
      decreases |endpoints| - |icom.links|
    {
      ghost var links := icom.links;
      var st := OpenNext(host, icom, kind, flags, endpoints, setups(|icom.links|), old(host.open));
      assert icom.links == links + icom.links[|links|..];
      if !st.Success? {
        RolledBack(old(host.open), icom.Owned(), host.open);
        icom.Rollback(host);
        return if st.Indeterminate? then Undetermined else InitFailed(st), null;
      }
    }
    return Opened, icom;
  }

  /** icom_init. On success the object's links are those of the configuration; on any failure,
      including one half-way through the links, no descriptor is left open. granted is the largest array
      of endpoint strings that malloc grants, memory tells whether it grants the array of links, and
      setups what the initialisation of each link meets. */
  method Init(host: Host, text: Option<string>, granted: nat, memory: bool, setups: nat -> Setup)
    returns (outcome: Outcome, icom: Icom?)
    requires host.Valid()
    modifies host
    ensures host.Valid()
    ensures icom != null <==> outcome.Opened?
    ensures icom == null ==> host.open == old(host.open)
    ensures icom != null ==>
              && fresh(icom) && fresh(icom.links) && icom.Valid(host)
              && OpenedOwn({}, old(host.open), icom.Owned(), host.open)
              && AsConfigured(ParseConfig(text, granted), icom.States(), icom.base)
    ensures match ParseConfig(text, granted)
            case InvalidArgument => outcome == InitFailed(Status.InvalidArgument)
            case LookupError => outcome == LookupFailed
            case UndefinedConfig => outcome == Undetermined
            case Config(kind, _, endpoints) =>
              OutcomeOk(outcome, kind, endpoints, memory, setups, host.failed != old(host.failed))
  {
    hide ParseConfig, OpenedOwn, AllOk, StateOk, AllOwned, HandlersFor, AsConfigured, OutcomeOk;
    icom := null;
    var config := ReadConfiguration(text, granted);
    match config {
      case InvalidArgument => outcome := InitFailed(Status.InvalidArgument);
      case LookupError => outcome := LookupFailed;
      case UndefinedConfig => outcome := Undetermined;
      case Config(kind, flags, endpoints) => outcome, icom := OpenAll(host, kind, flags, endpoints, memory, setups);
    }
  }

  // ----- a whole life

  datatype Use =
    | UseSend(buf: nat, content: seq<byte>)
    | UseReceive
    | UseNotifySend
    | UseNotifyRecv

  /** Any one use keeps the object in order and opens descriptors for the object alone. */
  method UseOnce(host: Host, icom: Icom, u: Use, ghost before: set<nat>)
    requires icom.Valid(host)
    requires OpenedOwn({}, before, icom.Owned(), host.open)
    modifies host, icom.links
    ensures icom.Valid(host)
    ensures OpenedOwn({}, before, icom.Owned(), host.open)
    ensures |host.served| == |old(host.served)| + |icom.links|
  {
    OrdersOfService(icom.base, 0, |icom.links|);
    hide *;
    ghost var owned, open := icom.Owned(), host.open;
    match u {
      case UseSend(buf, content) =>
        var _, _ := icom.Send(host, buf, content);
      case UseReceive =>
        var _, _, _, _ := icom.Recv3(host, 0, 0);
        OpenedOwnChains({}, before, owned, open, icom.Owned(), host.open);
      case UseNotifySend =>
        var _, _ := icom.NotifySend(host);
      case UseNotifyRecv =>
        var _, _ := icom.NotifyRecv(host);
    }
  }

  method UseAndClose(host: Host, icom: Icom, uses: seq<Use>, ghost before: set<nat>)
    requires icom.Valid(host) && OpenedOwn({}, before, icom.Owned(), host.open)
    modifies host, icom.links
    ensures host.Valid() && host.open == before
    ensures |host.served| == |old(host.served)| + |uses| * |icom.links|
  {
    hide AllOk, AllOwned, StatesOf, OpenedOwn;
    var i := 0;
    while i < |uses|
      invariant 0 <= i <= |uses|
      invariant |host.served| == |old(host.served)| + i * |icom.links|
      invariant icom.Valid(host) && OpenedOwn({}, before, icom.Owned(), host.open)
    {
      UseOnce(host, icom, uses[i], before);
      i := i + 1;
    }
    RolledBack(before, icom.Owned(), host.open);
    icom.Deinit(host);
  }

  /** A whole life of a communication object: whatever the configuration string, however its
      initialisation fares, and whatever is then done with the object with whatever success, every
      descriptor it opened has been closed in the end. That none is closed twice is the precondition
      of Host.Close. */
  method Session(host: Host, text: Option<string>, granted: nat, memory: bool, setups: nat -> Setup, uses: seq<Use>)
    requires host.Valid()
    modifies host
    ensures host.Valid() && host.open == old(host.open)
  {
    var outcome, icom := Init(host, text, granted, memory, setups);
    if icom != null {
      UseAndClose(host, icom, uses, old(host.open));
    }
  }

  // ----- the walk over received buffers

  lemma {:induction false} OwnerFound(states: seq<LinkState>, foreign: nat -> nat, k: nat)
    requires k < |states| && |states[k].block| >= POINTER_SIZE
    requires forall i | 0 <= i < k :: states[i].recvBuf != states[k].recvBuf
    ensures WordBefore(states, foreign, states[k].recvBuf) == DecodePointer(states[k].block[..POINTER_SIZE])
  {
    hide DecodePointer;
    if k == 0 {
    } else {
      OwnerFound(states[1..], foreign, k - 1);
    }
  }

  /** Every buffer has its link's address in front, wherever it has moved to. */
  lemma OwnersAreInFront(base: nat, states: seq<LinkState>, foreign: nat -> nat,
                         open: set<nat>, listening: set<nat>, blocks: set<nat>)
    requires AllOk(states, base, open, listening, blocks)
    ensures TableOf(base, states, foreign).OwnersInFront()
    ensures forall k | 0 <= k < |states| :: states[k].recvBuf != 0
  {
    hide DecodePointer, EncodePointer, WordBefore, SlotOf;
    forall k | 0 <= k < |states|
      ensures WordBefore(states, foreign, states[k].recvBuf) == base + LINK_SIZE * k && states[k].recvBuf != 0
    {
      forall i | 0 <= i < k ensures states[i].recvBuf != states[k].recvBuf {
        assert Apart(states[i], states[k]);
      }
      OwnerFound(states, foreign, k);
      PointerRoundTrip(states[k].addr);
    }
    forall k | 0 <= k < |states|
      ensures SlotsOf(states)[k].buffer == states[k].recvBuf
    {
      SlotBuffer(states[k]);
    }
  }

  predicate AllReceived(before: seq<LinkState>, after: seq<LinkState>) {
    |before| == |after| && forall k | 0 <= k < |before| :: ReceivedBy(before[k], after[k])
  }

  /** A receive that succeeded on every link took a message from every link, and what the caller was
      left with is the first link's although the last link was served first. */
  lemma FullReceive(before: seq<LinkState>, after: seq<LinkState>, statuses: seq<Status>,
                    bufIn: nat, sizeIn: nat, buf: nat, size: nat)
    requires before != [] && ReceivedFrom(before, after, 0, statuses, bufIn, sizeIn, buf, size)
    requires forall k | 0 <= k < |statuses| :: statuses[k].Success?
    ensures AllReceived(before, after) && Handed(before[0], after[0], buf, size)
  {
    hide ReceivedBy, Handed, ReceiveTouches, CallExplained;
    assert FirstSuccess(statuses, 0, 0);
  }

  /** The size of all messages that a receive on every link consumes. */
  function ReceivedSize(before: seq<LinkState>): nat {
    if before == [] then 0
    else
      var r := ReceiveOne(before[|before| - 1].rx, before[|before| - 1].inbound);
      ReceivedSize(before[..|before| - 1]) + if r.Received? then r.message.Size() else 0
  }

  lemma HeldSize(before: LinkState, after: LinkState)
    requires ReceivedBy(before, after)
    ensures SlotOf(after).size == ReceiveOne(before.rx, before.inbound).message.Size()
    ensures ReceiveOne(before.rx, before.inbound).Received?
  {
    hide ReceiveOne;
  }

  lemma {:induction false} SlotSizes(before: seq<LinkState>, after: seq<LinkState>)
    requires AllReceived(before, after)
    ensures TotalSize(SlotsOf(after)) == ReceivedSize(before)
  {
    hide ReceiveOne, SlotOf, LinkState.Holds;
    if before == [] {
    } else {
      var n := |before| - 1;
      SlotSizes(before[..n], after[..n]);
      assert SlotsOf(after)[..n] == SlotsOf(after[..n]);
      HeldSize(before[n], after[n]);
    }
  }

  /** What the walk gives for a link that has just received. */
  lemma HeldItem(before: LinkState, after: LinkState, buf: nat, size: nat)
    requires ReceivedBy(before, after) && Handed(before, after, buf, size)
    ensures Item(SlotOf(after)) == Found(buf, size)
  {
    hide ReceiveOne, DecodePointer, IsZero;
  }

  // ----- where the walk is defined

  /** A buffer holds a pointer exactly if that many bytes were announced. */
  lemma ReadableExactly(s: LinkState)
    requires BlockOk(s.addr, s.rx, s.block)
    ensures Readable(s) <==> s.rx.recvBufSize >= 8
  {
  }

  lemma ReceivedReadable(before: LinkState, after: LinkState)
    requires ReceivedBy(before, after) && IsZero(after.rx.flags)
    ensures Readable(after)
  {
    hide ReceiveOne, IsZero, DecodePointer;
  }

  lemma DeepCallDefined(base: nat, states: seq<LinkState>, foreign: nat -> nat, k: nat)
    requires k < |states| && TableOf(base, states, foreign).OwnersInFront()
    ensures WalkDefined(base, states, foreign, states[k].recvBuf) || states[k].recvBuf == 0
  {
    hide WordBefore, SlotOf, SearchReadable, IsZero;
    SlotBuffer(states[k]);
    var t := TableOf(base, states, foreign);
    assert t.before(t.slots[k].buffer) == base + LINK_SIZE * k;
  }

  lemma StartsAtNull(t: Table)
    requires t.Count() > 0
    ensures BufAfter(t, 0) == 0
  {
  }

  lemma ItemIsBuffer(s: Slot)
    ensures Item(s).buf == if s.zero then s.pointer else s.buffer
  {
  }

  /** On links with buffers of their own every call of a walk is defined, whatever the number of calls. */
  lemma DeepWalkDefined(base: nat, states: seq<LinkState>, foreign: nat -> nat, open: set<nat>, listening: set<nat>,
                        blocks: set<nat>, k: nat)
    requires states != [] && AllOk(states, base, open, listening, blocks)
    requires forall m | 0 <= m < |states| :: !IsZero(states[m].rx.flags)
    ensures WalkDefined(base, states, foreign, BufAfter(TableOf(base, states, foreign), k))
  {
    hide AllOk, WordBefore, SlotOf, SearchReadable, IsZero, BufAfter, WalksAll, Call;
    var t := TableOf(base, states, foreign);
    OwnersAreInFront(base, states, foreign, open, listening, blocks);
    forall m | 0 <= m < |states| ensures !t.slots[m].zero && t.slots[m].buffer == states[m].recvBuf != 0 {
      SlotBuffer(states[m]);
    }
    if k == 0 {
      assert BufAfter(t, 0) == 0 by { StartsAtNull(t); }
    } else if k <= |states| {
      DeepStep(t, k);
      DeepCallDefined(base, states, foreign, k - 1);
    } else {
      DeepWalksAll(t);
      StaysAtEnd(t, k);
      ItemIsBuffer(t.slots[|states| - 1]);
      DeepCallDefined(base, states, foreign, |states| - 1);
    }
  }

  /** The blocks that the search for a pointer loads from: each one that is not the last and has no match
      before it, and the one behind the match. */
  predicate Loads(states: seq<LinkState>, buf: nat, from: nat, m: nat)
    requires m < |states|
  {
    && from <= m
    && ((m + 1 < |states| && forall i | from <= i < m :: SlotOf(states[i]).pointer != buf)
        || (m > from && SlotOf(states[m - 1]).pointer == buf && forall i | from <= i < m - 1 :: SlotOf(states[i]).pointer != buf))
  }

  lemma LoadsOn(states: seq<LinkState>, buf: nat, from: nat, m: nat)
    requires from + 1 < |states| && m < |states| && m != from && SlotOf(states[from]).pointer != buf
    ensures Loads(states, buf, from, m) <==> Loads(states, buf, from + 1, m)
  {
    hide SlotOf;
  }

  lemma {:induction false} SearchReadableExactly(states: seq<LinkState>, buf: nat, from: nat)
    ensures SearchReadable(states, buf, from) <==>
            forall m | 0 <= m < |states| && Loads(states, buf, from, m) :: Readable(states[m])
    decreases |states| - from
  {
    hide Readable, SlotOf;
    if from + 1 >= |states| {
    } else {
      assert Loads(states, buf, from, from);
      if buf == SlotOf(states[from]).pointer {
        assert Loads(states, buf, from, from + 1);
      } else {
        SearchReadableExactly(states, buf, from + 1);
        forall m | 0 <= m < |states| && m != from ensures Loads(states, buf, from, m) <==> Loads(states, buf, from + 1, m) {
          LoadsOn(states, buf, from, m);
        }
      }
    }
  }

  /** On zero-copy links a call of the walk is defined exactly if every block it loads from holds a
      pointer: the first block for the first call, those that the search looks at for any other. */
  lemma ZeroCallDefinedExactly(base: nat, states: seq<LinkState>, foreign: nat -> nat, k: nat)
    requires states != [] && forall m | 0 <= m < |states| :: IsZero(states[m].rx.flags)
    requires TableOf(base, states, foreign).PointersForeign()
    ensures var buf := BufAfter(TableOf(base, states, foreign), k);
            WalkDefined(base, states, foreign, buf) <==>
              if buf == 0 then Readable(states[0])
              else forall m | 0 <= m < |states| && Loads(states, buf, 0, m) :: Readable(states[m])
  {
    hide WordBefore, SlotOf, SearchReadable, IsZero, BufAfter, Readable, Loads;
    var t := TableOf(base, states, foreign);
    forall m | 0 <= m < |states| ensures t.slots[m].zero {
      SlotBuffer(states[m]);
    }
    ZeroPointers(t, k);
    SearchReadableExactly(states, BufAfter(t, k), 0);
  }

  /** So it is always defined when every block holds a pointer, as after a receive on every link. */
  lemma ZeroWalkDefined(base: nat, states: seq<LinkState>, foreign: nat -> nat, k: nat)
    requires states != [] && forall m | 0 <= m < |states| :: IsZero(states[m].rx.flags) && Readable(states[m])
    requires TableOf(base, states, foreign).PointersForeign()
    ensures WalkDefined(base, states, foreign, BufAfter(TableOf(base, states, foreign), k))
  {
    hide WalkDefined, Readable, Loads, IsZero, BufAfter, WordBefore, SlotOf;
    ZeroCallDefinedExactly(base, states, foreign, k);
  }

  /** After a receive that succeeded on all links, the walk is over the buffers just received: it
      begins with what the receive handed out, and its sizes add up to the bytes of the messages. */
  lemma WalkAfterReceive(t: Table, before: seq<LinkState>, after: seq<LinkState>, foreign: nat -> nat, buf: nat, size: nat)
    requires after != [] && AllReceived(before, after) && Handed(before[0], after[0], buf, size)
    requires t == TableOf(t.base, after, foreign) && WalksAll(t)
    ensures Call(t, 0) == Found(buf, size)
    ensures WalkedSize(t, |after|) == ReceivedSize(before)
  {
    hide SlotOf, ReceiveOne, WordBefore, ReceivedBy, Handed, Call;
    HeldItem(before[0], after[0], buf, size);
    WalkAddsUp(t, |after|);
    assert t.slots[..|after|] == t.slots;
    SlotSizes(before, after);
  }

  /** The same for links with buffers of their own, which are always walked in full. */
  lemma DeepWalkAfterReceive(base: nat, before: seq<LinkState>, after: seq<LinkState>, foreign: nat -> nat,
                             open: set<nat>, listening: set<nat>, blocks: set<nat>, buf: nat, size: nat)
    requires after != [] && AllOk(after, base, open, listening, blocks)
    requires AllReceived(before, after) && Handed(before[0], after[0], buf, size)
    requires forall k | 0 <= k < |after| :: !IsZero(after[k].rx.flags)
    ensures var t := TableOf(base, after, foreign);
            && WalksAll(t) && Call(t, 0) == Found(buf, size) && WalkedSize(t, |after|) == ReceivedSize(before)
            && forall k: nat :: WalkDefined(base, after, foreign, BufAfter(t, k))
  {
    hide AllOk, ReceivedBy, Handed, WordBefore, IsZero, WalksAll, WalkedSize, ReceivedSize, Call, SlotOf,
         WalkDefined, BufAfter;
    var t := TableOf(base, after, foreign);
    OwnersAreInFront(base, after, foreign, open, listening, blocks);
    forall k | 0 <= k < |after| ensures !t.slots[k].zero && t.slots[k].buffer != 0 {
      SlotBuffer(after[k]);
    }
    DeepWalksAll(t);
    WalkAfterReceive(t, before, after, foreign, buf, size);
    forall k: nat ensures WalkDefined(base, after, foreign, BufAfter(t, k)) {
      DeepWalkDefined(base, after, foreign, open, listening, blocks, k);
    }
  }

  /** The pointer that the message in front of a link carries. */
  function PointerAhead(before: LinkState): nat {
    match ReceiveOne(before.rx, before.inbound)
    case Received(m, _, _) => m.BufferAt()
    case _ => 0
  }

  /** The pointer that the walk finds on a zero-copy link is the one its message carried. */
  lemma HeldPointer(before: LinkState, after: LinkState)
    requires ReceivedBy(before, after) && IsZero(after.rx.flags)
    ensures SlotOf(after).pointer == PointerAhead(before)
  {
    hide ReceiveOne, IsZero, DecodePointer;
  }

  /** Every link has a pointer in front, none is NULL, and no two are the same. */
  predicate PointersAheadDistinct(before: seq<LinkState>) {
    && (forall k | 0 <= k < |before| :: PointerAhead(before[k]) != 0)
    && (forall i, j | 0 <= i < j < |before| :: PointerAhead(before[i]) != PointerAhead(before[j]))
  }

  lemma PointersAreMessages(before: seq<LinkState>, after: seq<LinkState>, t: Table)
    requires AllReceived(before, after) && t.slots == SlotsOf(after)
    requires forall k | 0 <= k < |after| :: IsZero(after[k].rx.flags)
    ensures t.PointersDistinct() <==> PointersAheadDistinct(before)
  {
    hide ReceiveOne, ReceivedBy, SlotOf, IsZero, PointerAhead;
    forall k | 0 <= k < |after| ensures t.slots[k].pointer == PointerAhead(before[k]) {
      HeldPointer(before[k], after[k]);
    }
  }

  /** Zero-copy links are walked in full exactly if the messages received carried different pointers,
      none of them NULL; the words in front of these pointers are the senders' memory. */
  lemma ZeroWalkAfterReceive(base: nat, before: seq<LinkState>, after: seq<LinkState>, foreign: nat -> nat, buf: nat, size: nat)
    requires after != [] && AllReceived(before, after) && Handed(before[0], after[0], buf, size)
    requires forall k | 0 <= k < |after| :: IsZero(after[k].rx.flags)
    requires TableOf(base, after, foreign).PointersForeign()
    ensures var t := TableOf(base, after, foreign);
            && (WalksAll(t) <==> PointersAheadDistinct(before))
            && (WalksAll(t) ==> Call(t, 0) == Found(buf, size) && WalkedSize(t, |after|) == ReceivedSize(before))
            && forall k: nat :: WalkDefined(base, after, foreign, BufAfter(t, k))
  {
    hide ReceivedBy, Handed, WordBefore, IsZero, WalksAll, WalkedSize, ReceivedSize, Call, SlotOf, Table.PointersForeign,
         Table.PointersDistinct, ReceiveOne, PointersAheadDistinct, WalkDefined, BufAfter, Readable;
    var t := TableOf(base, after, foreign);
    forall k | 0 <= k < |after| ensures t.slots[k].zero {
      SlotBuffer(after[k]);
    }
    PointersAreMessages(before, after, t);
    ZeroWalksAllExactly(t);
    if WalksAll(t) {
      WalkAfterReceive(t, before, after, foreign, buf, size);
    }
    forall m | 0 <= m < |after| ensures Readable(after[m]) {
      ReceivedReadable(before[m], after[m]);
    }
    forall k: nat ensures WalkDefined(base, after, foreign, BufAfter(t, k)) {
      ZeroWalkDefined(base, after, foreign, k);
    }
  }
}
