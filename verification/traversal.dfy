/** icom_nextBuffer: walking over the buffers received on all links without a cursor. The next
    buffer is found from the address of the current one, by the owner's address stored in front of a
    link's own buffer, or by a search among the pointers received by zero copy. */
module Traversal {
  /** An icomLink_t: two pointers, type and flags, the buffer, its two sizes, seven handlers. */
  const LINK_SIZE := 2 * 8 + 2 * 4 + 8 + 2 * 4 + 7 * 8

  /** Of each link: where its buffer is, its copy mode, the announced size, and the pointer that lies
      at the start of the buffer. */
  datatype Slot = Slot(buffer: nat, zero: bool, size: nat, pointer: nat)

  datatype Step = Found(buf: nat, size: nat) | End

  /** The link array at base, and the words of memory that the walk looks at: before(a) is the word
      that ends at address a. */
  datatype Table = Table(base: nat, slots: seq<Slot>, before: nat -> nat)
  {
    function Count(): nat {
      |slots|
    }

    predicate OwnersInFront() {
      forall k | 0 <= k < Count() :: before(slots[k].buffer) == base + LINK_SIZE * k
    }

    /** No word in front of a received pointer looks like the address of a link. */
    predicate PointersForeign() {
      forall k | 0 <= k < Count() ::
        before(slots[k].pointer) < base || before(slots[k].pointer) > base + LINK_SIZE * Count()
    }

    predicate AllDeep() {
      forall k | 0 <= k < Count() :: !slots[k].zero && slots[k].buffer != 0
    }

    predicate AllZero() {
      forall k | 0 <= k < Count() :: slots[k].zero
    }

    predicate PointersDistinct() {
      && (forall k | 0 <= k < Count() :: slots[k].pointer != 0)
      && (forall i, j | 0 <= i < j < Count() :: slots[i].pointer != slots[j].pointer)
    }
  }

  /** What the walk is to give for link k. */
  function Item(s: Slot): Step {
    Found(if s.zero then s.pointer else s.buffer, s.size)
  }

  /** The search among zero-copy pointers, from index k on. */
  function Search(slots: seq<Slot>, buf: nat, k: nat): Step
    decreases |slots| - k
  {
    if k + 1 >= |slots| then End
    else if buf == slots[k].pointer then Found(slots[k + 1].pointer, slots[k + 1].size)
    else Search(slots, buf, k + 1)
  }

  function NextBuffer(t: Table, buf: nat): Step
    requires t.Count() > 0
  {
    if buf == 0 then Item(t.slots[0])
    else
      var owner := t.before(buf);
      if owner < t.base || owner > t.base + LINK_SIZE * t.Count() then Search(t.slots, buf, 0)
      else
        var index := (owner - t.base) / LINK_SIZE + 1;
        if index < t.Count() then Found(t.slots[index].buffer, t.slots[index].size) else End
  }

  /** The caller's pointer after k calls that began with NULL; the last call leaves it alone. */
  function BufAfter(t: Table, k: nat): nat
    requires t.Count() > 0
  {
    if k == 0 then 0
    else match NextBuffer(t, BufAfter(t, k - 1))
      case Found(buf, _) => buf
      case End => BufAfter(t, k - 1)
  }

  /** What the call after k calls gives. */
  function Call(t: Table, k: nat): Step
    requires t.Count() > 0
  {
    NextBuffer(t, BufAfter(t, k))
  }

  /** Every link once, in order, and then the end. */
  predicate WalksAll(t: Table)
    requires t.Count() > 0
  {
    && (forall k | 0 <= k < t.Count() :: Call(t, k) == Item(t.slots[k]))
    && Call(t, t.Count()) == End
  }

  // ----- links with buffers of their own

  /** From a link's own buffer the walk goes to the buffer of the next link. */
  lemma NextOfOwn(t: Table, k: nat)
    requires k < t.Count() && t.slots[k].buffer != 0 && t.before(t.slots[k].buffer) == t.base + LINK_SIZE * k
    ensures NextBuffer(t, t.slots[k].buffer)
            == if k + 1 < t.Count() then Found(t.slots[k + 1].buffer, t.slots[k + 1].size) else End
  {
    assert (t.base + LINK_SIZE * k - t.base) / LINK_SIZE == k;
  }

  lemma {:induction false} DeepStep(t: Table, k: nat)
    requires t.AllDeep() && t.OwnersInFront() && k <= t.Count() && t.Count() > 0
    ensures k < t.Count() ==> Call(t, k) == Item(t.slots[k])
    ensures k > 0 ==> BufAfter(t, k) == t.slots[k - 1].buffer
    ensures k == t.Count() ==> Call(t, k) == End
  {
    if k == 0 {
    } else {
      hide NextBuffer;
      DeepStep(t, k - 1);
      NextOfOwn(t, k - 1);
    }
  }

  /** Back-pointers take the walk from index to index + 1, for any number of links. */
  lemma DeepWalksAll(t: Table)
    requires t.AllDeep() && t.OwnersInFront() && t.Count() > 0
    ensures WalksAll(t)
  {
    forall k | 0 <= k < t.Count() ensures Call(t, k) == Item(t.slots[k]) {
      DeepStep(t, k);
    }
    DeepStep(t, t.Count());
  }

  // ----- zero-copy links

  lemma {:induction false} SearchFinds(slots: seq<Slot>, k: nat, from: nat)
    requires from <= k < |slots|
    requires forall i | 0 <= i < |slots| && i != k :: slots[i].pointer != slots[k].pointer
    ensures Search(slots, slots[k].pointer, from)
            == if k + 1 < |slots| then Found(slots[k + 1].pointer, slots[k + 1].size) else End
    decreases k - from
  {
    if from == k {
    } else {
      SearchFinds(slots, k, from + 1);
    }
  }

  lemma {:induction false} ZeroStep(t: Table, k: nat)
    requires t.AllZero() && t.PointersForeign() && t.PointersDistinct() && k <= t.Count() && t.Count() > 0
    ensures k < t.Count() ==> Call(t, k) == Item(t.slots[k])
    ensures k > 0 ==> BufAfter(t, k) == t.slots[k - 1].pointer
    ensures k == t.Count() ==> Call(t, k) == End
  {
    if k == 0 {
    } else {
      ZeroStep(t, k - 1);
      SearchFinds(t.slots, k - 1, 0);
    }
  }

  /** Two moments with the same pointer have the same future. */
  lemma {:induction false} SameFuture(t: Table, a: nat, b: nat, d: nat)
    requires t.Count() > 0 && BufAfter(t, a) == BufAfter(t, b)
    ensures BufAfter(t, a + d) == BufAfter(t, b + d) && Call(t, a + d) == Call(t, b + d)
  {
    if d == 0 {
    } else {
      SameFuture(t, a, b, d - 1);
    }
  }

  lemma WalkGives(t: Table, k: nat)
    requires t.Count() > 0 && WalksAll(t) && k < t.Count()
    ensures Call(t, k) == Item(t.slots[k])
    ensures BufAfter(t, k + 1) == Item(t.slots[k]).buf
  {
    hide NextBuffer;
  }

  lemma WalkVisitsDistinct(t: Table, i: nat, j: nat)
    requires t.Count() > 0 && WalksAll(t)
    requires i < j <= t.Count()
    ensures BufAfter(t, i) != BufAfter(t, j)
  {
    hide BufAfter, Call;
    if BufAfter(t, i) == BufAfter(t, j) {
      var n := t.Count();
      WalkGives(t, i + (n - j));
      SameFuture(t, i, j, n - j);
    }
  }

  lemma DistinctWalksAll(t: Table)
    requires t.AllZero() && t.PointersForeign() && t.PointersDistinct() && t.Count() > 0
    ensures WalksAll(t)
  {
    hide Call, BufAfter, Table.PointersForeign, Table.PointersDistinct;
    forall k | 0 <= k < t.Count() ensures Call(t, k) == Item(t.slots[k]) {
      ZeroStep(t, k);
    }
    ZeroStep(t, t.Count());
  }

  lemma WalkedIsDistinct(t: Table)
    requires t.AllZero() && t.Count() > 0 && WalksAll(t)
    ensures t.PointersDistinct()
  {
    hide Call, WalksAll;
    forall k | 0 <= k < t.Count() ensures t.slots[k].pointer != 0 {
      WalkGives(t, k);
      WalkVisitsDistinct(t, 0, k + 1);
    }
    forall i, j | 0 <= i < j < t.Count() ensures t.slots[i].pointer != t.slots[j].pointer {
      WalkGives(t, i);
      WalkGives(t, j);
      WalkVisitsDistinct(t, i + 1, j + 1);
    }
  }

  /** The search walks over every link once and ends, exactly when no two links received the same
      pointer and none received NULL. */
  lemma ZeroWalksAllExactly(t: Table)
    requires t.AllZero() && t.PointersForeign() && t.Count() > 0
    ensures WalksAll(t) <==> t.PointersDistinct()
  {
    hide WalksAll, Table.PointersDistinct;
    if t.PointersDistinct() {
      DistinctWalksAll(t);
    }
    if WalksAll(t) {
      WalkedIsDistinct(t);
    }
  }

  lemma {:induction false} SearchFindsSlot(slots: seq<Slot>, buf: nat, from: nat)
    ensures match Search(slots, buf, from)
            case Found(b, _) => exists m | 0 <= m < |slots| :: slots[m].pointer == b
            case End => true
    decreases |slots| - from
  {
    if from + 1 >= |slots| || buf == slots[from].pointer {
    } else {
      SearchFindsSlot(slots, buf, from + 1);
    }
  }

  /** The pointer is NULL or one that some link received, at every moment of the walk. */
  lemma {:induction false} ZeroPointers(t: Table, k: nat)
    requires t.AllZero() && t.PointersForeign() && t.Count() > 0
    ensures BufAfter(t, k) == 0 || exists m | 0 <= m < t.Count() :: t.slots[m].pointer == BufAfter(t, k)
  {
    if k == 0 {
    } else {
      ZeroPointers(t, k - 1);
      SearchFindsSlot(t.slots, BufAfter(t, k - 1), 0);
    }
  }

  /** The code takes the word just behind the last link for that of a link: the walk ends there, without
      a search. */
  lemma OnePastTheLast(t: Table, buf: nat)
    requires t.Count() > 0 && buf != 0 && t.before(buf) == t.base + LINK_SIZE * t.Count()
    ensures NextBuffer(t, buf) == End
  {
  }

  // ----- how a loop may notice the end

  /** A walk over every link stays at its end: every further call is at the end too, and the caller's
      pointer stays on the last buffer. */
  lemma {:induction false} StaysAtEnd(t: Table, k: nat)
    requires t.Count() > 0 && WalksAll(t)
    requires k >= t.Count()
    ensures BufAfter(t, k) == Item(t.slots[t.Count() - 1]).buf != 0 && Call(t, k) == End
  {
    hide NextBuffer;
    if k == t.Count() {
      WalkGives(t, k - 1);
      WalkVisitsDistinct(t, 0, k);
    } else {
      StaysAtEnd(t, k - 1);
    }
  }

  /** With buffers of their own, the caller's pointer never becomes NULL again. */
  lemma DeepPointerNeverNull(t: Table, k: nat)
    requires t.AllDeep() && t.OwnersInFront() && t.Count() > 0 && k > 0
    ensures BufAfter(t, k) != 0
  {
    hide BufAfter, Call;
    if k <= t.Count() {
      DeepStep(t, k);
    } else {
      DeepWalksAll(t);
      StaysAtEnd(t, k);
    }
  }

  predicate DistinctBefore(slots: seq<Slot>, n: nat)
    requires n <= |slots|
  {
    forall i, j | 0 <= i < j < n :: slots[i].pointer != slots[j].pointer
  }

  /** Link k is the first to have received its pointer. */
  predicate IsFirst(slots: seq<Slot>, k: nat)
    requires k < |slots|
  {
    forall i | 0 <= i < k :: slots[i].pointer != slots[k].pointer
  }

  lemma FirstWith(slots: seq<Slot>, k: nat) returns (f: nat)
    requires k < |slots|
    ensures f <= k && slots[f].pointer == slots[k].pointer && IsFirst(slots, f)
  {
    f := 0;
    while slots[f].pointer != slots[k].pointer
      invariant f <= k && forall i | 0 <= i < f :: slots[i].pointer != slots[k].pointer
      decreases k - f
    {
      f := f + 1;
    }
  }

  /** The search stops at the first link that received the pointer. */
  lemma {:induction false} SearchFindsFirst(slots: seq<Slot>, k: nat, from: nat)
    requires from <= k < |slots| && IsFirst(slots, k)
    ensures Search(slots, slots[k].pointer, from)
            == if k + 1 < |slots| then Found(slots[k + 1].pointer, slots[k + 1].size) else End
    decreases k - from
  {
    if from == k {
    } else {
      SearchFindsFirst(slots, k, from + 1);
    }
  }

  lemma ZeroFirstStep(t: Table)
    requires t.AllZero() && t.Count() > 0
    ensures BufAfter(t, 1) == t.slots[0].pointer
  {
    assert BufAfter(t, 0) == 0;
  }

  lemma ZeroNextStep(t: Table, k: nat, f: nat)
    requires t.AllZero() && t.PointersForeign() && f < t.Count() && IsFirst(t.slots, f)
    requires BufAfter(t, k) == t.slots[f].pointer != 0
    ensures BufAfter(t, k + 1) == t.slots[if f + 1 < t.Count() then f + 1 else f].pointer
  {
    SearchFindsFirst(t.slots, f, 0);
  }

  lemma {:induction false} ReachesSlot(t: Table, i: nat)
    requires t.AllZero() && t.PointersForeign() && i < t.Count() && DistinctBefore(t.slots, i)
    requires forall j | 0 <= j < i :: t.slots[j].pointer != 0
    ensures BufAfter(t, i + 1) == t.slots[i].pointer
  {
    hide BufAfter;
    if i == 0 {
      ZeroFirstStep(t);
    } else {
      ReachesSlot(t, i - 1);
      ZeroNextStep(t, i, i - 1);
    }
  }

  /** A walk that cannot get past a link stays with the pointers of the links up to that one. */
  lemma {:induction false} StaysUpTo(t: Table, last: nat, k: nat) returns (f: nat)
    requires t.AllZero() && t.PointersForeign() && last < t.Count() && k > 0
    requires forall j | 0 <= j <= last :: t.slots[j].pointer != 0
    requires last == t.Count() - 1 || !IsFirst(t.slots, last)
    ensures f <= last && BufAfter(t, k) == t.slots[f].pointer && IsFirst(t.slots, f)
    decreases k
  {
    hide BufAfter;
    if k == 1 {
      ZeroFirstStep(t);
      f := 0;
    } else {
      f := StaysUpTo(t, last, k - 1);
      ZeroNextStep(t, k - 1, f);
      f := FirstWith(t.slots, if f + 1 < t.Count() then f + 1 else f);
    }
  }

  /** Some link received NULL, and no two links before it the same pointer. */
  predicate NullInReach(t: Table) {
    exists i | 0 <= i < t.Count() :: t.slots[i].pointer == 0 && DistinctBefore(t.slots, i)
  }

  lemma OutOfReach(t: Table, k: nat)
    requires t.AllZero() && t.PointersForeign() && t.Count() > 0 && !NullInReach(t) && k > 0
    ensures BufAfter(t, k) != 0
  {
    hide BufAfter;
    var last := t.Count() - 1;
    if i :| 0 <= i < t.Count() && t.slots[i].pointer == 0 {
      var f := FirstWith(t.slots, i);
      assert !DistinctBefore(t.slots, f);
      var h, j :| 0 <= h < j < f && t.slots[h].pointer == t.slots[j].pointer;
      last := j;
    }
    var f := StaysUpTo(t, last, k);
  }

  /** On zero-copy links the caller's pointer becomes NULL again exactly when a sender passed NULL and
      the walk gets as far as its link. */
  lemma ZeroPointerNullExactly(t: Table)
    requires t.AllZero() && t.PointersForeign() && t.Count() > 0
    ensures (exists k: nat :: k > 0 && BufAfter(t, k) == 0) <==> NullInReach(t)
  {
    hide BufAfter;
    if NullInReach(t) {
      var i :| 0 <= i < t.Count() && t.slots[i].pointer == 0 && DistinctBefore(t.slots, i);
      var f := FirstWith(t.slots, i);
      ReachesSlot(t, f);
    } else {
      forall k: nat | k > 0 ensures BufAfter(t, k) != 0 {
        OutOfReach(t, k);
      }
    }
  }

  // ----- sizes

  function TotalSize(slots: seq<Slot>): nat {
    if slots == [] then 0 else TotalSize(slots[..|slots| - 1]) + slots[|slots| - 1].size
  }

  /** The sizes that the first n calls hand out, added up. */
  function WalkedSize(t: Table, n: nat): nat
    requires t.Count() > 0
  {
    if n == 0 then 0
    else WalkedSize(t, n - 1) + match Call(t, n - 1)
                                case Found(_, size) => size
                                case End => 0
  }

  lemma {:induction false} WalkAddsUp(t: Table, n: nat)
    requires t.Count() > 0 && WalksAll(t) && n <= t.Count()
    ensures WalkedSize(t, n) == TotalSize(t.slots[..n])
  {
    if n == 0 {
    } else {
      WalkAddsUp(t, n - 1);
      assert t.slots[..n][..n - 1] == t.slots[..n - 1];
      assert Call(t, n - 1) == Item(t.slots[n - 1]);
    }
  }
}
