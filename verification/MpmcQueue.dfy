/**
  The bounded multi-producer multi-consumer ring of Mutiqueue/mpmc-bounded-queue.hpp as a transition
  system: every atomic access of `enqueue` and `dequeue` is one step of one thread, the steps of any
  number of threads interleave freely, and a weak compare-exchange may fail at any time.

  A ticket is a value of `_head_seq` (for an enqueuer) or of `_tail_seq` (for a dequeuer).  The last
  four fields of `State` only record what happened and are never read by a step.
*/
module MpmcQueue {
  import opened Common
  import opened Bits

  datatype Outcome<+T> =
    | Fresh
    | EnqueueReturned(ok: bool)
    | DequeueReturned(value: Option<T>)

  datatype Slot<+T> = Slot(seqNo: int, data: T)

  /** The next atomic access of a thread, with the local variables that are live there. */
  datatype Pc<+T> =
    | Ready(last: Outcome<T>)
    | EnqLoadHead(item: T)
    | EnqLoadSeq(item: T, head: nat)
    | EnqCas(item: T, head: nat)
    | EnqWrite(item: T, head: nat)
    | EnqPublish(item: T, head: nat)
    | DeqLoadTail
    | DeqLoadSeq(tail: nat)
    | DeqCas(tail: nat)
    | DeqRead(tail: nat)
    | DeqRelease(tail: nat, value: T)

  datatype State<+T> = State(
    size: nat,
    slots: seq<Slot<T>>,
    head: nat,
    tail: nat,
    pcs: seq<Pc<T>>,
    log: seq<T>,            // log[t]: the item of the enqueuer that claimed ticket t
    enqBy: seq<nat>,        // enqBy[t]: the thread that claimed ticket t for writing
    deqBy: seq<nat>,        // deqBy[t]: the thread that claimed ticket t for reading
    delivered: map<nat, T>  // what the dequeuer of ticket t returned, once it released the slot
  )

  /** `&_buffer[ticket & _mask]`. */
  function Index(ticket: nat, size: nat): (i: nat)
    requires IsPowerOfTwo(size)
    ensures i < size
  {
    MaskInRange(ticket, size);
    And(ticket, size - 1)
  }

  lemma SameIndex(t: nat, u: nat, size: nat)
    requires IsPowerOfTwo(size) && t < u && Index(t, size) == Index(u, size)
    ensures t + size <= u
  {
    MaskFarApart(t, u, size);
  }

  // ----- the program -----

  /** The constructor; the slots' data is whatever the memory held. */
  ghost predicate Init<T>(s: State<T>, size: nat) {
    && s.size == size == |s.slots|
    && (forall i: nat | i < size :: s.slots[i].seqNo == i)
    && s.head == 0 && s.tail == 0
    && (forall k: nat | k < |s.pcs| :: s.pcs[k] == Ready(Fresh))
    && s.log == [] && s.enqBy == [] && s.deqBy == [] && s.delivered == map[]
  }

  /** The assertion in the constructor. */
  predicate Admitted(size: nat) {
    size != 0 && IsPowerOfTwo(size)
  }

  predicate WellFormed<T>(s: State<T>) {
    Admitted(s.size) && |s.slots| == s.size
  }

  function SetPc<T>(s: State<T>, k: nat, pc: Pc<T>): State<T>
    requires k < |s.pcs|
  {
    s.(pcs := s.pcs[k := pc])
  }

  function SetSlot<T>(s: State<T>, i: nat, slot: Slot<T>): State<T>
    requires i < |s.slots|
  {
    s.(slots := s.slots[i := slot])
  }

  function Load<T>(s: State<T>, ticket: nat): Slot<T>
    requires WellFormed(s)
  {
    s.slots[Index(ticket, s.size)]
  }

  /** One atomic access of thread `k`; `weakFailure` is the spurious failure of a compare-exchange. */
  function Advance<T>(s: State<T>, k: nat, weakFailure: bool): State<T>
    requires WellFormed(s) && k < |s.pcs| && !s.pcs[k].Ready?
  {
    match s.pcs[k]
    case EnqLoadHead(x) => SetPc(s, k, EnqLoadSeq(x, s.head))
    case EnqLoadSeq(x, h) =>
      var dif := Load(s, h).seqNo - h;
      if dif == 0 then SetPc(s, k, EnqCas(x, h))
      else if dif < 0 then SetPc(s, k, Ready(EnqueueReturned(false)))
      else SetPc(s, k, EnqLoadHead(x))
    case EnqCas(x, h) =>
      if s.head == h && !weakFailure then
        SetPc(s, k, EnqWrite(x, h)).(head := h + 1, log := s.log + [x], enqBy := s.enqBy + [k])
      else SetPc(s, k, EnqLoadSeq(x, s.head))
    case EnqWrite(x, h) =>
      SetSlot(SetPc(s, k, EnqPublish(x, h)), Index(h, s.size), Load(s, h).(data := x))
    case EnqPublish(x, h) =>
      SetSlot(SetPc(s, k, Ready(EnqueueReturned(true))), Index(h, s.size), Load(s, h).(seqNo := h + 1))
    case DeqLoadTail => SetPc(s, k, DeqLoadSeq(s.tail))
    case DeqLoadSeq(t) =>
      var dif := Load(s, t).seqNo - (t + 1);
      if dif == 0 then SetPc(s, k, DeqCas(t))
      else if dif < 0 then SetPc(s, k, Ready(DequeueReturned(None)))
      else SetPc(s, k, DeqLoadTail)
    case DeqCas(t) =>
      if s.tail == t && !weakFailure then
        SetPc(s, k, DeqRead(t)).(tail := t + 1, deqBy := s.deqBy + [k])
      else SetPc(s, k, DeqLoadSeq(s.tail))
    case DeqRead(t) => SetPc(s, k, DeqRelease(t, Load(s, t).data))
    case DeqRelease(t, v) =>
      SetSlot(SetPc(s, k, Ready(DequeueReturned(Some(v)))), Index(t, s.size),
              Load(s, t).(seqNo := t + (s.size - 1) + 1)).(delivered := s.delivered[t := v])
  }

  /** A thread that is not inside an operation calls `enqueue(item)` or `dequeue`. */
  ghost predicate Call<T>(s: State<T>, s': State<T>, k: nat) {
    && k < |s.pcs| && s.pcs[k].Ready?
    && ((s' == SetPc(s, k, DeqLoadTail)) ||
        (k < |s'.pcs| && s'.pcs[k].EnqLoadHead? && s' == SetPc(s, k, s'.pcs[k])))
  }

  ghost predicate Access<T>(s: State<T>, s': State<T>, k: nat, weakFailure: bool) {
    WellFormed(s) && k < |s.pcs| && !s.pcs[k].Ready? && s' == Advance(s, k, weakFailure)
  }

  ghost predicate Step<T>(s: State<T>, s': State<T>, k: nat) {
    Call(s, s', k) || Access(s, s', k, false) || Access(s, s', k, true)
  }

  ghost predicate Next<T>(s: State<T>, s': State<T>) {
    exists k: nat :: Step(s, s', k)
  }

  /** An execution of the queue: any number of threads, any interleaving. */
  ghost predicate Run<T>(size: nat, run: seq<State<T>>) {
    && |run| > 0 && Init(run[0], size)
    && (forall j: nat | 0 < j < |run| :: Next(run[j - 1], run[j]))
  }

  // ----- the invariant -----

  /** The ticket a slot is currently serving: its sequence number is the ticket, or one more once published. */
  ghost function Turn<T>(s: State<T>, i: nat): int
    requires i < |s.slots| && IsPowerOfTwo(s.size)
  {
    var q := s.slots[i].seqNo;
    if q >= 0 && Index(q, s.size) == i then q else q - 1
  }

  ghost predicate WritingFor<T>(pc: Pc<T>, t: int) {
    (pc.EnqWrite? || pc.EnqPublish?) && pc.head == t
  }

  ghost predicate ReadingFor<T>(pc: Pc<T>, t: int) {
    (pc.DeqRead? || pc.DeqRelease?) && pc.tail == t
  }

  ghost predicate HistoryInv<T>(s: State<T>) {
    && |s.log| == |s.enqBy| == s.head && |s.deqBy| == s.tail
    && s.tail <= s.head <= s.tail + s.size
    && (forall t: nat | t < s.head :: s.enqBy[t] < |s.pcs|)
    && (forall t: nat | t < s.tail :: s.deqBy[t] < |s.pcs|)
    && (forall t: nat | t in s.delivered :: t < s.tail && s.delivered[t] == s.log[t])
    && (forall t: nat | t < s.tail :: t !in s.delivered <==> ReadingFor(s.pcs[s.deqBy[t]], t))
  }

  ghost predicate SlotInv<T>(s: State<T>, i: nat)
    requires HistoryInv(s) && i < |s.slots| && IsPowerOfTwo(s.size)
  {
    var t := Turn(s, i);
    && 0 <= t && Index(t, s.size) == i
    && (s.slots[i].seqNo == t || s.slots[i].seqNo == t + 1)
    && s.head <= t + s.size && t < s.tail + s.size
    && (s.slots[i].seqNo == t ==> s.tail <= t && (t < s.head ==> WritingFor(s.pcs[s.enqBy[t]], t)))
    && (s.slots[i].seqNo == t + 1 ==>
          t < s.head && s.slots[i].data == s.log[t] && (t < s.tail ==> ReadingFor(s.pcs[s.deqBy[t]], t)))
  }

  ghost predicate ThreadInv<T>(s: State<T>, k: nat)
    requires WellFormed(s) && HistoryInv(s) && k < |s.pcs|
  {
    match s.pcs[k]
    case EnqLoadSeq(_, h) => h <= s.head
    case EnqCas(_, h) => h <= s.head && (h == s.head ==> Load(s, h).seqNo == h)
    case EnqWrite(x, h) => h < s.head && s.enqBy[h] == k && s.log[h] == x && Load(s, h).seqNo == h
    case EnqPublish(x, h) =>
      h < s.head && s.enqBy[h] == k && s.log[h] == x && Load(s, h).seqNo == h && Load(s, h).data == x
    case DeqLoadSeq(t) => t <= s.tail
    case DeqCas(t) => t <= s.tail && (t == s.tail ==> Load(s, t).seqNo == t + 1)
    case DeqRead(t) => t < s.tail && s.deqBy[t] == k && Load(s, t).seqNo == t + 1
    case DeqRelease(t, v) =>
      t < s.tail && s.deqBy[t] == k && Load(s, t).seqNo == t + 1 && t < s.head && v == s.log[t]
    case _ => true
  }

  ghost predicate Inv<T>(s: State<T>) {
    && WellFormed(s) && s.size >= 2 && HistoryInv(s)
    && (forall i: nat | i < s.size :: SlotInv(s, i))
    && (forall k: nat | k < |s.pcs| :: ThreadInv(s, k))
  }

  lemma InitInv<T>(s: State<T>, size: nat)
    requires Init(s, size) && Admitted(size) && size >= 2
    ensures Inv(s)
  {
    forall i: nat | i < size ensures SlotInv(s, i) {
      MaskBelowSize(i, size);
    }
  }

  lemma QuietHistory<T>(s: State<T>, s': State<T>, k: nat, pc: Pc<T>)
    requires Inv(s) && k < |s.pcs| && s' == SetPc(s, k, pc)
    requires forall t: nat :: !ReadingFor(s.pcs[k], t) && !ReadingFor(pc, t)
    ensures HistoryInv(s')
  {
    assert HistoryInv(s);
  }

  lemma QuietSlot<T>(s: State<T>, s': State<T>, k: nat, pc: Pc<T>, i: nat)
    requires Inv(s) && k < |s.pcs| && s' == SetPc(s, k, pc) && i < s.size
    requires forall t: nat :: !ReadingFor(s.pcs[k], t) && !WritingFor(s.pcs[k], t)
    requires HistoryInv(s')
    ensures SlotInv(s', i)
  {
    assert SlotInv(s, i);
  }

  lemma QuietThread<T>(s: State<T>, s': State<T>, k: nat, pc: Pc<T>, j: nat)
    requires Inv(s) && k < |s.pcs| && s' == SetPc(s, k, pc) && j < |s.pcs| && j != k
    requires HistoryInv(s')
    ensures ThreadInv(s', j)
  {
    assert ThreadInv(s, j);
  }

  /** Loads, failed compare-exchanges and calls: only the program counter of a thread without a ticket moves. */
  lemma QuietKeepsInv<T>(s: State<T>, s': State<T>, k: nat, pc: Pc<T>)
    requires Inv(s) && k < |s.pcs| && s' == SetPc(s, k, pc)
    requires forall t: nat :: !ReadingFor(s.pcs[k], t) && !WritingFor(s.pcs[k], t) && !ReadingFor(pc, t)
    requires HistoryInv(s') ==> ThreadInv(s', k)
    ensures Inv(s')
  {
    QuietHistory(s, s', k, pc);
    forall i: nat | i < s.size ensures SlotInv(s', i) {
      QuietSlot(s, s', k, pc, i);
    }
    forall j: nat | j < |s'.pcs| ensures ThreadInv(s', j) {
      if j != k { QuietThread(s, s', k, pc, j); }
    }
  }

  ghost predicate ClaimsHead<T>(s: State<T>, s': State<T>, k: nat) {
    && Inv(s) && k < |s.pcs| && s.pcs[k].EnqCas? && s.pcs[k].head == s.head
    && s' == Advance(s, k, false)
  }

  lemma ClaimHeadHistory<T>(s: State<T>, s': State<T>, k: nat)
    requires ClaimsHead(s, s', k)
    ensures HistoryInv(s')
  {
    var h := s.head;
    assert ThreadInv(s, k);
    var i := Index(h, s.size);
    assert SlotInv(s, i);
    assert Turn(s, i) == h;
  }

  lemma ClaimHeadSlot<T>(s: State<T>, s': State<T>, k: nat, i: nat)
    requires ClaimsHead(s, s', k) && HistoryInv(s') && i < s.size
    ensures SlotInv(s', i)
  {
    var h := s.head;
    assert ThreadInv(s, k);
    assert SlotInv(s, i);
    var t := Turn(s, i);
    assert Turn(s', i) == t;
    if s.head == t + s.size {
      MaskNextLap(t, s.size);
    }
  }

  lemma ClaimHeadThread<T>(s: State<T>, s': State<T>, k: nat, j: nat)
    requires ClaimsHead(s, s', k) && HistoryInv(s') && j < |s.pcs|
    ensures ThreadInv(s', j)
  {
    assert ThreadInv(s, k);
    assert ThreadInv(s, j);
  }

  ghost predicate Writes<T>(s: State<T>, s': State<T>, k: nat) {
    Inv(s) && k < |s.pcs| && s.pcs[k].EnqWrite? && s' == Advance(s, k, false)
  }

  lemma WriteHistory<T>(s: State<T>, s': State<T>, k: nat)
    requires Writes(s, s', k)
    ensures HistoryInv(s')
  {
  }

  lemma WriteSlot<T>(s: State<T>, s': State<T>, k: nat, i: nat)
    requires Writes(s, s', k) && HistoryInv(s') && i < s.size
    ensures SlotInv(s', i)
  {
    assert ThreadInv(s, k);
    assert SlotInv(s, i);
    assert Turn(s', i) == Turn(s, i);
  }

  lemma WriteThread<T>(s: State<T>, s': State<T>, k: nat, j: nat)
    requires Writes(s, s', k) && HistoryInv(s') && j < |s.pcs|
    ensures ThreadInv(s', j)
  {
    assert ThreadInv(s, k);
    assert ThreadInv(s, j);
  }

  ghost predicate Publishes<T>(s: State<T>, s': State<T>, k: nat) {
    Inv(s) && k < |s.pcs| && s.pcs[k].EnqPublish? && s' == Advance(s, k, false)
  }

  lemma PublishHistory<T>(s: State<T>, s': State<T>, k: nat)
    requires Publishes(s, s', k)
    ensures HistoryInv(s')
  {
  }

  /** Needs two slots: with one, "published" and "free for the next lap" are the same number. */
  lemma NextTicketElsewhere(t: nat, size: nat)
    requires IsPowerOfTwo(size) && size >= 2
    ensures Index(t + 1, size) != Index(t, size)
  {
    if Index(t + 1, size) == Index(t, size) { SameIndex(t, t + 1, size); }
  }

  lemma PublishSlot<T>(s: State<T>, s': State<T>, k: nat, i: nat)
    requires Publishes(s, s', k) && HistoryInv(s') && i < s.size
    ensures SlotInv(s', i)
  {
    var h := s.pcs[k].head;
    assert ThreadInv(s, k);
    assert SlotInv(s, i);
    NextTicketElsewhere(h, s.size);
    assert Turn(s', i) == Turn(s, i);
  }

  lemma PublishThread<T>(s: State<T>, s': State<T>, k: nat, j: nat)
    requires Publishes(s, s', k) && HistoryInv(s') && j < |s.pcs|
    ensures ThreadInv(s', j)
  {
    var h := s.pcs[k].head;
    assert ThreadInv(s, k);
    assert ThreadInv(s, j);
    NextTicketElsewhere(h, s.size);
    if j != k && (s.pcs[j].DeqCas? || s.pcs[j].DeqRead? || s.pcs[j].DeqRelease?) {
      var t := s.pcs[j].tail;
      NextTicketElsewhere(t, s.size);
    }
  }

  ghost predicate ClaimsTail<T>(s: State<T>, s': State<T>, k: nat) {
    && Inv(s) && k < |s.pcs| && s.pcs[k].DeqCas? && s.pcs[k].tail == s.tail
    && s' == Advance(s, k, false)
  }

  lemma ClaimTailHistory<T>(s: State<T>, s': State<T>, k: nat)
    requires ClaimsTail(s, s', k)
    ensures s.tail < s.head && HistoryInv(s')
  {
    var t := s.tail;
    assert ThreadInv(s, k);
    NextTicketElsewhere(t, s.size);
    assert SlotInv(s, Index(t, s.size));
  }

  lemma ClaimTailSlot<T>(s: State<T>, s': State<T>, k: nat, i: nat)
    requires ClaimsTail(s, s', k) && HistoryInv(s') && i < s.size
    ensures SlotInv(s', i)
  {
    assert ThreadInv(s, k);
    assert SlotInv(s, i);
    NextTicketElsewhere(s.tail, s.size);
    assert Turn(s', i) == Turn(s, i);
  }

  lemma ClaimTailThread<T>(s: State<T>, s': State<T>, k: nat, j: nat)
    requires ClaimsTail(s, s', k) && HistoryInv(s') && j < |s.pcs|
    ensures ThreadInv(s', j)
  {
    assert ThreadInv(s, k);
    assert ThreadInv(s, j);
  }

  ghost predicate Reads<T>(s: State<T>, s': State<T>, k: nat) {
    Inv(s) && k < |s.pcs| && s.pcs[k].DeqRead? && s' == Advance(s, k, false)
  }

  lemma ReadHistory<T>(s: State<T>, s': State<T>, k: nat)
    requires Reads(s, s', k)
    ensures HistoryInv(s')
  {
  }

  lemma ReadSlot<T>(s: State<T>, s': State<T>, k: nat, i: nat)
    requires Reads(s, s', k) && HistoryInv(s') && i < s.size
    ensures SlotInv(s', i)
  {
    assert SlotInv(s, i);
  }

  /** What a dequeuer holding ticket `t` finds in its slot is the item of the enqueuer of ticket `t`. */
  lemma PublishedTicket<T>(s: State<T>, t: nat)
    requires Inv(s) && Load(s, t).seqNo == t + 1
    ensures t < s.head && Load(s, t).data == s.log[t]
  {
    NextTicketElsewhere(t, s.size);
    assert SlotInv(s, Index(t, s.size));
  }

  lemma ReadThread<T>(s: State<T>, s': State<T>, k: nat, j: nat)
    requires Reads(s, s', k) && HistoryInv(s') && j < |s.pcs|
    ensures ThreadInv(s', j)
  {
    assert ThreadInv(s, k);
    assert ThreadInv(s, j);
    PublishedTicket(s, s.pcs[k].tail);
  }

  ghost predicate Releases<T>(s: State<T>, s': State<T>, k: nat) {
    Inv(s) && k < |s.pcs| && s.pcs[k].DeqRelease? && s' == Advance(s, k, false)
  }

  lemma ReleaseHistory<T>(s: State<T>, s': State<T>, k: nat)
    requires Releases(s, s', k)
    ensures HistoryInv(s')
  {
    assert ThreadInv(s, k);
  }

  lemma ReleaseOwnSlot<T>(s: State<T>, s': State<T>, k: nat)
    requires Releases(s, s', k) && HistoryInv(s')
    ensures SlotInv(s', Index(s.pcs[k].tail, s.size))
  {
    var t := s.pcs[k].tail;
    var i := Index(t, s.size);
    assert ThreadInv(s, k);
    assert SlotInv(s, i);
    NextTicketElsewhere(t, s.size);
    assert Turn(s, i) == t;
    MaskNextLap(t, s.size);
    assert Turn(s', i) == t + s.size;
  }

  lemma ReleaseOtherSlot<T>(s: State<T>, s': State<T>, k: nat, i: nat)
    requires Releases(s, s', k) && HistoryInv(s') && i < s.size && i != Index(s.pcs[k].tail, s.size)
    ensures SlotInv(s', i)
  {
    assert ThreadInv(s, k);
    assert SlotInv(s, i);
    assert Turn(s', i) == Turn(s, i);
  }

  lemma ReleaseSlot<T>(s: State<T>, s': State<T>, k: nat, i: nat)
    requires Releases(s, s', k) && HistoryInv(s') && i < s.size
    ensures SlotInv(s', i)
  {
    if i == Index(s.pcs[k].tail, s.size) {
      ReleaseOwnSlot(s, s', k);
    } else {
      ReleaseOtherSlot(s, s', k, i);
    }
  }

  lemma ReleaseThread<T>(s: State<T>, s': State<T>, k: nat, j: nat)
    requires Releases(s, s', k) && HistoryInv(s') && j < |s.pcs|
    ensures ThreadInv(s', j)
  {
    var t := s.pcs[k].tail;
    assert ThreadInv(s, k);
    assert ThreadInv(s, j);
    NextTicketElsewhere(t, s.size);
    if j != k && (s.pcs[j].DeqCas? || s.pcs[j].DeqRead? || s.pcs[j].DeqRelease?) {
      NextTicketElsewhere(s.pcs[j].tail, s.size);
    }
  }

  ghost predicate Claims<T>(s: State<T>, k: nat, weakFailure: bool)
    requires k < |s.pcs|
  {
    && !weakFailure
    && ((s.pcs[k].EnqCas? && s.pcs[k].head == s.head) || (s.pcs[k].DeqCas? && s.pcs[k].tail == s.tail))
  }

  ghost predicate TicketStep<T>(s: State<T>, s': State<T>, k: nat, weakFailure: bool) {
    && Inv(s) && Access(s, s', k, weakFailure)
    && (Claims(s, k, weakFailure) || s.pcs[k].EnqWrite? || s.pcs[k].EnqPublish? || s.pcs[k].DeqRead? || s.pcs[k].DeqRelease?)
  }

  lemma TicketStepHistory<T>(s: State<T>, s': State<T>, k: nat, weakFailure: bool)
    requires TicketStep(s, s', k, weakFailure)
    ensures HistoryInv(s')
  {
    match s.pcs[k]
    case EnqCas(_, _) => ClaimHeadHistory(s, s', k);
    case EnqWrite(_, _) => WriteHistory(s, s', k);
    case EnqPublish(_, _) => PublishHistory(s, s', k);
    case DeqCas(_) => ClaimTailHistory(s, s', k);
    case DeqRead(_) => ReadHistory(s, s', k);
    case DeqRelease(_, _) => ReleaseHistory(s, s', k);
  }

  lemma TicketStepSlot<T>(s: State<T>, s': State<T>, k: nat, weakFailure: bool, i: nat)
    requires TicketStep(s, s', k, weakFailure) && HistoryInv(s') && i < s.size
    ensures SlotInv(s', i)
  {
    match s.pcs[k]
    case EnqCas(_, _) => ClaimHeadSlot(s, s', k, i);
    case EnqWrite(_, _) => WriteSlot(s, s', k, i);
    case EnqPublish(_, _) => PublishSlot(s, s', k, i);
    case DeqCas(_) => ClaimTailSlot(s, s', k, i);
    case DeqRead(_) => ReadSlot(s, s', k, i);
    case DeqRelease(_, _) => ReleaseSlot(s, s', k, i);
  }

  lemma TicketStepThread<T>(s: State<T>, s': State<T>, k: nat, weakFailure: bool, j: nat)
    requires TicketStep(s, s', k, weakFailure) && HistoryInv(s') && j < |s.pcs|
    ensures ThreadInv(s', j)
  {
    match s.pcs[k]
    case EnqCas(_, _) => ClaimHeadThread(s, s', k, j);
    case EnqWrite(_, _) => WriteThread(s, s', k, j);
    case EnqPublish(_, _) => PublishThread(s, s', k, j);
    case DeqCas(_) => ClaimTailThread(s, s', k, j);
    case DeqRead(_) => ReadThread(s, s', k, j);
    case DeqRelease(_, _) => ReleaseThread(s, s', k, j);
  }

  lemma QuietStepKeepsInv<T>(s: State<T>, s': State<T>, k: nat, weakFailure: bool)
    requires Inv(s) && Access(s, s', k, weakFailure) && !TicketStep(s, s', k, weakFailure)
    ensures Inv(s')
  {
    assert ThreadInv(s, k);
    assert s' == SetPc(s, k, s'.pcs[k]);
    QuietKeepsInv(s, s', k, s'.pcs[k]);
  }

  lemma TicketStepKeepsInv<T>(s: State<T>, s': State<T>, k: nat, weakFailure: bool)
    requires TicketStep(s, s', k, weakFailure)
    ensures Inv(s')
  {
    TicketStepHistory(s, s', k, weakFailure);
    forall i: nat | i < s'.size ensures SlotInv(s', i) {
      TicketStepSlot(s, s', k, weakFailure, i);
    }
    forall j: nat | j < |s'.pcs| ensures ThreadInv(s', j) {
      TicketStepThread(s, s', k, weakFailure, j);
    }
  }

  lemma StepKeepsInv<T>(s: State<T>, s': State<T>, k: nat)
    requires Inv(s) && Step(s, s', k)
    ensures Inv(s')
  {
    if Call(s, s', k) {
      QuietKeepsInv(s, s', k, s'.pcs[k]);
    } else {
      var weak := !Access(s, s', k, false);
      if TicketStep(s, s', k, weak) {
        TicketStepKeepsInv(s, s', k, weak);
      } else {
        QuietStepKeepsInv(s, s', k, weak);
      }
    }
  }

  lemma {:induction false} RunKeepsInv<T>(size: nat, run: seq<State<T>>, j: nat)
    requires Run(size, run) && Admitted(size) && size >= 2 && j < |run|
    ensures Inv(run[j]) && run[j].size == size
  {
    if j == 0 {
      InitInv(run[0], size);
    } else {
      RunKeepsInv(size, run, j - 1);
      NextKeepsInv(run[j - 1], run[j]);
    }
  }

  lemma NextKeepsInv<T>(s: State<T>, s': State<T>)
    requires Inv(s) && Next(s, s')
    ensures Inv(s') && s'.size == s.size
  {
    var k: nat :| Step(s, s', k);
    StepKeepsInv(s, s', k);
    assert s'.size == s.size;
  }

  // ----- what the invariant means to a user of the queue -----

  /** The thread holds a ticket and is between its claim and its release of the slot. */
  ghost predicate Holds<T>(s: State<T>, k: nat, t: nat)
    requires k < |s.pcs|
  {
    WritingFor(s.pcs[k], t) || ReadingFor(s.pcs[k], t)
  }

  ghost predicate Safe<T>(s: State<T>) {
    && Admitted(s.size) && |s.log| == s.head
    && s.tail <= s.head <= s.tail + s.size
    // no two threads hold the same ticket on the same side, or tickets of the same slot
    && (forall j: nat, k: nat, t: nat, u: nat | j < k < |s.pcs| && Holds(s, j, t) && Holds(s, k, u) ::
          t != u && Index(t, s.size) != Index(u, s.size))
    // whoever is about to write a slot finds every earlier ticket of that slot read and released
    && (forall k: nat, h: nat, t: nat | k < |s.pcs| && WritingFor(s.pcs[k], h) && t < h
          && Index(t, s.size) == Index(h, s.size) :: t in s.delivered)
    // what is delivered for a ticket is what was enqueued for it
    && (forall t: nat | t in s.delivered :: t < s.tail && s.delivered[t] == s.log[t])
  }

  lemma HoldersApart<T>(s: State<T>, j: nat, k: nat, t: nat, u: nat)
    requires Inv(s) && j < |s.pcs| && k < |s.pcs| && j != k && Holds(s, j, t) && Holds(s, k, u)
    ensures t != u && Index(t, s.size) != Index(u, s.size)
  {
    assert ThreadInv(s, j) && ThreadInv(s, k);
    NextTicketElsewhere(t, s.size);
    NextTicketElsewhere(u, s.size);
  }

  lemma WriterFindsReleased<T>(s: State<T>, k: nat, h: nat, t: nat)
    requires Inv(s) && k < |s.pcs| && WritingFor(s.pcs[k], h) && t < h && Index(t, s.size) == Index(h, s.size)
    ensures t in s.delivered
  {
    assert ThreadInv(s, k);
    SameIndex(t, h, s.size);
    if ReadingFor(s.pcs[s.deqBy[t]], t) {
      var j := s.deqBy[t];
      assert ThreadInv(s, j);
      assert Holds(s, j, t) && Holds(s, k, h);
      HoldersApart(s, j, k, t, h);
    }
  }

  lemma InvIsSafe<T>(s: State<T>)
    requires Inv(s)
    ensures Safe(s)
  {
    forall j: nat, k: nat, t: nat, u: nat | j < k < |s.pcs| && Holds(s, j, t) && Holds(s, k, u)
      ensures t != u && Index(t, s.size) != Index(u, s.size)
    {
      HoldersApart(s, j, k, t, u);
    }
    forall k: nat, h: nat, t: nat | k < |s.pcs| && WritingFor(s.pcs[k], h) && t < h
      && Index(t, s.size) == Index(h, s.size)
      ensures t in s.delivered
    {
      WriterFindsReleased(s, k, h, t);
    }
  }

  /** Every state of every execution of a queue with at least two slots is safe. */
  lemma EveryRunSafe<T>(size: nat, run: seq<State<T>>, j: nat)
    requires Run(size, run) && Admitted(size) && size >= 2 && j < |run|
    ensures Safe(run[j])
  {
    RunKeepsInv(size, run, j);
    InvIsSafe(run[j]);
  }

  // ----- the size the constructor admits although the protocol does not hold for it -----

  ghost predicate AlwaysSafe(size: nat) {
    forall run: seq<State<int>>, j: nat | Run(size, run) && j < |run| :: Safe(run[j])
  }

  /** One thread enqueues twice into a queue of one slot; the second item overwrites the first. */
  function OneSlotState(n: nat): State<int> {
    var s := State(1, [Slot(0, 0)], 0, 0, [Ready(Fresh)], [], [], [], map[]);
    var claimed := s.(head := 1, log := [7], enqBy := [0]);
    var first := claimed.(slots := [Slot(1, 7)], pcs := [Ready(EnqueueReturned(true))]);
    if n == 0 then s
    else if n == 1 then s.(pcs := [EnqLoadHead(7)])
    else if n == 2 then s.(pcs := [EnqLoadSeq(7, 0)])
    else if n == 3 then s.(pcs := [EnqCas(7, 0)])
    else if n == 4 then claimed.(pcs := [EnqWrite(7, 0)])
    else if n == 5 then claimed.(slots := [Slot(0, 7)], pcs := [EnqPublish(7, 0)])
    else if n == 6 then first
    else if n == 7 then first.(pcs := [EnqLoadHead(8)])
    else if n == 8 then first.(pcs := [EnqLoadSeq(8, 1)])
    else if n == 9 then first.(pcs := [EnqCas(8, 1)])
    else first.(head := 2, log := [7, 8], enqBy := [0, 0], pcs := [EnqWrite(8, 1)])
  }

  lemma OneSlotStep(n: nat)
    requires 0 < n <= 10
    ensures Next(OneSlotState(n - 1), OneSlotState(n))
  {
    var s, s' := OneSlotState(n - 1), OneSlotState(n);
    assert And(0, 0) == 0 && And(1, 0) == 0;
    if n == 1 || n == 7 {
      assert s' == SetPc(s, 0, s'.pcs[0]);
      assert Call(s, s', 0);
    } else {
      assert Advance(s, 0, false) == s';
      assert Access(s, s', 0, false);
    }
    assert Step(s, s', 0);
  }

  lemma OneSlotUnsafe()
    ensures !AlwaysSafe(1)
  {
    var run := seq(11, (n: nat) => OneSlotState(n));
    forall j: nat | 0 < j < |run| ensures Next(run[j - 1], run[j]) {
      OneSlotStep(j);
    }
    assert Run(1, run);
    assert !Safe(run[10]);
  }

  /** The constructor's assertion is one slot too generous: exactly the sizes from two on are safe. */
  lemma SafeExactlyFromTwoSlots(size: nat)
    requires Admitted(size)
    ensures AlwaysSafe(size) <==> size >= 2
  {
    if size >= 2 {
      forall run: seq<State<int>>, j: nat | Run(size, run) && j < |run| ensures Safe(run[j]) {
        EveryRunSafe(size, run, j);
      }
    } else {
      OneSlotUnsafe();
    }
  }

  // ----- when the operations report failure -----

  /** The slot of `ticket` still serves the previous lap: that ticket's item has not been released. */
  ghost predicate PreviousLapBusy<T>(s: State<T>, ticket: nat) {
    ticket >= s.size && ticket - s.size < s.head && ticket - s.size !in s.delivered
  }

  /**
    The load of `seq` in `enqueue` at a local head `h` sends the thread away with `false` exactly if `h`
    is the shared head and the previous lap of its slot is still unreleased, and sends it to the
    compare-exchange with a current head exactly if the slot has been released.
   */
  lemma EnqueueReportsFull<T>(s: State<T>, k: nat, x: T, h: nat)
    requires Inv(s) && k < |s.pcs| && s.pcs[k] == EnqLoadSeq(x, h)
    ensures Advance(s, k, false).pcs[k] == Ready(EnqueueReturned(false))
            <==> h == s.head && PreviousLapBusy(s, h)
    ensures h == s.head ==> (Advance(s, k, false).pcs[k] == EnqCas(x, h) <==> !PreviousLapBusy(s, h))
    ensures Advance(s, k, false).pcs[k] == EnqLoadHead(x) ==> h < s.head
  {
    assert ThreadInv(s, k);
    var i := Index(h, s.size);
    assert SlotInv(s, i);
    var t := Turn(s, i);
    if t < h {
      SameIndex(t, h, s.size);
      assert h == s.head && t == h - s.size;
    } else if t == h {
      if h == s.head && h >= s.size {
        MaskNextLap(h - s.size, s.size);
        TurnReleased(s, h, h - s.size);
      }
    } else {
      SameIndex(h, t, s.size);
    }
  }

  /** All tickets before the one a slot serves have been released. */
  lemma TurnReleased<T>(s: State<T>, h: nat, t: nat)
    requires Inv(s) && t < h && Index(t, s.size) == Index(h, s.size) && h <= Turn(s, Index(h, s.size))
    ensures t in s.delivered
  {
    var i := Index(h, s.size);
    assert SlotInv(s, i);
    var u := Turn(s, i);
    SameIndex(t, u, s.size);
    assert t < s.tail;
    assert ThreadInv(s, s.deqBy[t]);
  }

  /** The enqueuer of `ticket` has stored the slot's new sequence number. */
  ghost predicate IsPublished<T>(s: State<T>, ticket: nat)
    requires HistoryInv(s)
  {
    ticket < s.head && !WritingFor(s.pcs[s.enqBy[ticket]], ticket)
  }

  /** `dequeue` reports an empty queue exactly if its local tail is current and that ticket is not published. */
  lemma DequeueReportsEmpty<T>(s: State<T>, k: nat, t: nat)
    requires Inv(s) && k < |s.pcs| && s.pcs[k] == DeqLoadSeq(t)
    ensures Advance(s, k, false).pcs[k] == Ready(DequeueReturned(None))
            <==> t == s.tail && !IsPublished(s, t)
    ensures t == s.tail ==> (Advance(s, k, false).pcs[k] == DeqCas(t) <==> IsPublished(s, t))
    ensures Advance(s, k, false).pcs[k] == DeqLoadTail ==> t < s.tail
  {
    assert ThreadInv(s, k);
    var i := Index(t, s.size);
    assert SlotInv(s, i);
    var u := Turn(s, i);
    if u < t {
      SameIndex(u, t, s.size);
      assert s.head == t;
    } else {
      if u > t { SameIndex(t, u, s.size); }
      if t < s.head {
        var j := s.enqBy[t];
        assert ThreadInv(s, j);
      }
    }
  }

  /**
    Over all accesses: an operation gives up only at its load of `seq`, and there exactly if its ticket is current and
    not to be had; it succeeds exactly at its last store; and a thread goes round its loop again only if another
    thread has taken its ticket, or the compare-exchange failed without reason.
   */
  lemma OperationsReport<T>(s: State<T>, s': State<T>, k: nat, weakFailure: bool)
    requires Inv(s) && Access(s, s', k, weakFailure)
    ensures |s'.pcs| == |s.pcs|
    ensures s'.pcs[k] == Ready(DequeueReturned(None)) <==> s.pcs[k] == DeqLoadSeq(s.tail) && !IsPublished(s, s.tail)
    ensures s'.pcs[k] == Ready(EnqueueReturned(false)) <==>
              s.pcs[k].EnqLoadSeq? && s.pcs[k].head == s.head && PreviousLapBusy(s, s.head)
    ensures s'.pcs[k] == Ready(EnqueueReturned(true)) <==> s.pcs[k].EnqPublish?
    ensures s'.pcs[k].Ready? && s'.pcs[k].last.DequeueReturned? && s'.pcs[k].last.value.Some? <==> s.pcs[k].DeqRelease?
    ensures s.pcs[k].EnqCas? && !s'.pcs[k].EnqWrite? ==> s'.pcs[k] == EnqLoadSeq(s.pcs[k].item, s.head) && (weakFailure || s.pcs[k].head < s.head)
    ensures s.pcs[k].DeqCas? && !s'.pcs[k].DeqRead? ==> s'.pcs[k] == DeqLoadSeq(s.tail) && (weakFailure || s.pcs[k].tail < s.tail)
  {
    assert ThreadInv(s, k);
    hide Inv, HistoryInv, IsPublished, PreviousLapBusy;
    match s.pcs[k]
    case EnqLoadSeq(x, h) => EnqueueReportsFull(s, k, x, h);
    case DeqLoadSeq(t) => DequeueReportsEmpty(s, k, t);
    case _ =>
  }

  // ----- progress of the sequence numbers, and what an idle queue holds -----

  /** A step never lowers a slot's sequence number, and a step that stores one raises it. */
  lemma SequenceNumbersGrow<T>(s: State<T>, s': State<T>, k: nat, weakFailure: bool, i: nat)
    requires Inv(s) && Access(s, s', k, weakFailure) && i < s.size
    ensures s.slots[i].seqNo <= s'.slots[i].seqNo
    ensures (s.pcs[k].EnqPublish? && i == Index(s.pcs[k].head, s.size)) ||
            (s.pcs[k].DeqRelease? && i == Index(s.pcs[k].tail, s.size))
            <==> s.slots[i].seqNo < s'.slots[i].seqNo
  {
    assert ThreadInv(s, k);
  }

  /** The record of claims and deliveries is only ever extended. */
  lemma HistoryGrows<T>(s: State<T>, s': State<T>, k: nat)
    requires Inv(s) && Step(s, s', k)
    ensures s.log <= s'.log && s.enqBy <= s'.enqBy && s.deqBy <= s'.deqBy
    ensures forall t: nat | t in s.delivered :: t in s'.delivered && s'.delivered[t] == s.delivered[t]
  {
    assert ThreadInv(s, k);
  }

  ghost predicate Quiet<T>(s: State<T>) {
    forall k: nat | k < |s.pcs| :: s.pcs[k].Ready?
  }

  /**
    Conservation: with no operation in progress, every ticket below the tail was delivered with its own
    item, and every other claimed ticket's item waits, published, in the ticket's slot.
   */
  lemma QuietQueueHoldsTheRest<T>(s: State<T>, t: nat)
    requires Inv(s) && Quiet(s) && t < s.head
    ensures t < s.tail <==> t in s.delivered
    ensures t in s.delivered ==> s.delivered[t] == s.log[t]
    ensures t >= s.tail ==> Load(s, t) == Slot(t + 1, s.log[t])
  {
    if t >= s.tail {
      var i := Index(t, s.size);
      assert SlotInv(s, i);
      var u := Turn(s, i);
      if u < t {
        SameIndex(u, t, s.size);
      } else if t < u {
        SameIndex(t, u, s.size);
      }
    }
  }

  // ----- whole calls, undisturbed -----

  /** All threads but `k` are outside of the queue. */
  ghost predicate Alone<T>(s: State<T>, k: nat) {
    k < |s.pcs| && forall j: nat | j < |s.pcs| && j != k :: s.pcs[j].Ready?
  }

  /** Then every claimed ticket below is published, and every released one below the tail. */
  lemma NothingPending<T>(s: State<T>, k: nat, t: nat)
    requires Inv(s) && Alone(s, k) && !s.pcs[k].EnqWrite? && !s.pcs[k].EnqPublish? && !s.pcs[k].DeqRead? && !s.pcs[k].DeqRelease?
    ensures t < s.head ==> IsPublished(s, t)
    ensures t < s.tail ==> t in s.delivered
    ensures PreviousLapBusy(s, s.head) <==> s.head == s.tail + s.size
  {
    assert s.head >= s.size && s.head - s.size < s.tail ==> s.deqBy[s.head - s.size] < |s.pcs|;
  }

  lemma NextStep<T>(s: State<T>, k: nat)
    requires Inv(s) && Alone(s, k) && !s.pcs[k].Ready?
    ensures var s' := Advance(s, k, false); Inv(s') && Alone(s', k)
  {
    hide Inv;
    InvShape(s);
    StepKeepsInv(s, Advance(s, k, false), k);
  }

  lemma InvShape<T>(s: State<T>)
    requires Inv(s)
    ensures WellFormed(s) && HistoryInv(s)
  {
  }

  lemma CallKeepsInv<T>(s: State<T>, k: nat, pc: Pc<T>)
    requires Inv(s) && Quiet(s) && k < |s.pcs| && (pc.DeqLoadTail? || pc.EnqLoadHead?)
    ensures Inv(SetPc(s, k, pc)) && Alone(SetPc(s, k, pc), k)
  {
    hide Inv;
    StepKeepsInv(s, SetPc(s, k, pc), k);
  }

  /** One whole call of `dequeue`: it delivers the oldest item, or reports an empty queue exactly if there is none. */
  method Dequeue<T>(s: State<T>, k: nat) returns (s': State<T>)
    requires Inv(s) && Quiet(s) && k < |s.pcs|
    ensures Inv(s') && Quiet(s') && s'.head == s.head && s'.log == s.log && |s'.pcs| == |s.pcs|
    ensures s.tail == s.head ==> s' == s.(pcs := s.pcs[k := Ready(DequeueReturned(None))])
    ensures s.tail < s.head ==> s'.pcs == s.pcs[k := Ready(DequeueReturned(Some(s.log[s.tail])))] && s'.tail == s.tail + 1
    ensures s.tail < s.head ==> s'.delivered == s.delivered[s.tail := s.log[s.tail]]
  {
    hide Inv, IsPublished, PreviousLapBusy;
    InvShape(s);
    CallKeepsInv(s, k, DeqLoadTail);
    var loading := SetPc(s, k, DeqLoadTail);
    InvShape(loading);
    NextStep(loading, k);
    var loaded := Advance(loading, k, false);
    InvShape(loaded);
    NextStep(loaded, k);
    NothingPending(loaded, k, s.tail);
    DequeueReportsEmpty(loaded, k, s.tail);
    s' := Advance(loaded, k, false);
    InvShape(s');
    if !s'.pcs[k].Ready? {
      NextStep(s', k);
      var claimed := Advance(s', k, false);
      s' := FinishDequeue(claimed, k);
    }
  }

  /** From the claim of a ticket on. */
  method FinishDequeue<T>(s: State<T>, k: nat) returns (s': State<T>)
    requires Inv(s) && Alone(s, k) && s.pcs[k].DeqRead?
    ensures Inv(s') && Quiet(s') && s'.head == s.head && s'.tail == s.tail && s'.log == s.log
    ensures s.pcs[k].tail < s.head == |s.log|
    ensures var v := s.log[s.pcs[k].tail];
            s'.pcs == s.pcs[k := Ready(DequeueReturned(Some(v)))] && s'.delivered == s.delivered[s.pcs[k].tail := v]
  {
    hide Inv;
    InvShape(s);
    NextStep(s, k);
    var read := Advance(s, k, false);
    InvShape(read);
    ThreadAt(read, k);
    NextStep(read, k);
    s' := Advance(read, k, false);
  }

  lemma ThreadAt<T>(s: State<T>, k: nat)
    requires Inv(s) && k < |s.pcs|
    ensures WellFormed(s) && HistoryInv(s) && ThreadInv(s, k)
  {
  }

  /** One whole call of `enqueue`: it appends the item, or reports a full queue exactly if it is full. */
  method Enqueue<T>(s: State<T>, k: nat, x: T) returns (s': State<T>)
    requires Inv(s) && Quiet(s) && k < |s.pcs|
    ensures Inv(s') && Quiet(s') && s'.tail == s.tail && s'.delivered == s.delivered && |s'.pcs| == |s.pcs|
    ensures s.head == s.tail + s.size ==> s' == s.(pcs := s.pcs[k := Ready(EnqueueReturned(false))])
    ensures s.head < s.tail + s.size ==>
              s'.pcs == s.pcs[k := Ready(EnqueueReturned(true))] && s'.log == s.log + [x] && s'.head == s.head + 1
    ensures s.head <= s.tail + s.size
  {
    hide Inv, IsPublished, PreviousLapBusy;
    InvShape(s);
    CallKeepsInv(s, k, EnqLoadHead(x));
    var loading := SetPc(s, k, EnqLoadHead(x));
    InvShape(loading);
    NextStep(loading, k);
    var loaded := Advance(loading, k, false);
    InvShape(loaded);
    NextStep(loaded, k);
    NothingPending(loaded, k, s.head);
    EnqueueReportsFull(loaded, k, x, s.head);
    s' := Advance(loaded, k, false);
    InvShape(s');
    if !s'.pcs[k].Ready? {
      NextStep(s', k);
      var claimed := Advance(s', k, false);
      s' := FinishEnqueue(claimed, k);
    }
  }

  method FinishEnqueue<T>(s: State<T>, k: nat) returns (s': State<T>)
    requires Inv(s) && Alone(s, k) && s.pcs[k].EnqWrite?
    ensures Inv(s') && Quiet(s') && s'.head == s.head && s'.tail == s.tail && s'.log == s.log && s'.delivered == s.delivered
    ensures s'.pcs == s.pcs[k := Ready(EnqueueReturned(true))]
  {
    hide Inv;
    InvShape(s);
    NextStep(s, k);
    var written := Advance(s, k, false);
    InvShape(written);
    NextStep(written, k);
    s' := Advance(written, k, false);
  }
}
