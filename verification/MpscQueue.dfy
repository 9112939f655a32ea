/**
  The unbounded multi-producer single-consumer queue of Mutiqueue/mpsc-queue.hpp as a transition system:
  every access of `enqueue` and `dequeue` to shared or allocated memory is one step.  The heap maps the
  addresses in use to their nodes; a step that touches any other address sets `faulted`.  Allocation may
  hand out any address that is not in use, so freed addresses may come back.

  The last four fields of `State` (and the field `n` of `Link`) only record what happened and are never
  read by a step.
*/
module MpscQueue {
  import opened Common

  type Address = nat

  datatype Node<+T> = Node(data: T, next: Option<Address>)

  /** The next access of a producer, with its live local variables. */
  datatype Producer<+T> =
    | Outside
    | Allocate(item: T)
    | WriteData(node: Address, item: T)
    | WriteNull(node: Address, item: T)
    | Exchange(node: Address, item: T)
    | Link(prev: Address, node: Address, n: nat)

  datatype Consumer<+T> =
    | Returned(last: Option<T>)
    | LoadTail
    | LoadNext(tail: Address)
    | ReadData(tail: Address, next: Address)
    | StoreTail(tail: Address, next: Address, output: T)
    | Delete(tail: Address, output: T)

  datatype State<+T> = State(
    heap: map<Address, Node<T>>,
    head: Address,
    tail: Address,
    producers: seq<Producer<T>>,
    consumer: Consumer<T>,
    faulted: bool,
    log: seq<T>,           // the items in the order of their exchanges
    sender: seq<nat>,      // the producer of each of them
    chain: seq<Address>,   // the nodes from the tail's to the head's, in the order of their exchanges
    delivered: seq<T>      // what `dequeue` returned, in order
  )

  // ----- the program -----

  /** The constructor: one node, whose data is never read. */
  ghost predicate Init<T>(s: State<T>) {
    && s.heap.Keys == {s.head} && s.heap[s.head].next == None && s.tail == s.head
    && (forall k: nat | k < |s.producers| :: s.producers[k] == Outside)
    && s.consumer == Returned(None) && !s.faulted
    && s.log == [] && s.sender == [] && s.chain == [s.head] && s.delivered == []
  }

  function SetProducer<T>(s: State<T>, k: nat, p: Producer<T>): State<T>
    requires k < |s.producers|
  {
    s.(producers := s.producers[k := p])
  }

  function Fault<T>(s: State<T>): State<T> {
    s.(faulted := true)
  }

  /** The next access of producer `k`; `address` and `junk` are what an allocation returns and finds there. */
  function Produce<T>(s: State<T>, k: nat, address: Address, junk: Node<T>): State<T>
    requires k < |s.producers| && !s.producers[k].Outside?
    requires s.producers[k].Allocate? ==> address !in s.heap
  {
    match s.producers[k]
    case Allocate(x) =>
      SetProducer(s, k, WriteData(address, x)).(heap := s.heap[address := junk])
    case WriteData(node, x) =>
      if node !in s.heap then Fault(s)
      else SetProducer(s, k, WriteNull(node, x)).(heap := s.heap[node := s.heap[node].(data := x)])
    case WriteNull(node, x) =>
      if node !in s.heap then Fault(s)
      else SetProducer(s, k, Exchange(node, x)).(heap := s.heap[node := s.heap[node].(next := None)])
    case Exchange(node, x) =>
      SetProducer(s, k, Link(s.head, node, |s.log|))
        .(head := node, log := s.log + [x], sender := s.sender + [k], chain := s.chain + [node])
    case Link(prev, node, _) =>
      if prev !in s.heap then Fault(s)
      else SetProducer(s, k, Outside).(heap := s.heap[prev := s.heap[prev].(next := Some(node))])
  }

  /** The next access of the consumer. */
  function Consume<T>(s: State<T>): State<T>
    requires !s.consumer.Returned?
  {
    match s.consumer
    case LoadTail => s.(consumer := LoadNext(s.tail))
    case LoadNext(tail) =>
      if tail !in s.heap then Fault(s)
      else (match s.heap[tail].next
            case None => s.(consumer := Returned(None))
            case Some(next) => s.(consumer := ReadData(tail, next)))
    case ReadData(tail, next) =>
      if next !in s.heap then Fault(s)
      else s.(consumer := StoreTail(tail, next, s.heap[next].data))
    case StoreTail(tail, next, v) =>
      s.(consumer := Delete(tail, v), tail := next, chain := if s.chain == [] then [] else s.chain[1..])
    case Delete(tail, v) =>
      if tail !in s.heap then Fault(s)
      else s.(consumer := Returned(Some(v)), heap := s.heap - {tail}, delivered := s.delivered + [v])
  }

  ghost predicate Calls<T>(s: State<T>, s': State<T>, k: nat) {
    && k < |s.producers| && s.producers[k].Outside?
    && k < |s'.producers| && s'.producers[k].Allocate? && s' == SetProducer(s, k, s'.producers[k])
  }

  ghost predicate Produces<T>(s: State<T>, s': State<T>, k: nat, address: Address, junk: Node<T>) {
    && k < |s.producers| && !s.producers[k].Outside? && (s.producers[k].Allocate? ==> address !in s.heap)
    && s' == Produce(s, k, address, junk)
  }

  ghost predicate Consumes<T>(s: State<T>, s': State<T>) {
    if s.consumer.Returned? then s' == s.(consumer := LoadTail) else s' == Consume(s)
  }

  ghost predicate Next<T(!new)>(s: State<T>, s': State<T>) {
    || Consumes(s, s')
    || (exists k: nat :: Calls(s, s', k))
    || (exists k: nat, address: Address, junk: Node<T> :: Produces(s, s', k, address, junk))
  }

  /** An execution: any number of producers and one consumer, interleaved in any way. */
  ghost predicate Run<T(!new)>(run: seq<State<T>>) {
    |run| > 0 && Init(run[0]) && (forall j: nat | 0 < j < |run| :: Next(run[j - 1], run[j]))
  }

  // ----- the invariant -----

  /** The number of items the consumer has moved its tail past. */
  ghost function Popped<T>(s: State<T>): int {
    |s.log| + 1 - |s.chain|
  }

  ghost predicate Private<T>(p: Producer<T>) {
    p.WriteData? || p.WriteNull? || p.Exchange?
  }

  /** The distinct nodes of the chain are allocated, and each carries the item of its exchange. */
  ghost predicate ChainInv<T>(s: State<T>) {
    && 0 < |s.chain| <= |s.log| + 1 && |s.sender| == |s.log|
    && s.chain[0] == s.tail && s.chain[|s.chain| - 1] == s.head
    && (forall i: nat | i < |s.chain| :: s.chain[i] in s.heap)
    && (forall i: nat, j: nat | i < j < |s.chain| :: s.chain[i] != s.chain[j])
    && (forall i: nat | 0 < i < |s.chain| :: s.heap[s.chain[i]].data == s.log[Popped(s) + i - 1])
    && s.heap[s.head].next == None
  }

  /** A node points to its successor, or the successor's producer has still to store that link. */
  ghost predicate LinkInv<T>(s: State<T>, i: nat)
    requires ChainInv(s) && i + 1 < |s.chain|
  {
    var n := Popped(s) + i;
    s.heap[s.chain[i]].next == Some(s.chain[i + 1])
    || (s.heap[s.chain[i]].next == None && s.sender[n] < |s.producers|
        && s.producers[s.sender[n]] == Link(s.chain[i], s.chain[i + 1], n))
  }

  ghost predicate ProducerInv<T>(s: State<T>, k: nat)
    requires ChainInv(s) && k < |s.producers|
  {
    var p := s.producers[k];
    && (Private(p) ==>
          && p.node in s.heap && p.node !in s.chain
          && (p.WriteNull? || p.Exchange? ==> s.heap[p.node].data == p.item)
          && (p.Exchange? ==> s.heap[p.node].next == None))
    && (p.Link? ==>
          && Popped(s) <= p.n < |s.log| && s.sender[p.n] == k
          && s.chain[p.n - Popped(s)] == p.prev && s.chain[p.n - Popped(s) + 1] == p.node
          && s.heap[p.prev].next == None)
  }

  ghost predicate Apart<T>(s: State<T>, j: nat, k: nat)
    requires j < |s.producers| && k < |s.producers|
  {
    j != k && Private(s.producers[j]) && Private(s.producers[k]) ==> s.producers[j].node != s.producers[k].node
  }

  ghost predicate ConsumerInv<T>(s: State<T>)
    requires ChainInv(s)
  {
    && (s.consumer.LoadNext? || s.consumer.ReadData? || s.consumer.StoreTail? ==> s.consumer.tail == s.tail)
    && (s.consumer.ReadData? || s.consumer.StoreTail? ==>
          |s.chain| > 1 && s.consumer.next == s.chain[1] && s.heap[s.tail].next == Some(s.consumer.next))
    && (s.consumer.StoreTail? ==> s.consumer.output == s.log[Popped(s)])
    && (s.consumer.Delete? ==>
          && Popped(s) > 0 && s.consumer.output == s.log[Popped(s) - 1]
          && s.consumer.tail in s.heap && s.consumer.tail !in s.chain
          && (forall k: nat | k < |s.producers| && Private(s.producers[k]) :: s.producers[k].node != s.consumer.tail))
    && |s.delivered| == Popped(s) - (if s.consumer.Delete? then 1 else 0)
    && s.delivered == s.log[..|s.delivered|]
  }

  /** Every allocated node has an owner: no node is lost. */
  ghost predicate Owned<T>(s: State<T>, a: Address) {
    || a in s.chain
    || (s.consumer.Delete? && s.consumer.tail == a)
    || (exists k: nat :: k < |s.producers| && Private(s.producers[k]) && s.producers[k].node == a)
  }

  ghost predicate Inv<T>(s: State<T>) {
    && !s.faulted && ChainInv(s) && ConsumerInv(s)
    && (forall i: nat | i + 1 < |s.chain| :: LinkInv(s, i))
    && (forall k: nat | k < |s.producers| :: ProducerInv(s, k))
    && (forall j: nat, k: nat | j < |s.producers| && k < |s.producers| :: Apart(s, j, k))
    && (forall a | a in s.heap :: Owned(s, a))
  }

  lemma InitInv<T>(s: State<T>)
    requires Init(s)
    ensures Inv(s)
  {
  }

  ghost predicate OwnersOk<T>(s: State<T>) {
    && (forall j: nat, k: nat | j < |s.producers| && k < |s.producers| :: Apart(s, j, k))
    && (forall a | a in s.heap :: Owned(s, a))
  }

  // ----- steps before the exchange: only the producer's own node is touched -----

  ghost predicate Prepares<T>(s: State<T>, s': State<T>, k: nat) {
    && k < |s.producers| && !s.producers[k].Exchange? && !s.producers[k].Link?
    && k < |s'.producers| && !s'.producers[k].Link? && !s'.producers[k].Outside?
    && s' == s.(producers := s.producers[k := s'.producers[k]], heap := s'.heap)
    && (s'.producers[k].Allocate? ==> s.producers[k].Outside? && s'.heap == s.heap)
    && (Private(s'.producers[k]) ==>
          var a := s'.producers[k].node;
          && (if s.producers[k].Allocate? then a !in s.heap
              else Private(s.producers[k]) && s.producers[k].node == a && a in s.heap)
          && a in s'.heap && s'.heap == s.heap[a := s'.heap[a]]
          && (s'.producers[k].WriteNull? || s'.producers[k].Exchange? ==> s'.heap[a].data == s'.producers[k].item)
          && (s'.producers[k].Exchange? ==> s'.heap[a].next == None))
  }

  lemma StepPrepares<T>(s: State<T>, s': State<T>, k: nat, address: Address, junk: Node<T>)
    requires Inv(s)
    requires Calls(s, s', k) ||
             (Produces(s, s', k, address, junk) && !s.producers[k].Exchange? && !s.producers[k].Link?)
    ensures Prepares(s, s', k)
  {
    assert ProducerInv(s, k);
  }

  lemma PrepareChain<T>(s: State<T>, s': State<T>, k: nat)
    requires Inv(s) && Prepares(s, s', k)
    ensures ChainInv(s')
    ensures !s'.faulted
    ensures forall i: nat | i < |s.chain| :: s'.heap[s.chain[i]] == s.heap[s.chain[i]]
  {
    assert ProducerInv(s, k);
  }

  lemma PrepareConsumer<T>(s: State<T>, s': State<T>, k: nat)
    requires Inv(s) && Prepares(s, s', k) && ChainInv(s')
    requires forall i: nat | i < |s.chain| :: s'.heap[s.chain[i]] == s.heap[s.chain[i]]
    ensures ConsumerInv(s')
  {
    assert ProducerInv(s, k);
    assert s.tail == s.chain[0];
    if s.consumer.Delete? {
      forall j: nat | j < |s'.producers| && Private(s'.producers[j])
        ensures s'.producers[j].node != s.consumer.tail
      {
      }
    }
  }

  lemma PrepareThreads<T>(s: State<T>, s': State<T>, k: nat, j: nat)
    requires ChainInv(s) && Prepares(s, s', k) && ChainInv(s') && j < |s.producers|
    requires ProducerInv(s, k) && ProducerInv(s, j) && Apart(s, j, k)
    requires forall i: nat | i < |s.chain| :: s'.heap[s.chain[i]] == s.heap[s.chain[i]]
    ensures ProducerInv(s', j)
  {
  }

  lemma PrepareLinks<T>(s: State<T>, s': State<T>, k: nat, i: nat)
    requires Inv(s) && Prepares(s, s', k) && ChainInv(s') && i + 1 < |s.chain|
    requires forall i: nat | i < |s.chain| :: s'.heap[s.chain[i]] == s.heap[s.chain[i]]
    ensures LinkInv(s', i)
  {
    assert LinkInv(s, i);
  }

  lemma PrepareOwners<T>(s: State<T>, s': State<T>, k: nat)
    requires Inv(s) && Prepares(s, s', k)
    ensures OwnersOk(s')
  {
    forall j: nat, l: nat | j < |s'.producers| && l < |s'.producers| ensures Apart(s', j, l) {
      assert Apart(s, j, l);
      assert ProducerInv(s, j) && ProducerInv(s, l);
    }
    forall a | a in s'.heap ensures Owned(s', a) {
      if Private(s'.producers[k]) && s'.producers[k].node == a {
      } else {
        assert Owned(s, a);
        OwnerStays(s, s', k, a);
      }
    }
  }

  /** An owner other than a private node that `k` gives up stays an owner. */
  lemma OwnerStays<T>(s: State<T>, s': State<T>, k: nat, a: Address)
    requires k < |s.producers| && Owned(s, a)
    requires Private(s.producers[k]) ==> s.producers[k].node != a
    requires |s'.producers| == |s.producers|
    requires a in s.chain ==> a in s'.chain
    requires s.consumer.Delete? ==> s'.consumer == s.consumer
    requires forall j: nat | j < |s.producers| && j != k :: s'.producers[j] == s.producers[j]
    ensures Owned(s', a)
  {
    if j: nat :| j < |s.producers| && Private(s.producers[j]) && s.producers[j].node == a {
      assert s'.producers[j] == s.producers[j];
    }
  }

  lemma PrepareKeepsInv<T>(s: State<T>, s': State<T>, k: nat)
    requires Inv(s) && Prepares(s, s', k)
    ensures Inv(s')
  {
    PrepareChain(s, s', k);
    PrepareConsumer(s, s', k);
    forall j: nat | j < |s'.producers| ensures ProducerInv(s', j) {
      PrepareThreads(s, s', k, j);
    }
    forall i: nat | i + 1 < |s'.chain| ensures LinkInv(s', i) {
      PrepareLinks(s, s', k, i);
    }
    PrepareOwners(s, s', k);
  }

  // ----- the exchange: the node joins the chain, its predecessor's link still missing -----

  ghost predicate Exchanges<T>(s: State<T>, s': State<T>, k: nat) {
    && Inv(s) && k < |s.producers| && s.producers[k].Exchange?
    && (var p := s.producers[k];
        s' == SetProducer(s, k, Link(s.head, p.node, |s.log|))
          .(head := p.node, log := s.log + [p.item], sender := s.sender + [k], chain := s.chain + [p.node]))
  }

  lemma ExchangeChain<T>(s: State<T>, s': State<T>, k: nat)
    requires Exchanges(s, s', k)
    ensures ChainInv(s') && Popped(s') == Popped(s) && ConsumerInv(s')
  {
    assert ProducerInv(s, k);
    assert Apart(s, k, k);
  }

  lemma ExchangeLinks<T>(s: State<T>, s': State<T>, k: nat, i: nat)
    requires Exchanges(s, s', k) && ChainInv(s') && i + 1 < |s'.chain|
    ensures LinkInv(s', i)
  {
    assert ProducerInv(s, k);
    if i + 1 < |s.chain| {
      assert LinkInv(s, i);
    }
  }

  lemma ExchangeThreads<T>(s: State<T>, s': State<T>, k: nat, j: nat)
    requires Exchanges(s, s', k) && ChainInv(s') && j < |s.producers|
    ensures ProducerInv(s', j)
  {
    assert ProducerInv(s, k);
    assert ProducerInv(s, j);
    assert Apart(s, j, k);
  }

  lemma ExchangeOwners<T>(s: State<T>, s': State<T>, k: nat)
    requires Exchanges(s, s', k)
    ensures OwnersOk(s')
  {
    forall j: nat, l: nat | j < |s'.producers| && l < |s'.producers| ensures Apart(s', j, l) {
      assert Apart(s, j, l);
    }
    forall a | a in s'.heap ensures Owned(s', a) {
      if a == s.producers[k].node {
        assert s'.chain[|s.chain|] == a;
      } else {
        assert Owned(s, a);
        OwnerStays(s, s', k, a);
      }
    }
  }

  lemma ExchangeKeepsInv<T>(s: State<T>, s': State<T>, k: nat)
    requires Exchanges(s, s', k)
    ensures Inv(s')
  {
    ExchangeChain(s, s', k);
    forall i: nat | i + 1 < |s'.chain| ensures LinkInv(s', i) {
      ExchangeLinks(s, s', k, i);
    }
    forall j: nat | j < |s'.producers| ensures ProducerInv(s', j) {
      ExchangeThreads(s, s', k, j);
    }
    ExchangeOwners(s, s', k);
  }

  // ----- the link -----

  ghost predicate StoresLink<T>(s: State<T>, s': State<T>, k: nat) {
    && k < |s.producers| && s.producers[k].Link? && s.producers[k].prev in s.heap
    && (var p := s.producers[k];
        s' == SetProducer(s, k, Outside).(heap := s.heap[p.prev := s.heap[p.prev].(next := Some(p.node))]))
  }

  ghost predicate Links<T>(s: State<T>, s': State<T>, k: nat) {
    Inv(s) && StoresLink(s, s', k)
  }

  lemma LinkChain<T>(s: State<T>, s': State<T>, k: nat)
    requires StoresLink(s, s', k) && ChainInv(s) && ProducerInv(s, k)
    ensures ChainInv(s') && Popped(s') == Popped(s)
  {
  }

  lemma LinkConsumer<T>(s: State<T>, s': State<T>, k: nat)
    requires StoresLink(s, s', k) && ChainInv(s) && ConsumerInv(s) && ProducerInv(s, k) && ChainInv(s')
    ensures ConsumerInv(s')
  {
  }

  lemma LinkLinks<T>(s: State<T>, s': State<T>, k: nat, i: nat)
    requires StoresLink(s, s', k) && ChainInv(s) && ProducerInv(s, k) && ChainInv(s')
    requires i + 1 < |s'.chain| && LinkInv(s, i)
    ensures LinkInv(s', i)
  {
  }

  lemma LinkThreads<T>(s: State<T>, s': State<T>, k: nat, j: nat)
    requires StoresLink(s, s', k) && ChainInv(s) && ProducerInv(s, k) && ChainInv(s')
    requires j < |s.producers| && ProducerInv(s, j)
    ensures ProducerInv(s', j)
  {
  }

  lemma LinkOwners<T>(s: State<T>, s': State<T>, k: nat)
    requires Links(s, s', k)
    ensures OwnersOk(s')
  {
    forall j: nat, l: nat | j < |s'.producers| && l < |s'.producers| ensures Apart(s', j, l) {
      assert Apart(s, j, l);
    }
    forall a | a in s'.heap ensures Owned(s', a) {
      assert Owned(s, a);
      OwnerStays(s, s', k, a);
    }
  }

  lemma LinkKeepsInv<T>(s: State<T>, s': State<T>, k: nat)
    requires Links(s, s', k)
    ensures Inv(s')
  {
    assert ProducerInv(s, k);
    LinkChain(s, s', k);
    LinkConsumer(s, s', k);
    forall i: nat | i + 1 < |s'.chain| ensures LinkInv(s', i) {
      assert LinkInv(s, i);
      LinkLinks(s, s', k, i);
    }
    forall j: nat | j < |s'.producers| ensures ProducerInv(s', j) {
      assert ProducerInv(s, j);
      LinkThreads(s, s', k, j);
    }
    LinkOwners(s, s', k);
  }

  // ----- the consumer -----

  /** Loads by the consumer change nothing but the consumer's own state. */
  lemma LoadsKeepInv<T>(s: State<T>, s': State<T>)
    requires Inv(s) && Consumes(s, s') && !s.consumer.StoreTail? && !s.consumer.Delete?
    ensures Inv(s')
  {
    LoadsConsumer(s, s');
    forall i: nat | i + 1 < |s'.chain| ensures LinkInv(s', i) {
      assert LinkInv(s, i);
    }
    LoadsThreads(s, s');
    LoadsOwners(s, s');
  }

  lemma LoadsThreads<T>(s: State<T>, s': State<T>)
    requires ChainInv(s) && s' == s.(consumer := s'.consumer) && ChainInv(s')
    requires forall j: nat | j < |s.producers| :: ProducerInv(s, j)
    ensures forall j: nat | j < |s'.producers| :: ProducerInv(s', j)
  {
    forall j: nat | j < |s'.producers| ensures ProducerInv(s', j) {
      assert ProducerInv(s, j);
    }
  }

  lemma LoadsOwners<T>(s: State<T>, s': State<T>)
    requires OwnersOk(s) && s' == s.(consumer := s'.consumer) && !s.consumer.Delete?
    ensures OwnersOk(s')
  {
    forall j: nat, l: nat | j < |s'.producers| && l < |s'.producers| ensures Apart(s', j, l) {
      assert Apart(s, j, l);
    }
    forall a | a in s'.heap ensures Owned(s', a) {
      assert Owned(s, a);
    }
  }

  lemma LoadsFrame<T>(s: State<T>, s': State<T>)
    requires Inv(s) && Consumes(s, s') && !s.consumer.StoreTail? && !s.consumer.Delete?
    ensures s' == s.(consumer := s'.consumer) && !s'.consumer.Delete?
  {
    if s.consumer.LoadNext? || s.consumer.ReadData? {
      assert s.tail == s.chain[0] && s.tail in s.heap;
    }
  }

  lemma LoadsConsumer<T>(s: State<T>, s': State<T>)
    requires Inv(s) && Consumes(s, s') && !s.consumer.StoreTail? && !s.consumer.Delete?
    ensures s' == s.(consumer := s'.consumer) && !s'.consumer.Delete?
    ensures ChainInv(s') && ConsumerInv(s')
  {
    LoadsFrame(s, s');
    assert ChainInv(s') && Popped(s') == Popped(s);
    match s.consumer
    case LoadNext(t) =>
      if |s.chain| > 1 {
        assert LinkInv(s, 0);
      }
    case ReadData(t, n) =>
      assert s.heap[s.chain[1]].data == s.log[Popped(s)];
    case _ =>
  }

  ghost predicate Advances<T>(s: State<T>, s': State<T>) {
    Inv(s) && s.consumer.StoreTail? && s' == Consume(s)
  }

  lemma AdvanceChain<T>(s: State<T>, s': State<T>)
    requires Advances(s, s')
    ensures ChainInv(s') && Popped(s') == Popped(s) + 1
  {
    assert forall i: nat | i < |s'.chain| :: s'.chain[i] == s.chain[i + 1];
  }

  lemma AdvanceConsumer<T>(s: State<T>, s': State<T>)
    requires Advances(s, s') && ChainInv(s') && Popped(s') == Popped(s) + 1
    ensures ConsumerInv(s')
  {
    forall k: nat | k < |s.producers| && Private(s.producers[k]) ensures s.producers[k].node != s.consumer.tail {
      assert ProducerInv(s, k);
      assert s.chain[0] in s.chain;
    }
    assert forall i: nat | i < |s'.chain| :: s'.chain[i] == s.chain[i + 1] != s.chain[0];
  }

  lemma AdvanceThreads<T>(s: State<T>, s': State<T>, j: nat)
    requires Advances(s, s') && ChainInv(s') && Popped(s') == Popped(s) + 1 && j < |s.producers|
    ensures ProducerInv(s', j)
  {
    assert ProducerInv(s, j);
    var p := s.producers[j];
    if p.Link? {
      var i := p.n - Popped(s);
      assert p.prev == s.chain[i] && s.heap[p.prev].next == None;
      assert i > 0;
      assert s'.chain[i - 1] == s.chain[i] && s'.chain[i] == s.chain[i + 1];
    }
  }

  lemma AdvanceLinks<T>(s: State<T>, s': State<T>, i: nat)
    requires Advances(s, s') && ChainInv(s') && Popped(s') == Popped(s) + 1 && i + 1 < |s'.chain|
    ensures LinkInv(s', i)
  {
    assert LinkInv(s, i + 1);
  }

  lemma AdvanceOwners<T>(s: State<T>, s': State<T>)
    requires Advances(s, s')
    ensures OwnersOk(s')
  {
    forall j: nat, l: nat | j < |s'.producers| && l < |s'.producers| ensures Apart(s', j, l) {
      assert Apart(s, j, l);
    }
    forall a | a in s'.heap ensures Owned(s', a) {
      assert Owned(s, a);
      if a in s.chain {
        assert s.chain == [s.tail] + s'.chain;
      }
    }
  }

  lemma AdvanceKeepsInv<T>(s: State<T>, s': State<T>)
    requires Advances(s, s')
    ensures Inv(s')
  {
    AdvanceChain(s, s');
    AdvanceConsumer(s, s');
    forall i: nat | i + 1 < |s'.chain| ensures LinkInv(s', i) {
      AdvanceLinks(s, s', i);
    }
    forall j: nat | j < |s'.producers| ensures ProducerInv(s', j) {
      AdvanceThreads(s, s', j);
    }
    AdvanceOwners(s, s');
  }

  ghost predicate Deletes<T>(s: State<T>, s': State<T>) {
    Inv(s) && s.consumer.Delete? && s' == Consume(s)
  }

  lemma DeleteChain<T>(s: State<T>, s': State<T>)
    requires Deletes(s, s')
    ensures ChainInv(s') && ConsumerInv(s') && !s'.faulted
  {
  }

  lemma DeleteThreads<T>(s: State<T>, s': State<T>, j: nat)
    requires s.consumer.Delete? && s' == Consume(s) && ChainInv(s) && ConsumerInv(s) && ChainInv(s')
    requires j < |s.producers| && ProducerInv(s, j)
    ensures ProducerInv(s', j)
  {
  }

  lemma DeleteLinks<T>(s: State<T>, s': State<T>, i: nat)
    requires s.consumer.Delete? && s' == Consume(s) && ChainInv(s) && ConsumerInv(s) && ChainInv(s')
    requires i + 1 < |s.chain| && LinkInv(s, i)
    ensures LinkInv(s', i)
  {
  }

  lemma DeleteOwners<T>(s: State<T>, s': State<T>)
    requires Deletes(s, s')
    ensures OwnersOk(s')
  {
    forall j: nat, l: nat | j < |s'.producers| && l < |s'.producers| ensures Apart(s', j, l) {
      assert Apart(s, j, l);
    }
    forall a | a in s'.heap ensures Owned(s', a) {
      assert Owned(s, a);
    }
  }

  lemma DeleteKeepsInv<T>(s: State<T>, s': State<T>)
    requires Deletes(s, s')
    ensures Inv(s')
  {
    DeleteChain(s, s');
    forall i: nat | i + 1 < |s'.chain| ensures LinkInv(s', i) {
      assert LinkInv(s, i);
      DeleteLinks(s, s', i);
    }
    forall j: nat | j < |s'.producers| ensures ProducerInv(s', j) {
      assert ProducerInv(s, j);
      DeleteThreads(s, s', j);
    }
    DeleteOwners(s, s');
  }

  lemma ProduceKeepsInv<T>(s: State<T>, s': State<T>, k: nat, address: Address, junk: Node<T>)
    requires Inv(s) && Produces(s, s', k, address, junk)
    ensures Inv(s')
  {
    assert ProducerInv(s, k);
    if s.producers[k].Exchange? {
      ExchangeKeepsInv(s, s', k);
    } else if s.producers[k].Link? {
      LinkKeepsInv(s, s', k);
    } else {
      StepPrepares(s, s', k, address, junk);
      PrepareKeepsInv(s, s', k);
    }
  }

  lemma ConsumeKeepsInv<T>(s: State<T>, s': State<T>)
    requires Inv(s) && Consumes(s, s')
    ensures Inv(s')
  {
    if s.consumer.StoreTail? {
      AdvanceKeepsInv(s, s');
    } else if s.consumer.Delete? {
      DeleteKeepsInv(s, s');
    } else {
      LoadsKeepInv(s, s');
    }
  }

  lemma NextKeepsInv<T(!new)>(s: State<T>, s': State<T>)
    requires Inv(s) && Next(s, s')
    ensures Inv(s')
  {
    if Consumes(s, s') {
      ConsumeKeepsInv(s, s');
    } else if k: nat :| Calls(s, s', k) {
      StepPrepares(s, s', k, 0, s.heap[s.head]);
      PrepareKeepsInv(s, s', k);
    } else {
      var k: nat, address: Address, junk: Node<T> :| Produces(s, s', k, address, junk);
      ProduceKeepsInv(s, s', k, address, junk);
    }
  }

  /** The record of exchanges and deliveries is only ever extended. */
  lemma {:induction false} HistoryGrows<T(!new)>(run: seq<State<T>>, i: nat, j: nat)
    requires Run(run) && i <= j < |run|
    ensures run[i].log <= run[j].log && run[i].sender <= run[j].sender && run[i].delivered <= run[j].delivered
    decreases j
  {
    hide Init, Next;
    if i < j {
      HistoryGrows(run, i, j - 1);
      NextOf(run, j);
      NextExtends(run[j - 1], run[j]);
    }
  }

  lemma NextOf<T(!new)>(run: seq<State<T>>, j: nat)
    requires Run(run) && 0 < j < |run|
    ensures Next(run[j - 1], run[j])
  {
    hide Init, Next;
  }

  lemma NextExtends<T(!new)>(s: State<T>, s': State<T>)
    requires Next(s, s')
    ensures s.log <= s'.log && s.sender <= s'.sender && s.delivered <= s'.delivered
  {
    hide Produce, Consume;
    if k: nat, address: Address, junk: Node<T> :| Produces(s, s', k, address, junk) {
      ProduceExtends(s, k, address, junk);
    } else if Consumes(s, s') && !s.consumer.Returned? {
      ConsumeExtends(s);
    }
  }

  lemma ProduceExtends<T>(s: State<T>, k: nat, address: Address, junk: Node<T>)
    requires k < |s.producers| && !s.producers[k].Outside? && (s.producers[k].Allocate? ==> address !in s.heap)
    ensures var s' := Produce(s, k, address, junk); s.log <= s'.log && s.sender <= s'.sender && s.delivered <= s'.delivered
  {
  }

  lemma ConsumeExtends<T>(s: State<T>)
    requires !s.consumer.Returned?
    ensures var s' := Consume(s); s.log <= s'.log && s.sender <= s'.sender && s.delivered <= s'.delivered
  {
  }

  lemma {:induction false} RunKeepsInv<T(!new)>(run: seq<State<T>>, j: nat)
    requires Run(run) && j < |run|
    ensures Inv(run[j])
  {
    if j == 0 {
      InitInv(run[0]);
    } else {
      RunKeepsInv(run, j - 1);
      NextKeepsInv(run[j - 1], run[j]);
    }
  }

  // ----- what the queue promises -----

  /** Producer `k` still has a use for the node at `a`: its own before the exchange, its predecessor's after it. */
  ghost predicate Uses<T>(s: State<T>, k: nat, a: Address)
    requires k < |s.producers|
  {
    (Private(s.producers[k]) && s.producers[k].node == a) || (s.producers[k].Link? && s.producers[k].prev == a)
  }

  /**
    In every state of every execution: no freed memory was touched; what was delivered is a prefix of the
    exchange order, without loss or duplicate; and the node about to be deleted is of no use to any producer.
   */
  lemma EveryRunDeliversInOrder<T(!new)>(run: seq<State<T>>, j: nat)
    requires Run(run) && j < |run|
    ensures !run[j].faulted
    ensures run[j].delivered <= run[j].log
    ensures run[j].consumer.Delete? ==>
              forall k: nat | k < |run[j].producers| :: !Uses(run[j], k, run[j].consumer.tail)
  {
    RunKeepsInv(run, j);
    var s := run[j];
    forall k: nat | s.consumer.Delete? && k < |s.producers| ensures !Uses(s, k, s.consumer.tail) {
      assert ProducerInv(s, k);
    }
  }

  /**
    At its load of `next`, `dequeue` turns away empty-handed exactly if nothing is queued, or the producer
    of the next item has exchanged the head but not stored its link.
   */
  lemma DequeueReportsEmpty<T(!new)>(run: seq<State<T>>, j: nat)
    requires Run(run) && j < |run| && run[j].consumer.LoadNext?
    ensures var s := run[j];
            Consume(s).consumer == Returned(None)
            <==> s.tail == s.head
                 || (exists k: nat :: k < |s.producers| && s.producers[k].Link? && s.producers[k].prev == s.tail)
    ensures var s := run[j]; s.tail == s.head <==> |s.delivered| == |s.log|
  {
    RunKeepsInv(run, j);
    var s := run[j];
    if |s.chain| > 1 {
      assert LinkInv(s, 0);
      forall k: nat | k < |s.producers| && s.producers[k].Link? && s.producers[k].prev == s.tail
        ensures s.heap[s.tail].next == None
      {
        assert ProducerInv(s, k);
      }
    }
  }

  /** The item a producer is bringing, as long as it has not exchanged. */
  function Brings<T>(p: Producer<T>): Option<T> {
    match p
    case Allocate(x) => Some(x)
    case WriteData(_, x) => Some(x)
    case WriteNull(_, x) => Some(x)
    case Exchange(_, x) => Some(x)
    case _ => None
  }

  /**
    Over all accesses of a producer: it keeps its item up to the exchange, which appends exactly this item, and leaves
    exactly when it has stored its link.
   */
  lemma EnqueueReports<T>(s: State<T>, s': State<T>, k: nat, address: Address, junk: Node<T>)
    requires Inv(s) && Produces(s, s', k, address, junk)
    ensures |s'.producers| == |s.producers| && (s'.producers[k].Outside? <==> s.producers[k].Link?)
    ensures if s.producers[k].Exchange? then s'.log == s.log + [s.producers[k].item] && s'.sender == s.sender + [k]
            else s'.log == s.log && s'.sender == s.sender && Brings(s'.producers[k]) == Brings(s.producers[k])
    ensures s.producers[k].Exchange? ==> s'.producers[k].Link?
    ensures s'.delivered == s.delivered && s'.consumer == s.consumer
  {
    assert ProducerInv(s, k);
  }

  /** Over all accesses of the consumer: a call ends exactly with its item deleted from the chain, or with nothing linked. */
  lemma DequeueReports<T>(s: State<T>)
    requires Inv(s) && !s.consumer.Returned?
    ensures var s' := Consume(s);
            && (s'.consumer.Returned? && s'.consumer.last.Some? <==> s.consumer.Delete?)
            && (s'.consumer == Returned(None) <==>
                  s.consumer.LoadNext? && s.tail in s.heap && s.heap[s.tail].next == None)
            && s'.delivered == (if s.consumer.Delete? then s.delivered + [s.log[|s.delivered|]] else s.delivered)
            && (s.consumer.Delete? ==> s'.consumer == Returned(Some(s.log[|s.delivered|])))
            && s'.log == s.log && s'.producers == s.producers
  {
  }

  ghost predicate Quiet<T>(s: State<T>) {
    s.consumer.Returned? && (forall k: nat | k < |s.producers| :: s.producers[k].Outside?)
  }

  lemma QuietMemory<T>(s: State<T>)
    requires Inv(s) && Quiet(s)
    ensures s.heap.Keys == (set i: nat | i < |s.chain| :: s.chain[i])
  {
    forall a | a in s.heap ensures exists i: nat :: i < |s.chain| && s.chain[i] == a {
      assert Owned(s, a);
      assert a in s.chain;
    }
  }

  /** With nobody inside an operation, the chain holds what is not delivered yet, linked and in order. */
  lemma QuietChain<T>(s: State<T>, i: nat)
    requires Inv(s) && Quiet(s) && i < |s.chain|
    ensures |s.log| == |s.delivered| + |s.chain| - 1
    ensures s.heap[s.chain[i]].next == if i + 1 < |s.chain| then Some(s.chain[i + 1]) else None
    ensures i > 0 ==> s.heap[s.chain[i]].data == s.log[|s.delivered| + i - 1]
  {
    if i + 1 < |s.chain| {
      assert LinkInv(s, i);
    }
  }

  ghost predicate ProducersOutside<T>(s: State<T>) {
    forall k: nat | k < |s.producers| :: s.producers[k].Outside?
  }

  /** The rest of a call of `dequeue` that has found an item. */
  method FinishDequeue<T>(s: State<T>) returns (s': State<T>)
    requires Inv(s) && s.consumer.ReadData?
    ensures Inv(s') && s'.log == s.log && s'.producers == s.producers
    ensures |s.delivered| < |s.log| && |s'.delivered| == |s.delivered| + 1
    ensures s'.consumer == Returned(Some(s.log[|s.delivered|]))
  {
    hide Inv;
    ReadsItem(s);
    DequeueReports(s);
    var read := Consume(s);
    LoadsKeepInv(s, read);
    DequeueReports(read);
    var stored := Consume(read);
    AdvanceKeepsInv(read, stored);
    DequeueReports(stored);
    s' := Consume(stored);
    DeleteKeepsInv(stored, s');
  }

  lemma ReadsItem<T>(s: State<T>)
    requires Inv(s) && s.consumer.ReadData?
    ensures s.consumer.next in s.heap && |s.delivered| < |s.log|
  {
  }

  /** One whole call of `dequeue`, undisturbed. */
  method Dequeue<T>(s: State<T>) returns (s': State<T>)
    requires Inv(s) && Quiet(s)
    ensures Inv(s') && Quiet(s') && s'.log == s.log && s'.producers == s.producers
    ensures if |s.delivered| == |s.log| then s'.consumer == Returned(None) && s'.delivered == s.delivered
            else s'.consumer == Returned(Some(s.log[|s.delivered|])) && |s'.delivered| == |s.delivered| + 1
  {
    var loading := s.(consumer := LoadTail);
    LoadsKeepInv(s, loading);
    var loaded := Consume(loading);
    LoadsKeepInv(loading, loaded);
    s' := LoadFirst(loaded);
    if !s'.consumer.Returned? {
      s' := FinishDequeue(s');
    }
  }

  method LoadFirst<T>(s: State<T>) returns (s': State<T>)
    requires Inv(s) && ProducersOutside(s) && s.consumer.LoadNext?
    ensures Inv(s') && s' == s.(consumer := s'.consumer)
    ensures if |s.delivered| == |s.log| then s'.consumer == Returned(None) else s'.consumer.ReadData?
  {
    s' := Consume(s);
    LoadsKeepInv(s, s');
    LoadsFrame(s, s');
    if |s.chain| > 1 {
      assert LinkInv(s, 0);
    }
  }

  /** The destructor: it delivers to its own variable whatever is left, and returns all memory. */
  method Destroy<T>(s: State<T>) returns (s': State<T>)
    requires Inv(s) && Quiet(s)
    ensures !s'.faulted && s'.heap == map[] && s'.delivered == s.log
  {
    s' := Dequeue(s);
    while s'.consumer.last.Some?
      invariant Inv(s') && Quiet(s') && s'.log == s.log
      invariant s'.consumer.last.None? ==> |s'.delivered| == |s'.log|
      decreases |s.log| - |s'.delivered| + (if s'.consumer.last.Some? then 1 else 0)
    {
      s' := Dequeue(s');
    }
    QuietMemory(s');
    QuietChain(s', 0);
    assert s'.chain == [s'.head];
    s' := s'.(heap := s'.heap - {s'.head});
  }

  /** One whole call of `enqueue`, undisturbed: it appends its item. */
  method Enqueue<T>(s: State<T>, k: nat, x: T, address: Address, junk: Node<T>) returns (s': State<T>)
    requires Inv(s) && k < |s.producers| && s.producers[k].Outside? && address !in s.heap
    ensures Inv(s') && s'.log == s.log + [x] && s'.sender == s.sender + [k]
    ensures s'.producers == s.producers && s'.delivered == s.delivered && s'.consumer == s.consumer && s'.tail == s.tail
  {
    hide Inv;
    var called := SetProducer(s, k, Allocate(x));
    CallKeepsInv(s, called, k, junk);
    var made := Bring(called, k, address, junk);
    var written := Bring(made, k, address, junk);
    var nulled := Bring(written, k, address, junk);
    var exchanged := Bring(nulled, k, address, junk);
    s' := Bring(exchanged, k, address, junk);
  }

  lemma CallKeepsInv<T>(s: State<T>, s': State<T>, k: nat, junk: Node<T>)
    requires Inv(s) && Calls(s, s', k)
    ensures Inv(s')
  {
    StepPrepares(s, s', k, 0, junk);
    hide Inv;
    PrepareKeepsInv(s, s', k);
  }

  /** The next access of producer `k`. */
  method Bring<T>(s: State<T>, k: nat, address: Address, junk: Node<T>) returns (s': State<T>)
    requires Inv(s) && k < |s.producers| && !s.producers[k].Outside? && (s.producers[k].Allocate? ==> address !in s.heap)
    ensures Inv(s') && s' == Produce(s, k, address, junk)
    ensures s'.producers == s.producers[k := s'.producers[k]]
    ensures match s.producers[k]
      case Allocate(i) => s'.producers[k] == WriteData(address, i)
      case WriteData(n, i) => s'.producers[k] == WriteNull(n, i)
      case WriteNull(n, i) => s'.producers[k] == Exchange(n, i)
      case Exchange(n, i) => s'.producers[k] == Link(s.head, n, |s.log|)
      case Link(_, _, _) => s'.producers[k] == Outside
    ensures s'.log == if s.producers[k].Exchange? then s.log + [s.producers[k].item] else s.log
    ensures s'.sender == if s.producers[k].Exchange? then s.sender + [k] else s.sender
    ensures s'.delivered == s.delivered && s'.consumer == s.consumer && s'.tail == s.tail
  {
    s' := Produce(s, k, address, junk);
    Kept(s, k, address, junk);
    hide Inv;
    ProduceKeepsInv(s, s', k, address, junk);
  }

  lemma Kept<T>(s: State<T>, k: nat, address: Address, junk: Node<T>)
    requires Inv(s) && k < |s.producers| && !s.producers[k].Outside? && (s.producers[k].Allocate? ==> address !in s.heap)
    ensures !Produce(s, k, address, junk).faulted && !s.faulted
  {
    assert ProducerInv(s, k);
  }
}
