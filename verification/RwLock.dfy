/**
  The read/write lock of sync/rwlock.c over its semaphores `wrt` and `mtx` and its counter `readcount`,
  as a transition system: any number of threads, each semaphore operation and each access of `readcount`
  is one step, and a thread locks before it unlocks.
*/
module RwLock {

  /** Where a thread stands: outside, inside as reader or writer, or before its next access in one of the four calls. */
  datatype Pc =
    | Idle
    | RlWaitMtx | RlCount | RlTest | RlWaitWrt | RlPostMtx     // rwl_readLock
    | Reading
    | RuWaitMtx | RuCount | RuTest | RuPostWrt | RuPostMtx     // rwl_readUnlock
    | WlWaitWrt                                                // rwl_writeLock
    | Writing
    | WuPostWrt                                                // rwl_writeUnlock

  datatype State = State(wrt: nat, mtx: nat, readcount: int, pcs: seq<Pc>)

  predicate Init(s: State) {
    s.wrt == 1 && s.mtx == 1 && s.readcount == 0 && (forall k: nat | k < |s.pcs| :: s.pcs[k] == Idle)
  }

  function Goto(s: State, k: nat, pc: Pc): State
    requires k < |s.pcs|
  {
    s.(pcs := s.pcs[k := pc])
  }

  /** `sem_wait` is enabled only while the semaphore is positive; every other access always is. */
  predicate Blocked(s: State, k: nat)
    requires k < |s.pcs|
  {
    match s.pcs[k]
    case RlWaitMtx | RuWaitMtx => s.mtx == 0
    case RlWaitWrt | WlWaitWrt => s.wrt == 0
    case _ => false
  }

  predicate InCall(pc: Pc) {
    !(pc.Idle? || pc.Reading? || pc.Writing?)
  }

  /** The next access of thread `k` inside one of the four calls. */
  function Advance(s: State, k: nat): State
    requires k < |s.pcs| && InCall(s.pcs[k]) && !Blocked(s, k)
  {
    match s.pcs[k]
    case RlWaitMtx => Goto(s, k, RlCount).(mtx := s.mtx - 1)
    case RlCount => Goto(s, k, RlTest).(readcount := s.readcount + 1)
    case RlTest => Goto(s, k, if s.readcount == 1 then RlWaitWrt else RlPostMtx)
    case RlWaitWrt => Goto(s, k, RlPostMtx).(wrt := s.wrt - 1)
    case RlPostMtx => Goto(s, k, Reading).(mtx := s.mtx + 1)
    case RuWaitMtx => Goto(s, k, RuCount).(mtx := s.mtx - 1)
    case RuCount => Goto(s, k, RuTest).(readcount := s.readcount - 1)
    case RuTest => Goto(s, k, if s.readcount == 0 then RuPostWrt else RuPostMtx)
    case RuPostWrt => Goto(s, k, RuPostMtx).(wrt := s.wrt + 1)
    case RuPostMtx => Goto(s, k, Idle).(mtx := s.mtx + 1)
    case WlWaitWrt => Goto(s, k, Writing).(wrt := s.wrt - 1)
    case WuPostWrt => Goto(s, k, Idle).(wrt := s.wrt + 1)
  }

  predicate Works(s: State, s': State, k: nat) {
    k < |s.pcs| && InCall(s.pcs[k]) && !Blocked(s, k) && s' == Advance(s, k)
  }

  /** A thread enters a call: it locks from outside, and it unlocks what it holds. */
  predicate Calls(s: State, s': State, k: nat) {
    && k < |s.pcs|
    && ((s.pcs[k].Idle? && (s' == Goto(s, k, RlWaitMtx) || s' == Goto(s, k, WlWaitWrt)))
        || (s.pcs[k].Reading? && s' == Goto(s, k, RuWaitMtx))
        || (s.pcs[k].Writing? && s' == Goto(s, k, WuPostWrt)))
  }

  predicate Step(s: State, s': State, k: nat) {
    Works(s, s', k) || Calls(s, s', k)
  }

  ghost predicate Next(s: State, s': State) {
    exists k: nat :: Step(s, s', k)
  }

  ghost predicate Run(run: seq<State>) {
    && |run| > 0 && Init(run[0])
    && (forall j: nat | 0 < j < |run| :: Next(run[j - 1], run[j]))
  }

  // ----- counting threads by what they hold -----

  function HoldsMtx(pc: Pc): nat {
    match pc
    case RlCount | RlTest | RlWaitWrt | RlPostMtx | RuCount | RuTest | RuPostWrt | RuPostMtx => 1
    case _ => 0
  }

  /** Admitted readers: counted in and not yet counted out. */
  function IsCounted(pc: Pc): nat {
    match pc
    case RlTest | RlWaitWrt | RlPostMtx | Reading | RuWaitMtx | RuCount => 1
    case _ => 0
  }

  function HoldsWrt(pc: Pc): nat {
    match pc
    case Writing | WuPostWrt => 1
    case _ => 0
  }

  function Sum(f: Pc -> nat, pcs: seq<Pc>): nat {
    if pcs == [] then 0 else Sum(f, pcs[..|pcs| - 1]) + f(pcs[|pcs| - 1])
  }

  lemma {:induction false} SumUpdate(f: Pc -> nat, pcs: seq<Pc>, k: nat, pc: Pc)
    requires k < |pcs|
    ensures Sum(f, pcs[k := pc]) + f(pcs[k]) == Sum(f, pcs) + f(pc)
  {
    var n := |pcs| - 1;
    if k < n {
      assert pcs[k := pc][..n] == pcs[..n][k := pc];
      SumUpdate(f, pcs[..n], k, pc);
    } else {
      assert pcs[k := pc][..n] == pcs[..n];
    }
  }

  lemma {:induction false} SumAtLeast(f: Pc -> nat, pcs: seq<Pc>, k: nat)
    requires k < |pcs|
    ensures f(pcs[k]) <= Sum(f, pcs)
  {
    var n := |pcs| - 1;
    if k < n { SumAtLeast(f, pcs[..n], k); }
  }

  lemma {:induction false} SumAtLeastTwo(f: Pc -> nat, pcs: seq<Pc>, j: nat, k: nat)
    requires j < k < |pcs|
    ensures f(pcs[j]) + f(pcs[k]) <= Sum(f, pcs)
  {
    var n := |pcs| - 1;
    if k < n { SumAtLeastTwo(f, pcs[..n], j, k); } else { SumAtLeast(f, pcs[..n], j); }
  }

  lemma {:induction false} SumZero(f: Pc -> nat, pcs: seq<Pc>)
    requires forall k: nat | k < |pcs| :: f(pcs[k]) == 0
    ensures Sum(f, pcs) == 0
  {
    if pcs != [] { SumZero(f, pcs[..|pcs| - 1]); }
  }

  lemma {:induction false} SumFind(f: Pc -> nat, pcs: seq<Pc>) returns (k: nat)
    requires Sum(f, pcs) > 0
    ensures k < |pcs| && f(pcs[k]) > 0
  {
    var n := |pcs| - 1;
    if f(pcs[n]) > 0 { k := n; } else { k := SumFind(f, pcs[..n]); }
  }

  // ----- the invariant -----

  /** Whether the readers together hold `wrt`: they do from the first one's wait to the last one's post. */
  function ReadersHoldWrt(s: State, pc: Pc): nat {
    match pc
    case RlTest | RlWaitWrt => if s.readcount == 1 then 0 else 1
    case RuTest | RuPostWrt => 1
    case _ => if s.readcount > 0 then 1 else 0
  }

  /**
    With `m` threads inside the section guarded by `mtx`, `c` admitted readers and `w` writers: the thread
    inside that section, if any, decides whether the readers hold `wrt`.
   */
  ghost predicate Balanced(s: State, m: int, c: int, w: int) {
    && s.mtx + m == 1
    && s.readcount == c
    && (s.mtx == 1 ==> s.wrt + w + ReadersHoldWrt(s, Idle) == 1)
    && (forall k: nat | k < |s.pcs| && HoldsMtx(s.pcs[k]) == 1 :: HolderOk(s, s.pcs[k], w))
  }

  ghost predicate HolderOk(s: State, pc: Pc, w: int) {
    && s.wrt + w + ReadersHoldWrt(s, pc) == 1
    && (pc.RlWaitWrt? ==> s.readcount == 1)
    && (pc.RuPostWrt? ==> s.readcount == 0)
  }

  ghost predicate AloneInside(s: State, k: nat)
    requires k < |s.pcs|
  {
    forall j: nat | j < |s.pcs| && j != k :: HoldsMtx(s.pcs[j]) == 0
  }

  ghost predicate Inv(s: State) {
    Balanced(s, Sum(HoldsMtx, s.pcs), Sum(IsCounted, s.pcs), Sum(HoldsWrt, s.pcs))
  }

  lemma InitInv(s: State)
    requires Init(s)
    ensures Inv(s)
  {
    SumZero(HoldsMtx, s.pcs);
    SumZero(IsCounted, s.pcs);
    SumZero(HoldsWrt, s.pcs);
  }

  lemma StepSums(s: State, s': State, k: nat)
    requires k < |s.pcs| == |s'.pcs| && s'.pcs == s.pcs[k := s'.pcs[k]]
    ensures Sum(HoldsMtx, s'.pcs) == Sum(HoldsMtx, s.pcs) - HoldsMtx(s.pcs[k]) + HoldsMtx(s'.pcs[k])
    ensures Sum(IsCounted, s'.pcs) == Sum(IsCounted, s.pcs) - IsCounted(s.pcs[k]) + IsCounted(s'.pcs[k])
    ensures Sum(HoldsWrt, s'.pcs) == Sum(HoldsWrt, s.pcs) - HoldsWrt(s.pcs[k]) + HoldsWrt(s'.pcs[k])
  {
    SumUpdate(HoldsMtx, s.pcs, k, s'.pcs[k]);
    SumUpdate(IsCounted, s.pcs, k, s'.pcs[k]);
    SumUpdate(HoldsWrt, s.pcs, k, s'.pcs[k]);
  }

  lemma OneMtxHolder(s: State, k: nat)
    requires Inv(s) && k < |s.pcs| && (s.mtx == 1 || HoldsMtx(s.pcs[k]) == 1)
    ensures AloneInside(s, k)
  {
    forall j: nat | j < |s.pcs| && j != k ensures HoldsMtx(s.pcs[j]) == 0 {
      SumAtLeast(HoldsMtx, s.pcs, j);
      if j < k { SumAtLeastTwo(HoldsMtx, s.pcs, j, k); } else { SumAtLeastTwo(HoldsMtx, s.pcs, k, j); }
    }
  }

  /** The accesses of `rwl_readLock` and `rwl_readUnlock`: into, inside and out of the section guarded by `mtx`. */
  ghost predicate Guarded(s: State, s': State, k: nat) {
    Works(s, s', k) && !s.pcs[k].WlWaitWrt? && !s.pcs[k].WuPostWrt?
  }

  lemma GuardedStepBalances(s: State, s': State, k: nat, m: nat, c: nat, w: nat)
    requires Guarded(s, s', k) && Balanced(s, m, c, w) && AloneInside(s, k)
    requires m >= HoldsMtx(s.pcs[k]) && c >= IsCounted(s.pcs[k])
    ensures Balanced(s', m - HoldsMtx(s.pcs[k]) + HoldsMtx(s'.pcs[k]),
                         c - IsCounted(s.pcs[k]) + IsCounted(s'.pcs[k]), w)
  {
    assert HoldsMtx(s.pcs[k]) == 1 ==> HolderOk(s, s.pcs[k], w);
    assert HoldsMtx(s'.pcs[k]) == 1 ==> HolderOk(s', s'.pcs[k], w);
    forall j: nat | j < |s'.pcs| && j != k ensures HoldsMtx(s'.pcs[j]) == 0 {
      assert s'.pcs[j] == s.pcs[j];
    }
  }

  /** Every other step leaves `mtx` and `readcount` alone and moves `wrt` and its holder together. */
  lemma OtherStepBalances(s: State, s': State, k: nat, m: nat, c: nat, w: nat)
    requires Step(s, s', k) && !Guarded(s, s', k) && Balanced(s, m, c, w)
    ensures HoldsMtx(s.pcs[k]) == HoldsMtx(s'.pcs[k]) && IsCounted(s.pcs[k]) == IsCounted(s'.pcs[k])
    ensures Balanced(s', m, c, w - HoldsWrt(s.pcs[k]) + HoldsWrt(s'.pcs[k]))
  {
    forall j: nat | j < |s'.pcs| && HoldsMtx(s'.pcs[j]) == 1
      ensures HolderOk(s', s'.pcs[j], w - HoldsWrt(s.pcs[k]) + HoldsWrt(s'.pcs[k]))
    {
      assert j != k && s'.pcs[j] == s.pcs[j];
      assert HolderOk(s, s.pcs[j], w);
    }
  }

  lemma GuardedStepKeepsInv(s: State, s': State, k: nat)
    requires Inv(s) && Guarded(s, s', k)
    ensures Inv(s')
  {
    OneMtxHolder(s, k);
    SumAtLeast(IsCounted, s.pcs, k);
    SumAtLeast(HoldsMtx, s.pcs, k);
    GuardedStepBalances(s, s', k, Sum(HoldsMtx, s.pcs), Sum(IsCounted, s.pcs), Sum(HoldsWrt, s.pcs));
    StepSums(s, s', k);
  }

  lemma OtherStepKeepsInv(s: State, s': State, k: nat)
    requires Inv(s) && Step(s, s', k) && !Guarded(s, s', k)
    ensures Inv(s')
  {
    OtherStepBalances(s, s', k, Sum(HoldsMtx, s.pcs), Sum(IsCounted, s.pcs), Sum(HoldsWrt, s.pcs));
    StepSums(s, s', k);
  }

  lemma StepKeepsInv(s: State, s': State, k: nat)
    requires Inv(s) && Step(s, s', k)
    ensures Inv(s')
  {
    if Guarded(s, s', k) {
      GuardedStepKeepsInv(s, s', k);
    } else {
      OtherStepKeepsInv(s, s', k);
    }
  }

  lemma {:induction false} RunKeepsInv(run: seq<State>, j: nat)
    requires Run(run) && j < |run|
    ensures Inv(run[j])
  {
    if j == 0 {
      InitInv(run[0]);
    } else {
      RunKeepsInv(run, j - 1);
      assert Next(run[j - 1], run[j]);
      var k: nat :| Step(run[j - 1], run[j], k);
      StepKeepsInv(run[j - 1], run[j], k);
    }
  }

  // ----- what the lock promises -----

  ghost predicate Exclusive(s: State) {
    forall j: nat, k: nat | j < |s.pcs| && k < |s.pcs| && j != k && s.pcs[j].Writing? ::
      !s.pcs[k].Writing? && !s.pcs[k].Reading?
  }

  lemma WriterIsAlone(s: State, j: nat, k: nat)
    requires Inv(s) && j < |s.pcs| && k < |s.pcs| && j != k && s.pcs[j].Writing?
    ensures !s.pcs[k].Writing? && !s.pcs[k].Reading?
  {
    SumAtLeast(HoldsWrt, s.pcs, j);
    SumAtLeast(IsCounted, s.pcs, k);
    if s.pcs[k].Writing? {
      if j < k { SumAtLeastTwo(HoldsWrt, s.pcs, j, k); } else { SumAtLeastTwo(HoldsWrt, s.pcs, k, j); }
      SomeBalance(s);
    } else if s.pcs[k].Reading? {
      ReaderKeepsWrt(s, k);
    }
  }

  /** Nobody else holds `wrt` twice over. */
  lemma SomeBalance(s: State)
    requires Inv(s)
    ensures s.wrt + Sum(HoldsWrt, s.pcs) <= 1
  {
    if s.mtx == 0 {
      var j := SumFind(HoldsMtx, s.pcs);
      assert HolderOk(s, s.pcs[j], Sum(HoldsWrt, s.pcs));
    }
  }

  /** While a reader is inside, the readers hold `wrt`, whatever other readers are doing. */
  lemma ReaderKeepsWrt(s: State, k: nat)
    requires Inv(s) && k < |s.pcs| && s.pcs[k].Reading?
    ensures s.wrt + Sum(HoldsWrt, s.pcs) == 0
  {
    SumAtLeast(IsCounted, s.pcs, k);
    if s.mtx == 0 {
      var j := SumFind(HoldsMtx, s.pcs);
      assert HolderOk(s, s.pcs[j], Sum(HoldsWrt, s.pcs));
      if j < k { SumAtLeastTwo(IsCounted, s.pcs, j, k); } else { SumAtLeastTwo(IsCounted, s.pcs, k, j); }
    }
  }

  /**
    In every state of every execution: at most one writer is inside and never beside a reader, `readcount`
    is the number of admitted readers, and both semaphores stay in {0, 1}.
   */
  lemma EveryRunExclusive(run: seq<State>, i: nat)
    requires Run(run) && i < |run|
    ensures Exclusive(run[i])
    ensures run[i].readcount == Sum(IsCounted, run[i].pcs)
    ensures run[i].mtx <= 1 && run[i].wrt <= 1
  {
    var s := run[i];
    RunKeepsInv(run, i);
    SomeBalance(s);
    forall j: nat, k: nat | j < |s.pcs| && k < |s.pcs| && j != k && s.pcs[j].Writing?
      ensures !s.pcs[k].Writing? && !s.pcs[k].Reading?
    {
      WriterIsAlone(s, j, k);
    }
  }

  predicate IsInside(pc: Pc) {
    pc.Reading? || pc.Writing?
  }

  /** No thread inside a call can make its next access. */
  ghost predicate Stuck(s: State) {
    forall k: nat | k < |s.pcs| && InCall(s.pcs[k]) :: Blocked(s, k)
  }

  /**
    No deadlock: if no call can continue although some thread waits in one, then some thread is inside
    the lock as reader or writer, and only its unlock is missing.
   */
  lemma NoDeadlock(s: State, waiting: nat)
    requires Inv(s) && Stuck(s) && waiting < |s.pcs| && InCall(s.pcs[waiting])
    ensures exists k: nat :: k < |s.pcs| && IsInside(s.pcs[k])
  {
    if s.mtx == 0 {
      var j := SumFind(HoldsMtx, s.pcs);
      assert Blocked(s, j) && s.pcs[j].RlWaitWrt?;
      assert HolderOk(s, s.pcs[j], Sum(HoldsWrt, s.pcs));
      var k := SumFind(HoldsWrt, s.pcs);
      assert InCall(s.pcs[k]) ==> Blocked(s, k);
    } else {
      assert Blocked(s, waiting) && s.pcs[waiting].WlWaitWrt?;
      if s.readcount > 0 {
        var k := SumFind(IsCounted, s.pcs);
        assert InCall(s.pcs[k]) ==> Blocked(s, k);
        SumAtLeast(HoldsMtx, s.pcs, k);
      } else {
        var k := SumFind(HoldsWrt, s.pcs);
        assert InCall(s.pcs[k]) ==> Blocked(s, k);
      }
    }
  }

  /** An upper bound on the accesses a call still has to make. */
  function Remaining(pc: Pc): nat {
    match pc
    case RlWaitMtx => 5
    case RlCount => 4
    case RlTest => 3
    case RlWaitWrt => 2
    case RlPostMtx => 1
    case RuWaitMtx => 5
    case RuCount => 4
    case RuTest => 3
    case RuPostWrt => 2
    case RuPostMtx => 1
    case WlWaitWrt => 1
    case WuPostWrt => 1
    case _ => 0
  }

  ghost predicate WorkRun(run: seq<State>) {
    && |run| > 0
    && (forall j: nat | 0 < j < |run| :: Worked(run[j - 1], run[j]))
  }

  ghost predicate Worked(s: State, s': State) {
    exists k: nat :: Works(s, s', k)
  }

  /** Without new calls the pending ones cannot work forever: each access lowers the work that remains. */
  lemma {:induction false} WorkRunsOut(run: seq<State>, j: nat)
    requires WorkRun(run) && j < |run|
    ensures j + Sum(Remaining, run[j].pcs) <= Sum(Remaining, run[0].pcs)
  {
    if j > 0 {
      WorkRunsOut(run, j - 1);
      var s, s' := run[j - 1], run[j];
      assert Worked(s, s');
      var k: nat :| Works(s, s', k);
      SumUpdate(Remaining, s.pcs, k, s'.pcs[k]);
      assert s'.pcs == s.pcs[k := s'.pcs[k]];
    }
  }

  // ----- whole calls, undisturbed -----

  /**
    `rwl_readLock` by one thread while no other is inside a call: it comes in exactly if other readers are inside or
    nobody is; otherwise it waits for the writer.
   */
  method ReadLock(s: State, k: nat) returns (s': State)
    requires Inv(s) && s.mtx == 1 && k < |s.pcs| && s.pcs[k] == RlWaitMtx
    ensures Inv(s')
    ensures s.readcount > 0 || s.wrt > 0 ==>
              s' == State(if s.readcount == 0 then s.wrt - 1 else s.wrt, 1, s.readcount + 1, s.pcs[k := Reading])
    ensures s.readcount == 0 && s.wrt == 0 ==> s'.pcs == s.pcs[k := RlWaitWrt] && Blocked(s', k)
  {
    hide Inv;
    s' := s;
    while InCall(s'.pcs[k]) && !Blocked(s', k)
      invariant Inv(s') && |s'.pcs| == |s.pcs| && s'.pcs == s.pcs[k := s'.pcs[k]]
      invariant match s'.pcs[k]
        case RlWaitMtx => s' == s
        case RlCount => s' == s.(mtx := 0, pcs := s'.pcs)
        case RlTest => s' == s.(mtx := 0, readcount := s.readcount + 1, pcs := s'.pcs)
        case RlWaitWrt => s.readcount == 0 && s' == s.(mtx := 0, readcount := 1, pcs := s'.pcs)
        case RlPostMtx =>
          && s' == s.(mtx := 0, readcount := s.readcount + 1, wrt := s'.wrt, pcs := s'.pcs)
          && (s.readcount == 0 ==> s.wrt > 0) && s'.wrt == if s.readcount == 0 then s.wrt - 1 else s.wrt
        case Reading =>
          && s' == s.(readcount := s.readcount + 1, wrt := s'.wrt, pcs := s'.pcs)
          && (s.readcount == 0 ==> s.wrt > 0) && s'.wrt == if s.readcount == 0 then s.wrt - 1 else s.wrt
        case _ => false
      decreases Remaining(s'.pcs[k])
    {
      StepKeepsInv(s', Advance(s', k), k);
      s' := Advance(s', k);
    }
    Counts(s);
  }

  lemma Counts(s: State)
    requires Inv(s)
    ensures s.readcount >= 0
  {
  }

  /** `rwl_readUnlock`: the last reader gives `wrt` back. */
  method ReadUnlock(s: State, k: nat) returns (s': State)
    requires Inv(s) && s.mtx == 1 && k < |s.pcs| && s.pcs[k] == RuWaitMtx
    ensures Inv(s') && s.readcount > 0
    ensures s' == State(if s.readcount == 1 then s.wrt + 1 else s.wrt, 1, s.readcount - 1, s.pcs[k := Idle])
  {
    SumAtLeast(IsCounted, s.pcs, k);
    Counts(s);
    hide Inv;
    s' := s;
    while InCall(s'.pcs[k])
      invariant Inv(s') && |s'.pcs| == |s.pcs| && s'.pcs == s.pcs[k := s'.pcs[k]]
      invariant match s'.pcs[k]
        case RuWaitMtx => s' == s
        case RuCount => s' == s.(mtx := 0, pcs := s'.pcs)
        case RuTest => s' == s.(mtx := 0, readcount := s.readcount - 1, pcs := s'.pcs)
        case RuPostWrt => s.readcount == 1 && s' == s.(mtx := 0, readcount := 0, pcs := s'.pcs)
        case RuPostMtx =>
          s' == s.(mtx := 0, readcount := s.readcount - 1, wrt := if s.readcount == 1 then s.wrt + 1 else s.wrt, pcs := s'.pcs)
        case Idle =>
          s' == s.(readcount := s.readcount - 1, wrt := if s.readcount == 1 then s.wrt + 1 else s.wrt, pcs := s'.pcs)
        case _ => false
      decreases Remaining(s'.pcs[k])
    {
      StepKeepsInv(s', Advance(s', k), k);
      s' := Advance(s', k);
    }
  }

  /** `rwl_writeLock` comes in exactly if `wrt` is free; then nobody else is inside. */
  lemma WriteLock(s: State, k: nat)
    requires Inv(s) && k < |s.pcs| && s.pcs[k] == WlWaitWrt
    ensures Blocked(s, k) <==> s.wrt == 0
    ensures s.wrt > 0 ==> Inv(Advance(s, k)) && Advance(s, k) == s.(wrt := 0, pcs := s.pcs[k := Writing])
    ensures s.wrt > 0 ==> forall j: nat | j < |s.pcs| :: !IsInside(s.pcs[j])
  {
    SomeBalance(s);
    if s.wrt > 0 {
      StepKeepsInv(s, Advance(s, k), k);
      forall j: nat | j < |s.pcs| ensures !IsInside(s.pcs[j]) {
        SumAtLeast(HoldsWrt, s.pcs, j);
        if s.pcs[j].Reading? { ReaderKeepsWrt(s, j); }
      }
    }
  }

  /** With nobody inside a call, `wrt` is free exactly if nobody is inside the lock. */
  lemma FreeWhenEmpty(s: State)
    requires Inv(s) && forall k: nat | k < |s.pcs| :: !InCall(s.pcs[k])
    ensures s.mtx == 1 && (s.wrt == 1 <==> forall k: nat | k < |s.pcs| :: s.pcs[k].Idle?)
    ensures s.readcount > 0 <==> exists k: nat :: k < |s.pcs| && s.pcs[k].Reading?
  {
    SumZero(HoldsMtx, s.pcs);
    if k: nat :| k < |s.pcs| && !s.pcs[k].Idle? {
      SumAtLeast(IsCounted, s.pcs, k);
      SumAtLeast(HoldsWrt, s.pcs, k);
    } else {
      SumZero(IsCounted, s.pcs);
      SumZero(HoldsWrt, s.pcs);
    }
    if s.readcount > 0 {
      var j := SumFind(IsCounted, s.pcs);
      assert s.pcs[j].Reading?;
    }
    if k: nat :| k < |s.pcs| && s.pcs[k].Reading? {
      SumAtLeast(IsCounted, s.pcs, k);
    }
  }
}
