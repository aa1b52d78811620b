/** Every step of the ingestion protocol keeps its invariant. */
module IngestInvariant {
  import opened Chain
  import opened Maps
  import opened Rollback
  import opened Ingest

  lemma InitInv(s: State)
    requires Init(s)
    ensures Inv(s)
  {
    assert forall w | w in s.workers :: w.Idle?;
    assert forall i, b :: !HeldBy(s, i, b);
    assert PartitionInv(s);
    EmptyHolds();
  }

  lemma EmptyHolds()
    ensures Holds(map[], {})
  {
    assert Parts({}) == {};
  }

  /** Steps that touch neither the dequeued blocks, the workers nor the verdicts keep the partition. */
  lemma SamePartition(s: State, t: State)
    requires |s.queue| <= |s.chain| && |t.queue| <= |t.chain| && PartitionInv(s)
    requires Dequeued(t) == Dequeued(s) && t.workers == s.workers
    requires t.succeeded == s.succeeded && t.duplicates == s.duplicates && t.failed == s.failed
    ensures PartitionInv(t)
  {
    assert forall i, c :: HeldBy(t, i, c) <==> HeldBy(s, i, c);
    assert forall c :: Held(t, c) <==> Held(s, c);
  }

  lemma PassedMore(s: State, s': State)
    requires s.committed <= s'.committed && s.skipped <= s'.skipped
    ensures forall b, n :: PassedUpto(s, b, n) ==> PassedUpto(s', b, n)
  {}

  lemma EnqueueInv(s: State, b: Block)
    requires Inv(s) && Enabled(s, Enqueue(b))
    ensures Inv(Do(s, Enqueue(b)))
  {
    var s' := Do(s, Enqueue(b));
    var n := |s.chain| - |s.queue|;
    assert s'.chain[..n] == s.chain[..n];
    assert s'.chain[n..] == s.chain[n..] + [b];
    SamePartition(s, s');
    PassedMore(s, s');
  }

  lemma FreshBlock(s: State)
    requires QueueInv(s) && s.queue != []
    ensures s.queue[0] !in Dequeued(s)
    ensures s.queue[0] == s.chain[|s.chain| - |s.queue|]
    ensures s.chain[..|s.chain| - |s.queue| + 1] == Dequeued(s) + [s.queue[0]]
  {}

  lemma DequeueInv(s: State, id: nat)
    requires Inv(s) && Enabled(s, Dequeue(id))
    ensures Inv(Do(s, Dequeue(id)))
  {
    var s', b := Do(s, Dequeue(id)), s.queue[0];
    FreshBlock(s);
    assert Dequeued(s') == Dequeued(s) + [b];
    assert !Held(s, b);
    forall i, c ensures HeldBy(s', i, c) <==> if i == id then c == b else HeldBy(s, i, c) {}
    forall c ensures Held(s', c) <==> Held(s, c) || c == b {
      if Held(s, c) { var i :| HeldBy(s, i, c); assert HeldBy(s', i, c); }
      assert HeldBy(s', id, b);
      if Held(s', c) { var i :| HeldBy(s', i, c); assert i == id || HeldBy(s, i, c); }
    }
    assert forall c, n :: PassedUpto(s, c, n) ==> PassedUpto(s', c, n);
    DequeuedWorkers(s, id);
  }

  lemma DequeuedWorkers(s: State, id: nat)
    requires Inv(s) && Enabled(s, Dequeue(id))
    ensures WorkInv(Do(s, Dequeue(id)))
  {
    var s' := Do(s, Dequeue(id));
    assert forall c, n :: PassedUpto(s, c, n) ==> PassedUpto(s', c, n);
    assert PassedUpto(s', s.queue[0], 0);
    forall w | w in s'.workers && w.Busy?
      ensures w.attempt <= EXTRA && w.next <= |w.block.txs| && PassedUpto(s', w.block, w.next)
    {
      assert w in s.workers || w == Busy(s.queue[0], 0, 0);
    }
  }

  // ---- one database transaction ----

  lemma BusyBlock(s: State, id: nat)
    requires Inv(s) && id < |s.workers| && s.workers[id].Busy?
    ensures s.workers[id].block in Dequeued(s) && Held(s, s.workers[id].block)
    ensures s.workers[id].next <= |s.workers[id].block.txs| && s.workers[id].attempt <= EXTRA
    ensures PassedUpto(s, s.workers[id].block, s.workers[id].next)
  {
    assert HeldBy(s, id, s.workers[id].block);
    assert s.workers[id] in s.workers;
  }

  /** Passing the next unit of a held block extends the stored prefix by one. */
  lemma PassNext(s: State, s': State, b: Block, n: nat)
    requires Inv(s) && b in Dequeued(s) && n <= |b.txs| && PassedUpto(s, b, n)
    requires s' == s.(db := s'.db, committed := s'.committed, skipped := s'.skipped)
    requires s.committed <= s'.committed && s.skipped <= s'.skipped
    requires Passed(s') == Passed(s) + {Unit(b, n)} && (n == 0 ==> Unit(b, 0) in s'.committed)
    requires UnitsOf(s'.committed, s.chain) && Holds(s'.db, s'.committed)
    ensures Inv(s') && PassedUpto(s', b, n + 1)
  {
    PassedMore(s, s');
    PassedOne(s, s', b, n);
    SameQueue(s, s');
    SamePartition(s, s');
    PassStore(s, s', b, n);
    hide PartitionInv, QueueInv, StoreInv, PassedUpto;
    assert WorkInv(s');
  }

  lemma PassedOne(s: State, s': State, b: Block, n: nat)
    requires PassedUpto(s, b, n) && s.committed <= s'.committed
    requires Passed(s') == Passed(s) + {Unit(b, n)} && (n == 0 ==> Unit(b, 0) in s'.committed)
    ensures PassedUpto(s', b, n + 1)
  {}

  lemma SameQueue(s: State, s': State)
    requires QueueInv(s) && s'.chain == s.chain && s'.queue == s.queue && s'.workers == s.workers
    ensures QueueInv(s')
  {}

  lemma PassStore(s: State, s': State, b: Block, n: nat)
    requires |s.queue| <= |s.chain| && StoreInv(s) && b in Dequeued(s) && n <= |b.txs| && PassedUpto(s', b, n + 1)
    requires s'.chain == s.chain && s'.queue == s.queue
    requires forall c, m :: PassedUpto(s, c, m) ==> PassedUpto(s', c, m)
    requires Passed(s') == Passed(s) + {Unit(b, n)}
    requires UnitsOf(s'.committed, s.chain) && Holds(s'.db, s'.committed)
    ensures StoreInv(s')
  {
    hide Holds, PassedUpto;
    forall u | u in Passed(s') ensures InChain(u, Dequeued(s')) && PassedUpto(s', u.block, u.n + 1) {
      if u != Unit(b, n) { assert u in Passed(s) && PassedUpto(s, u.block, u.n + 1); }
    }
  }

  lemma CommittedInChain(s: State)
    requires Inv(s)
    ensures UnitsOf(s.committed, s.chain) && HeadersFirst(s.committed)
    ensures UnitsOf(s.committed, Dequeued(s))
  {
    forall u | u in s.committed ensures InChain(u, s.chain) && Unit(u.block, 0) in s.committed {
      assert u in Passed(s);
      assert PassedUpto(s, u.block, u.n + 1);
    }
  }

  /** Committing, skipping or losing the next unit of a held block keeps the stored prefix. */
  lemma StoreKeeps(s: State, b: Block, n: nat, o: Outcome)
    requires Inv(s) && b in Dequeued(s) && n <= |b.txs| && PassedUpto(s, b, n)
    ensures Inv(Store(s, Unit(b, n), o))
    ensures o.Stores() || (n > 0 && o.dup) ==> PassedUpto(Store(s, Unit(b, n), o), b, n + 1)
  {
    var u := Unit(b, n);
    CommittedInChain(s);
    if o.Stores() {
      ApplyHolds(s.chain, s.db, s.committed, u);
      CommitKeeps(s, b, n, Apply(s.db, u));
    } else if n > 0 && o.dup {
      PassNext(s, s.(skipped := s.skipped + {u}), b, n);
    }
  }

  lemma CommitKeeps(s: State, b: Block, n: nat, db: Tables)
    requires Inv(s) && b in Dequeued(s) && n <= |b.txs| && PassedUpto(s, b, n)
    requires UnitsOf(s.committed, s.chain) && Holds(db, s.committed + {Unit(b, n)})
    ensures var s' := s.(db := db, committed := s.committed + {Unit(b, n)});
            Inv(s') && PassedUpto(s', b, n + 1)
  {
    PassNext(s, s.(db := db, committed := s.committed + {Unit(b, n)}), b, n);
  }

  /** A worker moves on to another unit or attempt of the block it holds. */
  lemma ContinueKeeps(s: State, id: nat, w': Worker)
    requires Inv(s) && id < |s.workers| && s.workers[id].Busy? && w'.Busy? && w'.block == s.workers[id].block
    requires w'.attempt <= EXTRA && w'.next <= |w'.block.txs| && PassedUpto(s, w'.block, w'.next)
    ensures Inv(s.(workers := s.workers[id := w']))
  {
    var s' := s.(workers := s.workers[id := w']);
    assert forall i, c :: HeldBy(s', i, c) <==> HeldBy(s, i, c);
    assert forall c :: Held(s', c) <==> Held(s, c);
    assert Dequeued(s') == Dequeued(s);
    PassedMore(s, s');
    forall w | w in s'.workers && w.Busy?
      ensures w.attempt <= EXTRA && w.next <= |w.block.txs| && PassedUpto(s', w.block, w.next)
    {
      assert w in s.workers || w == w';
    }
  }

  lemma Released(s: State, id: nat, b: Block)
    requires OneHolder(s) && HeldBy(s, id, b)
    ensures forall c :: Held(s.(workers := s.workers[id := Idle]), c) <==> Held(s, c) && c != b
    ensures forall i, c | HeldBy(s.(workers := s.workers[id := Idle]), i, c) :: HeldBy(s, i, c)
  {
    var s' := s.(workers := s.workers[id := Idle]);
    forall i, c ensures HeldBy(s', i, c) <==> HeldBy(s, i, c) && i != id {}
    forall c ensures Held(s', c) <==> Held(s, c) && c != b {
      if Held(s, c) && c != b { var i :| HeldBy(s, i, c); assert HeldBy(s', i, c); }
      if Held(s', c) { var i :| HeldBy(s', i, c); assert HeldBy(s, i, c); }
    }
  }

  ghost predicate OneHolder(s: State) { forall i, j, b | HeldBy(s, i, b) && HeldBy(s, j, b) :: i == j }

  lemma FinishPartition(s: State, id: nat, v: Verdict)
    requires Inv(s) && id < |s.workers| && s.workers[id].Busy?
    ensures var s' := Finish(s.(workers := s.workers[id := Idle]), s.workers[id].block, v);
            QueueInv(s') && PartitionInv(s')
  {
    var b := s.workers[id].block;
    var s0 := s.(workers := s.workers[id := Idle]);
    BusyBlock(s, id);
    Released(s, id, b);
    VerdictPartition(s, s0, b, v);
  }

  /** A released block moves to the set of its verdict. */
  lemma VerdictPartition(s: State, s0: State, b: Block, v: Verdict)
    requires |s.queue| <= |s.chain| && PartitionInv(s) && Held(s, b) && s0 == s.(workers := s0.workers)
    requires forall c :: Held(s0, c) <==> Held(s, c) && c != b
    requires forall i, c | HeldBy(s0, i, c) :: HeldBy(s, i, c)
    ensures PartitionInv(Finish(s0, b, v))
  {
    var s' := Finish(s0, b, v);
    assert forall i, c :: HeldBy(s', i, c) <==> HeldBy(s0, i, c);
    assert forall c :: Held(s', c) <==> Held(s0, c);
    assert Dequeued(s') == Dequeued(s);
    match v
    case Succeeded =>
    case Duplicate =>
    case Failed =>
  }

  /** A worker is done with its block. */
  lemma FinishKeeps(s: State, id: nat, v: Verdict)
    requires Inv(s) && id < |s.workers| && s.workers[id].Busy?
    requires v.Succeeded? ==> PassedUpto(s, s.workers[id].block, |s.workers[id].block.txs| + 1)
    ensures Inv(Finish(s.(workers := s.workers[id := Idle]), s.workers[id].block, v))
  {
    var s' := Finish(s.(workers := s.workers[id := Idle]), s.workers[id].block, v);
    FinishPartition(s, id, v);
    assert Dequeued(s') == Dequeued(s);
    PassedMore(s, s');
    forall w | w in s'.workers && w.Busy?
      ensures w.attempt <= EXTRA && w.next <= |w.block.txs| && PassedUpto(s', w.block, w.next)
    {
      assert w in s.workers;
    }
  }

  lemma WorkInvKept(s: State, id: nat, o: Outcome)
    requires Inv(s) && Enabled(s, Work(id, o))
    ensures Inv(Do(s, Work(id, o)))
  {
    var w := s.workers[id];
    BusyBlock(s, id);
    StoreKeeps(s, w.block, w.next, o);
    MoveKeeps(Store(s, Unit(w.block, w.next), o), id, o);
  }

  /** After its database transaction the worker goes on as Advance says. */
  lemma MoveKeeps(s: State, id: nat, o: Outcome)
    requires Inv(s) && id < |s.workers| && s.workers[id].Busy?
    requires o.Commit? || (s.workers[id].next > 0 && o.dup) ==> PassedUpto(s, s.workers[id].block, s.workers[id].next + 1)
    ensures match Advance(id, s.workers[id], o)
            case Continue(w') => Inv(s.(workers := s.workers[id := w']))
            case Done(v) => Inv(Finish(s.(workers := s.workers[id := Idle]), s.workers[id].block, v))
  {
    BusyBlock(s, id);
    match Advance(id, s.workers[id], o)
    case Continue(w') =>
      assert PassedUpto(s, w'.block, w'.next);
      ContinueKeeps(s, id, w');
    case Done(v) =>
      FinishKeeps(s, id, v);
  }

  // ---- rollback ----

  lemma LastIsHighest(chain: seq<Block>)
    requires ValidChain(chain) && chain != []
    ensures forall b | b in chain :: b.slot <= chain[|chain| - 1].slot
    ensures forall b :: b in chain <==> b in chain[..|chain| - 1] || b == chain[|chain| - 1]
  {
    forall b | b in chain ensures b.slot <= chain[|chain| - 1].slot {
      var i :| 0 <= i < |chain| && chain[i] == b;
    }
  }

  lemma {:induction false} KeepIsPrefix(chain: seq<Block>, slot: nat)
    requires ValidChain(chain)
    ensures Keep(chain, slot) <= chain && ValidChain(Keep(chain, slot))
    ensures forall b :: b in Keep(chain, slot) <==> b in chain && b.slot <= slot
  {
    if chain != [] {
      var last := |chain| - 1;
      LastIsHighest(chain);
      PrefixValid(chain, last);
      hide ValidChain;
      if chain[last].slot > slot { KeepIsPrefix(chain[..last], slot); }
    }
  }

  lemma QuietNoneHeld(s: State)
    requires Quiet(s)
    ensures forall i, b :: !HeldBy(s, i, b)
  {
    assert forall i | 0 <= i < |s.workers| :: s.workers[i] in s.workers;
  }

  /** With no worker busy, the partition is between the three verdicts. */
  lemma QuietPartition(s: State)
    requires Quiet(s) && |s.queue| <= |s.chain|
    ensures Dequeued(s) == s.chain
    ensures PartitionInv(s) <==> && s.succeeded !! s.duplicates !! s.failed
                                 && forall b :: b in s.chain <==> b in s.succeeded || b in s.duplicates || b in s.failed
  {
    assert Dequeued(s) == s.chain;
    QuietNoneHeld(s);
    assert forall b :: !Held(s, b);
  }

  lemma RollBackPartition(s: State, p: Point)
    requires Inv(s) && Enabled(s, RollBack(p))
    ensures var s' := Do(s, RollBack(p));
            QueueInv(s') && PartitionInv(s') && Dequeued(s') == s'.chain
  {
    var s' := Do(s, RollBack(p));
    KeepIsPrefix(s.chain, p.slot);
    hide PartitionInv, StoreInv, WorkInv, RollBackward, Keep;
    QuietPartition(s);
    QuietPartition(s');
  }

  lemma RollBackStore(s: State, s': State, slot: nat)
    requires Inv(s) && |s'.queue| <= |s'.chain|
    requires s'.committed == Upto(s.committed, slot) && s'.skipped == Upto(s.skipped, slot)
    requires s'.db == DeleteAfter(s.db, slot)
    requires forall b | b in s.chain && b.slot <= slot :: b in Dequeued(s')
    ensures StoreInv(s') && forall b, n | PassedUpto(s, b, n) && b.slot <= slot :: PassedUpto(s', b, n)
  {
    forall b, n | PassedUpto(s, b, n) && b.slot <= slot ensures PassedUpto(s', b, n) {}
    assert Passed(s') == Upto(Passed(s), slot);
    CommittedInChain(s);
    DeleteAfterHolds(s.chain, s.db, s.committed, slot);
  }

  lemma RollBackInv(s: State, p: Point)
    requires Inv(s) && Enabled(s, RollBack(p))
    ensures Inv(Do(s, RollBack(p)))
  {
    var s' := Do(s, RollBack(p));
    KeepIsPrefix(s.chain, p.slot);
    RollBackPartition(s, p);
    if !Found(s.db, p) && p.slot == 0 { NothingToDelete(s.db, 0); }
    RollBackStore(s, s', p.slot);
  }

  // ---- restart ----

  lemma RestartQuiet(s: State, p: Point)
    requires QueueInv(s) && Enabled(s, Restart(p))
    ensures var s' := RestartStep(s, p);
            && Quiet(s') && QueueInv(s') && Dequeued(s') == s'.chain == Keep(s.chain, p.slot)
            && forall b :: b in s'.chain <==> b in s.chain && b.slot <= p.slot
  {
    KeepIsPrefix(s.chain, p.slot);
    hide ValidChain, Keep, HighestStored;
    var s' := RestartStep(s, p);
    assert forall w | w in s'.workers :: w.Idle?;
    assert Dequeued(s') == s'.chain;
  }

  lemma RestartPartition(s: State, s': State, slot: nat)
    requires QueueInv(s) && PartitionInv(s) && Quiet(s') && |s'.queue| <= |s'.chain|
    requires forall b :: b in s'.chain <==> b in s.chain && b.slot <= slot
    requires s'.succeeded == BlocksUpto(s.succeeded, slot) && s'.duplicates == BlocksUpto(s.duplicates, slot)
    requires s'.failed == set b | b in s'.chain && b !in s.succeeded && b !in s.duplicates
    ensures PartitionInv(s')
  {
    assert forall b | b in Dequeued(s) :: b in s.chain;
    QuietPartition(s');
    hide Held, HeldBy, ValidChain;
  }

  lemma RestartStore(s: State, s': State, p: Point)
    requires Inv(s) && Enabled(s, Restart(p)) && Quiet(s') && |s'.queue| <= |s'.chain| && Dequeued(s') == s'.chain
    requires forall b :: b in s'.chain <==> b in s.chain && b.slot <= p.slot
    requires s'.succeeded == BlocksUpto(s.succeeded, p.slot) && s'.db == s.db
    requires s'.committed == Upto(s.committed, p.slot) && s'.skipped == Upto(s.skipped, p.slot)
    ensures StoreInv(s') && WorkInv(s')
  {
    hide PartitionInv, PassedUpto, ValidChain, Holds, Quiet;
    NothingToDelete(s.db, p.slot);
    assert s'.db == DeleteAfter(s.db, p.slot);
    hide StoreInv, DeleteAfter, NothingAbove, Found;
    assert forall b | b in s.chain && b.slot <= p.slot :: b in Dequeued(s');
    RollBackStore(s, s', p.slot);
    NoWork(s, s', p.slot);
  }

  lemma NoWork(s: State, s': State, slot: nat)
    requires WorkInv(s) && Quiet(s') && s'.succeeded == BlocksUpto(s.succeeded, slot)
    requires forall b, n | PassedUpto(s, b, n) && b.slot <= slot :: PassedUpto(s', b, n)
    ensures WorkInv(s')
  {
    hide PassedUpto;
  }

  lemma RestartInv(s: State, p: Point)
    requires Inv(s) && Enabled(s, Restart(p))
    ensures Inv(RestartStep(s, p))
  {
    var s' := RestartStep(s, p);
    RestartQuiet(s, p);
    hide QueueInv, PartitionInv, StoreInv, WorkInv, Keep, HighestStored, Quiet, Upto, BlocksUpto;
    RestartPartition(s, s', p.slot);
    RestartStore(s, s', p);
  }

  lemma StepInv(s: State, l: Label)
    requires Inv(s) && Enabled(s, l)
    ensures Inv(Do(s, l))
  {
    match l
    case Enqueue(b) => EnqueueInv(s, b);
    case Dequeue(id) => DequeueInv(s, id);
    case Work(id, o) => WorkInvKept(s, id, o);
    case RollBack(p) => RollBackInv(s, p);
    case Restart(p) => RestartInv(s, p);
  }

  lemma {:induction false} RunInv(s: State, labels: seq<Label>, t: State)
    requires Inv(s) && Run(s, labels, t)
    ensures Inv(t)
    decreases |labels|
  {
    if labels != [] {
      StepInv(s, labels[0]);
      RunInv(Do(s, labels[0]), labels[1..], t);
    }
  }

  lemma ReachableInv(s: State)
    requires Reachable(s)
    ensures Inv(s)
  {
    var s0, labels :| Init(s0) && Run(s0, labels, s);
    InitInv(s0);
    RunInv(s0, labels, s);
  }
}
