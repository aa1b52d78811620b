/** What a crash loses: the restarted indexer resumes from its highest stored block, or from the origin
    (getLastProcessedSlot and buildIntersectionPoints in main.go). */
module Restarts {
  import opened Chain
  import opened Maps
  import opened Rollback
  import opened Ingest
  import opened IngestInvariant
  import opened IngestTheorems

  // ---- resuming from the highest stored block ----

  /** No rollback and no restart. */
  ghost predicate Uncut(labels: seq<Label>) { forall l | l in labels :: !l.RollBack? && !l.Restart? }

  /** The block was dequeued and no worker holds it any more. */
  ghost predicate Settled(s: State, b: Block)
    requires |s.queue| <= |s.chain|
  { b in Dequeued(s) && !Held(s, b) }

  ghost predicate SameUnits(s: State, t: State, b: Block) {
    forall n: nat :: Unit(b, n) in t.committed <==> Unit(b, n) in s.committed
  }

  /** Nobody touches a settled block again. */
  lemma StepSettled(s: State, l: Label, b: Block)
    requires Inv(s) && Enabled(s, l) && !l.RollBack? && !l.Restart? && Settled(s, b)
    ensures var t := Do(s, l); |t.queue| <= |t.chain| && Settled(t, b) && SameUnits(s, t, b)
  {
    match l
    case Enqueue(c) =>
      var t := Do(s, l);
      assert Dequeued(t) == Dequeued(s);
      assert forall i :: HeldBy(t, i, b) <==> HeldBy(s, i, b);
    case Dequeue(id) =>
      var t := Do(s, l);
      FreshBlock(s);
      assert Dequeued(t) == Dequeued(s) + [s.queue[0]];
      assert forall i :: HeldBy(t, i, b) ==> HeldBy(s, i, b);
    case Work(id, o) => WorkSettled(s, id, o, b);
  }

  lemma WorkFrame(s: State, id: nat, o: Outcome)
    requires Enabled(s, Work(id, o))
    ensures var t, u := Do(s, Work(id, o)), Unit(s.workers[id].block, s.workers[id].next);
            && t.chain == s.chain && t.queue == s.queue && |t.workers| == |s.workers|
            && (forall i | 0 <= i < |s.workers| && i != id :: t.workers[i] == s.workers[i])
            && (t.workers[id].Busy? ==> t.workers[id].block == u.block)
            && s.committed <= t.committed <= s.committed + {u}
  {
    hide Apply;
  }

  lemma WorkSettled(s: State, id: nat, o: Outcome, b: Block)
    requires Inv(s) && Enabled(s, Work(id, o)) && Settled(s, b)
    ensures var t := Do(s, Work(id, o)); |t.queue| <= |t.chain| && Settled(t, b) && SameUnits(s, t, b)
  {
    WorkFrame(s, id, o);
    var t := Do(s, Work(id, o));
    assert HeldBy(s, id, s.workers[id].block);
    hide Do, PartitionInv, StoreInv, WorkInv;
    assert Dequeued(t) == Dequeued(s);
    forall i | HeldBy(t, i, b) ensures HeldBy(s, i, b) {}
  }

  lemma {:induction false} RunSettled(s: State, labels: seq<Label>, t: State, b: Block)
    requires Inv(s) && Run(s, labels, t) && Uncut(labels) && Settled(s, b)
    ensures Inv(t) && Settled(t, b) && SameUnits(s, t, b)
    decreases |labels|
  {
    hide Settled, Do, Enabled;
    if labels != [] {
      var s' := Do(s, labels[0]);
      assert labels[0] in labels && forall l | l in labels[1..] :: l in labels;
      StepSettled(s, labels[0], b);
      StepInv(s, labels[0]);
      hide Inv;
      RunSettled(s', labels[1..], t, b);
    }
  }

  lemma {:induction false} RunAppend(s0: State, a: seq<Label>, s: State, b: seq<Label>, t: State)
    requires Run(s0, a, s) && Run(s, b, t)
    ensures Run(s0, a + b, t)
    decreases |a|
  {
    hide Do, Enabled;
    if a == [] {
      assert a + b == b;
    } else {
      RunAppend(Do(s0, a[0]), a[1..], s, b, t);
      assert (a + b)[1..] == a[1..] + b;
    }
  }

  lemma ReachableOn(s: State, labels: seq<Label>, t: State)
    requires Reachable(s) && Run(s, labels, t)
    ensures Reachable(t)
  {
    var s0, a :| Init(s0) && Run(s0, a, s);
    RunAppend(s0, a, s, labels, t);
  }

  lemma RestartedState(s: State, p: Point)
    requires Inv(s) && Enabled(s, Restart(p))
    ensures var s' := RestartStep(s, p);
            && Inv(s') && Dequeued(s') == s'.chain && (forall b | b in s'.chain :: Settled(s', b))
            && forall b :: b in s'.chain <==> b in s.chain && b.slot <= p.slot
  {
    RestartInv(s, p);
    RestartQuiet(s, p);
    var s' := RestartStep(s, p);
    hide Inv, Keep, RestartStep, HighestStored;
    QuietNoneHeld(s');
  }

  /** Every block at or below the slot was stored completely. */
  ghost predicate CompleteUpto(s: State, slot: nat) {
    forall b | b in s.chain && b.slot <= slot :: BlockUnits(b) <= s.committed
  }

  /** The eight workers go on after a crash and drain everything that is delivered after the resume point, losing
      nothing more. They end with the tables of the whole chain exactly when, at the crash, every block up to the
      resume point was stored completely: the holes below the highest stored block are never filled. */
  lemma RestartExact(s: State, p: Point, labels: seq<Label>, t: State)
    requires Reachable(s) && Enabled(s, Restart(p))
    requires var s' := Do(s, Restart(p));
             && Run(s', labels, t) && Uncut(labels) && Quiet(t)
             && t.failed == s'.failed && t.duplicates == s'.duplicates && t.skipped == s'.skipped
    ensures t.db == Clean(t.chain) <==> CompleteUpto(s, p.slot)
  {
    var s' := RestartStep(s, p);
    ReachableInv(s);
    RestartedState(s, p);
    forall b | b in s'.chain ensures Settled(t, b) && SameUnits(s', t, b) { RunSettled(s', labels, t, b); }
    RunInv(s', labels, t);
    RestartIsReachable(s, p);
    ReachableOn(s', labels, t);
    StoredPartOfClean(t);
    if AllUnits(t.chain) <= t.committed { CompleteBefore(s, s', p.slot, t); }
    if CompleteUpto(s, p.slot) { CompleteAfter(s, s', p.slot, t); }
  }

  lemma RestartIsReachable(s: State, p: Point)
    requires Reachable(s) && Enabled(s, Restart(p))
    ensures Reachable(RestartStep(s, p))
  {
    var s' := Do(s, Restart(p));
    RunStep(s', [], s', s, Restart(p));
    hide Do, RestartStep;
    ReachableOn(s, [Restart(p)] + [], s');
  }

  lemma CompleteBefore(s: State, s': State, slot: nat, t: State)
    requires Inv(t) && AllUnits(t.chain) <= t.committed && s'.committed == Upto(s.committed, slot)
    requires forall b :: b in s'.chain <==> b in s.chain && b.slot <= slot
    requires forall b | b in s'.chain :: Settled(t, b) && SameUnits(s', t, b)
    ensures CompleteUpto(s, slot)
  {
    forall b, u | b in s.chain && b.slot <= slot && u in BlockUnits(b) ensures u in s.committed {
      assert b in s'.chain && b in Dequeued(t) && b in t.chain;
      assert u in AllUnits(t.chain) && u == Unit(b, u.n);
      assert u in s'.committed;
    }
  }

  lemma CompleteAfter(s: State, s': State, slot: nat, t: State)
    requires Inv(s') && Inv(t) && Quiet(t) && CompleteUpto(s, slot) && s'.committed == Upto(s.committed, slot)
    requires Dequeued(s') == s'.chain && forall b :: b in s'.chain <==> b in s.chain && b.slot <= slot
    requires forall b | b in s'.chain :: SameUnits(s', t, b)
    requires t.failed == s'.failed && t.duplicates == s'.duplicates && t.skipped == s'.skipped
    ensures AllUnits(t.chain) <= t.committed
  {
    QuietAllFinished(t);
    forall u | u in AllUnits(t.chain) ensures u in t.committed {
      assert u.block in t.chain && u in BlockUnits(u.block);
      if u.block in s'.chain {
        assert u in s'.committed && u == Unit(u.block, u.n);
      } else {
        NewBlockStored(s', t, u);
      }
    }
  }

  lemma NewBlockStored(s': State, t: State, u: Unit)
    requires Inv(s') && Inv(t) && Dequeued(s') == s'.chain && u.block !in s'.chain && u in BlockUnits(u.block)
    requires u.block in t.succeeded || u.block in t.duplicates || u.block in t.failed
    requires t.failed == s'.failed && t.duplicates == s'.duplicates && t.skipped == s'.skipped
    ensures u in t.committed
  {
    assert u.block !in s'.failed && u.block !in s'.duplicates;
    assert PassedUpto(t, u.block, |u.block.txs| + 1);
    assert u in Passed(t);
    assert u in s'.skipped ==> u in Passed(s') && InChain(u, s'.chain);
  }

  // ---- a block in a worker's hands at the crash ----

  ghost function HoleRun(a: Block, b: Block): seq<Label> {
    [Enqueue(a), Enqueue(b), Dequeue(0), Dequeue(1), Work(1, Commit), Restart(PointOf(b))]
  }

  /** A crash at the wrong moment, for any two blocks: the first worker still holds the earlier block when the
      second one has stored the header of the later block. After the restart no run whatever stores the earlier
      block, short of a rollback below it. */
  lemma RestartLosesHeldBlock(s: State, a: Block, b: Block)
    requires Init(s) && ValidChain([a, b]) && b.slot > SAFETY_MARGIN
    ensures exists t :: Run(s, HoleRun(a, b), t) && Forgets(t, a)
  {
    var t := HoleState(s, a, b);
    HoleForgets(s, t, a, b);
    hide *;
  }

  /** However the run goes on, the tables lack the block. */
  ghost predicate Forgets(t: State, a: Block) {
    forall labels, t' | Run(t, labels, t') && Uncut(labels) :: a in t'.chain && Unit(a, 0) !in t'.committed && t'.db != Clean(t'.chain)
  }

  lemma HoleForgets(s: State, t: State, a: Block, b: Block)
    requires Init(s) && Run(s, HoleRun(a, b), t) && Inv(t) && Settled(t, a) && t.committed == {Unit(b, 0)} && a != b
    ensures Forgets(t, a)
  {
    assert Reachable(t);
    forall labels, t' | Run(t, labels, t') && Uncut(labels)
      ensures a in t'.chain && Unit(a, 0) !in t'.committed && t'.db != Clean(t'.chain)
    {
      RunSettled(t, labels, t', a);
      ReachableOn(t, labels, t');
      assert Unit(a, 0) !in t'.committed && a in t'.chain && Unit(a, 0) in AllUnits(t'.chain);
      hide Inv, Run, Reachable;
      StoredPartOfClean(t');
    }
  }

  lemma HoleState(s: State, a: Block, b: Block) returns (t: State)
    requires Init(s) && ValidChain([a, b]) && b.slot > SAFETY_MARGIN
    ensures Run(s, HoleRun(a, b), t) && Inv(t) && Settled(t, a) && t.committed == {Unit(b, 0)} && a != b
  {
    var crashed := CrashState(s, a, b);
    assert [a, b][0].slot < [a, b][1].slot;
    hide Init, Enabled, Do, Inv, ValidChain, Run;
    t := HoleRestart(crashed, a, b);
    ThenRestart(s, crashed, t, a, b);
  }

  lemma ThenRestart(s: State, crashed: State, t: State, a: Block, b: Block)
    requires Run(s, CrashRun(a, b), crashed) && Enabled(crashed, Restart(PointOf(b))) && t == Do(crashed, Restart(PointOf(b)))
    ensures Run(s, HoleRun(a, b), t)
  {
    hide Enabled, Do;
    RunStep(t, [], t, crashed, Restart(PointOf(b)));
    RunAppend(s, CrashRun(a, b), crashed, [Restart(PointOf(b))] + [], t);
    assert CrashRun(a, b) + ([Restart(PointOf(b))] + []) == HoleRun(a, b);
  }

  lemma CrashState(s: State, a: Block, b: Block) returns (t: State)
    requires Init(s) && ValidChain([a, b])
    ensures Run(s, CrashRun(a, b), t) && Inv(t) && t.chain == [a, b] && t.committed == {Unit(b, 0)}
  {
    var s1, s2 := HoleDelivered(s, a, b);
    var s3, s4, t' := HoleTaken(s2, a, b);
    t := t';
    hide Enabled, Do;
    HoleIsRun(s, a, b, s1, s2, s3, s4, t);
    InitInv(s);
    RunInv(s, CrashRun(a, b), t);
  }

  function CrashRun(a: Block, b: Block): seq<Label> { [Enqueue(a), Enqueue(b), Dequeue(0), Dequeue(1), Work(1, Commit)] }

  lemma HoleRestart(s: State, a: Block, b: Block) returns (t: State)
    requires Inv(s) && s.chain == [a, b] && s.committed == {Unit(b, 0)} && a.slot < b.slot && b.slot > SAFETY_MARGIN
    ensures Enabled(s, Restart(PointOf(b))) && t == Do(s, Restart(PointOf(b)))
    ensures Inv(t) && Settled(t, a) && t.committed == {Unit(b, 0)}
  {
    hide Inv, RestartStep, HighestStored, Settled;
    HoleResumes(s, a, b);
    t := RestartStep(s, PointOf(b));
    RestartedState(s, PointOf(b));
    RestartCommitted(s, PointOf(b));
    assert a in s.chain by { assert s.chain[0] == a; }
    assert Upto({Unit(b, 0)}, b.slot) == {Unit(b, 0)};
  }

  lemma RestartCommitted(s: State, p: Point)
    ensures RestartStep(s, p).committed == Upto(s.committed, p.slot)
  {}

  lemma HoleDelivered(s: State, a: Block, b: Block) returns (s1: State, s2: State)
    requires Init(s) && ValidChain([a, b])
    ensures Enabled(s, Enqueue(a)) && s1 == Do(s, Enqueue(a)) && Enabled(s1, Enqueue(b)) && s2 == Do(s1, Enqueue(b))
    ensures s2.queue == [a, b] && s2.chain == [a, b] && s2.workers == s.workers && s2.committed == {}
  {
    PrefixValid([a, b], 1);
    assert s.chain + [a] == [a, b][..1] && [a] + [b] == [a, b];
    hide ValidChain;
    s1 := Do(s, Enqueue(a));
    s2 := Do(s1, Enqueue(b));
  }

  lemma HoleTaken(s2: State, a: Block, b: Block) returns (s3: State, s4: State, t: State)
    requires s2.queue == [a, b] && s2.workers == seq(WORKERS, _ => Idle) && s2.committed == {}
    ensures Enabled(s2, Dequeue(0)) && s3 == Do(s2, Dequeue(0)) && Enabled(s3, Dequeue(1)) && s4 == Do(s3, Dequeue(1))
    ensures Enabled(s4, Work(1, Commit)) && t == Do(s4, Work(1, Commit))
    ensures t.chain == s2.chain && t.committed == {Unit(b, 0)}
  {
    hide Apply;
    s3 := Do(s2, Dequeue(0));
    s4 := Do(s3, Dequeue(1));
    assert s4.workers[1] == Busy(b, 0, 0);
    t := Do(s4, Work(1, Commit));
  }

  lemma HoleIsRun(s: State, a: Block, b: Block, s1: State, s2: State, s3: State, s4: State, t: State)
    requires Enabled(s, Enqueue(a)) && s1 == Do(s, Enqueue(a)) && Enabled(s1, Enqueue(b)) && s2 == Do(s1, Enqueue(b))
    requires Enabled(s2, Dequeue(0)) && s3 == Do(s2, Dequeue(0)) && Enabled(s3, Dequeue(1)) && s4 == Do(s3, Dequeue(1))
    requires Enabled(s4, Work(1, Commit)) && t == Do(s4, Work(1, Commit))
    ensures Run(s, CrashRun(a, b), t)
  {
    hide Enabled, Do;
    RunStep(t, [], t, s4, Work(1, Commit));
    RunStep(t, [Work(1, Commit)], s4, s3, Dequeue(1));
    RunStep(t, [Dequeue(1), Work(1, Commit)], s3, s2, Dequeue(0));
    RunStep(t, [Dequeue(0), Dequeue(1), Work(1, Commit)], s2, s1, Enqueue(b));
    RunStep(t, [Enqueue(b), Dequeue(0), Dequeue(1), Work(1, Commit)], s1, s, Enqueue(a));
    assert [Enqueue(a)] + [Enqueue(b), Dequeue(0), Dequeue(1), Work(1, Commit)] == CrashRun(a, b);
  }

  lemma HoleResumes(t: State, a: Block, b: Block)
    requires Inv(t) && t.chain == [a, b] && t.committed == {Unit(b, 0)} && b.slot > SAFETY_MARGIN
    ensures HighestStored(t.db, PointOf(b))
  {
    var k := BlockKey(b.hash);
    CommittedInChain(t);
    HoldsRow(t.db, t.committed, Unit(b, 0), k);
    forall j | j in t.db && j.BlockKey? && t.db[j].BlockRow? ensures t.db[j].slot <= b.slot {
      var u := RowOwner(t.db, t.committed, j);
      RowsKeys(u, j);
    }
  }

  // ---- starting over from the origin ----

  /** The origin of the chain as ChainSync names it. */
  const ORIGIN: Point := Point(0, [])

  lemma ApplyCovers(chain: seq<Block>, clean: Tables, db: Tables, u: Unit)
    requires ValidChain(chain) && UnitsOf(AllUnits(chain), chain) && Holds(clean, AllUnits(chain))
    requires Within(db, clean) && InChain(u, chain)
    ensures Within(Apply(db, u), clean) && Within(db, Apply(db, u))
    ensures forall k | k in Rows(u) :: k in Apply(db, u)
  {
    assert u == Unit(u.block, u.n) && u in AllUnits(chain);
    hide AllUnits;
    if u.n == 0 && SlotTaken(db, u.block.slot) {
      TakenByItself(chain, clean, db, u.block);
      WithinSelf(db);
    } else {
      forall k | k in Rows(u) ensures k in clean && clean[k] == Rows(u)[k] { HoldsRow(clean, AllUnits(chain), u, k); }
    }
  }

  /** If the stored rows all belong to the chain, a slot is taken only by the chain's block itself. */
  lemma TakenByItself(chain: seq<Block>, clean: Tables, db: Tables, b: Block)
    requires ValidChain(chain) && UnitsOf(AllUnits(chain), chain) && Holds(clean, AllUnits(chain))
    requires Within(db, clean) && b in chain && SlotTaken(db, b.slot)
    ensures forall k | k in Rows(Unit(b, 0)) :: k in db
  {
    var k :| k in db && k.BlockKey? && db[k].BlockRow? && db[k].slot == b.slot;
    var u := RowOwner(clean, AllUnits(chain), k);
    RowsKeys(u, k);
    assert InChain(u, chain) && clean[k] == db[k];
    HeaderRow(u.block);
    HeaderRow(b);
    hide Rows, Holds, AllUnits, Within;
    assert u == Unit(u.block, 0);
    SameSlotSameBlock(chain, u.block, b);
  }

  lemma HeaderRow(b: Block)
    ensures forall k :: k in Rows(Unit(b, 0)) <==> k == BlockKey(b.hash)
    ensures Rows(Unit(b, 0))[BlockKey(b.hash)].BlockRow? && Rows(Unit(b, 0))[BlockKey(b.hash)].slot == b.slot
  {}

  ghost predicate Covered(db: Tables, units: set<Unit>)
    requires forall u | u in units :: u.n <= |u.block.txs|
  { forall u, k | u in units && k in Rows(u) :: k in db }

  lemma CoveredOn(db: Tables, db': Tables, units: set<Unit>)
    requires (forall u | u in units :: u.n <= |u.block.txs|) && Covered(db, units) && Within(db, db')
    ensures Covered(db', units)
  {}

  lemma {:induction false} StoreRangeCovers(chain: seq<Block>, clean: Tables, db: Tables, b: Block, n: nat, end: nat)
    requires ValidChain(chain) && UnitsOf(AllUnits(chain), chain) && Holds(clean, AllUnits(chain))
    requires Within(db, clean) && b in chain && end <= |b.txs| + 1
    ensures var after := StoreRange(db, b, n, end);
            Within(after, clean) && Within(db, after) && Covered(after, UnitRange(b, n, end))
    decreases end - n
  {
    hide Rows, Apply, ValidChain, Holds, UnitsOf, AllUnits, Within;
    if n < end {
      var u := Unit(b, n);
      ApplyCovers(chain, clean, db, u);
      StoreRangeCovers(chain, clean, Apply(db, u), b, n + 1, end);
      var after := StoreRange(Apply(db, u), b, n + 1, end);
      WithinTrans(db, Apply(db, u), after);
      CoveredOn(Apply(db, u), after, {u});
      assert UnitRange(b, n, end) == {u} + UnitRange(b, n + 1, end);
    } else {
      WithinSelf(db);
    }
  }

  lemma {:induction false} StoreAllCovers(chain: seq<Block>, clean: Tables, db: Tables, e: seq<Block>)
    requires ValidChain(chain) && UnitsOf(AllUnits(chain), chain) && Holds(clean, AllUnits(chain))
    requires Within(db, clean) && forall b | b in e :: b in chain
    ensures var after := StoreAll(db, e);
            Within(after, clean) && Within(db, after) && Covered(after, AllUnits(e))
    decreases |e|
  {
    hide Rows, Apply, StoreRange, ValidChain, Holds, UnitsOf, Within;
    if e == [] {
      assert AllUnits(e) == {};
      WithinSelf(db);
    } else {
      StoreRangeCovers(chain, clean, db, e[0], 0, |e[0].txs| + 1);
      var mid := StoreBlock(db, e[0]);
      StoreAllCovers(chain, clean, mid, e[1..]);
      var after := StoreAll(mid, e[1..]);
      WithinTrans(db, mid, after);
      CoveredOn(mid, after, BlockUnits(e[0]));
      FirstUnits(e);
    }
  }

  lemma FirstUnits(e: seq<Block>)
    requires e != []
    ensures AllUnits(e) == BlockUnits(e[0]) + AllUnits(e[1..])
  {
    assert forall b :: b in e <==> b == e[0] || b in e[1..];
  }

  /** Storing only adds rows. */
  lemma {:induction false} StoreRangeAdds(db: Tables, b: Block, n: nat, end: nat)
    requires end <= |b.txs| + 1
    ensures Within(db, StoreRange(db, b, n, end))
    decreases end - n
  {
    hide Rows;
    if n < end {
      StoreRangeAdds(Apply(db, Unit(b, n)), b, n + 1, end);
      WithinTrans(db, Apply(db, Unit(b, n)), StoreRange(Apply(db, Unit(b, n)), b, n + 1, end));
    }
  }

  lemma {:induction false} StoreAllAdds(db: Tables, e: seq<Block>)
    ensures Within(db, StoreAll(db, e))
    decreases |e|
  {
    if e != [] {
      StoreRangeAdds(db, e[0], 0, |e[0].txs| + 1);
      StoreAllAdds(StoreBlock(db, e[0]), e[1..]);
      WithinTrans(db, StoreBlock(db, e[0]), StoreAll(StoreBlock(db, e[0]), e[1..]));
    }
  }

  /** Starting over from the origin, because nothing is stored beyond the margin or because the node no longer knows
      the resume block. The rollback to the origin deletes nothing, so whatever is in the tables stays: the whole
      chain is stored exactly if each leftover row is a row of that chain. */
  lemma StartOverExact(chain: seq<Block>, db: Tables)
    requires ValidChain(chain) && !Found(db, ORIGIN)
    ensures StoreAll(RollBackward(db, ORIGIN), chain) == Clean(chain) <==> Within(db, Clean(chain))
  {
    StoreAllAdds(db, chain);
    if Within(db, Clean(chain)) {
      CleanHolds(chain);
      StoreAllCovers(chain, Clean(chain), db, chain);
      CoveredClean(chain, StoreAll(db, chain));
    }
  }

  lemma CoveredClean(chain: seq<Block>, db: Tables)
    requires ValidChain(chain) && UnitsOf(AllUnits(chain), chain) && Holds(Clean(chain), AllUnits(chain))
    requires Within(db, Clean(chain)) && Covered(db, AllUnits(chain))
    ensures db == Clean(chain)
  {
    var clean := Clean(chain);
    forall k | k in clean ensures k in db && db[k] == clean[k] { var u := RowOwner(clean, AllUnits(chain), k); }
    hide Clean;
    WithinBoth(db, clean);
  }

  /** A stale block of an abandoned fork holds the slot. */
  ghost predicate Blocked(db: Tables, b: Block) { BlockKey(b.hash) !in db && SlotTaken(db, b.slot) }

  lemma ApplyBlocked(chain: seq<Block>, db: Tables, u: Unit, b: Block)
    requires ValidChain(chain) && InChain(u, chain) && b in chain && Blocked(db, b)
    ensures Blocked(Apply(db, u), b)
  {
    var after := Apply(db, u);
    var k :| k in db && k.BlockKey? && db[k].BlockRow? && db[k].slot == b.slot;
    assert k in after && after[k] == db[k];
    if BlockKey(b.hash) in Rows(u) {
      RowsKeys(u, BlockKey(b.hash));
      assert u.block == b && u.n == 0;
    }
    hide Rows;
  }

  lemma {:induction false} StoreRangeBlocked(chain: seq<Block>, db: Tables, c: Block, n: nat, end: nat, b: Block)
    requires ValidChain(chain) && c in chain && end <= |c.txs| + 1 && b in chain && Blocked(db, b)
    ensures Blocked(StoreRange(db, c, n, end), b)
    decreases end - n
  {
    hide Blocked, Apply;
    if n < end {
      ApplyBlocked(chain, db, Unit(c, n), b);
      StoreRangeBlocked(chain, Apply(db, Unit(c, n)), c, n + 1, end, b);
    }
  }

  /** A block whose slot a stale block holds is never stored, whatever is delivered. */
  lemma {:induction false} StaleSlotNeverStored(chain: seq<Block>, db: Tables, e: seq<Block>, b: Block)
    requires ValidChain(chain) && (forall c | c in e :: c in chain) && b in chain && Blocked(db, b)
    ensures BlockKey(b.hash) !in StoreAll(db, e) && Blocked(StoreAll(db, e), b)
    decreases |e|
  {
    if e != [] {
      StoreRangeBlocked(chain, db, e[0], 0, |e[0].txs| + 1, b);
      hide Blocked, StoreRange;
      StaleSlotNeverStored(chain, StoreBlock(db, e[0]), e[1..], b);
    }
  }
}
