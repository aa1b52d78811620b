/** What every run of the ingestion protocol guarantees. */
module IngestTheorems {
  import opened Bytes
  import opened Chain
  import opened Maps
  import opened Rollback
  import opened Ingest
  import opened IngestInvariant

  // ---- the tables of a reachable state ----

  lemma UnitKey(u: Unit)
    requires u.n <= |u.block.txs|
    ensures exists k :: k in Rows(u)
  {
    if u.n == 0 {
      assert BlockKey(u.block.hash) in Rows(u);
    } else {
      assert TxKey(UnitTx(u).hash) in Rows(u);
    }
  }

  /** More committed units store more rows, and the same rows only if they are the same units. */
  lemma HoldsMonotone(chain: seq<Block>, db: Tables, units: set<Unit>, db': Tables, units': set<Unit>)
    requires ValidChain(chain) && UnitsOf(units', chain) && units <= units'
    requires Holds(db, units) && Holds(db', units')
    ensures Within(db, db')
    ensures db == db' <==> units == units'
  {
    forall k | k in db ensures k in db' && db'[k] == db[k] {
      var u := RowOwner(db, units, k);
      HoldsRow(db', units', u, k);
    }
    if db == db' {
      forall u | u in units' ensures u in units {
        UnitKey(u);
        var k :| k in Rows(u);
        HoldsRow(db', units', u, k);
        var v := RowOwner(db, units, k);
        OneWriter(chain, u, v, k);
      }
    } else if units == units' {
      UnionUnique(db, db', Parts(units));
    }
  }

  /** In every reachable state the tables are part of what one worker would have stored by processing the
      delivered chain in order, and they are all of it exactly when every unit was committed. */
  lemma StoredPartOfClean(s: State)
    requires Reachable(s)
    ensures Within(s.db, Clean(s.chain))
    ensures s.db == Clean(s.chain) <==> AllUnits(s.chain) <= s.committed
  {
    ReachableInv(s);
    CommittedInChain(s);
    CleanHolds(s.chain);
    assert s.committed <= AllUnits(s.chain);
    HoldsMonotone(s.chain, s.db, s.committed, Clean(s.chain), AllUnits(s.chain));
  }

  lemma QuietAllFinished(s: State)
    requires Inv(s) && Quiet(s)
    ensures forall b | b in s.chain :: b in s.succeeded || b in s.duplicates || b in s.failed
  {
    assert Dequeued(s) == s.chain;
    forall b | b in s.chain ensures !Held(s, b) {
      assert forall i | 0 <= i < |s.workers| :: s.workers[i] in s.workers;
    }
  }

  lemma RunStep(t: State, rest: seq<Label>, s': State, s: State, l: Label)
    requires Enabled(s, l) && s' == Do(s, l) && Run(s', rest, t)
    ensures Run(s, [l] + rest, t)
  {
    assert ([l] + rest)[1..] == rest;
  }

  // ---- bounded holes ----

  ghost predicate HeaderStored(s: State, b: Block) { BlockKey(b.hash) in s.db }

  /** The blocks of the chain that lie below a stored block but are not stored themselves. */
  ghost function Holes(s: State): set<Block> {
    set b, c | b in s.chain && c in s.chain && HeaderStored(s, c) && b.slot < c.slot && !HeaderStored(s, b) :: b
  }

  ghost function HeldBlocks(workers: seq<Worker>): set<Block> {
    set w | w in workers && w.Busy? :: w.block
  }

  lemma {:induction false} HeldBound(workers: seq<Worker>)
    ensures |HeldBlocks(workers)| <= |workers|
  {
    if workers != [] {
      var init, last := workers[..|workers| - 1], workers[|workers| - 1];
      HeldBound(init);
      assert forall w :: w in workers <==> w in init || w == last;
      assert HeldBlocks(workers) == HeldBlocks(init) + (if last.Busy? then {last.block} else {});
    }
  }

  lemma StoredIffCommitted(s: State, b: Block)
    requires Inv(s) && b in s.chain
    ensures HeaderStored(s, b) <==> Unit(b, 0) in s.committed
  {
    var k := BlockKey(b.hash);
    CommittedInChain(s);
    if k in s.db {
      var u := RowOwner(s.db, s.committed, k);
      OneWriter(s.chain, u, Unit(b, 0), k);
    }
    if Unit(b, 0) in s.committed { HoldsRow(s.db, s.committed, Unit(b, 0), k); }
  }

  lemma BelowDequeued(s: State, b: Block, c: Block)
    requires QueueInv(s) && b in s.chain && c in Dequeued(s) && b.slot < c.slot
    ensures b in Dequeued(s)
  {
    var i :| 0 <= i < |s.chain| && s.chain[i] == b;
    var j :| 0 <= j < |Dequeued(s)| && Dequeued(s)[j] == c;
    assert s.chain[j] == c && i < j;
    assert Dequeued(s)[i] == b;
  }

  lemma DequeuedReason(s: State, b: Block)
    requires Inv(s) && b in Dequeued(s) && Unit(b, 0) !in s.committed
    ensures b in HeldBlocks(s.workers) || b in s.failed || b in s.duplicates
  {
    if b !in s.succeeded && Held(s, b) {
      var id: nat :| HeldBy(s, id, b);
      assert s.workers[id] in s.workers;
    }
  }

  /** Whatever is missing below a stored block is in a worker's hands, failed, or was given up as a duplicate. */
  lemma HoleReason(s: State, b: Block)
    requires Inv(s) && b in Holes(s)
    ensures b in HeldBlocks(s.workers) || b in s.failed || b in s.duplicates
  {
    var c :| c in s.chain && HeaderStored(s, c) && b.slot < c.slot;
    StoredIffCommitted(s, b);
    StoredIffCommitted(s, c);
    CommittedInChain(s);
    BelowDequeued(s, b, c);
    DequeuedReason(s, b);
  }

  /** In every reachable state there are at most eight holes more than blocks that failed or were given up
      as duplicates. */
  lemma BoundedHoles(s: State)
    requires Reachable(s)
    ensures |Holes(s)| <= WORKERS + |s.failed| + |s.duplicates|
    ensures forall b | b in Holes(s) :: b in HeldBlocks(s.workers) || b in s.failed || b in s.duplicates
  {
    ReachableInv(s);
    forall b | b in Holes(s) ensures b in HeldBlocks(s.workers) || b in s.failed || b in s.duplicates {
      HoleReason(s, b);
    }
    var reasons := HeldBlocks(s.workers) + s.failed + s.duplicates;
    SubsetSize(Holes(s), reasons);
    HeldBound(s.workers);
  }

  // ---- the processed-blocks counter ----

  lemma StepCounts(s: State, l: Label)
    requires Inv(s) && Enabled(s, l) && !l.RollBack? && !l.Restart?
    ensures var t := Do(s, l);
            t.blocksProcessed - s.blocksProcessed == |t.succeeded| - |s.succeeded| && s.succeeded <= t.succeeded
  {
    if l.Work? {
      var w := s.workers[l.id];
      HeldNotSucceeded(s, l.id);
      WorkCounts(s, Store(s, Unit(w.block, w.next), l.outcome), l.id, l.outcome);
    }
  }

  lemma HeldNotSucceeded(s: State, id: nat)
    requires Inv(s) && id < |s.workers| && s.workers[id].Busy?
    ensures s.workers[id].block !in s.succeeded
  {
    BusyBlock(s, id);
  }

  lemma WorkCounts(s: State, s1: State, id: nat, o: Outcome)
    requires id < |s.workers| && s.workers[id].Busy? && s.workers[id].next <= |s.workers[id].block.txs|
    requires s.workers[id].block !in s.succeeded && s1 == Store(s, Unit(s.workers[id].block, s.workers[id].next), o)
    ensures var t := WorkStep(s, id, o);
            t.blocksProcessed - s.blocksProcessed == |t.succeeded| - |s.succeeded| && s.succeeded <= t.succeeded
  {
    assert s1.succeeded == s.succeeded && s1.blocksProcessed == s.blocksProcessed;
    match Advance(id, s.workers[id], o)
    case Continue(_) =>
    case Done(v) => VerdictCounts(s1.(workers := s.workers[id := Idle]), s.workers[id].block, v);
  }

  lemma VerdictCounts(s: State, b: Block, v: Verdict)
    requires b !in s.succeeded
    ensures var t := Finish(s, b, v);
            t.blocksProcessed - s.blocksProcessed == |t.succeeded| - |s.succeeded| && s.succeeded <= t.succeeded
  {}

  /** Between rollbacks and restarts the block counter grows by exactly the number of blocks that newly succeeded. */
  lemma {:induction false} CounterCountsSuccesses(s: State, labels: seq<Label>, t: State)
    requires Inv(s) && Run(s, labels, t) && forall l | l in labels :: !l.RollBack? && !l.Restart?
    ensures t.blocksProcessed - s.blocksProcessed == |t.succeeded| - |s.succeeded|
    ensures s.succeeded <= t.succeeded
    decreases |labels|
  {
    if labels != [] {
      StepCounts(s, labels[0]);
      StepInv(s, labels[0]);
      CounterCountsSuccesses(Do(s, labels[0]), labels[1..], t);
    }
  }

  // ---- prefixes and replays ----

  /** At every point what is stored or passed over of a block is a prefix of its units, and while nothing is
      skipped the stored transactions themselves are a prefix of the block's transaction list. */
  lemma StoredPrefix(s: State, b: Block, n: nat, m: nat)
    requires Reachable(s) && Unit(b, n) in s.committed && m < n
    ensures Unit(b, m) in s.committed || Unit(b, m) in s.skipped
    ensures s.skipped == {} ==> Unit(b, m) in s.committed
  {
    ReachableInv(s);
    assert Unit(b, n) in Passed(s);
    assert PassedUpto(s, b, n + 1);
    assert Unit(b, m) in Passed(s);
  }

  /** Attempts of ProcessBlock aborted after their first cuts[0], cuts[1], ... database transactions. */
  function Aborted(db: Tables, b: Block, cuts: seq<nat>): Tables
    requires forall i | 0 <= i < |cuts| :: cuts[i] <= |b.txs| + 1
  {
    if cuts == [] then db else StoreRange(Aborted(db, b, cuts[..|cuts| - 1]), b, 0, cuts[|cuts| - 1])
  }

  lemma {:induction false} AbortedHolds(chain: seq<Block>, db: Tables, units: set<Unit>, b: Block, cuts: seq<nat>) returns (more: set<Unit>)
    requires ValidChain(chain) && UnitsOf(units, chain) && Holds(db, units) && b in chain
    requires forall i | 0 <= i < |cuts| :: cuts[i] <= |b.txs| + 1
    ensures units <= more <= units + BlockUnits(b)
    ensures UnitsOf(more, chain) && Holds(Aborted(db, b, cuts), more)
  {
    more := units;
    if cuts != [] {
      var init, cut := cuts[..|cuts| - 1], cuts[|cuts| - 1];
      var part := AbortedHolds(chain, db, units, b, init);
      StoreRangeHolds(chain, Aborted(db, b, init), part, b, 0, cut);
      more := part + UnitRange(b, 0, cut);
      assert UnitRange(b, 0, cut) <= BlockUnits(b);
    }
  }

  /** Replay safety: aborting ProcessBlock after any prefix, any number of times, and then running it to
      completion stores the same rows as one clean run. */
  lemma ReplaySafe(chain: seq<Block>, db: Tables, units: set<Unit>, b: Block, cuts: seq<nat>)
    requires ValidChain(chain) && UnitsOf(units, chain) && Holds(db, units) && b in chain
    requires forall i | 0 <= i < |cuts| :: cuts[i] <= |b.txs| + 1
    ensures StoreBlock(Aborted(db, b, cuts), b) == StoreBlock(db, b)
  {
    var more := AbortedHolds(chain, db, units, b, cuts);
    StoreRangeHolds(chain, db, units, b, 0, |b.txs| + 1);
    StoreRangeHolds(chain, Aborted(db, b, cuts), more, b, 0, |b.txs| + 1);
    assert more + BlockUnits(b) == units + BlockUnits(b);
    HoldsDetermines(chain, StoreBlock(Aborted(db, b, cuts), b), StoreBlock(db, b), units + BlockUnits(b));
  }
}
