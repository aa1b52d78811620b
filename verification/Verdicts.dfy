/** When the tables of a drained indexer are those of one worker in chain order: what failures, skipped transactions
    and "already processed" verdicts lose (blockWorker in main.go). */
module Verdicts {
  import opened Chain
  import opened Maps
  import opened Rollback
  import opened Ingest
  import opened IngestInvariant
  import opened IngestTheorems

  // ---- an "already processed" verdict ----

  /** Of the block at most the header was passed. */
  ghost predicate OnlyHeader(s: State, b: Block) { forall u | u in Passed(s) && u.block == b :: u.n == 0 }

  /** A worker that did not start over yet has passed no more of its block than it says. */
  ghost predicate NoneAhead(s: State, w: Worker) {
    w.Busy? && w.attempt < EXTRA ==> forall u | u in Passed(s) && u.block == w.block :: u.n < w.next
  }

  ghost predicate VerdictInv(s: State) {
    && (forall b | b in s.duplicates :: OnlyHeader(s, b))
    && forall id | 0 <= id < |s.workers| :: NoneAhead(s, s.workers[id])
  }

  lemma VerdictDequeue(s: State, id: nat)
    requires Inv(s) && VerdictInv(s) && Enabled(s, Dequeue(id))
    ensures VerdictInv(Do(s, Dequeue(id)))
  {
    FreshBlock(s);
    forall u | u in Passed(s) ensures u.block != s.queue[0] { assert InChain(u, Dequeued(s)); }
    var s' := Do(s, Dequeue(id));
    assert Passed(s') == Passed(s);
    hide Inv;
  }

  /** Rollbacks and restarts leave no worker busy and add nothing. */
  lemma VerdictCut(s: State, s': State)
    requires VerdictInv(s) && Quiet(s') && Passed(s') <= Passed(s) && s'.duplicates <= s.duplicates
    ensures VerdictInv(s')
  {
    assert forall id | 0 <= id < |s'.workers| :: s'.workers[id] in s'.workers;
  }

  lemma OthersBlocks(s: State, id: nat)
    requires Inv(s) && id < |s.workers| && s.workers[id].Busy?
    ensures s.workers[id].block !in s.duplicates
    ensures forall i | 0 <= i < |s.workers| && i != id && s.workers[i].Busy? :: s.workers[i].block != s.workers[id].block
  {
    var b := s.workers[id].block;
    assert HeldBy(s, id, b) && Held(s, b);
    forall i | 0 <= i < |s.workers| && i != id && s.workers[i].Busy? ensures s.workers[i].block != b {
      assert HeldBy(s, i, s.workers[i].block);
    }
  }

  /** A worker's database transaction says nothing about the other blocks. */
  lemma VerdictStore(s: State, id: nat, o: Outcome)
    requires Inv(s) && VerdictInv(s) && Enabled(s, Work(id, o))
    ensures var w := s.workers[id];
            var s1 := Store(s, Unit(w.block, w.next), o);
            && s1.workers == s.workers && s1.duplicates == s.duplicates && (forall b | b in s.duplicates :: OnlyHeader(s1, b))
            && (forall i | 0 <= i < |s.workers| && i != id :: NoneAhead(s1, s.workers[i]))
            && (w.attempt < EXTRA ==> forall u | u in Passed(s1) && u.block == w.block :: u.n <= w.next)
            && (w.attempt < EXTRA && !o.Stores() && !(w.next > 0 && o.dup) ==>
                  forall u | u in Passed(s1) && u.block == w.block :: u.n < w.next)
  {
    var w := s.workers[id];
    var s1 := Store(s, Unit(w.block, w.next), o);
    OthersBlocks(s, id);
    assert NoneAhead(s, w);
    hide Inv, Apply;
    assert Passed(s) <= Passed(s1) <= Passed(s) + {Unit(w.block, w.next)};
  }

  /** How a worker goes on: never with units passed ahead of it, and a block is given up as already processed only
      out of its header transaction. */
  lemma VerdictAdvance(w: Worker, id: nat, o: Outcome)
    requires w.Busy? && Possible(w, o)
    ensures match Advance(id, w, o)
            case Continue(w') =>
              && w'.Busy? && w'.block == w.block
              && (w'.attempt == EXTRA || (w'.attempt == w.attempt && w'.next == w.next + 1)
                  || (w'.next == w.next == 0 && !o.Stores() && w.attempt < EXTRA))
            case Done(v) => v == Duplicate ==> w.next == 0 && w.attempt != EXTRA && o.Abort? && o.dup
  {}

  lemma VerdictContinue(s1: State, id: nat, w': Worker)
    requires id < |s1.workers| && NoneAhead(s1, w') && forall b | b in s1.duplicates :: OnlyHeader(s1, b)
    requires forall i | 0 <= i < |s1.workers| && i != id :: NoneAhead(s1, s1.workers[i])
    ensures VerdictInv(s1.(workers := s1.workers[id := w']))
  {
    SamePassed(s1, s1.(workers := s1.workers[id := w']));
    hide Passed;
  }

  lemma VerdictDone(s1: State, id: nat, b: Block, v: Verdict)
    requires id < |s1.workers| && (v == Duplicate ==> OnlyHeader(s1, b)) && forall c | c in s1.duplicates :: OnlyHeader(s1, c)
    requires forall i | 0 <= i < |s1.workers| && i != id :: NoneAhead(s1, s1.workers[i])
    ensures VerdictInv(Finish(s1.(workers := s1.workers[id := Idle]), b, v))
  {
    SamePassed(s1, Finish(s1.(workers := s1.workers[id := Idle]), b, v));
    hide Passed;
  }

  lemma VerdictWork(s: State, id: nat, o: Outcome)
    requires Inv(s) && VerdictInv(s) && Enabled(s, Work(id, o))
    ensures VerdictInv(Do(s, Work(id, o)))
  {
    VerdictStore(s, id, o);
    VerdictAdvance(s.workers[id], id, o);
    BusyBlock(s, id);
    var s1 := Store(s, Unit(s.workers[id].block, s.workers[id].next), o);
    hide Inv, VerdictInv, Advance, Store, Possible, Passed, Finish;
    match Advance(id, s.workers[id], o)
    case Continue(w') => VerdictContinue(s1, id, w');
    case Done(v) => VerdictDone(s1, id, s.workers[id].block, v);
  }

  lemma SamePassed(s: State, t: State)
    requires t.committed == s.committed && t.skipped == s.skipped
    ensures Passed(t) == Passed(s)
  {}

  lemma VerdictStepInv(s: State, l: Label)
    requires Inv(s) && VerdictInv(s) && Enabled(s, l)
    ensures VerdictInv(Do(s, l))
  {
    match l
    case Enqueue(b) => assert Passed(Do(s, l)) == Passed(s);
    case Dequeue(id) => VerdictDequeue(s, id);
    case Work(id, o) => VerdictWork(s, id, o);
    case RollBack(p) => VerdictCut(s, Do(s, l));
    case Restart(p) => VerdictCut(s, Do(s, l));
  }

  lemma {:induction false} VerdictRunInv(s: State, labels: seq<Label>, t: State)
    requires Inv(s) && VerdictInv(s) && Run(s, labels, t)
    ensures VerdictInv(t)
    decreases |labels|
  {
    hide Inv, VerdictInv;
    if labels != [] {
      StepInv(s, labels[0]);
      VerdictStepInv(s, labels[0]);
      VerdictRunInv(Do(s, labels[0]), labels[1..], t);
    }
  }

  /** "Already processed" always loses every transaction of the block: in every reachable state at most the header
      of a block given up that way is stored. */
  lemma AlreadyProcessedLosesAll(s: State, b: Block)
    requires Reachable(s) && b in s.duplicates
    ensures forall u | u in s.committed && u.block == b :: u == Unit(b, 0)
    ensures b in s.chain && (BlockUnits(b) <= s.committed <==> b.txs == [] && Unit(b, 0) in s.committed)
  {
    ReachableInv(s);
    ReachableVerdicts(s);
    assert b in Dequeued(s);
    hide Inv, Reachable, BlockUnits;
    HeaderOnly(s, b);
  }

  lemma ReachableVerdicts(s: State)
    requires Reachable(s)
    ensures VerdictInv(s)
  {
    var s0, labels :| Init(s0) && Run(s0, labels, s);
    InitInv(s0);
    assert VerdictInv(s0);
    hide Inv, VerdictInv, Init, Run;
    VerdictRunInv(s0, labels, s);
  }

  lemma HeaderOnly(s: State, b: Block)
    requires OnlyHeader(s, b)
    ensures forall u | u in s.committed && u.block == b :: u == Unit(b, 0)
    ensures BlockUnits(b) <= s.committed <==> b.txs == [] && Unit(b, 0) in s.committed
  {
    assert Unit(b, 0) in BlockUnits(b);
    assert b.txs != [] ==> Unit(b, 1) in BlockUnits(b);
    forall u | u in s.committed && u.block == b ensures u == Unit(b, 0) { assert u in Passed(s); }
  }

  // ---- confluence ----

  /** Nothing of the chain is missing: each transaction passed over as a duplicate key is stored, each block given up
      as already processed has no transactions and its header stored, and what failed was stored all the same. */
  ghost predicate NothingLost(s: State) {
    && s.skipped <= s.committed
    && (forall b | b in s.duplicates :: b.txs == [] && Unit(b, 0) in s.committed)
    && forall b | b in s.failed :: BlockUnits(b) <= s.committed
  }

  /** The same with all units of the duplicates. */
  ghost predicate AllStored(s: State) {
    && s.skipped <= s.committed
    && forall b | b in s.duplicates + s.failed :: BlockUnits(b) <= s.committed
  }

  lemma NothingLostIffStored(s: State)
    requires Reachable(s)
    ensures NothingLost(s) <==> AllStored(s)
  {
    forall b | b in s.duplicates ensures BlockUnits(b) <= s.committed <==> b.txs == [] && Unit(b, 0) in s.committed {
      AlreadyProcessedLosesAll(s, b);
    }
    hide Reachable, BlockUnits;
  }

  lemma AllIfStored(s: State)
    requires Inv(s) && Quiet(s) && AllStored(s)
    ensures AllUnits(s.chain) <= s.committed
  {
    QuietAllFinished(s);
    forall u | u in AllUnits(s.chain) ensures u in s.committed {
      assert u.block in s.chain && u in BlockUnits(u.block);
      if u.block in s.succeeded {
        assert PassedUpto(s, u.block, |u.block.txs| + 1);
        assert u in Passed(s);
      }
    }
  }

  lemma StoredIfAll(s: State)
    requires Inv(s) && Quiet(s) && AllUnits(s.chain) <= s.committed
    ensures AllStored(s)
  {
    assert Dequeued(s) == s.chain;
    forall u | u in s.skipped ensures u in AllUnits(s.chain) {
      assert u in Passed(s);
      assert InChain(u, s.chain);
    }
    forall b, u | b in s.duplicates + s.failed && u in BlockUnits(b) ensures u in s.committed {
      assert b in s.chain && u in AllUnits(s.chain);
    }
  }

  /** Confluence: whatever the interleaving of deliveries, workers, retries, rollbacks and restarts, once everything
      is drained the tables are those of one worker processing the chain in order exactly if nothing was lost. */
  lemma Confluence(s: State)
    requires Reachable(s) && Quiet(s)
    ensures s.db == Clean(s.chain) <==> NothingLost(s)
  {
    ReachableInv(s);
    StoredPartOfClean(s);
    NothingLostIffStored(s);
    if AllStored(s) { AllIfStored(s); }
    if AllUnits(s.chain) <= s.committed { StoredIfAll(s); }
  }

  // ---- honest duplicate-key errors ----

  /** The database reports a duplicate key only for a unit that is stored, before this step or by the step itself,
      when RetryTransaction repeats a transaction whose acknowledgement got lost. */
  ghost predicate HonestStep(s: State, l: Label)
    requires Enabled(s, l)
  {
    l.Work? && l.outcome.Abort? && l.outcome.dup ==>
      var w := s.workers[l.id];
      Unit(w.block, w.next) in s.committed || l.outcome.stored
  }

  ghost predicate HonestRun(s: State, labels: seq<Label>, t: State)
    decreases |labels|
  {
    if labels == [] then t == s
    else Enabled(s, labels[0]) && HonestStep(s, labels[0]) && HonestRun(Do(s, labels[0]), labels[1..], t)
  }

  /** Every transaction passed over is stored, and so is the header of every block given up. */
  ghost predicate HonestInv(s: State) {
    s.skipped <= s.committed && forall b | b in s.duplicates :: Unit(b, 0) in s.committed
  }

  lemma HonestWork(s: State, id: nat, o: Outcome)
    requires Inv(s) && HonestInv(s) && Enabled(s, Work(id, o)) && HonestStep(s, Work(id, o))
    ensures HonestInv(Do(s, Work(id, o)))
  {
    var w := s.workers[id];
    var s1 := Store(s, Unit(w.block, w.next), o);
    VerdictAdvance(w, id, o);
    assert HonestInv(s1);
    assert o.Abort? && o.dup ==> Unit(w.block, w.next) in s1.committed;
    hide Inv, Advance, Store, Possible, HonestStep;
    match Advance(id, w, o)
    case Continue(w') =>
    case Done(v) => HonestDone(s1, id, w.block, v);
  }

  lemma HonestDone(s: State, id: nat, b: Block, v: Verdict)
    requires HonestInv(s) && id < |s.workers| && (v == Duplicate ==> Unit(b, 0) in s.committed)
    ensures HonestInv(Finish(s.(workers := s.workers[id := Idle]), b, v))
  {}

  lemma HonestStepInv(s: State, l: Label)
    requires Inv(s) && HonestInv(s) && Enabled(s, l) && HonestStep(s, l)
    ensures HonestInv(Do(s, l))
  {
    match l
    case Enqueue(b) =>
    case Dequeue(id) =>
    case Work(id, o) => HonestWork(s, id, o);
    case RollBack(p) =>
    case Restart(p) =>
  }

  lemma {:induction false} HonestRunInv(s: State, labels: seq<Label>, t: State)
    requires Inv(s) && HonestInv(s) && HonestRun(s, labels, t)
    ensures HonestInv(t) && Run(s, labels, t)
    decreases |labels|
  {
    hide Inv, HonestInv;
    if labels != [] {
      StepInv(s, labels[0]);
      HonestStepInv(s, labels[0]);
      HonestRunInv(Do(s, labels[0]), labels[1..], t);
    }
  }

  /** If duplicate keys are reported only for stored units, a drained run without failures ends with the tables of
      one worker exactly if no block that has transactions was given up as already processed. */
  lemma HonestConfluence(s0: State, labels: seq<Label>, s: State)
    requires Init(s0) && HonestRun(s0, labels, s) && Quiet(s) && s.failed == {}
    ensures s.db == Clean(s.chain) <==> forall b | b in s.duplicates :: b.txs == []
  {
    InitInv(s0);
    assert HonestInv(s0);
    HonestRunInv(s0, labels, s);
    assert Reachable(s);
    hide Reachable, Quiet, HonestRun, Run;
    Confluence(s);
  }

  function LossRun(b: Block, stored: bool): seq<Label> { [Enqueue(b), Dequeue(0), Work(0, Abort(false, true, false, stored))] }

  /** Runs without failures that lose the block: a duplicate-key error out of the header transaction, from any other
      row it writes, or from the header itself after a lost acknowledgement. The second one is honest. */
  lemma DuplicateVerdictLosesBlock(s: State, b: Block, stored: bool)
    requires Init(s) && ValidChain([b]) && (stored ==> b.txs != [])
    ensures exists t :: Run(s, LossRun(b, stored), t) && Quiet(t) && t.failed == {} && t.db != Clean(t.chain)
                        && (stored ==> HonestRun(s, LossRun(b, stored), t))
  {
    var s1, s2, t := LossStates(s, b, stored);
    LossIsRun(s, b, stored, s1, s2, t);
    assert Reachable(t);
    var u := if stored then Unit(b, 1) else Unit(b, 0);
    assert b in t.chain && u in AllUnits(t.chain) && u !in t.committed;
    hide Reachable, Run, Quiet, LossRun, AllUnits, HonestRun;
    StoredPartOfClean(t);
  }

  lemma LossIsRun(s: State, b: Block, stored: bool, s1: State, s2: State, t: State)
    requires var dup := Work(0, Abort(false, true, false, stored));
             && Enabled(s, Enqueue(b)) && s1 == Do(s, Enqueue(b)) && Enabled(s1, Dequeue(0)) && s2 == Do(s1, Dequeue(0))
             && Enabled(s2, dup) && t == Do(s2, dup) && (stored ==> HonestStep(s2, dup))
    ensures Run(s, LossRun(b, stored), t) && (stored ==> HonestRun(s, LossRun(b, stored), t))
  {
    var dup := Work(0, Abort(false, true, false, stored));
    assert HonestStep(s, Enqueue(b)) && HonestStep(s1, Dequeue(0));
    hide Enabled, Do, HonestStep;
    RunStep(t, [], t, s2, dup);
    RunStep(t, [dup], s2, s1, Dequeue(0));
    RunStep(t, [Dequeue(0), dup], s1, s, Enqueue(b));
    if stored {
      HonestRunStep(t, [], t, s2, dup);
      HonestRunStep(t, [dup], s2, s1, Dequeue(0));
      HonestRunStep(t, [Dequeue(0), dup], s1, s, Enqueue(b));
    }
    assert [Enqueue(b)] + [Dequeue(0), dup] == LossRun(b, stored);
  }

  lemma HonestRunStep(t: State, rest: seq<Label>, s': State, s: State, l: Label)
    requires Enabled(s, l) && HonestStep(s, l) && s' == Do(s, l) && HonestRun(s', rest, t)
    ensures HonestRun(s, [l] + rest, t)
  {
    assert ([l] + rest)[1..] == rest;
  }

  lemma LossStates(s: State, b: Block, stored: bool) returns (s1: State, s2: State, t: State)
    requires Init(s) && ValidChain([b])
    ensures var dup := Work(0, Abort(false, true, false, stored));
            && Enabled(s, Enqueue(b)) && s1 == Do(s, Enqueue(b)) && Enabled(s1, Dequeue(0)) && s2 == Do(s1, Dequeue(0))
            && Enabled(s2, dup) && t == Do(s2, dup) && (stored ==> HonestStep(s2, dup))
    ensures Quiet(t) && t.chain == [b] && t.failed == {} && t.committed == if stored then {Unit(b, 0)} else {}
  {
    assert s.chain + [b] == [b] && s.queue + [b] == [b];
    s1 := Do(s, Enqueue(b));
    s2 := Do(s1, Dequeue(0));
    hide Apply, ValidChain;
    t := Do(s2, Work(0, Abort(false, true, false, stored)));
    assert forall i | 0 <= i < WORKERS :: t.workers[i].Idle?;
  }
}
