/** The code of main.go and block_processor.go that changes the database: ProcessBlock, the retry loop of
    blockWorker and the rollback handler, tied to the protocol of module Ingest. */
module Indexer {
  import opened Bytes
  import opened Chain
  import opened Maps
  import opened Rollback
  import opened Ingest
  import Rewards
  import Slots

  /** How the n-th database transaction of a run ends is up to the environment. */
  type Oracle = nat -> Outcome

  /** The tables after unit n ended in the given way. */
  function Stored(db: Tables, b: Block, n: nat, o: Outcome): Tables
    requires n <= |b.txs|
  { if o.Stores() then Apply(db, Unit(b, n)) else db }

  /** ProcessBlock from unit n on: the tables, the error it returned, and the next oracle answer. */
  function Attempt(db: Tables, b: Block, n: nat, oracle: Oracle, t: nat): (r: (Tables, Option<Outcome>, nat))
    ensures r.1.Some? ==> r.1.value.Abort?
    decreases |b.txs| + 1 - n
  {
    if n > |b.txs| then (db, None, t)
    else
      var o := oracle(t);
      var db' := Stored(db, b, n, o);
      if o.Commit? || (n > 0 && o.dup) then Attempt(db', b, n + 1, oracle, t + 1)
      else (db', Some(o), t + 1)
  }

  /** The steps of the protocol by which a worker finishes its block. */
  function Drive(db: Tables, id: nat, w: Worker, oracle: Oracle, t: nat): (Tables, Verdict, nat)
    requires w.Busy? && w.attempt <= EXTRA && w.next <= |w.block.txs|
    decreases EXTRA - w.attempt, |w.block.txs| - w.next
  {
    var o := oracle(t);
    var db' := Stored(db, w.block, w.next, o);
    match Advance(id, w, o)
    case Continue(w') => Drive(db', id, w', oracle, t + 1)
    case Done(v) => (db', v, t + 1)
  }

  /** Driving a worker is running its attempt to the end and then reacting to the error. */
  function React(id: nat, b: Block, attempt: nat, r: (Tables, Option<Outcome>, nat), oracle: Oracle): (Tables, Verdict, nat)
    requires attempt <= EXTRA && (r.1.Some? ==> r.1.value.Abort?)
  {
    match r.1
    case None => (r.0, Succeeded, r.2)
    case Some(o) =>
      match OnError(id, b, attempt, o)
      case Continue(w') => Drive(r.0, id, w', oracle, r.2)
      case Done(v) => (r.0, v, r.2)
  }

  lemma {:induction false} DriveIsAttempts(db: Tables, id: nat, b: Block, attempt: nat, n: nat, oracle: Oracle, t: nat)
    requires attempt <= EXTRA && n <= |b.txs|
    ensures var r := Attempt(db, b, n, oracle, t);
            Drive(db, id, Busy(b, attempt, n), oracle, t) == React(id, b, attempt, r, oracle)
    decreases |b.txs| - n
  {
    hide Rows;
    var o := oracle(t);
    if o.Commit? || (n > 0 && o.dup) {
      var db' := Stored(db, b, n, o);
      if n < |b.txs| {
        DriveIsAttempts(db', id, b, attempt, n + 1, oracle, t + 1);
      }
    }
  }

  /** The oracle's answers can occur: see Ingest.Possible. */
  ghost predicate PossibleFrom(id: nat, w: Worker, oracle: Oracle, t: nat)
    requires w.Busy? && w.attempt <= EXTRA && w.next <= |w.block.txs|
    decreases EXTRA - w.attempt, |w.block.txs| - w.next
  {
    && Possible(w, oracle(t))
    && match Advance(id, w, oracle(t))
       case Continue(w') => PossibleFrom(id, w', oracle, t + 1)
       case Done(_) => true
  }

  /** t is s after worker `id` alone has run on and finished its block with the given tables and verdict. */
  ghost predicate Finished(s: State, t: State, id: nat, db: Tables, v: Verdict)
    requires id < |s.workers| && s.workers[id].Busy?
  {
    var b := s.workers[id].block;
    && t.db == db && t.workers == s.workers[id := Idle] && t.chain == s.chain && t.queue == s.queue
    && t.succeeded == s.succeeded + (if v == Succeeded then {b} else {})
    && t.duplicates == s.duplicates + (if v == Duplicate then {b} else {})
    && t.failed == s.failed + (if v == Failed then {b} else {})
    && t.blocksProcessed == s.blocksProcessed + (if v == Succeeded then 1 else 0)
    && t.txsProcessed == s.txsProcessed + (if v == Succeeded then |b.txs| else 0)
    && t.lastSlot == if v == Failed then s.lastSlot else b.slot
  }

  lemma OneStep(s: State, id: nat, o: Outcome) returns (s1: State)
    requires Enabled(s, Work(id, o))
    ensures s1 == Do(s, Work(id, o))
    ensures match Advance(id, s.workers[id], o)
            case Continue(w') =>
              && w'.Busy? && w'.block == s.workers[id].block && s1.workers == s.workers[id := w']
              && s1 == s.(workers := s1.workers, db := s1.db, committed := s1.committed, skipped := s1.skipped)
            case Done(v) => Finished(s, s1, id, s1.db, v)
    ensures s1.db == Stored(s.db, s.workers[id].block, s.workers[id].next, o)
  {
    hide Apply;
    s1 := Do(s, Work(id, o));
  }

  /** What BlockWorker computes is a run of the protocol: the worker's own database transactions one after the
      other, leaving the same tables, verdict and counters. */
  lemma {:induction false} DriveIsRun(s: State, id: nat, oracle: Oracle, t: nat) returns (labels: seq<Label>, s': State)
    requires id < |s.workers| && s.workers[id].Busy?
    requires s.workers[id].attempt <= EXTRA && s.workers[id].next <= |s.workers[id].block.txs|
    requires PossibleFrom(id, s.workers[id], oracle, t)
    ensures var (db, v, t') := Drive(s.db, id, s.workers[id], oracle, t);
            Run(s, labels, s') && |labels| == t' - t && Finished(s, s', id, db, v)
    ensures forall i | 0 <= i < |labels| :: labels[i] == Work(id, oracle(t + i))
    decreases EXTRA - s.workers[id].attempt, |s.workers[id].block.txs| - s.workers[id].next
  {
    hide Apply, Do;
    var o := oracle(t);
    var s1 := OneStep(s, id, o);
    labels, s' := [Work(id, o)], s1;
    match Advance(id, s.workers[id], o)
    case Continue(w') =>
      assert s1.workers[id] == w';
      var rest;
      rest, s' := DriveIsRun(s1, id, oracle, t + 1);
      labels := [Work(id, o)] + rest;
      assert s1.workers[id := Idle] == s.workers[id := Idle];
    case Done(v) =>
      assert labels[1..] == [];
  }

  // ---- the same, told by attempts ----

  /** A unit that ProcessBlock goes on after. */
  predicate Passes(n: nat, o: Outcome) { o.Commit? || (n > 0 && o.dup) }

  /** ProcessBlock asks for one answer a unit and stops at the first that it cannot pass over, whose error it
      returns; without one it goes through the whole block. */
  lemma {:induction false} AttemptExact(db: Tables, b: Block, n: nat, oracle: Oracle, t: nat)
    requires n <= |b.txs| + 1
    ensures var (_, err, t') := Attempt(db, b, n, oracle, t);
            && t <= t' <= t + |b.txs| + 1 - n
            && (err.None? ==> t' == t + |b.txs| + 1 - n && forall i | t <= i < t' :: Passes(n + i - t, oracle(i)))
            && (err.Some? ==> t < t' && err == Some(oracle(t' - 1)) && !Passes(n + t' - 1 - t, oracle(t' - 1))
                              && forall i | t <= i < t' - 1 :: Passes(n + i - t, oracle(i)))
    decreases |b.txs| + 1 - n
  {
    hide Stored;
    if n <= |b.txs| { AttemptExact(Stored(db, b, n, oracle(t)), b, n + 1, oracle, t + 1); }
  }

  /** The units that the answers t, t + 1, ..., t' - 1 stored, from unit n on. */
  ghost function StoredUnits(b: Block, n: nat, oracle: Oracle, t: nat, t': nat): set<Unit> {
    set i: nat | t <= i < t' && oracle(i).Stores() :: Unit(b, n + i - t)
  }

  /** ... and it adds to the tables exactly the rows of the units that were stored. */
  lemma {:induction false} AttemptHolds(chain: seq<Block>, db: Tables, units: set<Unit>, b: Block, n: nat, oracle: Oracle, t: nat)
    requires ValidChain(chain) && UnitsOf(units, chain) && Holds(db, units) && b in chain && n <= |b.txs| + 1
    ensures var (db', _, t') := Attempt(db, b, n, oracle, t);
            var all := units + StoredUnits(b, n, oracle, t, t');
            UnitsOf(all, chain) && Holds(db', all)
    decreases |b.txs| + 1 - n
  {
    if n > |b.txs| {
      NoneStored(units, b, n, oracle, t);
    } else {
      var more, db' := StoredHolds(chain, db, units, b, n, oracle(t));
      AttemptExact(db', b, n + 1, oracle, t + 1);
      AttemptHolds(chain, db', more, b, n + 1, oracle, t + 1);
      StoredStep(units, b, n, oracle, t, if Passes(n, oracle(t)) then Attempt(db', b, n + 1, oracle, t + 1).2 else t + 1);
      NoneStored(more, b, n + 1, oracle, t + 1);
      hide Holds, UnitsOf, Stored, StoredUnits, ValidChain;
    }
  }

  lemma StoredHolds(chain: seq<Block>, db: Tables, units: set<Unit>, b: Block, n: nat, o: Outcome) returns (more: set<Unit>, db': Tables)
    requires ValidChain(chain) && UnitsOf(units, chain) && Holds(db, units) && b in chain && n <= |b.txs|
    ensures db' == Stored(db, b, n, o) && more == (if o.Stores() then units + {Unit(b, n)} else units)
    ensures UnitsOf(more, chain) && Holds(db', more)
  {
    more, db' := if o.Stores() then units + {Unit(b, n)} else units, Stored(db, b, n, o);
    if o.Stores() { ApplyHolds(chain, db, units, Unit(b, n)); }
  }

  lemma NoneStored(units: set<Unit>, b: Block, n: nat, oracle: Oracle, t: nat)
    ensures units + StoredUnits(b, n, oracle, t, t) == units
  {}

  lemma StoredStep(units: set<Unit>, b: Block, n: nat, oracle: Oracle, t: nat, t': nat)
    requires t < t'
    ensures units + StoredUnits(b, n, oracle, t, t')
            == (if oracle(t).Stores() then units + {Unit(b, n)} else units) + StoredUnits(b, n + 1, oracle, t + 1, t')
  {}

  /** The tables and the next answer after n attempts at a block, each from its header on. */
  function Tries(db: Tables, b: Block, oracle: Oracle, t: nat, n: nat): (Tables, nat) {
    if n == 0 then (db, t)
    else
      var (db', t') := Tries(db, b, oracle, t, n - 1);
      var r := Attempt(db', b, 0, oracle, t');
      (r.0, r.2)
  }

  /** How the attempt after n others ends. */
  function TryError(db: Tables, b: Block, oracle: Oracle, t: nat, n: nat): Option<Outcome> {
    var (db', t') := Tries(db, b, oracle, t, n);
    Attempt(db', b, 0, oracle, t').1
  }

  /** blockWorker as the source tells it: n attempts lost to connection errors, at most three, and then one that
      ends the block: stored; already processed; failed; or, for worker 4 at its slot after a recovery, whatever one
      more attempt makes of it. A connection error ends the block only if it is the fourth in a row. */
  ghost predicate WorkerEnds(db: Tables, id: nat, b: Block, oracle: Oracle, t: nat, n: nat, db': Tables, v: Verdict, t': nat) {
    var e := TryError(db, b, oracle, t, n);
    && n <= 3
    && (forall i | 0 <= i < n :: LostConnection(TryError(db, b, oracle, t, i)))
    && (LostConnection(e) ==> n == 3)
    && if e.Some? && !e.value.dup && id == 4 && b.slot == 4492900 && e.value.recovers then
         (db', t') == Tries(db, b, oracle, t, n + 2)
         && v == if TryError(db, b, oracle, t, n + 1).None? then Succeeded else Failed
       else
         (db', t') == Tries(db, b, oracle, t, n + 1)
         && v == if e.None? then Succeeded else if e.value.dup then Duplicate else Failed
  }

  ghost predicate LostConnection(e: Option<Outcome>) { e.Some? && e.value.Abort? && e.value.conn }

  /** A health check before the header that fails: nothing is stored. */
  ghost predicate FailedCheck(o: Outcome) { o.Abort? && o.conn && !o.stored && !o.dup }

  lemma {:induction false} ChecksFail(db: Tables, b: Block, oracle: Oracle, t: nat, k: nat)
    requires forall i | t <= i < t + k :: FailedCheck(oracle(i))
    ensures Tries(db, b, oracle, t, k) == (db, t + k)
    ensures forall i | 0 <= i < k :: TryError(db, b, oracle, t, i) == Some(oracle(t + i))
  {
    if k > 0 { ChecksFail(db, b, oracle, t, k - 1); }
  }

  /** A worker survives up to three failed health checks in a row: if every unit of the block then commits, the block
      is stored as if nothing had happened. */
  lemma SurvivesFailedChecks(db: Tables, id: nat, b: Block, oracle: Oracle, t: nat, k: nat, n: nat, db': Tables, v: Verdict, t': nat)
    requires WorkerEnds(db, id, b, oracle, t, n, db', v, t') && k <= 3
    requires forall i | t <= i < t + k :: FailedCheck(oracle(i))
    requires forall i | t + k <= i <= t + k + |b.txs| :: oracle(i).Commit?
    ensures v == Succeeded && db' == StoreBlock(db, b) && t' == t + k + |b.txs| + 1
  {
    hide Attempt, StoreBlock, Tries, TryError, WorkerEnds;
    ChecksFail(db, b, oracle, t, k);
    UndisturbedAttempt(db, b, oracle, t + k);
    NextTry(db, b, oracle, t, k);
    EndsAfter(db, id, b, oracle, t, k, n, db', v, t');
  }

  lemma EndsAfter(db: Tables, id: nat, b: Block, oracle: Oracle, t: nat, k: nat, n: nat, db': Tables, v: Verdict, t': nat)
    requires WorkerEnds(db, id, b, oracle, t, n, db', v, t') && k <= 3 && TryError(db, b, oracle, t, k).None?
    requires forall i | 0 <= i < k :: LostConnection(TryError(db, b, oracle, t, i))
    ensures v == Succeeded && (db', t') == Tries(db, b, oracle, t, k + 1)
  {
    hide Tries, TryError;
    assert n == k;
  }

  /** ... and gives up after four. Unless it is worker 4 at its slot, nothing was stored then. */
  lemma FourFailedChecks(db: Tables, id: nat, b: Block, oracle: Oracle, t: nat, n: nat, db': Tables, v: Verdict, t': nat)
    requires WorkerEnds(db, id, b, oracle, t, n, db', v, t')
    requires forall i | t <= i < t + 4 :: FailedCheck(oracle(i))
    requires !(id == 4 && b.slot == 4492900)
    ensures v == Failed && db' == db && t' == t + 4
  {
    ChecksFail(db, b, oracle, t, 4);
    hide Attempt, Tries, TryError;
    assert forall i | 0 <= i < 4 :: LostConnection(TryError(db, b, oracle, t, i));
  }

  /** DELETE FROM epochs WHERE no > ? */
  function EpochsUpto<T>(epochs: map<nat, T>, maxEpoch: nat): map<nat, T> { map n | n in epochs && n <= maxEpoch :: epochs[n] }

  /** DELETE FROM rewards WHERE earned_epoch > ? */
  function RewardsUpto(rewards: Rewards.RewardTable, maxEpoch: nat): Rewards.RewardTable {
    map k | k in rewards && k.earned <= maxEpoch :: rewards[k]
  }

  /** The epochs table after the rollback handler: cleaned up only if the target block is stored. */
  function EpochsAfter<T>(db: Tables, epochs: map<nat, T>, p: Point): map<nat, T> {
    if Found(db, p) then EpochsUpto(epochs, db[BlockKey(p.hash)].epoch) else epochs
  }

  lemma NextTry(db: Tables, b: Block, oracle: Oracle, t: nat, n: nat)
    ensures var (db', t') := Tries(db, b, oracle, t, n);
            var r := Attempt(db', b, 0, oracle, t');
            Tries(db, b, oracle, t, n + 1) == (r.0, r.2) && TryError(db, b, oracle, t, n) == r.1
  {
    hide Attempt;
  }

  /** blockWorker's branches, in their order. */
  lemma Reaction(id: nat, b: Block, attempt: nat, err: Option<Outcome>)
    requires err.Some? ==> err.value.Abort?
    ensures err.Some? ==>
      OnError(id, b, attempt, err.value) ==
        if attempt == EXTRA then Done(Failed)
        else if err.value.conn && attempt < MAX_RETRIES then Continue(Busy(b, attempt + 1, 0))
        else if err.value.dup then Done(Duplicate)
        else if id == 4 && b.slot == 4492900 && err.value.recovers then Continue(Busy(b, EXTRA, 0))
        else Done(Failed)
  {}

  class Indexer {
    var rows: Tables
    var epochs: map<nat, int>                 // epoch number -> start time
    var adaPots: map<nat, nat>                // slot -> reserves
    var epochParams: set<nat>                 // epoch numbers
    var rewards: Rewards.RewardTable
    var blocksProcessed: nat
    var txsProcessed: nat
    var lastSlot: nat

    /** ProcessBlock: the header in one database transaction, then one for each transaction; a duplicate-key
        error of a transaction is passed over. */
    method ProcessBlock(b: Block, oracle: Oracle, t: nat) returns (err: Option<Outcome>, t': nat)
      modifies this`rows
      ensures (rows, err, t') == Attempt(old(rows), b, 0, oracle, t)
    {
      hide Rows;
      var o := oracle(t);
      t' := t + 1;
      if o.Stores() { rows := Apply(rows, Unit(b, 0)); }
      if o.Abort? { return Some(o), t'; }
      var idx := 0;
      while idx < |b.txs|
        invariant idx <= |b.txs|
        invariant Attempt(old(rows), b, 0, oracle, t) == Attempt(rows, b, idx + 1, oracle, t')
      {
        o := oracle(t');
        t' := t' + 1;
        if o.Stores() { rows := Apply(rows, Unit(b, idx + 1)); }
        if o.Abort? && !o.dup { return Some(o), t'; }
        idx := idx + 1;
      }
      err := None;
    }

    method UpdateSequentialStats(b: Block)
      modifies this`blocksProcessed, this`txsProcessed
      ensures blocksProcessed == old(blocksProcessed) + 1 && txsProcessed == old(txsProcessed) + |b.txs|
    {
      blocksProcessed := blocksProcessed + 1;
      txsProcessed := txsProcessed + |b.txs|;
    }

    /** The body of blockWorker for one dequeued block: the retry loop reaches exactly the tables and the verdict
        that the protocol's steps reach, and counts the block exactly when it succeeded. */
    method BlockWorker(id: nat, b: Block, oracle: Oracle, t: nat) returns (v: Verdict, ghost t': nat, ghost lost: nat)
      modifies this`rows, this`blocksProcessed, this`txsProcessed, this`lastSlot
      ensures WorkerEnds(old(rows), id, b, oracle, t, lost, rows, v, t')
      ensures (rows, v, t') == Drive(old(rows), id, Busy(b, 0, 0), oracle, t)
      ensures blocksProcessed == old(blocksProcessed) + (if v.Succeeded? then 1 else 0)
      ensures txsProcessed == old(txsProcessed) + (if v.Succeeded? then |b.txs| else 0)
      ensures lastSlot == if v.Failed? then old(lastSlot) else b.slot
    {
      hide Attempt, Drive, OnError, Rows;
      var attempt, at := 0, t;
      while attempt <= MAX_RETRIES
        invariant attempt <= MAX_RETRIES
        invariant Drive(old(rows), id, Busy(b, 0, 0), oracle, t) == Drive(rows, id, Busy(b, attempt, 0), oracle, at)
        invariant Tries(old(rows), b, oracle, t, attempt) == (rows, at)
        invariant forall i | 0 <= i < attempt :: LostConnection(TryError(old(rows), b, oracle, t, i))
        invariant blocksProcessed == old(blocksProcessed) && txsProcessed == old(txsProcessed) && lastSlot == old(lastSlot)
        decreases MAX_RETRIES - attempt
      {
        DriveIsAttempts(rows, id, b, attempt, 0, oracle, at);
        NextTry(old(rows), b, oracle, t, attempt);
        var err: Option<Outcome>;
        err, at := ProcessBlock(b, oracle, at);
        Reaction(id, b, attempt, err);
        lost := attempt;
        if err.None? {
          UpdateSequentialStats(b);
          lastSlot := b.slot;
          return Succeeded, at, lost;
        }
        if err.value.conn && attempt < MAX_RETRIES {
          attempt := attempt + 1;
          continue;
        }
        if err.value.dup {
          lastSlot := b.slot;
          return Duplicate, at, lost;
        }
        if id == 4 && b.slot == 4492900 && err.value.recovers {
          DriveIsAttempts(rows, id, b, EXTRA, 0, oracle, at);
          NextTry(old(rows), b, oracle, t, attempt + 1);
          err, at := ProcessBlock(b, oracle, at);
          Reaction(id, b, EXTRA, err);
          if err.None? {
            UpdateSequentialStats(b);
            lastSlot := b.slot;
            return Succeeded, at, lost;
          }
        }
        return Failed, at, lost;
      }
    }

    /** chainSyncRollBackwardHandler with performFullRollback and cleanupOrphanedData. */
    method RollBackwardHandler(p: Point)
      modifies this`rows, this`epochs, this`adaPots, this`epochParams, this`rewards
      ensures rows == RollBackward(old(rows), p)
      ensures epochs == EpochsAfter(old(rows), old(epochs), p)
      ensures Found(old(rows), p) ==>
        var e := old(rows)[BlockKey(p.hash)].epoch;
        && adaPots == (map s | s in old(adaPots) && s <= p.slot :: old(adaPots)[s])
        && epochParams == (set n | n in old(epochParams) && n <= e)
        && rewards == RewardsUpto(old(rewards), e)
      ensures !Found(old(rows), p) ==> unchanged(`adaPots, `epochParams, `rewards)
    {
      if Found(rows, p) {
        var target := rows[BlockKey(p.hash)];
        rows := DeleteAfter(rows, target.slot);
        CleanupOrphanedData(target.epoch, target.slot);
      } else if p.slot != 0 {
        rows := DeleteAfter(rows, p.slot);
      }
    }

    method CleanupOrphanedData(maxEpoch: nat, maxSlot: nat)
      modifies this`epochs, this`adaPots, this`epochParams, this`rewards
      ensures epochs == EpochsUpto(old(epochs), maxEpoch)
      ensures adaPots == (map s | s in old(adaPots) && s <= maxSlot :: old(adaPots)[s])
      ensures epochParams == (set n | n in old(epochParams) && n <= maxEpoch)
      ensures rewards == RewardsUpto(old(rewards), maxEpoch)
    {
      epochs := EpochsUpto(epochs, maxEpoch);
      adaPots := map s | s in adaPots && s <= maxSlot :: adaPots[s];
      epochParams := set n | n in epochParams && n <= maxEpoch;
      rewards := RewardsUpto(rewards, maxEpoch);
    }
  }

  lemma AttemptStep(db: Tables, b: Block, n: nat, oracle: Oracle, t: nat) returns (db': Tables)
    requires oracle(t).Commit? && n <= |b.txs|
    ensures Attempt(db, b, n, oracle, t) == Attempt(db', b, n + 1, oracle, t + 1)
    ensures StoreRange(db, b, n, |b.txs| + 1) == StoreRange(db', b, n + 1, |b.txs| + 1)
  {
    db' := Apply(db, Unit(b, n));
  }

  /** An undisturbed attempt stores exactly its block, with one database transaction for each unit. */
  lemma UndisturbedAttempt(db: Tables, b: Block, oracle: Oracle, t: nat)
    requires forall i | t <= i <= t + |b.txs| :: oracle(i).Commit?
    ensures Attempt(db, b, 0, oracle, t) == (StoreBlock(db, b), None, t + |b.txs| + 1)
  {
    hide Rows;
    var n, cur := 0, db;
    while n <= |b.txs|
      invariant n <= |b.txs| + 1
      invariant Attempt(db, b, 0, oracle, t) == Attempt(cur, b, n, oracle, t + n)
      invariant StoreRange(db, b, 0, |b.txs| + 1) == StoreRange(cur, b, n, |b.txs| + 1)
    {
      cur := AttemptStep(cur, b, n, oracle, t + n);
      n := n + 1;
    }
  }

  // ---- epochs across a rollback ----

  ghost predicate EraChain(chain: seq<Block>) {
    forall b | b in chain :: Slots.EraTyped(b.slot, b.blockType) && Slots.EpochFits(b.slot, b.blockType)
  }

  ghost function EpochOf(b: Block): nat { Slots.EpochForSlot(b.slot, b.blockType) }

  lemma TargetFound(chain: seq<Block>, db: Tables, units: set<Unit>, target: Block)
    requires UnitsOf(units, chain) && Holds(db, units) && Unit(target, 0) in units
    ensures Found(db, PointOf(target)) && db[BlockKey(target.hash)].epoch == EpochOf(target)
  {
    HoldsRow(db, units, Unit(target, 0), BlockKey(target.hash));
  }

  lemma KeptEpochs(chain: seq<Block>, units: set<Unit>, target: Block)
    requires EraChain(chain) && UnitsOf(units, chain) && Unit(target, 0) in units
    ensures forall u | u in Upto(units, target.slot) :: EpochOf(u.block) <= EpochOf(target)
  {
    assert InChain(Unit(target, 0), chain);
    forall u | u in Upto(units, target.slot) ensures EpochOf(u.block) <= EpochOf(target) {
      assert InChain(u, chain);
      Slots.EpochMonotone(u.block.slot, u.block.blockType, target.slot, target.blockType);
    }
  }

  /** No block row has a later epoch. */
  ghost predicate RowsUpto(db: Tables, epoch: nat) {
    forall k | k in db && k.BlockKey? && db[k].BlockRow? :: db[k].epoch <= epoch
  }

  lemma KeptRows(chain: seq<Block>, db: Tables, units: set<Unit>, epoch: nat)
    requires UnitsOf(units, chain) && Holds(db, units) && forall u | u in units :: EpochOf(u.block) <= epoch
    ensures RowsUpto(db, epoch)
  {
    forall k | k in db && k.BlockKey? && db[k].BlockRow? ensures db[k].epoch <= epoch {
      var u := RowOwner(db, units, k);
      RowsKeys(u, k);
    }
  }

  /** The epoch cleanup of a stored target: no block row that is kept has a later epoch than the target's row, so
      no kept block loses the epochs row of its epoch. */
  lemma CleanupKeepsEpochs<T>(chain: seq<Block>, db: Tables, units: set<Unit>, epochs: map<nat, T>, target: Block)
    requires ValidChain(chain) && EraChain(chain)
    requires UnitsOf(units, chain) && Holds(db, units) && HeadersFirst(units) && Unit(target, 0) in units
    ensures Found(db, PointOf(target)) && RowsUpto(RollBackward(db, PointOf(target)), db[BlockKey(target.hash)].epoch)
    ensures forall u | u in Upto(units, target.slot) && EpochOf(u.block) in epochs ::
              var after := EpochsAfter(db, epochs, PointOf(target));
              EpochOf(u.block) in after && after[EpochOf(u.block)] == epochs[EpochOf(u.block)]
  {
    TargetFound(chain, db, units, target);
    DeleteAfterHolds(chain, db, units, target.slot);
    KeptEpochs(chain, units, target);
    hide EraChain, ValidChain, Holds, DeleteAfter, EpochOf, RowsUpto, HeadersFirst;
    KeptRows(chain, DeleteAfter(db, target.slot), Upto(units, target.slot), EpochOf(target));
  }

  /** The blocks that write the epochs row of an epoch (isEpochBoundary and not Byron). */
  ghost predicate WritesEpoch(b: Block, epoch: nat) {
    b.blockType >= Slots.SHELLEY && Slots.IsEpochBoundary(b.slot, b.blockType) && EpochOf(b) == epoch
  }

  /** The epochs rows that the stored headers wrote. */
  ghost function WrittenEpochs(units: set<Unit>): set<nat> {
    set u | u in units && u.n == 0 && WritesEpoch(u.block, EpochOf(u.block)) :: EpochOf(u.block)
  }

  ghost predicate HeaderAt(units: set<Unit>, slot: nat) { exists u | u in units :: u.n == 0 && u.block.slot == slot }

  /** The target lies in the first part of its Shelley epoch, and the block at the epoch's flagged slot was stored. */
  ghost predicate LeavesStaleRow(units: set<Unit>, target: Block) {
    var e := EpochOf(target);
    e >= 208 && target.slot < Slots.FlaggedSlot(e) && HeaderAt(units, Slots.FlaggedSlot(e))
  }

  /** A stored header wrote the row of its Shelley epoch exactly if it is at the flagged slot. */
  lemma WriterAtFlag(chain: seq<Block>, b: Block)
    requires EraChain(chain) && b in chain
    ensures WritesEpoch(b, EpochOf(b)) ==> EpochOf(b) >= 208 && b.slot == Slots.FlaggedSlot(EpochOf(b))
    ensures forall e: nat | e >= 208 && b.slot == Slots.FlaggedSlot(e) :: EpochOf(b) == e && WritesEpoch(b, e)
  {
    if b.slot >= Slots.SHELLEY_START {
      forall e: nat | e >= 208 ensures WritesEpoch(b, e) <==> b.slot == Slots.FlaggedSlot(e) {
        Slots.OneFlaggedSlotPerEpoch(e, b.slot, b.blockType);
      }
      Slots.EpochMonotone(Slots.SHELLEY_START, Slots.SHELLEY, b.slot, b.blockType);
    }
  }

  /** An epoch written by a header above the target survives the cleanup only if it is the target's own. */
  lemma WriterAbove(chain: seq<Block>, target: Block, b: Block)
    requires EraChain(chain) && target in chain && b in chain
    ensures b.slot <= target.slot ==> EpochOf(b) <= EpochOf(target)
    ensures b.slot > target.slot ==> EpochOf(b) >= EpochOf(target)
  {
    if b.slot <= target.slot {
      Slots.EpochMonotone(b.slot, b.blockType, target.slot, target.blockType);
    } else {
      Slots.EpochMonotone(target.slot, target.blockType, b.slot, b.blockType);
    }
  }

  /** After a rollback to a stored target the epochs table holds exactly the rows written by the headers that are
      kept, unless the target lies before the flagged slot of its own epoch and the block there had been stored: the
      row of that epoch then stays behind without its block. */
  lemma EpochRowsAfterRollback<T>(chain: seq<Block>, db: Tables, units: set<Unit>, epochs: map<nat, T>, target: Block)
    requires EraChain(chain) && UnitsOf(units, chain) && Holds(db, units) && Unit(target, 0) in units
    requires epochs.Keys == WrittenEpochs(units)
    ensures EpochsAfter(db, epochs, PointOf(target)).Keys == WrittenEpochs(Upto(units, target.slot))
            <==> !LeavesStaleRow(units, target)
  {
    TargetFound(chain, db, units, target);
    hide Slots.EpochForSlot, Slots.FlaggedSlot, Slots.IsEpochBoundary, WritesEpoch, EraChain, Holds;
    assert InChain(Unit(target, 0), chain);
    forall u | u in units && u.n == 0
      ensures WritesEpoch(u.block, EpochOf(u.block)) ==> EpochOf(u.block) >= 208 && u.block.slot == Slots.FlaggedSlot(EpochOf(u.block))
      ensures forall e: nat | e >= 208 && u.block.slot == Slots.FlaggedSlot(e) :: EpochOf(u.block) == e && WritesEpoch(u.block, e)
      ensures u.block.slot <= target.slot ==> EpochOf(u.block) <= EpochOf(target)
      ensures u.block.slot > target.slot ==> EpochOf(u.block) >= EpochOf(target)
    {
      WriterAtFlag(chain, u.block);
      WriterAbove(chain, target, u.block);
    }
    StaleKeys(units, target);
  }

  lemma StaleKeys(units: set<Unit>, target: Block)
    requires forall u | u in units && u.n == 0 ::
      && (WritesEpoch(u.block, EpochOf(u.block)) ==>
            EpochOf(u.block) >= 208 && u.block.slot == Slots.FlaggedSlot(EpochOf(u.block)))
      && (forall e: nat | e >= 208 && u.block.slot == Slots.FlaggedSlot(e) :: EpochOf(u.block) == e && WritesEpoch(u.block, e))
      && (u.block.slot <= target.slot ==> EpochOf(u.block) <= EpochOf(target))
      && (u.block.slot > target.slot ==> EpochOf(u.block) >= EpochOf(target))
    ensures (set n | n in WrittenEpochs(units) && n <= EpochOf(target)) == WrittenEpochs(Upto(units, target.slot))
            <==> !LeavesStaleRow(units, target)
  {
    hide EpochOf, Slots.FlaggedSlot, WritesEpoch;
    var kept, e0 := WrittenEpochs(Upto(units, target.slot)), EpochOf(target);
    forall n | n in kept ensures n in WrittenEpochs(units) && n <= e0 {}
    if LeavesStaleRow(units, target) {
      var u :| u in units && u.n == 0 && u.block.slot == Slots.FlaggedSlot(e0);
      assert e0 in WrittenEpochs(units);
      forall v | v in Upto(units, target.slot) && v.n == 0 && WritesEpoch(v.block, EpochOf(v.block)) ensures EpochOf(v.block) != e0 {}
      assert e0 !in kept;
    } else {
      forall n | n in WrittenEpochs(units) && n <= e0 ensures n in kept {
        var u :| u in units && u.n == 0 && WritesEpoch(u.block, EpochOf(u.block)) && EpochOf(u.block) == n;
        assert u.block.slot > target.slot ==> HeaderAt(units, Slots.FlaggedSlot(e0));
      }
    }
  }

  /** A rollback to a point that is not stored cleans up nothing but the blocks: the epochs table is right exactly if
      every header that wrote a row is kept. */
  lemma EpochRowsAfterUnknownPoint<T>(chain: seq<Block>, db: Tables, units: set<Unit>, epochs: map<nat, T>, p: Point)
    requires ValidChain(chain) && EraChain(chain) && UnitsOf(units, chain) && !Found(db, p)
    requires epochs.Keys == WrittenEpochs(units)
    ensures EpochsAfter(db, epochs, p).Keys == WrittenEpochs(Upto(units, p.slot))
            <==> forall u | u in units && u.n == 0 && WritesEpoch(u.block, EpochOf(u.block)) :: u.block.slot <= p.slot
  {
    hide Slots.FlaggedSlot, EpochOf, WritesEpoch, ValidChain, EraChain;
    forall u, v | u in units && v in units && u.n == v.n == 0 && EpochOf(u.block) == EpochOf(v.block)
                  && WritesEpoch(u.block, EpochOf(u.block)) && WritesEpoch(v.block, EpochOf(v.block))
      ensures u.block.slot == v.block.slot
    {
      assert InChain(u, chain) && InChain(v, chain);
      WriterAtFlag(chain, u.block);
      WriterAtFlag(chain, v.block);
    }
    UnknownKeys(units, p.slot);
  }

  lemma UnknownKeys(units: set<Unit>, slot: nat)
    requires forall u, v | u in units && v in units && u.n == v.n == 0 && EpochOf(u.block) == EpochOf(v.block)
                           && WritesEpoch(u.block, EpochOf(u.block)) && WritesEpoch(v.block, EpochOf(v.block)) ::
               u.block.slot == v.block.slot
    ensures WrittenEpochs(units) == WrittenEpochs(Upto(units, slot))
            <==> forall u | u in units && u.n == 0 && WritesEpoch(u.block, EpochOf(u.block)) :: u.block.slot <= slot
  {
    hide EpochOf, WritesEpoch;
    if WrittenEpochs(units) == WrittenEpochs(Upto(units, slot)) {
      forall u | u in units && u.n == 0 && WritesEpoch(u.block, EpochOf(u.block)) ensures u.block.slot <= slot {
        assert EpochOf(u.block) in WrittenEpochs(units);
        var v :| v in Upto(units, slot) && v.n == 0 && WritesEpoch(v.block, EpochOf(v.block)) && EpochOf(v.block) == EpochOf(u.block);
      }
    }
  }

  /** The rewards that the boundary block `b` wrote were earned two epochs before its own. After a rollback below it
      to a stored target they are still there exactly if the block's epoch is at most two above the target's. */
  lemma RewardRowsAfterRollback(chain: seq<Block>, db: Tables, units: set<Unit>, rewards: Rewards.RewardTable,
                                target: Block, b: Block, k: Rewards.RewardKey)
    requires UnitsOf(units, chain) && Holds(db, units) && Unit(target, 0) in units
    requires k in rewards && EpochOf(b) == k.earned + 2
    ensures Found(db, PointOf(target))
    ensures k in RewardsUpto(rewards, db[BlockKey(target.hash)].epoch) <==> EpochOf(b) <= EpochOf(target) + 2
  {
    TargetFound(chain, db, units, target);
    hide Slots.EpochForSlot, Holds;
  }

  /** A chain for which that happens: an early block of epoch 208, rolled back to, and the block at the flagged
      slot of that epoch. */
  lemma StaleEpochRow<T>(epochs: map<nat, T>) returns (chain: seq<Block>)
    requires epochs.Keys == {208}
    ensures |chain| == 2 && ValidChain(chain) && EraChain(chain) && WrittenEpochs(AllUnits(chain)) == {208}
    ensures 208 in EpochsAfter(Clean(chain), epochs, PointOf(chain[0]))
    ensures 208 !in WrittenEpochs(Upto(AllUnits(chain), chain[0].slot))
  {
    var a, b := Block([0], 4492801, Slots.SHELLEY, []), Block([1], 4752000, Slots.SHELLEY, []);
    chain := [a, b];
    assert ValidChain(chain) && EraChain(chain) && EpochOf(a) == 208;
    WrittenByFlagged(a, b);
    assert a in chain && Unit(a, 0) in AllUnits(chain);
    hide ValidChain, EraChain, AllUnits, Clean, WrittenEpochs, EpochOf;
    CleanHolds(chain);
    TargetFound(chain, Clean(chain), AllUnits(chain), a);
  }

  lemma WrittenByFlagged(a: Block, b: Block)
    requires a == Block([0], 4492801, Slots.SHELLEY, []) && b == Block([1], 4752000, Slots.SHELLEY, [])
    ensures WrittenEpochs(AllUnits([a, b])) == {208} && 208 !in WrittenEpochs(Upto(AllUnits([a, b]), a.slot))
  {
    assert !WritesEpoch(a, EpochOf(a)) && WritesEpoch(b, 208) && EpochOf(b) == 208;
    hide Slots.EpochForSlot, WritesEpoch;
    var units := AllUnits([a, b]);
    assert b in [a, b] && Unit(b, 0) in units;
    forall u | u in units ensures u == Unit(a, 0) || u == Unit(b, 0) {}
    assert 208 in WrittenEpochs(units);
  }

  /** Epoch processing fires at most once per epoch, and only if the chain has a block at the flagged slot. */
  lemma EpochFiresOnce(chain: seq<Block>, epoch: nat)
    requires ValidChain(chain) && EraChain(chain) && epoch >= 208
    ensures forall b, c | b in chain && c in chain && WritesEpoch(b, epoch) && WritesEpoch(c, epoch) :: b == c
    ensures (exists b | b in chain :: WritesEpoch(b, epoch)) <==> exists b | b in chain :: b.slot == Slots.FlaggedSlot(epoch)
  {
    forall b | b in chain ensures WritesEpoch(b, epoch) <==> b.slot == Slots.FlaggedSlot(epoch) {
      if b.slot >= Slots.SHELLEY_START { Slots.OneFlaggedSlotPerEpoch(epoch, b.slot, b.blockType); }
    }
    forall b, c | b in chain && c in chain && WritesEpoch(b, epoch) && WritesEpoch(c, epoch) ensures b == c {
      SameSlotSameBlock(chain, b, c);
    }
  }
}
