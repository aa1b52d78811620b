/** The ingestion protocol of main.go as a state machine: ChainSync feeds a FIFO queue, eight workers take
    one block each and run ProcessBlock with retries, a rollback may come in whenever nothing is in flight, and the
    program may crash and restart at any moment. */
module Ingest {
  import opened Chain
  import opened Maps
  import opened Rollback

  const WORKERS := 8
  const QUEUE_CAPACITY := 10000
  const MAX_RETRIES := 3

  /** The first 20 slots count as no progress when the program restarts. */
  const SAFETY_MARGIN := 20

  /** The attempt that worker 4 gets after a forced connection recovery. */
  const EXTRA := 4

  /** How one database transaction (with its own internal retries) ends. An error is known only by what its
      text contains; `recovers` says whether a forced connection recovery would succeed, `stored` whether an attempt
      was committed all the same and only its acknowledgement got lost. */
  datatype Outcome = Commit | Abort(conn: bool, dup: bool, recovers: bool, stored: bool) {
    predicate Stores() { Commit? || stored }
  }

  /** A worker's block, its attempt number and the next unit of the block to store. */
  datatype Worker = Idle | Busy(block: Block, attempt: nat, next: nat)

  datatype Verdict = Succeeded | Duplicate | Failed
  datatype Progress = Continue(worker: Worker) | Done(verdict: Verdict)

  /** blockWorker, after ProcessBlock returned an error. */
  function OnError(id: nat, b: Block, attempt: nat, o: Outcome): Progress
    requires o.Abort?
  {
    if attempt == EXTRA then Done(Failed)
    else if o.conn && attempt < MAX_RETRIES then Continue(Busy(b, attempt + 1, 0))
    else if o.dup then Done(Duplicate)
    else if id == 4 && b.slot == 4492900 && o.recovers then Continue(Busy(b, EXTRA, 0))
    else Done(Failed)
  }

  /** One database transaction of a busy worker: a duplicate-key error in a transaction (not in the header)
      is skipped over. */
  function Advance(id: nat, w: Worker, o: Outcome): Progress
    requires w.Busy?
  {
    if o.Commit? || (w.next > 0 && o.dup) then
      if w.next >= |w.block.txs| then Done(Succeeded) else Continue(w.(next := w.next + 1))
    else OnError(id, w.block, w.attempt, o)
  }

  datatype State = State(
    chain: seq<Block>,        // delivered and not rolled back
    queue: seq<Block>,
    workers: seq<Worker>,
    db: Tables,
    blocksProcessed: nat,
    txsProcessed: nat,
    lastSlot: nat,
    // history
    succeeded: set<Block>,
    duplicates: set<Block>,
    failed: set<Block>,
    committed: set<Unit>,     // database transactions committed
    skipped: set<Unit>)       // transactions passed over as duplicates

  datatype Label =
    | Enqueue(block: Block)
    | Dequeue(id: nat)
    | Work(id: nat, outcome: Outcome)
    | RollBack(point: Point)
    | Restart(point: Point)

  ghost predicate Init(s: State) {
    && s.chain == [] && s.queue == [] && s.db == map[] && s.blocksProcessed == 0
    && s.workers == seq(WORKERS, _ => Idle)
    && s.succeeded == {} && s.duplicates == {} && s.failed == {} && s.committed == {} && s.skipped == {}
  }

  ghost predicate Quiet(s: State) { s.queue == [] && forall w | w in s.workers :: w.Idle? }

  /** A connection error that blockWorker recognises can only come from the health check that precedes the
      header: inside a transaction RetryTransaction keeps it (Retry.WorkerNeverRetries). */
  ghost predicate Possible(w: Worker, o: Outcome)
    requires w.Busy?
  {
    o.Abort? && o.conn ==> w.next == 0 && !o.stored
  }

  /** The answer of buildIntersectionPoints when something is stored beyond the margin: the highest stored block. */
  ghost predicate HighestStored(db: Tables, p: Point) { Found(db, p) && p.slot > SAFETY_MARGIN && NothingAbove(db, p.slot) }

  ghost predicate Enabled(s: State, l: Label) {
    match l
    case Enqueue(b) => |s.queue| < QUEUE_CAPACITY && ValidChain(s.chain + [b])
    case Dequeue(id) => id < |s.workers| && s.workers[id].Idle? && s.queue != []
    case Work(id, o) =>
      && id < |s.workers| && s.workers[id].Busy? && s.workers[id].next <= |s.workers[id].block.txs|
      && Possible(s.workers[id], o)
    case RollBack(p) => Quiet(s) && (Found(s.db, p) || p.slot > 0 || NothingAbove(s.db, 0))
    case Restart(p) => HighestStored(s.db, p)
  }

  ghost function Finish(s: State, b: Block, v: Verdict): State {
    match v
    case Succeeded => s.(succeeded := s.succeeded + {b}, blocksProcessed := s.blocksProcessed + 1,
                         txsProcessed := s.txsProcessed + |b.txs|, lastSlot := b.slot)
    case Duplicate => s.(duplicates := s.duplicates + {b}, lastSlot := b.slot)
    case Failed => s.(failed := s.failed + {b})
  }

  ghost function Store(s: State, u: Unit, o: Outcome): State
    requires u.n <= |u.block.txs|
  {
    if o.Stores() then s.(db := Apply(s.db, u), committed := s.committed + {u})
    else if u.n > 0 && o.dup then s.(skipped := s.skipped + {u})
    else s
  }

  ghost function WorkStep(s: State, id: nat, o: Outcome): State
    requires id < |s.workers| && s.workers[id].Busy? && s.workers[id].next <= |s.workers[id].block.txs|
  {
    var w := s.workers[id];
    var s' := Store(s, Unit(w.block, w.next), o);
    match Advance(id, w, o)
    case Continue(w') => s'.(workers := s.workers[id := w'])
    case Done(v) => Finish(s'.(workers := s.workers[id := Idle]), w.block, v)
  }

  /** The blocks of the chain at or below a slot. */
  ghost function Keep(chain: seq<Block>, slot: nat): seq<Block> {
    if chain == [] then []
    else if chain[|chain| - 1].slot > slot then Keep(chain[..|chain| - 1], slot)
    else chain
  }

  ghost function BlocksUpto(blocks: set<Block>, slot: nat): set<Block> { set b | b in blocks && b.slot <= slot }

  ghost function RollBackStep(s: State, p: Point): State {
    s.(chain := Keep(s.chain, p.slot), db := RollBackward(s.db, p),
       succeeded := BlocksUpto(s.succeeded, p.slot), duplicates := BlocksUpto(s.duplicates, p.slot),
       failed := BlocksUpto(s.failed, p.slot),
       committed := Upto(s.committed, p.slot), skipped := Upto(s.skipped, p.slot))
  }

  /** The blocks that ChainSync will not deliver again and that no worker will take up again. */
  ghost function Abandoned(s: State, slot: nat): set<Block> {
    set b | b in Keep(s.chain, slot) && b !in s.succeeded && b !in s.duplicates
  }

  /** A crash, and the restart at the highest stored block: the queue, the workers and the counters are gone, the
      tables stay, and ChainSync goes on after the point. */
  ghost function RestartStep(s: State, p: Point): State {
    s.(chain := Keep(s.chain, p.slot), queue := [], workers := seq(WORKERS, _ => Idle),
       blocksProcessed := 0, txsProcessed := 0, lastSlot := 0,
       succeeded := BlocksUpto(s.succeeded, p.slot), duplicates := BlocksUpto(s.duplicates, p.slot),
       failed := Abandoned(s, p.slot),
       committed := Upto(s.committed, p.slot), skipped := Upto(s.skipped, p.slot))
  }

  ghost function Do(s: State, l: Label): State
    requires Enabled(s, l)
  {
    match l
    case Enqueue(b) => s.(chain := s.chain + [b], queue := s.queue + [b])
    case Dequeue(id) => s.(workers := s.workers[id := Busy(s.queue[0], 0, 0)], queue := s.queue[1..])
    case Work(id, o) => WorkStep(s, id, o)
    case RollBack(p) => RollBackStep(s, p)
    case Restart(p) => RestartStep(s, p)
  }

  /** A run: any interleaving of deliveries, worker steps, rollbacks and restarts. */
  ghost predicate Run(s: State, labels: seq<Label>, t: State)
    decreases |labels|
  {
    if labels == [] then t == s
    else Enabled(s, labels[0]) && Run(Do(s, labels[0]), labels[1..], t)
  }

  ghost predicate Reachable(s: State) { exists s0, labels :: Init(s0) && Run(s0, labels, s) }

  // ---- the invariant ----

  ghost function Dequeued(s: State): seq<Block>
    requires |s.queue| <= |s.chain|
  { s.chain[..|s.chain| - |s.queue|] }

  ghost predicate HeldBy(s: State, id: nat, b: Block) {
    id < |s.workers| && s.workers[id].Busy? && s.workers[id].block == b
  }

  ghost predicate Held(s: State, b: Block) { exists id :: HeldBy(s, id, b) }

  /** The queue is the next contiguous segment of the chain. */
  ghost predicate QueueInv(s: State) {
    && ValidChain(s.chain) && |s.workers| == WORKERS && |s.queue| <= QUEUE_CAPACITY
    && |s.queue| <= |s.chain| && s.queue == s.chain[|s.chain| - |s.queue|..]
  }

  /** The dequeued blocks are split, without overlap, into succeeded, duplicate, failed and held, and no two
      workers hold the same block. */
  ghost predicate PartitionInv(s: State)
    requires |s.queue| <= |s.chain|
  {
    && (forall b :: b in Dequeued(s) <==> b in s.succeeded || b in s.duplicates || b in s.failed || Held(s, b))
    && s.succeeded !! s.duplicates !! s.failed
    && (forall b | Held(s, b) :: b !in s.succeeded && b !in s.duplicates && b !in s.failed)
    && (forall i, j, b | HeldBy(s, i, b) && HeldBy(s, j, b) :: i == j)
  }

  ghost function Passed(s: State): set<Unit> { s.committed + s.skipped }

  ghost predicate PassedUpto(s: State, b: Block, n: nat) {
    && (forall m | 0 <= m < n :: Unit(b, m) in Passed(s))
    && (n > 0 ==> Unit(b, 0) in s.committed)
  }

  /** What was passed of each block is a prefix of its units, headed by a committed header; finished blocks
      were passed completely; the tables hold exactly the committed units. */
  ghost predicate StoreInv(s: State)
    requires |s.queue| <= |s.chain|
  {
    && UnitsOf(Passed(s), Dequeued(s))
    && (forall u | u in Passed(s) :: PassedUpto(s, u.block, u.n + 1))
    && Holds(s.db, s.committed)
  }

  ghost predicate WorkInv(s: State) {
    && (forall w | w in s.workers && w.Busy? :: w.attempt <= EXTRA && w.next <= |w.block.txs| && PassedUpto(s, w.block, w.next))
    && (forall b | b in s.succeeded :: PassedUpto(s, b, |b.txs| + 1))
  }

  ghost predicate Inv(s: State) { QueueInv(s) && PartitionInv(s) && StoreInv(s) && WorkInv(s) }
}
