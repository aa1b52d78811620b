/** The unspent-output total and the pots of CalculateAdaPotsForEpoch (processors/ada_pots_calculator.go). */
module Utxo {
  import opened Bytes
  import opened Chain
  import opened Maps
  import opened Rollback
  import opened Ingest
  import opened IngestInvariant
  import opened IngestTheorems
  import opened Verdicts
  import Slots

  type Coins = map<OutRef, nat>

  // ---- the anti-join over the stored tables ----

  function SpentRefs(db: Tables): set<OutRef> {
    set k | k in db && k.InKey? && db[k].InRow? :: db[k].spends
  }

  /** tx_outs LEFT JOIN tx_ins ... WHERE tx_ins.tx_out_hash IS NULL. */
  function Unspent(db: Tables): Coins {
    map k | k in db && k.OutKey? && db[k].OutRow? && OutRef(k.tx, k.index) !in SpentRefs(db) ::
      OutRef(k.tx, k.index) := db[k].value
  }

  // ---- the ledger: apply transactions in chain order ----

  function Outs(t: Tx): Coins { map i: nat | 0 <= i < |t.outputs| :: OutRef(t.hash, i) := t.outputs[i].value }

  ghost function InputSet(t: Tx): set<OutRef> { set r | r in t.inputs }

  ghost function LedgerStep(coins: Coins, t: Tx): Coins { (coins - InputSet(t)) + Outs(t) }

  ghost function Ledger(ts: seq<Tx>): Coins {
    if ts == [] then map[] else LedgerStep(Ledger(ts[..|ts| - 1]), ts[|ts| - 1])
  }

  /** The transactions of a chain in order. */
  function TxsOf(chain: seq<Block>): seq<Tx> {
    if chain == [] then [] else TxsOf(chain[..|chain| - 1]) + chain[|chain| - 1].txs
  }

  ghost predicate SpentBy(ts: seq<Tx>, r: OutRef) { exists t | t in ts :: r in t.inputs }

  ghost predicate DistinctTxs(ts: seq<Tx>) { forall i, j | 0 <= i < j < |ts| :: ts[i].hash != ts[j].hash }

  /** No transaction spends an output of itself or of a later transaction. */
  ghost predicate Backward(ts: seq<Tx>) {
    forall i, j, r | 0 <= i <= j < |ts| && r in ts[i].inputs :: r.tx != ts[j].hash
  }

  ghost predicate CreatedBy(ts: seq<Tx>, r: OutRef) { exists t | t in ts :: r in Outs(t) }

  /** After a well-ordered list of transactions the ledger holds exactly the outputs created and not spent. */
  lemma {:induction false} LedgerMembers(ts: seq<Tx>)
    requires DistinctTxs(ts) && Backward(ts)
    ensures forall r :: r in Ledger(ts) <==> CreatedBy(ts, r) && !SpentBy(ts, r)
    ensures forall r, t | t in ts && r in Outs(t) && r in Ledger(ts) :: Ledger(ts)[r] == Outs(t)[r]
  {
    if ts != [] {
      var n := |ts| - 1;
      var init, last := ts[..n], ts[n];
      LedgerMembers(init);
      assert forall t :: t in ts <==> t in init || t == last;
      forall r ensures r in Ledger(ts) <==> CreatedBy(ts, r) && !SpentBy(ts, r) {
        if r in Outs(last) {
          assert forall i | 0 <= i < |ts| :: r !in ts[i].inputs;
        }
      }
      forall r, t | t in ts && r in Outs(t) && r in Ledger(ts) ensures Ledger(ts)[r] == Outs(t)[r] {
        var i :| 0 <= i < |ts| && ts[i] == t;
        if i < n { assert init[i] == t; }
      }
    }
  }

  // ---- the stored tables against the list of transactions ----

  lemma TxRowsOutIn(b: Block, index: nat, h: Hash, i: nat)
    requires index < |b.txs|
    ensures var t, rows := b.txs[index], TxRows(b, index);
            && (OutKey(h, i) in rows <==> h == t.hash && i < |t.outputs|)
            && (OutKey(h, i) in rows ==> rows[OutKey(h, i)] == OutRow(t.outputs[i].value))
            && (InKey(h, i) in rows <==> h == t.hash && i < |t.inputs|)
            && (InKey(h, i) in rows ==> rows[InKey(h, i)] == InRow(t.inputs[i]))
  {
    var t := b.txs[index];
    assert OutKey(h, i) !in AssetRows(t) && InKey(h, i) !in AssetRows(t);
    assert InKey(h, i) !in OutRows(t) && OutKey(h, i) !in InRows(t);
  }

  lemma {:induction false} TxsOfMembers(chain: seq<Block>, t: Tx)
    ensures t in TxsOf(chain) <==> exists b | b in chain :: t in b.txs
  {
    if chain != [] {
      var n := |chain| - 1;
      TxsOfMembers(chain[..n], t);
      assert forall b :: b in chain <==> b in chain[..n] || b == chain[n];
    }
  }

  lemma UnitOfTx(chain: seq<Block>, t: Tx) returns (u: Unit)
    requires t in TxsOf(chain)
    ensures TxUnit(u, chain) && UnitTx(u) == t && u in AllUnits(chain)
  {
    TxsOfMembers(chain, t);
    var b :| b in chain && t in b.txs;
    var i :| 0 <= i < |b.txs| && b.txs[i] == t;
    u := Unit(b, i + 1);
  }

  lemma TxOfUnit(chain: seq<Block>, u: Unit)
    requires TxUnit(u, chain)
    ensures UnitTx(u) in TxsOf(chain)
  {
    TxsOfMembers(chain, UnitTx(u));
  }

  lemma OutStored(chain: seq<Block>, db: Tables, t: Tx, i: nat)
    requires ValidChain(chain) && UnitsOf(AllUnits(chain), chain) && Holds(db, AllUnits(chain))
    requires t in TxsOf(chain) && i < |t.outputs|
    ensures OutKey(t.hash, i) in db && db[OutKey(t.hash, i)] == OutRow(t.outputs[i].value)
  {
    hide TxRows;
    var u := UnitOfTx(chain, t);
    TxRowsOutIn(u.block, u.n - 1, t.hash, i);
    HoldsRow(db, AllUnits(chain), u, OutKey(t.hash, i));
  }

  lemma InStored(chain: seq<Block>, db: Tables, t: Tx, i: nat)
    requires ValidChain(chain) && UnitsOf(AllUnits(chain), chain) && Holds(db, AllUnits(chain))
    requires t in TxsOf(chain) && i < |t.inputs|
    ensures InKey(t.hash, i) in db && db[InKey(t.hash, i)] == InRow(t.inputs[i])
  {
    hide TxRows;
    var u := UnitOfTx(chain, t);
    TxRowsOutIn(u.block, u.n - 1, t.hash, i);
    HoldsRow(db, AllUnits(chain), u, InKey(t.hash, i));
  }

  lemma TxRowOwner(chain: seq<Block>, db: Tables, k: Key) returns (u: Unit)
    requires UnitsOf(AllUnits(chain), chain) && Holds(db, AllUnits(chain))
    requires k in db && (k.OutKey? || k.InKey?)
    ensures TxUnit(u, chain) && k in TxRows(u.block, u.n - 1) && db[k] == TxRows(u.block, u.n - 1)[k]
  {
    hide TxRows;
    u := RowOwner(db, AllUnits(chain), k);
    RowsKeys(u, k);
  }

  lemma StoredTx(chain: seq<Block>, db: Tables, k: Key) returns (t: Tx)
    requires UnitsOf(AllUnits(chain), chain) && Holds(db, AllUnits(chain))
    requires k in db && (k.OutKey? || k.InKey?)
    ensures t in TxsOf(chain) && k.tx == t.hash
    ensures k.OutKey? ==> k.index < |t.outputs| && db[k] == OutRow(t.outputs[k.index].value)
    ensures k.InKey? ==> k.index < |t.inputs| && db[k] == InRow(t.inputs[k.index])
  {
    hide TxRows, Holds, TxsOf;
    var u := TxRowOwner(chain, db, k);
    TxOfUnit(chain, u);
    t := UnitTx(u);
    TxRowsOutIn(u.block, u.n - 1, k.tx, k.index);
    TxRowsKeys(u.block, u.n - 1, k);
  }

  lemma SpentStored(chain: seq<Block>, db: Tables, r: OutRef)
    requires ValidChain(chain) && UnitsOf(AllUnits(chain), chain) && Holds(db, AllUnits(chain))
    ensures r in SpentRefs(db) <==> SpentBy(TxsOf(chain), r)
  {
    if r in SpentRefs(db) {
      var k :| k in db && k.InKey? && db[k].InRow? && db[k].spends == r;
      var t := StoredTx(chain, db, k);
      assert t.inputs[k.index] == r;
    }
    if SpentBy(TxsOf(chain), r) {
      var t :| t in TxsOf(chain) && r in t.inputs;
      var i :| 0 <= i < |t.inputs| && t.inputs[i] == r;
      InStored(chain, db, t, i);
    }
  }

  lemma UnspentStored(chain: seq<Block>, db: Tables, r: OutRef)
    requires ValidChain(chain) && UnitsOf(AllUnits(chain), chain) && Holds(db, AllUnits(chain))
    ensures r in Unspent(db) <==> CreatedBy(TxsOf(chain), r) && !SpentBy(TxsOf(chain), r)
    ensures r in Unspent(db) ==> exists t | t in TxsOf(chain) :: r in Outs(t) && Unspent(db)[r] == Outs(t)[r]
  {
    SpentStored(chain, db, r);
    if r in Unspent(db) {
      var t := StoredTx(chain, db, OutKey(r.tx, r.index));
      assert r in Outs(t);
    }
    if CreatedBy(TxsOf(chain), r) {
      var t :| t in TxsOf(chain) && r in Outs(t);
      OutStored(chain, db, t, r.index);
    }
  }

  /** The anti-join over the stored rows is the ledger obtained by applying the transactions in chain order:
      whatever order the rows were stored in, the same outputs with the same values are left. */
  lemma AntiJoinIsLedger(chain: seq<Block>, db: Tables)
    requires ValidChain(chain) && UnitsOf(AllUnits(chain), chain) && Holds(db, AllUnits(chain))
    requires Backward(TxsOf(chain))
    ensures Unspent(db) == Ledger(TxsOf(chain))
  {
    hide *;
    var ts := TxsOf(chain);
    ChainTxsDistinct(chain);
    LedgerMembers(ts);
    forall r ensures r in Unspent(db) <==> r in Ledger(ts) { UnspentStored(chain, db, r); }
    forall r | r in Unspent(db) ensures Unspent(db)[r] == Ledger(ts)[r] {
      UnspentStored(chain, db, r);
      var t :| t in ts && r in Outs(t) && Unspent(db)[r] == Outs(t)[r];
    }
  }

  // ---- created minus spent ----

  ghost function ValueIn(coins: Coins, r: OutRef): nat { if r in coins then coins[r] else 0 }

  ghost function InputValue(coins: Coins, inputs: seq<OutRef>): nat {
    if inputs == [] then 0 else ValueIn(coins, inputs[0]) + InputValue(coins, inputs[1..])
  }

  /** All outputs ever created by the transactions, spent or not. */
  ghost function Created(ts: seq<Tx>): Coins {
    if ts == [] then map[] else Created(ts[..|ts| - 1]) + Outs(ts[|ts| - 1])
  }

  /** The chain-order fold: outputs created minus the value of the chain's own outputs that are spent. */
  ghost function Flow(ts: seq<Tx>): int {
    if ts == [] then 0 else
      var init, t := ts[..|ts| - 1], ts[|ts| - 1];
      Flow(init) + OutSum(t.outputs) - InputValue(Created(init), t.inputs)
  }

  ghost predicate NoRepeat(refs: seq<OutRef>) { forall i, j | 0 <= i < j < |refs| :: refs[i] != refs[j] }

  /** Each output is spent at most once. */
  ghost predicate SpentOnce(ts: seq<Tx>) {
    && (forall t | t in ts :: NoRepeat(t.inputs))
    && (forall i, j, r | 0 <= i < j < |ts| && r in ts[i].inputs :: r !in ts[j].inputs)
  }

  ghost function OutsFrom(t: Tx, n: nat): Coins {
    map i: nat | n <= i < |t.outputs| :: OutRef(t.hash, i) := t.outputs[i].value
  }

  lemma OutsFromStep(t: Tx, n: nat)
    requires n < |t.outputs|
    ensures OutRef(t.hash, n) in OutsFrom(t, n) && OutsFrom(t, n)[OutRef(t.hash, n)] == t.outputs[n].value
    ensures OutsFrom(t, n) - {OutRef(t.hash, n)} == OutsFrom(t, n + 1)
  {}

  lemma NoOuts(t: Tx)
    ensures Total(OutsFrom(t, |t.outputs|)) == 0 && OutSum(t.outputs[|t.outputs|..]) == 0
  {
    assert OutsFrom(t, |t.outputs|) == map[];
  }

  lemma {:induction false} OutsTotal(t: Tx, n: nat)
    requires n <= |t.outputs|
    ensures Total(OutsFrom(t, n)) == OutSum(t.outputs[n..])
    decreases |t.outputs| - n
  {
    hide Total, OutsFrom;
    if n == |t.outputs| {
      NoOuts(t);
    } else {
      OutsTotal(t, n + 1);
      OutsFromStep(t, n);
      TotalTakeOut(OutsFrom(t, n), OutRef(t.hash, n));
      assert t.outputs[n..][1..] == t.outputs[n + 1..];
    }
  }

  /** Spending distinct outputs removes exactly their values. */
  lemma {:induction false} SpendTotal(coins: Coins, inputs: seq<OutRef>)
    requires NoRepeat(inputs)
    ensures Total(coins) == Total(coins - (set r | r in inputs)) + InputValue(coins, inputs)
    decreases |inputs|
  {
    if inputs == [] {
      assert coins - (set r | r in inputs) == coins;
    } else {
      var r, rest := inputs[0], inputs[1..];
      SpendTotal(coins, rest);
      var left := coins - (set r | r in rest);
      assert coins - (set r | r in inputs) == left - {r};
      if r in coins {
        assert r in left;
        TotalTakeOut(left, r);
      } else {
        assert left - {r} == left;
      }
    }
  }

  lemma {:induction false} CreatedMembers(ts: seq<Tx>, r: OutRef)
    ensures r in Created(ts) <==> CreatedBy(ts, r)
  {
    if ts != [] {
      var n := |ts| - 1;
      CreatedMembers(ts[..n], r);
      assert forall t :: t in ts <==> t in ts[..n] || t == ts[n];
    }
  }

  lemma InitOrdered(ts: seq<Tx>)
    requires ts != [] && DistinctTxs(ts) && Backward(ts)
    ensures DistinctTxs(ts[..|ts| - 1]) && Backward(ts[..|ts| - 1])
  {}

  lemma {:induction false} CreatedValue(ts: seq<Tx>, r: OutRef)
    requires DistinctTxs(ts) && Backward(ts) && r in Ledger(ts)
    ensures r in Created(ts) && Created(ts)[r] == Ledger(ts)[r]
  {
    hide DistinctTxs, Backward;
    InitOrdered(ts);
    if r !in Outs(ts[|ts| - 1]) {
      CreatedValue(ts[..|ts| - 1], r);
    }
  }

  lemma {:induction false} SameInputValue(a: Coins, b: Coins, inputs: seq<OutRef>)
    requires forall r | r in inputs :: ValueIn(a, r) == ValueIn(b, r)
    ensures InputValue(a, inputs) == InputValue(b, inputs)
    decreases |inputs|
  {
    if inputs != [] { SameInputValue(a, b, inputs[1..]); }
  }

  /** The inputs of the next transaction have the same value in the ledger as among all outputs created. */
  lemma NextInputs(ts: seq<Tx>)
    requires ts != [] && DistinctTxs(ts) && Backward(ts) && SpentOnce(ts)
    ensures var n := |ts| - 1;
            InputValue(Ledger(ts[..n]), ts[n].inputs) == InputValue(Created(ts[..n]), ts[n].inputs)
  {
    var n := |ts| - 1;
    var init := ts[..n];
    forall r | r in ts[n].inputs ensures ValueIn(Ledger(init), r) == ValueIn(Created(init), r) {
      LedgerMembers(init);
      CreatedMembers(init, r);
      assert !SpentBy(init, r);
      if r in Ledger(init) { CreatedValue(init, r); }
    }
    SameInputValue(Ledger(init), Created(init), ts[n].inputs);
  }

  /** If each output is spent at most once, the coins left are worth what was created minus what was spent. */
  lemma {:induction false} LedgerTotal(ts: seq<Tx>)
    requires DistinctTxs(ts) && Backward(ts) && SpentOnce(ts)
    ensures Total(Ledger(ts)) == Flow(ts)
  {
    if ts != [] {
      var n := |ts| - 1;
      var init, t := ts[..n], ts[n];
      assert t in ts;
      LedgerTotal(init);
      NextInputs(ts);
      StepTotal(init, Ledger(init), t);
    }
  }

  lemma StepTotal(init: seq<Tx>, coins: Coins, t: Tx)
    requires coins == Ledger(init) && NoRepeat(t.inputs)
    requires DistinctTxs(init + [t]) && Backward(init + [t])
    ensures Total(LedgerStep(coins, t)) == Total(coins) - InputValue(coins, t.inputs) + OutSum(t.outputs)
  {
    NotYetCreated(init, t);
    hide Ledger, DistinctTxs, Backward;
    SpendTotal(coins, t.inputs);
    OutsTotal(t, 0);
    assert Outs(t) == OutsFrom(t, 0);
    assert t.outputs[0..] == t.outputs;
    TotalDisjoint(coins - InputSet(t), Outs(t));
  }

  lemma NotYetCreated(init: seq<Tx>, t: Tx)
    requires DistinctTxs(init + [t]) && Backward(init + [t])
    ensures Ledger(init).Keys !! Outs(t).Keys
  {
    assert (init + [t])[|init|] == t;
    assert forall i | 0 <= i < |init| :: (init + [t])[i] == init[i];
    LedgerMembers(init);
    forall r | r in Ledger(init) ensures r !in Outs(t) {
      var u :| u in init && r in Outs(u);
      var i :| 0 <= i < |init| && init[i] == u;
      assert (init + [t])[i].hash != (init + [t])[|init|].hash;
    }
  }

  lemma {:induction false} ChainTxsDistinct(chain: seq<Block>)
    requires ValidChain(chain)
    ensures DistinctTxs(TxsOf(chain))
  {
    if chain != [] {
      var n := |chain| - 1;
      var before, last := TxsOf(chain[..n]), chain[n];
      PrefixValid(chain, n);
      ChainTxsDistinct(chain[..n]);
      forall i, j | 0 <= i < j < |before + last.txs| ensures (before + last.txs)[i].hash != (before + last.txs)[j].hash {
        if |before| <= j {
          var v := Unit(last, j - |before| + 1);
          assert TxUnit(v, chain);
          if i < |before| {
            EarlierTx(chain, before[i], v);
          } else {
            assert TxUnit(Unit(last, i - |before| + 1), chain);
          }
        }
      }
    }
  }

  lemma EarlierTx(chain: seq<Block>, t: Tx, v: Unit)
    requires ValidChain(chain) && chain != [] && t in TxsOf(chain[..|chain| - 1])
    requires TxUnit(v, chain) && v.block == chain[|chain| - 1]
    ensures t.hash != UnitTx(v).hash
  {
    var n := |chain| - 1;
    var u := UnitOfTx(chain[..n], t);
    var i :| 0 <= i < n && chain[..n][i] == u.block;
    assert chain[i].slot < chain[n].slot;
    assert TxUnit(u, chain);
  }

  /** The unspent total of the stored tables is the chain-order fold of created minus spent. */
  lemma UnspentTotal(chain: seq<Block>, db: Tables)
    requires ValidChain(chain) && UnitsOf(AllUnits(chain), chain) && Holds(db, AllUnits(chain))
    requires Backward(TxsOf(chain)) && SpentOnce(TxsOf(chain))
    ensures Total(Unspent(db)) == Flow(TxsOf(chain))
  {
    ChainTxsDistinct(chain);
    AntiJoinIsLedger(chain, db);
    LedgerTotal(TxsOf(chain));
  }

  /** After any drained run that lost nothing, restarts included, the indexer's unspent total is that of the delivered
      chain. */
  lemma UnspentAfterIngestion(s: State)
    requires Reachable(s) && Quiet(s) && NothingLost(s)
    requires Backward(TxsOf(s.chain)) && SpentOnce(TxsOf(s.chain))
    ensures Total(Unspent(s.db)) == Flow(TxsOf(s.chain))
  {
    Confluence(s);
    ReachableInv(s);
    CleanHolds(s.chain);
    UnspentTotal(s.chain, s.db);
  }

  // ---- the pots ----

  const SUPPLY := 45_000_000_000_000_000
  const TWO_64 := 2 * Slots.TWO_63

  function Uint64(x: int): nat { x % TWO_64 }

  datatype Pots = Pots(epoch: nat, treasury: nat, reserves: nat, rewards: nat, utxo: nat, deposits: nat, fees: nat)

  /** SUM(fee) over the transactions of the blocks of an epoch. */
  function FeesOf(db: Tables, epoch: nat): map<Key, nat> {
    map k | k in db && k.TxKey? && db[k].TxRow? && db[k].fee.Some? && BlockKey(db[k].block) in db
            && db[BlockKey(db[k].block)].BlockRow? && db[BlockKey(db[k].block)].epoch == epoch :: db[k].fee.value
  }

  class AdaPotsCalculator {
    var pots: map<nat, Pots>     // by slot

    /** CalculateAdaPotsForEpoch. The totals are scanned into int64; deposits and withdrawn rewards are read from
        tables outside this model. */
    method CalculateAdaPotsForEpoch(db: Tables, deposits: nat, rewards: nat, epoch: nat, slot: nat) returns (ok: bool)
      modifies this
      ensures ok <==> Total(Unspent(db)) < Slots.TWO_63 && Total(FeesOf(db, epoch)) < Slots.TWO_63
                      && deposits < Slots.TWO_63 && rewards < Slots.TWO_63
      ensures !ok ==> pots == old(pots)
      ensures ok ==> pots == old(pots)[slot := PotsFor(Total(Unspent(db)), Total(FeesOf(db, epoch)), deposits, rewards, epoch)]
    {
      hide Unspent, FeesOf, Uint64, Slots.Int64, Total;
      var utxoTotal := SumColumn(Unspent(db));
      var feesTotal := SumColumn(FeesOf(db, epoch));
      if utxoTotal >= Slots.TWO_63 || feesTotal >= Slots.TWO_63 || deposits >= Slots.TWO_63 || rewards >= Slots.TWO_63 {
        return false;
      }
      var treasury := 0;
      if epoch >= 208 {
        treasury := Div100(Slots.Int64(feesTotal * 20));
      }
      var reserves := Slots.Int64(Slots.Int64(Slots.Int64(SUPPLY - utxoTotal) - treasury) - rewards);
      pots := pots[slot := Pots(epoch, Uint64(treasury), Uint64(reserves), Uint64(rewards), Uint64(utxoTotal),
                                Uint64(deposits), Uint64(feesTotal))];
      return true;
    }
  }

  /** Go's integer division truncates toward zero. */
  function Div100(x: int): int { if x >= 0 then x / 100 else -(-x / 100) }

  function Treasury(fees: nat, epoch: nat): int { if epoch >= 208 then Div100(Slots.Int64(fees * 20)) else 0 }

  /** The row stored for the given totals. */
  function PotsFor(utxo: nat, fees: nat, deposits: nat, rewards: nat, epoch: nat): Pots {
    var reserves := Slots.Int64(Slots.Int64(Slots.Int64(SUPPLY - utxo) - Treasury(fees, epoch)) - rewards);
    Pots(epoch, Uint64(Treasury(fees, epoch)), Uint64(reserves), Uint64(rewards), Uint64(utxo), Uint64(deposits), Uint64(fees))
  }

  lemma WrapsAway(x: int, y: int)
    ensures Uint64(Slots.Int64(x)) == Uint64(x)
    ensures Uint64(Slots.Int64(x) - y) == Uint64(x - y)
  {
    var q := Slots.Int64Wraps(x);
    Shift(x, -q);
    Shift(x - y, -q);
  }

  lemma Shift(x: int, q: int)
    ensures Uint64(x + q * TWO_64) == Uint64(x)
  {
    var a, r := x / TWO_64, x % TWO_64;
    assert x + q * TWO_64 == (a + q) * TWO_64 + r;
  }

  /** The four stored pots sum to exactly the supply of 45e15 lovelace if and only if the treasury did not turn
      negative and the unspent outputs, the treasury and the rewards together do not exceed the supply; otherwise
      the treasury or the reserves wrap around. The other columns are the totals themselves. */
  lemma PotsSumToSupply(utxo: nat, fees: nat, deposits: nat, rewards: nat, epoch: nat)
    requires utxo < Slots.TWO_63 && fees < Slots.TWO_63 && deposits < Slots.TWO_63 && rewards < Slots.TWO_63
    ensures var p := PotsFor(utxo, fees, deposits, rewards, epoch);
            && (p.treasury + p.reserves + p.rewards + p.utxo == SUPPLY
                <==> 0 <= Treasury(fees, epoch) && utxo + Treasury(fees, epoch) + rewards <= SUPPLY)
            && p.utxo == utxo && p.rewards == rewards && p.deposits == deposits && p.fees == fees
  {
    var t := Treasury(fees, epoch);
    TreasuryBounds(fees, epoch);
    ReservesModulo(SUPPLY - utxo, t, rewards);
    Exactly(SUPPLY - utxo - t - rewards);
    Exactly(t);
    Exactly(rewards);
    Exactly(utxo);
    Exactly(deposits);
    Exactly(fees);
    if t < 0 { NegativeWraps(t); }
    hide Uint64, Slots.Int64, Treasury;
  }

  /** Totals for which they do not: rewards of one lovelace beyond the supply. */
  lemma ReservesOverflow()
    ensures PotsFor(SUPPLY, 0, 0, 1, 0).reserves == TWO_64 - 1
    ensures var p := PotsFor(SUPPLY, 0, 0, 1, 0); p.treasury + p.reserves + p.rewards + p.utxo != SUPPLY
  {
    PotsSumToSupply(SUPPLY, 0, 0, 1, 0);
    ReservesModulo(SUPPLY - SUPPLY, 0, 1);
    NegativeWraps(-1);
    assert Treasury(0, 0) == 0;
    hide Uint64, Slots.Int64, Treasury;
  }

  /** ... and fees of 2^59 lovelace, which turn the treasury negative. */
  lemma TreasuryOverflow()
    ensures Treasury(0x800_0000_0000_0000, 208) < 0
    ensures var p := PotsFor(0, 0x800_0000_0000_0000, 0, 0, 208); p.treasury + p.reserves + p.rewards + p.utxo != SUPPLY
  {
    assert Slots.Int64(0x800_0000_0000_0000 * 20) == -0x6000_0000_0000_0000;
    assert Treasury(0x800_0000_0000_0000, 208) < 0;
    hide Uint64, Slots.Int64, Treasury, PotsFor;
    PotsSumToSupply(0, 0x800_0000_0000_0000, 0, 0, 208);
  }

  lemma NegativeWraps(x: int)
    requires -TWO_64 <= x < 0
    ensures Uint64(x) == x + TWO_64
  {
    Shift(x, 1);
  }

  lemma TreasuryBounds(fees: nat, epoch: nat)
    ensures -Slots.TWO_63 / 100 - 1 <= Treasury(fees, epoch) < Slots.TWO_63
  {
    var _ := Slots.Int64Wraps(fees * 20);
    hide Slots.Int64;
  }

  lemma Exactly(x: int)
    requires x < TWO_64
    ensures Uint64(x) == x <==> x >= 0
  {}

  lemma ReservesModulo(a: int, t: int, r: int)
    ensures Uint64(Slots.Int64(Slots.Int64(Slots.Int64(a) - t) - r)) == Uint64(a - t - r)
  {
    WrapsAway(a, t + r);
    WrapsAway(Slots.Int64(a) - t, r);
    WrapsAway(Slots.Int64(Slots.Int64(a) - t) - r, 0);
    hide Uint64, Slots.Int64;
    assert Slots.Int64(a) - t - r == Slots.Int64(a) - (t + r);
  }
}
