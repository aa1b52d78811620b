/** The fees column of the ADA pots: the query over stored transactions joined with their blocks is the sum of the
    fees of an epoch in chain order (CalculateAdaPotsForEpoch in processors/ada_pots_calculator.go). */
module Fees {
  import opened Bytes
  import opened Chain
  import opened Maps
  import opened Rollback
  import opened Ingest
  import opened IngestInvariant
  import opened Verdicts
  import opened Utxo
  import opened StoredRows
  import Slots

  function FeeSum(txs: seq<Tx>): nat { if txs == [] then 0 else FeeSum(txs[..|txs| - 1]) + txs[|txs| - 1].fee }

  /** The fold in chain order: the fees of the blocks of an epoch. */
  function FeesInEpoch(chain: seq<Block>, epoch: nat): nat {
    if chain == [] then 0
    else
      var b := chain[|chain| - 1];
      FeesInEpoch(chain[..|chain| - 1], epoch) + if Slots.EpochForSlot(b.slot, b.blockType) == epoch then FeeSum(b.txs) else 0
  }

  /** The transactions of the blocks of an epoch, in chain order. */
  function EpochTxs(chain: seq<Block>, epoch: nat): seq<Tx> {
    if chain == [] then []
    else
      var b := chain[|chain| - 1];
      EpochTxs(chain[..|chain| - 1], epoch) + if Slots.EpochForSlot(b.slot, b.blockType) == epoch then b.txs else []
  }

  lemma {:induction false} FeeSumAppend(a: seq<Tx>, b: seq<Tx>)
    ensures FeeSum(a + b) == FeeSum(a) + FeeSum(b)
    decreases |b|
  {
    if b == [] {
      assert a + b == a;
    } else {
      FeeSumAppend(a, b[..|b| - 1]);
      assert (a + b)[..|a + b| - 1] == a + b[..|b| - 1];
    }
  }

  lemma {:induction false} FoldIsSum(chain: seq<Block>, epoch: nat)
    ensures FeesInEpoch(chain, epoch) == FeeSum(EpochTxs(chain, epoch))
  {
    if chain != [] {
      var n := |chain| - 1;
      FoldIsSum(chain[..n], epoch);
      FeeSumAppend(EpochTxs(chain[..n], epoch), chain[n].txs);
      FeeSumAppend(EpochTxs(chain[..n], epoch), []);
    }
  }

  ghost predicate InEpoch(chain: seq<Block>, epoch: nat, b: Block) {
    b in chain && Slots.EpochForSlot(b.slot, b.blockType) == epoch
  }

  lemma {:induction false} EpochTxsMembers(chain: seq<Block>, epoch: nat, t: Tx)
    ensures t in EpochTxs(chain, epoch) <==> exists b | b in chain :: InEpoch(chain, epoch, b) && t in b.txs
    ensures t in EpochTxs(chain, epoch) ==> t in TxsOf(chain)
  {
    hide Slots.EpochForSlot;
    if chain != [] {
      var n := |chain| - 1;
      EpochTxsMembers(chain[..n], epoch, t);
      assert forall b :: b in chain <==> b in chain[..n] || b == chain[n];
      assert forall b | b in chain[..n] :: InEpoch(chain, epoch, b) <==> InEpoch(chain[..n], epoch, b);
    }
  }

  lemma {:induction false} EpochTxsDistinct(chain: seq<Block>, epoch: nat)
    requires ValidChain(chain)
    ensures DistinctTxs(EpochTxs(chain, epoch))
  {
    hide Slots.EpochForSlot;
    if chain != [] {
      var n := |chain| - 1;
      var before, last := EpochTxs(chain[..n], epoch), chain[n];
      PrefixValid(chain, n);
      EpochTxsDistinct(chain[..n], epoch);
      BlockTxsDistinct(chain, last);
      forall t | t in before ensures t in TxsOf(chain[..n]) { EpochTxsMembers(chain[..n], epoch, t); }
      hide EpochTxs, TxsOf;
      forall i, j | 0 <= i < |before| && 0 <= j < |last.txs| ensures before[i].hash != last.txs[j].hash {
        assert TxUnit(Unit(last, j + 1), chain);
        EarlierTx(chain, before[i], Unit(last, j + 1));
      }
      hide ValidChain;
      DistinctAppend(before, last.txs);
      DistinctAppend(before, []);
    }
  }

  lemma DistinctAppend(a: seq<Tx>, b: seq<Tx>)
    requires DistinctTxs(a) && DistinctTxs(b)
    requires forall i, j | 0 <= i < |a| && 0 <= j < |b| :: a[i].hash != b[j].hash
    ensures DistinctTxs(a + b)
  {}

  // ---- the fees by transaction ----

  ghost function TxFees(ts: seq<Tx>): map<Key, nat> {
    if ts == [] then map[]
    else
      var t := ts[|ts| - 1];
      TxFees(ts[..|ts| - 1]) + if t.fee > 0 then map[TxKey(t.hash) := t.fee] else map[]
  }

  ghost predicate Entry<K>(m: map<K, nat>, k: K, v: nat) { k in m && m[k] == v }

  ghost predicate Pays(ts: seq<Tx>, k: Key, fee: nat) { exists t | t in ts :: t.fee > 0 && TxKey(t.hash) == k && t.fee == fee }

  lemma {:induction false} TxFeesExact(ts: seq<Tx>)
    requires DistinctTxs(ts)
    ensures forall k, fee: nat :: Entry(TxFees(ts), k, fee) <==> Pays(ts, k, fee)
    ensures Total(TxFees(ts)) == FeeSum(ts)
  {
    if ts != [] {
      var n := |ts| - 1;
      var init, t := ts[..n], ts[n];
      TxFeesExact(init);
      NewPayer(init, t);
      assert init + [t] == ts;
      hide DistinctTxs, Total;
      forall k, fee: nat ensures Pays(ts, k, fee) <==> Pays(init, k, fee) || (t.fee > 0 && TxKey(t.hash) == k && t.fee == fee) {
        assert forall u :: u in ts <==> u in init || u == t;
      }
      if t.fee > 0 {
        TotalInsert(TxFees(init), TxKey(t.hash), t.fee);
        assert TxFees(ts) == TxFees(init)[TxKey(t.hash) := t.fee];
      } else {
        assert TxFees(ts) == TxFees(init);
      }
    }
  }

  lemma HasEntry<K>(m: map<K, nat>, k: K)
    requires k in m
    ensures exists v: nat :: Entry(m, k, v)
  {
    assert Entry(m, k, m[k]);
  }

  lemma NewPayer(init: seq<Tx>, t: Tx)
    requires DistinctTxs(init + [t])
    requires forall k, fee: nat :: Entry(TxFees(init), k, fee) <==> Pays(init, k, fee)
    ensures TxKey(t.hash) !in TxFees(init)
  {
    var k := TxKey(t.hash);
    forall u | u in init ensures u.hash != t.hash {
      var i :| 0 <= i < |init| && init[i] == u;
      assert (init + [t])[i] == u && (init + [t])[|init|] == t;
    }
    assert forall fee: nat :: !Pays(init, k, fee) && !Entry(TxFees(init), k, fee);
    if k in TxFees(init) { HasEntry(TxFees(init), k); }
  }

  // ---- the query ----

  lemma BlockEpoch(chain: seq<Block>, db: Tables, b: Block)
    requires Storing(chain, db, AllUnits(chain)) && b in chain
    ensures var k := BlockKey(b.hash); k in db && db[k].BlockRow? && db[k].epoch == Slots.EpochForSlot(b.slot, b.blockType)
  {
    assert Unit(b, 0) in AllUnits(chain);
    HoldsRow(db, AllUnits(chain), Unit(b, 0), BlockKey(b.hash));
  }

  lemma TxOwner(chain: seq<Block>, db: Tables, k: Key) returns (u: Unit)
    requires Storing(chain, db, AllUnits(chain)) && k in db && k.TxKey?
    ensures TxUnit(u, chain) && k == TxKey(UnitTx(u).hash) && db[k] == TxRowOf(u.block, u.n - 1)
  {
    hide Rows, TxRowOf, ValidChain;
    u := RowOwner(db, AllUnits(chain), k);
    RowsKeys(u, k);
  }

  lemma QueriedFee(chain: seq<Block>, db: Tables, epoch: nat, k: Key)
    requires Storing(chain, db, AllUnits(chain)) && k in FeesOf(db, epoch)
    ensures Pays(EpochTxs(chain, epoch), k, FeesOf(db, epoch)[k])
  {
    hide Storing, TxRowOf, EpochTxs, Slots.EpochForSlot, OutSum;
    var u := TxOwner(chain, db, k);
    BlockEpoch(chain, db, u.block);
    TxRowFields(u.block, u.n - 1);
    assert InEpoch(chain, epoch, u.block) && UnitTx(u) in u.block.txs;
    EpochTxsMembers(chain, epoch, UnitTx(u));
  }

  lemma PaidFee(chain: seq<Block>, db: Tables, epoch: nat, k: Key, fee: nat)
    requires Storing(chain, db, AllUnits(chain)) && Pays(EpochTxs(chain, epoch), k, fee)
    ensures k in FeesOf(db, epoch) && FeesOf(db, epoch)[k] == fee
  {
    hide Storing, EpochTxs, Slots.EpochForSlot, StoredOuts, Total;
    var t :| t in EpochTxs(chain, epoch) && t.fee > 0 && TxKey(t.hash) == k && t.fee == fee;
    EpochTxsMembers(chain, epoch, t);
    var b :| b in chain && InEpoch(chain, epoch, b) && t in b.txs;
    var i :| 0 <= i < |b.txs| && b.txs[i] == t;
    assert Unit(b, i + 1) in AllUnits(chain);
    BlockEpoch(chain, db, b);
    StoredTxRow(chain, db, AllUnits(chain), Unit(b, i + 1));
  }

  /** The fees query over tables that hold a chain is the chain-order fold of the fees of the epoch's blocks. */
  lemma FeesTotal(chain: seq<Block>, db: Tables, epoch: nat)
    requires Storing(chain, db, AllUnits(chain))
    ensures Total(FeesOf(db, epoch)) == FeesInEpoch(chain, epoch)
  {
    var ts := EpochTxs(chain, epoch);
    EpochTxsDistinct(chain, epoch);
    TxFeesExact(ts);
    FoldIsSum(chain, epoch);
    hide EpochTxs, FeesInEpoch, FeeSum, FeesOf, TxFees, DistinctTxs, Total;
    forall k, fee: nat ensures Entry(FeesOf(db, epoch), k, fee) <==> Pays(ts, k, fee) {
      if Entry(FeesOf(db, epoch), k, fee) { QueriedFee(chain, db, epoch, k); }
      if Pays(ts, k, fee) { PaidFee(chain, db, epoch, k, fee); }
    }
    hide Storing, Pays, Entry;
    SameEntries(FeesOf(db, epoch), TxFees(ts));
  }

  lemma SameEntries<K>(m: map<K, nat>, n: map<K, nat>)
    requires forall k, v: nat :: Entry(m, k, v) <==> Entry(n, k, v)
    ensures m == n
  {
    forall k | k in m ensures k in n && n[k] == m[k] { assert Entry(m, k, m[k]); }
    forall k | k in n ensures k in m && n[k] == m[k] { assert Entry(n, k, n[k]); }
  }

  /** After any drained run that lost nothing, the fees of an epoch are those of the delivered chain. */
  lemma FeesAfterIngestion(s: State, epoch: nat)
    requires Reachable(s) && Quiet(s) && NothingLost(s)
    ensures Total(FeesOf(s.db, epoch)) == FeesInEpoch(s.chain, epoch)
  {
    Confluence(s);
    ReachableInv(s);
    CleanHolds(s.chain);
    assert Storing(s.chain, s.db, AllUnits(s.chain));
    hide *;
    FeesTotal(s.chain, s.db, epoch);
  }

  // ---- the treasury estimate ----

  /** From Shelley on the treasury gets a fifth of the fees, rounded down, as long as the product fits int64; before,
      it gets nothing. */
  lemma TreasuryIsFifth(fees: nat, epoch: nat)
    requires epoch >= 208 ==> 20 * fees < Slots.TWO_63
    ensures epoch < 208 ==> Treasury(fees, epoch) == 0
    ensures epoch >= 208 ==> 100 * Treasury(fees, epoch) <= 20 * fees < 100 * (Treasury(fees, epoch) + 1)
  {
    if epoch >= 208 { Slots.Int64Small(fees * 20); }
  }

  /** ... and it is what the stored row says, for its own epoch. */
  lemma StoredTreasury(utxo: nat, fees: nat, deposits: nat, rewards: nat, epoch: nat)
    requires epoch >= 208 ==> 20 * fees < Slots.TWO_63
    ensures var p := PotsFor(utxo, fees, deposits, rewards, epoch);
            p.epoch == epoch && if epoch < 208 then p.treasury == 0 else 100 * p.treasury <= 20 * fees < 100 * (p.treasury + 1)
  {
    TreasuryIsFifth(fees, epoch);
    Exactly(Treasury(fees, epoch));
    hide Uint64, Treasury, Slots.Int64;
  }
}
