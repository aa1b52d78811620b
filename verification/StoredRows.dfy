/** What the stored rows say about the chain (processBlockHeader, processTransaction and the loops over inputs and
    outputs in processors/block_processor.go). */
module StoredRows {
  import opened Bytes
  import opened Chain
  import opened Maps
  import opened Rollback
  import opened Utxo
  import Slots

  ghost predicate Storing(chain: seq<Block>, db: Tables, units: set<Unit>) {
    ValidChain(chain) && UnitsOf(units, chain) && Holds(db, units)
  }

  // ---- transactions ----

  /** The values of the output rows stored for a transaction. */
  function StoredOuts(db: Tables, h: Hash): Coins {
    map k | k in db && k.OutKey? && k.tx == h && db[k].OutRow? :: OutRef(k.tx, k.index) := db[k].value
  }

  /** Which keys a transaction writes, and the rows under them. */
  lemma WritesIn(b: Block, index: nat, i: nat)
    requires index < |b.txs|
    ensures var t, rows, k := b.txs[index], TxRows(b, index), InKey(b.txs[index].hash, i);
            (k in rows <==> i < |t.inputs|) && (k in rows ==> rows[k] == InRow(t.inputs[i]))
  {
    var k := InKey(b.txs[index].hash, i);
    assert k !in OutRows(b.txs[index]) && k !in AssetRows(b.txs[index]);
  }

  lemma WritesOut(b: Block, index: nat, i: nat)
    requires index < |b.txs|
    ensures var t, rows, k := b.txs[index], TxRows(b, index), OutKey(b.txs[index].hash, i);
            (k in rows <==> i < |t.outputs|) && (k in rows ==> rows[k] == OutRow(t.outputs[i].value))
  {
    var k := OutKey(b.txs[index].hash, i);
    assert k !in InRows(b.txs[index]) && k !in AssetRows(b.txs[index]);
  }

  lemma WritesAsset(b: Block, index: nat, i: nat, a: Asset)
    requires index < |b.txs|
    ensures var t, rows, k := b.txs[index], TxRows(b, index), AssetKey(b.txs[index].hash, i, a);
            && (k in rows <==> i < |t.outputs| && a in t.outputs[i].assets)
            && (k in rows ==> rows[k] == AssetRow(t.outputs[i].assets[a]))
  {
    var k := AssetKey(b.txs[index].hash, i, a);
    assert k !in InRows(b.txs[index]) && k !in OutRows(b.txs[index]);
  }

  lemma WritesTx(b: Block, index: nat)
    requires index < |b.txs|
    ensures TxKey(b.txs[index].hash) in TxRows(b, index)
  {}

  lemma InStore(chain: seq<Block>, db: Tables, units: set<Unit>, u: Unit)
    requires Storing(chain, db, units) && u in units
    ensures u.n <= |u.block.txs| && u.block in chain
  {
    assert InChain(u, chain);
  }

  /** A key named by a transaction's hash is stored exactly if the transaction writes it. */
  lemma StoredByTx(chain: seq<Block>, db: Tables, units: set<Unit>, u: Unit, k: Key)
    requires Storing(chain, db, units) && u in units && 0 < u.n <= |u.block.txs| && !k.BlockKey? && k.tx == UnitTx(u).hash
    ensures k in db <==> k in TxRows(u.block, u.n - 1)
    ensures k in db ==> db[k] == TxRows(u.block, u.n - 1)[k]
  {
    hide TxRows;
    assert TxUnit(u, chain);
    if k in db {
      var v := RowOwner(db, units, k);
      RowsKeys(v, k);
      assert TxUnit(v, chain) && UnitTx(v).hash == UnitTx(u).hash;
    }
    if k in TxRows(u.block, u.n - 1) { HoldsRow(db, units, u, k); }
  }

  /** The inputs, outputs and assets of a stored transaction are stored with their own values, and no others. */
  lemma StoredIn(chain: seq<Block>, db: Tables, units: set<Unit>, u: Unit, i: nat)
    requires Storing(chain, db, units) && u in units && 0 < u.n <= |u.block.txs|
    ensures var t, k := UnitTx(u), InKey(UnitTx(u).hash, i);
            (k in db <==> i < |t.inputs|) && (k in db ==> db[k] == InRow(t.inputs[i]))
  {
    hide Storing, TxRows;
    StoredByTx(chain, db, units, u, InKey(UnitTx(u).hash, i));
    WritesIn(u.block, u.n - 1, i);
  }

  lemma StoredOut(chain: seq<Block>, db: Tables, units: set<Unit>, u: Unit, i: nat)
    requires Storing(chain, db, units) && u in units && 0 < u.n <= |u.block.txs|
    ensures var t, k := UnitTx(u), OutKey(UnitTx(u).hash, i);
            (k in db <==> i < |t.outputs|) && (k in db ==> db[k] == OutRow(t.outputs[i].value))
  {
    hide Storing, TxRows;
    StoredByTx(chain, db, units, u, OutKey(UnitTx(u).hash, i));
    WritesOut(u.block, u.n - 1, i);
  }

  lemma StoredAsset(chain: seq<Block>, db: Tables, units: set<Unit>, u: Unit, i: nat, a: Asset)
    requires Storing(chain, db, units) && u in units && 0 < u.n <= |u.block.txs|
    ensures var t, k := UnitTx(u), AssetKey(UnitTx(u).hash, i, a);
            && (k in db <==> i < |t.outputs| && a in t.outputs[i].assets)
            && (k in db ==> db[k] == AssetRow(t.outputs[i].assets[a]))
  {
    hide Storing, TxRows;
    StoredByTx(chain, db, units, u, AssetKey(UnitTx(u).hash, i, a));
    WritesAsset(u.block, u.n - 1, i, a);
  }

  /** The output rows stored for a transaction are its outputs, and sum to their amounts. */
  lemma StoredOutsTotal(chain: seq<Block>, db: Tables, units: set<Unit>, u: Unit)
    requires Storing(chain, db, units) && u in units && 0 < u.n <= |u.block.txs|
    ensures StoredOuts(db, UnitTx(u).hash) == Outs(UnitTx(u))
    ensures Total(StoredOuts(db, UnitTx(u).hash)) == OutSum(UnitTx(u).outputs)
    ensures StoredOuts(db, UnitTx(u).hash) == map[] <==> UnitTx(u).outputs == []
  {
    hide Storing, Total, OutSum, OutsFrom;
    var t := UnitTx(u);
    OutsTotal(t, 0);
    AllOuts(t);
    forall i: nat ensures OutKey(t.hash, i) in db <==> i < |t.outputs|
                  ensures i < |t.outputs| ==> db[OutKey(t.hash, i)] == OutRow(t.outputs[i].value)
    {
      StoredOut(chain, db, units, u, i);
    }
    SameOuts(db, t);
    if t.outputs != [] { assert OutRef(t.hash, 0) in Outs(t); }
  }

  lemma SameOuts(db: Tables, t: Tx)
    requires forall i: nat :: OutKey(t.hash, i) in db <==> i < |t.outputs|
    requires forall i: nat | i < |t.outputs| :: db[OutKey(t.hash, i)] == OutRow(t.outputs[i].value)
    ensures StoredOuts(db, t.hash) == Outs(t)
  {
    var stored := StoredOuts(db, t.hash);
    forall r ensures r in stored <==> r in Outs(t) {
      if r in Outs(t) { assert OutKey(t.hash, r.index) in db; }
    }
    forall r | r in stored ensures stored[r] == Outs(t)[r] { assert OutKey(r.tx, r.index) in db; }
  }

  lemma AllOuts(t: Tx)
    ensures OutsFrom(t, 0) == Outs(t) && t.outputs[0..] == t.outputs
  {}

  /** The row of a stored transaction: its block and its place there; its fee, left out exactly if it is zero; and the
      sum of the output rows stored for it, left out exactly if there are none. */
  lemma StoredTxRow(chain: seq<Block>, db: Tables, units: set<Unit>, u: Unit)
    requires Storing(chain, db, units) && u in units && 0 < u.n <= |u.block.txs|
    ensures var t, k := UnitTx(u), TxKey(UnitTx(u).hash);
            && k in db && db[k].TxRow?
            && db[k].block == u.block.hash && db[k].blockIndex == u.n - 1
            && db[k].fee == (if t.fee == 0 then None else Some(t.fee))
            && db[k].outSum == (if StoredOuts(db, t.hash) == map[] then None else Some(Total(StoredOuts(db, t.hash))))
  {
    hide Storing, Total, OutSum, StoredOuts, Outs, TxRows, TxRowOf;
    StoredOutsTotal(chain, db, units, u);
    StoredTxRowOf(chain, db, units, u);
    TxRowFields(u.block, u.n - 1);
  }

  lemma StoredTxRowOf(chain: seq<Block>, db: Tables, units: set<Unit>, u: Unit)
    requires Storing(chain, db, units) && u in units && 0 < u.n <= |u.block.txs|
    ensures var k := TxKey(UnitTx(u).hash); k in db && db[k] == TxRowOf(u.block, u.n - 1)
  {
    hide Storing, TxRows, TxRowOf;
    var k := TxKey(UnitTx(u).hash);
    WritesTx(u.block, u.n - 1);
    TxRowsKeys(u.block, u.n - 1, k);
    StoredByTx(chain, db, units, u, k);
  }

  lemma TxRowFields(b: Block, index: nat)
    requires index < |b.txs|
    ensures var t, row := b.txs[index], TxRowOf(b, index);
            && row.TxRow? && row.block == b.hash && row.blockIndex == index
            && row.fee == (if t.fee == 0 then None else Some(t.fee))
            && row.outSum == (if t.outputs == [] then None else Some(OutSum(t.outputs)))
  {}

  // ---- headers ----

  /** The transactions that the stored rows place in a block. */
  function TxesOf(db: Tables, h: Hash): set<Hash> {
    set k | k in db && k.TxKey? && db[k].TxRow? && db[k].block == h :: k.tx
  }

  function HashesOf(txs: seq<Tx>): set<Hash> { set t | t in txs :: t.hash }

  lemma {:induction false} HashCount(txs: seq<Tx>)
    requires DistinctTxs(txs)
    ensures |HashesOf(txs)| == |txs|
  {
    if txs != [] {
      var n := |txs| - 1;
      HashCount(txs[..n]);
      assert HashesOf(txs) == HashesOf(txs[..n]) + {txs[n].hash} by { assert txs == txs[..n] + [txs[n]]; }
      assert txs[n].hash !in HashesOf(txs[..n]);
    }
  }

  lemma BlockTxsDistinct(chain: seq<Block>, b: Block)
    requires ValidChain(chain) && b in chain
    ensures DistinctTxs(b.txs)
  {
    forall i, j | 0 <= i < j < |b.txs| ensures b.txs[i].hash != b.txs[j].hash {
      assert TxUnit(Unit(b, i + 1), chain) && TxUnit(Unit(b, j + 1), chain);
    }
  }

  /** Transaction rows are placed only in their own blocks. */
  lemma PlacedInBlock(chain: seq<Block>, db: Tables, units: set<Unit>, b: Block, k: Key)
    requires Storing(chain, db, units) && b in chain
    requires k in db && k.TxKey? && db[k].TxRow? && db[k].block == b.hash
    ensures k.tx in HashesOf(b.txs)
  {
    var v := RowOwner(db, units, k);
    RowsKeys(v, k);
    assert InChain(v, chain) && v.block == b;
    assert UnitTx(v) in b.txs;
  }

  lemma PlacedTx(chain: seq<Block>, db: Tables, units: set<Unit>, b: Block, t: Tx)
    requires Storing(chain, db, units) && BlockUnits(b) <= units && t in b.txs
    ensures t.hash in TxesOf(db, b.hash)
  {
    hide Storing, StoredOuts, Total, BlockUnits;
    var i :| 0 <= i < |b.txs| && b.txs[i] == t;
    UnitOfBlock(b, i + 1);
    StoredTxRow(chain, db, units, Unit(b, i + 1));
    assert TxKey(t.hash) in db;
  }

  lemma UnitOfBlock(b: Block, n: nat)
    requires n <= |b.txs|
    ensures Unit(b, n) in BlockUnits(b)
  {}

  /** Once a block is stored completely, the rows placed in it are those of its transactions. */
  lemma CompleteBlock(chain: seq<Block>, db: Tables, units: set<Unit>, b: Block)
    requires Storing(chain, db, units) && b in chain && BlockUnits(b) <= units
    ensures TxesOf(db, b.hash) == HashesOf(b.txs) && |TxesOf(db, b.hash)| == |b.txs|
  {
    BlockTxsDistinct(chain, b);
    HashCount(b.txs);
    forall t | t in b.txs ensures t.hash in TxesOf(db, b.hash) { PlacedTx(chain, db, units, b, t); }
    hide Storing, DistinctTxs, BlockUnits;
    forall h | h in TxesOf(db, b.hash) ensures h in HashesOf(b.txs) {
      PlacedInBlock(chain, db, units, b, TxKey(h));
    }
  }

  /** The row of a stored header: the block's slot, its true epoch and time as far as they fit their types, and a
      count that is the number of transaction rows placed in the block once it is stored completely. */
  lemma StoredHeader(chain: seq<Block>, db: Tables, units: set<Unit>, b: Block)
    requires Storing(chain, db, units) && Unit(b, 0) in units
    ensures var k := BlockKey(b.hash);
            && k in db && db[k].BlockRow? && db[k].slot == b.slot
            && (Slots.EpochFits(b.slot, b.blockType) ==> db[k].epoch == Slots.TrueEpoch(b.slot, b.blockType))
            && (db[k].time == Slots.TrueTime(b.slot, b.blockType) <==> Slots.ClockFits(b.slot, b.blockType))
            && (BlockUnits(b) <= units ==> db[k].txCount == |TxesOf(db, b.hash)|)
  {
    HoldsRow(db, units, Unit(b, 0), BlockKey(b.hash));
    Slots.EpochModulo(b.slot, b.blockType);
    Slots.BlockTimeTrue(b.slot, b.blockType);
    assert InChain(Unit(b, 0), chain);
    if BlockUnits(b) <= units { CompleteBlock(chain, db, units, b); }
    hide Slots.EpochForSlot, Slots.BlockTime, Slots.TrueTime, Slots.TrueEpoch, Slots.EpochFits, Slots.ClockFits, TxesOf, Storing;
  }
}
