/** Blocks as ChainSync delivers them, the rows they are stored as, and INSERT IGNORE on the keyed tables. */
module Chain {
  import opened Bytes
  import opened Maps
  import Slots

  type Hash = Bytes

  datatype OutRef = OutRef(tx: Hash, index: nat)
  datatype Asset = Asset(policy: Bytes, name: Bytes)
  datatype Output = Output(value: nat, assets: map<Asset, nat>)
  datatype Tx = Tx(hash: Hash, fee: nat, inputs: seq<OutRef>, outputs: seq<Output>)
  datatype Block = Block(hash: Hash, slot: nat, blockType: nat, txs: seq<Tx>)

  /** Primary keys of blocks, txes, tx_ins, tx_outs and ma_tx_outs. */
  datatype Key =
    | BlockKey(hash: Hash)
    | TxKey(tx: Hash)
    | InKey(tx: Hash, index: nat)
    | OutKey(tx: Hash, index: nat)
    | AssetKey(tx: Hash, index: nat, asset: Asset)

  datatype Row =
    | BlockRow(slot: nat, epoch: nat, time: int, txCount: nat)
    | TxRow(block: Hash, blockIndex: nat, fee: Option<nat>, outSum: Option<nat>)
    | InRow(spends: OutRef)
    | OutRow(value: nat)
    | AssetRow(quantity: nat)

  type Tables = map<Key, Row>

  /** One database transaction of ProcessBlock: 0 stores the header, n stores the n-th transaction. */
  datatype Unit = Unit(block: Block, n: nat)

  function OutSum(outputs: seq<Output>): nat {
    if outputs == [] then 0 else outputs[0].value + OutSum(outputs[1..])
  }

  /** The tables named by a transaction's hash: its row, its inputs, its outputs and their assets. */
  function TxRowOf(b: Block, index: nat): Row
    requires index < |b.txs|
  {
    var t := b.txs[index];
    TxRow(b.hash, index, if t.fee > 0 then Some(t.fee) else None,
          if |t.outputs| > 0 then Some(OutSum(t.outputs)) else None)
  }

  function InRows(t: Tx): Tables {
    map i | 0 <= i < |t.inputs| :: InKey(t.hash, i) := InRow(t.inputs[i])
  }

  function OutRows(t: Tx): Tables {
    map i | 0 <= i < |t.outputs| :: OutKey(t.hash, i) := OutRow(t.outputs[i].value)
  }

  function AssetRows(t: Tx): Tables {
    map i: nat, a | 0 <= i < |t.outputs| && a in t.outputs[i].assets ::
      AssetKey(t.hash, i, a) := AssetRow(t.outputs[i].assets[a])
  }

  function TxRows(b: Block, index: nat): Tables
    requires index < |b.txs|
  {
    var t := b.txs[index];
    map[TxKey(t.hash) := TxRowOf(b, index)] + InRows(t) + OutRows(t) + AssetRows(t)
  }

  /** The rows one unit writes. */
  function Rows(u: Unit): Tables
    requires u.n <= |u.block.txs|
  {
    var b := u.block;
    if u.n == 0 then
      map[BlockKey(b.hash) := BlockRow(b.slot, Slots.EpochForSlot(b.slot, b.blockType),
                                       Slots.BlockTime(b.slot, b.blockType), |b.txs|)]
    else
      TxRows(b, u.n - 1)
  }

  /** Another block already holds the slot: blocks.slot_no is unique. */
  predicate SlotTaken(db: Tables, slot: nat) {
    exists k | k in db :: k.BlockKey? && db[k].BlockRow? && db[k].slot == slot
  }

  /** FastCreate and FastCreateInBatches: INSERT IGNORE keeps every row that is already there. */
  function InsertIgnore(db: Tables, rows: Tables): Tables { rows + db }

  /** The committed effect of one unit. A header whose slot is taken is ignored as a whole. */
  function Apply(db: Tables, u: Unit): Tables
    requires u.n <= |u.block.txs|
  {
    if u.n == 0 && SlotTaken(db, u.block.slot) then db else InsertIgnore(db, Rows(u))
  }

  /** Chain order: strictly increasing slots, distinct block and transaction hashes. */
  ghost predicate ValidChain(chain: seq<Block>) {
    && (forall i, j | 0 <= i < j < |chain| :: chain[i].slot < chain[j].slot)
    && (forall b, c | b in chain && c in chain && b.hash == c.hash :: b == c)
    && (forall u, v | TxUnit(u, chain) && TxUnit(v, chain) && UnitTx(u).hash == UnitTx(v).hash :: u == v)
  }

  ghost predicate InChain(u: Unit, chain: seq<Block>) { u.block in chain && u.n <= |u.block.txs| }

  ghost predicate TxUnit(u: Unit, chain: seq<Block>) { InChain(u, chain) && u.n > 0 }

  ghost function UnitTx(u: Unit): Tx
    requires 0 < u.n <= |u.block.txs|
  { u.block.txs[u.n - 1] }

  ghost function Parts(units: set<Unit>): set<Tables>
    requires forall u | u in units :: u.n <= |u.block.txs|
  { set u | u in units :: Rows(u) }

  /** The tables hold exactly the rows of the units in `units`. */
  ghost predicate Holds(db: Tables, units: set<Unit>)
    requires forall u | u in units :: u.n <= |u.block.txs|
  { UnionOf(db, Parts(units)) }

  ghost predicate UnitsOf(units: set<Unit>, chain: seq<Block>) { forall u | u in units :: InChain(u, chain) }

  lemma TxRowsKeys(b: Block, index: nat, k: Key)
    requires index < |b.txs| && k in TxRows(b, index)
    ensures !k.BlockKey? && k.tx == b.txs[index].hash && !TxRows(b, index)[k].BlockRow?
    ensures k.TxKey? ==> TxRows(b, index)[k] == TxRowOf(b, index)
  {
    var t := b.txs[index];
    if k in AssetRows(t) {
    } else if k in OutRows(t) {
    } else if k in InRows(t) {
    }
  }

  /** The hash a key belongs to tells the unit that writes it. */
  lemma RowsKeys(u: Unit, k: Key)
    requires u.n <= |u.block.txs| && k in Rows(u)
    ensures k.BlockKey? <==> u.n == 0
    ensures k.BlockKey? ==> k.hash == u.block.hash
    ensures !k.BlockKey? ==> k.tx == UnitTx(u).hash
    ensures Rows(u)[k].BlockRow? <==> k.BlockKey?
    ensures k.TxKey? ==> Rows(u)[k] == TxRowOf(u.block, u.n - 1)
  {
    if u.n > 0 { TxRowsKeys(u.block, u.n - 1, k); }
  }

  /** On a valid chain no two units write the same key. */
  lemma OneWriter(chain: seq<Block>, u: Unit, v: Unit, k: Key)
    requires ValidChain(chain) && InChain(u, chain) && InChain(v, chain)
    requires k in Rows(u) && k in Rows(v)
    ensures u == v
  {
    RowsKeys(u, k);
    RowsKeys(v, k);
  }

  lemma SameSlotSameBlock(chain: seq<Block>, b: Block, c: Block)
    requires ValidChain(chain) && b in chain && c in chain && b.slot == c.slot
    ensures b == c
  {
    var i :| 0 <= i < |chain| && chain[i] == b;
    var j :| 0 <= j < |chain| && chain[j] == c;
  }

  lemma HoldsRow(db: Tables, units: set<Unit>, u: Unit, k: Key)
    requires forall u | u in units :: u.n <= |u.block.txs|
    requires Holds(db, units) && u in units && k in Rows(u)
    ensures k in db && db[k] == Rows(u)[k]
  {
    assert Rows(u) in Parts(units);
  }

  lemma RowOwner(db: Tables, units: set<Unit>, k: Key) returns (u: Unit)
    requires forall u | u in units :: u.n <= |u.block.txs|
    requires Holds(db, units) && k in db
    ensures u in units && k in Rows(u) && db[k] == Rows(u)[k]
  {
    var p :| p in Parts(units) && k in p;
    u :| u in units && Rows(u) == p;
    HoldsRow(db, units, u, k);
  }

  /** A slot is taken only by the block itself, once its header is stored. */
  lemma SlotTakenByItself(chain: seq<Block>, db: Tables, units: set<Unit>, b: Block)
    requires ValidChain(chain) && UnitsOf(units, chain) && Holds(db, units) && b in chain
    ensures SlotTaken(db, b.slot) <==> Unit(b, 0) in units
  {
    if SlotTaken(db, b.slot) {
      var k :| k in db && k.BlockKey? && db[k].BlockRow? && db[k].slot == b.slot;
      var u := RowOwner(db, units, k);
      RowsKeys(u, k);
      SameSlotSameBlock(chain, u.block, b);
      assert u == Unit(b, 0);
    }
    if Unit(b, 0) in units {
      HoldsRow(db, units, Unit(b, 0), BlockKey(b.hash));
    }
  }

  lemma PartsAdd(units: set<Unit>, u: Unit)
    requires (forall v | v in units :: v.n <= |v.block.txs|) && u.n <= |u.block.txs|
    ensures Parts(units + {u}) == Parts(units) + {Rows(u)}
  {}

  lemma StoredRowsAgree(chain: seq<Block>, units: set<Unit>, u: Unit, q: Tables, k: Key)
    requires ValidChain(chain) && UnitsOf(units, chain) && InChain(u, chain)
    requires q in Parts(units) && k in q && k in Rows(u)
    ensures q[k] == Rows(u)[k]
  {
    var v :| v in units && Rows(v) == q;
    OneWriter(chain, u, v, k);
  }

  lemma InsertHolds(chain: seq<Block>, db: Tables, units: set<Unit>, u: Unit, rows: Tables)
    requires ValidChain(chain) && UnitsOf(units, chain) && Holds(db, units) && InChain(u, chain)
    requires rows == Rows(u)
    ensures Holds(InsertIgnore(db, rows), units + {u})
  {
    PartsAdd(units, u);
    var parts := Parts(units);
    forall q, k | q in parts && k in q && k in rows ensures q[k] == rows[k] {
      StoredRowsAgree(chain, units, u, q, k);
    }
    UnionAdd(db, parts, rows);
  }

  /** Committing a unit, once or again, adds exactly its rows. */
  lemma ApplyHolds(chain: seq<Block>, db: Tables, units: set<Unit>, u: Unit)
    requires ValidChain(chain) && UnitsOf(units, chain) && Holds(db, units) && InChain(u, chain)
    ensures Holds(Apply(db, u), units + {u})
  {
    hide Rows, Holds, ValidChain;
    if u.n == 0 && SlotTaken(db, u.block.slot) {
      SlotTakenByItself(chain, db, units, u.block);
      assert u == Unit(u.block, 0);
      assert units + {u} == units;
    } else {
      InsertHolds(chain, db, units, u, Rows(u));
    }
  }

  /** The headers of two blocks may be stored in either order exactly when they do not claim the same slot: a Byron
      boundary block and a main block that share a slot do not commute. */
  lemma HeadersCommute(db: Tables, b: Block, c: Block)
    requires BlockKey(b.hash) !in db && BlockKey(c.hash) !in db && b.hash != c.hash
    requires !SlotTaken(db, b.slot) && !SlotTaken(db, c.slot)
    ensures Apply(Apply(db, Unit(b, 0)), Unit(c, 0)) == Apply(Apply(db, Unit(c, 0)), Unit(b, 0)) <==> b.slot != c.slot
  {
    var x, y := Apply(db, Unit(b, 0)), Apply(db, Unit(c, 0));
    assert x[BlockKey(b.hash)].slot == b.slot && y[BlockKey(c.hash)].slot == c.slot;
    assert SlotTaken(x, b.slot) && SlotTaken(y, c.slot);
    if b.slot == c.slot {
      assert BlockKey(b.hash) !in y;
    } else {
      assert !SlotTaken(x, c.slot);
      assert !SlotTaken(y, b.slot);
      assert Rows(Unit(c, 0)) + (Rows(Unit(b, 0)) + db) == Rows(Unit(b, 0)) + (Rows(Unit(c, 0)) + db);
    }
  }
}
