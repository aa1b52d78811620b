/** Sequential storage of a chain, and the chainSyncRollBackwardHandler that undoes it (main.go). */
module Rollback {
  import opened Chain
  import opened Maps

  /** The database transactions n, n + 1, ..., end - 1 of ProcessBlock, all committed. */
  function StoreRange(db: Tables, b: Block, n: nat, end: nat): Tables
    requires end <= |b.txs| + 1
    decreases end - n
  {
    if n >= end then db else StoreRange(Apply(db, Unit(b, n)), b, n + 1, end)
  }

  /** ProcessBlock without any error: the header, then every transaction in order. */
  function StoreBlock(db: Tables, b: Block): Tables { StoreRange(db, b, 0, |b.txs| + 1) }

  /** One worker processing the chain in order. */
  function Clean(chain: seq<Block>): Tables {
    if chain == [] then map[] else
      var last := |chain| - 1;
      StoreBlock(Clean(chain[..last]), chain[last])
  }

  ghost function AllUnits(chain: seq<Block>): set<Unit> {
    set b, n: nat | b in chain && 0 <= n <= |b.txs| :: Unit(b, n)
  }

  ghost function UnitRange(b: Block, n: nat, end: nat): set<Unit> { set m: nat | n <= m < end :: Unit(b, m) }

  ghost function BlockUnits(b: Block): set<Unit> { UnitRange(b, 0, |b.txs| + 1) }

  lemma UnitRangeStep(units: set<Unit>, b: Block, n: nat, end: nat)
    ensures n < end ==> units + {Unit(b, n)} + UnitRange(b, n + 1, end) == units + UnitRange(b, n, end)
    ensures n >= end ==> units + UnitRange(b, n, end) == units
  {}

  lemma CommitNext(chain: seq<Block>, db: Tables, units: set<Unit>, b: Block, n: nat, end: nat) returns (db': Tables)
    requires ValidChain(chain) && UnitsOf(units, chain) && Holds(db, units) && b in chain && n < end <= |b.txs| + 1
    ensures UnitsOf(units + {Unit(b, n)}, chain) && Holds(db', units + {Unit(b, n)})
    ensures StoreRange(db, b, n, end) == StoreRange(db', b, n + 1, end)
  {
    db' := Apply(db, Unit(b, n));
    ApplyHolds(chain, db, units, Unit(b, n));
  }

  lemma {:induction false} StoreRangeStores(chain: seq<Block>, db: Tables, units: set<Unit>, b: Block, n: nat, end: nat, all: set<Unit>)
    requires ValidChain(chain) && UnitsOf(units, chain) && Holds(db, units) && b in chain && end <= |b.txs| + 1
    requires all == units + UnitRange(b, n, end)
    ensures UnitsOf(all, chain) && Holds(StoreRange(db, b, n, end), all)
    decreases end - n
  {
    UnitRangeStep(units, b, n, end);
    if n < end {
      var db' := CommitNext(chain, db, units, b, n, end);
      StoreRangeStores(chain, db', units + {Unit(b, n)}, b, n + 1, end, all);
    }
  }

  /** Running the database transactions n..end stores exactly their units, whatever was stored before. */
  lemma StoreRangeHolds(chain: seq<Block>, db: Tables, units: set<Unit>, b: Block, n: nat, end: nat)
    requires ValidChain(chain) && UnitsOf(units, chain) && Holds(db, units) && b in chain && end <= |b.txs| + 1
    ensures UnitsOf(units + UnitRange(b, n, end), chain)
    ensures Holds(StoreRange(db, b, n, end), units + UnitRange(b, n, end))
  {
    StoreRangeStores(chain, db, units, b, n, end, units + UnitRange(b, n, end));
  }

  lemma PrefixValid(chain: seq<Block>, n: nat)
    requires ValidChain(chain) && n <= |chain|
    ensures ValidChain(chain[..n])
  {
    forall u, v | TxUnit(u, chain[..n]) && TxUnit(v, chain[..n]) && UnitTx(u).hash == UnitTx(v).hash ensures u == v {
      assert TxUnit(u, chain) && TxUnit(v, chain);
    }
  }

  /** Processing in order stores exactly every unit of the chain. */
  lemma {:induction false} CleanHolds(chain: seq<Block>)
    requires ValidChain(chain)
    ensures UnitsOf(AllUnits(chain), chain)
    ensures Holds(Clean(chain), AllUnits(chain))
  {
    if chain != [] {
      var last := |chain| - 1;
      var init := chain[..last];
      PrefixValid(chain, last);
      CleanHolds(init);
      AllUnitsStep(chain);
      StoreRangeHolds(chain, Clean(init), AllUnits(init), chain[last], 0, |chain[last].txs| + 1);
    }
  }

  lemma AllUnitsStep(chain: seq<Block>)
    requires chain != []
    ensures AllUnits(chain[..|chain| - 1]) + BlockUnits(chain[|chain| - 1]) == AllUnits(chain)
    ensures UnitsOf(AllUnits(chain[..|chain| - 1]), chain)
  {
    assert forall b :: b in chain <==> b in chain[..|chain| - 1] || b == chain[|chain| - 1];
  }

  // ---- the rollback handler ----

  datatype Point = Point(slot: nat, hash: Hash)

  /** The target query: WHERE slot_no = ? AND hash = ?. */
  predicate Found(db: Tables, p: Point) {
    BlockKey(p.hash) in db && db[BlockKey(p.hash)].BlockRow? && db[BlockKey(p.hash)].slot == p.slot
  }

  function DeadBlocks(db: Tables, slot: nat): set<Hash> {
    set k | k in db && k.BlockKey? && db[k].BlockRow? && db[k].slot > slot :: k.hash
  }

  function DeadTxs(db: Tables, slot: nat): set<Hash> {
    set k | k in db && k.TxKey? && db[k].TxRow? && db[k].block in DeadBlocks(db, slot) :: k.tx
  }

  predicate Deleted(db: Tables, slot: nat, k: Key) {
    if k.BlockKey? then k.hash in DeadBlocks(db, slot) else k.tx in DeadTxs(db, slot)
  }

  /** DELETE FROM blocks WHERE slot_no > ?, cascading over the foreign keys. */
  function DeleteAfter(db: Tables, slot: nat): Tables {
    map k | k in db && !Deleted(db, slot, k) :: db[k]
  }

  /** The block and transaction tables after chainSyncRollBackwardHandler. */
  function RollBackward(db: Tables, p: Point): Tables {
    if Found(db, p) then DeleteAfter(db, p.slot)
    else if p.slot == 0 then db
    else DeleteAfter(db, p.slot)
  }

  /** Transactions are stored only after their block's header. */
  ghost predicate HeadersFirst(units: set<Unit>) { forall u | u in units :: Unit(u.block, 0) in units }

  ghost function Upto(units: set<Unit>, slot: nat): set<Unit> { set u | u in units && u.block.slot <= slot }

  lemma DeadBlock(chain: seq<Block>, db: Tables, units: set<Unit>, slot: nat, u: Unit)
    requires ValidChain(chain) && UnitsOf(units, chain) && Holds(db, units) && HeadersFirst(units) && u in units
    ensures u.block.hash in DeadBlocks(db, slot) <==> u.block.slot > slot
  {
    var h := BlockKey(u.block.hash);
    HoldsRow(db, units, Unit(u.block, 0), h);
  }

  lemma DeadTx(chain: seq<Block>, db: Tables, units: set<Unit>, slot: nat, u: Unit)
    requires ValidChain(chain) && UnitsOf(units, chain) && Holds(db, units) && HeadersFirst(units) && u in units
    requires u.n > 0
    ensures UnitTx(u).hash in DeadTxs(db, slot) <==> u.block.slot > slot
  {
    var t := TxKey(UnitTx(u).hash);
    DeadBlock(chain, db, units, slot, u);
    assert t in Rows(u);
    HoldsRow(db, units, u, t);
    RowsKeys(u, t);
  }

  lemma DeletedByOwner(chain: seq<Block>, db: Tables, units: set<Unit>, slot: nat, u: Unit, k: Key)
    requires ValidChain(chain) && UnitsOf(units, chain) && Holds(db, units) && HeadersFirst(units) && u in units
    requires k in Rows(u)
    ensures Deleted(db, slot, k) <==> u.block.slot > slot
  {
    RowsKeys(u, k);
    if u.n == 0 { DeadBlock(chain, db, units, slot, u); } else { DeadTx(chain, db, units, slot, u); }
  }

  /** The cascading delete removes exactly the units of the blocks above the slot, whatever subset of
      the chain's units is stored. */
  lemma DeleteAfterHolds(chain: seq<Block>, db: Tables, units: set<Unit>, slot: nat)
    requires ValidChain(chain) && UnitsOf(units, chain) && Holds(db, units) && HeadersFirst(units)
    ensures Holds(DeleteAfter(db, slot), Upto(units, slot))
  {
    var db', kept := DeleteAfter(db, slot), Upto(units, slot);
    forall p | p in Parts(kept) ensures Within(p, db') {
      var u :| u in kept && Rows(u) == p;
      forall k | k in p ensures k in db' && db'[k] == p[k] {
        HoldsRow(db, units, u, k);
        DeletedByOwner(chain, db, units, slot, u, k);
      }
    }
    forall k | k in db' ensures exists p | p in Parts(kept) :: k in p {
      var u := RowOwner(db, units, k);
      DeletedByOwner(chain, db, units, slot, u, k);
      assert u in kept && Rows(u) in Parts(kept);
    }
  }

  predicate NothingAbove(db: Tables, slot: nat) {
    forall k | k in db && k.BlockKey? && db[k].BlockRow? :: db[k].slot <= slot
  }

  lemma HeldUptoBounds(chain: seq<Block>, db: Tables, units: set<Unit>, slot: nat)
    requires UnitsOf(units, chain) && Holds(db, Upto(units, slot))
    ensures NothingAbove(db, slot)
  {
    forall k | k in db && k.BlockKey? && db[k].BlockRow? ensures db[k].slot <= slot {
      var u := RowOwner(db, Upto(units, slot), k);
      RowsKeys(u, k);
    }
  }

  lemma NothingToDelete(db: Tables, slot: nat)
    requires NothingAbove(db, slot)
    ensures DeleteAfter(db, slot) == db
  {
    assert DeadBlocks(db, slot) == {};
    assert DeadTxs(db, slot) == {};
  }

  /** The tables already are those of the units up to the slot exactly when no block row lies above it. */
  lemma AlreadyUpto(chain: seq<Block>, db: Tables, units: set<Unit>, slot: nat)
    requires ValidChain(chain) && UnitsOf(units, chain) && Holds(db, units) && HeadersFirst(units)
    ensures Holds(db, Upto(units, slot)) <==> NothingAbove(db, slot)
  {
    hide Holds;
    if Holds(db, Upto(units, slot)) { HeldUptoBounds(chain, db, units, slot); }
    if NothingAbove(db, slot) {
      forall u | u in units ensures u.block.slot <= slot {
        HoldsRow(db, units, Unit(u.block, 0), BlockKey(u.block.hash));
      }
      assert Upto(units, slot) == units;
    }
  }

  /** The handler leaves exactly the units at or below the point, except that an unknown point at slot 0
      is taken for a fresh sync and deletes nothing: the tables are then right exactly when no block row
      lies above slot 0. */
  lemma RollbackExact(chain: seq<Block>, db: Tables, units: set<Unit>, p: Point)
    requires ValidChain(chain) && UnitsOf(units, chain) && Holds(db, units) && HeadersFirst(units)
    ensures Holds(RollBackward(db, p), Upto(units, p.slot)) <==>
            Found(db, p) || p.slot > 0 || NothingAbove(db, 0)
  {
    if Found(db, p) || p.slot > 0 {
      DeleteAfterHolds(chain, db, units, p.slot);
    } else {
      AlreadyUpto(chain, db, units, 0);
    }
  }

  /** Rolling back to the origin keeps any stored block, though it lies above slot 0. */
  lemma OriginKeepsBlock(b: Block)
    requires ValidChain([b]) && b.slot > 0 && b.hash != []
    ensures RollBackward(Clean([b]), Point(0, [])) == Clean([b])
    ensures BlockKey(b.hash) in Clean([b]) && !NothingAbove(Clean([b]), 0)
  {
    CleanHolds([b]);
    assert b in [b] && Unit(b, 0) in AllUnits([b]);
    HoldsRow(Clean([b]), AllUnits([b]), Unit(b, 0), BlockKey(b.hash));
    if Found(Clean([b]), Point(0, [])) {
      var u := RowOwner(Clean([b]), AllUnits([b]), BlockKey([]));
      RowsKeys(u, BlockKey([]));
    }
  }

  ghost function PointOf(b: Block): Point { Point(b.slot, b.hash) }

  lemma PrefixUnits(c: seq<Block>, d: seq<Block>)
    requires c != [] && ValidChain(c + d)
    ensures Upto(AllUnits(c + d), c[|c| - 1].slot) == AllUnits(c)
  {
    var chain := c + d;
    forall b | b in chain ensures b in c <==> b.slot <= c[|c| - 1].slot {
      var i :| 0 <= i < |chain| && chain[i] == b;
      assert chain[|c| - 1] == c[|c| - 1];
      if i < |c| { assert c[i] == b; }
      if b in c {
        var j :| 0 <= j < |c| && c[j] == b;
        assert chain[j] == b;
      }
    }
    assert forall b :: b in c ==> b in chain;
  }

  lemma TipFound(chain: seq<Block>, b: Block)
    requires ValidChain(chain) && b in chain
    ensures Found(Clean(chain), PointOf(b))
  {
    CleanHolds(chain);
    assert Unit(b, 0) in AllUnits(chain);
    HoldsRow(Clean(chain), AllUnits(chain), Unit(b, 0), BlockKey(b.hash));
  }

  lemma {:induction false} AllHeadersFirst(chain: seq<Block>)
    ensures HeadersFirst(AllUnits(chain))
  {}

  /** Rolling a fully stored chain C + D back to the last point of C restores the tables of C. */
  lemma RollbackRestores(c: seq<Block>, d: seq<Block>)
    requires c != [] && ValidChain(c + d)
    ensures RollBackward(Clean(c + d), PointOf(c[|c| - 1])) == Clean(c)
  {
    var tip := c[|c| - 1];
    assert (c + d)[..|c|] == c;
    PrefixValid(c + d, |c|);
    CleanHolds(c + d);
    CleanHolds(c);
    AllHeadersFirst(c + d);
    assert (c + d)[|c| - 1] == tip;
    TipFound(c + d, tip);
    RestoredTables(c, d, Clean(c + d), Clean(c));
  }

  lemma RestoredTables(c: seq<Block>, d: seq<Block>, db: Tables, db': Tables)
    requires c != [] && ValidChain(c + d) && ValidChain(c)
    requires UnitsOf(AllUnits(c + d), c + d) && Holds(db, AllUnits(c + d)) && HeadersFirst(AllUnits(c + d))
    requires UnitsOf(AllUnits(c), c) && Holds(db', AllUnits(c))
    ensures DeleteAfter(db, c[|c| - 1].slot) == db'
  {
    DeleteAfterHolds(c + d, db, AllUnits(c + d), c[|c| - 1].slot);
    PrefixUnits(c, d);
    HoldsDetermines(c, DeleteAfter(db, c[|c| - 1].slot), db', AllUnits(c));
  }

  /** ... and storing E on top of the restored tables gives the tables of C + E. */
  lemma RollbackUndoesForward(c: seq<Block>, d: seq<Block>, e: seq<Block>)
    requires c != [] && ValidChain(c + d)
    ensures StoreAll(RollBackward(Clean(c + d), PointOf(c[|c| - 1])), e) == Clean(c + e)
  {
    RollbackRestores(c, d);
    StoreAllClean(c, e);
  }

  lemma HoldsDetermines(chain: seq<Block>, db: Tables, db': Tables, units: set<Unit>)
    requires UnitsOf(units, chain) && Holds(db, units) && Holds(db', units)
    ensures db == db'
  {
    UnionUnique(db, db', Parts(units));
  }

  /** Processing further blocks in order. */
  function StoreAll(db: Tables, blocks: seq<Block>): Tables
    decreases |blocks|
  {
    if blocks == [] then db else StoreAll(StoreBlock(db, blocks[0]), blocks[1..])
  }

  lemma {:induction false} StoreAllClean(c: seq<Block>, e: seq<Block>)
    ensures StoreAll(Clean(c), e) == Clean(c + e)
    decreases |e|
  {
    if e == [] {
      assert c + e == c;
    } else {
      var c' := c + [e[0]];
      assert c'[..|c|] == c;
      StoreAllClean(c', e[1..]);
      assert c' + e[1..] == c + e;
    }
  }
}
