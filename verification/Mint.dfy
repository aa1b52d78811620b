/** Minted assets on their way to the ma_tx_mints table: getTransactionMint prints each as "policyHex.nameHex",
    ProcessMint parses the keys again (processors/block_processor.go, processors/asset_processor.go). */
module Mint {
  import opened Bytes
  import opened Chain
  import opened Text

  const MARY := 4

  type Minted = map<Asset, int>

  /** fmt.Sprintf("%s.%s", policyIDHex, assetNameHex) */
  function KeyOf(a: Asset): string { Hex(a.policy) + "." + Hex(a.name) }

  /** strings.Split(s, ".") */
  function Split(s: string): seq<string> {
    if s == "" then [""]
    else if s[0] == '.' then [""] + Split(s[1..])
    else
      var rest := Split(s[1..]);
      [[s[0]] + rest[0]] + rest[1..]
  }

  /** The parser of ProcessMint; a key it cannot parse is skipped. */
  function ParseKey(key: string): Option<Asset> {
    var parts := Split(key);
    if |parts| != 2 then None
    else
      match (Unhex(parts[0]), Unhex(parts[1]))
      case (Some(policy), Some(name)) => Some(Asset(policy, name))
      case _ => None
  }

  lemma {:induction false} SplitPlain(s: string)
    requires '.' !in s
    ensures Split(s) == [s]
  {
    if s != "" {
      SplitPlain(s[1..]);
      assert [s[0]] + s[1..] == s;
    }
  }

  lemma {:induction false} SplitOnce(s: string, t: string)
    requires '.' !in s && '.' !in t
    ensures Split(s + "." + t) == [s, t]
  {
    var w := s + "." + t;
    if s == "" {
      assert w[1..] == t;
      SplitPlain(t);
    } else {
      assert w[1..] == s[1..] + "." + t;
      SplitOnce(s[1..], t);
      assert [s[0]] + s[1..] == s;
    }
  }

  /** The printed key parses back to the same policy and name, whatever their bytes and lengths. */
  lemma KeyRoundTrip(a: Asset)
    ensures ParseKey(KeyOf(a)) == Some(a)
  {
    hide Hex, Unhex, Split;
    HexPlain(a.policy);
    HexPlain(a.name);
    SplitOnce(Hex(a.policy), Hex(a.name));
    HexRoundTrip(a.policy);
    HexRoundTrip(a.name);
  }

  lemma HexPlain(b: Bytes)
    ensures '.' !in Hex(b)
  {
    assert '.' !in DIGITS;
  }

  /** No two assets share a key. */
  lemma KeyInjective(a: Asset, b: Asset)
    requires KeyOf(a) == KeyOf(b)
    ensures a == b
  {
    KeyRoundTrip(a);
    KeyRoundTrip(b);
  }

  /** The printed map holds exactly the minted assets under their keys. */
  ghost predicate Prints(keys: map<string, int>, minted: Minted) {
    && (forall a | a in minted :: KeyOf(a) in keys && keys[KeyOf(a)] == minted[a])
    && (forall k | k in keys :: exists a | a in minted :: KeyOf(a) == k)
  }

  ghost predicate PartOf(part: Minted, minted: Minted) { forall a | a in part :: a in minted && part[a] == minted[a] }

  lemma PartIsWhole(part: Minted, minted: Minted)
    requires PartOf(part, minted) && minted.Keys <= part.Keys
    ensures part == minted
  {}

  /** getTransactionMint: nothing before Mary, else one entry for each asset of each policy, in any order. */
  method GetTransactionMint(minted: Minted, blockType: nat) returns (keys: map<string, int>)
    ensures blockType < MARY ==> keys == map[]
    ensures blockType >= MARY ==> Prints(keys, minted)
  {
    hide KeyOf;
    keys := map[];
    if blockType < MARY { return; }
    var policies := set a | a in minted :: a.policy;
    ghost var done: Minted := map[];
    while policies != {}
      invariant PartOf(done, minted) && Prints(keys, done)
      invariant forall a | a in minted :: a in done || a.policy in policies
      decreases policies
    {
      var policy :| policy in policies;
      policies := policies - {policy};
      keys, done := AddPolicy(keys, minted, policy, done);
    }
    PartIsWhole(done, minted);
  }

  /** The inner loop, over the assets of one policy. */
  method AddPolicy(keys: map<string, int>, minted: Minted, policy: Bytes, ghost done: Minted)
      returns (keys': map<string, int>, ghost done': Minted)
    requires Prints(keys, done) && PartOf(done, minted)
    ensures Prints(keys', done') && PartOf(done', minted) && done.Keys <= done'.Keys
    ensures forall a | a in minted && a.policy == policy :: a in done'
  {
    hide KeyOf, Prints;
    keys', done' := keys, done;
    var rest := set a | a in minted && a.policy == policy;
    while rest != {}
      invariant Prints(keys', done') && PartOf(done', minted) && done.Keys <= done'.Keys
      invariant rest <= minted.Keys && forall a | a in minted && a.policy == policy :: a in done' || a in rest
      decreases rest
    {
      var a :| a in rest;
      rest := rest - {a};
      PrintsAdd(keys', done', a, minted[a]);
      keys' := keys'[KeyOf(a) := minted[a]];
      done' := done'[a := minted[a]];
    }
  }

  lemma PrintsAdd(keys: map<string, int>, minted: Minted, a: Asset, amount: int)
    requires Prints(keys, minted)
    ensures Prints(keys[KeyOf(a) := amount], minted[a := amount])
  {
    hide KeyOf;
    var more, moreKeys := minted[a := amount], keys[KeyOf(a) := amount];
    forall b | b in more ensures KeyOf(b) in keys[KeyOf(a) := amount] && keys[KeyOf(a) := amount][KeyOf(b)] == more[b] {
      if KeyOf(a) == KeyOf(b) { KeyInjective(a, b); }
    }
    forall k | k in moreKeys ensures exists b | b in more :: KeyOf(b) == k {
      if k == KeyOf(a) {
        assert a in more;
      } else {
        var b :| b in minted && KeyOf(b) == k;
        assert b in more;
      }
    }
  }

  // ---- storing ----

  /** ma_tx_mints: (transaction, policy, name) -> quantity. */
  type MintTable = map<(Hash, Asset), int>

  /** The cache key of a multi-asset. */
  function CacheKey(a: Asset): string { Hex(a.policy) + ":" + Hex(a.name) }

  lemma {:induction false} CacheKeyInjective(a: Asset, b: Asset)
    requires CacheKey(a) == CacheKey(b)
    ensures a == b
  {
    HexNoColon(a.policy);
    HexNoColon(b.policy);
    SplitAtColon(Hex(a.policy), Hex(a.name), Hex(b.policy), Hex(b.name));
    HexInjective(a.policy, b.policy);
    HexInjective(a.name, b.name);
  }

  lemma HexNoColon(b: Bytes)
    ensures ':' !in Hex(b)
  {
    assert ':' !in DIGITS;
  }

  /** The rows of a transaction's mint. */
  ghost function MintRows(tx: Hash, minted: Minted): MintTable {
    map k | k in (set a | a in minted :: (tx, a)) :: minted[k.1]
  }

  class AssetProcessor {
    var multiAssets: set<Asset>
    var mints: MintTable
    var cache: set<string>

    /** Whatever is cached has its multi-asset row (as long as transactions commit). */
    ghost predicate Valid()
      reads this
    { forall a :: CacheKey(a) in cache ==> a in multiAssets }

    constructor ()
      ensures Valid() && multiAssets == {} && mints == map[]
    {
      multiAssets, mints, cache := {}, map[], {};
    }

    /** GetOrCreateMultiAssetWithTx */
    method GetOrCreateMultiAsset(a: Asset)
      requires Valid()
      modifies this`multiAssets, this`cache
      ensures Valid() && multiAssets == old(multiAssets) + {a}
    {
      if CacheKey(a) in cache { return; }
      if a !in multiAssets {
        multiAssets := multiAssets + {a};
      }
      forall b ensures CacheKey(b) == CacheKey(a) ==> b == a {
        if CacheKey(b) == CacheKey(a) { CacheKeyInjective(a, b); }
      }
      cache := cache + {CacheKey(a)};
    }

    /** processMintOperation: the mint row is inserted unless there is one. */
    method ProcessMintOperation(tx: Hash, a: Asset, amount: int)
      requires Valid()
      modifies this
      ensures Valid() && multiAssets == old(multiAssets) + {a}
      ensures mints == map[(tx, a) := amount] + old(mints)
    {
      GetOrCreateMultiAsset(a);
      mints := map[(tx, a) := amount] + mints;
    }

    /** ProcessMint visits the printed entries in any order and writes exactly one row for each minted asset. */
    method ProcessMint(tx: Hash, mint: map<string, int>, ghost minted: Minted)
      requires Valid() && Prints(mint, minted)
      modifies this
      ensures Valid() && multiAssets == old(multiAssets) + minted.Keys
      ensures mints == MintRows(tx, minted) + old(mints)
    {
      hide KeyOf, ParseKey, MintRows, Prints, Progress;
      var rest := mint.Keys;
      ghost var done: Minted := map[];
      ProgressStart(tx, mint, minted);
      while rest != {}
        invariant Valid() && multiAssets == old(multiAssets) + done.Keys
        invariant mints == MintRows(tx, done) + old(mints)
        invariant rest <= mint.Keys && Progress(minted, done, rest)
        decreases rest
      {
        var assetID :| assetID in rest;
        ghost var a0 := PrintedAsset(mint, minted, assetID);
        ProgressStep(minted, done, rest, assetID, a0);
        rest := rest - {assetID};
        var parsed := ParseKey(assetID);
        if parsed.Some? {
          var a := parsed.value;
          MintRowsAdd(tx, done, a, mint[assetID], old(mints));
          ProcessMintOperation(tx, a, mint[assetID]);
          done := done[a := mint[assetID]];
        }
      }
      ProgressEnd(minted, done);
    }
  }

  /** The assets already stored, against the keys still to visit. */
  ghost predicate Progress(minted: Minted, done: Minted, rest: set<string>) {
    PartOf(done, minted) && forall a | a in minted :: a in done <==> KeyOf(a) !in rest
  }

  lemma ProgressStart(tx: Hash, mint: map<string, int>, minted: Minted)
    requires Prints(mint, minted)
    ensures Progress(minted, map[], mint.Keys) && MintRows(tx, map[]) == map[]
  {}

  lemma ProgressStep(minted: Minted, done: Minted, rest: set<string>, key: string, a: Asset)
    requires Progress(minted, done, rest) && key in rest && a in minted && KeyOf(a) == key
    requires forall b | KeyOf(b) == key :: b == a
    ensures a !in done && Progress(minted, done[a := minted[a]], rest - {key})
  {}

  lemma ProgressEnd(minted: Minted, done: Minted)
    requires Progress(minted, done, {})
    ensures done == minted
  {}

  lemma PrintedAsset(mint: map<string, int>, minted: Minted, key: string) returns (a: Asset)
    requires Prints(mint, minted) && key in mint
    ensures a in minted && KeyOf(a) == key && ParseKey(key) == Some(a) && mint[key] == minted[a]
    ensures forall b | KeyOf(b) == key :: b == a
  {
    a :| a in minted && KeyOf(a) == key;
    KeyRoundTrip(a);
    forall b | KeyOf(b) == key ensures b == a { KeyInjective(a, b); }
  }

  lemma MintRowsAdd(tx: Hash, done: Minted, a: Asset, amount: int, table: MintTable)
    requires a !in done
    ensures map[(tx, a) := amount] + (MintRows(tx, done) + table) == MintRows(tx, done[a := amount]) + table
  {}
}
