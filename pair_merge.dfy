/**
 * The per-cycle de-duplication of fetched pairs: the dictionary of pairs keyed by pair
 * address, filled first from the broad searches (the first pair seen for an address
 * wins) and then from the direct lookup of one configured pair.
 */
module PairMerge {
  import opened Wrappers
  import opened VolumeHistory
  import opened Surge

  /** The configured pair that is looked up directly when no search returned it. */
  const UserPairAddress: string := "0xee2f63a49cb190962619183103d25af14ce5f538"

  /** The only chain whose pairs the direct lookup may add. */
  const ChainId: string := "bsc"

  /** The search terms, one broad search each. */
  const Queries: seq<string> := ["bnb", "wbnb", "busd", "usdt", "cake", "pancakeswap", "ape", "doge", "shib", "floki"]

  /** A Python dictionary from key to pair: its keys in insertion order, and its entries. */
  datatype PairTable = PairTable(order: seq<PairKey>, entries: map<PairKey, PairSnapshot>)

  /** The same key is never listed twice, and the listed keys are exactly the entries' keys. */
  predicate Valid(t: PairTable) {
    (forall i, j :: 0 <= i < j < |t.order| ==> t.order[i] != t.order[j]) &&
    (forall k :: k in t.entries ==> k in t.order) &&
    (forall i :: 0 <= i < |t.order| ==> t.order[i] in t.entries)
  }

  const Empty: PairTable := PairTable([], map[])

  /**
   * `d[k] = v`: a new key is placed last; an existing key keeps its place and only its
   * value changes.
   */
  function Put(t: PairTable, k: PairKey, v: PairSnapshot): (r: PairTable)
    requires Valid(t)
    ensures Valid(r)
    ensures r.entries == t.entries[k := v]
    ensures r.order == if k in t.entries then t.order else t.order + [k]
  {
    if k in t.entries then PairTable(t.order, t.entries[k := v])
    else PairTable(t.order + [k], t.entries[k := v])
  }

  /** A truthy address: present and not the empty string. */
  predicate Usable(address: Option<string>) {
    address.Some? && address.value != ""
  }

  /** One pair from a broad search: kept only if its address is usable and not yet in the table. */
  function AddFirstSeen(t: PairTable, p: PairSnapshot): (added: PairTable)
    requires Valid(t)
  {
    if Usable(p.pairAddress) && p.pairAddress !in t.entries then Put(t, p.pairAddress, p) else t
  }

  /** All pairs of the broad searches, in the order they were returned. */
  function MergeBroad(t: PairTable, pairs: seq<PairSnapshot>): (r: PairTable)
    requires Valid(t)
    ensures Valid(r)
    decreases |pairs|
  {
    if pairs == [] then t
    else MergeBroad(AddFirstSeen(t, pairs[0]), pairs[1..])
  }

  /** The results of all broad searches, one after the other. */
  function Flatten(batches: seq<seq<PairSnapshot>>): (pairs: seq<PairSnapshot>) {
    if batches == [] then [] else batches[0] + Flatten(batches[1..])
  }

  /** Merging batch after batch is merging their concatenation. */
  lemma {:induction false} MergeBroadAppend(t: PairTable, a: seq<PairSnapshot>, b: seq<PairSnapshot>)
    requires Valid(t)
    ensures MergeBroad(t, a + b) == MergeBroad(MergeBroad(t, a), b)
    decreases |a|
  {
    if a == [] {
      assert a + b == b;
    } else {
      assert (a + b)[1..] == a[1..] + b;
      MergeBroadAppend(AddFirstSeen(t, a[0]), a[1..], b);
    }
  }

  /** The first pair in `pairs` whose address is `k`, if any. */
  function FirstWith(pairs: seq<PairSnapshot>, k: PairKey): (r: Option<PairSnapshot>)
    ensures r.None? <==> forall i :: 0 <= i < |pairs| ==> pairs[i].pairAddress != k
    ensures r.Some? ==> r.value.pairAddress == k && r.value in pairs
  {
    if pairs == [] then None
    else if pairs[0].pairAddress == k then Some(pairs[0])
    else
      var r := FirstWith(pairs[1..], k);
      assert r.None? ==> forall i :: 0 <= i < |pairs| ==> pairs[i].pairAddress != k by {
        if r.None? {
          forall i | 0 < i < |pairs| ensures pairs[i].pairAddress != k {
            assert pairs[i] == pairs[1..][i - 1];
          }
        }
      }
      r
  }

  /**
   * The broad merge keeps what the table already had and adds, for every usable address
   * it did not have, the FIRST pair returned with that address; unusable addresses never
   * become keys.
   */
  lemma {:induction false} BroadFirstSeenWins(t: PairTable, pairs: seq<PairSnapshot>, k: PairKey)
    requires Valid(t)
    ensures k in MergeBroad(t, pairs).entries <==> k in t.entries || (Usable(k) && FirstWith(pairs, k).Some?)
    ensures k in t.entries ==> MergeBroad(t, pairs).entries[k] == t.entries[k]
    ensures k !in t.entries && Usable(k) && FirstWith(pairs, k).Some? ==>
              MergeBroad(t, pairs).entries[k] == FirstWith(pairs, k).value
    decreases |pairs|
  {
    if pairs != [] {
      BroadFirstSeenWins(AddFirstSeen(t, pairs[0]), pairs[1..], k);
    }
  }

  /**
   * The direct lookup's pairs: every pair on the configured chain is stored under its
   * address, missing or not, and a later one overwrites an earlier one.
   */
  function AddUserPairs(t: PairTable, fetched: seq<PairSnapshot>): (r: PairTable)
    requires Valid(t)
    ensures Valid(r)
    decreases |fetched|
  {
    if fetched == [] then t
    else
      var p := fetched[0];
      AddUserPairs(if p.chainId == Some(ChainId) then Put(t, p.pairAddress, p) else t, fetched[1..])
  }

  /** The last pair on the configured chain in `pairs` whose address is `k`, if any. */
  function LastOnChainWith(pairs: seq<PairSnapshot>, k: PairKey): (r: Option<PairSnapshot>)
    ensures r.None? <==> forall i :: 0 <= i < |pairs| ==> !(pairs[i].pairAddress == k && pairs[i].chainId == Some(ChainId))
    ensures r.Some? ==> r.value.pairAddress == k && r.value.chainId == Some(ChainId) && r.value in pairs
  {
    if pairs == [] then None
    else
      var last := pairs[|pairs| - 1];
      if last.pairAddress == k && last.chainId == Some(ChainId) then Some(last)
      else
        var r := LastOnChainWith(pairs[..|pairs| - 1], k);
        assert r.None? ==> forall i :: 0 <= i < |pairs| ==> !(pairs[i].pairAddress == k && pairs[i].chainId == Some(ChainId)) by {
          if r.None? {
            forall i | 0 <= i < |pairs| - 1 ensures !(pairs[i].pairAddress == k && pairs[i].chainId == Some(ChainId)) {
              assert pairs[i] == pairs[..|pairs| - 1][i];
            }
          }
        }
        r
  }

  /** Adding the direct lookup's pairs one at a time, the last one on the chain with a key wins. */
  lemma {:induction false} UserPairsLastWins(t: PairTable, fetched: seq<PairSnapshot>, k: PairKey)
    requires Valid(t)
    ensures k in AddUserPairs(t, fetched).entries <==> k in t.entries || LastOnChainWith(fetched, k).Some?
    ensures LastOnChainWith(fetched, k).Some? ==> AddUserPairs(t, fetched).entries[k] == LastOnChainWith(fetched, k).value
    ensures LastOnChainWith(fetched, k).None? && k in t.entries ==> AddUserPairs(t, fetched).entries[k] == t.entries[k]
    decreases |fetched|
  {
    if fetched != [] {
      var n := |fetched|;
      var init := fetched[..n - 1];
      var last := fetched[n - 1];
      AddUserPairsSnoc(t, init, last);
      assert init + [last] == fetched;
      UserPairsLastWins(t, init, k);
      assert LastOnChainWith(fetched, k) ==
             if last.pairAddress == k && last.chainId == Some(ChainId) then Some(last) else LastOnChainWith(init, k);
    }
  }

  /** Adding the direct lookup's pairs in two steps, the last pair last. */
  lemma {:induction false} AddUserPairsSnoc(t: PairTable, init: seq<PairSnapshot>, p: PairSnapshot)
    requires Valid(t)
    ensures AddUserPairs(t, init + [p]) ==
            var u := AddUserPairs(t, init); if p.chainId == Some(ChainId) then Put(u, p.pairAddress, p) else u
    decreases |init|
  {
    if init == [] {
      assert [] + [p] == [p];
    } else {
      var q := init[0];
      assert (init + [p])[1..] == init[1..] + [p];
      AddUserPairsSnoc(if q.chainId == Some(ChainId) then Put(t, q.pairAddress, q) else t, init[1..], p);
    }
  }

  /** The table after the broad searches. */
  function BroadTable(batches: seq<seq<PairSnapshot>>): (r: PairTable)
    ensures Valid(r)
  {
    MergeBroad(Empty, Flatten(batches))
  }

  /** The direct lookup is made exactly when no broad search returned the configured pair. */
  predicate UserPairQueried(batches: seq<seq<PairSnapshot>>) {
    Some(UserPairAddress) !in BroadTable(batches).entries
  }

  /** The table at the end of the merge, given what the searches and the direct lookup return. */
  function Merged(batches: seq<seq<PairSnapshot>>, fetched: seq<PairSnapshot>): (r: PairTable)
    ensures Valid(r)
  {
    if UserPairQueried(batches) then AddUserPairs(BroadTable(batches), fetched) else BroadTable(batches)
  }

  /**
   * The merge as the source runs it: one loop over the searches, one over each search's
   * pairs, then the direct lookup if needed. It returns the table and whether the direct
   * lookup was made.
   */
  method MergePairs(batches: seq<seq<PairSnapshot>>, fetched: seq<PairSnapshot>) returns (t: PairTable, queried: bool)
    ensures Valid(t)
    ensures t == Merged(batches, fetched)
    ensures queried == UserPairQueried(batches)
  {
    t := Empty;
    for b := 0 to |batches|
      invariant Valid(t)
      invariant t == MergeBroad(Empty, Flatten(batches[..b]))
    {
      t := MergeBatch(t, batches[b]);
      MergedOneMoreBatch(batches, b);
    }
    assert batches[..|batches|] == batches;
    queried := Some(UserPairAddress) !in t.entries;
    if queried {
      t := AddFetched(t, fetched);
    }
  }

  /** One search's pairs, in the order returned, each kept if its address is usable and new. */
  method MergeBatch(start: PairTable, pairs: seq<PairSnapshot>) returns (t: PairTable)
    requires Valid(start)
    ensures t == MergeBroad(start, pairs)
  {
    t := start;
    for i := 0 to |pairs|
      invariant Valid(t)
      invariant t == MergeBroad(start, pairs[..i])
    {
      var p := pairs[i];
      MergeBroadSnoc(start, pairs, i);
      if Usable(p.pairAddress) && p.pairAddress !in t.entries {
        t := Put(t, p.pairAddress, p);
      }
    }
    assert pairs[..|pairs|] == pairs;
  }

  /** The direct lookup's pairs, in the order returned: each pair on the chain is stored under its address. */
  method AddFetched(start: PairTable, fetched: seq<PairSnapshot>) returns (t: PairTable)
    requires Valid(start)
    ensures t == AddUserPairs(start, fetched)
  {
    t := start;
    for j := 0 to |fetched|
      invariant Valid(t)
      invariant t == AddUserPairs(start, fetched[..j])
    {
      var p := fetched[j];
      AddUserPairsSnoc(start, fetched[..j], p);
      assert fetched[..j + 1] == fetched[..j] + [p];
      if p.chainId == Some(ChainId) {
        t := Put(t, p.pairAddress, p);
      }
    }
    assert fetched[..|fetched|] == fetched;
  }

  /** Merging the first `i + 1` pairs is merging the first `i` and then pair `i`. */
  lemma MergeBroadSnoc(t: PairTable, pairs: seq<PairSnapshot>, i: nat)
    requires Valid(t) && i < |pairs|
    ensures MergeBroad(t, pairs[..i + 1]) == AddFirstSeen(MergeBroad(t, pairs[..i]), pairs[i])
  {
    MergeBroadAppend(t, pairs[..i], [pairs[i]]);
    assert pairs[..i + 1] == pairs[..i] + [pairs[i]];
    assert MergeBroad(AddFirstSeen(MergeBroad(t, pairs[..i]), pairs[i]), [pairs[i]][1..]) ==
           AddFirstSeen(MergeBroad(t, pairs[..i]), pairs[i]);
  }

  /** Merging the first `b + 1` searches is merging the first `b` and then search `b`. */
  lemma MergedOneMoreBatch(batches: seq<seq<PairSnapshot>>, b: nat)
    requires b < |batches|
    ensures MergeBroad(Empty, Flatten(batches[..b + 1])) ==
            MergeBroad(MergeBroad(Empty, Flatten(batches[..b])), batches[b])
  {
    FlattenSnoc(batches[..b], batches[b]);
    assert batches[..b + 1] == batches[..b] + [batches[b]];
    MergeBroadAppend(Empty, Flatten(batches[..b]), batches[b]);
  }

  /** Flattening one more batch appends it at the end. */
  lemma {:induction false} FlattenSnoc(batches: seq<seq<PairSnapshot>>, last: seq<PairSnapshot>)
    ensures Flatten(batches + [last]) == Flatten(batches) + last
    decreases |batches|
  {
    if batches == [] {
      assert [] + [last] == [last];
      assert Flatten([last][1..]) == [];
    } else {
      assert (batches + [last])[1..] == batches[1..] + [last];
      FlattenSnoc(batches[1..], last);
    }
  }

  /**
   * Which pairs the cycle analyses: a usable address returned by some search maps to the
   * first pair returned with it; when no search returned the configured pair, the direct
   * lookup's last pair on the chain for an address overrides.
   */
  lemma MergedEntries(batches: seq<seq<PairSnapshot>>, fetched: seq<PairSnapshot>, k: PairKey)
    ensures !UserPairQueried(batches) ==>
              (k in Merged(batches, fetched).entries <==> Usable(k) && FirstWith(Flatten(batches), k).Some?)
    ensures UserPairQueried(batches) ==>
              (k in Merged(batches, fetched).entries <==>
                 (Usable(k) && FirstWith(Flatten(batches), k).Some?) || LastOnChainWith(fetched, k).Some?)
    ensures k in Merged(batches, fetched).entries ==>
              Merged(batches, fetched).entries[k] ==
                if UserPairQueried(batches) && LastOnChainWith(fetched, k).Some? then LastOnChainWith(fetched, k).value
                else FirstWith(Flatten(batches), k).value
  {
    BroadFirstSeenWins(Empty, Flatten(batches), k);
    if UserPairQueried(batches) {
      UserPairsLastWins(BroadTable(batches), fetched, k);
    }
  }

  /** The configured pair is not looked up when a search already returned it. */
  lemma UserPairFoundByBroadSearch(batches: seq<seq<PairSnapshot>>, fetched: seq<PairSnapshot>)
    requires FirstWith(Flatten(batches), Some(UserPairAddress)).Some?
    ensures !UserPairQueried(batches)
    ensures Merged(batches, fetched) == BroadTable(batches)
  {
    BroadFirstSeenWins(Empty, Flatten(batches), Some(UserPairAddress));
  }
}
