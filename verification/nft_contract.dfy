/** The read hooks of frontend/hooks/useNFTContract.ts, and the supply
    figures the pages derive from `useCurrentSupply`/`useMaxSupply`. */
module NftContract {
  import opened Wrappers
  import Seqs

  /** One rarity tier as `getRarityTier(i)` returns it. */
  datatype RarityTier = RarityTier(
    name: string,
    probability: nat,
    maxSupply: nat,
    currentSupply: nat,
    specialAttribute: string)

  /** `useRarityTiers`: the indices it asks for — `0..count-1`, none while
      the count is unread. */
  function TierIndices(count: Option<nat>): (r: seq<nat>)
    ensures count.None? ==> r == []
    ensures count.Some? ==> |r| == count.value && forall i :: 0 <= i < |r| ==> r[i] == i
  {
    if count.None? then [] else seq(count.value, i => i)
  }

  /** `useRarityTiers`: the tiers whose read succeeded (a tier tuple is
      always truthy), in index order; and the count, 0 while unread. */
  function RarityTiers(count: Option<nat>, results: Option<seq<Option<RarityTier>>>): (r: (seq<RarityTier>, nat))
    ensures results.None? ==> r.0 == []
    ensures results.Some? ==> |r.0| <= |results.value|
    ensures r.1 == (if count.Some? then count.value else 0)
  {
    (Seqs.Values(results.GetOr([])), count.GetOr(0))
  }

  /** When the results answer the tier indices one by one, the tiers are at
      most `count` and are exactly the successful answers. */
  lemma RarityTiersAnswerIndices(count: nat, results: seq<Option<RarityTier>>, t: RarityTier)
    requires |results| == |TierIndices(Some(count))|
    ensures |RarityTiers(Some(count), Some(results)).0| <= count
    ensures t in RarityTiers(Some(count), Some(results)).0 <==>
      exists i :: 0 <= i < count && results[i] == Some(t)
  {
    Seqs.ValuesMembership(results, t);
  }

  /** Tier lists compose: the tiers of two runs of answers, one after the
      other, are the first run's tiers followed by the second's. A failed
      read adds nothing and a successful one adds its tier, so tiers keep
      index order and later tiers move down one place per failed read. */
  lemma RarityTiersInOrder(count: Option<nat>, a: seq<Option<RarityTier>>, b: seq<Option<RarityTier>>, t: RarityTier)
    ensures RarityTiers(count, Some(a + b)).0 == RarityTiers(count, Some(a)).0 + RarityTiers(count, Some(b)).0
    ensures RarityTiers(count, Some(a + [Some(t)] + b)).0
         == RarityTiers(count, Some(a)).0 + [t] + RarityTiers(count, Some(b)).0
    ensures RarityTiers(count, Some(a + [None] + b)).0
         == RarityTiers(count, Some(a)).0 + RarityTiers(count, Some(b)).0
  {
    Seqs.ValuesAppend(a, b);
    Seqs.ValuesOfOne(t);
    Seqs.ValuesAppend(a, [Some(t)]);
    Seqs.ValuesAppend(a + [Some(t)], b);
    Seqs.ValuesAppend(a, [None]);
    Seqs.ValuesAppend(a + [None], b);
  }

  /** When every tier read succeeds, tier i is the answer to index i. */
  lemma RarityTiersAllRead(count: nat, results: seq<Option<RarityTier>>)
    requires |results| == |TierIndices(Some(count))|
    requires forall i :: 0 <= i < |results| ==> results[i].Some?
    ensures |RarityTiers(Some(count), Some(results)).0| == count
    ensures forall i :: 0 <= i < count ==> RarityTiers(Some(count), Some(results)).0[i] == results[i].value
  {
    Seqs.ValuesOfAllPresent(results);
  }

  /** The aggregate `getContractStats()` record, in tuple order. */
  datatype ContractStats = ContractStats(
    totalSupply: nat,
    remainingSupply: nat,
    totalRarityTiers: nat,
    isRevealed: bool,
    isStakingEnabled: bool,
    isWhitelistPhaseActive: bool,
    isAuctionActive: bool)

  type StatsTuple = (nat, nat, nat, bool, bool, bool, bool)

  /** `useContractStats`: null while nothing is read, otherwise positions
      0..6 of the tuple become the named fields in order. */
  function StatsOf(data: Option<StatsTuple>): (r: Option<ContractStats>)
    ensures r.None? <==> data.None?
    ensures r.Some? ==> StatsToTuple(r.value) == data.value
  {
    match data
    case None => None
    case Some(t) => Some(ContractStats(t.0, t.1, t.2, t.3, t.4, t.5, t.6))
  }

  function StatsToTuple(s: ContractStats): StatsTuple {
    (s.totalSupply, s.remainingSupply, s.totalRarityTiers, s.isRevealed,
     s.isStakingEnabled, s.isWhitelistPhaseActive, s.isAuctionActive)
  }

  /** No field is lost or swapped: the mapping is invertible. */
  lemma StatsRoundTrip(s: ContractStats)
    ensures StatsOf(Some(StatsToTuple(s))) == Some(s)
  {
  }

  /** Supply as the mint, auction and home pages derive it: 0 minted and a
      maximum of 1000 while unread. */
  const DefaultMaxSupply: nat := 1000

  datatype SupplyFigures = SupplyFigures(supply: nat, max: nat)

  function SupplyFiguresOf(currentSupply: Option<nat>, maxSupply: Option<nat>): (f: SupplyFigures)
    ensures f.supply == (if currentSupply.Some? then currentSupply.value else 0)
    ensures f.max == (if maxSupply.Some? then maxSupply.value else 1000)
  {
    SupplyFigures(currentSupply.GetOr(0), maxSupply.GetOr(DefaultMaxSupply))
  }

  /** `maxReached = supplyNum >= maxNum`. */
  predicate MaxReached(f: SupplyFigures) {
    f.supply >= f.max
  }

  /** Before any read the collection is never considered sold out. */
  lemma UnreadSupplyNotMaxReached()
    ensures !MaxReached(SupplyFiguresOf(None, None))
  {
  }
}
