/** The token hooks of frontend/hooks/useTokens.ts: which ids are probed
    with `ownerOf`, which of them count as owned, the defaults of a token's
    detail reads, and the URL its metadata is fetched from. */
module Tokens {
  import opened Wrappers
  import Seqs
  import Utils
  import NftContract
  import Text

  /** At most this many ids are probed, whatever the supply. */
  const ProbeLimit: nat := 300

  /** `balanceCalls`: `ownerOf(i)` for i = 1..min(supply, 300), or nothing
      when there is no connected address or the supply is 0. */
  function ProbeIds(address: Option<string>, supply: nat): (ids: seq<nat>)
    ensures !Present(address) || supply == 0 ==> ids == []
    ensures Present(address) ==> |ids| == Min(supply, ProbeLimit)
    ensures forall i :: 0 <= i < |ids| ==> ids[i] == i + 1
  {
    if !Present(address) || supply == 0 then [] else seq(Min(supply, ProbeLimit), i => i + 1)
  }

  /** A probe result names the connected address: `r.status === "success"
      && r.result === address`, an exact (case-sensitive) comparison. */
  predicate OwnedBy(result: Option<string>, address: Option<string>) {
    result.Some? && address.Some? && result.value == address.value
  }

  /** The ids `offset+1, offset+2, …` whose result names the address. */
  function OwnedFrom(results: seq<Option<string>>, address: Option<string>, offset: nat): (ids: seq<nat>)
    ensures |ids| <= |results|
    decreases |results|
  {
    if results == [] then []
    else
      (if OwnedBy(results[0], address) then [offset + 1] else [])
      + OwnedFrom(results[1..], address, offset + 1)
  }

  /** `ownedIds`: the ids `i + 1` whose probe succeeded with the address,
      `[]` while there is no ownership data. */
  function OwnedIds(ownership: Option<seq<Option<string>>>, address: Option<string>): (ids: seq<nat>)
    ensures ownership.None? ==> ids == []
  {
    if ownership.None? then [] else OwnedFrom(ownership.value, address, 0)
  }

  lemma {:induction false} OwnedFromFacts(results: seq<Option<string>>, address: Option<string>, offset: nat)
    ensures Seqs.StrictlyIncreasing(OwnedFrom(results, address, offset))
    ensures forall id :: id in OwnedFrom(results, address, offset) <==>
      offset + 1 <= id <= offset + |results| && OwnedBy(results[id - offset - 1], address)
    decreases |results|
  {
    if results != [] {
      OwnedFromFacts(results[1..], address, offset + 1);
      var head: seq<nat> := if OwnedBy(results[0], address) then [offset + 1] else [];
      var tail := OwnedFrom(results[1..], address, offset + 1);
      var all := OwnedFrom(results, address, offset);
      assert all == head + tail;
      forall k | 0 <= k < |tail|
        ensures tail[k] > offset + 1
      {
        assert tail[k] in tail;
      }
      forall id
        ensures id in all <==> offset + 1 <= id <= offset + |results| && OwnedBy(results[id - offset - 1], address)
      {
        if offset + 2 <= id <= offset + |results| {
          assert results[id - offset - 1] == results[1..][id - (offset + 1) - 1];
        }
      }
    }
  }

  /** The owned ids are ascending (so free of duplicates) and are exactly the
      probed positions whose result is the address. */
  lemma OwnedIdsCharacterised(ownership: seq<Option<string>>, address: Option<string>, id: nat)
    ensures Seqs.StrictlyIncreasing(OwnedIds(Some(ownership), address))
    ensures id in OwnedIds(Some(ownership), address) <==>
      1 <= id <= |ownership| && OwnedBy(ownership[id - 1], address)
  {
    OwnedFromFacts(ownership, address, 0);
    var ids := OwnedFrom(ownership, address, 0);
    assert OwnedIds(Some(ownership), address) == ids;
    assert id in ids <==> 0 + 1 <= id <= 0 + |ownership| && OwnedBy(ownership[id - 0 - 1], address);
  }

  /** When the ownership data answers the probes, every owned id was probed:
      it lies in 1..min(supply, 300). */
  lemma OwnedIdsWithinProbes(address: Option<string>, supply: nat, ownership: seq<Option<string>>, id: nat)
    requires |ownership| == |ProbeIds(address, supply)|
    requires id in OwnedIds(Some(ownership), address)
    ensures id in ProbeIds(address, supply)
    ensures 1 <= id <= Min(supply, ProbeLimit)
  {
    OwnedIdsCharacterised(ownership, address, id);
    assert ProbeIds(address, supply)[id - 1] == id;
  }

  /** The comparison is case-sensitive: a checksummed owner does not match a
      lower-case address. */
  lemma OwnershipIsCaseSensitive()
    ensures OwnedIds(Some([Some("0xAB")]), Some("0xab")) == []
  {
  }

  /** The detail reads of one token; each is `None` when it failed or has not
      arrived (including when no token id was given). */
  datatype DetailReads = DetailReads(
    uri: Option<string>,
    rarity: Option<NftContract.RarityTier>,
    isStaked: Option<bool>,
    stakingDuration: Option<nat>)

  const NoReads := DetailReads(None, None, None, None)

  datatype TokenDetails = TokenDetails(
    tokenUri: Option<string>,
    rarity: Option<NftContract.RarityTier>,
    isStaked: bool,
    stakingDuration: nat)

  /** `useTokenDetails`: the URI and rarity stay undefined when unread; the
      staked flag defaults to false and the duration to 0. */
  function DetailsOf(r: DetailReads): (d: TokenDetails)
    ensures d.tokenUri == r.uri && d.rarity == r.rarity
    ensures d.isStaked <==> r.isStaked == Some(true)
    ensures r.stakingDuration.Some? ==> d.stakingDuration == r.stakingDuration.value
    ensures r.stakingDuration.None? ==> d.stakingDuration == 0
  {
    TokenDetails(r.uri, r.rarity, r.isStaked.GetOr(false), r.stakingDuration.GetOr(0))
  }

  /** `fetchTokenMetadata` fetches `getIPFSUrl(uri)`; only that URL is
      modelled, not the request. */
  function MetadataUrl(uri: string): (url: string)
    ensures Text.StartsWith(uri, Utils.IpfsScheme) ==> url == Utils.IpfsGateway + uri[|Utils.IpfsScheme|..]
    ensures !Text.StartsWith(uri, Utils.IpfsScheme) ==> url == uri
  {
    var u := Utils.GetIpfsUrl(uri);
    assert Text.StartsWith(uri, Utils.IpfsScheme) ==> u == u[..|Utils.IpfsGateway|] + u[|Utils.IpfsGateway|..];
    u
  }
}
