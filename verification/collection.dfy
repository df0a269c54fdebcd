/** The paginated collection view of frontend/app/collection/page.tsx:
    page count, the token-id window of a page, the Previous/Next buttons and
    the pairing of per-token read results into grid items. */
module Collection {
  import opened Wrappers
  import Seqs

  const PageSize: nat := 24

  /** `Math.ceil(a / b)` for whole numbers. */
  function CeilDiv(a: nat, b: nat): (r: nat)
    requires b > 0
    ensures r * b >= a
    ensures r == 0 || (r - 1) * b < a
  {
    (a + b - 1) / b
  }

  /** `Math.max(1, Math.ceil(supply / PAGE_SIZE))`: enough pages for every
      minted token, no page that would be empty, and never fewer than one. */
  function TotalPages(supply: nat): (r: nat)
    ensures r >= 1
    ensures supply <= r * PageSize
    ensures r == 1 || (r - 1) * PageSize < supply
  {
    Max(1, CeilDiv(supply, PageSize))
  }

  // ---------------------------------------------------------------------
  // CollectionGrid's token-id window

  /** `Array.from({ length: pageSize }, (_, i) => start + i + 1)`. */
  function Candidates(page: nat, pageSize: nat): (c: seq<int>)
    ensures |c| == pageSize
    ensures forall i :: 0 <= i < |c| ==> c[i] == page * pageSize + i + 1
  {
    seq(pageSize, i => page * pageSize + i + 1)
  }

  /** The ids shown on `page`: the candidates that are at most `totalSupply`. */
  function WindowIds(page: nat, pageSize: nat, totalSupply: nat): (ids: seq<int>)
    ensures |ids| <= pageSize
    ensures Seqs.StrictlyIncreasing(ids)
    ensures forall i :: 0 <= i < |ids| ==> page * pageSize < ids[i] <= totalSupply
  {
    var c := Candidates(page, pageSize);
    var ids := Seqs.Filter(c, id => id <= totalSupply);
    Seqs.FilterIncreasing(c, id => id <= totalSupply);
    forall k | 0 <= k < |ids|
      ensures page * pageSize < ids[k]
    {
      Seqs.FilterMembership(c, id => id <= totalSupply, ids[k]);
    }
    ids
  }

  /** Which page shows a given id: exactly the page its zero-based position
      falls in. */
  lemma {:induction false} WindowMembership(page: nat, totalSupply: nat, id: int)
    ensures id in WindowIds(page, PageSize, totalSupply) <==>
      1 <= id <= totalSupply && (id - 1) / PageSize == page
  {
    var c := Candidates(page, PageSize);
    Seqs.FilterMembership(c, x => x <= totalSupply, id);
    if 1 <= id && (id - 1) / PageSize == page {
      var i := id - 1 - page * PageSize;
      assert 0 <= i < PageSize;
      assert c[i] == id;
    }
    if id in c {
      var i :| 0 <= i < |c| && c[i] == id;
      assert id - 1 == page * PageSize + i;
    }
  }

  /** The pages 0..totalPages-1 split 1..supply: every minted id is on one
      page in range, and on no other page. */
  lemma PagesPartitionSupply(totalSupply: nat, id: int)
    requires 1 <= id <= totalSupply
    ensures (id - 1) / PageSize < TotalPages(totalSupply)
    ensures id in WindowIds((id - 1) / PageSize, PageSize, totalSupply)
    ensures forall q: nat :: q != (id - 1) / PageSize ==> id !in WindowIds(q, PageSize, totalSupply)
  {
    var p := (id - 1) / PageSize;
    WindowMembership(p, totalSupply, id);
    forall q: nat | q != p
      ensures id !in WindowIds(q, PageSize, totalSupply)
    {
      WindowMembership(q, totalSupply, id);
    }
    var t := TotalPages(totalSupply);
    assert p * PageSize <= id - 1 < totalSupply <= t * PageSize;
  }

  /** With at least one token minted the grid is shown and page 0 is not
      empty; with none, the empty state replaces it. */
  predicate ShowsGrid(supply: nat) {
    supply != 0
  }

  lemma FirstPageOfShownGrid(supply: nat)
    requires ShowsGrid(supply)
    ensures 1 in WindowIds(0, PageSize, supply)
  {
    WindowMembership(0, supply, 1);
  }

  // ---------------------------------------------------------------------
  // Previous / Next

  predicate ValidPage(page: int, totalPages: nat) {
    0 <= page <= totalPages - 1
  }

  predicate PreviousDisabled(page: int) {
    page <= 0
  }

  predicate NextDisabled(page: int, totalPages: nat) {
    page >= totalPages - 1
  }

  /** `setPage(p => Math.max(0, p - 1))`. */
  function Previous(page: int): (r: int)
    ensures r >= 0
    ensures !PreviousDisabled(page) ==> r == page - 1
  {
    Max(0, page - 1)
  }

  /** `setPage(p => Math.min(totalPages - 1, p + 1))`. */
  function Next(page: int, totalPages: nat): (r: int)
    ensures r <= totalPages - 1
    ensures !NextDisabled(page, totalPages) ==> r == page + 1
  {
    Min(totalPages - 1, page + 1)
  }

  lemma NavigationKeepsPageValid(page: int, totalPages: nat)
    requires totalPages >= 1 && ValidPage(page, totalPages)
    ensures ValidPage(Previous(page), totalPages)
    ensures ValidPage(Next(page, totalPages), totalPages)
  {
  }

  /** An enabled Next is undone by Previous, and an enabled Previous by Next. */
  lemma NextPreviousInverse(page: int, totalPages: nat)
    requires ValidPage(page, totalPages)
    ensures !NextDisabled(page, totalPages) ==> Previous(Next(page, totalPages)) == page
    ensures !PreviousDisabled(page) ==> Next(Previous(page), totalPages) == page
  {
  }

  // ---------------------------------------------------------------------
  // Result pairing

  /** The two reads issued per token: `tokenURI(id)` then `getTokenRarity(id)`. */
  datatype TokenRead = TokenUri(id: int) | TokenRarity(id: int)

  /** `tokenIds.flatMap(id => [tokenURI(id), getTokenRarity(id)])`. */
  function ReadsFor(ids: seq<int>): (r: seq<TokenRead>)
    ensures |r| == 2 * |ids|
    decreases |ids|
  {
    if ids == [] then [] else [TokenUri(ids[0]), TokenRarity(ids[0])] + ReadsFor(ids[1..])
  }

  lemma {:induction false} ReadsLayout(ids: seq<int>)
    ensures forall i :: 0 <= i < |ids| ==>
      ReadsFor(ids)[2 * i] == TokenUri(ids[i]) && ReadsFor(ids)[2 * i + 1] == TokenRarity(ids[i])
    decreases |ids|
  {
    if ids != [] {
      ReadsLayout(ids[1..]);
      var r := ReadsFor(ids);
      forall i | 1 <= i < |ids|
        ensures r[2 * i] == TokenUri(ids[i]) && r[2 * i + 1] == TokenRarity(ids[i])
      {
        assert r[2 * i] == ReadsFor(ids[1..])[2 * (i - 1)];
        assert r[2 * i + 1] == ReadsFor(ids[1..])[2 * (i - 1) + 1];
      }
    }
  }

  /** The rarity placeholder exactly as the file spells it: an em dash that
      was saved re-encoded, so it renders as the three characters "â€”". */
  const RarityPlaceholder := "\U{00E2}\U{20AC}\U{201D}"

  datatype Item = Item(id: int, uri: string, rarityName: string)

  /** `data[k]`: its text when that read succeeded, `dflt` when it failed or
      there is no entry at k. */
  function SlotText(data: seq<Option<string>>, k: nat, dflt: string): string {
    if k < |data| && data[k].Some? then data[k].value else dflt
  }

  /** `items`: one entry per token id once data has arrived, none before. */
  function Items(data: Option<seq<Option<string>>>, ids: seq<int>): (r: seq<Item>)
    ensures data.None? ==> r == []
    ensures data.Some? ==> |r| == |ids| && forall i :: 0 <= i < |r| ==> r[i].id == ids[i]
  {
    if data.None? then []
    else
      seq(|ids|, i requires 0 <= i < |ids| =>
        Item(ids[i], SlotText(data.value, 2 * i, ""), SlotText(data.value, 2 * i + 1, RarityPlaceholder)))
  }

  /** When the results answer the reads position by position, item i carries
      the answers about token ids[i] — its URI ("" if that read failed) and
      its rarity name (the placeholder if that read failed). */
  lemma ItemsPairAnswers(ids: seq<int>, answer: TokenRead -> Option<string>, data: seq<Option<string>>)
    requires |data| == |ReadsFor(ids)|
    requires forall k :: 0 <= k < |data| ==> data[k] == answer(ReadsFor(ids)[k])
    ensures forall i :: 0 <= i < |ids| ==>
      Items(Some(data), ids)[i] ==
        Item(ids[i], answer(TokenUri(ids[i])).GetOr(""), answer(TokenRarity(ids[i])).GetOr(RarityPlaceholder))
  {
    ReadsLayout(ids);
    var items := Items(Some(data), ids);
    forall i | 0 <= i < |ids|
      ensures items[i] ==
        Item(ids[i], answer(TokenUri(ids[i])).GetOr(""), answer(TokenRarity(ids[i])).GetOr(RarityPlaceholder))
    {
      assert data[2 * i] == answer(TokenUri(ids[i]));
      assert data[2 * i + 1] == answer(TokenRarity(ids[i]));
    }
  }
}
