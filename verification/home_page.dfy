/** frontend/app/page.tsx: the landing page's buffer of recent mints, fed
    by `TokenMinted` event logs. */
module HomePage {
  import opened Wrappers
  import Seqs
  import Utils
  import Text

  /** The arguments of one `TokenMinted` log; any of them may be missing. */
  datatype MintArgs = MintArgs(to: Option<string>, tokenId: Option<nat>, rarityName: Option<string>)

  /** One row of the recent-mints list. */
  datatype RecentMint = RecentMint(to: string, tokenId: nat, rarityName: string)

  /** The most rows the buffer keeps. */
  const BufferLimit: nat := 10

  const UnknownRarity := "Unknown"

  /** A log's row: each missing argument (or missing `args`) becomes `""`,
      `0n` or `"Unknown"`. */
  function DecodeLog(log: Option<MintArgs>): (m: RecentMint)
    ensures log.Some? && log.value.to.Some? ==> m.to == log.value.to.value
    ensures log.Some? && log.value.tokenId.Some? ==> m.tokenId == log.value.tokenId.value
    ensures log.Some? && log.value.rarityName.Some? ==> m.rarityName == log.value.rarityName.value
    ensures log.None? || log.value.to.None? ==> m.to == ""
    ensures log.None? || log.value.tokenId.None? ==> m.tokenId == 0
    ensures log.None? || log.value.rarityName.None? ==> m.rarityName == UnknownRarity
  {
    if log.None? then RecentMint("", 0, UnknownRarity)
    else RecentMint(log.value.to.GetOr(""), log.value.tokenId.GetOr(0), log.value.rarityName.GetOr(UnknownRarity))
  }

  /** A complete log decodes to exactly its arguments. */
  lemma DecodeCompleteLog(to: string, tokenId: nat, rarityName: string)
    ensures DecodeLog(Some(MintArgs(Some(to), Some(tokenId), Some(rarityName)))) == RecentMint(to, tokenId, rarityName)
  {
  }

  function DecodeAll(logs: seq<Option<MintArgs>>): (r: seq<RecentMint>)
    ensures |r| == |logs| && forall i :: 0 <= i < |logs| ==> r[i] == DecodeLog(logs[i])
  {
    seq(|logs|, i requires 0 <= i < |logs| => DecodeLog(logs[i]))
  }

  /** `onLogs`: the new rows, in log order, go before the previous ones and
      only the first ten are kept. */
  function UpdateRecent(prev: seq<RecentMint>, logs: seq<Option<MintArgs>>): (r: seq<RecentMint>)
    ensures |r| <= BufferLimit
    ensures |r| == Min(BufferLimit, |logs| + |prev|)
    ensures forall i :: 0 <= i < |r| && i < |logs| ==> r[i] == DecodeLog(logs[i])
    ensures forall i :: |logs| <= i < |r| ==> r[i] == prev[i - |logs|]
  {
    Seqs.Take(DecodeAll(logs) + prev, BufferLimit)
  }

  /** Two deliveries in a row are one delivery of the later logs followed by
      the earlier ones: the buffer is newest-first and truncation loses
      nothing that a single update would keep. */
  lemma UpdateRecentTwice(prev: seq<RecentMint>, first: seq<Option<MintArgs>>, second: seq<Option<MintArgs>>)
    ensures UpdateRecent(UpdateRecent(prev, first), second) == UpdateRecent(prev, second + first)
  {
    var a := UpdateRecent(UpdateRecent(prev, first), second);
    var b := UpdateRecent(prev, second + first);
    var mid := UpdateRecent(prev, first);
    assert |a| == |b|;
    forall i | 0 <= i < |a|
      ensures a[i] == b[i]
    {
      if i < |second| {
        assert (second + first)[i] == second[i];
      } else if i < |second| + |first| {
        assert (second + first)[i] == first[i - |second|];
        assert a[i] == mid[i - |second|];
      } else {
        assert a[i] == mid[i - |second|];
        assert mid[i - |second|] == prev[i - |second| - |first|];
      }
    }
  }

  /** A delivery of ten or more logs replaces the whole buffer. */
  lemma LargeDeliveryReplacesBuffer(prev: seq<RecentMint>, logs: seq<Option<MintArgs>>)
    requires |logs| >= BufferLimit
    ensures UpdateRecent(prev, logs) == DecodeAll(logs)[..BufferLimit]
  {
  }

  /** A row's text: `#<tokenId>`, the rarity name and the recipient
      truncated with the default four characters (where the source's
      truncation and the intended one agree). */
  datatype RowText = RowText(token: string, rarity: string, recipient: string)

  function Row(m: RecentMint): (t: RowText)
    ensures |t.token| >= 2 && t.token[0] == '#' && t.rarity == m.rarityName
    ensures Text.ReadNumber(t.token[1..]) == Some((m.tokenId, ""))
    ensures t.recipient == Utils.TruncateAddressIntended(m.to, Utils.DefaultTruncateChars)
    ensures t.recipient == Utils.TruncateAddress(m.to, Utils.DefaultTruncateChars)
    ensures m.to == "" ==> t.recipient == ""
  {
    Text.ReadNumberOfNatToString(m.tokenId, "");
    assert ("#" + Text.NatToString(m.tokenId))[1..] == Text.NatToString(m.tokenId) + "";
    Utils.TruncateAgreesWhenCharsPositive(m.to, Utils.DefaultTruncateChars);
    RowText("#" + Text.NatToString(m.tokenId), m.rarityName, Utils.TruncateAddressIntended(m.to, Utils.DefaultTruncateChars))
  }
}
