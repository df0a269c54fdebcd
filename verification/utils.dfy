/** The string helpers of frontend/lib/utils.ts: address truncation,
    duration formatting and the `ipfs://` gateway rewrite. */
module Utils {
  import opened Wrappers
  import opened Text

  // ---------------------------------------------------------------------
  // truncateAddress

  const DefaultTruncateChars: nat := 4

  /** `s.slice(-k)` as JavaScript evaluates it. For k > 0 this is the last k
      characters (or all of s when it is shorter); `-0` is `0`, so k == 0
      gives the whole string, not the empty one. */
  function SliceFromEnd(s: string, k: nat): (r: string)
    ensures k == 0 ==> r == s
    ensures 0 < k <= |s| ==> r == s[|s| - k..]
  {
    if k == 0 then s else s[|s| - Min(k, |s|)..]
  }

  /** `truncateAddress(address, chars)` exactly as written, including the
      `slice(-chars)` behaviour at chars == 0. */
  function TruncateAddress(address: string, chars: nat): (r: string)
    ensures |address| < 2 * chars + 2 ==> r == address
    ensures |address| >= 2 * chars + 2 ==>
      && StartsWith(r, address[..chars + 2] + "...")
      && r[chars + 5..] == SliceFromEnd(address, chars)
  {
    if address == [] || |address| < chars * 2 + 2 then address
    else address[..chars + 2] + "..." + SliceFromEnd(address, chars)
  }

  /** The evidently intended truncation: the tail is the last `chars`
      characters, which is empty when chars == 0. */
  function TruncateAddressIntended(address: string, chars: nat): (r: string)
    ensures |address| < 2 * chars + 2 ==> r == address
    ensures |address| >= 2 * chars + 2 ==>
      && |r| == 2 * chars + 5
      && r[..chars + 2] == address[..chars + 2]
      && r[chars + 2..chars + 5] == "..."
      && r[chars + 5..] == address[|address| - chars..]
  {
    if |address| < chars * 2 + 2 then address
    else address[..chars + 2] + "..." + address[|address| - chars..]
  }

  /** For every chars > 0 (the client only ever uses the default 4) the code
      as written and the intended truncation agree. */
  lemma TruncateAgreesWhenCharsPositive(address: string, chars: nat)
    requires chars > 0
    ensures TruncateAddress(address, chars) == TruncateAddressIntended(address, chars)
  {
  }

  /** Long addresses become exactly `2*chars+5` characters; short ones are
      kept, so an input of length 10..12 with chars = 4 grows to 13. */
  lemma TruncatedLength(address: string, chars: nat)
    requires chars > 0
    ensures |TruncateAddress(address, chars)| ==
      (if |address| < 2 * chars + 2 then |address| else 2 * chars + 5)
  {
  }

  lemma TruncationCanLengthen()
    ensures |TruncateAddress("0x12345678", DefaultTruncateChars)| == 13
  {
    TruncatedLength("0x12345678", DefaultTruncateChars);
  }

  /** Truncating an already truncated address changes nothing. */
  lemma TruncateIntendedIdempotent(address: string, chars: nat)
    ensures TruncateAddressIntended(TruncateAddressIntended(address, chars), chars)
         == TruncateAddressIntended(address, chars)
  {
    var r := TruncateAddressIntended(address, chars);
    if |address| >= 2 * chars + 2 {
      var r2 := TruncateAddressIntended(r, chars);
      assert r2[..chars + 2] == r[..chars + 2];
      assert r2[chars + 5..] == r[|r| - chars..];
      assert r2 == r2[..chars + 2] + r2[chars + 2..chars + 5] + r2[chars + 5..];
      assert r == r[..chars + 2] + r[chars + 2..chars + 5] + r[chars + 5..];
    }
  }

  /** As written, chars == 0 makes the result contain the whole address
      after "xy...", so it is longer than its input and truncating twice
      differs from truncating once. */
  lemma TruncateZeroCharsCounterexample()
    ensures TruncateAddress("0xabcdef", 0) == "0x...0xabcdef"
    ensures |TruncateAddress("0xabcdef", 0)| > |"0xabcdef"|
    ensures TruncateAddress(TruncateAddress("0xabcdef", 0), 0) != TruncateAddress("0xabcdef", 0)
  {
    var once := TruncateAddress("0xabcdef", 0);
    assert once == "0x" + "..." + "0xabcdef";
    var twice := TruncateAddress(once, 0);
    assert |twice| == |once| + 5;
  }

  // ---------------------------------------------------------------------
  // formatDuration

  /** The pieces `formatDuration` prints, in its four ranges. */
  datatype DurationParts =
    | Secs(s: nat)
    | MinSecs(m: nat, s: nat)
    | HourMins(h: nat, m: nat)
    | DayHours(d: nat, h: nat)

  /** What the printed pieces mean: each range keeps the largest two units,
      rounded down, and drops the rest. */
  ghost predicate Describes(p: DurationParts, seconds: nat) {
    match p
    case Secs(s) => seconds < 60 && s == seconds
    case MinSecs(m, s) => 60 <= seconds < 3600 && s < 60 && m * 60 + s == seconds
    case HourMins(h, m) =>
      3600 <= seconds < 86400 && m < 60 && h * 3600 + m * 60 <= seconds < h * 3600 + m * 60 + 60
    case DayHours(d, h) =>
      86400 <= seconds && h < 24 && d * 86400 + h * 3600 <= seconds < d * 86400 + h * 3600 + 3600
  }

  function Breakdown(seconds: nat): (p: DurationParts)
    ensures Describes(p, seconds)
  {
    if seconds < 60 then Secs(seconds)
    else if seconds < 3600 then MinSecs(seconds / 60, seconds % 60)
    else
      var h := seconds / 3600;
      var m := (seconds % 3600) / 60;
      if h < 24 then HourMins(h, m) else DayHours(h / 24, h % 24)
  }

  function Render(p: DurationParts): string {
    match p
    case Secs(s) => NatToString(s) + "s"
    case MinSecs(m, s) => NatToString(m) + "m " + NatToString(s) + "s"
    case HourMins(h, m) => NatToString(h) + "h " + NatToString(m) + "m"
    case DayHours(d, h) => NatToString(d) + "d " + NatToString(h) + "h"
  }

  /** `formatDuration(seconds)` for a whole, non-negative number of seconds. */
  function FormatDuration(seconds: nat): (r: string)
    ensures r == Render(Breakdown(seconds))
  {
    if seconds < 60 then NatToString(seconds) + "s"
    else if seconds < 3600 then NatToString(seconds / 60) + "m " + NatToString(seconds % 60) + "s"
    else
      var h := seconds / 3600;
      var m := (seconds % 3600) / 60;
      if h < 24 then NatToString(h) + "h " + NatToString(m) + "m"
      else NatToString(h / 24) + "d " + NatToString(h % 24) + "h"
  }

  /** Reads a formatted duration back into its pieces. */
  function ReadDuration(text: string): Option<DurationParts> {
    match ReadNumber(text)
    case None => None
    case Some((a, rest)) =>
      if rest == "s" then Some(Secs(a))
      else if |rest| >= 2 && rest[1] == ' ' then ReadSecondPart(a, rest[0], rest[2..])
      else None
  }

  /** The part after `<a><u1> `: a second number and its unit. */
  function ReadSecondPart(a: nat, u1: char, text: string): Option<DurationParts> {
    match ReadNumber(text)
    case None => None
    case Some((b, tail)) =>
      if u1 == 'm' && tail == "s" then Some(MinSecs(a, b))
      else if u1 == 'h' && tail == "m" then Some(HourMins(a, b))
      else if u1 == 'd' && tail == "h" then Some(DayHours(a, b))
      else None
  }

  /** Reading back `<a><u1> <b><u2>` splits off the first number and hands
      the rest to the second-part reader. */
  lemma ReadTwoPartDuration(a: nat, u1: char, b: nat, u2: char)
    requires u1 in "mhd" && u2 in "smh"
    ensures ReadDuration(NatToString(a) + [u1] + " " + NatToString(b) + [u2])
         == ReadSecondPart(a, u1, NatToString(b) + [u2])
    ensures ReadSecondPart(a, u1, NatToString(b) + [u2]) ==
      if u1 == 'm' && u2 == 's' then Some(MinSecs(a, b))
      else if u1 == 'h' && u2 == 'm' then Some(HourMins(a, b))
      else if u1 == 'd' && u2 == 'h' then Some(DayHours(a, b))
      else None
  {
    var rest := [u1] + " " + NatToString(b) + [u2];
    assert NatToString(a) + [u1] + " " + NatToString(b) + [u2] == NatToString(a) + rest;
    ReadNumberOfNatToString(a, rest);
    assert rest != "s" && rest[1] == ' ';
    assert rest[2..] == NatToString(b) + [u2];
    ReadNumberOfNatToString(b, [u2]);
  }

  lemma ReadRenderMinSecs(m: nat, s: nat)
    ensures ReadDuration(Render(MinSecs(m, s))) == Some(MinSecs(m, s))
  {
    var text := NatToString(m) + ['m'] + " " + NatToString(s) + ['s'];
    assert Render(MinSecs(m, s)) == text;
    ReadTwoPartDuration(m, 'm', s, 's');
  }

  lemma ReadRenderHourMins(h: nat, m: nat)
    ensures ReadDuration(Render(HourMins(h, m))) == Some(HourMins(h, m))
  {
    var text := NatToString(h) + ['h'] + " " + NatToString(m) + ['m'];
    assert Render(HourMins(h, m)) == text;
    ReadTwoPartDuration(h, 'h', m, 'm');
  }

  lemma ReadRenderDayHours(d: nat, h: nat)
    ensures ReadDuration(Render(DayHours(d, h))) == Some(DayHours(d, h))
  {
    var text := NatToString(d) + ['d'] + " " + NatToString(h) + ['h'];
    assert Render(DayHours(d, h)) == text;
    ReadTwoPartDuration(d, 'd', h, 'h');
  }

  /** Every printed duration reads back as the pieces it was printed from. */
  lemma ReadRender(p: DurationParts)
    ensures ReadDuration(Render(p)) == Some(p)
  {
    match p
    case Secs(s) => ReadNumberOfNatToString(s, "s");
    case MinSecs(m, s) => ReadRenderMinSecs(m, s);
    case HourMins(h, m) => ReadRenderHourMins(h, m);
    case DayHours(d, h) => ReadRenderDayHours(d, h);
  }

  /** The formatted text determines the pieces it was printed from. */
  lemma FormatDurationReadsBack(seconds: nat)
    ensures ReadDuration(FormatDuration(seconds)) == Some(Breakdown(seconds))
    ensures Describes(Breakdown(seconds), seconds)
  {
    ReadRender(Breakdown(seconds));
  }

  /** Below one hour nothing is dropped: different durations print
      differently. */
  lemma FormatDurationInjectiveBelowHour(s1: nat, s2: nat)
    requires s1 < 3600 && s2 < 3600
    requires FormatDuration(s1) == FormatDuration(s2)
    ensures s1 == s2
  {
    FormatDurationReadsBack(s1);
    FormatDurationReadsBack(s2);
  }

  /** From one hour on, the seconds are dropped. */
  lemma FormatDurationDropsSecondsFromOneHour()
    ensures FormatDuration(3600) == FormatDuration(3659)
  {
  }

  // ---------------------------------------------------------------------
  // getIPFSUrl

  const IpfsScheme := "ipfs://"
  const IpfsGateway := "https://ipfs.io/ipfs/"

  /** `getIPFSUrl(uri)`: an `ipfs://` URI becomes a gateway URL ending in the
      same content path; any other URI is returned as is. */
  function GetIpfsUrl(uri: string): (url: string)
    ensures StartsWith(uri, IpfsScheme) ==>
      StartsWith(url, IpfsGateway) && url[|IpfsGateway|..] == uri[|IpfsScheme|..]
    ensures !StartsWith(uri, IpfsScheme) ==> url == uri
    ensures !StartsWith(url, IpfsScheme)
  {
    if StartsWith(uri, IpfsScheme) then
      var url := IpfsGateway + uri[|IpfsScheme|..];
      assert url[0] == 'h';
      url
    else uri
  }

  lemma GetIpfsUrlIdempotent(uri: string)
    ensures GetIpfsUrl(GetIpfsUrl(uri)) == GetIpfsUrl(uri)
  {
  }

  /** The rewrite is not injective: a URI already pointing at the gateway
      and its `ipfs://` form resolve to the same URL. */
  lemma GetIpfsUrlMergesGatewayForm(cid: string)
    ensures GetIpfsUrl(IpfsScheme + cid) == GetIpfsUrl(IpfsGateway + cid)
  {
    assert (IpfsScheme + cid)[..|IpfsScheme|] == IpfsScheme;
    assert (IpfsScheme + cid)[|IpfsScheme|..] == cid;
    var g := IpfsGateway + cid;
    assert g[0] == 'h';
  }
}
