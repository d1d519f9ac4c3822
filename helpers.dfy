/** The pure helpers of the app: the region-language test, string
    truncation, the marker-colour bands, and random ids. */
module Helpers {
  import Seqs

  /** The country codes whose regions count as English-speaking. */
  const EnglishCountries: seq<string> := [
    "US", "CA", "AU", "GB", "NZ", "IE", "GH", "SG", "BZ", "ZA", "IN", "DM", "MT",
    "AG", "KE", "JM", "GD", "GY", "BW", "LR", "BB", "CM", "NG", "GM", "TT", "BS"]

  /** `region.split(",")[0]`: everything before the first comma. */
  function RegionCode(region: string): (r: string)
    ensures |r| <= |region| && r == region[..|r|]
    ensures ',' !in r
    ensures |r| == |region| || region[|r|] == ','
  {
    if region == [] then []
    else if region[0] == ',' then []
    else [region[0]] + RegionCode(region[1..])
  }

  function IsRegionEnglish(region: string): (b: bool)
    ensures region == "" ==> !b
  {
    RegionCode(region) in EnglishCountries
  }

  /** `region` is `code` alone or `code` followed by a comma. */
  predicate NamesCountry(region: string, code: string) {
    region == code || (|code| < |region| && region[..|code|] == code && region[|code|] == ',')
  }

  /** A comma-free code that `region` names is its region code. */
  lemma {:induction false} RegionCodeOfNamed(region: string, code: string)
    requires ',' !in code && NamesCountry(region, code)
    ensures RegionCode(region) == code
  {
    if code != [] {
      assert region[0] == code[0];
      assert NamesCountry(region[1..], code[1..]) by {
        if region != code {
          assert region[1..][..|code| - 1] == code[1..];
        }
      }
      RegionCodeOfNamed(region[1..], code[1..]);
    } else if region != [] {
      assert region[0] == ',';
    }
  }

  /** A region is English exactly when it is an English country code, alone
      or followed by a comma and more. */
  lemma RegionEnglishIff(region: string)
    ensures IsRegionEnglish(region) <==> exists c :: c in EnglishCountries && NamesCountry(region, c)
  {
    var r := RegionCode(region);
    if IsRegionEnglish(region) {
      assert NamesCountry(region, r);
    }
    if c :| c in EnglishCountries && NamesCountry(region, c) {
      assert ',' !in c;
      RegionCodeOfNamed(region, c);
    }
  }

  function Max0(n: int): nat {
    if n < 0 then 0 else n
  }

  /** `truncate(string, length)`: strings longer than `length` are cut to
      `length` characters (none when `length` is negative, as `substring`
      clamps) and get "..." appended. */
  function Truncate(s: string, length: int): (r: string)
    ensures |s| <= length ==> r == s
    ensures |s| > length ==> |r| == Max0(length) + 3 && r[Max0(length)..] == "..."
    ensures |r| <= if |s| <= length then length else Max0(length) + 3
    ensures var k := if |s| <= length then |s| else Max0(length); r[..k] == s[..k]
  {
    if |s| > length then s[..Max0(length)] + "..." else s
  }

  /** The marker colours, from fewest to most species. */
  const MarkerColors: seq<string> := [
    "#bcbcbc", "#8f9ca0", "#9bc4cf", "#aaddeb", "#c7e466",
    "#eaeb1f", "#fac500", "#e57701", "#ce0d02", "#ad0002"]

  /** `getMarkerColor(count)`. */
  function MarkerColor(count: int): string {
    if count == 0 then MarkerColors[0]
    else if count <= 15 then MarkerColors[1]
    else if count <= 50 then MarkerColors[2]
    else if count <= 100 then MarkerColors[3]
    else if count <= 150 then MarkerColors[4]
    else if count <= 200 then MarkerColors[5]
    else if count <= 250 then MarkerColors[6]
    else if count <= 300 then MarkerColors[7]
    else if count <= 400 then MarkerColors[8]
    else if count <= 500 then MarkerColors[9]
    else MarkerColors[0]
  }

  /** `getMarkerColorIndex(count)`: the position of the chosen colour. */
  function MarkerColorIndex(count: int): int {
    Seqs.IndexOf(MarkerColors, MarkerColor(count))
  }

  /** The upper limits of bands 1 to 9. */
  const BandLimits: seq<int> := [15, 50, 100, 150, 200, 250, 300, 400, 500]

  /** How many of `limits` lie below `count`. */
  function LimitsBelow(limits: seq<int>, count: int): (k: nat)
    ensures k <= |limits|
  {
    if limits == [] then 0
    else (if limits[0] < count then 1 else 0) + LimitsBelow(limits[1..], count)
  }

  /** The band of a species count: 0 for none, band `k + 1` when `k` limits
      lie below the count, and 0 again past the last limit. */
  function Band(count: int): nat {
    if count == 0 then 0
    else if LimitsBelow(BandLimits, count) < |BandLimits| then LimitsBelow(BandLimits, count) + 1
    else 0
  }

  /** The colour table holds no colour twice. */
  lemma MarkerColorsDistinct()
    ensures forall i, j :: 0 <= i < j < |MarkerColors| ==> MarkerColors[i] != MarkerColors[j]
  {
  }

  /** Looking a colour up gives back its position. */
  lemma IndexOfMarkerColor(k: nat)
    requires k < |MarkerColors|
    ensures Seqs.IndexOf(MarkerColors, MarkerColors[k]) == k
  {
    MarkerColorsDistinct();
  }

  /** The number of limits below a count in each band. */
  lemma LimitsBelowBands(count: int)
    ensures count <= 15 ==> LimitsBelow(BandLimits, count) == 0
    ensures 15 < count <= 50 ==> LimitsBelow(BandLimits, count) == 1
    ensures 50 < count <= 100 ==> LimitsBelow(BandLimits, count) == 2
    ensures 100 < count <= 150 ==> LimitsBelow(BandLimits, count) == 3
    ensures 150 < count <= 200 ==> LimitsBelow(BandLimits, count) == 4
    ensures 200 < count <= 250 ==> LimitsBelow(BandLimits, count) == 5
    ensures 250 < count <= 300 ==> LimitsBelow(BandLimits, count) == 6
    ensures 300 < count <= 400 ==> LimitsBelow(BandLimits, count) == 7
    ensures 400 < count <= 500 ==> LimitsBelow(BandLimits, count) == 8
    ensures 500 < count ==> LimitsBelow(BandLimits, count) == 9
  {
    var l := BandLimits;
    assert LimitsBelow(l[9..], count) == 0;
    assert LimitsBelow(l[8..], count) == (if 500 < count then 1 else 0);
    assert LimitsBelow(l[7..], count) == (if 400 < count then 1 else 0) + LimitsBelow(l[8..], count);
    assert LimitsBelow(l[6..], count) == (if 300 < count then 1 else 0) + LimitsBelow(l[7..], count);
    assert LimitsBelow(l[5..], count) == (if 250 < count then 1 else 0) + LimitsBelow(l[6..], count);
    assert LimitsBelow(l[4..], count) == (if 200 < count then 1 else 0) + LimitsBelow(l[5..], count);
    assert LimitsBelow(l[3..], count) == (if 150 < count then 1 else 0) + LimitsBelow(l[4..], count);
    assert LimitsBelow(l[2..], count) == (if 100 < count then 1 else 0) + LimitsBelow(l[3..], count);
    assert LimitsBelow(l[1..], count) == (if 50 < count then 1 else 0) + LimitsBelow(l[2..], count);
    assert LimitsBelow(l, count) == (if 15 < count then 1 else 0) + LimitsBelow(l[1..], count);
  }

  /** `getMarkerColorIndex` is the band of the count: never -1, always
      below 10, because the colour table has no repeats. */
  lemma MarkerColorIndexIsBand(count: int)
    ensures MarkerColorIndex(count) == Band(count)
    ensures 0 <= MarkerColorIndex(count) < |MarkerColors|
  {
    LimitsBelowBands(count);
    IndexOfMarkerColor(Band(count));
  }

  /** From 1 to 500 the band never decreases as the count grows; past 500
      it drops back to the colour of 0. */
  lemma BandMonotone(a: int, b: int)
    requires 0 < a <= b
    ensures b <= 500 ==> Band(a) <= Band(b)
    ensures 500 < b ==> Band(b) == Band(0) == 0
  {
    LimitsBelowBands(a);
    LimitsBelowBands(b);
  }

  /** The alphabet of random ids: the 52 ASCII letters. */
  const Characters: string := "ABCDEFGHIJKLMNOPQRSTUVWXYZabcdefghijklmnopqrstuvwxyz"

  /** `randomId(length)`: one character per iteration, each picked at an
      index in [0, 52) that `Math.random` decides; here any such index. */
  method RandomId(length: int) returns (result: string)
    ensures |result| == Max0(length)
    ensures forall i :: 0 <= i < |result| ==> result[i] in Characters
  {
    result := "";
    var i := 0;
    while i < length
      invariant 0 <= i <= Max0(length)
      invariant |result| == i
      invariant forall j :: 0 <= j < i ==> result[j] in Characters
    {
      var k :| 0 <= k < |Characters|;
      result := result + [Characters[k]];
      i := i + 1;
    }
  }
}
