/**
 * The static routing table: which platform regions are processed by which
 * routing group, each with its display name and leaderboard capacity.
 */
module Config {
  import opened Sorting

  type RegionCode = string

  datatype RegionConfig = RegionConfig(code: RegionCode, name: string, maxSlots: nat)

  const RoutingDistribution: seq<(string, seq<RegionConfig>)> := [
    ("americas", [
      RegionConfig("na1", "North America", 300),
      RegionConfig("br1", "Brazil", 200),
      RegionConfig("tw2", "Taiwan", 200),
      RegionConfig("eun1", "Europe Nordic & East", 200),
      RegionConfig("jp1", "Japan", 50),
      RegionConfig("ru", "Russia", 50)]),
    ("europe", [
      RegionConfig("euw1", "Europe West", 300),
      RegionConfig("tr1", "Turkey", 200),
      RegionConfig("vn2", "Vietnam", 300),
      RegionConfig("oc1", "Oceania", 50),
      RegionConfig("me1", "Middle East", 50)]),
    ("asia", [
      RegionConfig("kr", "Korea", 300),
      RegionConfig("sg2", "Southeast Asia", 300),
      RegionConfig("la1", "Latin America North", 200),
      RegionConfig("la2", "Latin America South", 200)])
  ]

  /** The region codes of every group, groups in table order (the flattening comprehension). */
  function Codes(groups: seq<(string, seq<RegionConfig>)>): seq<RegionCode>
  {
    if groups == [] then [] else CodesOf(groups[0].1) + Codes(groups[1..])
  }

  function CodesOf(regions: seq<RegionConfig>): seq<RegionCode>
  {
    if regions == [] then [] else [regions[0].code] + CodesOf(regions[1..])
  }

  /** Every configured platform region: the regions the archiver copies and clears. */
  const AllRegions: seq<RegionCode> := Codes(RoutingDistribution)

  /** The regions the season monitor samples. */
  const SampleRegions: seq<RegionCode> := ["euw1", "na1", "kr"]

  /**
   * `int(max_slots * 0.15)`: 15% of the capacity, rounded down. Written in exact
   * arithmetic; it agrees with the floating-point form on the capacities 300, 200 and 50.
   */
  function MinPlayersThreshold(maxSlots: nat): (t: nat)
    ensures t * 100 <= maxSlots * 15 < (t + 1) * 100
  {
    maxSlots * 15 / 100
  }

  /** The configured codes, routing group by routing group. */
  lemma AllRegionsListed()
    ensures AllRegions == AmericasCodes + EuropeCodes + AsiaCodes
  {
    CodesOfThree(RoutingDistribution);
    AmericasListed();
    EuropeListed();
    AsiaListed();
  }

  lemma AmericasListed()
    ensures CodesOf(RoutingDistribution[0].1) == AmericasCodes
  {
    GroupCodes(RoutingDistribution[0].1, AmericasCodes);
  }

  lemma EuropeListed()
    ensures CodesOf(RoutingDistribution[1].1) == EuropeCodes
  {
    GroupCodes(RoutingDistribution[1].1, EuropeCodes);
  }

  lemma AsiaListed()
    ensures CodesOf(RoutingDistribution[2].1) == AsiaCodes
  {
    GroupCodes(RoutingDistribution[2].1, AsiaCodes);
  }

  lemma CodesOfThree(groups: seq<(string, seq<RegionConfig>)>)
    requires |groups| == 3
    ensures Codes(groups) == CodesOf(groups[0].1) + CodesOf(groups[1].1) + CodesOf(groups[2].1)
  {
    var rest := groups[1..];
    assert rest[1..][1..] == [];
    assert Codes(rest[1..]) == CodesOf(groups[2].1) + Codes(rest[1..][1..]);
    assert Codes(rest) == CodesOf(groups[1].1) + Codes(rest[1..]);
  }

  lemma GroupCodes(regions: seq<RegionConfig>, codes: seq<RegionCode>)
    requires |regions| == |codes| && forall i :: 0 <= i < |regions| ==> regions[i].code == codes[i]
    ensures CodesOf(regions) == codes
  {
    CodesOfCodes(regions);
  }

  /** The flattening comprehension of one group: its codes, in order. */
  lemma {:induction false} CodesOfCodes(regions: seq<RegionConfig>)
    ensures |CodesOf(regions)| == |regions|
    ensures forall i :: 0 <= i < |regions| ==> CodesOf(regions)[i] == regions[i].code
  {
    if regions != [] {
      CodesOfCodes(regions[1..]);
    }
  }

  /** The codes of each routing group written out; `AllRegionsListed` ties them to the table. */
  const AmericasCodes: seq<RegionCode> := ["na1", "br1", "tw2", "eun1", "jp1", "ru"]
  const EuropeCodes: seq<RegionCode> := ["euw1", "tr1", "vn2", "oc1", "me1"]
  const AsiaCodes: seq<RegionCode> := ["kr", "sg2", "la1", "la2"]

  predicate Disjoint(a: seq<RegionCode>, b: seq<RegionCode>)
  {
    forall i, j :: 0 <= i < |a| && 0 <= j < |b| ==> a[i] != b[j]
  }

  lemma DistinctConcat(a: seq<RegionCode>, b: seq<RegionCode>)
    requires Distinct(a) && Distinct(b) && Disjoint(a, b)
    ensures Distinct(a + b)
  {
  }

  lemma GroupsDistinct()
    ensures Distinct(AmericasCodes) && Distinct(EuropeCodes) && Distinct(AsiaCodes)
  {
  }

  lemma AmericasEuropeDisjoint()
    ensures Disjoint(AmericasCodes, EuropeCodes)
  {
  }

  lemma AmericasAsiaDisjoint()
    ensures Disjoint(AmericasCodes, AsiaCodes)
  {
  }

  lemma EuropeAsiaDisjoint()
    ensures Disjoint(EuropeCodes, AsiaCodes)
  {
  }

  /** No region code is configured twice. */
  lemma AllRegionsDistinct()
    ensures Distinct(AllRegions)
  {
    AllRegionsListed();
    GroupsDistinct();
    AmericasEuropeDisjoint();
    AmericasAsiaDisjoint();
    EuropeAsiaDisjoint();
    DistinctConcat(AmericasCodes, EuropeCodes);
    assert Disjoint(AmericasCodes + EuropeCodes, AsiaCodes) by {
      forall i, j | 0 <= i < |AmericasCodes + EuropeCodes| && 0 <= j < |AsiaCodes|
        ensures (AmericasCodes + EuropeCodes)[i] != AsiaCodes[j]
      {
        if i < |AmericasCodes| {
          assert (AmericasCodes + EuropeCodes)[i] == AmericasCodes[i];
        } else {
          assert (AmericasCodes + EuropeCodes)[i] == EuropeCodes[i - |AmericasCodes|];
        }
      }
    }
    DistinctConcat(AmericasCodes + EuropeCodes, AsiaCodes);
  }
}
