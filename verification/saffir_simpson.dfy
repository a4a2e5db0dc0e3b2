/** The Saffir-Simpson Hurricane Wind Scale as the system uses it: sustained wind in mph,
    six lower thresholds, and the seven band names from Tropical Depression to Category 5. */
module SaffirSimpson {

  /** Lower bounds of the Tropical Storm band and of Categories 1 to 5, increasing. */
  const Thresholds: seq<real> := [39.0, 74.0, 96.0, 111.0, 130.0, 157.0]

  /** Band names, weakest first; band `b` starts at `Thresholds[b - 1]`. */
  const Names: seq<string> := [
    "Tropical Depression", "Tropical Storm",
    "Category 1 Hurricane", "Category 2 Hurricane", "Category 3 Hurricane",
    "Category 4 Hurricane", "Category 5 Hurricane"]

  /** How many of the thresholds from position `i` on the wind `w` reaches. */
  function Reached(i: nat, w: real): (n: nat)
    requires i <= |Thresholds|
    ensures n <= |Thresholds| - i
    decreases |Thresholds| - i
  {
    if i == |Thresholds| then 0
    else (if Thresholds[i] <= w then 1 else 0) + Reached(i + 1, w)
  }

  /** The band of a wind speed: the number of thresholds it reaches. */
  function Band(w: real): (b: nat)
    ensures b < |Names|
  {
    Reached(0, w)
  }

  function Category(w: real): string {
    Names[Band(w)]
  }

  /** The band is the one whose interval holds `w`: at or above its own threshold,
      below the next one. */
  lemma BandInterval(w: real)
    ensures Band(w) == 0 || Thresholds[Band(w) - 1] <= w
    ensures Band(w) == |Thresholds| || w < Thresholds[Band(w)]
  {
    BandValue(w);
  }

  /** `Band` spelled out threshold by threshold. */
  lemma BandValue(w: real)
    ensures Band(w) == if w >= 157.0 then 6 else if w >= 130.0 then 5 else if w >= 111.0 then 4
                       else if w >= 96.0 then 3 else if w >= 74.0 then 2 else if w >= 39.0 then 1 else 0
  {
    assert Reached(5, w) == if 157.0 <= w then 1 else 0;
    assert Reached(4, w) == (if 130.0 <= w then 1 else 0) + Reached(5, w);
    assert Reached(3, w) == (if 111.0 <= w then 1 else 0) + Reached(4, w);
    assert Reached(2, w) == (if 96.0 <= w then 1 else 0) + Reached(3, w);
    assert Reached(1, w) == (if 74.0 <= w then 1 else 0) + Reached(2, w);
    assert Reached(0, w) == (if 39.0 <= w then 1 else 0) + Reached(1, w);
  }

  /** More wind never reaches fewer thresholds. */
  lemma {:induction false} ReachedMonotone(i: nat, v: real, w: real)
    requires i <= |Thresholds| && v <= w
    ensures Reached(i, v) <= Reached(i, w)
    decreases |Thresholds| - i
  {
    if i < |Thresholds| {
      ReachedMonotone(i + 1, v, w);
    }
  }

  lemma BandMonotone(v: real, w: real)
    requires v <= w
    ensures Band(v) <= Band(w)
  {
    ReachedMonotone(0, v, w);
  }

  /** The position of a band name, or `|Names|` for a name that is not a band. */
  function Rank(name: string): (r: nat)
    ensures r <= |Names|
    ensures r < |Names| ==> Names[r] == name
  {
    RankFrom(name, 0)
  }

  function RankFrom(name: string, i: nat): (r: nat)
    requires i <= |Names|
    ensures i <= r <= |Names|
    ensures r < |Names| ==> Names[r] == name
    ensures forall j :: i <= j < r ==> Names[j] != name
    decreases |Names| - i
  {
    if i == |Names| then |Names| else if Names[i] == name then i else RankFrom(name, i + 1)
  }

  /** The band names are pairwise different, so a name's rank is its band. */
  lemma RankOfBand(b: nat)
    requires b < |Names|
    ensures Rank(Names[b]) == b
  {
    NamesDistinct();
  }

  lemma NamesDistinct()
    ensures forall i, j :: 0 <= i < j < |Names| ==> Names[i] != Names[j]
  {
    forall i, j | 0 <= i < j < |Names|
      ensures Names[i] != Names[j]
    {
      assert Names[i][9] != Names[j][9];
    }
  }

  /** A higher wind never gets a weaker category. */
  lemma CategoryMonotone(v: real, w: real)
    requires v <= w
    ensures Rank(Category(v)) <= Rank(Category(w))
  {
    BandMonotone(v, w);
    RankOfBand(Band(v));
    RankOfBand(Band(w));
  }
}
