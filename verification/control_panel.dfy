/** The storm list panel (`ControlPanel`): the count badge, the loading and empty states,
    and the text colours of a category name and of a wind speed. */
module ControlPanel {
  import opened Wrappers
  import opened Schema
  import Text
  import SaffirSimpson
  import DataScheduler

  /** The five colours, weakest first. */
  const Colors: seq<string> := [
    "text-gray-400", "text-ocean-400", "text-hurricane-300", "text-hurricane-400", "text-hurricane-500"]

  /** The position of a colour in `Colors` (0 for anything else). */
  function Shade(color: string): (r: nat)
    ensures r < |Colors|
    ensures r > 0 ==> Colors[r] == color
  {
    if color == Colors[4] then 4 else if color == Colors[3] then 3 else if color == Colors[2] then 2
    else if color == Colors[1] then 1 else 0
  }

  /** `getCategoryColor`: a substring test on the category text, strongest first. */
  function CategoryColor(category: string): (r: string)
    ensures r in Colors
  {
    if Text.Contains(category, "Category 5") || Text.Contains(category, "Category 4") then Colors[4]
    else if Text.Contains(category, "Category 3") || Text.Contains(category, "Category 2") then Colors[3]
    else if Text.Contains(category, "Category 1") then Colors[2]
    else if Text.Contains(category, "Tropical Storm") then Colors[1]
    else Colors[0]
  }

  /** The colour index of each Saffir-Simpson band: Categories 4 and 5 share one, as do
      Categories 2 and 3. */
  const BandShades: seq<nat> := [0, 1, 2, 3, 3, 4, 4]

  lemma Prefix(s: string, p: string)
    requires |p| <= |s| && s[..|p|] == p
    ensures Text.Contains(s, p)
  {
    assert Text.OccursAt(s, p, 0);
  }

  /** A band name gets its band's colour. */
  lemma CategoryColorOfBand(b: nat)
    requires b < |SaffirSimpson.Names|
    ensures CategoryColor(SaffirSimpson.Names[b]) == Colors[BandShades[b]]
  {
    if b < 2 {
      TropicalColor(SaffirSimpson.Names[b]);
      if b == 0 {
        Text.NotContainsByChar(SaffirSimpson.Names[b], "Tropical Storm", 9);
      } else {
        Prefix(SaffirSimpson.Names[b], "Tropical Storm");
      }
    } else {
      HurricaneBand(b);
    }
  }

  lemma HurricaneBand(b: nat)
    requires 2 <= b < |SaffirSimpson.Names|
    ensures CategoryColor(SaffirSimpson.Names[b]) == Colors[BandShades[b]]
  {
    var digit := "12345"[b - 2];
    assert SaffirSimpson.Names[b] == HurricaneName(digit);
    HurricaneColor(digit);
  }

  /** A name without a capital C matches no "Category" pattern. */
  lemma TropicalColor(s: string)
    requires 'C' !in s
    ensures CategoryColor(s) == if Text.Contains(s, "Tropical Storm") then Colors[1] else Colors[0]
  {
    Text.NotContainsByChar(s, "Category 5", 0);
    Text.NotContainsByChar(s, "Category 4", 0);
    Text.NotContainsByChar(s, "Category 3", 0);
    Text.NotContainsByChar(s, "Category 2", 0);
    Text.NotContainsByChar(s, "Category 1", 0);
  }

  function HurricaneName(digit: char): string {
    "Category " + [digit] + " Hurricane"
  }

  lemma OwnDigit(digit: char)
    ensures Text.Contains(HurricaneName(digit), "Category " + [digit])
  {
    Prefix(HurricaneName(digit), "Category " + [digit]);
  }

  lemma OtherDigit(digit: char, d: char)
    requires digit != d && '0' <= d <= '9'
    ensures !Text.Contains(HurricaneName(digit), "Category " + [d])
  {
    assert HurricaneName(digit)[9] == digit;
    assert forall k :: 0 <= k < |HurricaneName(digit)| && k != 9 ==> HurricaneName(digit)[k] != d by {
      assert forall k :: 0 <= k < |HurricaneName(digit)| && k != 9 ==> !('0' <= HurricaneName(digit)[k] <= '9');
    }
    Text.NotContainsByChar(HurricaneName(digit), "Category " + [d], 9);
  }

  lemma HurricaneColor(digit: char)
    requires digit in "12345"
    ensures CategoryColor(HurricaneName(digit))
            == Colors[if digit == '1' then 2 else if digit <= '3' then 3 else 4]
  {
    assert "Category 5" == "Category " + ['5'] && "Category 4" == "Category " + ['4'];
    assert "Category 3" == "Category " + ['3'] && "Category 2" == "Category " + ['2'];
    assert "Category 1" == "Category " + ['1'];
    if digit == '1' {
      OwnDigit('1'); OtherDigit('1', '5'); OtherDigit('1', '4'); OtherDigit('1', '3'); OtherDigit('1', '2');
    } else if digit == '2' {
      OwnDigit('2'); OtherDigit('2', '5'); OtherDigit('2', '4'); OtherDigit('2', '3');
    } else if digit == '3' {
      OwnDigit('3'); OtherDigit('3', '5'); OtherDigit('3', '4');
    } else if digit == '4' {
      OwnDigit('4'); OtherDigit('4', '5');
    } else {
      OwnDigit('5');
    }
  }

  /** `getWindSpeedColor`: wind thresholds 130, 96, 74 and 39 mph. It is the colour of the
      category the scheduler gives that wind. */
  function WindSpeedColor(w: real): (r: string)
    ensures r == CategoryColor(DataScheduler.DetermineCategory(Some(w)))
  {
    SaffirSimpson.BandValue(w);
    CategoryColorOfBand(SaffirSimpson.Band(w));
    if w >= 130.0 then Colors[4]
    else if w >= 96.0 then Colors[3]
    else if w >= 74.0 then Colors[2]
    else if w >= 39.0 then Colors[1]
    else Colors[0]
  }

  /** More wind never gets a weaker colour. */
  lemma WindSpeedColorMonotone(v: real, w: real)
    requires v <= w
    ensures Shade(WindSpeedColor(v)) <= Shade(WindSpeedColor(w))
  {
    WindShade(v);
    WindShade(w);
  }

  /** The shade of a wind speed, read off its thresholds. */
  lemma WindShade(w: real)
    ensures Shade(WindSpeedColor(w)) ==
              if w >= 130.0 then 4 else if w >= 96.0 then 3 else if w >= 74.0 then 2
              else if w >= 39.0 then 1 else 0
  {
    var cs := Colors;
    assert cs[0] != cs[1] && cs[0] != cs[2] && cs[0] != cs[3] && cs[0] != cs[4];
    assert cs[1] != cs[2] && cs[1] != cs[3] && cs[1] != cs[4];
    assert cs[2] != cs[3] && cs[2] != cs[4] && cs[3] != cs[4];
  }

  /** What the list area shows. */
  datatype ListView = Loading | NoStorms | Cards(storms: seq<Hurricane>)

  /** The badge and the list area: the badge counts the storms handed in; the empty message
      shows iff loading is over and there is no storm. */
  function StormList(hurricanes: seq<Hurricane>, isLoading: bool): (r: (nat, ListView))
    ensures r.0 == |hurricanes|
    ensures r.1 == NoStorms <==> !isLoading && |hurricanes| == 0
    ensures r.1 == Loading <==> isLoading
    ensures r.1.Cards? ==> r.1.storms == hurricanes && |r.1.storms| > 0
  {
    (|hurricanes|, if isLoading then Loading else if |hurricanes| == 0 then NoStorms else Cards(hurricanes))
  }
}
