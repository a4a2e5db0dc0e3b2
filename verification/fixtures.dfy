/** The demo storm the mock feed describes: Hurricane Erin with 130 mph sustained wind,
    reported as a Category 4 Hurricane. */
module Fixtures {
  import opened Wrappers
  import Text
  import DataScheduler
  import ControlPanel

  /** The stored key of the demo storm. */
  lemma ErinSlug()
    ensures Text.Slug("Hurricane Erin") == "hurricane-erin"
  {
    ErinLower();
    SlugOfTwoWords("hurricane", "erin");
  }

  lemma ErinLower()
    ensures Text.ToLower("Hurricane Erin") == "hurricane" + " " + "erin"
  {
    var lower := Text.ToLower("Hurricane Erin");
    forall i | 0 <= i < 14
      ensures lower[i] == ("hurricane" + " " + "erin")[i]
    {
    }
  }

  /** Two space-free words joined by one space collapse to the words joined by a dash. */
  lemma SlugOfTwoWords(a: string, b: string)
    requires Text.NoSpace(a) && Text.NoSpace(b) && b != []
    ensures Text.CollapseSpaces(a + " " + b) == a + "-" + b
  {
    Text.CollapseWordRun(a, " ", b);
    Text.CollapseNoSpace(b);
  }

  /** The demo wind gives the reported intensity, drawn in the strongest colour. */
  lemma ErinCategory()
    ensures DataScheduler.DetermineCategory(Some(130.0)) == "Category 4 Hurricane"
    ensures ControlPanel.WindSpeedColor(130.0) == "text-hurricane-500"
  {
  }
}
