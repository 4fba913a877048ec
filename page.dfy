/**
 * The calculator page's side of the bar setting (src/routes/App.tsx:172-182):
 * its own copy of the bar and the toggle that writes both that copy and the
 * stored settings.
 */
module CalculatorPage {
  import opened SettingsPanel

  /**
   * The calculator page's state: `barbellWeight` is its `useState` copy of the
   * bar, taken once from `settings.barbellWeight` when the page mounts.
   */
  datatype Calculator = Calculator(barbellWeight: Option<real>, settings: Settings)

  /**
   * `handleBarbellWeightChange` on the calculator page: a selected toggle sets
   * the page's bar and `{ ...settings, barbellWeight }`; `null` changes nothing.
   */
  function HandleCalculatorBarbellWeightChange(c: Calculator, newWeight: Option<real>): (r: Calculator)
    ensures newWeight == None ==> r == c
    ensures newWeight != None ==> r.barbellWeight == newWeight
    ensures r.settings == HandleBarbellWeightChange(c.settings, newWeight)
  {
    if newWeight == None then c
    else Calculator(newWeight, HandleChange(c.settings, BarbellWeight(newWeight)))
  }

  /** The page's bar and the stored bar agree before a change, so they agree after it. */
  lemma CalculatorBarInSync(c: Calculator, newWeight: Option<real>)
    requires c.barbellWeight == c.settings.barbellWeight
    ensures var r := HandleCalculatorBarbellWeightChange(c, newWeight);
            r.barbellWeight == r.settings.barbellWeight
  {
    var r := HandleCalculatorBarbellWeightChange(c, newWeight);
    assert Get(r.settings, BarbellWeightKey) == BarbellWeight(r.settings.barbellWeight);
  }

  /**
   * The panel's toggle writes only the stored bar; the page's copy, taken once
   * from the settings, is not written again, so a new bar leaves the two apart.
   * `r` is the page after the toggle: its own copy as before, the settings as
   * the panel leaves them.
   */
  lemma PanelBarLeavesCalculator(c: Calculator, newWeight: real)
    requires c.barbellWeight == c.settings.barbellWeight
    requires c.barbellWeight != Some(newWeight)
    ensures var r := Calculator(c.barbellWeight, HandleBarbellWeightChange(c.settings, Some(newWeight)));
            r.settings.barbellWeight == Some(newWeight) && r.barbellWeight != r.settings.barbellWeight
  {
    var s := HandleBarbellWeightChange(c.settings, Some(newWeight));
    assert Get(s, BarbellWeightKey) == BarbellWeight(Some(newWeight));
  }
}
