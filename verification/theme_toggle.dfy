/** The theme toggle: one button per installed theme plus "auto", with the active one highlighted. */
module ThemeToggle {
  import opened Wrappers

  datatype Theme = Theme(id: string, title: string, variant: string)

  datatype Icon = Sun | Moon | Monitor

  function IconOf(variant: string): (i: Icon)
    ensures i == Sun <==> variant == "light"
    ensures i == Moon <==> variant == "dark"
  {
    if variant == "light" then Sun else if variant == "dark" then Moon else Monitor
  }

  datatype Choice = Choice(id: string, caption: string, icon: Icon)

  const AutoId: string := "auto"

  /** The buttons: the installed themes in order, then "Auto". */
  function Choices(themes: seq<Theme>): (cs: seq<Choice>)
    ensures |cs| == |themes| + 1
    ensures forall i :: 0 <= i < |themes| ==>
      cs[i] == Choice(themes[i].id, themes[i].title, IconOf(themes[i].variant))
    ensures cs[|themes|] == Choice(AutoId, "Auto", Monitor)
  {
    seq(|themes|, i requires 0 <= i < |themes| => Choice(themes[i].id, themes[i].title, IconOf(themes[i].variant)))
      + [Choice(AutoId, "Auto", Monitor)]
  }

  /** The selected id: the active theme, or "auto" when none is set. */
  function Selected(active: Option<string>): (id: string)
    ensures active.None? ==> id == AutoId
    ensures active.Some? ==> id == active.value
  {
    active.GetOr(AutoId)
  }

  /** What a click on a button sets as the active theme: nothing for "auto". */
  function OnClick(id: string): (active: Option<string>)
    ensures active.None? <==> id == AutoId
  {
    if id == AutoId then None else Some(id)
  }

  /** A click selects the button clicked. */
  lemma ClickSelects(id: string)
    ensures Selected(OnClick(id)) == id
  {
  }

  predicate Highlighted(cs: seq<Choice>, active: Option<string>, i: int)
    requires 0 <= i < |cs|
  {
    cs[i].id == Selected(active)
  }

  predicate DistinctIds(themes: seq<Theme>) {
    forall i, j :: 0 <= i < j < |themes| ==> themes[i].id != themes[j].id
  }

  /** With distinct theme ids none of which is "auto", no two buttons are highlighted at once. */
  lemma AtMostOneHighlighted(themes: seq<Theme>, active: Option<string>, i: int, j: int)
    requires DistinctIds(themes)
    requires forall k :: 0 <= k < |themes| ==> themes[k].id != AutoId
    requires 0 <= i < j <= |themes|
    ensures !(Highlighted(Choices(themes), active, i) && Highlighted(Choices(themes), active, j))
  {
  }

  /** Some button is highlighted exactly when the selected id is "auto" or an installed theme's. */
  lemma SomeHighlighted(themes: seq<Theme>, active: Option<string>)
    ensures (exists i :: 0 <= i < |themes| + 1 && Highlighted(Choices(themes), active, i)) <==>
            (Selected(active) == AutoId || exists k :: 0 <= k < |themes| && themes[k].id == Selected(active))
  {
    var cs := Choices(themes);
    if Selected(active) == AutoId {
      assert Highlighted(cs, active, |themes|);
    }
    if exists k :: 0 <= k < |themes| && themes[k].id == Selected(active) {
      var k :| 0 <= k < |themes| && themes[k].id == Selected(active);
      assert Highlighted(cs, active, k);
    }
  }
}
