/** The screen router: the application's ScreenManager and which of its ten
    screens is showing. */
module Navigation {

  const Menu: string := "menu"

  /** The screens CalcApp.build registers, in the order it adds them. */
  function ScreenNames(): seq<string>
  {
    ["menu", "si", "ci", "bmi", "emi", "temp", "unit", "age", "compare", "sci"]
  }

  /** The menu's buttons: the label shown and the screen it opens. */
  function Features(): seq<(string, string)>
  {
    [ ("Simple Interest", "si"),
      ("Compound Interest", "ci"),
      ("BMI", "bmi"),
      ("Loan EMI", "emi"),
      ("Temperature Converter", "temp"),
      ("Unit Converter", "unit"),
      ("Age Calculator", "age"),
      ("SI vs CI Comparison", "compare"),
      ("Scientific Calculator", "sci") ]
  }

  /** Which menu button was pressed. */
  type FeatureIndex = i: int | 0 <= i < 9

  predicate IsScreen(name: string)
  {
    name in ScreenNames()
  }

  /** A user action on the router: a menu button, or a screen's Back button. */
  datatype Action = Open(button: FeatureIndex) | Back

  /** The screen showing after an action: a menu button shows its feature
      screen, Back always shows the menu. */
  function Next(current: string, a: Action): (next: string)
    ensures IsScreen(next)
    ensures a.Back? <==> next == Menu
    ensures a.Open? ==> next == Features()[a.button].1
  {
    MenuOpensEveryFeature();
    match a
    case Open(i) => Features()[i].1
    case Back => Menu
  }

  /** One action as the user can perform it: the menu buttons are on the
      menu screen only, so an Open pressed while another screen shows does
      nothing; every feature screen has a Back button. */
  function Press(current: string, a: Action): (next: string)
    requires IsScreen(current)
    ensures IsScreen(next)
    ensures a.Back? ==> next == Menu
    ensures a.Open? && current == Menu ==> next == Features()[a.button].1 && next != Menu
    ensures a.Open? && current != Menu ==> next == current
  {
    if a.Open? && current != Menu then current else Next(current, a)
  }

  /** The screen showing after a run of actions. */
  function Run(current: string, actions: seq<Action>): string
    requires IsScreen(current)
    decreases |actions|
  {
    if actions == [] then current else Run(Press(current, actions[0]), actions[1..])
  }

  /** The menu buttons open exactly the nine feature screens, one each:
      every registered screen but the menu. */
  lemma MenuOpensEveryFeature()
    ensures forall i: FeatureIndex :: IsScreen(Features()[i].1) && Features()[i].1 != Menu
    ensures forall i: FeatureIndex, j: FeatureIndex :: i != j ==> Features()[i].1 != Features()[j].1
    ensures forall name :: IsScreen(name) && name != Menu ==> exists i: FeatureIndex :: Features()[i].1 == name
  {
    forall name | IsScreen(name) && name != Menu
      ensures exists i: FeatureIndex :: Features()[i].1 == name
    {
      var k :| 0 <= k < |ScreenNames()| && ScreenNames()[k] == name;
      assert k != 0;
      assert Features()[k - 1].1 == name;
    }
  }

  /** Started on a registered screen, every run of actions ends on one, and
      a run ending in Back ends on the menu. */
  lemma {:induction false} RunStaysOnScreens(current: string, actions: seq<Action>)
    requires IsScreen(current)
    decreases |actions|
    ensures IsScreen(Run(current, actions))
    ensures actions != [] && actions[|actions| - 1] == Back ==> Run(current, actions) == Menu
  {
    if actions != [] {
      RunStaysOnScreens(Press(current, actions[0]), actions[1..]);
      if actions[|actions| - 1] == Back {
        assert |actions| == 1 ==> Run(current, actions) == Press(current, Back);
        assert |actions| > 1 ==> actions[1..][|actions[1..]| - 1] == Back;
      }
    }
  }

  /** The ScreenManager: its one field the buttons change is `current`. */
  class ScreenManager {
    var current: string

    ghost predicate Valid()
      reads this
    {
      IsScreen(current)
    }

    /** CalcApp.build: the menu, added first, is the screen shown first. */
    constructor ()
      ensures Valid() && current == Menu
    {
      current := Menu;
    }

    /** A menu button, which only the menu screen shows: show the button's
        feature screen. */
    method Open(i: FeatureIndex)
      requires Valid() && current == Menu
      modifies this
      ensures Valid()
      ensures current == Next(old(current), Action.Open(i)) && current != Menu
    {
      current := Features()[i].1;
    }

    /** A feature screen's Back button: show the menu, whatever was showing. */
    method Back()
      requires Valid()
      modifies this
      ensures Valid()
      ensures current == Next(old(current), Action.Back) && current == Menu
    {
      current := Menu;
    }
  }
}
