/**
 * Navigation-tab tracking: the last YouTube navigation enum name seen, the
 * map from tab views to buttons, the selected button, and the latch that
 * holds readers back after a hardware back press.  Views are opaque ids and
 * the latch is reduced to whether it is present.
 */
module NavigationBar {
  import opened Common

  /** A tab view, identified only by its identity. */
  type View = nat

  /** The navigation buttons, in declaration order. */
  datatype NavigationButton =
    | Home | Shorts | Create | Subscriptions | Notifications
    | LibraryLoggedOut | LibraryIncognito | LibraryOldUi | LibraryPivotUnknown | LibraryYou

  /** `NavigationButton.values()`. */
  const Buttons: seq<NavigationButton> :=
    [Home, Shorts, Create, Subscriptions, Notifications,
     LibraryLoggedOut, LibraryIncognito, LibraryOldUi, LibraryPivotUnknown, LibraryYou]

  /** The YouTube enum name each button is recognised by. */
  function YtEnumName(b: NavigationButton): string
  {
    match b
    case Home => "PIVOT_HOME"
    case Shorts => "TAB_SHORTS"
    case Create => "CREATION_TAB_LARGE"
    case Subscriptions => "PIVOT_SUBSCRIPTIONS"
    case Notifications => "TAB_ACTIVITY"
    case LibraryLoggedOut => "ACCOUNT_CIRCLE"
    case LibraryIncognito => "INCOGNITO_CIRCLE"
    case LibraryOldUi => "VIDEO_LIBRARY_WHITE"
    case LibraryPivotUnknown => "PIVOT_LIBRARY"
    case LibraryYou => "YOU_LIBRARY_DUMMY_PLACEHOLDER_NAME"
  }

  /** `values()` lists every button exactly once, and no two buttons share a
      YouTube enum name, so a name identifies at most one button. */
  lemma ButtonsAndNamesAreDistinct()
    ensures forall b :: b in Buttons
    ensures forall i, j :: 0 <= i < j < |Buttons| ==> Buttons[i] != Buttons[j]
    ensures forall a, b :: YtEnumName(a) == YtEnumName(b) ==> a == b
  {
    forall b
      ensures b in Buttons
    {
      match b
      case Home => assert Buttons[0] == b;
      case Shorts => assert Buttons[1] == b;
      case Create => assert Buttons[2] == b;
      case Subscriptions => assert Buttons[3] == b;
      case Notifications => assert Buttons[4] == b;
      case LibraryLoggedOut => assert Buttons[5] == b;
      case LibraryIncognito => assert Buttons[6] == b;
      case LibraryOldUi => assert Buttons[7] == b;
      case LibraryPivotUnknown => assert Buttons[8] == b;
      case LibraryYou => assert Buttons[9] == b;
    }
  }

  /** The library and 'You' tabs. */
  predicate IsLibraryOrYouTab(b: NavigationButton)
  {
    b == LibraryYou || b == LibraryPivotUnknown || b == LibraryOldUi || b == LibraryIncognito || b == LibraryLoggedOut
  }

  /** The library and 'You' tabs are exactly the last five buttons declared. */
  lemma LibraryTabsAreTheLastFive()
    ensures forall i :: 0 <= i < |Buttons| ==> (IsLibraryOrYouTab(Buttons[i]) <==> i >= 5)
  {
  }

  /** The first button of `buttons` whose enum name equals `name`; a null
      name matches nothing. */
  function FirstNamed(buttons: seq<NavigationButton>, name: Option<string>): (r: Option<NavigationButton>)
    ensures r.Some? ==> r.value in buttons && name == Some(YtEnumName(r.value))
    ensures r.None? ==> forall b :: b in buttons ==> name != Some(YtEnumName(b))
  {
    if |buttons| == 0 then None
    else if name == Some(YtEnumName(buttons[0])) then Some(buttons[0])
    else FirstNamed(buttons[1..], name)
  }

  /** Looking a button up by its own enum name finds that button. */
  lemma ButtonNamedRoundTrip(b: NavigationButton)
    ensures FirstNamed(Buttons, Some(YtEnumName(b))) == Some(b)
  {
    ButtonsAndNamesAreDistinct();
  }

  /** The tracked state. */
  datatype Bar = Bar(
    lastEnumName: Option<string>,
    viewToButton: map<View, NavigationButton>,
    selected: Option<NavigationButton>,
    latchPresent: bool)

  /** At start-up no tab is known and the latch is present, so readers wait
      for the bar to be initialised. */
  const Initial := Bar(None, map[], None, true)

  /** Records the name of a YouTube navigation enum; `null` is ignored. */
  function SetLastAppNavigationEnum(bar: Bar, enumName: Option<string>): (r: Bar)
    ensures enumName.None? ==> r == bar
    ensures enumName.Some? ==> r == bar.(lastEnumName := enumName)
  {
    if enumName.Some? then bar.(lastEnumName := enumName) else bar
  }

  /** Maps the loaded tab view to the button named by the last enum name;
      an unknown name changes nothing. */
  function NavigationTabLoaded(bar: Bar, view: View): (r: Bar)
    ensures forall b :: bar.lastEnumName == Some(YtEnumName(b)) ==> r == bar.(viewToButton := bar.viewToButton[view := b])
    ensures (forall b :: bar.lastEnumName != Some(YtEnumName(b))) ==> r == bar
  {
    ButtonsAndNamesAreDistinct();
    match FirstNamed(Buttons, bar.lastEnumName)
    case Some(b) => bar.(viewToButton := bar.viewToButton[view := b])
    case None => bar
  }

  /** The hook for the image-resource tabs: the 'Create' tab keeps its name,
      anything else is taken to be the 'You' tab. */
  function NavigationImageResourceTabLoaded(bar: Bar, view: View): (r: Bar)
    ensures bar.lastEnumName == Some(YtEnumName(Create)) ==> r == bar.(viewToButton := bar.viewToButton[view := Create])
    ensures bar.lastEnumName != Some(YtEnumName(Create)) ==>
      && r.lastEnumName == Some(YtEnumName(LibraryYou))
      && r.viewToButton == bar.viewToButton[view := LibraryYou]
    ensures r.selected == bar.selected && r.latchPresent == bar.latchPresent
  {
    if bar.lastEnumName == Some(YtEnumName(Create)) then NavigationTabLoaded(bar, view)
    else NavigationTabLoaded(bar.(lastEnumName := Some(YtEnumName(LibraryYou))), view)
  }

  /** A tab view changed its selected state. */
  function NavigationTabSelected(bar: Bar, view: View, isSelected: bool): (r: Bar)
    ensures !isSelected ==> r == bar
    ensures isSelected && view !in bar.viewToButton ==> r == bar.(selected := None)
    ensures isSelected && view in bar.viewToButton ==>
      r == bar.(selected := Some(bar.viewToButton[view]), latchPresent := false)
  {
    if !isSelected then bar
    else if view !in bar.viewToButton then bar.(selected := None)
    else bar.(selected := Some(bar.viewToButton[view]), latchPresent := false)
  }

  /** A hardware back press: readers wait until the bar is updated. */
  function OnBackPressed(bar: Bar): (r: Bar)
    ensures r.latchPresent
    ensures r.(latchPresent := bar.latchPresent) == bar
  {
    bar.(latchPresent := true)
  }

  /** Reads the selected button.  Off the main thread a present latch is
      waited on; with no other thread to release it the wait times out and
      the reader releases it. */
  function GetSelectedNavigationButton(bar: Bar, onMainThread: bool): (r: (Option<NavigationButton>, Bar))
    ensures r.0 == bar.selected
    ensures r.1.latchPresent <==> bar.latchPresent && onMainThread
    ensures r.1.(latchPresent := bar.latchPresent) == bar
  {
    if !bar.latchPresent || onMainThread then (bar.selected, bar)
    else (bar.selected, bar.(latchPresent := false))
  }

  /** The 'You' tab: loading it through the image-resource hook after any
      name but 'Create' and then selecting it makes it the selected button
      and releases the latch. */
  lemma YouTabLoadedThenSelected(bar: Bar, view: View)
    requires bar.lastEnumName != Some(YtEnumName(Create))
    ensures var r := NavigationTabSelected(NavigationImageResourceTabLoaded(bar, view), view, true);
            r.selected == Some(LibraryYou) && !r.latchPresent
  {
  }

  /** The 'Create' tab: loading it through the image-resource hook keeps
      the recorded name, and selecting it then selects the Create button
      and releases the latch. */
  lemma CreateTabLoadedThenSelected(bar: Bar, view: View)
    requires bar.lastEnumName == Some(YtEnumName(Create))
    ensures var r := NavigationTabSelected(NavigationImageResourceTabLoaded(bar, view), view, true);
            r.lastEnumName == Some(YtEnumName(Create)) && r.selected == Some(Create) && !r.latchPresent
  {
  }

  /** Selecting a tab that was loaded under a button's own enum name selects
      that button. */
  lemma LoadedTabSelectsItsButton(bar: Bar, view: View, b: NavigationButton)
    ensures var loaded := NavigationTabLoaded(SetLastAppNavigationEnum(bar, Some(YtEnumName(b))), view);
            NavigationTabSelected(loaded, view, true).selected == Some(b)
  {
  }
}
