/** Closing the app by pressing back twice, quickly, at the top of the home
    feed. Times are milliseconds from the clock, passed in. */
module DoubleBack {

  datatype Back = Back(timeout: int, lastTimeBackPressed: int, isScrollTop: bool)

  /** The timeout setting is in seconds. */
  function Initial(timeoutSeconds: int): (b: Back)
    ensures b.timeout == timeoutSeconds * 1000
    ensures b.lastTimeBackPressed == 0 && !b.isScrollTop
  {
    Back(timeoutSeconds * 1000, 0, false)
  }

  datatype Pressed = Pressed(state: Back, finish: bool)

  /** One back press at time `now`: away from the top nothing happens; at the
      top the app is finished when the previous press was less than the
      timeout ago (or the timeout is zero), and otherwise the press is
      remembered. */
  function CloseActivityOnBackPressed(b: Back, now: int): (r: Pressed)
    ensures !b.isScrollTop ==> r == Pressed(b, false)
    ensures r.finish <==> b.isScrollTop && (now - b.lastTimeBackPressed < b.timeout || b.timeout == 0)
    ensures r.finish ==> r.state == b
    ensures b.isScrollTop && !r.finish ==> r.state == b.(lastTimeBackPressed := now)
  {
    if !b.isScrollTop then Pressed(b, false)
    else if now - b.lastTimeBackPressed < b.timeout || b.timeout == 0 then Pressed(b, true)
    else Pressed(b.(lastTimeBackPressed := now), false)
  }

  function OnStartScrollView(b: Back): (r: Back)
    ensures !r.isScrollTop && r.timeout == b.timeout && r.lastTimeBackPressed == b.lastTimeBackPressed
  {
    b.(isScrollTop := false)
  }

  function OnStopScrollView(b: Back): (r: Back)
    ensures r.isScrollTop && r.timeout == b.timeout && r.lastTimeBackPressed == b.lastTimeBackPressed
  {
    b.(isScrollTop := true)
  }

  /** A first press that does not close the app arms it: a second press
      within the timeout closes it, and a later one only re-arms it. */
  lemma SecondPressWithinTimeoutCloses(b: Back, first: int, second: int)
    requires b.isScrollTop && b.timeout > 0
    requires !CloseActivityOnBackPressed(b, first).finish
    ensures var armed := CloseActivityOnBackPressed(b, first).state;
            CloseActivityOnBackPressed(armed, second).finish <==> second - first < b.timeout
  {
  }

  /** With a zero timeout every press at the top closes the app. */
  lemma ZeroTimeoutClosesAtOnce(timeoutSeconds: int, now: int)
    requires timeoutSeconds == 0
    ensures CloseActivityOnBackPressed(OnStopScrollView(Initial(timeoutSeconds)), now).finish
  {
  }

  /** Scrolling away from the top disarms the gesture whatever the times. */
  lemma ScrollingDisarms(b: Back, now: int)
    ensures CloseActivityOnBackPressed(OnStartScrollView(b), now) == Pressed(OnStartScrollView(b), false)
  {
  }
}
