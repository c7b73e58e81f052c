/** The navigation bar's scroll reaction and its animation-frame gate. The
    module globals `lastScrollY` and `ticking` are fields of one object, the
    bar's class list and inline style are fields too, and
    `requestAnimationFrame` is an outstanding-frame counter that a later
    frame event drains. Offsets are `real`, as `window.scrollY` is a
    JavaScript number and may be fractional. */
module Navbar {

  /** Offset above which the bar gets the `scrolled` class. */
  const CompactThreshold: real := 50.0
  /** Offset above which scrolling down hides the bar. */
  const HideThreshold: real := 100.0

  const HiddenTransform: string := "translateY(-100%)"
  const ShownTransform: string := "translateY(0)"

  predicate Compact(scrollY: real) { scrollY > CompactThreshold }

  /** Hidden only while moving down past the threshold; an unchanged offset
      counts as not moving down. */
  predicate Hidden(scrollY: real, lastScrollY: real)
    ensures Hidden(scrollY, lastScrollY) ==> Compact(scrollY)
  {
    scrollY > lastScrollY && scrollY > HideThreshold
  }

  class Navbar {
    var lastScrollY: real
    var ticking: bool
    /** Frame callbacks requested and not yet run. */
    var framesPending: nat
    /** Whether the class list holds `scrolled`. */
    var scrolled: bool
    var transform: string
    var opacity: string

    /** At most one frame is outstanding, exactly while `ticking` is set. */
    predicate Valid()
      reads this
    {
      framesPending == if ticking then 1 else 0
    }

    /** Script start-up: both globals start at zero and `false`, then the
        handler runs once at once, so a page loaded already scrolled gets
        its state. */
    constructor (scrollY: real, scrolled: bool, transform: string, opacity: string)
      ensures Valid() && !ticking && lastScrollY == scrollY
      ensures this.scrolled == Compact(scrollY)
      ensures this.transform == (if Hidden(scrollY, 0.0) then HiddenTransform else ShownTransform)
      ensures this.opacity == (if Hidden(scrollY, 0.0) then "0" else "1")
    {
      lastScrollY, ticking, framesPending := 0.0, false, 0;
      this.scrolled, this.transform, this.opacity := scrolled, transform, opacity;
      new;
      HandleScroll(scrollY);
    }

    /** `handleNavbarScroll`, reading `window.scrollY` as `scrollY`. */
    method HandleScroll(scrollY: real)
      modifies this
      ensures scrolled == Compact(scrollY)
      ensures transform == (if Hidden(scrollY, old(lastScrollY)) then HiddenTransform else ShownTransform)
      ensures opacity == (if Hidden(scrollY, old(lastScrollY)) then "0" else "1")
      ensures lastScrollY == scrollY && !ticking
      ensures framesPending == old(framesPending)
    {
      if scrollY > CompactThreshold {
        scrolled := true;
      } else {
        scrolled := false;
      }
      if scrollY > lastScrollY && scrollY > HideThreshold {
        transform := HiddenTransform;
        opacity := "0";
      } else {
        transform := ShownTransform;
        opacity := "1";
      }
      lastScrollY := scrollY;
      ticking := false;
    }

    /** The `scroll` listener: requests a frame only when none is pending. */
    method OnScroll()
      requires Valid()
      modifies this`ticking, this`framesPending
      ensures Valid() && ticking
      ensures framesPending == 1
      ensures old(ticking) ==> framesPending == old(framesPending)
    {
      if !ticking {
        framesPending := framesPending + 1;
        ticking := true;
      }
    }

    /** The browser running the requested frame callback. */
    method OnFrame(scrollY: real)
      requires Valid() && framesPending > 0
      modifies this
      ensures Valid() && !ticking && framesPending == 0
      ensures scrolled == Compact(scrollY)
      ensures transform == (if Hidden(scrollY, old(lastScrollY)) then HiddenTransform else ShownTransform)
      ensures opacity == (if Hidden(scrollY, old(lastScrollY)) then "0" else "1")
      ensures lastScrollY == scrollY
    {
      framesPending := framesPending - 1;
      HandleScroll(scrollY);
    }
  }
}
