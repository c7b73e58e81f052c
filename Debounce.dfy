/** `debounce(fn, delay)` and its one use, the scroll-to-top button. The
    captured `timer` is a single pending slot holding the arguments of the
    scheduled call; `clearTimeout` followed by `setTimeout` overwrites it. The
    timer firing is an event; `fn` running is recorded in `invocations`. */
module Debounce {
  import opened Wrappers

  /** The delay `debounce` uses when none is passed. */
  const DefaultDelay: nat := 100

  class Debouncer<A> {
    const delay: nat
    /** The scheduled, not yet run, call and its arguments. */
    var pending: Option<A>
    /** The arguments of every call of `fn`, in order. */
    var invocations: seq<A>

    /** `debounce(fn, delay)`: nothing scheduled yet. */
    constructor (delay: nat)
      ensures this.delay == delay && pending == None && invocations == []
    {
      this.delay := delay;
      pending := None;
      invocations := [];
    }

    /** `debounce(fn)` without a delay: the default applies. */
    constructor WithDefaultDelay()
      ensures delay == DefaultDelay && pending == None && invocations == []
    {
      delay := DefaultDelay;
      pending := None;
      invocations := [];
    }

    /** A call of the wrapper: the previous pending call is cancelled and
        replaced by one with these arguments. */
    method Call(args: A)
      modifies this`pending
      ensures pending == Some(args)
    {
      pending := Some(args);
    }

    /** The timer elapsing: `fn` runs once with the arguments of the most
        recent call, and nothing is pending any more. */
    method Fire() returns (args: A)
      requires pending.Some?
      modifies this
      ensures args == old(pending).value
      ensures invocations == old(invocations) + [args]
      ensures pending == None
    {
      args := pending.value;
      invocations := invocations + [args];
      pending := None;
    }
  }

  /** Offset above which the scroll-to-top button is shown. */
  const ShowThreshold: real := 300.0
  /** The debounce delay used for the button. */
  const ButtonDelay: nat := 50

  predicate ShowsButton(scrollY: real) { scrollY > ShowThreshold }

  /** The scroll event object passed to the debounced wrapper; the callback
      ignores it and reads the offset when it runs. */
  datatype ScrollEvent = ScrollEvent(scrollYAtEvent: real)

  /** The scroll-to-top button and its debounced scroll listener. */
  class ScrollToTop {
    const timer: Debouncer<ScrollEvent>
    /** Whether the button's class list holds `show`. */
    var show: bool

    constructor (show: bool)
      ensures this.show == show && fresh(timer)
      ensures timer.delay == ButtonDelay && timer.pending == None && timer.invocations == []
    {
      this.show := show;
      timer := new Debouncer(ButtonDelay);
    }

    method OnScroll(event: ScrollEvent)
      modifies timer`pending
      ensures timer.pending == Some(event)
      ensures show == old(show)
    {
      timer.Call(event);
    }

    /** The debounce timer elapsing while the page is at offset `scrollY`:
        the button is shown exactly when that offset is above 300. */
    method OnTimer(scrollY: real)
      requires timer.pending.Some?
      modifies this, timer
      ensures show == ShowsButton(scrollY)
      ensures timer.pending == None
      ensures timer.invocations == old(timer.invocations) + [old(timer.pending).value]
    {
      var _ := timer.Fire();
      if scrollY > ShowThreshold {
        show := true;
      } else {
        show := false;
      }
    }
  }
}
