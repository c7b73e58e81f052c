/** Event sequences driven through the component classes, with the outcome
    each one must have. */
module Scenarios {
  import opened Wrappers
  import Navbar
  import Debounce
  import DarkMode
  import Typewriter
  import JsString

  /** Offsets 0, 60, 200, 150: normal and shown, compact and shown, compact
      and hidden, compact and shown again (moving up). */
  method NavbarOffsets() returns (compact: seq<bool>, hidden: seq<bool>)
    ensures compact == [false, true, true, true]
    ensures hidden == [false, false, true, false]
  {
    var bar := new Navbar.Navbar(0.0, false, Navbar.ShownTransform, "1");
    compact, hidden := [bar.scrolled], [bar.transform == Navbar.HiddenTransform];
    var offsets := [60.0, 200.0, 150.0];
    var i := 0;
    while i < |offsets|
      invariant 0 <= i <= |offsets| && bar.Valid() && !bar.ticking
      invariant bar.lastScrollY == ([0.0] + offsets)[i]
      invariant compact == [false, true, true, true][..i + 1]
      invariant hidden == [false, false, true, false][..i + 1]
    {
      bar.OnScroll();
      bar.OnScroll();
      bar.OnFrame(offsets[i]);
      compact, hidden := compact + [bar.scrolled], hidden + [bar.transform == Navbar.HiddenTransform];
      i := i + 1;
    }
  }

  /** Three rapid calls then the timer: one run of the callback, with the
      arguments of the last call. */
  method DebounceBurst() returns (runs: seq<int>)
    ensures runs == [3]
  {
    var d := new Debounce.Debouncer<int>(100);
    d.Call(1);
    d.Call(2);
    d.Call(3);
    var _ := d.Fire();
    runs := d.invocations;
  }

  /** Nothing stored and a dark system gives dark; a stored "disabled" wins
      over a dark system. */
  method ThemeStartUp() returns (first: bool, second: bool)
    ensures first && !second
  {
    var button := Some(DarkMode.Button("Dark Mode", "false"));
    var a := new DarkMode.Theme(false, None, true, button);
    var b := new DarkMode.Theme(false, Some(DarkMode.Disabled), true, button);
    first, second := a.rootDark, b.rootDark;
  }

  /** Two clicks give back the original root class, stored value and button. */
  method DoubleClick(theme: DarkMode.Theme)
    requires theme.button.Some? && theme.Consistent()
    modifies theme
    ensures theme.rootDark == old(theme.rootDark)
    ensures theme.stored == old(theme.stored) && theme.button == old(theme.button)
  {
    theme.Click();
    theme.Click();
  }

  /** A cycle over a two-letter phrase `p`: its first letter, then `p`
      three times in a row (twice while typing, once as deleting begins),
      then the first letter and the empty string. */
  lemma TwoLetterCycle(phrases: seq<string>, i: int, j: nat)
    requires 0 <= i < |phrases| && |phrases[i]| == 2 && j < 6
    ensures var p := phrases[i];
            Typewriter.Shown(phrases, Typewriter.Iterate(phrases, Typewriter.TypeState(i, 0, false), j))
            == [p[..1], p, p, p, p[..1], ""][j]
  {
    var p := phrases[i];
    Typewriter.CycleShown(phrases, i, j);
    assert p[..if j <= 2 then Typewriter.Min(j + 1, 2) else 5 - j] == [p[..1], p, p, p, p[..1], ""][j];
  }

  /** Twelve ticks over two two-letter phrases: the cycle of the first,
      then the cycle of the second. */
  lemma TwoLetterPhrases(phrases: seq<string>, j: nat)
    requires |phrases| == 2 && |phrases[0]| == 2 && |phrases[1]| == 2 && j < 12
    ensures var p, q := phrases[0], phrases[1];
            Typewriter.Shown(phrases, Typewriter.Iterate(phrases, Typewriter.Start, j))
            == if j < 6 then [p[..1], p, p, p, p[..1], ""][j] else [q[..1], q, q, q, q[..1], ""][j - 6]
  {
    if j < 6 {
      TwoLetterCycle(phrases, 0, j);
    } else {
      Typewriter.PhraseCycle(phrases, 0);
      Typewriter.IterateAppend(phrases, Typewriter.Start, 6, j - 6);
      TwoLetterCycle(phrases, 1, j - 6);
    }
  }

  /** The page start-up over the attribute "Hi,Yo": the text the element
      shows at each of the first twelve ticks. */
  lemma TypewriterHiYo(attribute: string, j: nat)
    requires attribute == "Hi,Yo" && j < 12
    ensures var phrases := JsString.Split(attribute, ',');
            Typewriter.Shown(phrases, Typewriter.Iterate(phrases, Typewriter.Start, j))
            == ["H", "Hi", "Hi", "Hi", "H", "", "Y", "Yo", "Yo", "Yo", "Y", ""][j]
  {
    JsString.SplitOfJoin(["Hi", "Yo"], ',');
    assert JsString.Join(["Hi", "Yo"], ',') == attribute;
    TwoLetterPhrases(["Hi", "Yo"], j);
  }
}
