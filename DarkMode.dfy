/** The persisted theme toggle. Storage is the one key `darkMode`, read as an
    optional string (`null` when absent); the system colour-scheme query is a
    boolean input; the toggle button, when the page has one, is its label
    and `aria-pressed` attribute. */
module DarkMode {
  import opened Wrappers

  const Enabled: string := "enabled"
  const Disabled: string := "disabled"

  datatype Button = Button(caption: string, ariaPressed: string)

  /** The stored string for a theme. */
  function StoredFlag(dark: bool): (r: string) { if dark then Enabled else Disabled }

  /** The button's label and pressed state for a theme. */
  function ButtonFor(dark: bool): (r: Button)
  {
    if dark then Button("Light Mode", "true") else Button("Dark Mode", "false")
  }

  /** The start-up choice: dark for a stored "enabled", or for nothing stored
      while the system prefers dark. */
  function InitialDark(saved: Option<string>, prefersDark: bool): (r: bool)
    ensures saved == Some(Enabled) ==> r
    ensures saved == Some(Disabled) ==> !r
  {
    saved == Some(Enabled) || (saved == None && prefersDark)
  }

  /** A stored value decides on its own, whatever the system signal: only
      "enabled" gives dark. Without one, the system signal decides. */
  lemma InitialDarkCases(saved: Option<string>, prefersDark: bool)
    ensures saved.Some? ==> (InitialDark(saved, prefersDark) <==> saved.value == Enabled)
    ensures saved.None? ==> InitialDark(saved, prefersDark) == prefersDark
  {
  }

  /** What a theme change stores reads back as the same theme at the next
      start-up. */
  lemma StoredFlagRoundTrip(dark: bool, prefersDark: bool)
    ensures InitialDark(Some(StoredFlag(dark)), prefersDark) == dark
  {
  }

  /** The four effects of a theme change tell the same story. */
  predicate Agree(dark: bool, stored: Option<string>, button: Option<Button>)
  {
    stored == Some(StoredFlag(dark)) && (button.Some? ==> button.value == ButtonFor(dark))
  }

  /** The stored string and the button each determine the theme. */
  lemma AgreeDetermines(dark: bool, other: bool, stored: Option<string>, button: Option<Button>)
    requires Agree(dark, stored, button)
    ensures (stored == Some(Enabled)) == dark
    ensures button.Some? ==> (button.value.ariaPressed == "true") == dark
    ensures Agree(other, stored, button) ==> other == dark
  {
  }

  class Theme {
    /** Whether the root element's class list holds `dark-mode`. */
    var rootDark: bool
    /** `localStorage.getItem('darkMode')`. */
    var stored: Option<string>
    /** The toggle button, when the page has one. */
    var button: Option<Button>

    predicate Consistent()
      reads this
    {
      Agree(rootDark, stored, button)
    }

    /** Script start-up over a page whose root class, storage and button are
        given. Without a button nothing is set up; with one, the theme is
        chosen from storage and the system signal. */
    constructor (rootDark: bool, saved: Option<string>, prefersDark: bool, button: Option<Button>)
      ensures this.button.Some? == button.Some?
      ensures button.None? ==> this.rootDark == rootDark && stored == saved && this.button == None
      ensures button.Some? ==> this.rootDark == InitialDark(saved, prefersDark) && Consistent()
    {
      this.rootDark, stored, this.button := rootDark, saved, button;
      new;
      if button.Some? {
        if saved == Some(Enabled) || (saved == None && prefersDark) {
          SetDarkMode(true);
        } else {
          SetDarkMode(false);
        }
      }
    }

    /** `setDarkMode(enabled)`: the root class, the stored string and, when
        there is a button, its label and pressed state all follow `enabled`. */
    method SetDarkMode(enabled: bool)
      modifies this
      ensures rootDark == enabled
      ensures stored == Some(if enabled then Enabled else Disabled)
      ensures button == if old(button).Some? then Some(ButtonFor(enabled)) else None
      ensures Consistent()
    {
      if enabled {
        rootDark := true;
        stored := Some(Enabled);
        if button.Some? {
          button := Some(Button("Light Mode", "true"));
        }
      } else {
        rootDark := false;
        stored := Some(Disabled);
        if button.Some? {
          button := Some(Button("Dark Mode", "false"));
        }
      }
    }

    /** The button's click listener: the opposite of the applied theme. */
    method Click()
      requires button.Some?
      modifies this
      ensures rootDark == !old(rootDark)
      ensures Consistent() && button.Some?
    {
      var isDark := rootDark;
      SetDarkMode(!isDark);
    }
  }
}
