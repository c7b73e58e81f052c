# Portfolio page script: a verified model of its state machines

`script.js` enhances a static portfolio page. Under its DOM calls it runs five
small sequential state machines, and this project models each one as a Dafny
class. Browser events are method calls: a scroll, an animation frame, a timer
firing, an intersection batch, a click, page load. What the script writes is
held in fields: class-list membership, inline style strings, `textContent`,
attributes and the stored theme string. Conditions that are pure expressions
are small functions and predicates. Each class method is proved against them.

- `Typewriter`: the hero-title animator `typewriterEffect`/`type()`. The pure
  `Step` function (built from `Next`, `Shown` and `Delay`) gives one tick:
  the new closure state (phrase index, character index, deleting flag), the
  text shown and the next delay. The
  `Typewriter` class does the same tick step by step. Lemmas cover the
  reachable bounds, the mode switches and whole phrase cycles.
- `JsString`: ECMAScript `substring` (clamping and swapping its arguments)
  and `split` on one character (over code points, see "## Left out"), which
  the start-up uses to read the phrase list from its attribute.
- `Navbar`: `handleNavbarScroll` and the `requestAnimationFrame` gate on the
  `ticking` flag.
- `Debounce`: `debounce` as a single pending slot, and the scroll-to-top
  button that uses it.
- `DarkMode`: `setDarkMode`, the toggle click and the start-up choice from
  storage and the system colour scheme.
- `Observers`: the one-shot `generalObserver` (reveal class) and
  `imageObserver` (lazy `src`) callbacks.
- `NavHighlight`: the `highlightObserver` callback and the `load` fallback
  for an address with a hash.
- `Scenarios`: event sequences driven through the classes, with their
  expected outcomes.

Inputs the script reads from the browser are parameters: `window.scrollY`,
`location.hash`, the stored `darkMode` value (`Option<string>`), the
`prefers-color-scheme: dark` query, and each entry's `isIntersecting`. The
typewriter's delays and the scroll offsets are `real` numbers: `speed / 2` is
a JavaScript number division, and `window.scrollY` may be fractional. The
debounce delay is a whole number of milliseconds, as both of its values are.

Three consequences of the code worth knowing:
- The typewriter shows the full phrase on three ticks in a row. For "Hi,Yo"
  the texts are H, Hi, Hi, Hi, H, "", Y, Yo, … (`Scenarios.TypewriterHiYo`).
  The first deleting tick still has `charIndex = len + 1`, so
  `substring(0, charIndex - 1)` is the whole phrase.
- After a batch with an intersecting entry, or a load with a non-empty hash,
  at most one nav link is active when the links' hrefs are distinct
  (`NavHighlight.AtMostOneActive`). None is active when no href matches the
  section. A batch with no intersecting entry leaves the links as they were.
- A stored value other than "enabled" gives light mode, whatever the system
  prefers.

## Model

| member | source | states |
|---|---|---|
| `JsString.Substring` | script.js:210-213 | the result's length is the distance between the two clamped indices |
| `JsString.SubstringInOrder` | script.js:210-213 | indices inside the string and in order select exactly that slice |
| `JsString.SubstringSymmetric` | script.js:210-213 | swapping the two arguments gives the same string |
| `JsString.SubstringClamped` | script.js:210-213 | clamping the arguments to `[0, len]` first gives the same string, so negative or too-large indices are harmless |
| `JsString.SubstringPrefix` | script.js:210-213 | `substring(0, n)` is the prefix whose length is `n` clamped to the string |
| `JsString.Split` | script.js:241 | `split(',')` yields one more piece than there are commas (so at least one, possibly empty), and no piece holds a comma |
| `JsString.JoinOfSplit` | script.js:241 | joining the pieces of a split with the separator gives back the attribute string |
| `JsString.SplitOfJoin` | script.js:241 | splitting a join of comma-free pieces gives back exactly those pieces |
| `Typewriter.Next` | script.js:209-231 | the closure state after a tick keeps the phrase index within `[0, count)` |
| `Typewriter.Shown` | script.js:206-217 | the text a tick writes is always a prefix of the current phrase |
| `Typewriter.Delay` | script.js:219-231 | the next delay is one of 1500, 500, `speed` or `speed / 2`; which one is stated by `StepTransitions` |
| `Typewriter.Step` | script.js:205-233 | one `type()` tick keeps the phrase index in range and shows a prefix of the current phrase; its transitions are stated by `StepTransitions` and `StepBounded` |
| `Typewriter.StepBounded` | script.js:206-229 | typing keeps `0 <= charIndex <= len`, deleting keeps `1 <= charIndex <= len + 1`; the text shown is the current phrase's prefix of length `min(new charIndex, len)` |
| `Typewriter.StepTransitions` | script.js:209-233 | the index moves up by one while typing and down by one while deleting; typing turns to deleting exactly at `len + 1` with delay 1500; deleting turns to typing exactly at 0, with the phrase advanced modulo the count and delay 500; otherwise the phrase stays and the delay is `speed`, or `speed / 2` while deleting |
| `Typewriter.IterateBounded` | script.js:200-236 | every state reached from a bounded state by any number of ticks is bounded |
| `Typewriter.CycleState` | script.js:209-231 | `k` ticks after the start of phrase `i`, the state is typing at `k` up to `len`, then deleting at `2·len + 2 − k` |
| `Typewriter.PhraseCycle` | script.js:224-230 | a cycle over phrase `i` takes `2·len + 2` ticks and ends at the start of phrase `(i + 1) mod count` |
| `Typewriter.CycleShown` | script.js:209-231 | tick `j` of a phrase cycle shows the prefix of length `min(j + 1, len)` while typing and `2·len + 1 − j` while deleting, so the full phrase appears three times in a row |
| `Typewriter.IterateAppend` | script.js:233 | the self-rescheduling loop composes: `a` ticks then `b` more are `a + b` ticks |
| `Typewriter.Typewriter.constructor` | script.js:200-236 | the closure starts at phrase 0, index 0, typing, and the first tick runs at once |
| `Typewriter.Typewriter.FromAttribute` | script.js:239-243 | start-up uses the attribute's comma-separated pieces and the default speed 100 |
| `Typewriter.Typewriter.Type` | script.js:205-234 | the object's state, text and scheduled delay become exactly the tick given by `Step`, and the bounds invariant is kept |
| `Navbar.Compact` | script.js:21 | the `scrolled` rule, offset above 50; `HandleScroll` states that the class follows it |
| `Navbar.Hidden` | script.js:28 | the hide rule, moving down and above 100; a hidden bar is always also compact; `HandleScroll` states the styles follow it |
| `Navbar.Navbar.constructor` | script.js:14-51 | `lastScrollY = 0` and `ticking = false`, then the handler runs once eagerly on the load-time offset |
| `Navbar.Navbar.HandleScroll` | script.js:17-40 | `scrolled` iff the offset is above 50; hidden (`translateY(-100%)`, opacity 0) iff the offset is above the last offset and above 100, else shown; then `lastScrollY` is the offset and `ticking` is false |
| `Navbar.Navbar.OnScroll` | script.js:43-48 | a scroll requests a frame only when `ticking` is false; while `ticking` it schedules nothing, so at most one frame is outstanding |
| `Navbar.Navbar.OnFrame` | script.js:45 | the requested frame runs the handler and leaves no frame pending and `ticking` false |
| `Debounce.Debouncer.constructor` | script.js:2-3 | a fresh wrapper has nothing scheduled and has run nothing |
| `Debounce.Debouncer.WithDefaultDelay` | script.js:2-3 | without a delay argument the wrapper waits the default 100 ms, with nothing scheduled and nothing run |
| `Debounce.Debouncer.Call` | script.js:4-6 | a call cancels the pending invocation and replaces it with one carrying its own arguments |
| `Debounce.Debouncer.Fire` | script.js:6 | the timer runs the callback once, with the arguments of the latest call, and leaves nothing pending |
| `Debounce.ShowsButton` | script.js:251 | the visibility rule, offset above 300; `OnTimer` states that the `show` class follows it |
| `Debounce.ScrollToTop.constructor` | script.js:247-250 | the button's listener wraps its callback with a debounce delay of 50 |
| `Debounce.ScrollToTop.OnScroll` | script.js:250 | a scroll only replaces the pending debounced call; the button does not change |
| `Debounce.ScrollToTop.OnTimer` | script.js:250-256 | when the debounce fires, the button shows exactly when the offset at that moment is above 300 |
| `DarkMode.InitialDark` | script.js:190 | a stored "enabled" always gives dark and a stored "disabled" always gives light; `InitialDarkCases` states the rest |
| `DarkMode.InitialDarkCases` | script.js:189-194 | a stored value alone decides (only "enabled" gives dark, "disabled" or any other string gives light); with nothing stored, the system preference decides |
| `DarkMode.StoredFlagRoundTrip` | script.js:164-194 | the string a theme change stores makes the next start-up choose that same theme, whatever the system preference |
| `DarkMode.AgreeDetermines` | script.js:164-180 | when class, storage and button agree, the stored string and `aria-pressed` each determine the theme |
| `DarkMode.Theme.constructor` | script.js:182-195 | with a toggle button the start-up applies the chosen theme consistently; without one nothing changes |
| `DarkMode.Theme.SetDarkMode` | script.js:164-180 | the root class is present iff `enabled`; storage holds "enabled" or "disabled" to match; the button reads "Light Mode"/"true" or "Dark Mode"/"false"; no button means no button change |
| `DarkMode.Theme.Click` | script.js:183-186 | a click applies the opposite of the current root class, consistently |
| `Observers.Reached` | script.js:85-86 | the reached set holds exactly the targets of the batch's intersecting entries |
| `Observers.RevealWatcher.constructor` | script.js:93-96 | every selected element is observed and none is activated |
| `Observers.RevealWatcher.Notify` | script.js:84-91 | each intersecting entry adds `animate-in` and unobserves its target; non-intersecting entries change nothing; no element is both observed and activated |
| `Observers.Load` | script.js:148-152 | an intersecting image gets `src` from its `data-src` (or "undefined" when that is gone), loses `data-src` and is unobserved; other images are untouched |
| `Observers.LoadAll` | script.js:147-154 | after a batch, exactly the reached images have stopped being observed and lost `data-src`, and every reached image has a `src`; every other image keeps its `src`, key and value; `LoadAllOnce` gives the reached images' `src` values |
| `Observers.LoadAllOnce` | script.js:146-155 | in a batch where each intersecting image occurs once and carries `data-src`, every reached image has its former `data-src` as `src`, no `data-src` and is unobserved; the other images keep their attributes |
| `Observers.RepeatedEntryLosesSource` | script.js:150-151 | as written, a second intersecting entry for the same image in one batch stores "undefined" as its `src` |
| `Observers.LazyImages.constructor` | script.js:145-157 | observation starts on exactly the images that carry `data-src` |
| `Observers.LazyImages.Notify` | script.js:146-155 | the callback's effect is the entry-by-entry fold `LoadAll`, and every observed image still carries `data-src` |
| `NavHighlight.LastIntersecting` | script.js:103-105 | no result iff no entry intersects; otherwise it is the id of an intersecting entry with no intersecting entry after it |
| `NavHighlight.AtMostOneActive` | script.js:106-111 | with distinct hrefs, marking leaves at most one link active |
| `NavHighlight.NavLinks.constructor` | script.js:99-100 | the links and their initial `active` classes are taken as given |
| `NavHighlight.NavLinks.MarkOnly` | script.js:106-111 | afterwards the active links are exactly those whose href equals the target |
| `NavHighlight.NavLinks.OnIntersections` | script.js:102-113 | after a batch with an intersecting entry, the active links are exactly those whose href is `#` plus the last intersecting section's id (possibly none); a batch with none leaves the links unchanged |
| `NavHighlight.NavLinks.OnLoad` | script.js:124-132 | a non-empty hash activates exactly the links whose href equals it; an empty hash changes nothing |
| `Scenarios.NavbarOffsets` | script.js:17-51 | offsets 0, 60, 200, 150 give compact false/true/true/true and hidden false/false/true/false, with repeated scrolls before each frame |
| `Scenarios.DebounceBurst` | script.js:2-8 | three rapid calls and one timer run the callback once, with the last call's argument |
| `Scenarios.ThemeStartUp` | script.js:188-194 | nothing stored with a dark system gives dark; "disabled" stored with a dark system gives light |
| `Scenarios.DoubleClick` | script.js:183-186 | from a consistent state, two clicks restore the root class, the stored value and the button |
| `Scenarios.TwoLetterCycle` | script.js:205-233 | a cycle over a two-letter phrase shows its first letter, the phrase three times, the first letter, then "" |
| `Scenarios.TwoLetterPhrases` | script.js:205-233 | the first twelve ticks over two two-letter phrases show the first phrase's cycle, then the second's |
| `Scenarios.TypewriterHiYo` | script.js:239-242 | for the attribute "Hi,Yo" the first twelve texts are H, Hi, Hi, Hi, H, "", Y, Yo, Yo, Yo, Y, "" |

## Left out

- Smooth-scroll link handling (script.js:54-76) and the scroll-to-top click (script.js:258-263). They only call `scrollIntoView`, `history.pushState`, `location.hash`, `focus` and `scrollTo`, browser operations with no logic of their own.
- The 100 ms delayed `scrollIntoView` after load (script.js:134-139). It is a browser scroll call.
- Real time. `setTimeout`, `clearTimeout` and `requestAnimationFrame` are modelled as events the caller fires: debounce delays, frame timing, and the typewriter's delays taken as scheduled numbers. So "no earlier than `delay` after the last call" is not modelled.
- IntersectionObserver geometry (`threshold`, `rootMargin`). `isIntersecting` is an input per entry.
- `localStorage` keys other than `darkMode`, and `matchMedia`. The stored value is an optional string and the system preference a boolean.
- What the classes and styles look like. The model records only which class is present and which style strings are set.
- The base `animate` class added to each revealed element at start-up (script.js:94). It is a one-time class write with no later logic.
- `Navbar.Navbar.OnFrame`: the frame's offset is a parameter, so the model does not say it equals the offset of any earlier scroll event.
- Unicode: strings are sequences of code points, not UTF-16 code units. `length` and `substring` in JavaScript count code units, so a phrase with characters outside the Basic Multilingual Plane (an emoji, say) types and deletes in more ticks in the browser and can show a lone surrogate half-way; the model does not capture that.
- Elements missing from the page. The navbar element is assumed present. The optional toggle button is modelled (`DarkMode.Theme.button`). The optional typewriter element and scroll-to-top button only decide whether their class is constructed.
