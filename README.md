# Portfolio scroll spy, modelled in Dafny

The portfolio is a single-page site: five sections (`hero`, `about`, `skills`,
`projects`, `contact`) rendered by one root view. The only logic with real behaviour
is the scroll handler. It decides which section the navigation bar highlights:

- it looks 100 units ahead of the scroll offset;
- it forces the last section (`contact`) when the look-ahead window comes within
  50 units of the document's end;
- it scans the sections last to first and stops at the first match, so later
  sections win where ranges overlap;
- it tests half-open ranges `[offsetTop, offsetTop + offsetHeight)`;
- it skips sections whose element is missing;
- it leaves the active section unchanged when nothing matches.

Beside it, the view holds three boolean flags: dark theme, mobile menu open, and
resume notice shown. Click handlers flip the theme and menu flags. The resume handler
sets the notice flag, but its button is disabled, so the page never calls it.

- `scroll_spy.dfy` (module `ScrollSpy`) is the specification of one scroll event. The
  window metrics are a `Viewport` value. The document's section elements are a map
  from id to `Geometry`: an id missing from the map is an element `getElementById`
  does not find. `Scan`/`Resolve` give the index the reverse scan stops at, and
  `NextActive` gives the new active-section id. The lemmas characterise the result.
- `app.dfy` (module `App`) is the root view's state as a class `Portfolio` with the
  four state fields. `HandleScroll` is the source's reverse loop with `break`, proved
  against `NextActive`. The click handlers are methods that change one flag each and
  state that nothing else changes.

The handler assigns the active section at most once per event, and not at all when no
section matches (`NoMatchKeepsPrevious`, `Portfolio.HandleScroll`).

At scroll offset 1700, viewport 800 and document height 3200, 1800 + 800 = 2600 < 3150,
so the near-bottom rule does not fire and `skills` is selected
(`ScenarioSkillsBeforeBottom`). `ScenarioContactNearBottom` shows the rule firing at
scroll offset 2300.

## Model

| member | source | states |
|---|---|---|
| ScrollSpy.Scan | src/App.tsx:20-37 | the reverse scan over the first k sections returns only an index below k whose section selects (element present, and near-bottom last section or range holding the look-ahead) |
| ScrollSpy.Resolve | src/App.tsx:11-38 | one scroll event selects, if anything, one of the five sections, and that section satisfies the selection rule |
| ScrollSpy.NextActive | src/App.tsx:5-37 | the new active section is the previous value or one of the five fixed ids; whenever a section is selected it is one of the five ids |
| ScrollSpy.ScanIsHighestSelecting | src/App.tsx:20-34 | the scan stops at index i exactly when section i selects and no higher-index section does (both directions) |
| ScrollSpy.ScanNoneIffNoneSelects | src/App.tsx:20-37 | the scan finds nothing exactly when no section selects |
| ScrollSpy.NearBottomSelectsLast | src/App.tsx:13-30 | if `contact` exists and scrollY + 100 + innerHeight >= scrollHeight - 50, the result is `contact` whatever the other sections' bounds |
| ScrollSpy.ResolveAwayFromBottom | src/App.tsx:31-34 | away from the bottom, section i is selected iff it exists, offsetTop <= scrollY+100 < offsetTop+offsetHeight, and no later section's range holds that position |
| ScrollSpy.LaterSectionWins | src/App.tsx:20-34 | when two sections both select, the earlier one is never the result |
| ScrollSpy.BottomEdgeExcluded | src/App.tsx:31 | a look-ahead position exactly on a section's bottom edge does not select it, unless it is the last section near the bottom |
| ScrollSpy.AbsentNeverSelected | src/App.tsx:22-23 | a section whose element is missing is never selected |
| ScrollSpy.NoMatchKeepsPrevious | src/App.tsx:20-37 | nothing is selected iff no section matches, and then the active section keeps its previous value |
| ScrollSpy.WithoutLastHeightsIrrelevant | src/App.tsx:18-27 | without a `contact` element the near-bottom rule cannot fire: the result depends only on the scroll offset, not on viewport or document height |
| ScrollSpy.StackedSelectsContaining | src/App.tsx:13-34 | on a page whose sections are stacked end to end, away from the bottom, the section whose range holds scrollY + 100 is selected |
| ScrollSpy.ScenarioAbout | src/App.tsx:11-38 | on the stacked demo page, scroll offset 750 selects `about` |
| ScrollSpy.ScenarioSkillsBeforeBottom | src/App.tsx:11-38 | on the demo page with viewport 800 and document 3200, scroll offset 1700 is not near the bottom and selects `skills` |
| ScrollSpy.ScenarioContactNearBottom | src/App.tsx:11-38 | on the same page, scroll offset 2300 looks ahead into `projects`, yet `contact` is selected by the near-bottom rule |
| App.Portfolio.constructor | src/App.tsx:5-8 | state starts with `hero` and all flags false; the resolver then runs once at mount, giving `NextActive(…, "hero")` |
| App.Portfolio.HandleScroll | src/App.tsx:11-37 | the reverse loop with break sets the active section to `NextActive` of the old one, keeps it among the five ids, assigns it at most once (exactly when a section is selected) and leaves the flags unchanged |
| App.Portfolio.ToggleDarkMode | src/App.tsx:52-54 | negates `isDarkMode` and changes nothing else |
| App.Portfolio.ToggleMobileMenu | src/App.tsx:122 | negates `isMobileMenuOpen` and changes nothing else |
| App.Portfolio.CloseMobileMenu | src/App.tsx:152-155 | choosing a narrow-screen nav item (and clicking the overlay, line 135) sets `isMobileMenuOpen` to false and changes nothing else |
| App.Portfolio.HandleResumeClick | src/App.tsx:56-57 | the handler as written sets `showResumeInfo` to true and changes nothing else (its button is disabled, see Left out) |
| App.Portfolio.HideResumeInfo | src/App.tsx:58 | the notice timer's callback sets `showResumeInfo` to false and changes nothing else |
| App.DarkModeToggleTwice | src/App.tsx:52-54 | two theme toggles restore the whole state |
| App.MobileMenuToggleTwice | src/App.tsx:122 | two menu-button presses restore the whole state |

## Left out

- Rendering: the JSX, CSS class strings, icons, copy text and the static project list (src/App.tsx:61-561) are presentation, not behaviour.
- DOM access: `getElementById`, `window.scrollY`, `innerHeight` and `scrollHeight` become the `Elements` map and the `Viewport` value.
- `scrollToSection` (src/App.tsx:45-50): smooth scrolling is done by the browser. Its later effect reaches the model only as further `HandleScroll` events.
- Adding and removing the scroll listener (src/App.tsx:40-42): this is event plumbing. The mount-time call is modelled in the constructor.
- The 3-second delay of `setTimeout` (src/App.tsx:58): timing is not modelled. The timer's callback is the explicit event `HideResumeInfo`.
- Pixel values are integers. Browsers report fractional values, but the resolver only adds and compares them, so there is no floating-point reasoning to capture.
- React applies state updates asynchronously and batches them. The model applies each update at once; with at most one update per handler, the result is the same.
- The viewport-intersection visibility tracker is not part of this model: it is not in src/App.tsx.
- App.Portfolio.HandleResumeClick: modelled as written, but the page never triggers it. Its button (src/App.tsx:209-211) is `disabled`, and a disabled button gets no click events. So in the running program `showResumeInfo` stays false, the notice (src/App.tsx:224-231) never appears, and `HideResumeInfo` never fires.
