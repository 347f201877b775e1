# Sustainable Awareness page scripts — a Dafny model

The site's JavaScript is almost all DOM wiring. Inside its event handlers sits
a small amount of decision logic, and this project lifts that logic into pure
Dafny functions and proves what the handlers promise:

- the **blog filter** shows a card when the category test passes and the
  lower-cased title contains the lower-cased query;
- the **service filter** uses the category test only, and on load, when there
  are service cards and no tab is active, activates the first tab;
- clicking a filter tab makes it the only active tab of its group;
- the **counter** ramp shows `min(floor(progress / 2000 * target), target)` and
  stops asking for frames once 2000 ms have passed;
- the **countdown** splits a millisecond distance into days, hours, minutes and
  seconds, picks the unit an element is tagged with (seconds for any other
  name) and pads it to two digits;
- the **pricing toggle** shows the monthly or yearly string followed by " /mo",
  and leaves an element alone when that string is missing or empty;
- the **theme controller** (`theme-dark` body class, `sa-theme` key) and the
  **direction controller** (`dir` attribute, `rtl` class, `sa-dir` key, "AR"/"EN"
  button labels).

Modules:

| file | module | models |
|---|---|---|
| wrappers.dfy | `Wrappers` | `null`/`undefined` as `Option`, JavaScript truthiness of a string |
| storage.dfy | `Storage` | `localStorage` as a map from keys to strings |
| text.dfy | `Text` | ASCII `toLowerCase`, `includes`, `String(n)`, `padStart` |
| filters.dfy | `Filters` | blog and service filters, tab clicks, load-time behaviour |
| counter.dfy | `Counter` | the counter frame formula and a run over frame timestamps |
| countdown.dfy | `Countdown` | countdown decomposition, unit dispatch, padding |
| pricing.dfy | `Pricing` | the pricing toggle |
| theme.dfy | `Theme` | theme-toggle.js |
| direction.dfy | `Direction` | rtl-toggle.js |
| site.dfy | `Site` | both toggles on one document sharing one storage |

A page is a plain value: cards are records, a tab group is a sequence of
`Tab(filter, active)`, class lists are sets, storage is a map. Every event
handler is a function from the old state to the new one.

## Model

| member | source | states |
|---|---|---|
| Filters.FirstActive | assets/js/main.js:91 | the first active tab in document order, or none exactly when no tab is active |
| Filters.ClickTab | assets/js/main.js:107-114 | after a click the clicked tab is active and every other tab of the group is inactive; tab categories are kept |
| Filters.ClickSelectsCategory | assets/js/main.js:133-140 | after a click the filter category is the clicked tab's, whatever was active before |
| Filters.NoActiveTabMeansAll | assets/js/main.js:91-92 | with no active tab the category is "all" |
| Filters.FilterBlog | assets/js/main.js:89-100 | a blog card is displayed iff (category is "all" or equals the card's) and the lower-cased query occurs in the lower-cased title |
| Filters.EmptyQueryIsCategoryOnly | assets/js/main.js:90-98 | with an empty or missing search box only the category test decides |
| Filters.BlogLoad | assets/js/main.js:116-118 | the filter runs at load exactly when there are cards |
| Filters.BlogInput | assets/js/main.js:103-105 | typing into the search box re-filters; with no search box nothing changes |
| Filters.BlogTabClick | assets/js/main.js:107-114 | a blog tab click keeps every tab and its category, leaves only that tab active and the display filtered |
| Filters.BlogClickVisibility | assets/js/main.js:89-114 | after a blog tab click a card shows iff it matches that tab's category and the query |
| Filters.BlogExampleQuery | assets/js/main.js:89-100 | query "ocean" under "all" shows only "Ocean Cleanup" of the two cards |
| Filters.BlogExampleCategory | assets/js/main.js:89-100 | an empty query under "tips" shows only "Recycling 101" of the two cards |
| Filters.FilterServices | assets/js/main.js:124-131 | a service card is displayed iff the category is "all" or equals the card's |
| Filters.ServiceLoad | assets/js/main.js:142-148 | with cards and no active tab exactly the first tab becomes active, every other tab unchanged, before the filter runs; an active tab is left as it is; no cards, no change |
| Filters.ServiceLoadVisibility | assets/js/main.js:142-148 | after load a service card shows iff the first tab (when none was active) or the active tab is "all" or names its category |
| Filters.ServiceTabClick | assets/js/main.js:133-140 | a service tab click keeps every tab and its category, leaves only that tab active and the display filtered |
| Filters.ServiceClickVisibility | assets/js/main.js:124-140 | after a service tab click a card shows iff the clicked tab is "all" or names its category |
| Text.Lower | assets/js/main.js:95 | lower-casing keeps the length, maps each upper-case letter to its lower-case partner and leaves every other character as it is |
| Text.Includes | assets/js/main.js:98 | `includes` is true iff the query occurs at some position of the title |
| Text.IncludesEmpty | assets/js/main.js:98 | every title includes the empty query |
| Text.DecimalString | assets/js/main.js:207 | `String(n)` is a non-empty digit string, one digit iff n < 10, starting with "0" iff n is 0 |
| Text.DecimalRoundTrip | assets/js/main.js:207 | reading the digits of `String(n)` back gives n |
| Text.LeadingZeroIgnored | assets/js/main.js:207 | a leading pad zero does not change the value a digit string denotes |
| Text.PadStart | assets/js/main.js:207 | `padStart` gives the longer of the text and the width, ending in the text, pad characters in front |
| Counter.FrameValue | assets/js/main.js:47-51 | the shown value is the largest v ≤ target with v·2000 ≤ progress·target (the capped floor); non-negative for non-negative progress, target once progress reaches 2000 |
| Counter.FrameValueMonotone | assets/js/main.js:48-51 | the shown value never decreases as progress grows |
| Counter.FrameValueAtStart | assets/js/main.js:48-51 | the ramp shows 0 at progress 0 |
| Counter.Step | assets/js/main.js:45-56 | one frame: a falsy start time is replaced by the frame's timestamp; progress is the timestamp minus the start; the value is the ramp value at that progress; another frame is requested iff progress < 2000; a frame that requests none shows the target |
| Counter.ProgressMonotone | assets/js/main.js:46-47 | over non-decreasing timestamps the progress of a run is non-negative and never decreases |
| Counter.RunValuesOrdered | assets/js/main.js:46-51 | over non-decreasing timestamps the values a run shows lie between 0 and target and never decrease |
| Counter.StepFollowsRun | assets/js/main.js:46-47 | fed a run's timestamps in order, the frame callback keeps the first truthy timestamp as start and computes the progress the timestamps determine |
| Counter.Animate | assets/js/main.js:45-57 | frame i shows the ramp value at the progress its timestamp determines; the run stops iff some frame reaches 2000 ms, right after the first such frame, which shows the target; otherwise every frame runs; shown values lie in 0..target and never decrease |
| Counter.StopsAtTarget | assets/js/main.js:48-55 | once a frame of a run reaches 2000 ms, it and every later frame show the target |
| Countdown.Decompose | assets/js/main.js:190-196 | hours < 24, minutes < 60, seconds < 60 and days·86400000 + hours·3600000 + minutes·60000 + seconds·1000 ≤ distance < that + 1000 |
| Countdown.DecomposeRoundTrip | assets/js/main.js:191-196 | any in-range parts plus less than a second decompose back to those parts, so the split is unique |
| Countdown.UnitValue | assets/js/main.js:198-206 | "days", "hours", "minutes" select those units; every other name, "seconds" included, selects seconds |
| Countdown.Pad2 | assets/js/main.js:207 | the padded text is exactly two digits for a value below 10 and the plain digits otherwise, starts with "0" iff the value is below 10, and denotes the value |
| Countdown.Render | assets/js/main.js:197-207 | an element's text denotes the unit its tag selects from the decomposed distance, two characters wide below 10, with a leading "0" iff below 10 |
| Countdown.Tick | assets/js/main.js:197-208 | every countdown element, in order, shows the digits of the unit its tag selects, padded to exactly two when below 10 |
| Pricing.UpdatePrice | assets/js/main.js:157-160 | a usable selected string becomes the content followed by " /mo"; a missing or empty one leaves the element unchanged |
| Pricing.UpdatePricing | assets/js/main.js:154-162 | yearly strings are used iff the toggle exists and is checked, monthly otherwise, for every price element |
| Pricing.PricingLoad | assets/js/main.js:164-167 | the prices are rewritten at load only when the toggle exists |
| Pricing.UpdateIdempotent | assets/js/main.js:154-162 | repeating an update with the same toggle state changes nothing |
| Pricing.ToggleBackRestores | assets/js/main.js:155-160 | with both strings present the shown price depends only on the last toggle state |
| Pricing.PricingExample | assets/js/main.js:154-162 | "$10"/"$96" shows "$96 /mo" when checked and "$10 /mo" when not |
| Storage.Set | assets/js/theme-toggle.js:18 | a written key reads back its value and every other key is unchanged |
| Theme.ApplyTheme | assets/js/theme-toggle.js:11-19 | `theme-dark` is present iff the theme is "dark", `sa-theme` holds the theme as given, other classes and keys unchanged |
| Theme.ApplyOtherIsLight | assets/js/theme-toggle.js:13-17 | any theme string but "dark", garbage included, displays light |
| Theme.ApplyNamedTheme | assets/js/theme-toggle.js:11-19 | applying light or dark displays that theme |
| Theme.ApplyIdempotent | assets/js/theme-toggle.js:11-19 | applying the same theme twice equals applying it once |
| Theme.InitTheme | assets/js/theme-toggle.js:21-27 | a non-empty stored theme is applied as it is; otherwise dark iff the system prefers dark, else light |
| Theme.InitFollowsPreference | assets/js/theme-toggle.js:21-27 | without a usable stored value the display and the stored key follow the system preference |
| Theme.NextTheme | assets/js/theme-toggle.js:33-35 | the next theme is the opposite of the one displayed |
| Theme.Toggle | assets/js/theme-toggle.js:31-37 | a click flips the display, stores the new theme's name and changes nothing else |
| Theme.ToggleStoresValidTheme | assets/js/theme-toggle.js:32-36 | after a click `sa-theme` is "light" or "dark" and is "dark" iff the body is dark, even after garbage at startup |
| Theme.ToggleTwiceRestoresClasses | assets/js/theme-toggle.js:32-36 | two clicks restore the body's classes |
| Direction.UpdateButtonLabels | assets/js/rtl-toggle.js:10-14 | every button reads "AR" for "rtl" and "EN" otherwise |
| Direction.ApplyDirection | assets/js/rtl-toggle.js:16-25 | `dir` equals the direction, `rtl` class iff "rtl", `sa-dir` equals the direction, every label "AR" iff "rtl" else "EN", nothing else changes |
| Direction.ApplyLabelsAgree | assets/js/rtl-toggle.js:10-24 | after applying a direction all toggle buttons carry the same label |
| Direction.ApplyIdempotent | assets/js/rtl-toggle.js:16-25 | applying the same direction twice equals applying it once |
| Direction.StartupDirection | assets/js/rtl-toggle.js:27-28 | a missing or empty stored value gives "ltr"; otherwise the stored string verbatim |
| Direction.Startup | assets/js/rtl-toggle.js:27-28 | startup sets `dir` and `sa-dir` to that direction, the `rtl` class iff it is "rtl" with other root classes kept, and every label "AR" iff "rtl" else "EN" |
| Direction.NextDirection | assets/js/rtl-toggle.js:32 | a click applies "ltr" iff the current attribute is "rtl", else "rtl" |
| Direction.Toggle | assets/js/rtl-toggle.js:30-34 | a click sets `dir` and `sa-dir` to "ltr" iff the attribute was "rtl", else "rtl", with matching class and labels, and nothing else changes |
| Direction.ToggleFlips | assets/js/rtl-toggle.js:32-33 | on ltr/rtl a click switches to the other one |
| Direction.ToggleTwiceRestores | assets/js/rtl-toggle.js:32-33 | on ltr/rtl two clicks return to the original direction, with the class, storage and labels that direction gives |
| Direction.ToggleTwiceOnApplied | assets/js/rtl-toggle.js:16-33 | on any state reached by applying ltr or rtl, two clicks give back exactly that state |
| Direction.UnexpectedStoredValue | assets/js/rtl-toggle.js:16-33 | an unexpected stored value is written to `dir`, leaves no `rtl` class, labels read "EN", and the first click gives "rtl" |
| Site.ThemeClick | assets/js/theme-toggle.js:31-37 | a theme click leaves the direction state and `sa-dir` untouched |
| Site.DirClick | assets/js/rtl-toggle.js:30-34 | a direction click leaves the body classes and `sa-theme` untouched |
| Site.Boot | assets/js/rtl-toggle.js:27-28 | after both startups `dir`, `sa-dir`, the root classes and the labels are what the direction startup alone gives, the body classes and `sa-theme` what the theme startup alone gives from the initial storage, and every other key is unchanged |
| Site.BootOrderIrrelevant | assets/js/theme-toggle.js:21-29 | running the theme startup before the direction startup gives the same document as the other order |
| Site.ClicksCommute | assets/js/theme-toggle.js:31-37 | a theme click and a direction click give the same document in either order |

## Modelling notes

- The blog filter reads the active tab with the selector `.filter-tabs .nav-link.active`
  (main.js:91) while its click handlers operate on `[data-blog-filter]`
  (main.js:107-114). The model treats both as the same tab group.
- The title and the query are both lower-cased (main.js:90, 95).
- The suffix written after a price is " /mo" with a leading space, inside a span
  (main.js:159).
- A counter start time of `0` is falsy (main.js:46), so a frame at timestamp 0
  does not fix the start; the model keeps the first non-zero timestamp.

## Left out

- DOM querying, listener registration, `preventDefault`, focus handling and the
  aria-label defaults (main.js:8-35), and the search overlay class toggle: wiring
  with no decision in it.
- `IntersectionObserver`, `requestAnimationFrame` and `setInterval`: platform
  scheduling. A counter run is a given sequence of frame timestamps; a countdown
  tick takes the distance as input.
- `Date` reads and the "now + 30 days" deadline (main.js:185-190): the deadline
  is recomputed on every page load, so the countdown never arrives; the model
  takes the distance as an input and does not reproduce the clock.
- `parseInt` of the counter's `data-counter` attribute: the target is taken as a
  non-negative integer; a missing or non-numeric attribute (NaN) is not modelled.
- `toLocaleString` grouping of the counter value: locale-dependent formatting.
- Testimonial opacity, newsletter feedback text and `form.reset`, and the exact
  `innerHTML` markup around a price: constant DOM writes with no logic.
- `localStorage` failures (quota, disabled storage) and `matchMedia`, which is
  a boolean input.
- Counter.FrameValue: computes the floor of the exact rational progress·target/2000;
  the source computes `(progress / duration) * target` in floating point, whose
  rounding can differ by one at exact multiples.
- Counter.Step: frame timestamps are integers; the browser's are fractional
  milliseconds.
- Counter.Animate: requires non-decreasing frame timestamps, as the browser
  delivers them; the target is non-negative.
- Filters.FirstActive: the blog filter reads its active tab through the selector
  `.filter-tabs .nav-link.active` (main.js:91), while the click handler changes the
  `[data-blog-filter]` group (main.js:107-114); the model takes both to be the same
  tab group, which fails when the blog tabs are not under that selector or another
  matching active link comes earlier in the document.
- Filters.FilterBlog: a blog card without an `h5` heading makes
  `querySelector("h5").textContent` throw (main.js:95); at load (main.js:117) that
  aborts the rest of the page-ready handler, so the service filter, pricing and
  countdown are never wired. The model gives every card a title.
- Filters.FilterServices: a missing `data-blog-category`, `data-service-category`
  or tab filter attribute reads as `undefined` (which equals another `undefined`);
  the model gives every card and tab a category string.
- Text.Lower: lower-cases ASCII letters only; full Unicode `toLowerCase` is a
  library call.
- Countdown.Decompose: covers distances ≥ 0 only; for negative distances the
  source's `%` follows the ECMAScript remainder rule, which is not modelled.
