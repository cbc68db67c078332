# Lil V landing page: navigation, panels and carousels

This project models the interactive core of the Lil V single-page site. The
site has the following parts:

- The page coordinator (`App`) routes navigation requests to top-level
  sections, and to the four panels nested inside the "sauce" section. It keeps
  the open panel and passes it down as a prop. While mounted, it puts three
  helper functions on `window`.
- The navigation bar (`Navigation`) scrolls to a section when a link is
  clicked. It highlights the active link, and an intersection observer moves
  that highlight as the page scrolls. It also runs the mobile menu.
- The panels component (`TheSauce`) is an accordion with at most one panel
  open. It also runs a five-entry GIF carousel that advances on a timer.
- The slides component (`Info`) is a four-slide carousel driven by buttons,
  dots and touch swipes. It also derives a download file name from a GIF's
  path.

Modelling choices:

- Each React component becomes a Dafny class. The class fields are the
  component's state, and each event handler is a method.
- There is no real window. An effect on the window (`scrollIntoView`,
  `scrollBy`, `scrollTo`, a `setTimeout` callback) is a `Scheduled` record
  appended to the component's log. Delay 0 means "done now".
- The ids for which `document.getElementById` finds an element are a
  parameter, `Page`.
- Measured geometry is `real`.
- JavaScript truthiness is written out where the code depends on it:
  - `touchStart` equal to 0 counts as no touch;
  - a zero nav-bar height falls back to 64;
  - an empty `openSection` string closes every panel;
  - `pop() || 'download.gif'` falls back when the last segment is empty.

The behaviour that lies *between* components is proved as well:

- A panel toggle reported to the coordinator and echoed back as the prop
  leaves the panels unchanged.
- A deep link to a nested panel ends with exactly that panel open.
- A nav-bar click scrolls to the section twice and schedules two corrective
  scrolls: one from the bar itself, and one from the coordinator it notifies.

Modules: `Effects` (effects.dfy), `TheSauce` (the_sauce.dfy), `Info`
(info.dfy), `Navigation` (navigation.dfy) and `App` (app.dfy).

## Model

| member | source | states |
|---|---|---|
| Effects.Performed | src/components/TheSauce.tsx:109-133 | A delayed callback scrolls to its element when the element is present, and does nothing exactly when it is missing. Every other action is performed as given. |
| TheSauce.Toggled | src/components/TheSauce.tsx:102-136 | After a toggle at most one panel is open, and only the toggled id can be. The toggled panel is open afterwards exactly when it was closed before. |
| TheSauce.ToggleKeepsAtMostOne | src/components/TheSauce.tsx:103-121 | Whatever was open before, a toggle leaves at most one panel open, and no panel other than the toggled one. |
| TheSauce.ToggleOpensOrCloses | src/components/TheSauce.tsx:106-121 | Toggling an open panel closes all panels; toggling a closed panel opens exactly that panel. |
| TheSauce.ToggleTwice | src/components/TheSauce.tsx:102-136 | A second toggle of the same panel restores the earlier state exactly when nothing else had been open. From the all-closed state, two toggles return to all-closed. |
| TheSauce.Report | src/components/TheSauce.tsx:140 | The value passed to `onSectionChange` is null exactly when the new set is empty; otherwise it is the toggled id. |
| TheSauce.ToggleScrollTarget | src/components/TheSauce.tsx:106-133 | The element the toggle's delayed scroll looks up: the container when the panel was open, the panel otherwise. |
| TheSauce.IsOpen | src/components/TheSauce.tsx:175 | A panel is drawn expanded exactly when its id is in the open set. |
| TheSauce.Truthy | src/components/TheSauce.tsx:85 | A prop is truthy exactly when it is a non-empty string. |
| TheSauce.ToggleReportsOutcome | src/components/TheSauce.tsx:139-141 | The parent is told the id exactly when the panel ends up open, and null exactly when every panel is closed. |
| TheSauce.ToggleScrollEffect | src/components/TheSauce.tsx:106-133 | The scroll 100 ms after a toggle goes to the "sauce" container when the toggle closed the panel, and to the panel when it opened it. It scrolls to that element when it is present, and does nothing exactly when it is missing. |
| TheSauce.PropApplied | src/components/TheSauce.tsx:83-91 | The prop effect preserves "at most one open". A truthy prop leaves that panel open. |
| TheSauce.PropCases | src/components/TheSauce.tsx:84-89 | An undefined prop changes nothing. A non-empty string opens exactly that panel. Null or an empty string closes every panel. |
| TheSauce.OnlyOnePanelOpen | src/components/TheSauce.tsx:172-176 | Under the invariant, no two different panels are drawn expanded at once. |
| TheSauce.NextGif | src/components/TheSauce.tsx:96 | A timer step stays within the five entries: it advances by one and wraps from the last entry to the first. |
| TheSauce.GifAfterIsModular | src/components/TheSauce.tsx:94-100 | After n timer steps the carousel shows entry (i + n) mod 5. |
| TheSauce.GifCycleReturns | src/components/TheSauce.tsx:74-97 | Five timer steps bring the carousel back to the entry it started from. |
| TheSauce.Accordion.constructor | src/components/TheSauce.tsx:71-72 | The component starts with no panel open and with GIF 0 shown. |
| TheSauce.Accordion.ToggleSection | src/components/TheSauce.tsx:102-142 | A header click installs the toggled set and schedules the delayed scroll. If a callback was given, it reports the outcome once. The GIF index is unchanged, and "at most one open" is kept. |
| TheSauce.Accordion.OpenSpecificSection | src/components/TheSauce.tsx:145-150 | The imperative handle opens exactly the given panel and reports it (if a callback was given). It schedules nothing. |
| TheSauce.Accordion.ApplyOpenSectionProp | src/components/TheSauce.tsx:83-91 | The prop effect installs the set given by the prop's three cases and reports nothing. |
| TheSauce.Accordion.AdvanceGif | src/components/TheSauce.tsx:94-97 | The interval tick advances the GIF index modulo 5; the panels are unchanged. |
| TheSauce.Accordion.SelectGif | src/components/TheSauce.tsx:620-623 | A dot click shows exactly the chosen GIF; the panels are unchanged. |
| Info.NextIndex | src/components/Info.tsx:82-84 | The next slide stays within the four slides; it advances by one and wraps to slide 0 after the last slide. |
| Info.PrevIndex | src/components/Info.tsx:86-88 | The previous slide stays within range; it steps back by one and wraps from slide 0 to slide 3. |
| Info.NextPrevInverse | src/components/Info.tsx:82-88 | Next and previous undo each other on every valid slide. |
| Info.ForwardIsModular | src/components/Info.tsx:82-84 | After n next steps the carousel shows slide (i + n) mod 4. |
| Info.BackwardUndoesForward | src/components/Info.tsx:82-88 | n previous steps undo n next steps. |
| Info.Falsy | src/components/Info.tsx:101 | A touch coordinate is rejected by the guard exactly when none is recorded or it is 0. |
| Info.SwipeResult | src/components/Info.tsx:100-113 | After a touch ends, the slide is still a valid slide. |
| Info.SwipeCases | src/components/Info.tsx:103-112 | A leftward swipe of more than 50 px advances the slide. A rightward swipe of more than 50 px goes back. Anything within 50 px keeps the slide. |
| Info.FalsyTouchIgnored | src/components/Info.tsx:101 | A missing or zero start or end coordinate leaves the slide unchanged. |
| Info.IsActiveSlide | src/components/Info.tsx:197 | A slide is drawn active exactly when its index is the current slide. |
| Info.ExactlyOneActiveSlide | src/components/Info.tsx:190-198 | Exactly one slide is drawn active: the current one. |
| Info.SplitOnSlash | src/components/Info.tsx:28 | `split('/')` yields at least one piece. A path without '/' is its own single piece, and a path with a '/' gives at least two pieces. |
| Info.JoinSplit | src/components/Info.tsx:28 | Joining the pieces of the split with '/' gives back the path. |
| Info.PiecesHaveNoSlash | src/components/Info.tsx:28 | No piece of the split contains '/'. |
| Info.FinalSegmentUnique | src/components/Info.tsx:28 | A path has only one final '/'-free segment. |
| Info.LastPieceIsFinalSegment | src/components/Info.tsx:28 | The piece `pop()` returns is the path's final '/'-free segment. |
| Info.DownloadName | src/components/Info.tsx:28 | The download name is never empty and never contains '/'. It is the path's final segment, or "download.gif" when that segment is empty. |
| Info.RootFileDownloadName | src/components/Info.tsx:28 | For a root path "/f" with a non-empty, slash-free f, the name is f. |
| Info.SlideDownloadNames | src/components/Info.tsx:55-80 | The four slide GIFs download as jump.gif, tsu.gif, whale.gif and busy.gif. |
| Info.Carousel.constructor | src/components/Info.tsx:51-53 | The carousel starts on slide 0 with no touch recorded. |
| Info.Carousel.NextSlide | src/components/Info.tsx:82-84 | The slide becomes the next index; the touch state is unchanged. |
| Info.Carousel.PrevSlide | src/components/Info.tsx:86-88 | The slide becomes the previous index; the touch state is unchanged. |
| Info.Carousel.GoToSlide | src/components/Info.tsx:204-207 | An indicator click shows exactly the chosen slide. |
| Info.Carousel.OnTouchStart | src/components/Info.tsx:91-94 | A touch start records its x coordinate and clears the end coordinate. |
| Info.Carousel.OnTouchMove | src/components/Info.tsx:96-98 | A touch move records the end coordinate only. |
| Info.Carousel.OnTouchEnd | src/components/Info.tsx:100-113 | A touch end sets the slide to the swipe's outcome; the recorded coordinates stay. |
| Info.Carousel.Tap | src/components/Info.tsx:91-101 | A touch with no move in between never changes the slide, whatever the previous gesture left. |
| Navigation.KeyInjective | src/components/Navigation.tsx:5-12 | Different sections have different element ids. |
| Navigation.LinksListEverySectionOnce | src/components/Navigation.tsx:7-12 | The bar links to every section exactly once. |
| Navigation.MeasuredNavHeight | src/components/Navigation.tsx:36 | The offset uses the measured height, or 64 when the bar is missing or measures 0; it is never 0. |
| Navigation.CorrectiveScroll | src/components/Navigation.tsx:50-52 | The corrective scroll is minus (height + 16); without a measurement it is -80. |
| Navigation.NavigateEffects | src/components/Navigation.tsx:43-52 | A link click scrolls the section into view at once (delay 0), then scrolls by exactly the corrective scroll after 100 ms. |
| Navigation.VisibleHeight | src/components/Navigation.tsx:112 | The visible height never exceeds what lies below the rectangle's top inside the viewport, nor the rectangle's bottom. A rectangle wholly inside the viewport is fully visible. |
| Navigation.Score | src/components/Navigation.tsx:113 | An entry has no score exactly when its rectangle has height 0. Otherwise the score times the height is the visible height. |
| Navigation.Candidate | src/components/Navigation.tsx:110-115 | An entry can win exactly when it is intersecting and has a score above the initial best of 0. |
| Navigation.IsWinner | src/components/Navigation.tsx:109-118 | The winning entry is a candidate whose score is strictly above every earlier candidate's score and not below any later one's. |
| Navigation.Selects | src/components/Navigation.tsx:106-120 | The selection is the winner's section, or none when no entry is a candidate. |
| Navigation.SelectsSomeIffCandidate | src/components/Navigation.tsx:106-120 | The observer picks a section exactly when some entry is intersecting and has a positive score. |
| Navigation.SelectsIsFunctional | src/components/Navigation.tsx:106-120 | For one batch of entries there is only one selection. |
| Navigation.WinnerUnique | src/components/Navigation.tsx:115-118 | Only one entry can be the winner (strictly the best score, and first among ties). |
| Navigation.VisibleAtMostHeight | src/components/Navigation.tsx:112 | The visible height never exceeds the rectangle's height. |
| Navigation.ScoreAtMostOne | src/components/Navigation.tsx:111-113 | Every score is at most 1. |
| Navigation.SelectActive | src/components/Navigation.tsx:106-120 | The callback's loop returns the first intersecting entry with the strictly greatest positive score, or none when no entry qualifies. |
| Navigation.MostlyVisibleSectionWins | src/components/Navigation.tsx:106-120 | With 90% of "about" and 10% of "sauce" on screen, "about" is selected. |
| Navigation.AfterSelection | src/components/Navigation.tsx:122-124 | The highlight moves to the selected section, and stays where it was when nothing is selected. |
| Navigation.HighlightedLinks | src/components/Navigation.tsx:145-150 | The links drawn highlighted are exactly the listed links equal to the active section. |
| Navigation.IsHighlighted | src/components/Navigation.tsx:147 | A link is drawn highlighted exactly when its section is the active one. |
| Navigation.AriaCurrent | src/components/Navigation.tsx:186 | A desktop link carries aria-current exactly when it is highlighted, and the value is then "page". |
| Navigation.ExactlyOneHighlighted | src/components/Navigation.tsx:181-186 | Exactly one link is highlighted, and it alone has aria-current "page". |
| Navigation.PresentSections | src/components/Navigation.tsx:93-95 | A section is watched exactly when it is listed and its element exists. The list is empty exactly when no link's element exists. |
| Navigation.AfterMouseDown | src/components/Navigation.tsx:62-73 | A mousedown leaves the menu open exactly when it was open and the press was inside it. |
| Navigation.AfterKeyDown | src/components/Navigation.tsx:77-88 | A keydown leaves the menu open exactly when it was open and the key was not Escape. |
| Navigation.MenuButtonPress | src/components/Navigation.tsx:62-66 | A press of the menu button as written: the outside-press rule applied to the button, then the click's toggle. |
| Navigation.MenuButtonNeverCloses | src/components/Navigation.tsx:62-66 | As written, a press of the menu button always leaves the menu open. |
| Navigation.AfterMouseDownExempt | src/components/Navigation.tsx:62-66 | With the button exempted, a mousedown closes an open menu exactly when the press was outside both the menu and the button. Otherwise it agrees with the code's rule. |
| Navigation.MenuButtonPressExempt | src/components/Navigation.tsx:196-197 | Under the exempting rule, the menu button flips the menu. |
| Navigation.NavBar.constructor | src/components/Navigation.tsx:19-20 | The bar starts with the menu closed and "hero" active. |
| Navigation.NavBar.NavigateToSection | src/components/Navigation.tsx:25-58 | A missing element changes nothing. Otherwise the menu closes, the clicked section becomes active, both scrolls are logged, and `onNavigate` hears the id (if a callback was given). |
| Navigation.NavBar.OnIntersections | src/components/Navigation.tsx:105-125 | The active section becomes the one the selection rule picks, or stays put when it picks none. |
| Navigation.NavBar.ScheduleObserverSetup | src/components/Navigation.tsx:138 | The effect schedules the observer set-up after 300 ms. |
| Navigation.NavBar.SetupObserverNow | src/components/Navigation.tsx:92-100 | When no section exists, the set-up is retried in 100 ms. Otherwise it watches exactly the present sections. |
| Navigation.NavBar.ToggleMenu | src/components/Navigation.tsx:197 | The menu button flips the menu. |
| Navigation.NavBar.OnMouseDown | src/components/Navigation.tsx:62-73 | The menu after a mousedown follows the outside-press rule. |
| Navigation.NavBar.OnKeyDown | src/components/Navigation.tsx:76-88 | The menu after a keydown follows the Escape rule. |
| Navigation.NavBar.PressMenuButton | src/components/Navigation.tsx:62-66 | As written, the outside-press listener and then the click leave the menu open. |
| App.NavigationEffects | src/App.tsx:19-69 | Effects fire in order, and nothing at all happens when the element looked up is missing. Otherwise the first effect scrolls into view at once and the second is the -80 corrective scroll after 100 ms. A regular id has exactly these two effects. A nested id scrolls to the container, never to itself, and has a third effect: opening the panel last. Only a nested id opens a panel. |
| App.ManualScrollTarget | src/App.tsx:177-179 | The manual scroll puts the element's top 80 px below the viewport top. |
| App.ToProp | src/App.tsx:256 | The prop passed down is never undefined. It is the recorded panel's id when one is recorded, and null otherwise. |
| App.EchoedToggleIsStable | src/App.tsx:72-74 | A toggle reported up and echoed down as the prop leaves the panels as the toggle left them. |
| App.EchoedOpenIsStable | src/App.tsx:254-258 | The imperative open, echoed back as the prop, is stable. |
| App.DeepLinkOpensPanel | src/App.tsx:44-47 | A completed deep link to a nested panel makes the panels show exactly that panel. |
| App.NavBarLinksAreRegular | src/App.tsx:237 | The bar's ids are never nested ids, so a nav click never opens a panel. |
| App.NavClickScrollsTwice | src/App.tsx:237 | A nav-bar click followed by the coordinator's handling scrolls into view twice and schedules two corrective scrolls at the same delay. |
| App.OffsetsAgree | src/App.tsx:41 | Without a measurement, the bar's offset and the coordinator's offset are both -80. |
| App.Coordinator.constructor | src/App.tsx:15 | No panel is recorded and no global is installed at first. |
| App.Coordinator.SauceProp | src/App.tsx:256 | The prop the panels receive is never undefined. It carries the recorded panel's id, or null when none is recorded. |
| App.Coordinator.HandleNavigation | src/App.tsx:19-69 | Any id other than "sauce" clears the recorded panel. The effects logged are exactly the navigation effects. |
| App.Coordinator.HandleSauceSectionChange | src/App.tsx:72-74 | The reported panel becomes the recorded one, and the prop follows it. |
| App.Coordinator.RunScheduled | src/App.tsx:45-47 | A fired callback changes the recorded panel only when it is the delayed open. |
| App.Coordinator.RegisterGlobals | src/App.tsx:151-185 | Mount installs all three window functions. |
| App.Coordinator.UnregisterGlobals | src/App.tsx:187-194 | Teardown deletes all three window functions. |
| App.Coordinator.CallNavigate | src/App.tsx:153-156 | `lilvNavigate` does exactly what handleNavigation does while installed, and nothing after teardown. |
| App.Coordinator.CallScrollTo | src/App.tsx:173-185 | `lilvScrollTo` scrolls to the manual target when it is installed and the element exists, and does nothing otherwise. |
| App.Coordinator.CallDebugSections | src/App.tsx:159-170 | `lilvDebugSections` is found exactly while it is installed. |
| App.TeardownDisablesGlobals | src/App.tsx:187-194 | After teardown, no global is installed and calling any of them changes nothing. |

## Findings

| source | as written | input that shows it | evidently intended | confidence | as-written member | corrected member |
|---|---|---|---|---|---|---|
| src/components/Navigation.tsx:62-66 | The outside-press listener treats the menu button as outside the menu, so with the menu open a button press closes the menu on mousedown and the click reopens it. | The menu is open and the user presses the menu button (labelled "Close menu"). | The close button closes the menu. | medium, not executed (depends on React re-rendering between mousedown and click) | Navigation.MenuButtonNeverCloses | Navigation.MenuButtonPressExempt |

The navigation bar itself (`Navigation.NavBar.OnMouseDown`,
`Navigation.NavBar.PressMenuButton`) keeps the rule as written. The
exempting rule stands beside it.

## Left out

- Rendering, CSS classes, animations and the staggered-animation hook are not modelled. Only the state that decides what is drawn is kept.
- The real DOM, window and timers are replaced by the `Page` parameter and the `Scheduled` log. The smooth-scroll animation, and how `scrollBy` interacts with a running smooth scroll, are not modelled.
- The geometry of `getBoundingClientRect`, `scrollY` and `innerHeight` is passed in as `real` values. IEEE floating point, NaN and infinities are replaced by "no score" for a zero-height rectangle.
- Console output, including everything `lilvDebugSections` prints, is not modelled.
- The image preloader and the loader screen in src/App.tsx:76-126 are not part of this model.
- The tweet buttons, `window.open` links, and the click on a temporary anchor that starts a download are not modelled. Only the download name is.
- The Contract, Hero, About and SectionDivider components are not part of this model.
- React's scheduling is not modelled: re-renders, batching and stale closures. Each handler runs on the current state.
- The observer's `rootMargin` and `threshold` options decide when the browser delivers entries. They are not modelled; entries are an input.
- The intersection observer is never disconnected, because the cleanup `setupObserver` returns is dropped. The code re-runs the set-up whenever `active` changes, so observers accumulate. Navigation.NavBar.SetupObserverNow keeps only the latest watched list and does not model the older observers that stay alive.
- Teardown: the coordinator's cleanup only deletes the three window functions. Its pending `setTimeout` callbacks are not cancelled, and the model does not cancel them either. The navigation bar's effect cleanup clears its pending 300 ms set-up timer; the model has no cleanup for that effect, so a scheduled set-up record stays in the log.
- Navigation.NavBar.OnIntersections: stated existentially, over the selection rule, rather than as a function, because the 'first strictly greatest' rule is a relation proved functional by Navigation.SelectsIsFunctional.
- Info.Carousel.OnTouchStart and Info.Carousel.OnTouchMove: `targetTouches[0]` is taken as given. A touch list without a first entry is not modelled.
