/**
 * The collapsible "sauce" panels and their GIF carousel.
 *
 * The component keeps one set of open panel ids. Clicking a panel header
 * toggles it, closing whatever else was open; the parent can set the open
 * panel through the `openSection` prop or through the imperative
 * `openSection(id)` handle. Every toggle schedules a scroll 100 ms later and
 * reports the newly open id, or null, to the parent.
 */
module TheSauce {
  import opened Effects

  /** The id of the section element that holds the panels. */
  const SauceId: string := "sauce"

  /** The ids of the four panels, in page order. */
  const PanelIds: seq<string> := ["ai-trading-edge", "ecosystem", "tokenomics", "manifesto"]

  /** The number of entries of the GIF carousel. */
  const GifCount: nat := 5

  /** The delay of the scroll a toggle schedules. */
  const ToggleScrollDelay: nat := 100

  /** The milliseconds between two automatic carousel steps. */
  const GifInterval: nat := 3000

  /** The `openSection` prop: not given, null, or a string (which may be empty). */
  datatype Prop = Undefined | Null | Str(s: string)

  /** The invariant the component keeps: at most one panel is open. */
  predicate AtMostOneOpen(open: set<string>)
  {
    |open| <= 1
  }

  /** Whether the panel `id` is rendered expanded: `openSections.has(id)`. */
  predicate IsOpen(open: set<string>, id: string)
  {
    id in open
  }

  /** The set `toggleSection(id)` installs. */
  function Toggled(open: set<string>, id: string): (r: set<string>)
    ensures AtMostOneOpen(r)
    ensures r <= {id}
    ensures IsOpen(r, id) <==> !IsOpen(open, id)
  {
    if id in open then {} else {id}
  }

  /** What `toggleSection(id)` passes to `onSectionChange` once the new set is `r`. */
  function Report(r: set<string>, id: string): (report: Option<string>)
    ensures report == None <==> r == {}
    ensures report.Some? ==> report.value == id
  {
    if |r| > 0 then Some(id) else None
  }

  /** The element the toggle's delayed scroll looks up: the container when closing, the panel when opening. */
  function ToggleScrollTarget(open: set<string>, id: string): string
  {
    if id in open then SauceId else id
  }

  /** Whether a prop value is truthy in JavaScript. */
  predicate Truthy(p: Prop)
  {
    p.Str? && p.s != ""
  }

  /** The set the prop effect installs, given the current set. */
  function PropApplied(open: set<string>, p: Prop): (r: set<string>)
    ensures AtMostOneOpen(open) ==> AtMostOneOpen(r)
    ensures Truthy(p) ==> IsOpen(r, p.s)
  {
    match p
    case Undefined => open
    case Null => {}
    case Str(s) => if s != "" then {s} else {}
  }

  /** The index the carousel timer installs: `(prev + 1) % CAROUSEL_GIFS.length`. */
  function NextGif(i: nat): (r: nat)
    ensures r < GifCount
    ensures i + 1 < GifCount ==> r == i + 1
    ensures i + 1 == GifCount ==> r == 0
  {
    (i + 1) % GifCount
  }

  /** The carousel index after `n` timer steps from `i`. */
  function GifAfter(i: nat, n: nat): nat
  {
    if n == 0 then i else NextGif(GifAfter(i, n - 1))
  }

  /** After `n` steps the carousel has moved `n` places round the circle. */
  lemma {:induction false} GifAfterIsModular(i: nat, n: nat)
    requires i < GifCount
    ensures GifAfter(i, n) == (i + n) % GifCount
  {
    if n > 0 {
      GifAfterIsModular(i, n - 1);
    }
  }

  /** Five timer steps bring the carousel back to the entry it showed. */
  lemma GifCycleReturns(i: nat)
    requires i < GifCount
    ensures GifAfter(i, GifCount) == i
  {
    GifAfterIsModular(i, GifCount);
  }

  /** Toggling keeps the invariant, whatever was open before. */
  lemma ToggleKeepsAtMostOne(open: set<string>, id: string)
    ensures AtMostOneOpen(Toggled(open, id))
    ensures forall other :: other != id ==> !IsOpen(Toggled(open, id), other)
  {
  }

  /** Toggling an open panel closes everything; toggling a closed one opens exactly it. */
  lemma ToggleOpensOrCloses(open: set<string>, id: string)
    ensures IsOpen(open, id) ==> Toggled(open, id) == {}
    ensures !IsOpen(open, id) ==> Toggled(open, id) == {id}
  {
  }

  /** A second toggle of the same panel undoes the first exactly when nothing else was open. */
  lemma ToggleTwice(open: set<string>, id: string)
    ensures Toggled(Toggled(open, id), id) == open <==> open <= {id}
    ensures Toggled(Toggled({}, id), id) == {}
  {
  }

  /** The parent hears the toggled id exactly when the panel ends up open, and null otherwise. */
  lemma ToggleReportsOutcome(open: set<string>, id: string)
    ensures Report(Toggled(open, id), id) == Some(id) <==> IsOpen(Toggled(open, id), id)
    ensures Report(Toggled(open, id), id) == None <==> Toggled(open, id) == {}
  {
  }

  /**
   * The delayed scroll goes to the container when the toggle closed the panel
   * and to the panel when it opened it; with the element missing it does nothing.
   */
  lemma ToggleScrollEffect(open: set<string>, id: string, page: Page)
    ensures var t := ToggleScrollTarget(open, id);
      t in page ==> Performed(ScrollIntoViewIfPresent(t), page) == [ScrollIntoView(t)]
    ensures Performed(ScrollIntoViewIfPresent(ToggleScrollTarget(open, id)), page) == [] <==>
      ToggleScrollTarget(open, id) !in page
    ensures Toggled(open, id) == {} ==> ToggleScrollTarget(open, id) == SauceId
    ensures Toggled(open, id) != {} ==> ToggleScrollTarget(open, id) == id
  {
  }

  /** Under the invariant no two different panels are open together. */
  lemma OnlyOnePanelOpen(open: set<string>, a: string, b: string)
    requires AtMostOneOpen(open)
    requires a != b
    ensures !(IsOpen(open, a) && IsOpen(open, b))
  {
    if a in open {
      assert |open - {a}| == |open| - 1;
      assert open - {a} == {};
    }
  }

  /** The prop effect in each of its three cases. */
  lemma PropCases(open: set<string>, p: Prop)
    ensures p.Undefined? ==> PropApplied(open, p) == open
    ensures Truthy(p) ==> PropApplied(open, p) == {p.s}
    ensures !p.Undefined? && !Truthy(p) ==> PropApplied(open, p) == {}
  {
  }

  /** The panel state of one `TheSauce` component, with what it has told its parent and scheduled. */
  class Accordion {
    var openSections: set<string>
    var gifIndex: nat
    /** The values passed to `onSectionChange`, oldest first. */
    var reports: seq<Option<string>>
    /** The scrolls this component has scheduled, oldest first. */
    var log: seq<Scheduled>
    /** Whether the parent passed an `onSectionChange` callback. */
    const notifies: bool

    ghost predicate Valid()
      reads this
    {
      AtMostOneOpen(openSections) && gifIndex < GifCount
    }

    constructor (notifies: bool)
      ensures Valid()
      ensures openSections == {} && gifIndex == 0
      ensures reports == [] && log == []
      ensures this.notifies == notifies
    {
      openSections := {};
      gifIndex := 0;
      reports := [];
      log := [];
      this.notifies := notifies;
    }

    /** A click on the header or the collapse arrow of panel `id`. */
    method ToggleSection(id: string)
      requires Valid()
      modifies this
      ensures Valid()
      ensures openSections == Toggled(old(openSections), id)
      ensures log == old(log) + [Scheduled(ToggleScrollDelay, ScrollIntoViewIfPresent(ToggleScrollTarget(old(openSections), id)))]
      ensures reports == old(reports) + (if notifies then [Report(openSections, id)] else [])
      ensures gifIndex == old(gifIndex)
    {
      var newOpenSections: set<string> := {};
      if id in openSections {
        log := log + [Scheduled(ToggleScrollDelay, ScrollIntoViewIfPresent(SauceId))];
      } else {
        newOpenSections := newOpenSections + {id};
        log := log + [Scheduled(ToggleScrollDelay, ScrollIntoViewIfPresent(id))];
      }
      openSections := newOpenSections;
      if notifies {
        reports := reports + [if |newOpenSections| > 0 then Some(id) else None];
      }
    }

    /** The imperative handle `openSection(id)` the parent can call. */
    method OpenSpecificSection(id: string)
      requires Valid()
      modifies this
      ensures Valid()
      ensures openSections == {id}
      ensures reports == old(reports) + (if notifies then [Some(id)] else [])
      ensures log == old(log) && gifIndex == old(gifIndex)
    {
      openSections := {id};
      if notifies {
        reports := reports + [Some(id)];
      }
    }

    /** The effect that runs when the `openSection` prop changes; it reports nothing. */
    method ApplyOpenSectionProp(p: Prop)
      requires Valid()
      modifies this
      ensures Valid()
      ensures openSections == PropApplied(old(openSections), p)
      ensures reports == old(reports) && log == old(log) && gifIndex == old(gifIndex)
    {
      if !p.Undefined? {
        if Truthy(p) {
          openSections := {p.s};
        } else {
          openSections := {};
        }
      }
    }

    /** One tick of the 3-second carousel interval. */
    method AdvanceGif()
      requires Valid()
      modifies this
      ensures Valid()
      ensures gifIndex == NextGif(old(gifIndex))
      ensures openSections == old(openSections) && reports == old(reports) && log == old(log)
    {
      gifIndex := (gifIndex + 1) % GifCount;
    }

    /** A click on the carousel dot `index`; the dots are drawn one per GIF. */
    method SelectGif(index: nat)
      requires Valid()
      requires index < GifCount
      modifies this
      ensures Valid()
      ensures gifIndex == index
      ensures openSections == old(openSections) && reports == old(reports) && log == old(log)
    {
      gifIndex := index;
    }
  }
}
