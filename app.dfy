/**
 * The page coordinator: it routes navigation requests to sections and to
 * the panels nested inside "sauce", keeps the open panel it passes down to
 * the panels component, and exposes three functions on `window` while
 * mounted.
 */
module App {
  import opened Effects
  import TheSauce
  import Navigation

  /** The ids handled as panels nested inside the container (the panels' own ids). */
  const NestedIds: seq<string> := TheSauce.PanelIds

  /** The delay of opening the panel after a deep link. */
  const OpenDelay: nat := 500

  /** The functions the coordinator puts on `window`. */
  datatype EntryPoint = LilvNavigate | LilvDebugSections | LilvScrollTo

  const AllEntryPoints: set<EntryPoint> := {LilvNavigate, LilvDebugSections, LilvScrollTo}

  /**
   * What `handleNavigation(id)` does to the window and schedules. A nested
   * id scrolls to the container, corrects for the header, and opens the
   * panel last; any other id scrolls to its own element and corrects for
   * the header. A missing element means nothing at all is done.
   */
  function NavigationEffects(id: string, page: Page): (r: seq<Scheduled>)
    ensures InFiringOrder(r)
    ensures id in NestedIds ==> (r == [] <==> TheSauce.SauceId !in page)
    ensures id !in NestedIds ==> (r == [] <==> id !in page)
    ensures r != [] ==> r[0] == Now(ScrollIntoView(if id in NestedIds then TheSauce.SauceId else id))
    ensures r != [] ==> |r| >= 2 && r[1] == Scheduled(OffsetDelay, ScrollBy(HeaderOffset))
    ensures id in NestedIds && TheSauce.SauceId in page ==> |r| == 3
    ensures id !in NestedIds && id in page ==> |r| == 2
    ensures id in NestedIds ==> forall k :: 0 <= k < |r| ==> r[k].action != ScrollIntoView(id)
    ensures forall k :: 0 <= k < |r| && r[k].action.SetOpenSauce? ==>
      id in NestedIds && r[k].action.section == Some(id) && k == |r| - 1 && k > 0
    ensures id in NestedIds && r != [] ==> r[|r| - 1].action == SetOpenSauce(Some(id))
    ensures forall k :: 0 <= k < |r| && r[k].action.ScrollBy? ==> r[k].action.dy == HeaderOffset && r[k].delay > 0
  {
    if id in NestedIds then
      if TheSauce.SauceId in page then
        [Now(ScrollIntoView(TheSauce.SauceId)), Scheduled(OffsetDelay, ScrollBy(HeaderOffset)), Scheduled(OpenDelay, SetOpenSauce(Some(id)))]
      else
        []
    else if id in page then
      [Now(ScrollIntoView(id)), Scheduled(OffsetDelay, ScrollBy(HeaderOffset))]
    else
      []
  }

  /**
   * `lilvScrollTo`'s target: `scrollY + rect.top - navHeight - 16`, which
   * puts the element's top 80 pixels below the top of the viewport.
   */
  function ManualScrollTarget(scrollY: real, rectTop: real): (top: real)
    ensures (scrollY + rectTop) - top == NavHeight + NavPadding
  {
    scrollY + rectTop - NavHeight - NavPadding
  }

  /** The `openSection` prop the coordinator passes down: a string or null, never undefined. */
  function ToProp(section: Option<string>): (p: TheSauce.Prop)
    ensures !p.Undefined?
    ensures section.Some? <==> p.Str?
    ensures section.Some? ==> p == TheSauce.Str(section.value)
    ensures section.None? ==> p == TheSauce.Null
  {
    match section
    case None => TheSauce.Null
    case Some(s) => TheSauce.Str(s)
  }

  /**
   * When the panels component reports a toggle and the coordinator hands
   * the report back as the prop, the prop effect keeps the panels as the
   * toggle left them (for a non-empty panel id).
   */
  lemma EchoedToggleIsStable(open: set<string>, id: string)
    requires id != ""
    ensures var now := TheSauce.Toggled(open, id);
      TheSauce.PropApplied(now, ToProp(TheSauce.Report(now, id))) == now
  {
  }

  /** The same holds for the imperative `openSection(id)` handle. */
  lemma EchoedOpenIsStable(id: string)
    requires id != ""
    ensures TheSauce.PropApplied({id}, ToProp(Some(id))) == {id}
  {
  }

  /**
   * After a deep link to a nested panel has run to the end, the prop makes
   * the panels component show that panel and no other.
   */
  lemma DeepLinkOpensPanel(id: string, page: Page, open: set<string>)
    requires id in NestedIds && TheSauce.SauceId in page
    ensures var r := NavigationEffects(id, page);
      r[|r| - 1].action.SetOpenSauce? &&
      TheSauce.PropApplied(open, ToProp(r[|r| - 1].action.section)) == {id}
  {
    assert id != "";
  }

  /** The navigation bar only asks for top-level sections, so a nav click never opens a panel. */
  lemma NavBarLinksAreRegular(s: Navigation.SectionId, page: Page)
    ensures Navigation.Key(s) !in NestedIds
    ensures forall k :: 0 <= k < |NavigationEffects(Navigation.Key(s), page)| ==>
      !NavigationEffects(Navigation.Key(s), page)[k].action.SetOpenSauce?
  {
  }

  /**
   * A click on a nav-bar link runs the bar's own scroll and then, through
   * `onNavigate`, the coordinator's: the section is scrolled into view twice
   * and two corrective scrolls are scheduled at the same delay.
   */
  lemma NavClickScrollsTwice(s: Navigation.SectionId, page: Page, measured: Option<real>)
    requires Navigation.Key(s) in page
    ensures var all := Navigation.NavigateEffects(s, measured) + NavigationEffects(Navigation.Key(s), page);
      && |all| == 4
      && all[0] == all[2] == Now(ScrollIntoView(Navigation.Key(s)))
      && all[1] == Scheduled(OffsetDelay, ScrollBy(Navigation.CorrectiveScroll(measured)))
      && all[3] == Scheduled(OffsetDelay, ScrollBy(HeaderOffset))
  {
  }

  /** With no header measurement the bar's corrective scroll and the coordinator's agree: -80. */
  lemma OffsetsAgree()
    ensures Navigation.CorrectiveScroll(None) == HeaderOffset == -80.0
  {
  }

  /** The coordinator's state. */
  class Coordinator {
    /** The open panel passed down as the `openSection` prop. */
    var openSauceSection: Option<string>
    /** The scroll effects and timers produced, oldest first. */
    var log: seq<Scheduled>
    /** The functions currently on `window`. */
    var globals: set<EntryPoint>

    constructor ()
      ensures openSauceSection == None && log == [] && globals == {}
    {
      openSauceSection := None;
      log := [];
      globals := {};
    }

    /** The prop the panels component receives. */
    function SauceProp(): (p: TheSauce.Prop)
      reads this
      ensures !p.Undefined?
      ensures openSauceSection.Some? ==> p == TheSauce.Str(openSauceSection.value)
      ensures openSauceSection.None? ==> p == TheSauce.Null
    {
      ToProp(openSauceSection)
    }

    /** `handleNavigation(id)`, the navigation bar's `onNavigate`. */
    method HandleNavigation(id: string, page: Page)
      modifies this`openSauceSection, this`log
      ensures openSauceSection == (if id != TheSauce.SauceId then None else old(openSauceSection))
      ensures log == old(log) + NavigationEffects(id, page)
    {
      if id != TheSauce.SauceId {
        openSauceSection := None;
      }
      if id in NestedIds {
        if TheSauce.SauceId in page {
          log := log + [Now(ScrollIntoView(TheSauce.SauceId))];
          log := log + [Scheduled(OffsetDelay, ScrollBy(-NavHeight - NavPadding))];
          log := log + [Scheduled(OpenDelay, SetOpenSauce(Some(id)))];
        }
        return;
      }
      if id in page {
        log := log + [Now(ScrollIntoView(id))];
        log := log + [Scheduled(OffsetDelay, ScrollBy(-NavHeight - NavPadding))];
      }
    }

    /** `handleSauceSectionChange`, the panels component's `onSectionChange`. */
    method HandleSauceSectionChange(sectionId: Option<string>)
      modifies this`openSauceSection
      ensures openSauceSection == sectionId
      ensures SauceProp() == ToProp(sectionId)
    {
      openSauceSection := sectionId;
    }

    /** A callback the coordinator scheduled runs; only opening a panel changes its state. */
    method RunScheduled(t: Scheduled)
      modifies this`openSauceSection
      ensures openSauceSection == if t.action.SetOpenSauce? then t.action.section else old(openSauceSection)
    {
      if t.action.SetOpenSauce? {
        openSauceSection := t.action.section;
      }
    }

    /** The mount effect that puts the three functions on `window`. */
    method RegisterGlobals()
      modifies this`globals
      ensures globals == AllEntryPoints
    {
      globals := {LilvNavigate, LilvDebugSections, LilvScrollTo};
    }

    /** The effect's cleanup, which deletes all three. */
    method UnregisterGlobals()
      modifies this`globals
      ensures globals == {}
      ensures forall e :: e in old(globals) ==> e !in globals
    {
      globals := globals - {LilvNavigate};
      globals := globals - {LilvDebugSections};
      globals := globals - {LilvScrollTo};
      forall e: EntryPoint
        ensures e !in globals
      {
        assert e == LilvNavigate || e == LilvDebugSections || e == LilvScrollTo;
      }
    }

    /** A call of `window.lilvNavigate(id)`; `found` is whether the function is there. */
    method CallNavigate(id: string, page: Page) returns (found: bool)
      modifies this`openSauceSection, this`log
      ensures found == (LilvNavigate in globals)
      ensures !found ==> openSauceSection == old(openSauceSection) && log == old(log)
      ensures found ==>
        openSauceSection == (if id != TheSauce.SauceId then None else old(openSauceSection)) &&
        log == old(log) + NavigationEffects(id, page)
    {
      found := LilvNavigate in globals;
      if found {
        HandleNavigation(id, page);
      }
    }

    /**
     * A call of `window.lilvScrollTo(id)`; `scrollY` and `rectTop` are the
     * window's scroll position and the element's top when it is called.
     */
    method CallScrollTo(id: string, page: Page, scrollY: real, rectTop: real) returns (found: bool)
      modifies this`log
      ensures found == (LilvScrollTo in globals)
      ensures log == old(log) + if found && id in page then [Now(ScrollTo(ManualScrollTarget(scrollY, rectTop)))] else []
    {
      found := LilvScrollTo in globals;
      if found && id in page {
        var targetTop := scrollY + rectTop - NavHeight - NavPadding;
        log := log + [Now(ScrollTo(targetTop))];
      }
    }

    /** A call of `window.lilvDebugSections()`: it only writes to the console, which is not modelled. */
    method CallDebugSections() returns (found: bool)
      ensures found == (LilvDebugSections in globals)
    {
      found := LilvDebugSections in globals;
    }
  }

  /** After teardown the global functions are gone, and calling them changes nothing. */
  method TeardownDisablesGlobals(c: Coordinator, id: string, page: Page, scrollY: real, rectTop: real)
    modifies c
    ensures c.globals == {}
    ensures c.openSauceSection == old(c.openSauceSection) && c.log == old(c.log)
  {
    c.UnregisterGlobals();
    var a := c.CallNavigate(id, page);
    var b := c.CallScrollTo(id, page, scrollY, rectTop);
    var d := c.CallDebugSections();
    assert !a && !b && !d;
  }
}
