/**
 * The fixed navigation bar: four links, the section that is highlighted as
 * active, the mobile menu, and the intersection observer that moves the
 * highlight as the page scrolls.
 */
module Navigation {
  import opened Effects

  /** The sections the bar links to. */
  datatype SectionId = Hero | About | Sauce | Extras

  /** The element id of a section. */
  function Key(s: SectionId): string
  {
    match s
    case Hero => "hero"
    case About => "about"
    case Sauce => "sauce"
    case Extras => "extras"
  }

  datatype Link = Link(id: SectionId, caption: string)

  /** The links, in the order the bar draws them. */
  const LINKS: seq<Link> := [Link(Hero, "Home"), Link(About, "LilV"), Link(Sauce, "The Sauce"), Link(Extras, "Extras")]

  /** The delay before the observer is first set up, and between two attempts. */
  const SetupDelay: nat := 300
  const RetryDelay: nat := 100

  /** Different sections have different element ids. */
  lemma KeyInjective(a: SectionId, b: SectionId)
    ensures Key(a) == Key(b) <==> a == b
  {
  }

  /** The links name every section, each exactly once. */
  lemma LinksListEverySectionOnce(s: SectionId)
    ensures exists k :: 0 <= k < |LINKS| && LINKS[k].id == s
    ensures forall i, j :: 0 <= i < j < |LINKS| ==> LINKS[i].id != LINKS[j].id
  {
    match s
    case Hero => assert LINKS[0].id == s;
    case About => assert LINKS[1].id == s;
    case Sauce => assert LINKS[2].id == s;
    case Extras => assert LINKS[3].id == s;
  }

  /** `navRef.current?.getBoundingClientRect().height || 64`; `None` is a missing bar element. */
  function MeasuredNavHeight(measured: Option<real>): (h: real)
    ensures h != 0.0
    ensures measured.Some? && measured.value != 0.0 ==> h == measured.value
    ensures measured.None? || measured.value == 0.0 ==> h == NavHeight
  {
    if measured.Some? && measured.value != 0.0 then measured.value else NavHeight
  }

  /** The corrective scroll `-navHeight - 16` applied 100 ms after a link click. */
  function CorrectiveScroll(measured: Option<real>): (dy: real)
    ensures dy == -(MeasuredNavHeight(measured) + NavPadding)
    ensures measured.None? ==> dy == HeaderOffset
  {
    -MeasuredNavHeight(measured) - NavPadding
  }

  /** What a click on the link for `id` does to the window once the element exists. */
  function NavigateEffects(id: SectionId, measured: Option<real>): (r: seq<Scheduled>)
    ensures InFiringOrder(r)
    ensures |r| == 2 && r[0] == Now(ScrollIntoView(Key(id)))
    ensures r[1] == Scheduled(OffsetDelay, ScrollBy(CorrectiveScroll(measured))) && r[1].delay > 0
  {
    [Now(ScrollIntoView(Key(id))), Scheduled(OffsetDelay, ScrollBy(CorrectiveScroll(measured)))]
  }

  // ---- The observer's selection rule ----

  /** One `IntersectionObserverEntry`: its target and its bounding rectangle. */
  datatype Entry = Entry(target: SectionId, isIntersecting: bool, top: real, bottom: real)

  function Min(a: real, b: real): real { if a <= b then a else b }
  function Max(a: real, b: real): real { if a >= b then a else b }

  /** `Math.min(rect.bottom, innerHeight) - Math.max(rect.top, 0)`. */
  function VisibleHeight(e: Entry, innerHeight: real): (v: real)
    ensures v <= innerHeight - e.top && v <= e.bottom
    ensures 0.0 <= e.top && e.bottom <= innerHeight ==> v == e.bottom - e.top
  {
    Min(e.bottom, innerHeight) - Max(e.top, 0.0)
  }

  /**
   * `visibleHeight / rect.height`. For a rectangle of height 0 JavaScript
   * gives NaN or -Infinity here, neither of which is greater than any
   * number; the model has no score then.
   */
  function Score(e: Entry, innerHeight: real): (score: Option<real>)
    ensures score.None? <==> e.bottom == e.top
    ensures score.Some? ==> score.value * (e.bottom - e.top) == VisibleHeight(e, innerHeight)
  {
    var height := e.bottom - e.top;
    if height == 0.0 then None else Some(VisibleHeight(e, innerHeight) / height)
  }

  /** An entry that can win: intersecting, with a score above the initial `bestScore` of 0. */
  predicate Candidate(e: Entry, innerHeight: real)
  {
    e.isIntersecting && Score(e, innerHeight).Some? && Score(e, innerHeight).value > 0.0
  }

  /**
   * Entry `k` is the one the callback picks: a candidate whose score beats
   * every earlier candidate strictly and is not beaten by any later one.
   */
  predicate IsWinner(entries: seq<Entry>, k: int, innerHeight: real)
  {
    && 0 <= k < |entries|
    && Candidate(entries[k], innerHeight)
    && (forall j :: 0 <= j < k && Candidate(entries[j], innerHeight) ==>
          Score(entries[j], innerHeight).value < Score(entries[k], innerHeight).value)
    && (forall j :: k < j < |entries| && Candidate(entries[j], innerHeight) ==>
          Score(entries[j], innerHeight).value <= Score(entries[k], innerHeight).value)
  }

  /** `best` is the section the callback selects, or `None` when no entry is a candidate. */
  ghost predicate Selects(entries: seq<Entry>, innerHeight: real, best: Option<SectionId>)
  {
    if best.None? then forall k :: 0 <= k < |entries| ==> !Candidate(entries[k], innerHeight)
    else exists k :: 0 <= k < |entries| && IsWinner(entries, k, innerHeight) && entries[k].target == best.value
  }

  /** There is at most one winner. */
  lemma WinnerUnique(entries: seq<Entry>, k1: int, k2: int, innerHeight: real)
    requires IsWinner(entries, k1, innerHeight) && IsWinner(entries, k2, innerHeight)
    ensures k1 == k2
  {
  }

  /** The callback selects some section exactly when some entry is a candidate. */
  lemma SelectsSomeIffCandidate(entries: seq<Entry>, innerHeight: real, best: Option<SectionId>)
    requires Selects(entries, innerHeight, best)
    ensures best.Some? <==> exists k :: 0 <= k < |entries| && Candidate(entries[k], innerHeight)
  {
    if best.Some? {
      var k :| 0 <= k < |entries| && IsWinner(entries, k, innerHeight) && entries[k].target == best.value;
      assert Candidate(entries[k], innerHeight);
    }
  }

  /** The selection rule determines the outcome. */
  lemma SelectsIsFunctional(entries: seq<Entry>, innerHeight: real, b1: Option<SectionId>, b2: Option<SectionId>)
    requires Selects(entries, innerHeight, b1) && Selects(entries, innerHeight, b2)
    ensures b1 == b2
  {
    SelectsSomeIffCandidate(entries, innerHeight, b1);
    SelectsSomeIffCandidate(entries, innerHeight, b2);
    if b1.Some? {
      var k1 :| 0 <= k1 < |entries| && IsWinner(entries, k1, innerHeight) && entries[k1].target == b1.value;
      var k2 :| 0 <= k2 < |entries| && IsWinner(entries, k2, innerHeight) && entries[k2].target == b2.value;
      WinnerUnique(entries, k1, k2, innerHeight);
    }
  }

  /** The visible part of a well-formed rectangle is never taller than the rectangle. */
  lemma VisibleAtMostHeight(e: Entry, innerHeight: real)
    ensures VisibleHeight(e, innerHeight) <= e.bottom - e.top
  {
  }

  /** So an entry's score, when there is one, is at most 1. */
  lemma ScoreAtMostOne(e: Entry, innerHeight: real)
    requires e.top <= e.bottom
    ensures Score(e, innerHeight).Some? ==> Score(e, innerHeight).value <= 1.0
  {
    var height := e.bottom - e.top;
    if height != 0.0 {
      VisibleAtMostHeight(e, innerHeight);
      var v := VisibleHeight(e, innerHeight);
      assert v / height <= 1.0 by {
        assert v <= height;
        assert height > 0.0;
        assert v / height * height == v;
      }
    }
  }

  /**
   * The observer callback's loop: go through the entries in order and keep
   * the intersecting one with the strictly greatest score.
   */
  method SelectActive(entries: seq<Entry>, innerHeight: real) returns (bestSection: Option<SectionId>)
    ensures Selects(entries, innerHeight, bestSection)
  {
    bestSection := None;
    var bestScore: real := 0.0;
    ghost var bestIndex: int := -1;
    for i := 0 to |entries|
      invariant -1 <= bestIndex < i
      invariant bestIndex == -1 <==> bestSection.None?
      invariant bestIndex == -1 ==> bestScore == 0.0
      invariant bestIndex >= 0 ==>
        && Candidate(entries[bestIndex], innerHeight)
        && bestScore == Score(entries[bestIndex], innerHeight).value
        && bestSection == Some(entries[bestIndex].target)
        && (forall j :: 0 <= j < bestIndex && Candidate(entries[j], innerHeight) ==>
              Score(entries[j], innerHeight).value < bestScore)
      invariant forall j :: 0 <= j < i && Candidate(entries[j], innerHeight) ==>
        Score(entries[j], innerHeight).value <= bestScore
    {
      var entry := entries[i];
      if entry.isIntersecting {
        var visibleHeight := Min(entry.bottom, innerHeight) - Max(entry.top, 0.0);
        var height := entry.bottom - entry.top;
        if height != 0.0 {
          var score := visibleHeight / height;
          if score > bestScore {
            bestScore := score;
            bestSection := Some(entry.target);
            bestIndex := i;
          }
        }
      }
    }
    if bestIndex >= 0 {
      assert IsWinner(entries, bestIndex, innerHeight);
    }
  }

  /**
   * The example of a viewport 1000 pixels high that shows 90% of "about"
   * and 10% of "sauce": "about" wins.
   */
  lemma MostlyVisibleSectionWins()
    ensures var entries := [
        Entry(Hero, false, -1200.0, -100.0),
        Entry(About, true, -100.0, 900.0),
        Entry(Sauce, true, 900.0, 1900.0),
        Entry(Extras, false, 1900.0, 2900.0)];
      Selects(entries, 1000.0, Some(About))
  {
    var entries := [
        Entry(Hero, false, -1200.0, -100.0),
        Entry(About, true, -100.0, 900.0),
        Entry(Sauce, true, 900.0, 1900.0),
        Entry(Extras, false, 1900.0, 2900.0)];
    assert Score(entries[1], 1000.0) == Some(0.9);
    assert Score(entries[2], 1000.0) == Some(0.1);
    assert IsWinner(entries, 1, 1000.0);
  }

  /** The new active section after the callback selected `best`: unchanged when there is none. */
  function AfterSelection(active: SectionId, best: Option<SectionId>): (r: SectionId)
    ensures best.None? ==> r == active
    ensures best.Some? ==> r == best.value
  {
    if best.Some? && best.value != active then best.value else active
  }

  // ---- Highlighting ----

  /** Whether the link for `id` is drawn highlighted. */
  predicate IsHighlighted(active: SectionId, id: SectionId)
  {
    active == id
  }

  /** The `aria-current` attribute of the desktop link for `id`. */
  function AriaCurrent(active: SectionId, id: SectionId): (attr: Option<string>)
    ensures attr.Some? <==> IsHighlighted(active, id)
    ensures attr.Some? ==> attr.value == "page"
  {
    if active == id then Some("page") else None
  }

  /** The links drawn highlighted, in bar order. */
  function HighlightedLinks(links: seq<Link>, active: SectionId): (r: seq<SectionId>)
    ensures forall s :: s in r <==> (exists k :: 0 <= k < |links| && links[k].id == s) && IsHighlighted(active, s)
    ensures |r| <= |links|
  {
    if links == [] then []
    else
      var rest := HighlightedLinks(links[1..], active);
      assert forall k :: 1 <= k < |links| ==> links[k] == links[1..][k - 1];
      assert forall k :: 0 <= k < |links| - 1 ==> links[1..][k] == links[k + 1];
      if IsHighlighted(active, links[0].id) then [links[0].id] + rest else rest
  }

  /**
   * Exactly one link is highlighted, the active one, and it alone carries
   * `aria-current="page"`.
   */
  lemma ExactlyOneHighlighted(active: SectionId)
    ensures HighlightedLinks(LINKS, active) == [active]
    ensures forall k :: 0 <= k < |LINKS| ==> (AriaCurrent(active, LINKS[k].id) == Some("page") <==> LINKS[k].id == active)
  {
    assert LINKS[1..][1..][1..][1..] == [];
  }

  // ---- The observer's set-up ----

  /** The sections of `links` whose element exists, in order: the `map`/`filter(Boolean)` of `setupObserver`. */
  function PresentSections(links: seq<Link>, page: Page): (r: seq<SectionId>)
    ensures forall s :: s in r <==> (exists k :: 0 <= k < |links| && links[k].id == s) && Key(s) in page
    ensures |r| <= |links|
    ensures r == [] <==> forall k :: 0 <= k < |links| ==> Key(links[k].id) !in page
  {
    if links == [] then []
    else
      var rest := PresentSections(links[1..], page);
      assert forall k :: 1 <= k < |links| ==> links[k] == links[1..][k - 1];
      assert forall k :: 0 <= k < |links| - 1 ==> links[1..][k] == links[k + 1];
      if Key(links[0].id) in page then [links[0].id] + rest else rest
  }

  // ---- The menu ----

  /** The menu after a `mousedown`; the listener is only attached while the menu is open. */
  function AfterMouseDown(isMenuOpen: bool, insideMenu: bool): (r: bool)
    ensures r <==> isMenuOpen && insideMenu
  {
    if isMenuOpen && !insideMenu then false else isMenuOpen
  }

  /** The menu after a `keydown` of `key`; the listener is only attached while the menu is open. */
  function AfterKeyDown(isMenuOpen: bool, key: string): (r: bool)
    ensures r <==> isMenuOpen && key != "Escape"
  {
    if isMenuOpen && key == "Escape" then false else isMenuOpen
  }

  /**
   * A press of the mobile menu button as the code is written: the button is
   * outside the menu element, so the document's `mousedown` listener runs
   * first as for any outside press, and the button's click then toggles the
   * state that press left.
   */
  function MenuButtonPress(isMenuOpen: bool): bool
  {
    !AfterMouseDown(isMenuOpen, false)
  }

  /** As written, pressing the menu button never leaves the menu closed. */
  lemma MenuButtonNeverCloses(isMenuOpen: bool)
    ensures MenuButtonPress(isMenuOpen)
    ensures isMenuOpen ==> MenuButtonPress(isMenuOpen) == isMenuOpen
  {
  }

  /**
   * The outside-press rule with the menu button exempted, as a close button
   * needs: a press on the button itself is left to the button's own handler.
   */
  function AfterMouseDownExempt(isMenuOpen: bool, insideMenu: bool, onMenuButton: bool): (r: bool)
    ensures r <==> isMenuOpen && (insideMenu || onMenuButton)
    ensures !onMenuButton ==> r == AfterMouseDown(isMenuOpen, insideMenu)
  {
    if isMenuOpen && !insideMenu && !onMenuButton then false else isMenuOpen
  }

  /** A press of the menu button under the exempting rule. */
  function MenuButtonPressExempt(isMenuOpen: bool): (r: bool)
    ensures r == !isMenuOpen
  {
    !AfterMouseDownExempt(isMenuOpen, false, true)
  }

  /** The state of one navigation bar. */
  class NavBar {
    var isMenuOpen: bool
    var active: SectionId
    /** The scroll effects and timers this bar has produced, oldest first. */
    var log: seq<Scheduled>
    /** The ids passed to `onNavigate`, oldest first. */
    var notified: seq<SectionId>
    /** The sections the intersection observer watches; empty until it is set up. */
    var observed: seq<SectionId>
    /** Whether the parent passed an `onNavigate` callback. */
    const hasOnNavigate: bool

    constructor (hasOnNavigate: bool)
      ensures active == Hero && !isMenuOpen
      ensures log == [] && notified == [] && observed == []
      ensures this.hasOnNavigate == hasOnNavigate
    {
      isMenuOpen := false;
      active := Hero;
      log := [];
      notified := [];
      observed := [];
      this.hasOnNavigate := hasOnNavigate;
    }

    /**
     * A click on the link for `id`. `page` is the document's ids and
     * `measured` the bar's measured height (`None` when the bar element is missing).
     */
    method NavigateToSection(id: SectionId, page: Page, measured: Option<real>)
      modifies this
      ensures Key(id) !in page ==>
        isMenuOpen == old(isMenuOpen) && active == old(active) && log == old(log) && notified == old(notified)
      ensures Key(id) in page ==>
        && !isMenuOpen && active == id
        && log == old(log) + NavigateEffects(id, measured)
        && notified == old(notified) + (if hasOnNavigate then [id] else [])
      ensures observed == old(observed)
    {
      if Key(id) !in page {
        return;
      }
      isMenuOpen := false;
      active := id;
      var navHeight := MeasuredNavHeight(measured);
      log := log + [Now(ScrollIntoView(Key(id)))];
      log := log + [Scheduled(OffsetDelay, ScrollBy(-navHeight - NavPadding))];
      if hasOnNavigate {
        notified := notified + [id];
      }
    }

    /** The observer callback for one batch of entries. */
    method OnIntersections(entries: seq<Entry>, innerHeight: real)
      modifies this`active
      ensures exists best :: Selects(entries, innerHeight, best) && active == AfterSelection(old(active), best)
    {
      var bestSection := SelectActive(entries, innerHeight);
      if bestSection.Some? && bestSection.value != active {
        active := bestSection.value;
      }
    }

    /** The effect that waits 300 ms before setting up the observer. */
    method ScheduleObserverSetup()
      modifies this`log
      ensures log == old(log) + [Scheduled(SetupDelay, SetupObserver)]
    {
      log := log + [Scheduled(SetupDelay, SetupObserver)];
    }

    /** `setupObserver`: watch the sections that exist, or try again in 100 ms when none does. */
    method SetupObserverNow(page: Page)
      modifies this`log, this`observed
      ensures PresentSections(LINKS, page) == [] ==>
        log == old(log) + [Scheduled(RetryDelay, SetupObserver)] && observed == old(observed)
      ensures PresentSections(LINKS, page) != [] ==>
        log == old(log) && observed == PresentSections(LINKS, page)
    {
      var sections := PresentSections(LINKS, page);
      if |sections| == 0 {
        log := log + [Scheduled(RetryDelay, SetupObserver)];
        return;
      }
      observed := sections;
    }

    /** The mobile menu button. */
    method ToggleMenu()
      modifies this`isMenuOpen
      ensures isMenuOpen == !old(isMenuOpen)
    {
      isMenuOpen := !isMenuOpen;
    }

    /** A `mousedown` anywhere in the document. */
    method OnMouseDown(insideMenu: bool)
      modifies this`isMenuOpen
      ensures isMenuOpen == AfterMouseDown(old(isMenuOpen), insideMenu)
    {
      if isMenuOpen && !insideMenu {
        isMenuOpen := false;
      }
    }

    /** A press of the mobile menu button: the document's `mousedown`, then the button's click. */
    method PressMenuButton()
      modifies this`isMenuOpen
      ensures isMenuOpen == MenuButtonPress(old(isMenuOpen))
      ensures isMenuOpen
    {
      OnMouseDown(false);
      ToggleMenu();
      MenuButtonNeverCloses(old(isMenuOpen));
    }

    /** A `keydown` anywhere in the document. */
    method OnKeyDown(key: string)
      modifies this`isMenuOpen
      ensures isMenuOpen == AfterKeyDown(old(isMenuOpen), key)
    {
      if isMenuOpen && key == "Escape" {
        isMenuOpen := false;
      }
    }
  }
}
