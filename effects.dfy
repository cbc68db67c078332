/**
 * Values shared by the page's components: optional values, the set of
 * element ids the document currently holds, and the record of scroll
 * effects, state updates and timers that a handler produces.
 *
 * Nothing here touches a real window. A handler's observable behaviour is
 * the list of `Scheduled` records it appends to its component's log: a
 * record with delay 0 is an action performed at once, any other record is a
 * `setTimeout(callback, delay)` whose callback performs the action. Delays
 * are tags that fix the order in which callbacks run, not real time.
 */
module Effects {

  datatype Option<T> = None | Some(value: T)

  /** The ids for which `document.getElementById` returns an element. */
  type Page = set<string>

  /** The header height the page code assumes and the padding kept below it. */
  const NavHeight: real := 64.0
  const NavPadding: real := 16.0

  /** The offset the page code applies after a smooth scroll: `-navHeight - 16`. */
  const HeaderOffset: real := -NavHeight - NavPadding

  /** The delay of the corrective scroll that follows a smooth scroll. */
  const OffsetDelay: nat := 100

  datatype Action =
    | ScrollIntoView(target: string)            // element.scrollIntoView({ block: 'start' })
    | ScrollIntoViewIfPresent(target: string)   // a callback that looks the element up when it runs
    | ScrollBy(dy: real)                        // window.scrollBy(0, dy)
    | ScrollTo(top: real)                       // window.scrollTo({ top })
    | SetOpenSauce(section: Option<string>)     // the coordinator's open-subsection state
    | SetupObserver                             // the navigation bar's observer set-up

  /** An action together with the delay it was scheduled with. */
  datatype Scheduled = Scheduled(delay: nat, action: Action)

  /** An action performed synchronously. */
  function Now(a: Action): Scheduled
  {
    Scheduled(0, a)
  }

  /** The records run one after another: every delay is strictly larger than the one before. */
  predicate InFiringOrder(s: seq<Scheduled>)
  {
    forall i, j :: 0 <= i < j < |s| ==> s[i].delay < s[j].delay
  }

  /**
   * The window effects an action has when it runs against `page`. Only a
   * callback that looks its element up can come to nothing: it scrolls when
   * the element is there and does nothing otherwise.
   */
  function Performed(a: Action, page: Page): (r: seq<Action>)
    ensures |r| <= 1
    ensures r == [] <==> a.ScrollIntoViewIfPresent? && a.target !in page
    ensures a.ScrollIntoViewIfPresent? && a.target in page ==> r == [ScrollIntoView(a.target)]
    ensures !a.ScrollIntoViewIfPresent? ==> r == [a]
    ensures forall k :: 0 <= k < |r| ==> !r[k].ScrollIntoViewIfPresent?
  {
    match a
    case ScrollIntoViewIfPresent(t) => if t in page then [ScrollIntoView(t)] else []
    case _ => [a]
  }
}
