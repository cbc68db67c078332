/**
 * The "extras" slide carousel: four slides moved by arrow buttons, by
 * indicator dots and by horizontal swipes, and the file name a slide's GIF
 * is downloaded under.
 */
module Info {
  import opened Effects

  /** The number of slides. */
  const SlideCount: nat := 4

  /** The horizontal distance, in pixels, a swipe must exceed. */
  const SwipeThreshold: real := 50.0

  /** The GIF paths of the four slides, in order. */
  const SlideGifs: seq<string> := ["/jump.gif", "/tsu.gif", "/whale.gif", "/busy.gif"]

  /** The name used when a path ends in `/`. */
  const FallbackName: string := "download.gif"

  /** The index `nextSlide` installs: `(prev + 1) % slides.length`. */
  function NextIndex(i: nat): (r: nat)
    ensures r < SlideCount
    ensures i + 1 < SlideCount ==> r == i + 1
    ensures i + 1 == SlideCount ==> r == 0
  {
    (i + 1) % SlideCount
  }

  /**
   * The index `prevSlide` installs: `(prev - 1 + slides.length) % slides.length`.
   * For an index in range the dividend is never negative, so JavaScript's
   * remainder and Dafny's agree.
   */
  function PrevIndex(i: nat): (r: nat)
    ensures r < SlideCount
    ensures 0 < i <= SlideCount ==> r == i - 1
    ensures i == 0 ==> r == SlideCount - 1
  {
    (i - 1 + SlideCount) % SlideCount
  }

  /** Going forward then back, or back then forward, returns to the same slide. */
  lemma NextPrevInverse(i: nat)
    requires i < SlideCount
    ensures PrevIndex(NextIndex(i)) == i
    ensures NextIndex(PrevIndex(i)) == i
  {
  }

  /** The slide reached after `n` presses of the next arrow. */
  function Forward(i: nat, n: nat): nat
  {
    if n == 0 then i else NextIndex(Forward(i, n - 1))
  }

  /** The slide reached after `n` presses of the previous arrow. */
  function Backward(i: nat, n: nat): nat
  {
    if n == 0 then i else PrevIndex(Backward(i, n - 1))
  }

  /** `n` presses forward move `n` places round the circle of slides. */
  lemma {:induction false} ForwardIsModular(i: nat, n: nat)
    requires i < SlideCount
    ensures Forward(i, n) == (i + n) % SlideCount
  {
    if n > 0 {
      ForwardIsModular(i, n - 1);
    }
  }

  /** `n` presses back undo `n` presses forward. */
  lemma {:induction false} BackwardUndoesForward(i: nat, n: nat)
    requires i < SlideCount
    ensures Backward(Forward(i, n), n) == i
  {
    if n > 0 {
      var j := Forward(i, n - 1);
      ForwardIsModular(i, n - 1);
      BackwardAfterNext(j, n - 1);
      BackwardUndoesForward(i, n - 1);
    }
  }

  /** Helper: `n + 1` presses back after one press forward equal `n` presses back. */
  lemma {:induction false} BackwardAfterNext(j: nat, n: nat)
    requires j < SlideCount
    ensures Backward(NextIndex(j), n + 1) == Backward(j, n)
  {
    if n == 0 {
      NextPrevInverse(j);
    } else {
      BackwardAfterNext(j, n - 1);
    }
  }

  /** A touch coordinate that the guard `!touchStart || !touchEnd` rejects: none recorded, or 0. */
  predicate Falsy(x: Option<real>)
  {
    x.None? || x.value == 0.0
  }

  /** The slide shown after `onTouchEnd`, given the recorded coordinates. */
  function SwipeResult(current: nat, touchStart: Option<real>, touchEnd: Option<real>): (r: nat)
    ensures current < SlideCount ==> r < SlideCount
  {
    if Falsy(touchStart) || Falsy(touchEnd) then current
    else
      var distance := touchStart.value - touchEnd.value;
      var afterLeft := if distance > SwipeThreshold then NextIndex(current) else current;
      if distance < -SwipeThreshold then PrevIndex(afterLeft) else afterLeft
  }

  /**
   * A swipe of more than 50 pixels to the left advances, one of more than 50
   * to the right goes back, and anything shorter keeps the slide; the two
   * swipes never both apply.
   */
  lemma SwipeCases(current: nat, start: real, end: real)
    requires start != 0.0 && end != 0.0
    ensures start - end > SwipeThreshold ==> SwipeResult(current, Some(start), Some(end)) == NextIndex(current)
    ensures start - end < -SwipeThreshold ==> SwipeResult(current, Some(start), Some(end)) == PrevIndex(current)
    ensures -SwipeThreshold <= start - end <= SwipeThreshold ==> SwipeResult(current, Some(start), Some(end)) == current
    ensures !(start - end > SwipeThreshold && start - end < -SwipeThreshold)
  {
  }

  /** A missing or zero coordinate makes the touch end change nothing. */
  lemma FalsyTouchIgnored(current: nat, start: Option<real>, end: Option<real>)
    requires Falsy(start) || Falsy(end)
    ensures SwipeResult(current, start, end) == current
  {
  }

  /** Whether slide `index` is the one drawn at full opacity. */
  predicate IsActiveSlide(current: nat, index: nat)
  {
    index == current
  }

  /** The indices of the slides drawn as active. */
  function ActiveSlides(current: nat): set<nat>
  {
    set i: nat | i < SlideCount && IsActiveSlide(current, i)
  }

  /** Exactly one slide is active: the current one. */
  lemma ExactlyOneActiveSlide(current: nat)
    requires current < SlideCount
    ensures ActiveSlides(current) == {current}
    ensures |ActiveSlides(current)| == 1
  {
  }

  /** `s.split('/')`: the pieces between the slashes, at least one of them. */
  function SplitOnSlash(s: string): (parts: seq<string>)
    ensures |parts| >= 1
    ensures '/' !in s ==> parts == [s]
    ensures '/' in s ==> |parts| >= 2
    decreases |s|
  {
    if s == [] then [""]
    else
      var rest := SplitOnSlash(s[1..]);
      assert s == [s[0]] + s[1..];
      if s[0] == '/' then [""] + rest
      else [[s[0]] + rest[0]] + rest[1..]
  }

  /** `parts.join('/')`. */
  function JoinWithSlash(parts: seq<string>): string
    requires |parts| >= 1
  {
    if |parts| == 1 then parts[0] else parts[0] + "/" + JoinWithSlash(parts[1..])
  }

  /** The element `pop()` returns. */
  function Last(parts: seq<string>): string
    requires |parts| >= 1
  {
    parts[|parts| - 1]
  }

  /** Joining the pieces again gives back the path. */
  lemma {:induction false} JoinSplit(s: string)
    ensures JoinWithSlash(SplitOnSlash(s)) == s
    decreases |s|
  {
    if s != [] {
      var rest := SplitOnSlash(s[1..]);
      JoinSplit(s[1..]);
      if s[0] == '/' {
        assert SplitOnSlash(s)[1..] == rest;
      } else if |rest| > 1 {
        var parts := SplitOnSlash(s);
        assert parts[1..] == rest[1..];
        calc {
          JoinWithSlash(parts);
          ([s[0]] + rest[0]) + "/" + JoinWithSlash(rest[1..]);
          [s[0]] + (rest[0] + "/" + JoinWithSlash(rest[1..]));
          [s[0]] + s[1..];
        }
      }
    }
  }

  /** No piece contains a slash. */
  lemma {:induction false} PiecesHaveNoSlash(s: string)
    ensures forall k :: 0 <= k < |SplitOnSlash(s)| ==> '/' !in SplitOnSlash(s)[k]
    decreases |s|
  {
    if s != [] {
      PiecesHaveNoSlash(s[1..]);
      var rest := SplitOnSlash(s[1..]);
      if s[0] != '/' {
        assert '/' !in [s[0]] + rest[0];
      }
    }
  }

  /** `p` is what follows the last slash of `s`, or all of `s` when it has none. */
  predicate IsFinalSegment(s: string, p: string)
  {
    && |p| <= |s|
    && s[|s| - |p|..] == p
    && '/' !in p
    && (|p| == |s| || s[|s| - |p| - 1] == '/')
  }

  /** Helper: the characters of a final segment, seen as positions of the path, are no slashes. */
  lemma FinalSegmentSlashFree(s: string, p: string)
    requires IsFinalSegment(s, p)
    ensures forall i :: |s| - |p| <= i < |s| ==> s[i] != '/'
  {
    forall i | |s| - |p| <= i < |s|
      ensures s[i] != '/'
    {
      assert s[i] == p[i - (|s| - |p|)];
    }
  }

  /** A path has only one final segment. */
  lemma FinalSegmentUnique(s: string, p: string, q: string)
    requires IsFinalSegment(s, p) && IsFinalSegment(s, q)
    ensures p == q
  {
    FinalSegmentSlashFree(s, p);
    FinalSegmentSlashFree(s, q);
  }

  /** The last piece of the split is the final segment. */
  lemma {:induction false} LastPieceIsFinalSegment(s: string)
    ensures IsFinalSegment(s, Last(SplitOnSlash(s)))
    decreases |s|
  {
    if s != [] {
      var rest := s[1..];
      LastPieceIsFinalSegment(rest);
      var r := SplitOnSlash(rest);
      var parts := SplitOnSlash(s);
      if s[0] == '/' {
        assert Last(parts) == Last(r);
      } else if |r| == 1 {
        assert r == [rest];
        assert Last(parts) == s;
      } else {
        assert Last(parts) == Last(r);
        assert '/' in rest;
        assert Last(r) != rest;
      }
    }
  }

  /**
   * The name a slide's GIF is saved under, `gif.split('/').pop() || 'download.gif'`:
   * the text after the last slash, or the fallback when that text is empty.
   */
  function DownloadName(gif: string): (name: string)
    ensures name != "" && '/' !in name
    ensures forall p :: IsFinalSegment(gif, p) ==> name == if p == "" then FallbackName else p
  {
    LastPieceIsFinalSegment(gif);
    var last := Last(SplitOnSlash(gif));
    assert forall p :: IsFinalSegment(gif, p) ==> p == last by {
      forall p | IsFinalSegment(gif, p) ensures p == last {
        FinalSegmentUnique(gif, p, last);
      }
    }
    if last == "" then FallbackName else last
  }

  /** A file at the site root is saved under its own name. */
  lemma RootFileDownloadName(file: string)
    requires file != "" && '/' !in file
    ensures DownloadName("/" + file) == file
  {
    var s := "/" + file;
    assert s[|s| - |file|..] == file;
    assert IsFinalSegment(s, file);
  }

  /** The four slide GIFs are saved under their file names. */
  lemma SlideDownloadNames()
    ensures DownloadName(SlideGifs[0]) == "jump.gif"
    ensures DownloadName(SlideGifs[1]) == "tsu.gif"
    ensures DownloadName(SlideGifs[2]) == "whale.gif"
    ensures DownloadName(SlideGifs[3]) == "busy.gif"
  {
    RootFileDownloadName("jump.gif");
    RootFileDownloadName("tsu.gif");
    RootFileDownloadName("whale.gif");
    RootFileDownloadName("busy.gif");
  }

  /** The slide position and the coordinates of the touch in progress. */
  class Carousel {
    var currentSlide: nat
    var touchStart: Option<real>
    var touchEnd: Option<real>

    ghost predicate Valid()
      reads this
    {
      currentSlide < SlideCount
    }

    constructor ()
      ensures Valid()
      ensures currentSlide == 0 && touchStart == None && touchEnd == None
    {
      currentSlide := 0;
      touchStart := None;
      touchEnd := None;
    }

    /** The next arrow. */
    method NextSlide()
      requires Valid()
      modifies this`currentSlide
      ensures Valid()
      ensures currentSlide == NextIndex(old(currentSlide))
    {
      currentSlide := (currentSlide + 1) % SlideCount;
    }

    /** The previous arrow. */
    method PrevSlide()
      requires Valid()
      modifies this`currentSlide
      ensures Valid()
      ensures currentSlide == PrevIndex(old(currentSlide))
    {
      currentSlide := (currentSlide - 1 + SlideCount) % SlideCount;
    }

    /** The indicator dot `index`; the dots are drawn one per slide. */
    method GoToSlide(index: nat)
      requires Valid()
      requires index < SlideCount
      modifies this`currentSlide
      ensures Valid()
      ensures currentSlide == index
    {
      currentSlide := index;
    }

    /** A finger goes down at horizontal position `x`. */
    method OnTouchStart(x: real)
      requires Valid()
      modifies this`touchStart, this`touchEnd
      ensures Valid()
      ensures touchEnd == None && touchStart == Some(x)
    {
      touchEnd := None;
      touchStart := Some(x);
    }

    /** The finger moves to horizontal position `x`. */
    method OnTouchMove(x: real)
      requires Valid()
      modifies this`touchEnd
      ensures Valid()
      ensures touchEnd == Some(x)
    {
      touchEnd := Some(x);
    }

    /** The finger lifts; the recorded coordinates stay as they are. */
    method OnTouchEnd()
      requires Valid()
      modifies this`currentSlide
      ensures Valid()
      ensures currentSlide == SwipeResult(old(currentSlide), touchStart, touchEnd)
    {
      if Falsy(touchStart) || Falsy(touchEnd) {
        return;
      }
      var distance := touchStart.value - touchEnd.value;
      var isLeftSwipe := distance > SwipeThreshold;
      var isRightSwipe := distance < -SwipeThreshold;
      if isLeftSwipe {
        NextSlide();
      }
      if isRightSwipe {
        PrevSlide();
      }
    }

    /** A tap (touch start then touch end, with no move between) never changes the slide. */
    method Tap(x: real)
      requires Valid()
      modifies this`currentSlide, this`touchStart, this`touchEnd
      ensures Valid()
      ensures currentSlide == old(currentSlide)
      ensures touchStart == Some(x) && touchEnd == None
    {
      OnTouchStart(x);
      OnTouchEnd();
    }
  }
}
