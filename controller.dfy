/**
 * The page-flip controller as the browser runs it: one object whose page
 * counter, pending touch start and texts are reassigned by the event
 * handlers, over a fixed array of leaves whose flip state and stacking
 * order are updated in place. Every handler is proved to produce exactly the
 * state the matching function of module Navigation describes.
 */
module Controller {
  import opened Wrappers
  import opened Navigation

  class Book {
    const leaves: array<Leaf>
    const totalPages: int
    var currentPage: int
    var touchStartX: Option<real>
    var indicator: string
    var announcement: string

    /** The controller's whole state as a value. */
    function Snapshot(): View
      reads this, leaves
    {
      View(leaves[..], totalPages, currentPage, touchStartX, indicator, announcement)
    }

    ghost predicate Valid()
      reads this, leaves
    {
      Navigation.Valid(Snapshot())
    }

    /** Start-up with the leaves found in the document, in order. */
    constructor (initial: seq<Leaf>)
      ensures Valid() && fresh(leaves)
      ensures Snapshot() == Init(initial)
    {
      leaves := new Leaf[|initial|](i requires 0 <= i < |initial| => initial[i]);
      totalPages := 2 * |initial|;
      currentPage := 1;
      touchStartX := None;
      announcement := "";
      new;
      UpdateIndicator();
      assert leaves[..] == initial;
    }

    /** Writes "<current> / <total>" into the indicator. */
    method UpdateIndicator()
      modifies this`indicator
      ensures indicator == IndicatorText(currentPage, totalPages)
    {
      indicator := IndicatorText(currentPage, totalPages);
    }

    /** The observer on the indicator: copies the page pair into the live region. */
    method Announce()
      modifies this`announcement
      ensures announcement == AnnouncementText(currentPage, totalPages)
    {
      announcement := AnnouncementText(currentPage, totalPages);
    }

    /** Forward button, and the forward half of every other input. */
    method NextPage()
      requires Valid()
      modifies this, leaves
      ensures Valid()
      ensures Snapshot() == Next(old(Snapshot()))
    {
      ghost var v := Snapshot();
      PerformStep(v, Forward);
      if currentPage < totalPages {
        var i := FlipIndex(currentPage);
        if 0 <= i < leaves.Length {
          leaves[i] := leaves[i].(flipped := true, zIndex := Stack(FlippedZIndex(i)));
          currentPage := currentPage + 1;
          UpdateIndicator();
          Announce();
        }
      }
    }

    /** Backward button, and the backward half of every other input. */
    method PrevPage()
      requires Valid()
      modifies this, leaves
      ensures Valid()
      ensures Snapshot() == Prev(old(Snapshot()))
    {
      ghost var v := Snapshot();
      PerformStep(v, Backward);
      if currentPage > 1 {
        var i := UnflipIndex(currentPage);
        if 0 <= i < leaves.Length {
          leaves[i] := leaves[i].(flipped := false, zIndex := Stack(RestoredZIndex(i)));
          currentPage := currentPage - 1;
          UpdateIndicator();
          Announce();
        }
      }
    }

    /** Key press: each of the two tests may fire a step, and at most one does. */
    method OnKeyDown(key: string)
      requires Valid()
      modifies this, leaves
      ensures Valid()
      ensures Snapshot() == Perform(old(Snapshot()), KeyAction(key))
    {
      if key == "ArrowRight" || key == "PageDown" {
        NextPage();
      }
      if key == "ArrowLeft" || key == "PageUp" {
        PrevPage();
      }
    }

    method OnTouchStart(x: real)
      requires Valid()
      modifies this`touchStartX
      ensures Valid()
      ensures Snapshot() == TouchStart(old(Snapshot()), x)
    {
      touchStartX := Some(x);
    }

    /** Touch end: swipe rule on the travel since touch start, then forget the start. */
    method OnTouchEnd(x: real)
      requires Valid()
      modifies this, leaves
      ensures Valid()
      ensures Snapshot() == TouchEnd(old(Snapshot()), x)
    {
      if touchStartX.Some? {
        var dx := x - touchStartX.value;
        if dx < -SwipeThreshold {
          NextPage();
        }
        if dx > SwipeThreshold {
          PrevPage();
        }
        touchStartX := None;
      }
    }

    /** Click at horizontal offset `x` inside a book `width` wide. */
    method OnClick(x: real, width: real)
      requires Valid()
      modifies this, leaves
      ensures Valid()
      ensures Snapshot() == Perform(old(Snapshot()), ClickAction(x, width))
    {
      if x > width / 2.0 {
        NextPage();
      } else {
        PrevPage();
      }
    }
  }
}
