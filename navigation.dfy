/**
 * The page-navigation state machine of the page-flip controller, on values.
 *
 * A `View` is everything the controller keeps or writes: the ordered leaves
 * (each a sheet holding two pages), the fixed page count, the 1-based current
 * page, the pending touch start, the indicator text and the text of the
 * off-screen announcement region. `Next` and `Prev` are the two guarded
 * transitions; the key, swipe and click rules pick one of them. The class in
 * module Controller performs these updates in place and is proved against
 * the functions here.
 */
module Navigation {
  import opened Wrappers
  import opened Text

  /** The inline `style.zIndex` of a leaf: unset until the controller first writes it. */
  datatype ZIndex = Unset | Stack(level: int)

  /** A leaf: whether it carries the `flipped` class, and its stacking order. */
  datatype Leaf = Leaf(flipped: bool, zIndex: ZIndex)

  datatype View = View(
    leaves: seq<Leaf>,
    totalPages: int,
    currentPage: int,
    touchStartX: Option<real>,
    indicator: string,
    announcement: string)

  /** What an input event asks for. */
  datatype Action = Forward | Backward | Stay

  /** A horizontal swipe must travel strictly more than this many pixels. */
  const SwipeThreshold: real := 30.0

  /** Stacking order given to leaf `i` when it is flipped. */
  function FlippedZIndex(i: int): int { 100 - i }

  /** Stacking order given to leaf `i` when it is turned back. */
  function RestoredZIndex(i: int): int { 100 - i + 1000 }

  /** Leaf turned by a forward step from page `c`: floor(c / 2). */
  function FlipIndex(c: int): int { c / 2 }

  /** Leaf turned back by a backward step from page `c`: floor((c - 2) / 2). */
  function UnflipIndex(c: int): int { (c - 2) / 2 }

  // ---------------------------------------------------------------------
  // Indicator and announcement texts

  /** The visible indicator, "<current> / <total>". */
  function IndicatorText(c: int, t: int): string {
    IntToText(c) + " / " + IntToText(t)
  }

  /** The live-region announcement, "Page <current> of <total>". */
  function AnnouncementText(c: int, t: int): string {
    "Page " + IntToText(c) + " of " + IntToText(t)
  }

  // The controller never parses text. The decoders below are reference
  // decoders, used only to show that the rendered indicator and announcement
  // texts determine the page pair they were written from.

  /** Index of the first space in `s`, or `|s|` when there is none. */
  function FirstSpace(s: string): (k: nat)
    ensures k <= |s|
    ensures k < |s| ==> s[k] == ' '
    ensures forall j :: 0 <= j < k ==> s[j] != ' '
    decreases |s|
  {
    if s == [] || s[0] == ' ' then 0 else 1 + FirstSpace(s[1..])
  }

  /** Reference decoder for "<prefix><int><sep><int>" where the separator starts with a space. */
  function ParseFramed(s: string, prefix: string, sep: string): Option<(int, int)>
    requires 1 <= |sep| && sep[0] == ' '
  {
    if |s| < |prefix| || s[..|prefix|] != prefix then None
    else
      var rest := s[|prefix|..];
      var k := FirstSpace(rest);
      if k + |sep| <= |rest| && rest[k..k + |sep|] == sep then
        var a := ParseInt(rest[..k]);
        var b := ParseInt(rest[k + |sep|..]);
        if a.Some? && b.Some? then Some((a.value, b.value)) else None
      else None
  }

  /** Reference decoder for the indicator text. */
  function ParseIndicator(s: string): Option<(int, int)> {
    ParseFramed(s, "", " / ")
  }

  /** Reference decoder for the announcement text. */
  function ParseAnnouncement(s: string): Option<(int, int)> {
    ParseFramed(s, "Page ", " of ")
  }

  lemma ParseFramedRoundTrip(prefix: string, sep: string, c: int, t: int)
    requires 1 <= |sep| && sep[0] == ' '
    ensures ParseFramed(prefix + IntToText(c) + sep + IntToText(t), prefix, sep) == Some((c, t))
  {
    var a, b := IntToText(c), IntToText(t);
    var s := prefix + a + sep + b;
    var rest := s[|prefix|..];
    assert s[..|prefix|] == prefix;
    assert rest == a + sep + b;
    IntToTextHasNoSpace(c);
    var k := FirstSpace(rest);
    assert rest[|a|] == ' ';
    assert forall j :: 0 <= j < |a| ==> rest[j] == a[j];
    assert k == |a|;
    assert rest[..k] == a;
    assert rest[k..k + |sep|] == sep;
    assert rest[k + |sep|..] == b;
    ParseIntOfIntToText(c);
    ParseIntOfIntToText(t);
  }

  /** The indicator text determines the page pair it was rendered from. */
  lemma IndicatorRoundTrip(c: int, t: int)
    ensures ParseIndicator(IndicatorText(c, t)) == Some((c, t))
  {
    var a, b := IntToText(c), IntToText(t);
    ParseFramedRoundTrip("", " / ", c, t);
    assert "" + a == a;
    assert "" + a + " / " + b == IndicatorText(c, t);
  }

  lemma AnnouncementRoundTrip(c: int, t: int)
    ensures ParseAnnouncement(AnnouncementText(c, t)) == Some((c, t))
  {
    ParseFramedRoundTrip("Page ", " of ", c, t);
  }

  // ---------------------------------------------------------------------
  // State, initialisation and the two transitions

  /** The invariant the controller keeps between events. */
  predicate Valid(v: View) {
    && v.totalPages == 2 * |v.leaves|
    && 1 <= v.currentPage
    && (v.currentPage <= v.totalPages || v.currentPage == 1)
    && v.indicator == IndicatorText(v.currentPage, v.totalPages)
    && (v.announcement == "" || v.announcement == AnnouncementText(v.currentPage, v.totalPages))
  }

  /**
   * Each leaf's stacking order matches its flip state: a flipped leaf has the
   * order a forward step gives it, a resting one is unset or has the order a
   * backward step gives it.
   */
  predicate StackOrderConsistent(leaves: seq<Leaf>) {
    forall j :: 0 <= j < |leaves| ==>
      if leaves[j].flipped then leaves[j].zIndex == Stack(FlippedZIndex(j))
      else leaves[j].zIndex == Unset || leaves[j].zIndex == Stack(RestoredZIndex(j))
  }

  /**
   * Start-up: two pages per leaf, page 1, no touch in progress, the indicator
   * written once; the announcement region is attached only after that first
   * write, so it starts empty.
   */
  function Init(leaves: seq<Leaf>): View {
    View(leaves, 2 * |leaves|, 1, None, IndicatorText(1, 2 * |leaves|), "")
  }

  /** Forward step: turn leaf floor(c / 2) over and advance one page. */
  function Next(v: View): View {
    if v.currentPage >= v.totalPages then v
    else
      var i := FlipIndex(v.currentPage);
      if 0 <= i < |v.leaves| then
        var c := v.currentPage + 1;
        v.(leaves := v.leaves[i := v.leaves[i].(flipped := true, zIndex := Stack(FlippedZIndex(i)))],
           currentPage := c,
           indicator := IndicatorText(c, v.totalPages),
           announcement := AnnouncementText(c, v.totalPages))
      else v
  }

  /** Backward step: turn leaf floor((c - 2) / 2) back and go back one page. */
  function Prev(v: View): View {
    if v.currentPage <= 1 then v
    else
      var i := UnflipIndex(v.currentPage);
      if 0 <= i < |v.leaves| then
        var c := v.currentPage - 1;
        v.(leaves := v.leaves[i := v.leaves[i].(flipped := false, zIndex := Stack(RestoredZIndex(i)))],
           currentPage := c,
           indicator := IndicatorText(c, v.totalPages),
           announcement := AnnouncementText(c, v.totalPages))
      else v
  }

  function Perform(v: View, a: Action): View {
    match a
    case Forward => Next(v)
    case Backward => Prev(v)
    case Stay => v
  }

  /** The state after a series of actions, in order. */
  function Run(v: View, acts: seq<Action>): View
    decreases |acts|
  {
    if acts == [] then v else Run(Perform(v, acts[0]), acts[1..])
  }

  // ---------------------------------------------------------------------
  // Input decision rules

  function Opposite(a: Action): Action {
    match a
    case Forward => Backward
    case Backward => Forward
    case Stay => Stay
  }

  /** ArrowRight and PageDown go forward, ArrowLeft and PageUp go back. */
  function KeyAction(key: string): Action {
    if key == "ArrowRight" || key == "PageDown" then Forward
    else if key == "ArrowLeft" || key == "PageUp" then Backward
    else Stay
  }

  /** A leftward swipe goes forward, a rightward one goes back. */
  function SwipeAction(dx: real): Action {
    if dx < -SwipeThreshold then Forward
    else if dx > SwipeThreshold then Backward
    else Stay
  }

  /** A click right of the midpoint goes forward, anywhere else goes back. */
  function ClickAction(x: real, width: real): Action {
    if x > width / 2.0 then Forward else Backward
  }

  /** Touch start records the horizontal position. */
  function TouchStart(v: View, x: real): (r: View)
    ensures r.touchStartX == Some(x)
    ensures r.(touchStartX := v.touchStartX) == v
  {
    v.(touchStartX := Some(x))
  }

  /**
   * Touch end: ignored when no start was recorded; otherwise the swipe rule
   * on the horizontal travel, then the recorded start is cleared.
   */
  function TouchEnd(v: View, x: real): (r: View)
    ensures r.touchStartX == None
    ensures v.touchStartX == None ==> r == v
  {
    match v.touchStartX
    case None => v
    case Some(s) => Perform(v, SwipeAction(x - s)).(touchStartX := None)
  }

  // ---------------------------------------------------------------------
  // Properties

  lemma InitState(leaves: seq<Leaf>)
    ensures var v := Init(leaves);
      && Valid(v)
      && v.totalPages == 2 * |leaves|
      && v.currentPage == 1
      && v.leaves == leaves
      && v.touchStartX == None
      && ParseIndicator(v.indicator) == Some((1, 2 * |leaves|))
  {
    IndicatorRoundTrip(1, 2 * |leaves|);
  }

  /** With five leaves the indicator first reads "1 / 10". */
  lemma InitIndicatorFiveLeaves(leaves: seq<Leaf>)
    requires |leaves| == 5
    ensures Init(leaves).indicator == "1 / 10"
  {
    assert NatToDecimal(10) == NatToDecimal(1) + [DigitChar(0)];
  }

  /** At the last page a forward step, and at the first page a backward step, change nothing. */
  lemma NoOpAtBounds(v: View)
    ensures v.currentPage >= v.totalPages ==> Next(v) == v
    ensures v.currentPage <= 1 ==> Prev(v) == v
  {
  }

  /** Whenever the guard passes, the leaf to turn exists. */
  lemma LeafIndicesInRange(c: int, n: int)
    ensures 1 <= c < 2 * n ==> 0 <= FlipIndex(c) < n
    ensures 1 < c <= 2 * n ==> 0 <= UnflipIndex(c) < n
  {
  }

  /**
   * A forward step from a page before the last always succeeds: it flips
   * leaf floor(c / 2) with order 100 - i, touches no other leaf, advances the
   * page by one and rewrites both texts.
   */
  lemma NextStep(v: View)
    requires Valid(v) && v.currentPage < v.totalPages
    ensures var r, c, i := Next(v), v.currentPage, FlipIndex(v.currentPage);
      && 0 <= i < |v.leaves|
      && |r.leaves| == |v.leaves|
      && r.leaves[i] == Leaf(true, Stack(FlippedZIndex(i)))
      && (forall j :: 0 <= j < |v.leaves| && j != i ==> r.leaves[j] == v.leaves[j])
      && r.currentPage == c + 1
      && r.totalPages == v.totalPages
      && r.touchStartX == v.touchStartX
      && r.indicator == IndicatorText(c + 1, v.totalPages)
      && r.announcement == AnnouncementText(c + 1, v.totalPages)
  {
    LeafIndicesInRange(v.currentPage, |v.leaves|);
  }

  /**
   * A backward step from a page after the first always succeeds: it turns
   * leaf floor((c - 2) / 2) back with order 1100 - i, touches no other leaf,
   * goes back one page and rewrites both texts.
   */
  lemma PrevStep(v: View)
    requires Valid(v) && 1 < v.currentPage
    ensures var r, c, i := Prev(v), v.currentPage, UnflipIndex(v.currentPage);
      && 0 <= i < |v.leaves|
      && |r.leaves| == |v.leaves|
      && r.leaves[i] == Leaf(false, Stack(RestoredZIndex(i)))
      && (forall j :: 0 <= j < |v.leaves| && j != i ==> r.leaves[j] == v.leaves[j])
      && r.currentPage == c - 1
      && r.totalPages == v.totalPages
      && r.touchStartX == v.touchStartX
      && r.indicator == IndicatorText(c - 1, v.totalPages)
      && r.announcement == AnnouncementText(c - 1, v.totalPages)
  {
    LeafIndicesInRange(v.currentPage, |v.leaves|);
  }

  /**
   * Every action keeps the invariant and the stacking orders consistent, and
   * moves the page by +1 exactly when it is a forward step before the last
   * page, by -1 exactly when it is a backward step after the first page, and
   * not at all otherwise.
   */
  lemma PerformStep(v: View, a: Action)
    requires Valid(v)
    ensures Valid(Perform(v, a))
    ensures StackOrderConsistent(v.leaves) ==> StackOrderConsistent(Perform(v, a).leaves)
    ensures Perform(v, a).currentPage == v.currentPage + 1 <==> a == Forward && v.currentPage < v.totalPages
    ensures Perform(v, a).currentPage == v.currentPage - 1 <==> a == Backward && 1 < v.currentPage
    ensures Perform(v, a).currentPage == v.currentPage <==>
      a == Stay || (a == Forward && v.currentPage >= v.totalPages) || (a == Backward && v.currentPage <= 1)
  {
    match a
    case Forward =>
      if v.currentPage < v.totalPages { NextStep(v); }
    case Backward =>
      if 1 < v.currentPage { PrevStep(v); }
    case Stay =>
  }

  /** Any series of inputs from a valid state keeps the invariant, the leaf count and the page total. */
  lemma {:induction false} RunKeepsValid(v: View, acts: seq<Action>)
    requires Valid(v)
    ensures Valid(Run(v, acts))
    ensures |Run(v, acts).leaves| == |v.leaves| && Run(v, acts).totalPages == v.totalPages
    decreases |acts|
  {
    if acts != [] {
      PerformStep(v, acts[0]);
      var w := Perform(v, acts[0]);
      assert |w.leaves| == |v.leaves|;
      RunKeepsValid(w, acts[1..]);
    }
  }

  /** Any series of inputs keeps every leaf's stacking order consistent with its flip state. */
  lemma {:induction false} RunKeepsStackOrder(v: View, acts: seq<Action>)
    requires Valid(v) && StackOrderConsistent(v.leaves)
    ensures StackOrderConsistent(Run(v, acts).leaves)
    decreases |acts|
  {
    if acts != [] {
      PerformStep(v, acts[0]);
      RunKeepsStackOrder(Perform(v, acts[0]), acts[1..]);
    }
  }

  /**
   * With at least one leaf, the current page stays within 1..totalPages,
   * whatever flip state and stacking order the leaves start with.
   */
  lemma RunStaysInBounds(leaves: seq<Leaf>, acts: seq<Action>)
    requires 1 <= |leaves|
    ensures 1 <= Run(Init(leaves), acts).currentPage <= 2 * |leaves|
  {
    InitState(leaves);
    RunKeepsValid(Init(leaves), acts);
  }

  /**
   * A forward step from page 3 turns leaf 1 over a second time: leaf 2,
   * the first leaf a forward step from page 1 and then page 2 has not
   * turned, is left as it was.
   */
  lemma ForwardFromPageThreeRepeatsLeafOne(v: View)
    requires Valid(v) && v.currentPage == 3 && 3 <= |v.leaves|
    ensures Next(v).leaves[1] == Leaf(true, Stack(FlippedZIndex(1)))
    ensures Next(v).leaves[2] == v.leaves[2]
    ensures Next(v).currentPage == 4
  {
    NextStep(v);
  }

  /**
   * Forward then back from an odd page c: the page and indicator return, and
   * leaf floor(c / 2) is left unflipped with the backward stacking order. So
   * every flag is restored exactly when that leaf was unflipped before.
   */
  lemma NextThenPrevFromOdd(v: View)
    requires Valid(v) && v.currentPage < v.totalPages && v.currentPage % 2 == 1
    ensures var r, k := Prev(Next(v)), FlipIndex(v.currentPage);
      && 0 <= k < |v.leaves|
      && r.currentPage == v.currentPage
      && r.indicator == v.indicator
      && r.leaves == v.leaves[k := Leaf(false, Stack(RestoredZIndex(k)))]
      && ((forall j :: 0 <= j < |v.leaves| ==> r.leaves[j].flipped == v.leaves[j].flipped)
          <==> !v.leaves[k].flipped)
  {
    NextStep(v);
    var w := Next(v);
    PerformStep(v, Forward);
    PrevStep(w);
    var k := FlipIndex(v.currentPage);
    assert UnflipIndex(w.currentPage) == k;
    var r := Prev(w);
    assert r.leaves == v.leaves[k := Leaf(false, Stack(RestoredZIndex(k)))];
    if !v.leaves[k].flipped {
      assert forall j :: 0 <= j < |v.leaves| ==> r.leaves[j].flipped == v.leaves[j].flipped;
    } else {
      assert r.leaves[k].flipped != v.leaves[k].flipped;
    }
  }

  /**
   * Forward then back from an even page c = 2k: the page and indicator
   * return, but the forward step turned leaf k over and the backward step
   * turned leaf k - 1 back, so two leaves may have changed.
   */
  lemma NextThenPrevFromEven(v: View)
    requires Valid(v) && v.currentPage < v.totalPages && v.currentPage % 2 == 0
    ensures var r, k := Prev(Next(v)), FlipIndex(v.currentPage);
      && 1 <= k < |v.leaves|
      && r.currentPage == v.currentPage
      && r.indicator == v.indicator
      && r.leaves == v.leaves[k := Leaf(true, Stack(FlippedZIndex(k)))]
                             [k - 1 := Leaf(false, Stack(RestoredZIndex(k - 1)))]
  {
    NextStep(v);
    var w := Next(v);
    PerformStep(v, Forward);
    PrevStep(w);
    assert UnflipIndex(w.currentPage) == FlipIndex(v.currentPage) - 1;
  }

  /**
   * In every valid state the indicator reads back as the page pair, and a
   * non-empty announcement reads back as the same pair.
   */
  lemma TextsAgree(v: View)
    requires Valid(v)
    ensures ParseIndicator(v.indicator) == Some((v.currentPage, v.totalPages))
    ensures v.announcement != "" ==> ParseAnnouncement(v.announcement) == ParseIndicator(v.indicator)
  {
    IndicatorRoundTrip(v.currentPage, v.totalPages);
    AnnouncementRoundTrip(v.currentPage, v.totalPages);
  }

  // ---------------------------------------------------------------------
  // Worked runs

  /** Next, next, prev from page 1: page 2 with leaf 0 resting and leaf 1 flipped. */
  lemma ForwardTwiceBackOnce(leaves: seq<Leaf>)
    requires 2 <= |leaves|
    requires forall j :: 0 <= j < |leaves| ==> leaves[j] == Leaf(false, Unset)
    ensures var r := Run(Init(leaves), [Forward, Forward, Backward]);
      && r.currentPage == 2
      && !r.leaves[0].flipped
      && r.leaves[1].flipped
      && r.indicator == IndicatorText(2, 2 * |leaves|)
  {
    var v0 := Init(leaves);
    var v1 := Next(v0);
    var v2 := Next(v1);
    var v3 := Prev(v2);
    assert Run(Init(leaves), [Forward, Forward, Backward]) == v3 by {
      assert [Forward, Forward, Backward][1..] == [Forward, Backward];
      assert [Forward, Backward][1..] == [Backward];
    }
  }

  /** Next, next, prev, prev from page 1: back on page 1 with leaf 1 still flipped. */
  lemma BackAtFirstPageWithLeafFlipped(leaves: seq<Leaf>)
    requires 2 <= |leaves|
    requires forall j :: 0 <= j < |leaves| ==> leaves[j] == Leaf(false, Unset)
    ensures var r := Run(Init(leaves), [Forward, Forward, Backward, Backward]);
      && r.currentPage == 1
      && !r.leaves[0].flipped
      && r.leaves[1].flipped
  {
    var v0 := Init(leaves);
    var v4 := Prev(Prev(Next(Next(v0))));
    assert Run(Init(leaves), [Forward, Forward, Backward, Backward]) == v4 by {
      assert [Forward, Forward, Backward, Backward][1..] == [Forward, Backward, Backward];
      assert [Forward, Backward, Backward][1..] == [Backward, Backward];
      assert [Backward, Backward][1..] == [Backward];
    }
  }

  /**
   * Three leaves: four forward steps reach page 5 with all three leaves
   * flipped (the step from page 4 turns leaf 2); one backward step then
   * reaches page 4 with leaf 1 turned back and leaves 0 and 2 still flipped.
   */
  lemma ThreeLeafWalk(leaves: seq<Leaf>)
    requires |leaves| == 3
    requires forall j :: 0 <= j < |leaves| ==> leaves[j] == Leaf(false, Unset)
    ensures var r := Next(Next(Next(Next(Init(leaves)))));
      && r.currentPage == 5
      && r.leaves[0].flipped && r.leaves[1].flipped && r.leaves[2].flipped
    ensures var r := Prev(Next(Next(Next(Next(Init(leaves))))));
      && r.currentPage == 4
      && r.leaves[0].flipped && !r.leaves[1].flipped && r.leaves[2].flipped
  {
  }

  /** The swipe rule is symmetric: the mirrored swipe asks for the opposite step. */
  lemma SwipeMirror(dx: real)
    ensures SwipeAction(-dx) == Opposite(SwipeAction(dx))
    ensures SwipeAction(dx) == Stay <==> -SwipeThreshold <= dx <= SwipeThreshold
  {
  }

  /** Mirroring a click about the midpoint flips its action, except exactly on the midpoint. */
  lemma ClickMirror(x: real, width: real)
    ensures x != width / 2.0 ==> ClickAction(width - x, width) == Opposite(ClickAction(x, width))
    ensures x == width / 2.0 ==> ClickAction(x, width) == Backward
  {
  }

  /**
   * A touch that travels 40 px to the left turns exactly one page forward;
   * one that travels 10 px to the left does nothing but clear the start.
   */
  lemma SwipeExamples(v: View, s: real)
    requires v.touchStartX == Some(s)
    ensures TouchEnd(v, s - 40.0) == Next(v).(touchStartX := None)
    ensures TouchEnd(v, s - 10.0) == v.(touchStartX := None)
  {
  }
}
