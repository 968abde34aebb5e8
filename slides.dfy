/** Slide-list reducers and slide intents of the editor (src/components/PresentationEditor.tsx:
    the `SlideAdded` and `SlideRemoved` handlers, `handleAddSlide`, `handleRemoveSlide` and
    `handleChangeSlide`). */
module Slides {
  import opened Wrappers
  import opened Models
  import opened Seqs

  /** Slides appear in ascending rank. */
  predicate SortedByOrder(s: seq<Slide>)
  {
    forall i, j :: 0 <= i < j < |s| ==> s[i].order <= s[j].order
  }

  /** Inserts `x` in front of the first slide whose rank is not below it. */
  function InsertByOrder(x: Slide, s: seq<Slide>): (r: seq<Slide>)
    ensures multiset(r) == multiset(s) + multiset{x}
    ensures |r| == |s| + 1
  {
    if s == [] || x.order <= s[0].order then [x] + s
    else
      assert s == [s[0]] + s[1..];
      [s[0]] + InsertByOrder(x, s[1..])
  }

  /** Inserting into a sorted list keeps it sorted; every slide of the result ranks at least
      as high as `x` or as the list's first slide. */
  lemma {:induction false} InsertByOrderSorted(x: Slide, s: seq<Slide>)
    requires SortedByOrder(s)
    ensures SortedByOrder(InsertByOrder(x, s))
    ensures forall i :: 0 <= i < |s| + 1 ==>
              x.order <= InsertByOrder(x, s)[i].order || (s != [] && s[0].order <= InsertByOrder(x, s)[i].order)
  {
    if s != [] && s[0].order < x.order {
      InsertByOrderSorted(x, s[1..]);
      PrependKeepsSorted(s[0], InsertByOrder(x, s[1..]));
    }
  }

  /** A slide that ranks no higher than any slide of a sorted list may go in front of it. */
  lemma PrependKeepsSorted(a: Slide, t: seq<Slide>)
    requires SortedByOrder(t)
    requires forall j :: 0 <= j < |t| ==> a.order <= t[j].order
    ensures SortedByOrder([a] + t)
  {
  }

  /** The sort `slides.sort((a, b) => a.order - b.order)` (an insertion sort: slides of
      equal rank keep their relative order, as the language's sort guarantees; see
      `SortByOrderStable`). */
  function SortByOrder(s: seq<Slide>): (r: seq<Slide>)
    ensures SortedByOrder(r)
    ensures multiset(r) == multiset(s)
    ensures |r| == |s|
  {
    if s == [] then []
    else
      assert s == [s[0]] + s[1..];
      InsertByOrderSorted(s[0], SortByOrder(s[1..]));
      InsertByOrder(s[0], SortByOrder(s[1..]))
  }

  /** The test "has rank `k`". */
  function OfRank(k: int): (keep: Slide -> bool)
    ensures forall sl: Slide :: keep(sl) <==> sl.order == k
  {
    (sl: Slide) => sl.order == k
  }

  /** Inserting `x` puts it in front of every slide of its own rank and leaves the slides of
      each other rank in their order. */
  lemma {:induction false} InsertByOrderStable(x: Slide, s: seq<Slide>, k: int)
    ensures Filter(InsertByOrder(x, s), OfRank(k)) == (if x.order == k then [x] else []) + Filter(s, OfRank(k))
    decreases |s|, 1
  {
    if s == [] || x.order <= s[0].order {
      assert InsertByOrder(x, s) == [x] + s;
      FilterCons(x, s, OfRank(k));
    } else {
      InsertBehindStable(x, s, k);
    }
  }

  /** A slide of higher rank than the first goes behind it. */
  lemma InsertBehind(x: Slide, s: seq<Slide>)
    requires s != [] && s[0].order < x.order
    ensures InsertByOrder(x, s) == [s[0]] + InsertByOrder(x, s[1..])
  {
  }

  /** The step of `InsertByOrderStable` where `x` goes behind the first slide. */
  lemma {:induction false} InsertBehindStable(x: Slide, s: seq<Slide>, k: int)
    requires s != [] && s[0].order < x.order
    ensures Filter(InsertByOrder(x, s), OfRank(k)) == (if x.order == k then [x] else []) + Filter(s, OfRank(k))
    decreases |s|, 0
  {
    var keep, rest := OfRank(k), InsertByOrder(x, s[1..]);
    var front, head := (if x.order == k then [x] else []), (if s[0].order == k then [s[0]] else []);
    InsertBehind(x, s);
    FilterCons(s[0], rest, keep);
    assert s == [s[0]] + s[1..];
    FilterCons(s[0], s[1..], keep);
    InsertByOrderStable(x, s[1..], k);
    SwapFronts(head, front, Filter(s[1..], keep));
  }

  /** The sort is stable: the slides of any one rank come out in the order they went in. */
  lemma {:induction false} SortByOrderStable(s: seq<Slide>, k: int)
    ensures Filter(SortByOrder(s), OfRank(k)) == Filter(s, OfRank(k))
  {
    if s != [] {
      SortByOrderStable(s[1..], k);
      InsertByOrderStable(s[0], SortByOrder(s[1..]), k);
    }
  }

  /** Sorting a list that is already in rank order leaves it as it is. */
  lemma {:induction false} SortSortedIsIdentity(s: seq<Slide>)
    requires SortedByOrder(s)
    ensures SortByOrder(s) == s
  {
    if s != [] {
      SortSortedIsIdentity(s[1..]);
      assert s == [s[0]] + s[1..];
    }
  }

  /** `SlideAdded`: without a presentation nothing happens; otherwise the new slide joins
      the list, which is then in rank order and is a permutation of the old slides plus it. */
  function SlideAdded(p: Option<Presentation>, slide: Slide): (r: Option<Presentation>)
    ensures r.Some? == p.Some?
    ensures p.Some? ==> r.value == p.value.(slides := r.value.slides)
    ensures p.Some? ==> SortedByOrder(r.value.slides)
    ensures p.Some? ==> multiset(r.value.slides) == multiset(p.value.slides) + multiset{slide}
    ensures p.Some? ==> |r.value.slides| == |p.value.slides| + 1
  {
    if p.None? then p
    else Some(p.value.(slides := SortByOrder(p.value.slides + [slide])))
  }

  /** A slide ranked at or above every existing slide of a rank-ordered list is appended last. */
  lemma SlideAddedAfterMaxAppends(p: Option<Presentation>, slide: Slide)
    requires p.Some? && SortedByOrder(p.value.slides)
    requires forall i :: 0 <= i < |p.value.slides| ==> p.value.slides[i].order <= slide.order
    ensures SlideAdded(p, slide).value.slides == p.value.slides + [slide]
  {
    SortSortedIsIdentity(p.value.slides + [slide]);
  }

  /** `Math.max(...slides.map(s => s.order))` for a non-empty list. */
  function MaxOrder(slides: seq<Slide>): (m: int)
    requires |slides| > 0
    ensures forall i :: 0 <= i < |slides| ==> slides[i].order <= m
    ensures exists i :: 0 <= i < |slides| && slides[i].order == m
  {
    if |slides| == 1 then slides[0].order
    else
      var rest := MaxOrder(slides[1..]);
      assert forall i :: 1 <= i < |slides| ==> slides[i] == slides[1..][i - 1];
      if slides[0].order >= rest then slides[0].order
      else
        var k :| 0 <= k < |slides[1..]| && slides[1..][k].order == rest;
        assert slides[k + 1].order == rest;
        rest
  }

  /** `handleAddSlide`'s rank: 1 for an empty list, otherwise one above the highest rank, so
      strictly above every existing rank. */
  function NextSlideOrder(slides: seq<Slide>): (r: int)
    ensures |slides| == 0 ==> r == 1
    ensures forall i :: 0 <= i < |slides| ==> slides[i].order < r
    ensures |slides| > 0 ==> exists i :: 0 <= i < |slides| && slides[i].order == r - 1
  {
    if |slides| > 0 then MaxOrder(slides) + 1 else 1
  }

  /** Adding a slide at the rank `handleAddSlide` picks, to a rank-ordered list, appends it:
      ranks [1, 2] give a new slide of rank 3 after the slide of rank 2. */
  lemma NextSlideIsAppended(p: Option<Presentation>, slide: Slide)
    requires p.Some? && SortedByOrder(p.value.slides)
    requires slide.order == NextSlideOrder(p.value.slides)
    ensures SlideAdded(p, slide).value.slides == p.value.slides + [slide]
  {
    SlideAddedAfterMaxAppends(p, slide);
  }

  function OtherSlide(slideId: int): Slide -> bool
  {
    (s: Slide) => s.id != slideId
  }

  /** `SlideRemoved`, slide part: drop every slide with that id and nothing else. */
  function SlideRemoved(p: Option<Presentation>, slideId: int): (r: Option<Presentation>)
    ensures r.Some? == p.Some?
    ensures p.Some? ==> r.value == p.value.(slides := r.value.slides)
    ensures p.Some? ==> forall s :: s in r.value.slides <==> s in p.value.slides && s.id != slideId
    ensures p.Some? ==> |r.value.slides| <= |p.value.slides|
  {
    if p.None? then p
    else Some(p.value.(slides := Filter(p.value.slides, OtherSlide(slideId))))
  }

  /** The slides that survive keep their relative order. */
  lemma SlideRemovedKeepsOrder(a: seq<Slide>, b: seq<Slide>, slideId: int)
    ensures Filter(a + b, OtherSlide(slideId)) == Filter(a, OtherSlide(slideId)) + Filter(b, OtherSlide(slideId))
  {
    FilterConcat(a, b, OtherSlide(slideId));
  }

  /** Removing a slide id that no slide carries is a no-op. */
  lemma SlideRemovedUnknownIsNoop(p: Option<Presentation>, slideId: int)
    requires p.Some? ==> forall i :: 0 <= i < |p.value.slides| ==> p.value.slides[i].id != slideId
    ensures SlideRemoved(p, slideId) == p
  {
    if p.Some? {
      FilterAllKept(p.value.slides, OtherSlide(slideId));
    }
  }

  /** Removing slides keeps a rank-ordered list in rank order. */
  lemma {:induction false} FilterKeepsSorted(s: seq<Slide>, keep: Slide -> bool)
    requires SortedByOrder(s)
    ensures SortedByOrder(Filter(s, keep))
  {
    if s != [] {
      FilterKeepsSorted(s[1..], keep);
      var rest := Filter(s[1..], keep);
      forall j | 0 <= j < |rest|
        ensures s[0].order <= rest[j].order
      {
        assert rest[j] in s[1..];
      }
    }
  }

  /** `SlideRemoved`, cursor part, as the handler is written: the cursor moves back one
      (not below 0) only when the slide under it is the one removed; otherwise it keeps its
      index, whatever was removed before it. */
  function SlideRemovedCursor(p: Option<Presentation>, cursor: nat, slideId: int): (c: nat)
    ensures c <= cursor
    ensures c != cursor <==>
              p.Some? && cursor < |p.value.slides| && p.value.slides[cursor].id == slideId && cursor > 0
    ensures c != cursor ==> c == cursor - 1
  {
    if p.Some? && cursor < |p.value.slides| && p.value.slides[cursor].id == slideId
    then (if cursor > 0 then cursor - 1 else 0)
    else cursor
  }

  /** Removing a slide before the cursor leaves the cursor past the end of the list:
      slides with ids [1, 2], cursor on slide 2 (index 1), `SlideRemoved(1)`. */
  lemma SlideRemovedCursorLeavesRange()
    ensures var p := Some(Presentation(1, "", "", "", [Slide(1, 1, 1, []), Slide(2, 1, 2, [])]));
            SlideRemovedCursor(p, 1, 1) == 1 && |SlideRemoved(p, 1).value.slides| == 1
  {
    var s := [Slide(1, 1, 1, []), Slide(2, 1, 2, [])];
    assert s[1..][1..] == [];
    assert Filter(s, OtherSlide(1)) == [Slide(2, 1, 2, [])];
  }

  /** The slide cursor names a slide, or is 0 when there is none to name. */
  predicate CursorInRange(p: Option<Presentation>, cursor: nat)
  {
    cursor == 0 || (p.Some? && cursor < |p.value.slides|)
  }

  /** `SlideRemoved`, cursor part, corrected: the cursor keeps showing the slide it showed
      when another slide is removed, moves to the previous surviving slide (not below 0)
      when its own slide is removed, and stays a valid index while any slide remains. */
  function SlideRemovedCursorFixed(p: Option<Presentation>, cursor: nat, slideId: int): (c: nat)
    ensures p.Some? && cursor < |p.value.slides| && p.value.slides[cursor].id != slideId ==>
              c < |SlideRemoved(p, slideId).value.slides| &&
              SlideRemoved(p, slideId).value.slides[c] == p.value.slides[cursor]
    ensures CursorInRange(p, cursor) ==> CursorInRange(SlideRemoved(p, slideId), c)
    ensures p.Some? && cursor < |p.value.slides| && p.value.slides[cursor].id == slideId &&
            (forall j :: 0 <= j < cursor ==> p.value.slides[j].id != slideId) ==>
              c == if cursor > 0 then cursor - 1 else 0
    ensures p.None? || cursor >= |p.value.slides| ==> c == cursor
  {
    if p.Some? && cursor < |p.value.slides| then
      var s := p.value.slides;
      var kept := |Filter(s[..cursor], OtherSlide(slideId))|;
      assert s == s[..cursor] + s[cursor..];
      FilterConcat(s[..cursor], s[cursor..], OtherSlide(slideId));
      if s[cursor].id != slideId then
        FilterAt(s, cursor, OtherSlide(slideId));
        kept
      else
        if forall j :: 0 <= j < cursor ==> s[j].id != slideId then
          FilterAllKept(s[..cursor], OtherSlide(slideId));
          if kept > 0 then kept - 1 else 0
        else
          if kept > 0 then kept - 1 else 0
    else cursor
  }

  /** `handleChangeSlide`: the cursor moves to `index` only when it names an existing slide. */
  function ChangeSlide(p: Option<Presentation>, cursor: nat, index: int): (c: nat)
    ensures c == cursor || (p.Some? && c == index && index < |p.value.slides|)
    ensures p.Some? && 0 <= index < |p.value.slides| ==> c == index
    ensures CursorInRange(p, cursor) ==> CursorInRange(p, c)
  {
    if 0 <= index && p.Some? && index < |p.value.slides| then index else cursor
  }

  /** `handleRemoveSlide`'s target: the slide under the cursor, if there is a presentation
      with a slide at that index; otherwise no request is made. (With slides present and the
      cursor past the end, the handler throws before any request; that too sends nothing.) */
  function RemoveSlideTarget(p: Option<Presentation>, cursor: nat): (r: Option<int>)
    ensures r.Some? <==> p.Some? && cursor < |p.value.slides|
    ensures r.Some? ==> exists i :: 0 <= i < |p.value.slides| && p.value.slides[i].id == r.value
    ensures r.Some? ==> r.value == p.value.slides[cursor].id
  {
    if p.None? || |p.value.slides| == 0 || cursor >= |p.value.slides| then None
    else Some(p.value.slides[cursor].id)
  }

  /** With the cursor in range, a presentation with slides always yields a removal target. */
  lemma RemoveSlideTargetExists(p: Option<Presentation>, cursor: nat)
    requires CursorInRange(p, cursor) && p.Some? && |p.value.slides| > 0
    ensures RemoveSlideTarget(p, cursor).Some?
  {
  }
}
