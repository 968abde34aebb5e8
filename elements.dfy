/** Element reducers of the editor (src/components/PresentationEditor.tsx: the `ElementAdded`,
    `ElementUpdated`, `ElementPositionUpdated` and `ElementRemoved` handlers) and the local
    optimistic patch of `handleElementMove`. All of them are total: a reference to a slide or
    element that does not exist changes nothing. */
module Elements {
  import opened Wrappers
  import opened Models
  import opened Seqs
  import opened Slides

  /** `b` holds the same slides as `a`, in the same places, with possibly other elements. */
  predicate SameFrames(a: seq<Slide>, b: seq<Slide>)
  {
    |a| == |b| && forall i :: 0 <= i < |a| ==> b[i] == a[i].(elements := b[i].elements)
  }

  /** Element events never reorder slides, so the rank order of the slide list survives them. */
  lemma SameFramesKeepSorted(a: seq<Slide>, b: seq<Slide>)
    requires SameFrames(a, b) && SortedByOrder(a)
    ensures SortedByOrder(b)
  {
    forall i, j | 0 <= i < j < |b|
      ensures b[i].order <= b[j].order
    {
      assert b[i].order == a[i].order && b[j].order == a[j].order;
    }
  }

  /** No element with that id sits on any slide. */
  predicate ElementAbsent(slides: seq<Slide>, id: int)
  {
    forall i, j :: 0 <= i < |slides| && 0 <= j < |slides[i].elements| ==> slides[i].elements[j].id != id
  }

  // ---------------------------------------------------------------- ElementAdded

  /** `ElementAdded`: the element is appended to the slide(s) whose id is its `slideId`. */
  function ElementAdded(p: Option<Presentation>, e: SlideElement): (r: Option<Presentation>)
    ensures r.Some? == p.Some?
    ensures p.Some? ==> r.value == p.value.(slides := r.value.slides)
    ensures p.Some? ==> SameFrames(p.value.slides, r.value.slides)
  {
    if p.None? then p
    else
      var slides := p.value.slides;
      Some(p.value.(slides := seq(|slides|, i requires 0 <= i < |slides| =>
        if slides[i].id == e.slideId then slides[i].(elements := slides[i].elements + [e]) else slides[i])))
  }

  /** Only the owning slide gains the element, at the end of its list; an unknown `slideId`
      leaves the presentation unchanged. */
  lemma ElementAddedOnlyOwningSlide(p: Option<Presentation>, e: SlideElement)
    requires p.Some?
    ensures forall i :: 0 <= i < |p.value.slides| && p.value.slides[i].id == e.slideId ==>
              ElementAdded(p, e).value.slides[i].elements == p.value.slides[i].elements + [e]
    ensures forall i :: 0 <= i < |p.value.slides| && p.value.slides[i].id != e.slideId ==>
              ElementAdded(p, e).value.slides[i] == p.value.slides[i]
    ensures (forall i :: 0 <= i < |p.value.slides| ==> p.value.slides[i].id != e.slideId) ==>
              ElementAdded(p, e) == p
  {
    var r := ElementAdded(p, e).value;
    if forall i :: 0 <= i < |p.value.slides| ==> p.value.slides[i].id != e.slideId {
      assert r.slides == p.value.slides;
    }
  }

  /** A duplicated add broadcast is not absorbed: the owning slide holds the element twice.
      Last-write-wins therefore does not extend to repeated additions. */
  lemma ElementAddedTwiceDuplicates(p: Option<Presentation>, e: SlideElement, i: nat)
    requires p.Some? && i < |p.value.slides| && p.value.slides[i].id == e.slideId
    ensures ElementAdded(ElementAdded(p, e), e).value.slides[i].elements == p.value.slides[i].elements + [e, e]
  {
    ElementAddedOnlyOwningSlide(p, e);
    ElementAddedOnlyOwningSlide(ElementAdded(p, e), e);
  }

  // ---------------------------------------------------------------- ElementUpdated

  /** `el.id === e.id ? e : el` over one slide's elements. */
  function Replaced(elements: seq<SlideElement>, e: SlideElement): (r: seq<SlideElement>)
    ensures |r| == |elements|
  {
    seq(|elements|, j requires 0 <= j < |elements| => if elements[j].id == e.id then e else elements[j])
  }

  /** `ElementUpdated`: on the slide(s) whose id is the element's `slideId`, every element
      with the element's id is replaced by it. */
  function ElementUpdated(p: Option<Presentation>, e: SlideElement): (r: Option<Presentation>)
    ensures r.Some? == p.Some?
    ensures p.Some? ==> r.value == p.value.(slides := r.value.slides)
    ensures p.Some? ==> SameFrames(p.value.slides, r.value.slides)
  {
    if p.None? then p
    else
      var slides := p.value.slides;
      Some(p.value.(slides := seq(|slides|, i requires 0 <= i < |slides| =>
        if slides[i].id == e.slideId then slides[i].(elements := Replaced(slides[i].elements, e)) else slides[i])))
  }

  /** Only elements with the updated id on the owning slide change, and they become exactly
      the broadcast element; elements keep their places. */
  lemma ElementUpdatedOnlyMatching(p: Option<Presentation>, e: SlideElement)
    requires p.Some?
    ensures forall i, j :: 0 <= i < |p.value.slides| && 0 <= j < |p.value.slides[i].elements| ==>
              ElementUpdated(p, e).value.slides[i].elements[j] ==
                if p.value.slides[i].id == e.slideId && p.value.slides[i].elements[j].id == e.id
                then e else p.value.slides[i].elements[j]
  {
  }

  /** An update for an unknown slide, or for an id its owning slide does not hold, is a no-op. */
  lemma ElementUpdatedUnknownIsNoop(p: Option<Presentation>, e: SlideElement)
    requires p.Some?
    requires forall i, j ::
               (0 <= i < |p.value.slides| && p.value.slides[i].id == e.slideId && 0 <= j < |p.value.slides[i].elements|)
               ==> p.value.slides[i].elements[j].id != e.id
    ensures ElementUpdated(p, e) == p
  {
    var r := ElementUpdated(p, e).value;
    forall i | 0 <= i < |r.slides|
      ensures r.slides[i] == p.value.slides[i]
    {
      if p.value.slides[i].id == e.slideId {
        assert r.slides[i].elements == p.value.slides[i].elements;
      }
    }
    assert r.slides == p.value.slides;
  }

  /** Last write wins: of two updates of the same element, the later one alone decides the
      outcome (a duplicate broadcast is therefore harmless). */
  lemma ElementUpdatedLastWriteWins(p: Option<Presentation>, e1: SlideElement, e2: SlideElement)
    requires e1.id == e2.id && e1.slideId == e2.slideId
    ensures ElementUpdated(ElementUpdated(p, e1), e2) == ElementUpdated(p, e2)
  {
    if p.Some? {
      var a := ElementUpdated(ElementUpdated(p, e1), e2).value;
      var b := ElementUpdated(p, e2).value;
      forall i | 0 <= i < |a.slides|
        ensures a.slides[i] == b.slides[i]
      {
        if p.value.slides[i].id == e2.slideId {
          assert a.slides[i].elements == b.slides[i].elements;
        }
      }
      assert a.slides == b.slides;
    }
  }

  /** The selection follows an update of the selected element; any other selection stays. */
  function SelectionAfterUpdate(selected: Option<SlideElement>, e: SlideElement): (r: Option<SlideElement>)
    ensures selected.Some? && selected.value.id == e.id ==> r == Some(e)
    ensures !(selected.Some? && selected.value.id == e.id) ==> r == selected
  {
    if selected.Some? && selected.value.id == e.id then Some(e) else selected
  }

  // ---------------------------------------------------------------- ElementPositionUpdated

  /** `{ ...el, positionX: x, positionY: y }` for the elements with that id, over one slide. */
  function Repositioned(elements: seq<SlideElement>, id: int, x: int, y: int): (r: seq<SlideElement>)
    ensures |r| == |elements|
  {
    seq(|elements|, j requires 0 <= j < |elements| =>
      if elements[j].id == id then elements[j].(positionX := x, positionY := y) else elements[j])
  }

  /** `ElementPositionUpdated`: the position of every element with that id, on every slide. */
  function ElementPositionUpdated(p: Option<Presentation>, id: int, x: int, y: int): (r: Option<Presentation>)
    ensures r.Some? == p.Some?
    ensures p.Some? ==> r.value == p.value.(slides := r.value.slides)
    ensures p.Some? ==> SameFrames(p.value.slides, r.value.slides)
  {
    if p.None? then p
    else
      var slides := p.value.slides;
      Some(p.value.(slides := seq(|slides|, i requires 0 <= i < |slides| =>
        slides[i].(elements := Repositioned(slides[i].elements, id, x, y)))))
  }

  /** Only `positionX`/`positionY` change, and only on elements with that id. */
  lemma ElementPositionUpdatedOnlyPosition(p: Option<Presentation>, id: int, x: int, y: int)
    requires p.Some?
    ensures forall i, j :: 0 <= i < |p.value.slides| && 0 <= j < |p.value.slides[i].elements| ==>
              var old_ := p.value.slides[i].elements[j];
              var new_ := ElementPositionUpdated(p, id, x, y).value.slides[i].elements[j];
              new_ == old_.(positionX := new_.positionX, positionY := new_.positionY) &&
              (old_.id == id ==> new_.positionX == x && new_.positionY == y) &&
              (old_.id != id ==> new_ == old_)
  {
  }

  /** A position update for an id present on no slide changes nothing. */
  lemma ElementPositionUpdatedAbsentIsNoop(p: Option<Presentation>, id: int, x: int, y: int)
    requires p.Some? ==> ElementAbsent(p.value.slides, id)
    ensures ElementPositionUpdated(p, id, x, y) == p
  {
    if p.Some? {
      var r := ElementPositionUpdated(p, id, x, y).value;
      forall i | 0 <= i < |r.slides|
        ensures r.slides[i] == p.value.slides[i]
      {
        assert r.slides[i].elements == p.value.slides[i].elements;
      }
      assert r.slides == p.value.slides;
    }
  }

  /** Last write wins for positions: the later of two position updates decides. */
  lemma ElementPositionUpdatedLastWriteWins(p: Option<Presentation>, id: int, x1: int, y1: int, x2: int, y2: int)
    ensures ElementPositionUpdated(ElementPositionUpdated(p, id, x1, y1), id, x2, y2) == ElementPositionUpdated(p, id, x2, y2)
  {
    if p.Some? {
      var a := ElementPositionUpdated(ElementPositionUpdated(p, id, x1, y1), id, x2, y2).value;
      var b := ElementPositionUpdated(p, id, x2, y2).value;
      forall i | 0 <= i < |a.slides|
        ensures a.slides[i] == b.slides[i]
      {
        assert a.slides[i].elements == b.slides[i].elements;
      }
      assert a.slides == b.slides;
    }
  }

  // ---------------------------------------------------------------- ElementRemoved

  function OtherElement(id: int): SlideElement -> bool
  {
    (el: SlideElement) => el.id != id
  }

  /** `ElementRemoved`: every element with that id disappears from every slide. */
  function ElementRemoved(p: Option<Presentation>, id: int): (r: Option<Presentation>)
    ensures r.Some? == p.Some?
    ensures p.Some? ==> r.value == p.value.(slides := r.value.slides)
    ensures p.Some? ==> SameFrames(p.value.slides, r.value.slides)
    ensures p.Some? ==> ElementAbsent(r.value.slides, id)
  {
    if p.None? then p
    else
      var slides := p.value.slides;
      Some(p.value.(slides := seq(|slides|, i requires 0 <= i < |slides| =>
        slides[i].(elements := Filter(slides[i].elements, OtherElement(id))))))
  }

  /** Every other element stays, on its slide, in its relative order and multiplicity: each
      slide's list is its old list with exactly the elements carrying that id filtered out. */
  lemma ElementRemovedKeepsOthers(p: Option<Presentation>, id: int)
    requires p.Some?
    ensures |ElementRemoved(p, id).value.slides| == |p.value.slides|
    ensures forall i :: 0 <= i < |p.value.slides| ==>
              ElementRemoved(p, id).value.slides[i].elements == Filter(p.value.slides[i].elements, OtherElement(id))
    ensures forall i, el :: 0 <= i < |p.value.slides| ==>
              (el in ElementRemoved(p, id).value.slides[i].elements <==> el in p.value.slides[i].elements && el.id != id)
  {
    var r := ElementRemoved(p, id).value;
    forall i | 0 <= i < |p.value.slides|
      ensures r.slides[i].elements == Filter(p.value.slides[i].elements, OtherElement(id))
    {
    }
  }

  /** Removing an id present on no slide is a no-op. */
  lemma ElementRemovedAbsentIsNoop(p: Option<Presentation>, id: int)
    requires p.Some? ==> ElementAbsent(p.value.slides, id)
    ensures ElementRemoved(p, id) == p
  {
    if p.Some? {
      var r := ElementRemoved(p, id).value;
      forall i | 0 <= i < |r.slides|
        ensures r.slides[i] == p.value.slides[i]
      {
        FilterAllKept(p.value.slides[i].elements, OtherElement(id));
      }
      assert r.slides == p.value.slides;
    }
  }

  lemma ElementRemovedIdempotent(p: Option<Presentation>, id: int)
    ensures ElementRemoved(ElementRemoved(p, id), id) == ElementRemoved(p, id)
  {
    ElementRemovedAbsentIsNoop(ElementRemoved(p, id), id);
  }

  /** Filtering out an id ignores every change made to elements carrying that id. */
  lemma {:induction false} FilterIgnoresRemovedId(a: seq<SlideElement>, b: seq<SlideElement>, id: int)
    requires |a| == |b|
    requires forall j :: 0 <= j < |a| ==> a[j] == b[j] || (a[j].id == id && b[j].id == id)
    ensures Filter(a, OtherElement(id)) == Filter(b, OtherElement(id))
  {
    if a != [] {
      FilterIgnoresRemovedId(a[1..], b[1..], id);
    }
  }

  /** A removal after an addition of the same element leaves what the removal alone leaves. */
  lemma ElementRemovedAfterAdded(p: Option<Presentation>, e: SlideElement)
    ensures ElementRemoved(ElementAdded(p, e), e.id) == ElementRemoved(p, e.id)
  {
    if p.Some? {
      var a := ElementRemoved(ElementAdded(p, e), e.id).value;
      var b := ElementRemoved(p, e.id).value;
      var added := ElementAdded(p, e).value;
      forall i | 0 <= i < |a.slides|
        ensures a.slides[i] == b.slides[i]
      {
        var els := p.value.slides[i].elements;
        if p.value.slides[i].id == e.slideId {
          FilterConcat(els, [e], OtherElement(e.id));
          assert added.slides[i].elements == els + [e];
          assert Filter([e], OtherElement(e.id)) == [] by {
            assert [e][1..] == [];
          }
        }
      }
      assert a.slides == b.slides;
    }
  }

  /** A removal after an update of the same element leaves what the removal alone leaves. */
  lemma ElementRemovedAfterUpdated(p: Option<Presentation>, e: SlideElement)
    ensures ElementRemoved(ElementUpdated(p, e), e.id) == ElementRemoved(p, e.id)
  {
    if p.Some? {
      var a := ElementRemoved(ElementUpdated(p, e), e.id).value;
      var b := ElementRemoved(p, e.id).value;
      var updated := ElementUpdated(p, e).value;
      forall i | 0 <= i < |a.slides|
        ensures a.slides[i] == b.slides[i]
      {
        FilterIgnoresRemovedId(p.value.slides[i].elements, updated.slides[i].elements, e.id);
      }
      assert a.slides == b.slides;
    }
  }

  /** The selection is cleared when the selected element is removed; any other stays. */
  function SelectionAfterRemove(selected: Option<SlideElement>, id: int): (r: Option<SlideElement>)
    ensures selected.Some? && selected.value.id == id ==> r.None?
    ensures !(selected.Some? && selected.value.id == id) ==> r == selected
  {
    if selected.Some? && selected.value.id == id then None else selected
  }

  // ---------------------------------------------------------------- handleElementMove

  /** The optimistic local patch of `handleElementMove`: on the element's owning slide only,
      elements with its id move to the absolute position (`x`, `y`). */
  function MovePatch(p: Option<Presentation>, element: SlideElement, x: int, y: int): (r: Option<Presentation>)
    ensures r.Some? == p.Some?
    ensures p.Some? ==> r.value == p.value.(slides := r.value.slides)
    ensures p.Some? ==> SameFrames(p.value.slides, r.value.slides)
  {
    if p.None? then p
    else
      var slides := p.value.slides;
      Some(p.value.(slides := seq(|slides|, i requires 0 <= i < |slides| =>
        if slides[i].id != element.slideId then slides[i]
        else slides[i].(elements := Repositioned(slides[i].elements, element.id, x, y)))))
  }

  /** Only the owning slide is touched; on it, only the moved element's position changes. */
  lemma MovePatchOnlyOwningSlide(p: Option<Presentation>, element: SlideElement, x: int, y: int)
    requires p.Some?
    ensures forall i :: 0 <= i < |p.value.slides| && p.value.slides[i].id != element.slideId ==>
              MovePatch(p, element, x, y).value.slides[i] == p.value.slides[i]
    ensures forall i, j ::
              (0 <= i < |p.value.slides| && p.value.slides[i].id == element.slideId && 0 <= j < |p.value.slides[i].elements|)
              ==> (MovePatch(p, element, x, y).value.slides[i].elements[j] ==
                     if p.value.slides[i].elements[j].id == element.id
                     then p.value.slides[i].elements[j].(positionX := x, positionY := y)
                     else p.value.slides[i].elements[j])
  {
  }

  /** Local and remote agree on absolute coordinates: when the element's id lives only on its
      owning slide, the server's echo of the sent position leaves the optimistic state as it is. */
  lemma EchoAfterMoveIsNoop(p: Option<Presentation>, element: SlideElement, x: int, y: int)
    requires p.Some?
    requires forall i, j ::
               (0 <= i < |p.value.slides| && p.value.slides[i].id != element.slideId && 0 <= j < |p.value.slides[i].elements|)
               ==> p.value.slides[i].elements[j].id != element.id
    ensures ElementPositionUpdated(MovePatch(p, element, x, y), element.id, x, y) == MovePatch(p, element, x, y)
  {
    var m := MovePatch(p, element, x, y).value;
    var e := ElementPositionUpdated(MovePatch(p, element, x, y), element.id, x, y).value;
    forall i | 0 <= i < |m.slides|
      ensures e.slides[i] == m.slides[i]
    {
      forall j | 0 <= j < |m.slides[i].elements|
        ensures e.slides[i].elements[j] == m.slides[i].elements[j]
      {
      }
      assert e.slides[i].elements == m.slides[i].elements;
    }
    assert e.slides == m.slides;
  }
}
