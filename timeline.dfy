/** `Timeline`: two handles on a track select a range of percentages; a
    mouse-down picks a handle, mouse moves drag it and a mouse-up lets go. */
module Timeline {
  import opened Options
  import opened JsMath

  /** The selected range, in whole percent. */
  datatype Range = Range(start: int, end: int)

  datatype Handle = Start | End

  /** The track's bounding box along x, in pixels. */
  datatype Track = Track(left: real, width: real)

  /** The handles are in order and on the track. */
  predicate Ordered(r: Range)
  {
    0 <= r.start < r.end <= 100
  }

  function Clamp(x: real, lo: real, hi: real): real
  {
    if x < lo then lo else if x > hi then hi else x
  }

  /** The pointer's position on the track, clamped to the track and
      rounded to a whole percentage. */
  function Percentage(clientX: real, track: Track): (p: int)
    requires track.width > 0.0
    ensures 0 <= p <= 100
  {
    var x := Clamp(clientX - track.left, 0.0, track.width);
    Share(x, track.width);
    Round(x / track.width * 100.0)
  }

  /** A part of the width is a share between 0 and 1 of it. */
  lemma Share(x: real, width: real)
    requires width > 0.0 && 0.0 <= x <= width
    ensures 0.0 <= x / width <= 1.0
    ensures x == 0.0 ==> x / width == 0.0
    ensures x == width ==> x / width == 1.0
  {
    assert x / width * width == x;
  }

  /** Off the left end the pointer reads 0, off the right end 100, and
      in between the reading is within half a percent of the exact one. */
  lemma PercentageOnTrack(clientX: real, track: Track)
    requires track.width > 0.0
    ensures clientX <= track.left ==> Percentage(clientX, track) == 0
    ensures clientX >= track.left + track.width ==> Percentage(clientX, track) == 100
    ensures track.left <= clientX <= track.left + track.width ==>
              var exact := (clientX - track.left) / track.width * 100.0;
              exact - 0.5 < Percentage(clientX, track) as real <= exact + 0.5
  {
    Share(Clamp(clientX - track.left, 0.0, track.width), track.width);
  }

  /** Moving the pointer right never moves the reading left. */
  lemma PercentageMonotone(x1: real, x2: real, track: Track)
    requires track.width > 0.0 && x1 <= x2
    ensures Percentage(x1, track) <= Percentage(x2, track)
  {
    var a := Clamp(x1 - track.left, 0.0, track.width);
    var b := Clamp(x2 - track.left, 0.0, track.width);
    assert a <= b;
    assert a / track.width * 100.0 <= b / track.width * 100.0;
  }

  /** The range `setRange` computes: the dragged handle takes the new
      value, pushed back to one short of (or past) the other handle when
      it would meet or cross it; the other handle stays. */
  function Drag(prev: Range, handle: Handle, value: int): (r: Range)
    ensures handle == Start ==> r.end == prev.end
    ensures handle == End ==> r.start == prev.start
  {
    match handle
    case Start => Range(if value >= prev.end then prev.end - 1 else value, prev.end)
    case End => Range(prev.start, if value <= prev.start then prev.start + 1 else value)
  }

  /** Dragging within the track keeps the handles in order; the dragged
      handle lands on the value exactly when that keeps the order. */
  lemma DragKeepsOrder(prev: Range, handle: Handle, value: int)
    requires Ordered(prev) && 0 <= value <= 100
    ensures Ordered(Drag(prev, handle, value))
    ensures handle == Start ==> (Drag(prev, handle, value).start == value <==> value < prev.end)
    ensures handle == End ==> (Drag(prev, handle, value).end == value <==> value > prev.start)
  {
  }

  /** A drag to where the handle already is changes nothing. */
  lemma DragInPlace(prev: Range, handle: Handle)
    requires Ordered(prev)
    ensures Drag(prev, handle, if handle == Start then prev.start else prev.end) == prev
  {
  }

  /** The component's state; `reported` is every range passed to
      `onRangeChange` (nothing when the prop is absent). */
  class Timeline {
    var range: Range
    var dragging: Option<Handle>
    const notifies: bool
    var reported: seq<Range>

    predicate Valid()
      reads this
    {
      Ordered(range) && (!notifies ==> reported == [])
    }

    constructor (notifies: bool)
      ensures Valid()
      ensures range == Range(0, 100) && dragging == None
      ensures this.notifies == notifies && reported == []
    {
      range := Range(0, 100);
      dragging := None;
      this.notifies := notifies;
      reported := [];
    }

    /** `handleMouseDown(handle)`: start dragging that handle. */
    method MouseDown(handle: Handle)
      requires Valid()
      modifies this
      ensures Valid() && dragging == Some(handle)
      ensures range == old(range) && reported == old(reported)
    {
      dragging := Some(handle);
    }

    /** `handleMouseUp`: stop dragging. */
    method MouseUp()
      requires Valid()
      modifies this
      ensures Valid() && dragging == None
      ensures range == old(range) && reported == old(reported)
    {
      dragging := None;
    }

    /** `handleMouseMove`: nothing without a drag or a mounted track;
        otherwise the dragged handle follows the pointer and the new range
        is reported. */
    method MouseMove(clientX: real, track: Option<Track>)
      requires Valid()
      requires track.Some? ==> track.value.width > 0.0
      modifies this
      ensures Valid() && dragging == old(dragging)
      ensures dragging.None? || track.None? ==> range == old(range) && reported == old(reported)
      ensures dragging.Some? && track.Some? ==>
                range == Drag(old(range), dragging.value, Percentage(clientX, track.value))
                && reported == old(reported) + (if notifies then [range] else [])
    {
      if dragging.None? || track.None? {
        return;
      }
      var value := Percentage(clientX, track.value);
      DragKeepsOrder(range, dragging.value, value);
      range := Drag(range, dragging.value, value);
      if notifies {
        reported := reported + [range];
      }
    }
  }
}
