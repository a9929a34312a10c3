/** The shared frame slot (`current_frame`): the capture loop publishes into it
    and every stream takes a snapshot of it. Accesses are atomic here; the lock
    around them is not modelled. */
module Slot {
  import opened Wrappers
  import opened Frames

  class FrameSlot {
    /** `current_frame`: `None` until the first publish, then the slot's own buffer. */
    var current: Option<Frame>
    /** Every image published so far, oldest first. */
    ghost var history: seq<Grid>
    ghost var Repr: set<object>

    ghost predicate Valid()
      reads this, Repr
    {
      && (current.None? <==> history == [])
      && (current.Some? ==> current.value in Repr && Contents(current.value) == history[|history| - 1])
    }

    /** What a snapshot shows: the last image published, or the blank placeholder. */
    ghost function View(): Grid
      reads this
    {
      if history == [] then Blank() else history[|history| - 1]
    }

    constructor ()
      ensures Valid() && fresh(Repr)
      ensures current.None? && history == []
    {
      current := None;
      history := [];
      Repr := {};
    }

    /** `current_frame = frame.copy()`: the slot keeps a copy of its own, so a
        later change to `f` does not reach it. */
    method Publish(f: Frame)
      requires Valid()
      modifies this
      ensures Valid() && fresh(Repr)
      ensures current.Some? && fresh(current.value)
      ensures history == old(history) + [Contents(f)]
    {
      var copy := Copy(f);
      current := Some(copy);
      history := history + [Contents(f)];
      Repr := {copy};
    }

    /** The frame a stream sends: a fresh copy of the slot's buffer, or a fresh
        blank placeholder while nothing has been published. */
    method Snapshot() returns (f: Frame)
      requires Valid()
      ensures fresh(f)
      ensures Contents(f) == View()
    {
      match current {
        case Some(buffer) => f := Copy(buffer);
        case None => f := NewBlank();
      }
    }
  }
}
