// The pool of free frames: a window on the number of frames slides up when more are needed than ever allocated, and
// down when fewer are in use than its lower end.
module FramePool {

  const HALF_WINDOW: nat := 512

  class Pool {
    var counter: nat     // frames in use
    var pooled: nat      // frames on the free list
    var upper: nat
    var lower: nat
    ghost var mallocs: nat
    ghost var frees: nat

    ghost predicate Valid()
      reads this
    {
      && lower <= counter && counter + pooled <= upper && upper == lower + 2 * HALF_WINDOW
      && mallocs == frees + counter + pooled
    }

    constructor ()
      ensures Valid() && counter == 0 && pooled == 0 && lower == 0
    {
      counter, pooled, upper, lower := 0, 0, 2 * HALF_WINDOW, 0;
      mallocs, frees := 0, 0;
    }

    /** frame_new: from the pool if it has a frame, else a new one. */
    method New()
      requires Valid()
      modifies this
      ensures Valid() && counter == old(counter) + 1 && frees == old(frees)
      ensures if old(pooled) > 0 then pooled == old(pooled) - 1 && mallocs == old(mallocs) && lower == old(lower)
              else pooled == 0 && mallocs == old(mallocs) + 1
                   && lower == if old(counter) < old(upper) then old(lower) else old(lower) + HALF_WINDOW
    {
      if pooled == 0 {
        mallocs := mallocs + 1;
        counter := counter + 1;
        if counter > upper {
          upper := upper + HALF_WINDOW;
          lower := lower + HALF_WINDOW;
        }
      } else {
        pooled := pooled - 1;
        counter := counter + 1;
      }
    }

    /** frame_free: back to the pool; when the window slides down, all frames beyond its upper end are released, and
        the pool always has them. */
    method Free()
      requires Valid() && counter > 0
      modifies this
      ensures Valid() && counter == old(counter) - 1 && mallocs == old(mallocs)
      ensures if old(counter) > old(lower) then pooled == old(pooled) + 1 && lower == old(lower) && frees == old(frees)
              else lower == (if old(lower) >= HALF_WINDOW then old(lower) - HALF_WINDOW else 0)
                   && counter + pooled == if old(counter) + old(pooled) < upper then old(counter) + old(pooled)
                                          else upper
    {
      pooled := pooled + 1;
      counter := counter - 1;
      if counter < lower {
        var c := pooled;
        if lower >= HALF_WINDOW {
          upper := upper - HALF_WINDOW;
          lower := lower - HALF_WINDOW;
        } else {
          upper := 2 * HALF_WINDOW;
          lower := 0;
        }
        var extra: int := (c + counter) - upper;
        ghost var all := c + counter;
        while extra > 0
          invariant counter + pooled == all - frees + old(frees) && frees >= old(frees)
          invariant extra > 0 ==> extra <= pooled && extra == counter + pooled - upper
          invariant extra <= 0 ==> counter + pooled == if all < upper then all else upper
          invariant mallocs == old(mallocs) && counter == old(counter) - 1 && upper == lower + 2 * HALF_WINDOW
          invariant lower <= counter && lower == if old(lower) >= HALF_WINDOW then old(lower) - HALF_WINDOW else 0
        {
          if pooled > 0 {
            pooled := pooled - 1;
            frees := frees + 1;
          } else {
            break;
          }
          extra := extra - 1;
        }
      }
    }
  }
}
