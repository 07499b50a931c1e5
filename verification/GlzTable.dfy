/** The window as the decoder keeps it: an array of images that is grown, filled and cleared in place. */
module GlzTable {
  import opened Arithmetic
  import opened Common
  import opened GlzFormats
  import W = GlzWindow

  class Table {
    var images: array<Option<W.Image>>
    var nimages: nat
    var oldest: nat
    var tailGap: nat

    ghost predicate Ready()
      reads this, images
    {
      && 0 < nimages == images.Length
      && forall i :: 0 <= i < nimages && images[i].Some? ==> images[i].value.id % nimages == i
    }

    ghost function View(): W.Window
      reads this, images
    {
      W.Window(images[..], oldest, tailGap)
    }

    constructor ()
      ensures Ready() && View() == W.Fresh() && fresh(images)
    {
      nimages, oldest, tailGap := W.INITIAL, 0, 0;
      images := new Option<W.Image>[W.INITIAL](_ => None);
    }

    /** Doubles the table; every image moves to the slot of its id. */
    method Resize()
      requires Ready()
      modifies this
      ensures Ready() && fresh(images) && View() == W.Resize(old(View()))
    {
      ghost var w := View();
      var larger := new Option<W.Image>[2 * nimages](_ => None);
      var i := 0;
      while i < nimages
        invariant i <= nimages == |w.slots| && images[..] == w.slots && unchanged(this)
        invariant larger.Length == 2 * nimages && fresh(larger)
        invariant forall j :: 0 <= j < 2 * nimages ==>
                    larger[j] == if j % nimages < i then W.Resize(w).slots[j] else None
      {
        ghost var before := larger[..];
        if images[i].Some? {
          var slot := images[i].value.id % (2 * nimages);
          larger[slot] := images[i];
        }
        Moved(w, i, before, larger[..]);
        i := i + 1;
      }
      assert larger[..] == W.Resize(w).slots;
      images := larger;
      nimages := 2 * nimages;
    }

    /** Puts a decoded image into its slot, making room first if the slot is taken. */
    method Place(img: W.Image)
      requires Ready()
      modifies this, images
      ensures Ready() && (images == old(images) || fresh(images)) && View() == W.Place(old(View()), img)
    {
      var slot := img.id % nimages;
      if images[slot].Some? {
        Resize();
        slot := img.id % nimages;
      }
      images[slot] := Some(img);
    }

    /** Moves the gap over the images that follow it, as far as id. */
    method CloseGap(id: nat)
      requires Ready()
      modifies `tailGap
      ensures Ready() && View() == W.CloseGap(old(View()), id)
    {
      while tailGap <= id && images[tailGap % nimages].Some?
        invariant Ready()
        invariant W.CloseGap(View(), id) == W.CloseGap(old(View()), id)
        decreases id + 1 - tailGap
      {
        tailGap := tailGap + 1;
      }
    }

    /** Adds a decoded image and closes the gap as far as its id. */
    method Add(img: W.Image)
      requires Ready()
      modifies this, images
      ensures Ready() && (images == old(images) || fresh(images)) && View() == W.Add(old(View()), img)
    {
      Place(img);
      CloseGap(img.id);
    }

    /** Drops the images below upTo. */
    method Release(upTo: nat)
      requires Ready()
      modifies this, images
      ensures Ready() && images == old(images) && View() == W.Release(old(View()), upTo)
    {
      while oldest < upTo
        invariant Ready() && images == old(images)
        invariant W.Release(View(), upTo) == W.Release(old(View()), upTo)
        decreases upTo - oldest
      {
        var slot := oldest % nimages;
        images[slot] := None;
        oldest := oldest + 1;
      }
    }

    /** The eviction after the addition of an image. */
    method Evict()
      requires Ready()
      modifies this, images
      ensures Ready() && images == old(images) && View() == W.Evict(old(View()))
    {
      var slot := (tailGap + U64 - 1) % U64 % nimages;
      if images[slot].Some? {
        var img := images[slot].value;
        Release((img.id - img.headDist) % U64);
      }
    }

    /** The pixels of image id - dist, once wait_for_image has let the coroutine pass. */
    method Bits(id: nat, dist: nat) returns (data: seq<Pixel>)
      requires Ready() && dist <= id && W.Holds(View(), id - dist)
      ensures data == W.Lookup(View(), id - dist).value.data
    {
      var slot := (id - dist) % nimages;
      data := images[slot].value.data;
    }
  }

  /** One step of the move into the doubled table. */
  lemma Moved(w: W.Window, i: nat, before: seq<Option<W.Image>>, after: seq<Option<W.Image>>)
    requires i < |w.slots| && |before| == 2 * |w.slots| && |after| == |before|
    requires w.slots[i].Some? ==> w.slots[i].value.id % |w.slots| == i
    requires forall j :: 0 <= j < |before| ==>
               before[j] == if j % |w.slots| < i then W.Resize(w).slots[j] else None
    requires after == if w.slots[i].Some? then before[w.slots[i].value.id % |before| := w.slots[i]] else before
    ensures forall j :: 0 <= j < |before| ==>
              after[j] == if j % |w.slots| < i + 1 then W.Resize(w).slots[j] else None
  {
    var n := |w.slots|;
    if w.slots[i].Some? { ModHalf(w.slots[i].value.id, n); }
    forall j | 0 <= j < 2 * n && j % n == i ensures W.Resize(w).slots[j] == after[j] {
      assert W.Resize(w).slots[j] ==
             if w.slots[i].Some? && w.slots[i].value.id % (2 * n) == j then w.slots[i] else None;
    }
  }
}
