/**
 The window of decoded images: a table indexed by id modulo its size, with an id below which
 none is missing (tailGap) and the first id not yet evicted (oldest).
 */
module GlzWindow {
  import opened Arithmetic
  import opened Common
  import opened GlzFormats

  /** A decoded image; it may refer to the headDist ids before its own. */
  datatype Image = Image(id: nat, headDist: nat, data: seq<Pixel>)

  datatype Window = Window(slots: seq<Option<Image>>, oldest: nat, tailGap: nat)

  const INITIAL: nat := 16

  function Fresh(): Window { Window(seq(INITIAL, _ => None), 0, 0) }

  /** The test of wait_for_image: the slot of the id holds the image of that id. */
  predicate Holds(w: Window, id: nat) {
    |w.slots| > 0 && w.slots[id % |w.slots|].Some? && w.slots[id % |w.slots|].value.id == id
  }

  function Lookup(w: Window, id: nat): Option<Image> {
    if Holds(w, id) then w.slots[id % |w.slots|] else None
  }

  /** The pixels of the images held, by id. */
  function Live(w: Window): map<nat, seq<Pixel>>
  {
    map id: nat | id in HeldIds(w) :: Lookup(w, id).value.data
  }

  function HeldIds(w: Window): (ids: set<nat>)
    ensures forall id: nat :: id in ids <==> Holds(w, id)
  {
    set i | 0 <= i < |w.slots| && w.slots[i].Some? && Holds(w, w.slots[i].value.id) :: w.slots[i].value.id
  }

  /** Ids that have arrived, whether or not they are still held. */
  predicate Received(w: Window, id: nat) { id < w.tailGap || Holds(w, id) }

  // ---------------------------------------------------------------- the operations

  function Resize(w: Window): Window
    requires |w.slots| > 0
  {
    var n := |w.slots|;
    w.(slots := seq(2 * n, j requires 0 <= j < 2 * n =>
                      var x := w.slots[j % n];
                      if x.Some? && x.value.id % (2 * n) == j then x else None))
  }

  function Place(w: Window, img: Image): Window
    requires |w.slots| > 0
  {
    var w' := if w.slots[img.id % |w.slots|].Some? then Resize(w) else w;
    w'.(slots := w'.slots[img.id % |w'.slots| := Some(img)])
  }

  function CloseGap(w: Window, id: nat): Window
    requires |w.slots| > 0
    decreases if w.tailGap <= id then id + 1 - w.tailGap else 0
  {
    if w.tailGap <= id && w.slots[w.tailGap % |w.slots|].Some?
    then CloseGap(w.(tailGap := w.tailGap + 1), id) else w
  }

  function Add(w: Window, img: Image): Window
    requires |w.slots| > 0
  {
    CloseGap(Place(w, img), img.id)
  }

  function Release(w: Window, upTo: nat): Window
    requires |w.slots| > 0
    decreases if w.oldest < upTo then upTo - w.oldest else 0
  {
    if w.oldest < upTo
    then Release(w.(slots := w.slots[w.oldest % |w.slots| := None], oldest := w.oldest + 1), upTo)
    else w
  }

  /** The slot of image tailGap - 1, the subtraction being on 64-bit unsigned numbers. */
  function TailSlot(w: Window): nat
    requires |w.slots| > 0
  {
    (w.tailGap + U64 - 1) % U64 % |w.slots|
  }

  /** The first id that an image may refer to, the subtraction being on 64-bit unsigned numbers. */
  function HeadOf(img: Image): nat { (img.id - img.headDist) % U64 }

  /** The eviction at the end of the decoding of an image. */
  function Evict(w: Window): Window
    requires |w.slots| > 0
  {
    match w.slots[TailSlot(w)]
    case None => w
    case Some(img) => Release(w, HeadOf(img))
  }

  // ---------------------------------------------------------------- the invariant

  /** Table sizes: 16 doubled some number of times. */
  predicate Doubled(n: nat) {
    n == INITIAL || (n > INITIAL && n % 2 == 0 && Doubled(n / 2))
  }

  /** tailGap may lag behind the first missing id, because closing the gap stops at the id
      just added; but nothing below it is missing. */
  ghost predicate Valid(w: Window) {
    && Doubled(|w.slots|)
    && (forall i :: 0 <= i < |w.slots| && w.slots[i].Some? ==> InPlace(w, i))
    && (forall id: nat :: w.oldest <= id < w.tailGap ==> Holds(w, id))
    && (if w.tailGap == 0 then w.oldest == 0 && !Holds(w, 0) else w.oldest < w.tailGap)
  }

  /** The image in slot i is at its id, not yet evicted, and less than a table ahead of the gap. */
  ghost predicate InPlace(w: Window, i: nat)
    requires i < |w.slots| && w.slots[i].Some?
  {
    var id := w.slots[i].value.id;
    id % |w.slots| == i && w.oldest <= id < w.tailGap + |w.slots|
  }

  lemma DoubledSize(n: nat)
    requires Doubled(n)
    ensures n >= INITIAL && Doubled(2 * n)
  {
  }

  /** The size of the table after room has been made for the id. */
  function RoomFor(w: Window, id: nat): nat
    requires |w.slots| > 0
  {
    if w.slots[id % |w.slots|].Some? then 2 * |w.slots| else |w.slots|
  }

  /** The id is less than a table ahead of the gap, and doubling the table at most once
      makes its slot free. */
  predicate Admissible(w: Window, id: nat)
    requires |w.slots| > 0
  {
    && id < w.tailGap + RoomFor(w, id)
    && var x := w.slots[id % |w.slots|];
       x.Some? ==> x.value.id % (2 * |w.slots|) != id % (2 * |w.slots|)
  }

  /** The lookups of w with the image put in. */
  ghost predicate Extends(w: Window, img: Image, w': Window) {
    forall j: nat :: Lookup(w', j) == if j == img.id then Some(img) else Lookup(w, j)
  }

  // ---------------------------------------------------------------- adding

  lemma ResizeKeeps(w: Window, j: nat)
    requires |w.slots| > 0
    ensures |Resize(w).slots| == 2 * |w.slots|
    ensures Lookup(Resize(w), j) == Lookup(w, j)
  {
    ModHalf(j, |w.slots|);
  }

  lemma ResizedSlot(w: Window, i: nat)
    requires |w.slots| > 0 && i < 2 * |w.slots|
    ensures var x := Resize(w).slots[i];
            x.Some? ==> x.value.id % (2 * |w.slots|) == i && x == w.slots[i % |w.slots|]
  {
  }

  /** Everything that Valid asks for, apart from the gap being closed. */
  ghost predicate Placed(w: Window) {
    && Doubled(|w.slots|)
    && (forall i :: 0 <= i < |w.slots| && w.slots[i].Some? ==> InPlace(w, i))
    && (forall id: nat :: w.oldest <= id < w.tailGap ==> Holds(w, id))
    && (if w.tailGap == 0 then w.oldest == 0 else w.oldest < w.tailGap)
  }

  /** Overwriting the free slot of an id leaves the other lookups alone. */
  lemma PutExtends(w: Window, img: Image, j: nat)
    requires |w.slots| > 0 && w.slots[img.id % |w.slots|].None?
    ensures var w' := w.(slots := w.slots[img.id % |w.slots| := Some(img)]);
            Lookup(w', j) == if j == img.id then Some(img) else Lookup(w, j)
  {
  }

  lemma PlaceExtends(w: Window, img: Image)
    requires |w.slots| > 0 && Admissible(w, img.id)
    ensures |Place(w, img).slots| == RoomFor(w, img.id) && Extends(w, img, Place(w, img))
  {
    var n := |w.slots|;
    forall j: nat ensures Lookup(Place(w, img), j) == if j == img.id then Some(img) else Lookup(w, j) {
      if w.slots[img.id % n].Some? {
        ModHalf(img.id, n);
        ResizeKeeps(w, j);
        PutExtends(Resize(w), img, j);
      } else {
        PutExtends(w, img, j);
      }
    }
  }

  lemma PlaceKeeps(w: Window, img: Image)
    requires Valid(w) && !Received(w, img.id) && Admissible(w, img.id)
    ensures Placed(Place(w, img))
  {
    var n, w' := |w.slots|, Place(w, img);
    DoubledSize(n);
    PlaceExtends(w, img);
    forall i | 0 <= i < |w'.slots| && w'.slots[i].Some? ensures InPlace(w', i) {
      if |w'.slots| == 2 * n {
        ResizedSlot(w, i);
        assert i == img.id % (2 * n) || InPlace(w, i % n);
      } else {
        assert i == img.id % n || InPlace(w, i);
      }
    }
    forall id: nat | w'.oldest <= id < w'.tailGap ensures Holds(w', id) {
      assert Lookup(w', id) == Lookup(w, id);
    }
  }

  /** No id from the gap on is held when the ids of a whole table end at the gap. */
  lemma Crowded(w: Window, x: nat, id: nat)
    requires Placed(w) && w.oldest <= x && x + |w.slots| <= w.tailGap <= id
    ensures !Holds(w, id)
  {
    var n := |w.slots|;
    var y, q := x + (id - x) % n, (id - x) / n;
    assert Holds(w, y);
    assert id == (y / n + q) * n + y % n;
    ModUnique(id, n, y / n + q, y % n);
  }

  /** A slot that the gap meets holds the image of the gap, although only NULL is tested. */
  lemma GapSlot(w: Window, id: nat)
    requires Placed(w) && w.tailGap <= id && Holds(w, id)
    requires w.slots[w.tailGap % |w.slots|].Some?
    ensures Holds(w, w.tailGap)
  {
    var n, gap := |w.slots|, w.tailGap;
    var x := w.slots[gap % n].value.id;
    assert InPlace(w, gap % n);
    if x < gap {
      ModEqual(x, gap, n);
      Crowded(w, x, id);
    } else if x > gap {
      ModEqual(gap, x, n);
    }
  }

  lemma {:induction false} CloseGapKeeps(w: Window, id: nat)
    requires Placed(w) && (w.tailGap <= id ==> Holds(w, id))
    ensures var w' := CloseGap(w, id);
            w'.slots == w.slots && w'.oldest == w.oldest && w'.tailGap >= w.tailGap && Valid(w')
    decreases if w.tailGap <= id then id + 1 - w.tailGap else 0
  {
    if w.tailGap <= id && w.slots[w.tailGap % |w.slots|].Some? {
      GapSlot(w, id);
      var w1 := w.(tailGap := w.tailGap + 1);
      forall i | 0 <= i < |w.slots| && w1.slots[i].Some? ensures InPlace(w1, i) {
        assert InPlace(w, i);
      }
      forall j: nat | w1.oldest <= j < w1.tailGap ensures Holds(w1, j) {
        assert Holds(w, j);
      }
      CloseGapKeeps(w1, id);
    }
  }

  /** After a bounded addition all is as it was, with the image put in. */
  lemma AddKeeps(w: Window, img: Image)
    requires Valid(w) && !Received(w, img.id) && Admissible(w, img.id)
    ensures Valid(Add(w, img)) && Extends(w, img, Add(w, img))
    ensures Add(w, img).oldest == w.oldest && Add(w, img).tailGap >= w.tailGap
    ensures |Add(w, img).slots| == RoomFor(w, img.id)
  {
    var w' := Place(w, img);
    PlaceExtends(w, img);
    PlaceKeeps(w, img);
    assert Lookup(w', img.id) == Some(img);
    CloseGapKeeps(w', img.id);
    var w'' := CloseGap(w', img.id);
    forall j: nat ensures Lookup(w'', j) == Lookup(w', j) {}
  }

  /** Exactly the admissible ids can be added without losing an image or the invariant. */
  lemma AddKeepsIff(w: Window, img: Image)
    requires Valid(w) && !Received(w, img.id)
    ensures Valid(Add(w, img)) && Extends(w, img, Add(w, img)) <==> Admissible(w, img.id)
  {
    if Admissible(w, img.id) {
      AddKeeps(w, img);
    } else if Valid(Add(w, img)) && Extends(w, img, Add(w, img)) {
      AddNeeds(w, img);
    }
  }

  lemma AddNeeds(w: Window, img: Image)
    requires Valid(w) && !Received(w, img.id)
    requires Valid(Add(w, img)) && Extends(w, img, Add(w, img))
    ensures Admissible(w, img.id)
  {
    var n, id, w' := |w.slots|, img.id, Add(w, img);
    AddSlots(w, img);
    assert Lookup(w', id) == Some(img);
    Bounds(w', id);
    if id >= w.tailGap + RoomFor(w, id) {
      // the gap moved past an id that shares the slot of the new image
      SlotShared(w', id);
    }
    var x := w.slots[id % n];
    if x.Some? {
      assert InPlace(w, id % n);
      assert Lookup(w, x.value.id) == x && Lookup(w', x.value.id) == x;
    }
  }

  lemma Bounds(w: Window, id: nat)
    requires Valid(w) && Holds(w, id)
    ensures w.oldest <= id < w.tailGap + |w.slots|
  {
    assert InPlace(w, id % |w.slots|);
  }

  lemma SlotShared(w: Window, id: nat)
    requires Holds(w, id) && id >= |w.slots|
    ensures !Holds(w, id - |w.slots|)
  {
    ModShift(id, |w.slots|);
  }

  lemma {:induction false} CloseGapSlots(w: Window, id: nat)
    requires |w.slots| > 0
    ensures CloseGap(w, id).slots == w.slots && CloseGap(w, id).oldest == w.oldest
    ensures CloseGap(w, id).tailGap >= w.tailGap
    decreases if w.tailGap <= id then id + 1 - w.tailGap else 0
  {
    if w.tailGap <= id && w.slots[w.tailGap % |w.slots|].Some? {
      CloseGapSlots(w.(tailGap := w.tailGap + 1), id);
    }
  }

  lemma AddSlots(w: Window, img: Image)
    requires |w.slots| > 0
    ensures |Add(w, img).slots| == RoomFor(w, img.id) && Add(w, img).oldest == w.oldest
  {
    CloseGapSlots(Place(w, img), img.id);
  }

  /** An id less than a table ahead of the gap is admissible: one doubling frees its slot. */
  lemma BoundAdmits(w: Window, id: nat)
    requires Valid(w) && !Received(w, id) && id < w.tailGap + |w.slots|
    ensures Admissible(w, id)
    ensures RoomFor(w, id) > |w.slots| ==>
              var x := w.slots[id % |w.slots|].value.id;
              id == x + |w.slots|
  {
    var n := |w.slots|;
    if w.slots[id % n].Some? {
      var x := w.slots[id % n].value.id;
      assert InPlace(w, id % n);
      HeldFits(w, w.tailGap);
      assert Holds(w, x);
      if x < id { ModEqual(x, id, n); ModSeparate(x, n); }
      if id < x { ModEqual(id, x, n); }
    }
  }

  /** A run of held ids from oldest on fits into the table. */
  lemma HeldFits(w: Window, m: nat)
    requires Valid(w) && forall j: nat :: w.oldest <= j < m ==> Holds(w, j)
    ensures m <= w.oldest + |w.slots|
  {
    var n := |w.slots|;
    if m > w.oldest + n {
      assert Holds(w, w.oldest) && Holds(w, w.oldest + n);
      ModShift(w.oldest + n, n);
      assert false;
    }
  }

  /** The gap lags: the id that it stands at has arrived already. */
  predicate Lags(w: Window) { Holds(w, w.tailGap) }

  lemma {:induction false} CloseGapLagsIff(w: Window, id: nat)
    requires Placed(w) && w.tailGap <= id && Holds(w, id)
    ensures Lags(CloseGap(w, id)) <==> (forall j: nat :: w.tailGap <= j < id ==> Holds(w, j)) && Holds(w, id + 1)
    decreases id - w.tailGap
  {
    CloseGapStep(w, id);
    if Holds(w, w.tailGap) {
      var w1 := w.(tailGap := w.tailGap + 1);
      forall j: nat ensures Holds(w1, j) <==> Holds(w, j) {}
      if w.tailGap < id {
        CloseGapLagsIff(w1, id);
      } else {
        assert CloseGap(w1, id) == w1;
      }
    }
  }

  lemma CloseGapStep(w: Window, id: nat)
    requires Placed(w) && w.tailGap <= id && Holds(w, id)
    ensures CloseGap(w, id) == if Holds(w, w.tailGap) then CloseGap(w.(tailGap := w.tailGap + 1), id) else w
    ensures Holds(w, w.tailGap) ==> Placed(w.(tailGap := w.tailGap + 1))
  {
    if w.slots[w.tailGap % |w.slots|].Some? { GapSlot(w, id); }
    if Holds(w, w.tailGap) {
      var w1 := w.(tailGap := w.tailGap + 1);
      forall i | 0 <= i < |w.slots| && w1.slots[i].Some? ensures InPlace(w1, i) { assert InPlace(w, i); }
      forall j: nat | w1.oldest <= j < w1.tailGap ensures Holds(w1, j) { assert Holds(w, j); }
    }
  }

  /** After an addition the gap lags exactly when the new image closes it, every id between the gap
      and its own being held already, and the id after its own is held as well: whether or not
      the gap lagged before. */
  lemma GapLagsIff(w: Window, img: Image)
    requires Valid(w) && !Received(w, img.id) && Admissible(w, img.id)
    ensures Lags(Add(w, img)) <==>
            (forall j: nat :: w.tailGap <= j < img.id ==> Holds(w, j)) && Holds(w, img.id + 1)
  {
    var w' := Place(w, img);
    PlaceExtends(w, img);
    PlaceKeeps(w, img);
    assert Lookup(w', img.id) == Some(img);
    forall j: nat ensures j != img.id ==> (Holds(w', j) <==> Holds(w, j)) {
      assert Lookup(w', j) == if j == img.id then Some(img) else Lookup(w, j);
    }
    CloseGapLagsIff(w', img.id);
  }

  /** A gap that does not lag comes to lag exactly when the id that it stands at arrives after its
      successor. */
  lemma LagBeginsIff(w: Window, img: Image)
    requires Valid(w) && !Received(w, img.id) && Admissible(w, img.id) && !Lags(w)
    ensures Lags(Add(w, img)) <==> img.id == w.tailGap && Holds(w, w.tailGap + 1)
  {
    GapLagsIff(w, img);
  }

  /** Images 1 and then 0: the gap stands at 1, which is there. */
  lemma LaggingGap(one: Image, zero: Image)
    requires one.id == 1 && zero.id == 0
    ensures var w := Add(Add(Fresh(), one), zero); w.tailGap == 1 && Holds(w, 1)
  {
    var w := Place(Fresh(), one);
    assert CloseGap(w, 1) == w;
    var w1 := Place(w, zero);
    assert w1.slots[0] == Some(zero) && w1.slots[1] == Some(one);
    assert CloseGap(w1, 0) == CloseGap(w1.(tailGap := 1), 0) == w1.(tailGap := 1);
  }

  lemma AddReceives(w: Window, img: Image, j: nat)
    requires Valid(w) && Extends(w, img, Add(w, img)) && Valid(Add(w, img))
    ensures Received(Add(w, img), j) <==> Received(w, j) || j == img.id
  {
    var w' := Add(w, img);
    CloseGapSlots(Place(w, img), img.id);
    assert Lookup(w', j) == if j == img.id then Some(img) else Lookup(w, j);
    if w.tailGap <= j < w'.tailGap { assert Holds(w', j); }
  }

  // ---------------------------------------------------------------- evicting

  lemma {:induction false} ReleaseKeeps(w: Window, upTo: nat)
    requires Valid(w) && (upTo <= w.oldest || upTo < w.tailGap)
    ensures var w' := Release(w, upTo);
            && Valid(w') && w'.tailGap == w.tailGap && w'.oldest == Max(w.oldest, upTo)
            && |w'.slots| == |w.slots|
            && forall j: nat :: Lookup(w', j) == if j < upTo then None else Lookup(w, j)
    decreases if w.oldest < upTo then upTo - w.oldest else 0
  {
    if w.oldest < upTo {
      var w1 := ReleaseOne(w);
      ReleaseKeeps(w1, upTo);
    } else {
      forall j: nat | j < upTo ensures Lookup(w, j) == None {
        if Holds(w, j) { Bounds(w, j); }
      }
    }
  }

  lemma ReleaseOne(w: Window) returns (w': Window)
    requires Valid(w) && w.oldest + 1 < w.tailGap
    ensures w' == w.(slots := w.slots[w.oldest % |w.slots| := None], oldest := w.oldest + 1)
    ensures Valid(w')
    ensures forall j: nat :: Lookup(w', j) == if j == w.oldest then None else Lookup(w, j)
  {
    w' := w.(slots := w.slots[w.oldest % |w.slots| := None], oldest := w.oldest + 1);
    assert Holds(w, w.oldest);
    forall j: nat ensures Lookup(w', j) == if j == w.oldest then None else Lookup(w, j) {}
    forall i | 0 <= i < |w'.slots| && w'.slots[i].Some? ensures InPlace(w', i) {
      assert InPlace(w, i);
    }
    forall j: nat | w'.oldest <= j < w'.tailGap ensures Holds(w', j) {
      assert Lookup(w', j) == Lookup(w, j);
    }
  }

  lemma {:induction false} DoubledDivides(n: nat, m: nat)
    requires Doubled(n) && Doubled(m) && n <= m
    ensures m % n == 0
    decreases m
  {
    if n == m {
      ModUnique(m, n, 1, 0);
    } else {
      DoubledHalf(n, m);
      DoubledDivides(n, m / 2);
      var q := m / 2 / n;
      assert m / 2 == q * n;
      assert m == (2 * q) * n;
      ModUnique(m, n, 2 * q, 0);
    }
  }

  lemma {:induction false} DoubledHalf(n: nat, m: nat)
    requires Doubled(n) && Doubled(m) && n < m
    ensures m > INITIAL && m % 2 == 0 && Doubled(m / 2) && n <= m / 2
    decreases m
  {
    DoubledSize(n);
    if n > INITIAL { DoubledHalf(n / 2, m / 2); }
  }

  /** Where the unsigned subtraction tailGap - 1 leads: to the last slot when the gap is at 0. */
  lemma TailSlotIs(w: Window)
    requires Doubled(|w.slots|) && |w.slots| <= U64 && w.tailGap < U64
    ensures TailSlot(w) == if w.tailGap == 0 then |w.slots| - 1 else (w.tailGap - 1) % |w.slots|
  {
    if w.tailGap == 0 {
      ModUnique(U64 - 1, U64, 0, U64 - 1);
      LastSlot(|w.slots|);
    } else {
      ModUnique(w.tailGap + U64 - 1, U64, 1, w.tailGap - 1);
    }
  }

  lemma LastSlot(n: nat)
    requires Doubled(n) && n <= U64
    ensures (U64 - 1) % n == n - 1
  {
    U64Doubled();
    DoubledDivides(n, U64);
    var q := U64 / n;
    assert U64 - 1 == (q - 1) * n + (n - 1);
    ModUnique(U64 - 1, n, q - 1, n - 1);
  }

  lemma Doubled16(n: nat)
    requires Doubled(n)
    ensures Doubled(16 * n)
  {
    DoubledSize(n);
    DoubledSize(2 * n);
    DoubledSize(4 * n);
    DoubledSize(8 * n);
  }

  lemma Doubled64K(n: nat)
    requires Doubled(n)
    ensures Doubled(0x1_0000 * n)
  {
    Doubled16(n);
    Doubled16(0x10 * n);
    Doubled16(0x100 * n);
    Doubled16(0x1000 * n);
  }

  lemma U64Doubled()
    ensures Doubled(U64)
  {
    Doubled16(0x10);
    Doubled16(0x100);
    Doubled16(0x1000);
    Doubled64K(0x1_0000);
    Doubled64K(0x1_0000_0000);
    Doubled64K(0x1_0000_0000_0000);
  }

  /** A header that does not refer below id 0, of an id far from the end of its type. */
  predicate Sound(img: Image) { img.headDist <= img.id < U64 / 4 }

  ghost predicate Sane(w: Window) {
    && |w.slots| <= U64 / 2
    && forall j: nat :: Holds(w, j) ==> Sound(Lookup(w, j).value)
  }

  /** The first id that the image before the gap may refer to. */
  function Head(w: Window): nat
  {
    if w.tailGap == 0 then 0 else
    match Lookup(w, w.tailGap - 1)
    case None => 0
    case Some(img) => if img.headDist <= img.id then img.id - img.headDist else 0
  }

  /** The gap is past 0, or the last slot is empty, or its image does not move the head.
      Otherwise the unsigned tailGap - 1 leads to an image that says nothing about the ids
      still missing. */
  predicate EvictionSafe(w: Window)
    requires |w.slots| > 0
  {
    w.tailGap > 0 || match w.slots[|w.slots| - 1]
                     case None => true
                     case Some(img) => img.headDist == img.id
  }

  lemma HeadOfSound(img: Image)
    requires Sound(img)
    ensures HeadOf(img) == img.id - img.headDist
  {
  }

  lemma EvictKeeps(w: Window)
    requires Valid(w) && Sane(w) && EvictionSafe(w)
    ensures var w' := Evict(w);
            && Valid(w') && w'.tailGap == w.tailGap && w'.oldest == Max(w.oldest, Head(w))
            && |w'.slots| == |w.slots|
            && forall j: nat :: Lookup(w', j) == if j < Head(w) then None else Lookup(w, j)
  {
    EvictIsRelease(w);
    ReleaseKeeps(w, Head(w));
  }

  lemma EvictIsRelease(w: Window)
    requires Valid(w) && Sane(w) && EvictionSafe(w)
    ensures Evict(w) == Release(w, Head(w)) && (Head(w) == 0 || Head(w) < w.tailGap)
  {
    if w.tailGap > 0 {
      assert Holds(w, w.tailGap - 1);
      TailSlotIs(w);
      HeadOfSound(Lookup(w, w.tailGap - 1).value);
    } else {
      TailSlotIs(w);
      if w.slots[|w.slots| - 1].Some? { assert HeadOf(w.slots[|w.slots| - 1].value) == 0; }
    }
  }

  /** Eviction keeps every id that a missing image may refer to exactly when it is safe:
      otherwise it passes id 0, which has not arrived. */
  lemma EvictKeepsIff(w: Window)
    requires Valid(w) && Sane(w)
    ensures Valid(Evict(w)) <==> EvictionSafe(w)
    ensures !EvictionSafe(w) ==>
              var last := w.slots[|w.slots| - 1].value;
              && w.tailGap == 0 && Evict(w).oldest == HeadOf(last) > 0
              && forall j: nat :: Lookup(Evict(w), j) == if j < HeadOf(last) then None else Lookup(w, j)
  {
    if EvictionSafe(w) {
      EvictKeeps(w);
    } else {
      UnsafeHead(w);
      var upTo := HeadOf(w.slots[|w.slots| - 1].value);
      TailSlotIs(w);
      ReleaseCounters(w, upTo);
      forall i | 0 <= i < |w.slots| && w.slots[i].Some? ensures w.slots[i].value.id == i { SmallId(w, i); }
      ReleaseSmall(w, upTo);
    }
  }

  /** While the gap is at 0 every image is in the slot of its own number. */
  lemma SmallId(w: Window, i: nat)
    requires Valid(w) && w.tailGap == 0 && i < |w.slots| && w.slots[i].Some?
    ensures w.slots[i].value.id == i
  {
    assert InPlace(w, i);
    ModUnique(w.slots[i].value.id, |w.slots|, 0, w.slots[i].value.id);
  }

  lemma UnsafeHead(w: Window)
    requires Valid(w) && Sane(w) && !EvictionSafe(w)
    ensures 0 < HeadOf(w.slots[|w.slots| - 1].value) <= |w.slots| - 1
  {
    var img := w.slots[|w.slots| - 1].value;
    SmallId(w, |w.slots| - 1);
    assert Holds(w, img.id);
    HeadOfSound(img);
  }

  lemma {:induction false} ReleaseSmall(w: Window, upTo: nat)
    requires w.oldest <= upTo < |w.slots|
    requires forall i :: 0 <= i < |w.slots| && w.slots[i].Some? ==> w.slots[i].value.id == i
    requires forall i :: 0 <= i < w.oldest ==> w.slots[i].None?
    ensures forall j: nat :: Lookup(Release(w, upTo), j) == if j < upTo then None else Lookup(w, j)
    decreases upTo - w.oldest
  {
    if w.oldest < upTo {
      ModUnique(w.oldest, |w.slots|, 0, w.oldest);
      var w1 := w.(slots := w.slots[w.oldest := None], oldest := w.oldest + 1);
      ReleaseSmall(w1, upTo);
      forall j: nat ensures Lookup(w1, j) == if j == w.oldest then None else Lookup(w, j) {}
    } else {
      forall j: nat | j < upTo ensures Lookup(w, j) == None { ModUnique(j, |w.slots|, 0, j); }
    }
  }

  /** While the gap is at 0 the table has its first size: then an eviction is safe exactly unless
      image 15 is there and may refer to ids from 1 on only. */
  lemma SafeIff(w: Window)
    requires Valid(w) && (w.tailGap == 0 ==> |w.slots| == INITIAL)
    ensures EvictionSafe(w) <==> (w.tailGap == 0 && Holds(w, INITIAL - 1) ==> Lookup(w, INITIAL - 1).value.headDist == INITIAL - 1)
  {
    if w.tailGap == 0 && w.slots[INITIAL - 1].Some? { SmallId(w, INITIAL - 1); }
  }

  lemma AddSmall(w: Window, img: Image)
    requires Valid(w) && Sane(w) && !Received(w, img.id) && img.id < w.tailGap + |w.slots|
    requires w.tailGap == 0 ==> |w.slots| == INITIAL
    ensures Add(w, img).tailGap == 0 ==> |Add(w, img).slots| == INITIAL
  {
    BoundAdmits(w, img.id);
    AddKeeps(w, img);
  }

  lemma {:induction false} ReleaseCounters(w: Window, upTo: nat)
    requires |w.slots| > 0
    ensures Release(w, upTo).oldest == Max(w.oldest, upTo) && Release(w, upTo).tailGap == w.tailGap
    decreases if w.oldest < upTo then upTo - w.oldest else 0
  {
    if w.oldest < upTo {
      ReleaseCounters(w.(slots := w.slots[w.oldest % |w.slots| := None], oldest := w.oldest + 1), upTo);
    }
  }

  /** A table too far ahead: the gap moves past id 0 although no image 0 ever arrived. */
  lemma GapJumps(img: Image)
    requires img.id == 16
    ensures !Admissible(Fresh(), img.id)
    ensures Add(Fresh(), img).tailGap == 1 && !Holds(Add(Fresh(), img), 0)
  {
    var w := Place(Fresh(), img);
    assert w.slots[0] == Some(img) && w.slots[1].None?;
    var w1 := w.(tailGap := 1);
    assert CloseGap(w1, INITIAL) == w1;
    assert CloseGap(w, INITIAL) == w1;
  }

  // ---------------------------------------------------------------- runs

  /** The end of the decoding of an image: put it into the window, then evict. */
  function Enter(w: Window, img: Image): (w': Window)
    requires |w.slots| > 0
    ensures |w'.slots| > 0
  {
    AddSlots(w, img);
    EvictSlots(Add(w, img));
    Evict(Add(w, img))
  }

  lemma EvictSlots(w: Window)
    requires |w.slots| > 0
    ensures |Evict(w).slots| == |w.slots|
  {
    var x := w.slots[TailSlot(w)];
    if x.Some? { ReleaseSlots(w, HeadOf(x.value)); }
  }

  lemma {:induction false} ReleaseSlots(w: Window, upTo: nat)
    requires |w.slots| > 0
    ensures |Release(w, upTo).slots| == |w.slots|
    decreases if w.oldest < upTo then upTo - w.oldest else 0
  {
    if w.oldest < upTo {
      ReleaseSlots(w.(slots := w.slots[w.oldest % |w.slots| := None], oldest := w.oldest + 1), upTo);
    }
  }

  /** Whatever is found under an id afterwards is the new image or was found there before: nothing
      is assumed of the window or of the image. */
  lemma FoundBefore(w: Window, img: Image, j: nat)
    requires |w.slots| > 0 && Holds(Enter(w, img), j)
    ensures (j == img.id && Lookup(Enter(w, img), j) == Some(img))
            || (Holds(w, j) && Lookup(Enter(w, img), j) == Lookup(w, j))
  {
    AddSlots(w, img);
    FoundInEvicted(Add(w, img), j);
    CloseGapSlots(Place(w, img), img.id);
    ResizeKeeps(w, j);
  }

  lemma FoundInEvicted(w: Window, j: nat)
    requires |w.slots| > 0 && Holds(Evict(w), j)
    ensures Lookup(Evict(w), j) == Lookup(w, j) && Holds(w, j)
  {
    var x := w.slots[TailSlot(w)];
    if x.Some? { FoundInReleased(w, HeadOf(x.value), j); }
  }

  lemma {:induction false} FoundInReleased(w: Window, upTo: nat, j: nat)
    requires |w.slots| > 0 && Holds(Release(w, upTo), j)
    ensures Lookup(Release(w, upTo), j) == Lookup(w, j) && Holds(w, j)
    decreases if w.oldest < upTo then upTo - w.oldest else 0
  {
    if w.oldest < upTo {
      FoundInReleased(w.(slots := w.slots[w.oldest % |w.slots| := None], oldest := w.oldest + 1), upTo, j);
    }
  }

  /** What the window assumes of the next image: a new id, less than a table ahead of the gap,
      after which the eviction is not misled. */
  ghost predicate Welcome(w: Window, img: Image)
    requires |w.slots| > 0
  {
    AddSlots(w, img);
    && Sound(img) && !Received(w, img.id)
    && img.id < w.tailGap + |w.slots|
    && EvictionSafe(Add(w, img))
  }

  lemma AddSane(w: Window, img: Image)
    requires Valid(w) && Sane(w)
    requires Sound(img) && !Received(w, img.id) && img.id < w.tailGap + |w.slots|
    ensures var w' := Add(w, img);
            && Valid(w') && Sane(w') && Extends(w, img, w') && w'.oldest == w.oldest && w'.tailGap >= w.tailGap
            && (|w'.slots| != |w.slots| ==>
                  img.id >= |w.slots| && Holds(w, img.id - |w.slots|) && |w'.slots| == 2 * |w.slots|)
  {
    BoundAdmits(w, img.id);
    AddKeeps(w, img);
    var w' := Add(w, img);
    if |w'.slots| != |w.slots| {
      assert InPlace(w, img.id % |w.slots|);
    }
    forall j: nat | Holds(w', j) ensures Sound(Lookup(w', j).value) {
      assert Lookup(w', j) == if j == img.id then Some(img) else Lookup(w, j);
    }
  }

  /** Decoding one more image: it is put in, what its predecessor in id order no longer needs
      is dropped, and nothing else changes. */
  lemma EnterKeeps(w: Window, img: Image)
    requires Valid(w) && Sane(w) && Welcome(w, img)
    ensures var (w1, w') := (Add(w, img), Enter(w, img));
            && Valid(w') && Sane(w') && w'.oldest == Max(w.oldest, Head(w1)) && w'.tailGap == w1.tailGap >= w.tailGap
            && forall j: nat :: Lookup(w', j) == if j < Head(w1) then None else if j == img.id then Some(img) else Lookup(w, j)
  {
    AddSane(w, img);
    var w1, w' := Add(w, img), Enter(w, img);
    EvictKeeps(w1);
    forall j: nat ensures Lookup(w', j) == if j < Head(w1) then None else if j == img.id then Some(img) else Lookup(w, j) {
      assert Lookup(w1, j) == if j == img.id then Some(img) else Lookup(w, j);
    }
    forall j: nat | Holds(w', j) ensures Sound(Lookup(w', j).value) {
      assert Lookup(w', j) == Lookup(w1, j) && Holds(w1, j);
    }
  }

  /** One doubling at most, and only when ids a whole table apart are held together. */
  lemma EnterSize(w: Window, img: Image)
    requires Valid(w) && Sane(w) && Welcome(w, img)
    ensures |Enter(w, img).slots| != |w.slots| ==>
              img.id >= |w.slots| && Holds(w, img.id - |w.slots|) && |Enter(w, img).slots| == 2 * |w.slots|
  {
    AddSane(w, img);
    EvictSlots(Add(w, img));
  }

  lemma EnterReceives(w: Window, img: Image, j: nat)
    requires Valid(w) && Sane(w) && Welcome(w, img)
    ensures Received(Enter(w, img), j) <==> Received(w, j) || j == img.id
  {
    AddSane(w, img);
    EnterKeeps(w, img);
    AddReceives(w, img, j);
    var w1, w' := Add(w, img), Enter(w, img);
    assert Lookup(w1, j) == if j == img.id then Some(img) else Lookup(w, j);
    assert Lookup(w', j) == if j < Head(w1) then None else Lookup(w1, j);
  }

  function Last(imgs: seq<Image>): Image
    requires imgs != []
  {
    imgs[|imgs| - 1]
  }

  function Front(imgs: seq<Image>): seq<Image>
    requires imgs != []
  {
    imgs[..|imgs| - 1]
  }

  /** The window after the images have been decoded in this order. */
  function Run(imgs: seq<Image>): (w: Window)
    ensures |w.slots| > 0
  {
    if imgs == [] then Fresh() else Enter(Run(Front(imgs)), Last(imgs))
  }

  ghost predicate Disciplined(imgs: seq<Image>) {
    imgs == [] || (Disciplined(Front(imgs)) && Welcome(Run(Front(imgs)), Last(imgs)))
  }

  /** At no time are two ids more than span apart held together. */
  ghost predicate Within(imgs: seq<Image>, span: nat) {
    imgs == [] ||
    (&& Within(Front(imgs), span)
     && forall j: nat :: Holds(Run(Front(imgs)), j) ==> j - span <= Last(imgs).id <= j + span)
  }

  predicate Arrived(imgs: seq<Image>, id: nat) { exists i :: 0 <= i < |imgs| && imgs[i].id == id }

  /** What holds of the window after every run: the table is in order, exactly the ids that
      arrived count as received, and what is held is what arrived. */
  lemma {:induction false} RunInvariant(imgs: seq<Image>)
    requires Disciplined(imgs)
    ensures var w := Run(imgs);
            && Valid(w) && Sane(w)
            && (forall id: nat :: Received(w, id) <==> Arrived(imgs, id))
            && (forall id: nat :: Holds(w, id) ==> Lookup(w, id).value in imgs)
  {
    if imgs != [] {
      RunInvariant(Front(imgs));
      var w, img, w' := Run(Front(imgs)), Last(imgs), Run(imgs);
      EnterKeeps(w, img);
      assert imgs == Front(imgs) + [img];
      forall id: nat ensures Received(w', id) <==> Arrived(imgs, id) {
        EnterReceives(w, img, id);
        assert Arrived(imgs, id) <==> Arrived(Front(imgs), id) || id == img.id by {
          if id == img.id { assert imgs[|imgs| - 1].id == id; }
          if Arrived(Front(imgs), id) {
            var i :| 0 <= i < |imgs| - 1 && Front(imgs)[i].id == id;
            assert imgs[i].id == id;
          }
        }
      }
    }
  }

  /** The table is at most twice the widest span of ids ever held together. */
  lemma {:induction false} RunSize(imgs: seq<Image>, span: nat)
    requires Disciplined(imgs) && Within(imgs, span)
    ensures |Run(imgs).slots| <= Max(16, 2 * span)
  {
    if imgs != [] {
      RunInvariant(Front(imgs));
      RunSize(Front(imgs), span);
      EnterSize(Run(Front(imgs)), Last(imgs));
    }
  }
}
