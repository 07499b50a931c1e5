/**
 Several display channels decoding into one window. Each display decodes its own images in id
 order; a token that refers to an earlier image waits until the window holds it. Displays
 take their tokens in any order. What comes out is compared with decoding the images one
 after the other.
 */
module GlzProtocol {
  import opened Common
  import opened GlzDecode
  import opened GlzFormats
  import opened GlzImage
  import W = GlzWindow

  /** The images by id, and the display that receives each of them. */
  datatype Feed = Feed(images: seq<Compressed>, owner: seq<nat>, displays: nat)

  /** The window, the image that each display is at and how far it is, and the images decoded. */
  datatype State = State(win: W.Window, next: seq<nat>, work: seq<Work>, done: map<nat, seq<Pixel>>)

  // ---------------------------------------------------------------- one image after the other

  /** The first id that image k may refer to. */
  function Low(feed: Feed, k: nat): nat
    requires k < |feed.images|
  {
    if feed.images[k].headDist <= k then k - feed.images[k].headDist else 0
  }

  /** The pixels of image k when the images are decoded one after the other in id order. */
  function Sequential(feed: Feed, k: nat): Option<seq<Pixel>>
    requires k < |feed.images|
    decreases k, 1
  {
    Finish(feed.images[k], SequentialEnv(feed, k), k, START)
  }

  /** The images that image k may refer to. */
  function SequentialEnv(feed: Feed, k: nat): map<nat, seq<Pixel>>
    requires k < |feed.images|
    decreases k, 0
  {
    map j: nat | Low(feed, k) <= j < k && Sequential(feed, j).Some? :: Sequential(feed, j).value
  }

  /** Image k has these pixels exactly if they are what its streams say, given the pixels of the
      images that it may refer to. */
  lemma SequentialIff(feed: Feed, k: nat, ps: seq<Pixel>)
    requires k < |feed.images|
    ensures Sequential(feed, k) == Some(ps) <==> IsDecoded(feed.images[k], SequentialEnv(feed, k), k, ps)
    ensures forall j: nat :: j in SequentialEnv(feed, k) <==> Low(feed, k) <= j < k && Sequential(feed, j).Some?
    ensures forall j: nat :: j in SequentialEnv(feed, k) ==> Sequential(feed, j) == Some(SequentialEnv(feed, k)[j])
  {
    FinishIsPixels(feed.images[k], SequentialEnv(feed, k), k);
    PixelsIff(feed.images[k], SequentialEnv(feed, k), k, ps);
  }

  /** What is assumed of the server: headers do not refer below id 0, the head of the window
      never moves back, every image can be decoded with the images that its header allows,
      and every image goes to one display. */
  ghost predicate WellFormed(feed: Feed) {
    && |feed.owner| == |feed.images| < U64 / 4
    && (forall k :: 0 <= k < |feed.images| ==> feed.owner[k] < feed.displays)
    && (forall k :: 0 <= k < |feed.images| ==> feed.images[k].headDist <= k)
    && (forall j, k :: 0 <= j <= k < |feed.images| ==> Low(feed, j) <= Low(feed, k))
    && (forall k :: 0 <= k < |feed.images| ==> Sequential(feed, k).Some?)
  }

  // ---------------------------------------------------------------- the protocol

  /** The first id from k on that goes to display c, or the number of images. */
  function NextOwned(feed: Feed, c: nat, k: nat): (r: nat)
    requires |feed.owner| == |feed.images|
    ensures k <= |feed.images| ==> k <= r <= |feed.images|
    ensures r < |feed.images| ==> feed.owner[r] == c
    ensures forall j :: k <= j < r && j < |feed.images| ==> feed.owner[j] != c
    decreases if k < |feed.images| then |feed.images| - k else 0
  {
    if k >= |feed.images| then |feed.images|
    else if feed.owner[k] == c then k
    else NextOwned(feed, c, k + 1)
  }

  function Init(feed: Feed): State
    requires |feed.owner| == |feed.images|
  {
    State(W.Fresh(), seq(feed.displays, c requires 0 <= c => NextOwned(feed, c, 0)), seq(feed.displays, _ => START), map[])
  }

  predicate Shaped(feed: Feed, s: State) {
    && |feed.owner| == |feed.images|
    && |s.next| == |s.work| == feed.displays
    && |s.win.slots| > 0
  }

  /** Display c has nothing to do, or waits for an image. */
  predicate Blocked(feed: Feed, s: State, c: nat)
    requires Shaped(feed, s) && c < feed.displays
  {
    var k := s.next[c];
    || k >= |feed.images|
    || (&& !Finished(feed.images[k], s.work[c])
        && Needs(feed.images[k], k, s.work[c]).Some?
        && !W.Holds(s.win, Needs(feed.images[k], k, s.work[c]).value))
  }

  function ImageOf(feed: Feed, k: nat, data: seq<Pixel>): W.Image
    requires k < |feed.images|
  {
    W.Image(k, feed.images[k].headDist, data)
  }

  /** One step of display c: a token, or the end of an image. None when it is blocked. */
  function Exec(feed: Feed, s: State, c: nat): Option<State>
    requires Shaped(feed, s) && c < feed.displays
  {
    if Blocked(feed, s, c) then None else
    var k := s.next[c];
    if Finished(feed.images[k], s.work[c]) then
      var img := ImageOf(feed, k, s.work[c].base);
      Some(State(W.Enter(s.win, img), s.next[c := NextOwned(feed, c, k + 1)], s.work[c := START], s.done[k := img.data]))
    else
      match Advance(feed.images[k], W.Live(s.win), k, s.work[c])
      case None => None
      case Some(w) => Some(s.(work := s.work[c := w]))
  }

  /** The step of display c ends an image. */
  predicate Ends(feed: Feed, s: State, c: nat)
    requires Shaped(feed, s) && c < feed.displays
  {
    s.next[c] < |feed.images| && Finished(feed.images[s.next[c]], s.work[c])
  }

  /** An image that is ended is less than a table ahead of the gap. */
  ghost predicate Bounded(feed: Feed, s: State, c: nat)
    requires Shaped(feed, s) && c < feed.displays
  {
    Ends(feed, s, c) ==> s.next[c] < s.win.tailGap + |s.win.slots|
  }

  /** And the eviction after it is not misled. */
  ghost predicate Tame(feed: Feed, s: State, c: nat)
    requires Shaped(feed, s) && c < feed.displays
  {
    Bounded(feed, s, c) && (Ends(feed, s, c) ==> W.EvictionSafe(Added(feed, s, c)))
  }

  /** The window with the image of display c put in, before the eviction. */
  function Added(feed: Feed, s: State, c: nat): (w: W.Window)
    requires Shaped(feed, s) && c < feed.displays && Ends(feed, s, c)
    ensures |w.slots| > 0
  {
    W.AddSlots(s.win, ImageOf(feed, s.next[c], s.work[c].base));
    W.Add(s.win, ImageOf(feed, s.next[c], s.work[c].base))
  }

  // ---------------------------------------------------------------- the invariant

  predicate Decoded(feed: Feed, s: State, k: nat)
    requires Shaped(feed, s)
  {
    k < |feed.images| && feed.owner[k] < feed.displays && k < s.next[feed.owner[k]]
  }

  /** The displays' side: what each is at, and that its work so far leads to the right pixels. */
  ghost predicate DisplaysOk(feed: Feed, s: State)
    requires WellFormed(feed) && Shaped(feed, s)
  {
    forall c :: 0 <= c < feed.displays ==> DisplayOk(feed, s, c)
  }

  ghost predicate DisplayOk(feed: Feed, s: State, c: nat)
    requires WellFormed(feed) && Shaped(feed, s) && c < feed.displays
  {
    var k := s.next[c];
    && k <= |feed.images|
    && (k < |feed.images| ==>
          && feed.owner[k] == c
          && Finish(feed.images[k], SequentialEnv(feed, k), k, s.work[c]) == Sequential(feed, k))
  }

  /** The window's side: it has received what is decoded, holds the right pixels, and has not
      evicted what an image still to be decoded may refer to. */
  ghost predicate WindowOk(feed: Feed, s: State)
    requires WellFormed(feed) && Shaped(feed, s)
  {
    && W.Valid(s.win) && W.Sane(s.win)
    && (forall k: nat :: W.Received(s.win, k) <==> Decoded(feed, s, k))
    && (forall k: nat :: Decoded(feed, s, k) && k >= s.win.oldest ==> W.Holds(s.win, k))
    && (forall k: nat :: W.Holds(s.win, k) ==>
          k < |feed.images| && W.Lookup(s.win, k).value == ImageOf(feed, k, Sequential(feed, k).value))
    && (forall k: nat :: k < |feed.images| && !Decoded(feed, s, k) ==> s.win.oldest <= Low(feed, k))
  }

  ghost predicate Confluent(feed: Feed, s: State)
    requires WellFormed(feed) && Shaped(feed, s)
  {
    && (forall k: nat :: k in s.done <==> Decoded(feed, s, k))
    && (forall k: nat :: k in s.done ==> s.done[k] == Sequential(feed, k).value)
  }

  /** What every run keeps, whatever its order: all that is held or done is right. */
  ghost predicate Right(feed: Feed, s: State) {
    && WellFormed(feed) && Shaped(feed, s) && DisplaysOk(feed, s)
    && (forall k: nat :: W.Holds(s.win, k) ==> HeldRight(feed, s, k))
    && (forall k: nat :: k in s.done ==> k < |feed.images| && Sequential(feed, k) == Some(s.done[k]))
  }

  ghost predicate HeldRight(feed: Feed, s: State, k: nat) {
    k < |feed.images| && Sequential(feed, k).Some? && W.Lookup(s.win, k) == Some(ImageOf(feed, k, Sequential(feed, k).value))
  }

  ghost predicate Inv(feed: Feed, s: State)
  {
    && WellFormed(feed) && Shaped(feed, s)
    && DisplaysOk(feed, s) && WindowOk(feed, s) && Confluent(feed, s)
  }

  lemma InitInv(feed: Feed)
    requires WellFormed(feed)
    ensures Inv(feed, Init(feed))
  {
    var s := Init(feed);
    assert W.Doubled(W.INITIAL);
    forall k: nat ensures !Decoded(feed, s, k) {
      if k < |feed.images| {
        assert s.next[feed.owner[k]] == NextOwned(feed, feed.owner[k], 0);
      }
    }
  }

  // ---------------------------------------------------------------- a token

  lemma InvIsRight(feed: Feed, s: State)
    requires Inv(feed, s)
    ensures Right(feed, s)
  {
    forall k: nat | W.Holds(s.win, k) ensures HeldRight(feed, s, k) {}
  }

  /** The window shows a token exactly what decoding in id order would show it. */
  lemma TokenAgrees(feed: Feed, s: State, c: nat)
    requires Right(feed, s) && c < feed.displays && !Blocked(feed, s, c) && !Ends(feed, s, c)
    ensures var k := s.next[c];
            && Advance(feed.images[k], SequentialEnv(feed, k), k, s.work[c]).Some?
            && Advance(feed.images[k], W.Live(s.win), k, s.work[c])
               == Advance(feed.images[k], SequentialEnv(feed, k), k, s.work[c])
  {
    var k := s.next[c];
    var ci, w, env := feed.images[k], s.work[c], SequentialEnv(feed, k);
    assert DisplayOk(feed, s, c);
    if Needs(ci, k, w).Some? {
      var j := Needs(ci, k, w).value;
      AdvanceNeeds(ci, env, k, w);
      assert W.Holds(s.win, j) && HeldRight(feed, s, j);
      assert Agree(env, W.Live(s.win), j);
    }
    AdvanceDepends(ci, env, W.Live(s.win), k, w);
  }

  lemma TokenInv(feed: Feed, s: State, c: nat)
    requires Inv(feed, s) && c < feed.displays && !Blocked(feed, s, c) && !Ends(feed, s, c)
    ensures Exec(feed, s, c).Some? && Inv(feed, Exec(feed, s, c).value)
  {
    InvIsRight(feed, s);
    TokenAgrees(feed, s, c);
    var s' := Exec(feed, s, c).value;
    forall d | 0 <= d < feed.displays ensures DisplayOk(feed, s', d) {
      assert DisplayOk(feed, s, d);
    }
    forall k: nat ensures Decoded(feed, s', k) <==> Decoded(feed, s, k) {}
  }

  // ---------------------------------------------------------------- the end of an image

  /** Exactly the image just ended becomes decoded. */
  lemma EndDecodes(feed: Feed, s: State, c: nat, j: nat)
    requires Inv(feed, s) && c < feed.displays && Ends(feed, s, c)
    ensures Shaped(feed, Exec(feed, s, c).value)
    ensures Decoded(feed, Exec(feed, s, c).value, j) <==> Decoded(feed, s, j) || j == s.next[c]
  {
    var k := s.next[c];
    assert DisplayOk(feed, s, c);
    var r := NextOwned(feed, c, k + 1);
  }

  lemma EndPixels(feed: Feed, s: State, c: nat)
    requires Inv(feed, s) && c < feed.displays && Ends(feed, s, c)
    ensures Sequential(feed, s.next[c]) == Some(s.work[c].base)
    ensures !Decoded(feed, s, s.next[c])
  {
    assert DisplayOk(feed, s, c);
  }

  /** An image that is ended is new to the window. */
  lemma EndIsNew(feed: Feed, s: State, c: nat)
    requires Inv(feed, s) && c < feed.displays && Ends(feed, s, c)
    ensures var img := ImageOf(feed, s.next[c], s.work[c].base); W.Sound(img) && !W.Received(s.win, img.id)
    ensures Tame(feed, s, c) ==> W.Welcome(s.win, ImageOf(feed, s.next[c], s.work[c].base))
  {
    EndPixels(feed, s, c);
  }

  /** The eviction that follows an addition stops at what the image before the gap may refer to. */
  lemma HeadIsLow(feed: Feed, s: State, c: nat)
    requires Inv(feed, s) && c < feed.displays && Ends(feed, s, c) && Tame(feed, s, c)
    ensures var w1 := W.Add(s.win, ImageOf(feed, s.next[c], s.work[c].base));
            if w1.tailGap == 0 then W.Head(w1) == 0
            else w1.tailGap - 1 < |feed.images| && W.Head(w1) == Low(feed, w1.tailGap - 1)
  {
    var w1 := Added(feed, s, c);
    if w1.tailGap > 0 {
      TailHeld(feed, s, c);
      HeldAfter(feed, s, c, w1.tailGap - 1);
    }
  }

  lemma TailHeld(feed: Feed, s: State, c: nat)
    requires Inv(feed, s) && c < feed.displays && Ends(feed, s, c) && Tame(feed, s, c)
    requires Added(feed, s, c).tailGap > 0
    ensures W.Holds(Added(feed, s, c), Added(feed, s, c).tailGap - 1)
  {
    AddedReceives(feed, s, c, 0);
  }

  /** What is held once the image is in is what the feed says. */
  lemma HeldAfter(feed: Feed, s: State, c: nat, t: nat)
    requires Inv(feed, s) && c < feed.displays && Ends(feed, s, c) && Tame(feed, s, c)
    requires W.Holds(Added(feed, s, c), t)
    ensures t < |feed.images| && W.Lookup(Added(feed, s, c), t).value.id == t
    ensures W.Lookup(Added(feed, s, c), t).value.headDist == feed.images[t].headDist
  {
    AddedReceives(feed, s, c, t);
  }

  lemma EndWindow(feed: Feed, s: State, c: nat)
    requires Inv(feed, s) && c < feed.displays && Ends(feed, s, c) && Tame(feed, s, c)
    ensures Shaped(feed, Exec(feed, s, c).value) && WindowOk(feed, Exec(feed, s, c).value)
  {
    var k, s' := s.next[c], Exec(feed, s, c).value;
    var img := ImageOf(feed, k, s.work[c].base);
    var w, w1, w' := s.win, W.Add(s.win, img), s'.win;
    EndPixels(feed, s, c);
    EndIsNew(feed, s, c);
    W.EnterKeeps(w, img);
    forall j: nat ensures W.Received(w', j) <==> Decoded(feed, s', j) {
      W.EnterReceives(w, img, j);
      EndDecodes(feed, s, c, j);
    }
    forall j: nat | Decoded(feed, s', j) && j >= w'.oldest ensures W.Holds(w', j) {
      EndDecodes(feed, s, c, j);
      assert W.Lookup(w', j) == if j == k then Some(img) else W.Lookup(w, j);
    }
    forall j: nat | W.Holds(w', j)
      ensures j < |feed.images| && W.Lookup(w', j).value == ImageOf(feed, j, Sequential(feed, j).value)
    {
      assert W.Lookup(w', j) == if j == k then Some(img) else W.Lookup(w, j);
    }
    forall j: nat | j < |feed.images| && !Decoded(feed, s', j) ensures w'.oldest <= Low(feed, j) {
      EndDecodes(feed, s, c, j);
      HeadIsLow(feed, s, c);
      assert !W.Received(w', j);
    }
  }

  lemma EndInv(feed: Feed, s: State, c: nat)
    requires Inv(feed, s) && c < feed.displays && Ends(feed, s, c) && Tame(feed, s, c)
    ensures Exec(feed, s, c).Some? && Inv(feed, Exec(feed, s, c).value)
  {
    var s' := Exec(feed, s, c).value;
    EndPixels(feed, s, c);
    EndWindow(feed, s, c);
    forall d | 0 <= d < feed.displays ensures DisplayOk(feed, s', d) {
      assert DisplayOk(feed, s, d);
    }
    forall j: nat ensures j in s'.done <==> Decoded(feed, s', j) {
      EndDecodes(feed, s, c, j);
    }
  }

  /** Given the bound on ids, the end of an image keeps the invariant exactly when the eviction
      is not misled: otherwise an id that has not arrived falls behind the window. */
  lemma EndInvIff(feed: Feed, s: State, c: nat)
    requires Inv(feed, s) && c < feed.displays && Ends(feed, s, c)
    requires Bounded(feed, s, c)
    ensures Exec(feed, s, c).Some? && Inv(feed, Exec(feed, s, c).value) <==> W.EvictionSafe(Added(feed, s, c))
  {
    var img := ImageOf(feed, s.next[c], s.work[c].base);
    EndPixels(feed, s, c);
    W.AddSane(s.win, img);
    if W.EvictionSafe(W.Add(s.win, img)) {
      EndInv(feed, s, c);
    } else {
      W.EvictKeepsIff(W.Add(s.win, img));
    }
  }

  // ---------------------------------------------------------------- when evictions are safe

  /** Image 15 is not decoded before image 0, unless it may refer down to image 0. */
  predicate ZeroFirstAt(feed: Feed, s: State)
    requires Shaped(feed, s)
  {
    Decoded(feed, s, 15) && !Decoded(feed, s, 0) ==> feed.images[15].headDist == 15
  }

  /** The table keeps its first size until image 0 is there. */
  ghost predicate SmallAtFirst(s: State) { s.win.tailGap == 0 ==> |s.win.slots| == W.INITIAL }

  /** What the window has received when an image has been put in, and what it holds of it. */
  lemma AddedReceives(feed: Feed, s: State, c: nat, j: nat)
    requires Inv(feed, s) && c < feed.displays && Ends(feed, s, c) && Bounded(feed, s, c)
    ensures var w1 := Added(feed, s, c);
            && W.Valid(w1) && w1.tailGap >= s.win.tailGap
            && Shaped(feed, Exec(feed, s, c).value)
            && (W.Received(w1, j) <==> Decoded(feed, Exec(feed, s, c).value, j))
            && (W.Holds(w1, j) ==> j < |feed.images| && W.Lookup(w1, j).value.headDist == feed.images[j].headDist)
  {
    var img := ImageOf(feed, s.next[c], s.work[c].base);
    EndIsNew(feed, s, c);
    W.AddSane(s.win, img);
    W.AddReceives(s.win, img, j);
    EndDecodes(feed, s, c, j);
    assert W.Lookup(Added(feed, s, c), j) == if j == img.id then Some(img) else W.Lookup(s.win, j);
  }

  /** An ended image leaves a safe eviction exactly if image 0 comes first. */
  lemma SafeIffZeroFirst(feed: Feed, s: State, c: nat)
    requires Inv(feed, s) && c < feed.displays && Ends(feed, s, c) && Bounded(feed, s, c) && SmallAtFirst(s)
    ensures Shaped(feed, Exec(feed, s, c).value)
    ensures W.EvictionSafe(Added(feed, s, c)) <==> ZeroFirstAt(feed, Exec(feed, s, c).value)
  {
    var w1 := Added(feed, s, c);
    AddedReceives(feed, s, c, 0);
    AddedReceives(feed, s, c, W.INITIAL - 1);
    EndIsNew(feed, s, c);
    W.AddSmall(s.win, ImageOf(feed, s.next[c], s.work[c].base));
    W.SafeIff(w1);
  }

  lemma StepStaysSmall(feed: Feed, s: State, c: nat)
    requires Inv(feed, s) && c < feed.displays && Exec(feed, s, c).Some? && Tame(feed, s, c) && SmallAtFirst(s)
    ensures SmallAtFirst(Exec(feed, s, c).value)
  {
    if Ends(feed, s, c) {
      var img := ImageOf(feed, s.next[c], s.work[c].base);
      EndIsNew(feed, s, c);
      W.AddSmall(s.win, img);
      W.EnterKeeps(s.win, img);
      W.EvictSlots(W.Add(s.win, img));
    }
  }

  // ---------------------------------------------------------------- confluence

  /** The state after the displays have moved in this order. None if one was moved while blocked. */
  function Run(feed: Feed, schedule: seq<nat>): (r: Option<State>)
    requires |feed.owner| == |feed.images|
    ensures r.Some? ==> Shaped(feed, r.value)
  {
    if schedule == [] then Some(Init(feed)) else
    var s, c := Run(feed, schedule[..|schedule| - 1]), schedule[|schedule| - 1];
    if s.None? || c >= feed.displays then None else
    StepShaped(feed, s.value, c);
    Exec(feed, s.value, c)
  }

  lemma StepShaped(feed: Feed, s: State, c: nat)
    requires Shaped(feed, s) && c < feed.displays
    ensures Exec(feed, s, c).Some? ==> Shaped(feed, Exec(feed, s, c).value)
  {
  }

  ghost predicate BoundedRun(feed: Feed, schedule: seq<nat>)
    requires |feed.owner| == |feed.images|
  {
    schedule == [] ||
    (var s, c := Run(feed, schedule[..|schedule| - 1]), schedule[|schedule| - 1];
     && BoundedRun(feed, schedule[..|schedule| - 1])
     && (s.Some? && c < feed.displays ==> Bounded(feed, s.value, c)))
  }

  ghost predicate TameRun(feed: Feed, schedule: seq<nat>)
    requires |feed.owner| == |feed.images|
  {
    schedule == [] ||
    (var s, c := Run(feed, schedule[..|schedule| - 1]), schedule[|schedule| - 1];
     && TameRun(feed, schedule[..|schedule| - 1])
     && (s.Some? && c < feed.displays ==> Tame(feed, s.value, c)))
  }

  /** At no time has image 15 been decoded and image 0 not, unless 15 may refer to 0. */
  predicate ZeroFirst(feed: Feed, schedule: seq<nat>)
    requires |feed.owner| == |feed.images|
  {
    && (schedule != [] ==> ZeroFirst(feed, schedule[..|schedule| - 1]))
    && (Run(feed, schedule).Some? ==> ZeroFirstAt(feed, Run(feed, schedule).value))
  }

  lemma {:induction false} TameIsBounded(feed: Feed, schedule: seq<nat>)
    requires |feed.owner| == |feed.images| && TameRun(feed, schedule)
    ensures BoundedRun(feed, schedule)
  {
    if schedule != [] { TameIsBounded(feed, schedule[..|schedule| - 1]); }
  }

  lemma {:induction false} RunSmall(feed: Feed, schedule: seq<nat>)
    requires WellFormed(feed) && TameRun(feed, schedule) && Run(feed, schedule).Some?
    ensures SmallAtFirst(Run(feed, schedule).value)
  {
    if schedule != [] {
      var front := schedule[..|schedule| - 1];
      RunInv(feed, front);
      RunSmall(feed, front);
      StepStaysSmall(feed, Run(feed, front).value, schedule[|schedule| - 1]);
    }
  }

  /** A step is tame exactly if it leaves image 0 first. */
  lemma StepTameIff(feed: Feed, s: State, c: nat)
    requires Inv(feed, s) && SmallAtFirst(s) && ZeroFirstAt(feed, s)
    requires c < feed.displays && Exec(feed, s, c).Some? && Bounded(feed, s, c)
    ensures Shaped(feed, Exec(feed, s, c).value)
    ensures Tame(feed, s, c) <==> ZeroFirstAt(feed, Exec(feed, s, c).value)
  {
    if Ends(feed, s, c) {
      SafeIffZeroFirst(feed, s, c);
    } else {
      var s' := Exec(feed, s, c).value;
      assert s'.next == s.next;
    }
  }

  /** Which runs the eviction never misleads can be read off the order in which the images are
      decoded: exactly those in which image 0 comes before image 15, or image 15 may refer to it. */
  lemma {:induction false} TameIffZeroFirst(feed: Feed, schedule: seq<nat>)
    requires WellFormed(feed) && BoundedRun(feed, schedule) && Run(feed, schedule).Some?
    ensures TameRun(feed, schedule) <==> ZeroFirst(feed, schedule)
  {
    if schedule == [] {
      InitNothing(feed);
    } else {
      var front, c := schedule[..|schedule| - 1], schedule[|schedule| - 1];
      TameIffZeroFirst(feed, front);
      if TameRun(feed, front) {
        RunInv(feed, front);
        RunSmall(feed, front);
        StepTameIff(feed, Run(feed, front).value, c);
      }
    }
  }

  lemma InitNothing(feed: Feed)
    requires |feed.owner| == |feed.images|
    ensures forall k: nat :: !Decoded(feed, Init(feed), k)
  {
    var s := Init(feed);
    forall k: nat ensures !Decoded(feed, s, k) {
      if k < |feed.images| && feed.owner[k] < feed.displays {
        assert s.next[feed.owner[k]] == NextOwned(feed, feed.owner[k], 0);
      }
    }
  }

  /** A condition on the feed alone: images 0 and 15 go to one display, or 15 may refer to 0, or
      there is no image 15. */
  predicate InOrder(feed: Feed)
    requires |feed.owner| == |feed.images|
  {
    |feed.images| > 15 ==> feed.owner[0] == feed.owner[15] || feed.images[15].headDist == 15
  }

  lemma {:induction false} InOrderIsZeroFirst(feed: Feed, schedule: seq<nat>)
    requires WellFormed(feed) && InOrder(feed)
    ensures ZeroFirst(feed, schedule)
  {
    if schedule != [] { InOrderIsZeroFirst(feed, schedule[..|schedule| - 1]); }
  }

  /** With such a feed every bounded run is tame. */
  lemma InOrderIsTame(feed: Feed, schedule: seq<nat>)
    requires WellFormed(feed) && InOrder(feed) && BoundedRun(feed, schedule) && Run(feed, schedule).Some?
    ensures TameRun(feed, schedule)
  {
    InOrderIsZeroFirst(feed, schedule);
    TameIffZeroFirst(feed, schedule);
  }

  lemma {:induction false} RunInv(feed: Feed, schedule: seq<nat>)
    requires WellFormed(feed) && TameRun(feed, schedule) && Run(feed, schedule).Some?
    ensures Inv(feed, Run(feed, schedule).value)
  {
    if schedule == [] {
      InitInv(feed);
    } else {
      var s, c := Run(feed, schedule[..|schedule| - 1]).value, schedule[|schedule| - 1];
      RunInv(feed, schedule[..|schedule| - 1]);
      if Ends(feed, s, c) { EndInv(feed, s, c); } else { TokenInv(feed, s, c); }
    }
  }

  lemma TokenRight(feed: Feed, s: State, c: nat)
    requires Right(feed, s) && c < feed.displays && Exec(feed, s, c).Some? && !Ends(feed, s, c)
    ensures Right(feed, Exec(feed, s, c).value)
  {
    TokenAgrees(feed, s, c);
    var s' := Exec(feed, s, c).value;
    forall d | 0 <= d < feed.displays ensures DisplayOk(feed, s', d) { assert DisplayOk(feed, s, d); }
    forall k: nat | W.Holds(s'.win, k) ensures HeldRight(feed, s', k) { assert HeldRight(feed, s, k); }
  }

  lemma EndRight(feed: Feed, s: State, c: nat)
    requires Right(feed, s) && c < feed.displays && Exec(feed, s, c).Some? && Ends(feed, s, c)
    ensures Right(feed, Exec(feed, s, c).value)
  {
    var k, s' := s.next[c], Exec(feed, s, c).value;
    assert DisplayOk(feed, s, c);
    assert Sequential(feed, k) == Some(s.work[c].base);
    forall d | 0 <= d < feed.displays ensures DisplayOk(feed, s', d) { assert DisplayOk(feed, s, d); }
    forall j: nat | W.Holds(s'.win, j) ensures HeldRight(feed, s', j) {
      W.FoundBefore(s.win, ImageOf(feed, k, s.work[c].base), j);
      assert W.Holds(s.win, j) ==> HeldRight(feed, s, j);
    }
  }

  lemma {:induction false} RunRight(feed: Feed, schedule: seq<nat>)
    requires WellFormed(feed) && Run(feed, schedule).Some?
    ensures Right(feed, Run(feed, schedule).value)
  {
    if schedule == [] {
      InitInv(feed);
      InvIsRight(feed, Init(feed));
    } else {
      var s, c := Run(feed, schedule[..|schedule| - 1]).value, schedule[|schedule| - 1];
      RunRight(feed, schedule[..|schedule| - 1]);
      if Ends(feed, s, c) { EndRight(feed, s, c); } else { TokenRight(feed, s, c); }
    }
  }

  /** However the displays interleave, every image decodes to the pixels that decoding the
      images one after the other in id order gives: in every run, also in one that collides in
      the table, jumps the gap, evicts too much, or gets stuck. */
  lemma Confluence(feed: Feed, schedule: seq<nat>, k: nat)
    requires WellFormed(feed) && Run(feed, schedule).Some?
    requires k in Run(feed, schedule).value.done
    ensures k < |feed.images| && Sequential(feed, k) == Some(Run(feed, schedule).value.done[k])
  {
    RunRight(feed, schedule);
  }

  // ---------------------------------------------------------------- progress

  /** Nothing that an image still to be decoded may refer to is missing because of an eviction. */
  lemma Retention(feed: Feed, schedule: seq<nat>, k: nat, j: nat)
    requires WellFormed(feed) && BoundedRun(feed, schedule) && ZeroFirst(feed, schedule) && Run(feed, schedule).Some?
    requires k < |feed.images| && !Decoded(feed, Run(feed, schedule).value, k) && Low(feed, k) <= j < k
    ensures var s := Run(feed, schedule).value;
            Decoded(feed, s, j) <==> W.Holds(s.win, j)
  {
    TameIffZeroFirst(feed, schedule);
    RunInv(feed, schedule);
    var s := Run(feed, schedule).value;
    assert s.win.oldest <= Low(feed, k);
    assert W.Holds(s.win, j) ==> W.Received(s.win, j);
  }

  /** While images are missing, the display that has the least of them is not blocked, and its
      step is one that the window expects: no run gets stuck. */
  lemma Progress(feed: Feed, s: State, m: nat)
    requires Inv(feed, s) && m < |feed.images| && !Decoded(feed, s, m)
    requires forall j: nat :: j < m ==> Decoded(feed, s, j)
    ensures var c := feed.owner[m];
            && s.next[c] == m
            && Exec(feed, s, c).Some? && Tame(feed, s, c)
  {
    var c := feed.owner[m];
    assert DisplayOk(feed, s, c);
    assert !Decoded(feed, s, s.next[c]);
    assert s.next[c] == m;
    var ci, w, env := feed.images[m], s.work[c], SequentialEnv(feed, m);
    if Finished(ci, w) {
      EndPixels(feed, s, c);
      LeastIsWelcome(feed, s, m);
    } else {
      if Needs(ci, m, w).Some? {
        AdvanceNeeds(ci, env, m, w);
        var j := Needs(ci, m, w).value;
        assert Decoded(feed, s, j) && j >= s.win.oldest;
      }
      InvIsRight(feed, s);
      TokenAgrees(feed, s, c);
    }
  }

  /** The least missing image can be added: it is less than a table ahead of the gap, and
      once it is in, the gap is past 0. */
  lemma LeastIsWelcome(feed: Feed, s: State, m: nat)
    requires Inv(feed, s) && m < |feed.images| && !Decoded(feed, s, m)
    requires forall j: nat :: j < m ==> Decoded(feed, s, j)
    ensures W.Welcome(s.win, ImageOf(feed, m, Sequential(feed, m).value))
  {
    var w, img := s.win, ImageOf(feed, m, Sequential(feed, m).value);
    assert !W.Received(w, m);
    assert w.tailGap == 0 ==> m == 0 by { assert W.Received(w, 0) <==> Decoded(feed, s, 0); }
    W.HeldFits(w, m);
    W.BoundAdmits(w, m);
    W.AddKeeps(w, img);
    assert W.Lookup(W.Add(w, img), m) == Some(img);
  }

  // ---------------------------------------------------------------- completion

  /** An upper bound of the steps that the rest of an image takes. */
  function Left(ci: Compressed, w: Work): nat {
    var all := if Finished(ci, w) then 0 else if w.pass + 2 == Passes(ci) then 2 * ci.size else ci.size;
    if |w.cur.out| < all then all - |w.cur.out| else 0
  }

  function Cost(feed: Feed, s: State, k: nat): nat
    requires Shaped(feed, s) && k < |feed.images|
  {
    if Decoded(feed, s, k) then 0
    else if feed.owner[k] < feed.displays && k == s.next[feed.owner[k]] then 1 + Left(feed.images[k], s.work[feed.owner[k]])
    else 1 + Left(feed.images[k], START)
  }

  function TotalCost(feed: Feed, s: State, n: nat): nat
    requires Shaped(feed, s) && n <= |feed.images|
  {
    if n == 0 then 0 else TotalCost(feed, s, n - 1) + Cost(feed, s, n - 1)
  }

  lemma {:induction false} TotalDrops(feed: Feed, s: State, s': State, k: nat, n: nat)
    requires Shaped(feed, s) && Shaped(feed, s') && k < |feed.images| && n <= |feed.images|
    requires forall j :: 0 <= j < |feed.images| && j != k ==> Cost(feed, s', j) <= Cost(feed, s, j)
    requires Cost(feed, s', k) < Cost(feed, s, k)
    ensures TotalCost(feed, s', n) <= TotalCost(feed, s, n)
    ensures k < n ==> TotalCost(feed, s', n) < TotalCost(feed, s, n)
  {
    if n > 0 { TotalDrops(feed, s, s', k, n - 1); }
  }

  lemma TokenDrops(feed: Feed, s: State, c: nat)
    requires Inv(feed, s) && c < feed.displays && Exec(feed, s, c).Some? && !Ends(feed, s, c)
    ensures TotalCost(feed, Exec(feed, s, c).value, |feed.images|) < TotalCost(feed, s, |feed.images|)
  {
    var k, s' := s.next[c], Exec(feed, s, c).value;
    assert DisplayOk(feed, s, c);
    assert Left(feed.images[k], s'.work[c]) < Left(feed.images[k], s.work[c]);
    TotalDrops(feed, s, s', k, |feed.images|);
  }

  lemma EndDrops(feed: Feed, s: State, c: nat)
    requires Inv(feed, s) && c < feed.displays && Exec(feed, s, c).Some? && Ends(feed, s, c)
    ensures TotalCost(feed, Exec(feed, s, c).value, |feed.images|) < TotalCost(feed, s, |feed.images|)
  {
    var k, s' := s.next[c], Exec(feed, s, c).value;
    assert DisplayOk(feed, s, c);
    EndDecodes(feed, s, c, k);
    forall j | 0 <= j < |feed.images| && j != k ensures Cost(feed, s', j) <= Cost(feed, s, j) {
      EndDecodes(feed, s, c, j);
    }
    TotalDrops(feed, s, s', k, |feed.images|);
  }

  /** Every step keeps the invariant and brings the end nearer. */
  lemma StepDrops(feed: Feed, s: State, c: nat)
    requires Inv(feed, s) && c < feed.displays && Exec(feed, s, c).Some? && Tame(feed, s, c)
    ensures Inv(feed, Exec(feed, s, c).value)
    ensures TotalCost(feed, Exec(feed, s, c).value, |feed.images|) < TotalCost(feed, s, |feed.images|)
  {
    if Ends(feed, s, c) {
      EndInv(feed, s, c);
      EndDrops(feed, s, c);
    } else {
      TokenInv(feed, s, c);
      TokenDrops(feed, s, c);
    }
  }

  ghost predicate AllDone(feed: Feed, s: State)
  {
    forall k: nat :: k < |feed.images| ==> k in s.done && Sequential(feed, k) == Some(s.done[k])
  }

  lemma RunSnoc(feed: Feed, schedule: seq<nat>, s: State, c: nat)
    requires |feed.owner| == |feed.images| && TameRun(feed, schedule) && Run(feed, schedule) == Some(s)
    requires c < feed.displays && Tame(feed, s, c)
    ensures TameRun(feed, schedule + [c]) && Run(feed, schedule + [c]) == Exec(feed, s, c)
  {
    var more := schedule + [c];
    assert more[..|more| - 1] == schedule;
  }

  lemma {:induction false} CompleteFrom(feed: Feed, schedule: seq<nat>, s: State) returns (full: seq<nat>)
    requires Inv(feed, s) && TameRun(feed, schedule) && Run(feed, schedule) == Some(s)
    ensures schedule <= full && TameRun(feed, full) && Run(feed, full).Some? && AllDone(feed, Run(feed, full).value)
    decreases TotalCost(feed, s, |feed.images|)
  {
    if k: nat :| k < |feed.images| && !Decoded(feed, s, k) {
      var m := Least(feed, s, k);
      var c := feed.owner[m];
      Progress(feed, s, m);
      StepDrops(feed, s, c);
      RunSnoc(feed, schedule, s, c);
      full := CompleteFrom(feed, schedule + [c], Exec(feed, s, c).value);
    } else {
      full := schedule;
    }
  }

  /** Every run can be completed, and when it is, all images have been decoded, to the pixels
      of sequential decoding. */
  lemma Completion(feed: Feed, schedule: seq<nat>) returns (full: seq<nat>)
    requires WellFormed(feed) && BoundedRun(feed, schedule) && ZeroFirst(feed, schedule) && Run(feed, schedule).Some?
    ensures schedule <= full && BoundedRun(feed, full) && ZeroFirst(feed, full)
    ensures Run(feed, full).Some? && AllDone(feed, Run(feed, full).value)
  {
    TameIffZeroFirst(feed, schedule);
    RunInv(feed, schedule);
    full := CompleteFrom(feed, schedule, Run(feed, schedule).value);
    TameIsBounded(feed, full);
    TameIffZeroFirst(feed, full);
  }

  lemma {:induction false} Least(feed: Feed, s: State, k: nat) returns (m: nat)
    requires Shaped(feed, s) && k < |feed.images| && !Decoded(feed, s, k)
    ensures m <= k && !Decoded(feed, s, m) && forall j: nat :: j < m ==> Decoded(feed, s, j)
  {
    if j: nat :| j < k && !Decoded(feed, s, j) {
      m := Least(feed, s, j);
    } else {
      m := k;
    }
  }
}
