/**
 Two displays that get stuck. Image 15 arrives before image 0, so that the gap is still at 0;
 the unsigned tailGap - 1 then names the last slot, where image 15 is, and its header evicts
 image 1, which image 2 still refers to.
 */
module GlzDeadlock {
  import opened Common
  import opened GlzToken
  import opened GlzDecode
  import opened GlzFormats
  import opened GlzImage
  import opened GlzProtocol
  import W = GlzWindow

  const PIXEL: Pixel := Pixel(1, 2, 3, 0)

  function HeadDist(k: nat): nat { if k <= 1 then k else if k == 2 then 1 else k - 2 }

  /** One pixel each: a literal, except that image 2 copies the pixel of image 1. */
  function ImageAt(k: nat): Compressed {
    Compressed(HeadDist(k), Rgb32, [], 1, if k == 2 then [32, 0, 1] else [0, 1, 2, 3])
  }

  function OwnerOf(k: nat): nat { if k == 1 || k == 15 then 1 else 0 }

  function Example(): Feed {
    Feed(seq(16, k requires 0 <= k => ImageAt(k)), seq(16, k requires 0 <= k => OwnerOf(k)), 2)
  }

  lemma LiteralImage(env: map<nat, seq<Pixel>>, k: nat)
    requires k != 2
    ensures Advance(ImageAt(k), env, k, START) == Some(Work(1, Cursor(4, []), [PIXEL]))
    ensures Finish(ImageAt(k), env, k, START) == Some([PIXEL])
  {
    var input := ImageAt(k).bytes;
    var c := PassCodec(ImageAt(k), 0);
    assert ParseToken(input, 0) == Some((Literal(1), 1));
    assert input[1..1 + c.unit] == [1, 2, 3];
    assert c.cells([1, 2, 3]) == [PIXEL] && [] + [PIXEL] == [PIXEL];
    assert ReadGroup(c, input, 1, Cursor(1, [])) == Some(Cursor(4, [PIXEL]));
    assert ReadLiterals(c, input, 1, Cursor(1, []), 1) == Some(Cursor(4, [PIXEL]));
  }

  lemma ReferringToken()
    ensures ParseToken(ImageAt(2).bytes, 0) == Some((Reference(1, 0, 1), 3))
  {
    var input := ImageAt(2).bytes;
    assert LengthOf(input, 1, 32) == Some((1, 1));
    assert ReadFields(input, 1, false) == Some((Fields(0, 1, 0, 0), 3));
  }

  lemma ReferringImage(env: map<nat, seq<Pixel>>)
    requires 1 in env && env[1] == [PIXEL]
    ensures Finish(ImageAt(2), env, 2, START) == Some([PIXEL])
  {
    ReferringToken();
    var c, view := PassCodec(ImageAt(2), 0), ViewEnv(Rgb32, env);
    assert view[1] == [PIXEL] && [] + [PIXEL][0..1] == [PIXEL];
    assert Match(c, view, 2, 1, [], Reference(1, 0, 1)) == Some([PIXEL]);
    assert Advance(ImageAt(2), env, 2, START) == Some(Work(1, Cursor(3, []), [PIXEL]));
  }

  lemma {:induction false} ExampleSequential(k: nat)
    requires k < 16
    ensures Sequential(Example(), k) == Some([PIXEL])
  {
    var env := SequentialEnv(Example(), k);
    if k == 2 {
      ExampleSequential(1);
      ReferringImage(env);
    } else {
      LiteralImage(env, k);
    }
  }

  lemma ExampleWellFormed()
    ensures WellFormed(Example())
  {
    forall k | 0 <= k < 16 ensures Sequential(Example(), k).Some? { ExampleSequential(k); }
  }

  // ---------------------------------------------------------------- the run

  /** A display decodes a literal image in two steps. */
  lemma TwoSteps(s: State, c: nat, k: nat, next: nat)
    requires Shaped(Example(), s) && c < 2 && s.next[c] == k < 16 && k != 2 && s.work[c] == START
    requires next == NextOwned(Example(), c, k + 1)
    ensures var s1 := s.(work := s.work[c := Work(1, Cursor(4, []), [PIXEL])]);
            && Exec(Example(), s, c) == Some(s1)
            && Ends(Example(), s1, c)
            && Exec(Example(), s1, c)
               == Some(State(W.Enter(s.win, ImageOf(Example(), k, [PIXEL])), s.next[c := next], s.work[c := START],
                             s.done[k := [PIXEL]]))
  {
    LiteralImage(W.Live(s.win), k);
    assert s.work[c := Work(1, Cursor(4, []), [PIXEL])][c := START] == s.work[c := START];
  }

  function Img(k: nat): W.Image { W.Image(k, HeadDist(k), [PIXEL]) }

  /** The window after images 1, 15 and 0. */
  function Three(): W.Window { W.Enter(W.Enter(W.Enter(W.Fresh(), Img(1)), Img(15)), Img(0)) }

  lemma First()
    ensures W.Enter(W.Fresh(), Img(1)) == W.Window(W.Fresh().slots[1 := Some(Img(1))], 0, 0)
  {
    assert W.Place(W.Fresh(), Img(1)) == W.Window(W.Fresh().slots[1 := Some(Img(1))], 0, 0);
  }

  lemma Second()
    ensures W.Enter(W.Enter(W.Fresh(), Img(1)), Img(15)) == W.Window(W.Fresh().slots[15 := Some(Img(15))], 2, 0)
  {
    First();
    var w := W.Window(W.Fresh().slots[1 := Some(Img(1))], 0, 0);
    var w1 := W.Window(w.slots[15 := Some(Img(15))], 0, 0);
    assert W.Place(w, Img(15)) == w1;
    assert W.Add(w, Img(15)) == w1;
    assert W.Evict(w1) == W.Release(w1, 2);
    var w2 := W.Window(w1.slots[0 := None], 1, 0);
    assert W.Release(w1, 2) == W.Release(w2, 2);
    var w3 := W.Window(w2.slots[1 := None], 2, 0);
    assert W.Release(w2, 2) == W.Release(w3, 2) == w3;
    assert w3.slots == W.Fresh().slots[15 := Some(Img(15))];
  }

  lemma Third()
    ensures Three().tailGap == 1 && !W.Holds(Three(), 1) && |Three().slots| == 16
  {
    Second();
    var w := W.Window(W.Fresh().slots[15 := Some(Img(15))], 2, 0);
    ThirdAdded(w);
    ThirdEvicted(W.Add(w, Img(0)));
  }

  lemma ThirdEvicted(w: W.Window)
    requires w == W.Window(W.Fresh().slots[15 := Some(Img(15))][0 := Some(Img(0))], 2, 1)
    ensures W.Evict(w) == w
  {
    assert W.TailSlot(w) == 0;
    assert W.Release(w, 0) == w;
  }

  lemma ThirdAdded(w: W.Window)
    requires w == W.Window(W.Fresh().slots[15 := Some(Img(15))], 2, 0)
    ensures W.Add(w, Img(0)) == W.Window(w.slots[0 := Some(Img(0))], 2, 1)
  {
    var w1 := W.Window(w.slots[0 := Some(Img(0))], 2, 0);
    assert W.Place(w, Img(0)) == w1;
    var w2 := w1.(tailGap := 1);
    assert W.CloseGap(w1, 0) == W.CloseGap(w2, 0) == w2;
  }

  lemma Owners()
    ensures NextOwned(Example(), 0, 0) == 0 && NextOwned(Example(), 1, 0) == 1
    ensures NextOwned(Example(), 1, 2) == 15 && NextOwned(Example(), 1, 16) == 16 && NextOwned(Example(), 0, 1) == 2
  {
    var feed := Example();
    assert feed.owner[0] == 0 && feed.owner[1] == 1 && feed.owner[2] == 0 && feed.owner[15] == 1;
    var a, b, c := NextOwned(feed, 1, 0), NextOwned(feed, 1, 2), NextOwned(feed, 0, 1);
    assert feed.owner[a] == 1 && feed.owner[b] == 1 && feed.owner[c] == 0;
  }

  /** Display 1 decodes images 1 and 15, then display 0 decodes image 0. */
  const SCHEDULE: seq<nat> := [1, 1, 1, 1, 0, 0]

  function Stuck(): State {
    State(Three(), [2, 16], [START, START], map[1 := [PIXEL], 15 := [PIXEL], 0 := [PIXEL]])
  }

  /** The one token of an image has been taken. */
  function Token(s: State, c: nat): State
    requires c < |s.work|
  {
    s.(work := s.work[c := Work(1, Cursor(4, []), [PIXEL])])
  }

  /** The states before the first step, after 2 steps, and after 4. */
  function Begin(): State { State(W.Fresh(), [0, 1], [START, START], map[]) }

  function After1(): State {
    State(W.Enter(W.Fresh(), Img(1)), [0, 15], [START, START], map[1 := [PIXEL]])
  }

  function After15(): State {
    State(W.Enter(W.Enter(W.Fresh(), Img(1)), Img(15)), [0, 16], [START, START], map[1 := [PIXEL], 15 := [PIXEL]])
  }

  lemma RunImage(schedule: seq<nat>, s: State, c: nat, k: nat, next: nat)
    requires BoundedRun(Example(), schedule) && Run(Example(), schedule) == Some(s)
    requires Shaped(Example(), s) && c < 2 && s.next[c] == k < 16 && k != 2 && s.work[c] == START
    requires next == NextOwned(Example(), c, k + 1)
    requires k < s.win.tailGap + |s.win.slots|
    ensures BoundedRun(Example(), schedule + [c, c])
    ensures Run(Example(), schedule + [c, c])
            == Some(State(W.Enter(s.win, Img(k)), s.next[c := next], s.work[c := START], s.done[k := [PIXEL]]))
  {
    TwoSteps(s, c, k, next);
    var one, two := schedule + [c], schedule + [c, c];
    assert one[..|one| - 1] == schedule && two[..|two| - 1] == one;
    assert Run(Example(), one) == Some(Token(s, c));
    assert ImageOf(Example(), k, [PIXEL]) == Img(k);
    assert BoundedRun(Example(), one);
  }

  lemma Run1()
    ensures BoundedRun(Example(), [1, 1]) && Run(Example(), [1, 1]) == Some(After1())
  {
    Owners();
    assert Init(Example()) == Begin();
    assert Run(Example(), []) == Some(Begin());
    RunImage([], Begin(), 1, 1, 15);
    assert [] + [1, 1] == [1, 1];
    assert [0, 1][1 := 15] == [0, 15] && [START, START][1 := START] == [START, START];
  }

  lemma Run15()
    ensures BoundedRun(Example(), [1, 1, 1, 1]) && Run(Example(), [1, 1, 1, 1]) == Some(After15())
  {
    Run1();
    Owners();
    First();
    RunImage([1, 1], After1(), 1, 15, 16);
    assert [1, 1] + [1, 1] == [1, 1, 1, 1];
    assert [0, 15][1 := 16] == [0, 16] && [START, START][1 := START] == [START, START];
  }

  lemma AwaitsZero()
    ensures var w := After15().win; 0 < w.tailGap + |w.slots|
  {
    Second();
  }

  lemma StuckParts()
    ensures [1, 1, 1, 1] + [0, 0] == SCHEDULE
    ensures [0, 16][0 := 2] == [2, 16] && [START, START][0 := START] == [START, START]
  {
  }

  lemma RunStuck()
    ensures BoundedRun(Example(), SCHEDULE) && Run(Example(), SCHEDULE) == Some(Stuck())
  {
    Run15();
    Owners();
    AwaitsZero();
    RunImage([1, 1, 1, 1], After15(), 0, 0, 2);
    StuckParts();
  }

  lemma StuckBlocked(c: nat)
    requires c < 2
    ensures Blocked(Example(), Stuck(), c)
  {
    Third();
    if c == 0 {
      ReferringToken();
      assert Example().images[2] == ImageAt(2);
      assert Needs(ImageAt(2), 2, START) == Some(1);
    }
  }

  /** Image 15 was decoded before image 0. */
  lemma FifteenFirst()
    ensures !ZeroFirst(Example(), SCHEDULE)
  {
    Run15();
    var before := SCHEDULE[..5];
    assert SCHEDULE[..|SCHEDULE| - 1] == before && before[..|before| - 1] == [1, 1, 1, 1];
    assert Example().owner[15] == 1 && Example().owner[0] == 0 && Example().images[15] == ImageAt(15);
    assert !ZeroFirstAt(Example(), After15());
  }

  /** A run that keeps every assumption but one and ends with both displays blocked for good:
      image 2 waits for image 1, which has been decoded and thrown away. */
  lemma Deadlock()
    ensures WellFormed(Example())
    ensures BoundedRun(Example(), SCHEDULE) && !ZeroFirst(Example(), SCHEDULE)
    ensures Run(Example(), SCHEDULE) == Some(Stuck())
    ensures Decoded(Example(), Stuck(), 1) && !Decoded(Example(), Stuck(), 2)
    ensures forall c: nat :: c < Example().displays ==> Blocked(Example(), Stuck(), c)
  {
    ExampleWellFormed();
    RunStuck();
    FifteenFirst();
    forall c: nat | c < 2 ensures Blocked(Example(), Stuck(), c) { StuckBlocked(c); }
    assert Example().owner[1] == 1 && Example().owner[2] == 0;
  }

  /** The same feed, its displays moving in another order, decodes all its images: what is assumed
      of a run can be met, and the outcome above is due to the order of arrival alone. */
  lemma OtherOrderCompletes() returns (schedule: seq<nat>)
    ensures WellFormed(Example()) && BoundedRun(Example(), schedule) && Run(Example(), schedule).Some?
    ensures AllDone(Example(), Run(Example(), schedule).value)
  {
    ExampleWellFormed();
    assert BoundedRun(Example(), []) && Run(Example(), []).Some?;
    InitNothing(Example());
    schedule := Completion(Example(), []);
  }
}
