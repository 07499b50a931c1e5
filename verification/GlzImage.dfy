/**
 The decoding of one image: one pass, or for RGBA two passes over the same bytes and buffer,
 as a machine that takes a token at a time, as its overall result, and as it runs.
 */
module GlzImage {
  import opened Common
  import opened GlzToken
  import opened GlzDecode
  import opened GlzFormats
  import opened GlzTable
  import opened GlzLoop
  import W = GlzWindow

  /** A received image, its header already read. Format RgbAlpha stands for both passes. */
  datatype Compressed = Compressed(headDist: nat, format: Format, palette: Palette, size: nat, bytes: seq<byte>)

  /** Where a decoder stands: the pass, the position in it, and the pixels of the passes behind it. */
  datatype Work = Work(pass: nat, cur: Cursor<Pixel>, base: seq<Pixel>)

  const START: Work := Work(0, Cursor(0, []), [])

  function Passes(ci: Compressed): nat { if ci.format.RgbAlpha? then 2 else 1 }

  function PassFormat(ci: Compressed, pass: nat): Format {
    if ci.format.RgbAlpha? && pass == 0 then Rgb32 else ci.format
  }

  function PassCodec(ci: Compressed, pass: nat): (c: Codec<Pixel>)
    ensures c.Valid()
  {
    CodecOf(PassFormat(ci, pass), if ci.format.RgbAlpha? then [] else ci.palette)
  }

  /** The buffer after a pass: the alpha pass changes the pad bytes alone. */
  function Overlay(f: Format, base: seq<Pixel>, out: seq<Pixel>): seq<Pixel> {
    if f.RgbAlpha? && |base| == |out|
    then seq(|out|, i requires 0 <= i < |out| => base[i].(pad := out[i].pad)) else out
  }

  predicate Finished(ci: Compressed, w: Work) { w.pass >= Passes(ci) }

  /** The next token. */
  function Advance(ci: Compressed, env: map<nat, seq<Pixel>>, id: nat, w: Work): (r: Option<Work>)
    ensures r.Some? ==> w.pass < Passes(ci)
    ensures r.Some? ==> r.value.pass == w.pass + 1 || (r.value.pass == w.pass && |w.cur.out| < |r.value.cur.out| <= ci.size)
  {
    if Finished(ci, w) then None else
    var f := PassFormat(ci, w.pass);
    match Step(PassCodec(ci, w.pass), ViewEnv(f, env), id, ci.bytes, ci.size, w.cur)
    case None => None
    case Some(c) =>
      if |c.out| < ci.size then Some(w.(cur := c))
      else Some(Work(w.pass + 1, Cursor(c.ip, []), Overlay(f, w.base, c.out)))
  }

  /** The pixels that the decoder ends up with. */
  function Finish(ci: Compressed, env: map<nat, seq<Pixel>>, id: nat, w: Work): Option<seq<Pixel>>
    decreases if w.pass < Passes(ci) then Passes(ci) - w.pass else 0,
              if |w.cur.out| < ci.size then ci.size - |w.cur.out| else 0
  {
    if Finished(ci, w) then Some(w.base) else
    match Advance(ci, env, id, w)
    case None => None
    case Some(w') => Finish(ci, env, id, w')
  }

  // ---------------------------------------------------------------- pass by pass

  /** A whole pass. */
  function DecodePass(ci: Compressed, env: map<nat, seq<Pixel>>, id: nat, w: Work): Option<Work>
  {
    var f := PassFormat(ci, w.pass);
    match Decode(PassCodec(ci, w.pass), ViewEnv(f, env), id, ci.bytes, ci.size, w.cur)
    case None => None
    case Some(c) => Some(Work(w.pass + 1, Cursor(c.ip, []), Overlay(f, w.base, c.out)))
  }

  lemma {:induction false} FinishByPass(ci: Compressed, env: map<nat, seq<Pixel>>, id: nat, w: Work)
    requires w.pass < Passes(ci)
    ensures Finish(ci, env, id, w) ==
            match DecodePass(ci, env, id, w)
            case None => None
            case Some(w') => Finish(ci, env, id, w')
    decreases if |w.cur.out| < ci.size then ci.size - |w.cur.out| else 0
  {
    var f := PassFormat(ci, w.pass);
    var s := Step(PassCodec(ci, w.pass), ViewEnv(f, env), id, ci.bytes, ci.size, w.cur);
    if s.Some? && |s.value.out| < ci.size {
      FinishByPass(ci, env, id, w.(cur := s.value));
    }
  }

  /** The result of an image is the result of its passes, one after the other. */
  function Pixels(ci: Compressed, env: map<nat, seq<Pixel>>, id: nat): Option<seq<Pixel>> {
    var first := DecodePass(ci, env, id, START);
    if first.None? then None
    else if Passes(ci) == 1 then Some(first.value.base)
    else
      var second := DecodePass(ci, env, id, first.value);
      if second.None? then None else Some(second.value.base)
  }

  lemma FinishIsPixels(ci: Compressed, env: map<nat, seq<Pixel>>, id: nat)
    ensures Finish(ci, env, id, START) == Pixels(ci, env, id)
  {
    FinishByPass(ci, env, id, START);
    var first := DecodePass(ci, env, id, START);
    if first.Some? && Passes(ci) == 2 {
      FinishByPass(ci, env, id, first.value);
    }
  }

  // ---------------------------------------------------------------- what the pixels are

  /** The pixels of an image, told by its format: RGBA images have the colours and the alpha values
      of their two planes, all others are the pixels of one stream. */
  ghost predicate IsDecoded(ci: Compressed, env: map<nat, seq<Pixel>>, id: nat, ps: seq<Pixel>) {
    if ci.format.RgbAlpha? then HasPlanes(ci, env, id, ps) else IsStream(ci, env, id, ps)
  }

  ghost predicate HasPlanes(ci: Compressed, env: map<nat, seq<Pixel>>, id: nat, ps: seq<Pixel>) {
    Planes(env, id, ci.bytes, 0, ci.size).Some?
    && Planes(env, id, ci.bytes, 0, ci.size).value.0 == Colours(ps) && Planes(env, id, ci.bytes, 0, ci.size).value.1 == Pads(ps)
  }

  ghost predicate IsStream(ci: Compressed, env: map<nat, seq<Pixel>>, id: nat, ps: seq<Pixel>) {
    var end := Decode(CodecOf(ci.format, ci.palette), env, id, ci.bytes, ci.size, Cursor(0, []));
    end.Some? && end.value.out == ps
  }

  lemma StreamPixels(ci: Compressed, env: map<nat, seq<Pixel>>, id: nat, ps: seq<Pixel>)
    requires !ci.format.RgbAlpha?
    ensures Pixels(ci, env, id) == Some(ps) <==> IsStream(ci, env, id, ps)
  {
    ViewsAsIs(ci.format, env);
  }

  lemma ViewsAsIs(f: Format, env: map<nat, seq<Pixel>>)
    requires !f.RgbAlpha?
    ensures ViewEnv(f, env) == env
  {
    forall k | k in env ensures ViewAll(f, env[k]) == env[k] {}
  }

  /** The pixels with these colours and these pad bytes. */
  lemma OverlayIs(base: seq<Pixel>, pads: seq<byte>, ps: seq<Pixel>)
    requires |base| == |pads|
    ensures Overlay(RgbAlpha, base, PadPixels(pads)) == ps <==> Colours(base) == Colours(ps) && pads == Pads(ps)
  {
    var all := Overlay(RgbAlpha, base, PadPixels(pads));
    assert |PadPixels(pads)| == |pads|;
    if all == ps {
      assert Colours(base) == Colours(ps) && pads == Pads(ps);
    }
    if Colours(base) == Colours(ps) && pads == Pads(ps) {
      assert |ps| == |Pads(ps)|;
      forall i | 0 <= i < |ps| ensures all[i] == ps[i] {
        assert Colours(base)[i] == Colours(ps)[i] && pads[i] == Pads(ps)[i];
      }
    }
  }

  lemma PlanePixels(ci: Compressed, env: map<nat, seq<Pixel>>, id: nat, ps: seq<Pixel>)
    requires ci.format.RgbAlpha?
    ensures Pixels(ci, env, id) == Some(ps) <==> HasPlanes(ci, env, id, ps)
  {
    FirstPass(ci, env, id);
    var rgb := Decode(CodecOf(Rgb32, []), env, id, ci.bytes, ci.size, Cursor(0, []));
    ColourPlane(env, id, ci.bytes, ci.size, 0);
    if rgb.Some? {
      SecondPass(ci, env, id, rgb.value);
      AlphaPlane(env, id, ci.bytes, ci.size, rgb.value.ip);
      var alpha := Decode(ByteCodec(), PadEnv(env), id, ci.bytes, ci.size, Cursor(rgb.value.ip, []));
      if alpha.Some? { OverlayIs(rgb.value.out, alpha.value.out, ps); }
    }
  }

  /** The first pass of an RGBA image is over the RGB stream. */
  lemma FirstPass(ci: Compressed, env: map<nat, seq<Pixel>>, id: nat)
    requires ci.format.RgbAlpha?
    ensures var rgb := Decode(CodecOf(Rgb32, []), env, id, ci.bytes, ci.size, Cursor(0, []));
            DecodePass(ci, env, id, START) == match rgb case None => None case Some(c) => Some(Work(1, Cursor(c.ip, []), c.out))
  {
    ViewsAsIs(Rgb32, env);
  }

  /** The second pass is over the alpha stream, which starts where the RGB stream ends. */
  lemma SecondPass(ci: Compressed, env: map<nat, seq<Pixel>>, id: nat, rgb: Cursor<Pixel>)
    requires ci.format.RgbAlpha?
    ensures var alpha := Decode(CodecOf(RgbAlpha, []), ViewEnv(RgbAlpha, env), id, ci.bytes, ci.size, Cursor(rgb.ip, []));
            DecodePass(ci, env, id, Work(1, Cursor(rgb.ip, []), rgb.out))
            == match alpha case None => None case Some(c) => Some(Work(2, Cursor(c.ip, []), Overlay(RgbAlpha, rgb.out, c.out)))
  {
  }

  lemma PixelsIff(ci: Compressed, env: map<nat, seq<Pixel>>, id: nat, ps: seq<Pixel>)
    ensures Pixels(ci, env, id) == Some(ps) <==> IsDecoded(ci, env, id, ps)
  {
    if ci.format.RgbAlpha? { PlanePixels(ci, env, id, ps); } else { StreamPixels(ci, env, id, ps); }
  }

  // ---------------------------------------------------------------- what a token depends on

  /** The image that the next token waits for. */
  function Needs(ci: Compressed, id: nat, w: Work): Option<nat> {
    match ParseToken(ci.bytes, w.cur.ip)
    case Some((Reference(_, _, dist), _)) => if 0 < dist <= id then Some(id - dist) else None
    case _ => None
  }

  predicate Agree(env: map<nat, seq<Pixel>>, env': map<nat, seq<Pixel>>, j: nat) {
    (j in env <==> j in env') && (j in env ==> env[j] == env'[j])
  }

  /** A token looks at no other image. */
  lemma AdvanceDepends(ci: Compressed, env: map<nat, seq<Pixel>>, env': map<nat, seq<Pixel>>, id: nat, w: Work)
    requires Needs(ci, id, w).Some? ==> Agree(env, env', Needs(ci, id, w).value)
    ensures Advance(ci, env, id, w) == Advance(ci, env', id, w)
  {
    var f := PassFormat(ci, w.pass);
    var c := PassCodec(ci, w.pass);
    assert Step(c, ViewEnv(f, env), id, ci.bytes, ci.size, w.cur) == Step(c, ViewEnv(f, env'), id, ci.bytes, ci.size, w.cur);
  }

  /** A token that needs an image can only be taken when the image is there. */
  lemma AdvanceNeeds(ci: Compressed, env: map<nat, seq<Pixel>>, id: nat, w: Work)
    requires Advance(ci, env, id, w).Some? && Needs(ci, id, w).Some?
    ensures Needs(ci, id, w).value in env
  {
  }

  // ---------------------------------------------------------------- as it runs

  /** Decodes an image into a new buffer, enters it into the window and evicts. */
  method DecodeImage(table: Table, id: nat, ci: Compressed)
    returns (img: W.Image)
    requires table.Ready()
    requires Pixels(ci, W.Live(table.View()), id).Some?
    modifies table, table.images
    ensures table.Ready()
    ensures Pixels(ci, W.Live(old(table.View())), id) == Some(img.data) && img.id == id && img.headDist == ci.headDist
    ensures IsDecoded(ci, W.Live(old(table.View())), id, img.data)
    ensures table.View() == W.Enter(old(table.View()), img)
  {
    var out := new Pixel[ci.size];
    ghost var env := W.Live(table.View());
    if ci.format.RgbAlpha? {
      var used := DecodeStream(Rgb32, [], table, id, ci.bytes, 0, out);
      ghost var base := out[..];
      assert ViewAll(Rgb32, base) == base;
      ghost var first := DecodePass(ci, env, id, START).value;
      assert first == Work(1, Cursor(used, []), base);
      var used' := DecodeStream(RgbAlpha, [], table, id, ci.bytes, used, out);
      OverlayShown(base, out[..]);
    } else {
      var used := DecodeStream(ci.format, ci.palette, table, id, ci.bytes, 0, out);
      assert ViewAll(ci.format, out[..]) == out[..];
    }
    img := W.Image(id, ci.headDist, out[..]);
    PixelsIff(ci, env, id, img.data);
    table.Add(img);
    table.Evict();
  }

  /** A buffer with the colours of base is base with its own pad bytes. */
  lemma OverlayShown(base: seq<Pixel>, out: seq<Pixel>)
    requires Colours(base) == Colours(out)
    ensures Overlay(RgbAlpha, base, ViewAll(RgbAlpha, out)) == out
  {
    assert |base| == |Colours(out)|;
    forall i | 0 <= i < |out| ensures base[i].(pad := out[i].pad) == out[i] {
      assert Colours(base)[i] == Colours(out)[i];
    }
  }
}
