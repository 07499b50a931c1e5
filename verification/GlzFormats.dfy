/**
 The pixel formats of the decoder as codecs, and what relates them: palette streams are
 decoded straight to pixels, and the colour and alpha planes of an RGBA image never mix.
 */
module GlzFormats {
  import opened Common
  import opened GlzDecode

  datatype Pixel = Pixel(b: byte, g: byte, r: byte, pad: byte)

  /** Palette entries as 0x00RRGGBB numbers. */
  type Palette = seq<nat>

  datatype Format = Plt1Le | Plt1Be | Plt4Le | Plt4Be | Plt8 | Rgb32 | RgbAlpha

  predicate IsPalette(f: Format) { !f.Rgb32? && !f.RgbAlpha? }

  function Scale(f: Format): nat {
    if f.Plt1Le? || f.Plt1Be? then 8 else if f.Plt4Le? || f.Plt4Be? then 2 else 1
  }

  function Entry(pal: Palette, i: nat): Pixel {
    var e := if i < |pal| then pal[i] else 0;
    Pixel(e % 256, e / 0x100 % 256, e / 0x1_0000 % 256, 0)
  }

  function Nibble(pal: Palette, x: nat): Pixel {
    if |pal| == 0 then Entry(pal, 0) else Entry(pal, x % |pal|)
  }

  function Bit(x: nat, i: nat): nat {
    if i == 0 then x % 2 else Bit(x / 2, i - 1)
  }

  /** The pixels that one byte of a palette stream stands for. */
  function PaletteCells(f: Format, pal: Palette, x: nat): (r: seq<Pixel>)
    ensures IsPalette(f) ==> |r| == Scale(f)
  {
    match f
    case Plt8 => [Entry(pal, x)]
    case Plt4Be => [Nibble(pal, x / 16), Nibble(pal, x % 16)]
    case Plt4Le => [Nibble(pal, x % 16), Nibble(pal, x / 16)]
    case Plt1Be => seq(8, j requires 0 <= j < 8 => Entry(pal, Bit(x, 7 - j)))
    case Plt1Le => seq(8, j requires 0 <= j < 8 => Entry(pal, Bit(x, j)))
    case _ => []
  }

  /** The pixels of one literal group. In the alpha pass only the pad byte counts. */
  function Cells(f: Format, pal: Palette, bs: seq<byte>): seq<Pixel> {
    if f.Rgb32? then
      if |bs| == 3 then [Pixel(bs[0], bs[1], bs[2], 0)] else []
    else if |bs| != 1 then []
    else if f.RgbAlpha? then [Pixel(0, 0, 0, bs[0])]
    else PaletteCells(f, pal, bs[0])
  }

  // ---------------------------------------------------------------- what a unit shows

  /** A palette entry is 0x00RRGGBB. */
  lemma EntryShows(pal: Palette, i: nat)
    requires i < |pal| && pal[i] < 0x100_0000
    ensures var p := Entry(pal, i); pal[i] == p.r * 0x1_0000 + p.g * 0x100 + p.b && p.pad == 0
  {
  }

  lemma Halves(x: nat, high: nat, low: nat)
    requires x == 16 * high + low && low < 16
    ensures x / 16 == high && x % 16 == low
  {
  }

  /** A byte of two indices; the big-endian format shows the high one first. */
  lemma NibblesShow(pal: Palette, x: nat, high: nat, low: nat)
    requires x == 16 * high + low && high < 16 && low < 16 && |pal| > 0
    ensures PaletteCells(Plt4Be, pal, x) == [Entry(pal, high % |pal|), Entry(pal, low % |pal|)]
    ensures PaletteCells(Plt4Le, pal, x) == [Entry(pal, low % |pal|), Entry(pal, high % |pal|)]
  {
    Halves(x, high, low);
    var h, l := Entry(pal, high % |pal|), Entry(pal, low % |pal|);
    assert Nibble(pal, x / 16) == h && Nibble(pal, x % 16) == l;
    assert PaletteCells(Plt4Be, pal, x) == [h, l];
    assert PaletteCells(Plt4Le, pal, x) == [l, h];
  }

  /** The number that bits stand for, the first being the highest. */
  function Binary(bits: seq<nat>): nat {
    if bits == [] then 0 else 2 * Binary(bits[..|bits| - 1]) + bits[|bits| - 1]
  }

  predicate AreBits(bits: seq<nat>) { forall i :: 0 <= i < |bits| ==> bits[i] < 2 }

  lemma {:induction false} BitOf(bits: seq<nat>, i: nat)
    requires AreBits(bits) && i < |bits|
    ensures Bit(Binary(bits), i) == bits[|bits| - 1 - i]
    decreases i
  {
    var front := bits[..|bits| - 1];
    assert Binary(bits) / 2 == Binary(front) && Binary(bits) % 2 == bits[|bits| - 1];
    if i > 0 {
      BitOf(front, i - 1);
    }
  }

  /** A byte of eight indices; the big-endian format shows the highest bit first, the little-endian
      one the lowest. */
  lemma BitsShow(pal: Palette, bits: seq<nat>, j: nat)
    requires |bits| == 8 && AreBits(bits) && j < 8
    ensures PaletteCells(Plt1Be, pal, Binary(bits))[j] == Entry(pal, bits[j])
    ensures PaletteCells(Plt1Le, pal, Binary(bits))[j] == Entry(pal, bits[7 - j])
  {
    BitOf(bits, 7 - j);
    BitOf(bits, j);
  }

  /** Three bytes of an RGB unit are blue, green and red; an alpha unit is the pad byte alone. */
  lemma UnitsShow(pal: Palette, b: byte, g: byte, r: byte)
    ensures Cells(Rgb32, pal, [b, g, r]) == [Pixel(b, g, r, 0)]
    ensures Cells(RgbAlpha, pal, [b]) == [Pixel(0, 0, 0, b)]
    ensures Cells(Plt8, pal, [b]) == [Entry(pal, b)]
  {
  }

  function Unit(f: Format): nat { if f.Rgb32? then 3 else 1 }

  function Bias(f: Format): nat { if f.Rgb32? then 0 else 2 }

  function CodecOf(f: Format, pal: Palette): (c: Codec<Pixel>)
    ensures c.Valid()
  {
    Codec(Bias(f), Scale(f), Unit(f), (bs: seq<byte>) => Cells(f, pal, bs))
  }

  /** The stream read as bytes: palette indices, or alpha values. */
  function ByteCodec(): (c: Codec<byte>)
    ensures c.Valid()
  {
    Codec(2, 1, 1, (bs: seq<byte>) => if |bs| == 1 then bs else [])
  }

  // ---------------------------------------------------------------- palettes

  /** A byte image with every byte replaced by its pixels. */
  function Colourise(f: Format, pal: Palette, xs: seq<byte>): seq<Pixel> {
    if xs == [] then [] else Cells(f, pal, [xs[0]]) + Colourise(f, pal, xs[1..])
  }

  function Colouriser(f: Format, pal: Palette): seq<byte> -> seq<Pixel> {
    (xs: seq<byte>) => Colourise(f, pal, xs)
  }

  lemma {:induction false} ColouriseLength(f: Format, pal: Palette, xs: seq<byte>)
    requires IsPalette(f)
    ensures |Colourise(f, pal, xs)| == Times(|xs|, Scale(f))
  {
    if xs != [] { ColouriseLength(f, pal, xs[1..]); }
  }

  lemma {:induction false} ColouriseAppend(f: Format, pal: Palette, a: seq<byte>, b: seq<byte>)
    ensures Colourise(f, pal, a + b) == Colourise(f, pal, a) + Colourise(f, pal, b)
  {
    if a == [] {
      assert a + b == b;
    } else {
      assert (a + b)[1..] == a[1..] + b;
      ColouriseAppend(f, pal, a[1..], b);
    }
  }

  lemma ColouriserExpands(f: Format, pal: Palette)
    requires IsPalette(f)
    ensures Expansion(Colouriser(f, pal), Scale(f))
    ensures Scales(ByteCodec(), CodecOf(f, pal), Colouriser(f, pal), Scale(f))
  {
    var E := Colouriser(f, pal);
    forall xs: seq<byte> ensures Lengthens(E, Scale(f), xs) { ColouriseLength(f, pal, xs); }
    forall a: seq<byte>, b: seq<byte> ensures Distributes(E, a, b) { ColouriseAppend(f, pal, a, b); }
    forall bs: seq<byte> | |bs| == 1 ensures CodecOf(f, pal).cells(bs) == E(ByteCodec().cells(bs)) {
      assert bs[1..] == [] && bs == [bs[0]];
      assert Colourise(f, pal, bs) == Cells(f, pal, bs) + Colourise(f, pal, []);
    }
  }

  /** Decoding a palette stream directly to pixels, with lengths and offsets scaled, is
      decoding it to bytes and then looking every byte up, overlapping matches included, and
      matches in earlier images that were coloured in the same way. */
  lemma PaletteHomomorphism(f: Format, pal: Palette, env: map<nat, seq<byte>>, id: nat, input: seq<byte>, size: nat, ip: nat)
    requires IsPalette(f)
    ensures Decode(CodecOf(f, pal), ExpandEnv(Colouriser(f, pal), env), id, input, Times(size, Scale(f)), Cursor(ip, []))
            == ExpandCursor(Colouriser(f, pal), Decode(ByteCodec(), env, id, input, size, Cursor(ip, [])))
  {
    ColouriserExpands(f, pal);
    DecodeExpand(ByteCodec(), CodecOf(f, pal), Colouriser(f, pal), Scale(f), env, id, input, size, Cursor(ip, []));
  }

  // ---------------------------------------------------------------- blocks

  /** A block of s pixels; where the sequence is too short the block is black there. */
  function Block(s: nat, b: seq<Pixel>): (r: seq<Pixel>)
    ensures |r| == s && (|b| == s ==> r == b)
  {
    seq(s, i requires 0 <= i < s => if i < |b| then b[i] else Pixel(0, 0, 0, 0))
  }

  /** The blocks laid out one behind the other. */
  function Laid(s: nat, xs: seq<seq<Pixel>>): seq<Pixel> {
    if xs == [] then [] else Block(s, xs[0]) + Laid(s, xs[1..])
  }

  function Layer(s: nat): seq<seq<Pixel>> -> seq<Pixel> { (xs: seq<seq<Pixel>>) => Laid(s, xs) }

  /** The whole blocks of an image. */
  function Blocks(s: nat, ps: seq<Pixel>): seq<seq<Pixel>>
    decreases |ps|
  {
    if s == 0 || |ps| < s then [] else [ps[..s]] + Blocks(s, ps[s..])
  }

  function BlockEnv(s: nat, env: map<nat, seq<Pixel>>): map<nat, seq<seq<Pixel>>> { map k | k in env :: Blocks(s, env[k]) }

  /** The stream read in blocks, one for each unit of the input. */
  function BlockCodec(f: Format, pal: Palette): (c: Codec<seq<Pixel>>)
    ensures c.Valid()
  {
    Codec(Bias(f), 1, Unit(f), (bs: seq<byte>) => if |bs| == Unit(f) then [Cells(f, pal, bs)] else [])
  }

  lemma {:induction false} LaidLength(s: nat, xs: seq<seq<Pixel>>)
    requires IsScale(s)
    ensures |Laid(s, xs)| == Times(|xs|, s)
  {
    if xs != [] { LaidLength(s, xs[1..]); }
  }

  lemma {:induction false} LaidAppend(s: nat, a: seq<seq<Pixel>>, b: seq<seq<Pixel>>)
    ensures Laid(s, a + b) == Laid(s, a) + Laid(s, b)
  {
    if a == [] {
      assert a + b == b;
    } else {
      assert (a + b)[1..] == a[1..] + b;
      LaidAppend(s, a[1..], b);
    }
  }

  lemma BlocksScale(f: Format, pal: Palette)
    ensures Scales(BlockCodec(f, pal), CodecOf(f, pal), Layer(Scale(f)), Scale(f))
  {
    var s := Scale(f);
    var E := Layer(s);
    forall xs: seq<seq<Pixel>> ensures Lengthens(E, s, xs) { LaidLength(s, xs); }
    forall a: seq<seq<Pixel>>, b: seq<seq<Pixel>> ensures Distributes(E, a, b) { LaidAppend(s, a, b); }
    forall bs: seq<byte> | |bs| == Unit(f) ensures CodecOf(f, pal).cells(bs) == E(BlockCodec(f, pal).cells(bs)) {
      var b := Cells(f, pal, bs);
      assert |b| == s;
      assert [b][1..] == [] && Laid(s, [b]) == Block(s, b) + Laid(s, []);
    }
  }

  lemma {:induction false} BlocksLaid(s: nat, ps: seq<Pixel>)
    requires IsScale(s)
    ensures WholeUnits(s, ps, Laid(s, Blocks(s, ps)))
    decreases |ps|
  {
    var xs := Blocks(s, ps);
    LaidLength(s, xs);
    assert IsTimes(|Laid(s, xs)|, |xs|, s);
    if |ps| >= s {
      BlocksLaid(s, ps[s..]);
      assert xs[1..] == Blocks(s, ps[s..]) && xs[0] == ps[..s];
      assert ps == ps[..s] + ps[s..];
    }
  }

  /** Decoding straight to pixels, with lengths and offsets scaled, is decoding in blocks of as many
      pixels as a unit stands for, and then laying the blocks out: overlapping matches included,
      and matches in earlier images of any format and any palette. */
  lemma BlockHomomorphism(f: Format, pal: Palette, env: map<nat, seq<Pixel>>, id: nat, input: seq<byte>, size: nat, ip: nat)
    ensures var s := Scale(f);
            Decode(CodecOf(f, pal), env, id, input, Times(size, s), Cursor(ip, []))
            == ExpandCursor(Layer(s), Decode(BlockCodec(f, pal), BlockEnv(s, env), id, input, size, Cursor(ip, [])))
  {
    var s := Scale(f);
    var trimmed := ExpandEnv(Layer(s), BlockEnv(s, env));
    BlocksScale(f, pal);
    DecodeExpand(BlockCodec(f, pal), CodecOf(f, pal), Layer(s), s, BlockEnv(s, env), id, input, size, Cursor(ip, []));
    forall k | k in env ensures WholeUnits(s, env[k], trimmed[k]) { BlocksLaid(s, env[k]); }
    DecodeTrimmed(CodecOf(f, pal), env, trimmed, id, input, Times(size, s), Cursor(ip, []));
  }

  // ---------------------------------------------------------------- planes

  datatype Colour = Colour(b: byte, g: byte, r: byte)

  function ColourOf(p: Pixel): Colour { Colour(p.b, p.g, p.r) }

  function Colours(ps: seq<Pixel>): seq<Colour> {
    seq(|ps|, i requires 0 <= i < |ps| => ColourOf(ps[i]))
  }

  function Pads(ps: seq<Pixel>): seq<byte> {
    seq(|ps|, i requires 0 <= i < |ps| => ps[i].pad)
  }

  function PadPixels(xs: seq<byte>): seq<Pixel> {
    seq(|xs|, i requires 0 <= i < |xs| => Pixel(0, 0, 0, xs[i]))
  }

  /** The RGB stream read for its colours alone. */
  function ColourCodec(): (c: Codec<Colour>)
    ensures c.Valid()
  {
    Codec(0, 1, 3, (bs: seq<byte>) => if |bs| == 3 then [Colour(bs[0], bs[1], bs[2])] else [])
  }

  function ColoursOf(): seq<Pixel> -> seq<Colour> { (ps: seq<Pixel>) => Colours(ps) }

  function PadPixelsOf(): seq<byte> -> seq<Pixel> { (xs: seq<byte>) => PadPixels(xs) }

  /** What the decoder writes for format f of a pixel p: the pad byte alone in the alpha pass. */
  function View(f: Format, p: Pixel): Pixel { if f.RgbAlpha? then Pixel(0, 0, 0, p.pad) else p }

  function ViewAll(f: Format, ps: seq<Pixel>): (r: seq<Pixel>)
    ensures |r| == |ps|
  {
    seq(|ps|, i requires 0 <= i < |ps| => View(f, ps[i]))
  }

  function ViewEnv(f: Format, env: map<nat, seq<Pixel>>): map<nat, seq<Pixel>> {
    map k | k in env :: ViewAll(f, env[k])
  }

  function ColourEnv(env: map<nat, seq<Pixel>>): map<nat, seq<Colour>> { map k | k in env :: Colours(env[k]) }

  function PadEnv(env: map<nat, seq<Pixel>>): map<nat, seq<byte>> { map k | k in env :: Pads(env[k]) }

  lemma ColoursExpand()
    ensures Scales(CodecOf(Rgb32, []), ColourCodec(), ColoursOf(), 1)
  {
    forall a: seq<Pixel>, b: seq<Pixel> ensures Distributes(ColoursOf(), a, b) {
      assert Colours(a + b) == Colours(a) + Colours(b);
    }
    forall xs: seq<Pixel> ensures Lengthens(ColoursOf(), 1, xs) {}
    forall bs: seq<byte> | |bs| == 3
      ensures ColourCodec().cells(bs) == ColoursOf()(CodecOf(Rgb32, []).cells(bs))
    {
      assert Colours([Pixel(bs[0], bs[1], bs[2], 0)]) == [Colour(bs[0], bs[1], bs[2])];
    }
  }

  /** The colours of the RGB pass depend on the colours of the earlier images alone. */
  lemma ColourPlane(env: map<nat, seq<Pixel>>, id: nat, input: seq<byte>, size: nat, ip: nat)
    ensures Decode(ColourCodec(), ColourEnv(env), id, input, size, Cursor(ip, []))
            == ExpandCursor(ColoursOf(), Decode(CodecOf(Rgb32, []), env, id, input, size, Cursor(ip, [])))
  {
    ColoursExpand();
    DecodeExpand(CodecOf(Rgb32, []), ColourCodec(), ColoursOf(), 1, env, id, input, size, Cursor(ip, []));
    assert Colours([]) == [];
    assert ExpandEnv(ColoursOf(), env) == ColourEnv(env);
  }

  lemma PadsExpand()
    ensures Scales(ByteCodec(), CodecOf(RgbAlpha, []), PadPixelsOf(), 1)
  {
    forall a: seq<byte>, b: seq<byte> ensures Distributes(PadPixelsOf(), a, b) {
      assert PadPixels(a + b) == PadPixels(a) + PadPixels(b);
    }
    forall xs: seq<byte> ensures Lengthens(PadPixelsOf(), 1, xs) {}
    forall bs: seq<byte> | |bs| == 1
      ensures CodecOf(RgbAlpha, []).cells(bs) == PadPixelsOf()(ByteCodec().cells(bs))
    {
      assert PadPixels(bs) == [Pixel(0, 0, 0, bs[0])];
    }
  }

  /** The alpha pass decodes bytes, and depends on the pad bytes of the earlier images alone. */
  lemma AlphaPlane(env: map<nat, seq<Pixel>>, id: nat, input: seq<byte>, size: nat, ip: nat)
    ensures Decode(CodecOf(RgbAlpha, []), ViewEnv(RgbAlpha, env), id, input, size, Cursor(ip, []))
            == ExpandCursor(PadPixelsOf(), Decode(ByteCodec(), PadEnv(env), id, input, size, Cursor(ip, [])))
  {
    PadsExpand();
    DecodeExpand(ByteCodec(), CodecOf(RgbAlpha, []), PadPixelsOf(), 1, PadEnv(env), id, input, size, Cursor(ip, []));
    assert PadPixels([]) == [];
    var viewed := ViewEnv(RgbAlpha, env);
    forall k | k in env ensures PadPixels(Pads(env[k])) == viewed[k] {}
    assert ExpandEnv(PadPixelsOf(), PadEnv(env)) == viewed;
  }
}
