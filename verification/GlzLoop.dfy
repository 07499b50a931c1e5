/** The decode loop as it runs: input and output positions move, and the output is written in place. */
module GlzLoop {
  import opened Common
  import opened GlzToken
  import opened GlzDecode
  import opened GlzFormats
  import opened GlzTable
  import W = GlzWindow

  /** COPY_PIXEL and its kin: the alpha pass writes the pad byte alone. */
  function Store(f: Format, old_: Pixel, p: Pixel): (r: Pixel)
    ensures View(f, r) == View(f, p) && (f.RgbAlpha? ==> ColourOf(r) == ColourOf(old_))
  {
    if f.RgbAlpha? then old_.(pad := p.pad) else p
  }

  /** The first op pixels show done, and the rest of the buffer is as it was. */
  ghost predicate Wrote(f: Format, was: seq<Pixel>, out: seq<Pixel>, op: nat, done: seq<Pixel>) {
    && |out| == |was| && op == |done| <= |out|
    && (forall i :: 0 <= i < op ==> View(f, out[i]) == done[i])
    && (forall i :: op <= i < |out| ==> out[i] == was[i])
    && (f.RgbAlpha? ==> forall i :: 0 <= i < |out| ==> ColourOf(out[i]) == ColourOf(was[i]))
  }

  /** One literal group, pixel by pixel. */
  method CopyCells(f: Format, cells: seq<Pixel>, out: array<Pixel>, start: nat, ghost was: seq<Pixel>, ghost done: seq<Pixel>)
    returns (op: nat)
    requires Wrote(f, was, out[..], start, done) && start + |cells| <= out.Length
    requires forall i :: 0 <= i < |cells| ==> View(f, cells[i]) == cells[i]
    modifies out
    ensures op == start + |cells| && Wrote(f, was, out[..], op, done + cells)
  {
    op := start;
    for i := 0 to |cells|
      invariant op == start + i && Wrote(f, was, out[..], op, done + cells[..i])
    {
      out[op] := Store(f, out[op], cells[i]);
      op := op + 1;
    }
    assert cells[..|cells|] == cells;
  }

  lemma CellsShow(f: Format, pal: Palette, bs: seq<byte>)
    ensures forall i :: 0 <= i < |Cells(f, pal, bs)| ==> View(f, Cells(f, pal, bs)[i]) == Cells(f, pal, bs)[i]
  {
  }

  /** The copy of n literal groups. */
  method CopyLiterals(f: Format, pal: Palette, input: seq<byte>, start: nat, n: nat,
                      out: array<Pixel>, first: nat, ghost was: seq<Pixel>, ghost done: seq<Pixel>)
    returns (ip: nat, op: nat, ghost now: seq<Pixel>)
    requires Wrote(f, was, out[..], first, done)
    requires ReadLiterals(CodecOf(f, pal), input, out.Length, Cursor(start, done), n).Some?
    modifies out
    ensures ReadLiterals(CodecOf(f, pal), input, out.Length, Cursor(start, done), n) == Some(Cursor(ip, now))
    ensures Wrote(f, was, out[..], op, now)
  {
    ip, op, now := start, first, done;
    ghost var c := CodecOf(f, pal);
    var left := n;
    while left > 0
      invariant ReadLiterals(c, input, out.Length, Cursor(ip, now), left)
             == ReadLiterals(c, input, out.Length, Cursor(start, done), n)
      invariant Wrote(f, was, out[..], op, now)
    {
      var cells := Cells(f, pal, input[ip..ip + Unit(f)]);
      CellsShow(f, pal, input[ip..ip + Unit(f)]);
      op := CopyCells(f, cells, out, op, was, now);
      ip := ip + Unit(f);
      now := now + cells;
      left := left - 1;
    }
  }

  /** The fill that a match from one pixel back amounts to. */
  method CopyRun(f: Format, len: nat, out: array<Pixel>, start: nat, ghost was: seq<Pixel>, ghost done: seq<Pixel>)
    returns (op: nat)
    requires Wrote(f, was, out[..], start, done) && 1 <= start && start + len <= out.Length
    modifies out
    ensures op == start + len && Wrote(f, was, out[..], op, CopyBack(done, 1, len))
  {
    op := start;
    ghost var now := done;
    var b := out[op - 1];
    var left: nat := len;
    while left > 0
      invariant left <= len && op == start + len - left && Wrote(f, was, out[..], op, now)
      invariant View(f, b) == now[op - 1] && CopyBack(now, 1, left) == CopyBack(done, 1, len)
    {
      now := now + [now[|now| - 1]];
      out[op] := Store(f, out[op], b);
      op := op + 1;
      left := left - 1;
    }
  }

  /** The copy of a match inside the image, from d pixels back. */
  method CopyNear(f: Format, d: nat, len: nat, out: array<Pixel>, start: nat, ghost was: seq<Pixel>, ghost done: seq<Pixel>)
    returns (op: nat)
    requires Wrote(f, was, out[..], start, done) && 1 <= d <= start && start + len <= out.Length
    modifies out
    ensures op == start + len && Wrote(f, was, out[..], op, CopyBack(done, d, len))
  {
    op := start;
    ghost var now := done;
    var ref := op - d;
    var left: nat := len;
    while left > 0
      invariant left <= len && op == start + len - left && ref == op - d && Wrote(f, was, out[..], op, now)
      invariant CopyBack(now, d, left) == CopyBack(done, d, len)
    {
      now := now + [now[|now| - d]];
      out[op] := Store(f, out[op], out[ref]);
      op := op + 1;
      ref := ref + 1;
      left := left - 1;
    }
  }

  /** The copy of a match in an earlier image. */
  method CopyFar(f: Format, src: seq<Pixel>, ofs: nat, len: nat, out: array<Pixel>, start: nat,
                 ghost was: seq<Pixel>, ghost done: seq<Pixel>)
    returns (op: nat)
    requires Wrote(f, was, out[..], start, done) && ofs + len <= |src| && start + len <= out.Length
    modifies out
    ensures op == start + len && Wrote(f, was, out[..], op, done + ViewAll(f, src)[ofs..ofs + len])
  {
    op := start;
    ghost var all := ViewAll(f, src);
    var ref := ofs;
    while ref < ofs + len
      invariant ofs <= ref <= ofs + len && op == start + ref - ofs
      invariant Wrote(f, was, out[..], op, done + all[ofs..ref])
    {
      assert all[ofs..ref + 1] == all[ofs..ref] + [all[ref]];
      out[op] := Store(f, out[op], src[ref]);
      op := op + 1;
      ref := ref + 1;
    }
  }

  /** The images that a stream of format f can refer to, as it sees them. */
  ghost function Env(f: Format, w: W.Window): map<nat, seq<Pixel>> { ViewEnv(f, W.Live(w)) }

  /** The copy of a reference whose token has been read. */
  method CopyMatch(f: Format, pal: Palette, table: Table, id: nat, t: Token,
                   out: array<Pixel>, start: nat, ghost was: seq<Pixel>, ghost done: seq<Pixel>)
    returns (op: nat, ghost now: seq<Pixel>)
    requires table.Ready() && out as object != table.images
    requires t.Reference? && t.len >= 1 && Wrote(f, was, out[..], start, done)
    requires Match(CodecOf(f, pal), Env(f, table.View()), id, out.Length, done, t).Some?
    modifies out
    ensures Match(CodecOf(f, pal), Env(f, table.View()), id, out.Length, done, t) == Some(now)
    ensures Wrote(f, was, out[..], op, now)
  {
    var len := Times(t.len + Bias(f), Scale(f));
    var ofs := Times(if t.dist == 0 then t.ofs + 1 else t.ofs, Scale(f));
    if t.dist != 0 {
      var src := table.Bits(id, t.dist);
      op := CopyFar(f, src, ofs, len, out, start, was, done);
      now := done + ViewAll(f, src)[ofs..ofs + len];
    } else if ofs == 1 {
      assert Scale(f) == 1;  // the fill is never met where a unit is several pixels
      op := CopyRun(f, len, out, start, was, done);
      now := CopyBack(done, 1, len);
    } else {
      op := CopyNear(f, ofs, len, out, start, was, done);
      now := CopyBack(done, ofs, len);
    }
  }

  /** One token, its control byte being just before start. */
  method DecodeToken(f: Format, pal: Palette, table: Table, id: nat, input: seq<byte>, start: nat, ctrl: nat,
                     out: array<Pixel>, first: nat, ghost was: seq<Pixel>, ghost done: seq<Pixel>)
    returns (ip: nat, op: nat, ghost now: seq<Pixel>)
    requires table.Ready() && out as object != table.images
    requires 1 <= start <= |input| && ctrl == ByteAt(input, start - 1) && Wrote(f, was, out[..], first, done)
    requires Step(CodecOf(f, pal), Env(f, table.View()), id, input, out.Length, Cursor(start - 1, done)).Some?
    modifies out
    ensures Step(CodecOf(f, pal), Env(f, table.View()), id, input, out.Length, Cursor(start - 1, done)) == Some(Cursor(ip, now))
    ensures Wrote(f, was, out[..], op, now)
  {
    ip := start;
    if ctrl >= MAX_COPY {
      var len, ofs, dist;
      len, ofs, dist, ip := ReadReference(input, ip, ctrl);
      op, now := CopyMatch(f, pal, table, id, Reference(len, ofs, dist), out, first, was, done);
    } else {
      ip, op, now := CopyLiterals(f, pal, input, ip, ctrl + 1, out, first, was, done);
    }
  }

  /** A turn of the loop: one token, and the control byte of the next unless the buffer is full. */
  method DecodeTurn(f: Format, pal: Palette, table: Table, id: nat, input: seq<byte>, start: nat, ctrl: nat,
                    out: array<Pixel>, first: nat, ghost was: seq<Pixel>, ghost done: seq<Pixel>, ghost at: nat)
    returns (ip: nat, op: nat, next: nat, loop: bool, ghost now: seq<Pixel>, ghost mark: nat)
    requires table.Ready() && out as object != table.images
    requires Wrote(f, was, out[..], first, done)
    requires start == at + 1 && AtControl(f, pal, table, id, input, out.Length, at, ctrl, done)
    modifies out
    ensures Wrote(f, was, out[..], op, now) && start <= ip && first < op
    ensures loop ==> ip == mark + 1 && AtControl(f, pal, table, id, input, out.Length, mark, next, now)
    ensures Decode(CodecOf(f, pal), Env(f, table.View()), id, input, out.Length, Cursor(at, done))
            == if loop then Decode(CodecOf(f, pal), Env(f, table.View()), id, input, out.Length, Cursor(mark, now))
               else Some(Cursor(ip, now))
    ensures !loop ==> op == out.Length
  {
    DecodeNext(CodecOf(f, pal), Env(f, table.View()), id, input, out.Length, Cursor(at, done));
    ip, op, now := DecodeToken(f, pal, table, id, input, start, ctrl, out, first, was, done);
    mark, next := ip, 0;
    loop := op < out.Length;
    if loop {
      next := ByteAt(input, ip);
      ip := ip + 1;
    }
  }

  /** The control byte is the one at this position, and from there the stream can be decoded. */
  ghost predicate AtControl(f: Format, pal: Palette, table: Table, id: nat, input: seq<byte>, size: nat, at: nat,
                            ctrl: nat, done: seq<Pixel>)
    reads table, table.images
    requires table.Ready()
  {
    && at < |input| && ctrl == ByteAt(input, at)
    && Decode(CodecOf(f, pal), Env(f, table.View()), id, input, size, Cursor(at, done)).Some?
  }

  /** Decodes one stream into the buffer, whose length is the number of pixels. */
  method DecodeStream(f: Format, pal: Palette, table: Table, id: nat, input: seq<byte>, start: nat, out: array<Pixel>)
    returns (consumed: nat)
    requires table.Ready() && out as object != table.images
    requires Decode(CodecOf(f, pal), Env(f, table.View()), id, input, out.Length, Cursor(start, [])).Some?
    modifies out
    ensures Decode(CodecOf(f, pal), Env(f, table.View()), id, input, out.Length, Cursor(start, []))
            == Some(Cursor(start + consumed, ViewAll(f, out[..])))
    ensures f.RgbAlpha? ==> Colours(out[..]) == old(Colours(out[..]))
  {
    ghost var was, done: seq<Pixel> := out[..], [];
    ghost var result := Decode(CodecOf(f, pal), Env(f, table.View()), id, input, out.Length, Cursor(start, []));
    var ip: nat, op: nat := start + 1, 0;
    var ctrl := ByteAt(input, start);
    var loop := true;
    ghost var at := start;
    while loop
      invariant table.Ready()
      invariant Wrote(f, was, out[..], op, done) && start < ip
      invariant loop ==> ip == at + 1 && AtControl(f, pal, table, id, input, out.Length, at, ctrl, done)
      invariant result == if loop then Decode(CodecOf(f, pal), Env(f, table.View()), id, input, out.Length, Cursor(at, done))
                          else Some(Cursor(ip, done))
      invariant !loop ==> op == out.Length
      decreases out.Length - op, loop
    {
      ip, op, ctrl, loop, done, at := DecodeTurn(f, pal, table, id, input, ip, ctrl, out, op, was, done, at);
    }
    consumed := ip - start;
    WroteAll(f, was, out[..], done);
  }

  lemma WroteAll(f: Format, was: seq<Pixel>, out: seq<Pixel>, done: seq<Pixel>)
    requires Wrote(f, was, out, |out|, done)
    ensures ViewAll(f, out) == done && (f.RgbAlpha? ==> Colours(out) == Colours(was))
  {
  }

  // ---------------------------------------------------------------- RGBA

  /** The two planes of an RGBA image decoded apart: the colours, the alpha values, and the end
      of the alpha stream, which starts where the RGB stream ends. */
  ghost function Planes(env: map<nat, seq<Pixel>>, id: nat, input: seq<byte>, start: nat, size: nat)
    : Option<(seq<Colour>, seq<byte>, nat)>
  {
    match Decode(ColourCodec(), ColourEnv(env), id, input, size, Cursor(start, []))
    case None => None
    case Some(rgb) =>
      match Decode(ByteCodec(), PadEnv(env), id, input, size, Cursor(rgb.ip, []))
      case None => None
      case Some(alpha) => Some((rgb.out, alpha.out, alpha.ip))
  }

  /** The colour plane decodes to these colours and ends there. */
  ghost predicate ColoursAre(w: W.Window, id: nat, input: seq<byte>, size: nat, start: nat, colours: seq<Colour>, end: nat) {
    Decode(ColourCodec(), ColourEnv(W.Live(w)), id, input, size, Cursor(start, [])) == Some(Cursor(end, colours))
  }

  ghost predicate PadsAre(w: W.Window, id: nat, input: seq<byte>, size: nat, start: nat, pads: seq<byte>, end: nat) {
    Decode(ByteCodec(), PadEnv(W.Live(w)), id, input, size, Cursor(start, [])) == Some(Cursor(end, pads))
  }

  /** The RGB pass of an RGBA image: the colours come out as the colour plane has them. */
  method RgbPass(table: Table, id: nat, input: seq<byte>, start: nat, out: array<Pixel>, ghost colours: seq<Colour>, ghost end: nat)
    returns (consumed: nat)
    requires table.Ready() && out as object != table.images
    requires ColoursAre(table.View(), id, input, out.Length, start, colours, end)
    modifies out
    ensures start + consumed == end && Colours(out[..]) == colours
  {
    ghost var w := table.View();
    ColoursOfPixels(w, id, input, out.Length, start);
    consumed := DecodeStream(Rgb32, [], table, id, input, start, out);
    ColoursShown(w, id, input, out[..], start, start + consumed);
  }

  /** The alpha pass: the pad bytes come out as the alpha plane has them, the colours stay. */
  method AlphaPass(table: Table, id: nat, input: seq<byte>, start: nat, out: array<Pixel>, ghost pads: seq<byte>, ghost end: nat)
    returns (consumed: nat)
    requires table.Ready() && out as object != table.images
    requires PadsAre(table.View(), id, input, out.Length, start, pads, end)
    modifies out
    ensures start + consumed == end && Pads(out[..]) == pads
    ensures Colours(out[..]) == old(Colours(out[..]))
  {
    ghost var w := table.View();
    AlphaPlane(W.Live(w), id, input, out.Length, start);
    consumed := DecodeStream(RgbAlpha, [], table, id, input, start, out);
    AlphaShown(w, id, input, out[..], start, start + consumed);
  }

  /** An RGBA image: an RGB pass, then an alpha pass over the same buffer. The colours are those
      of the RGB stream, read with the colours of the earlier images; the pad bytes are those of
      the alpha stream, read with their pad bytes. Neither plane depends on the other. */
  method DecodeRgba(table: Table, id: nat, input: seq<byte>, start: nat, out: array<Pixel>)
    returns (consumed: nat)
    requires table.Ready() && out as object != table.images
    requires Planes(W.Live(table.View()), id, input, start, out.Length).Some?
    modifies out
    ensures Planes(W.Live(table.View()), id, input, start, out.Length)
            == Some((Colours(out[..]), Pads(out[..]), start + consumed))
  {
    ghost var w := table.View();
    ghost var colours, mid, pads, end := PlanesAre(w, id, input, start, out.Length);
    consumed := DecodePlanes(table, id, input, start, out, colours, mid, pads, end);
  }

  method DecodePlanes(table: Table, id: nat, input: seq<byte>, start: nat, out: array<Pixel>,
                      ghost colours: seq<Colour>, ghost mid: nat, ghost pads: seq<byte>, ghost end: nat)
    returns (consumed: nat)
    requires table.Ready() && out as object != table.images
    requires ColoursAre(table.View(), id, input, out.Length, start, colours, mid)
    requires PadsAre(table.View(), id, input, out.Length, mid, pads, end)
    modifies out
    ensures start + consumed == end && Colours(out[..]) == colours && Pads(out[..]) == pads
  {
    ghost var w := table.View();
    var used := RgbPass(table, id, input, start, out, colours, mid);
    assert table.View() == w;
    var used' := AlphaPass(table, id, input, start + used, out, pads, end);
    consumed := used + used';
  }

  lemma PlanesAre(w: W.Window, id: nat, input: seq<byte>, start: nat, size: nat)
    returns (colours: seq<Colour>, mid: nat, pads: seq<byte>, end: nat)
    requires Planes(W.Live(w), id, input, start, size).Some?
    ensures ColoursAre(w, id, input, size, start, colours, mid) && PadsAre(w, id, input, size, mid, pads, end)
    ensures Planes(W.Live(w), id, input, start, size) == Some((colours, pads, end))
  {
    var rgb := Decode(ColourCodec(), ColourEnv(W.Live(w)), id, input, size, Cursor(start, [])).value;
    var alpha := Decode(ByteCodec(), PadEnv(W.Live(w)), id, input, size, Cursor(rgb.ip, [])).value;
    colours, mid, pads, end := rgb.out, rgb.ip, alpha.out, alpha.ip;
  }

  lemma ColoursOfPixels(w: W.Window, id: nat, input: seq<byte>, size: nat, start: nat)
    ensures Decode(ColourCodec(), ColourEnv(W.Live(w)), id, input, size, Cursor(start, []))
            == ExpandCursor(ColoursOf(), Decode(CodecOf(Rgb32, []), Env(Rgb32, w), id, input, size, Cursor(start, [])))
  {
    var env := W.Live(w);
    ColourPlane(env, id, input, size, start);
    forall k | k in env ensures ViewAll(Rgb32, env[k]) == env[k] {}
    assert Env(Rgb32, w) == env;
  }

  lemma ColoursShown(w: W.Window, id: nat, input: seq<byte>, out: seq<Pixel>, start: nat, end: nat)
    requires Decode(CodecOf(Rgb32, []), Env(Rgb32, w), id, input, |out|, Cursor(start, []))
             == Some(Cursor(end, ViewAll(Rgb32, out)))
    ensures Decode(ColourCodec(), ColourEnv(W.Live(w)), id, input, |out|, Cursor(start, []))
            == Some(Cursor(end, Colours(out)))
  {
    ColoursOfPixels(w, id, input, |out|, start);
    assert ViewAll(Rgb32, out) == out;
  }

  lemma AlphaShown(w: W.Window, id: nat, input: seq<byte>, out: seq<Pixel>, start: nat, end: nat)
    requires Decode(CodecOf(RgbAlpha, []), Env(RgbAlpha, w), id, input, |out|, Cursor(start, []))
             == Some(Cursor(end, ViewAll(RgbAlpha, out)))
    ensures Decode(ByteCodec(), PadEnv(W.Live(w)), id, input, |out|, Cursor(start, [])) == Some(Cursor(end, Pads(out)))
  {
    var env := W.Live(w);
    AlphaPlane(env, id, input, |out|, start);
    PadsShown(Decode(ByteCodec(), PadEnv(env), id, input, |out|, Cursor(start, [])).value.out, out);
  }

  lemma PadsShown(alpha: seq<byte>, out: seq<Pixel>)
    requires PadPixels(alpha) == ViewAll(RgbAlpha, out)
    ensures alpha == Pads(out)
  {
    assert |alpha| == |PadPixels(alpha)|;
    forall i | 0 <= i < |out| ensures alpha[i] == out[i].pad {
      assert PadPixels(alpha)[i] == View(RgbAlpha, out[i]);
    }
  }
}
