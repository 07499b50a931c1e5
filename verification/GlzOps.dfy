/**
 What a stream says, told without the decoder: a list of pieces, each of which paints units of the
 format, or copies units from so many units back, or copies units of another image. A stream
 decodes to these pixels exactly if it is such a list.
 */
module GlzOps {
  import opened Common
  import opened GlzToken
  import opened GlzDecode
  import opened GlzFormats

  /** Bytes of the stream, and the pixels that they add. */
  datatype Piece<T> = Piece(bytes: seq<byte>, pixels: seq<T>)

  function BytesOf<T>(ps: seq<Piece<T>>): seq<byte> { if ps == [] then [] else ps[0].bytes + BytesOf(ps[1..]) }

  function PixelsOf<T>(ps: seq<Piece<T>>): seq<T> { if ps == [] then [] else ps[0].pixels + PixelsOf(ps[1..]) }

  // ---------------------------------------------------------------- pieces for any codec

  /** The decoder takes the pieces one after the other. */
  ghost predicate Runs<T>(c: Codec<T>, env: map<nat, seq<T>>, id: nat, input: seq<byte>, size: nat, s: Cursor<T>, ps: seq<Piece<T>>)
    requires c.Valid()
    decreases |ps|
  {
    ps == [] ||
    (var n := Cursor(s.ip + |ps[0].bytes|, s.out + ps[0].pixels);
     && At(input, s.ip, ps[0].bytes)
     && Step(c, env, id, input, size, s) == Some(n) && Runs(c, env, id, input, size, n, ps[1..]))
  }

  lemma {:induction false} RunsAdd<T>(c: Codec<T>, env: map<nat, seq<T>>, id: nat, input: seq<byte>, size: nat, s: Cursor<T>,
                                      ps: seq<Piece<T>>)
    requires c.Valid() && Runs(c, env, id, input, size, s, ps)
    ensures |PixelsOf(ps)| >= |ps|
    decreases |ps|
  {
    if ps != [] {
      RunsAdd(c, env, id, input, size, Cursor(s.ip + |ps[0].bytes|, s.out + ps[0].pixels), ps[1..]);
    }
  }

  /** From s on the pieces lead to this end. */
  predicate EndsAt<T(==)>(s: Cursor<T>, ps: seq<Piece<T>>, end: Cursor<T>) {
    end.ip == s.ip + |BytesOf(ps)| && end.out == s.out + PixelsOf(ps)
  }

  lemma FirstAnd<T>(s: Cursor<T>, ps: seq<Piece<T>>, end: Cursor<T>)
    requires ps != []
    ensures var n := Cursor(s.ip + |ps[0].bytes|, s.out + ps[0].pixels);
            && (EndsAt(s, ps, end) <==> EndsAt(n, ps[1..], end))
            && (ps[1..] == [] ==> (EndsAt(s, ps, end) <==> end == n))
            && (EndsAt(s, ps, end) ==> |end.out| == |n.out| + |PixelsOf(ps[1..])|)
  {
    Assoc(s.out, ps[0].pixels, PixelsOf(ps[1..]));
    if ps[1..] == [] { assert PixelsOf(ps) == ps[0].pixels + [] && BytesOf(ps) == ps[0].bytes + []; }
  }

  lemma Assoc<T>(a: seq<T>, b: seq<T>, c: seq<T>)
    ensures a + b + c == a + (b + c) && |a + b| + |c| == |a| + |b + c|
  {
  }

  /** Pieces that fill the image are the decoding of the stream. */
  lemma {:induction false} RunsDecode<T>(c: Codec<T>, env: map<nat, seq<T>>, id: nat, input: seq<byte>, size: nat, s: Cursor<T>,
                                         ps: seq<Piece<T>>, end: Cursor<T>)
    requires c.Valid() && ps != [] && Runs(c, env, id, input, size, s, ps) && EndsAt(s, ps, end) && |end.out| == size
    ensures Decode(c, env, id, input, size, s) == Some(end)
    decreases |ps|
  {
    var n := Cursor(s.ip + |ps[0].bytes|, s.out + ps[0].pixels);
    FirstAnd(s, ps, end);
    RunsAdd(c, env, id, input, size, n, ps[1..]);
    StepDecodes(c, env, id, input, size, s, n);
    if ps[1..] != [] { RunsDecode(c, env, id, input, size, n, ps[1..], end); }
  }

  lemma StepDecodes<T>(c: Codec<T>, env: map<nat, seq<T>>, id: nat, input: seq<byte>, size: nat, s: Cursor<T>, n: Cursor<T>)
    requires c.Valid() && Step(c, env, id, input, size, s) == Some(n)
    ensures Decode(c, env, id, input, size, s) == if |n.out| < size then Decode(c, env, id, input, size, n) else Some(n)
  {
    DecodeNext(c, env, id, input, size, s);
  }

  lemma StepPiece<T>(c: Codec<T>, env: map<nat, seq<T>>, id: nat, input: seq<byte>, size: nat, s: Cursor<T>, n: Cursor<T>)
    returns (p: Piece<T>)
    requires c.Valid() && Step(c, env, id, input, size, s) == Some(n) && n.ip <= |input|
    ensures At(input, s.ip, p.bytes) && n == Cursor(s.ip + |p.bytes|, s.out + p.pixels)
  {
    p := Piece(input[s.ip..n.ip], n.out[|s.out|..]);
  }

  lemma {:induction false} LiteralsWithin<T>(c: Codec<T>, input: seq<byte>, size: nat, s: Cursor<T>, n: nat)
    requires c.Valid() && s.ip <= |input| && ReadLiterals(c, input, size, s, n).Some?
    ensures ReadLiterals(c, input, size, s, n).value.ip <= |input|
    decreases n
  {
    if n > 0 { LiteralsWithin(c, input, size, ReadGroup(c, input, size, s).value, n - 1); }
  }

  lemma StepWithin<T>(c: Codec<T>, env: map<nat, seq<T>>, id: nat, input: seq<byte>, size: nat, s: Cursor<T>)
    requires c.Valid() && Step(c, env, id, input, size, s).Some?
    ensures Step(c, env, id, input, size, s).value.ip <= |input|
  {
    var (t, ip) := ParseToken(input, s.ip).value;
    if t.Literal? { LiteralsWithin(c, input, size, Cursor(ip, s.out), t.count); }
  }

  lemma {:induction false} RunsCons<T>(c: Codec<T>, env: map<nat, seq<T>>, id: nat, input: seq<byte>, size: nat, s: Cursor<T>, n: Cursor<T>,
                    p: Piece<T>, later: seq<Piece<T>>)
    requires c.Valid() && At(input, s.ip, p.bytes) && n == Cursor(s.ip + |p.bytes|, s.out + p.pixels)
    requires Step(c, env, id, input, size, s) == Some(n) && Runs(c, env, id, input, size, n, later)
    ensures var ps := [p] + later; ps[0] == p && ps[1..] == later && Runs(c, env, id, input, size, s, ps)
  {
    assert ([p] + later)[1..] == later;
  }

  /** What decodes comes in pieces. */
  lemma {:induction false} DecodeRuns<T>(c: Codec<T>, env: map<nat, seq<T>>, id: nat, input: seq<byte>, size: nat, s: Cursor<T>,
                                         end: Cursor<T>) returns (ps: seq<Piece<T>>)
    requires c.Valid() && Decode(c, env, id, input, size, s) == Some(end)
    ensures ps != [] && Runs(c, env, id, input, size, s, ps)
    ensures EndsAt(s, ps, end)
    decreases if |s.out| < size then size - |s.out| else 0
  {
    var n := Step(c, env, id, input, size, s).value;
    StepWithin(c, env, id, input, size, s);
    var p := StepPiece(c, env, id, input, size, s, n);
    DecodeNext(c, env, id, input, size, s);
    var later: seq<Piece<T>> := [];
    if |n.out| < size {
      later := DecodeRuns(c, env, id, input, size, n, end);
    }
    ps := [p] + later;
    RunsCons(c, env, id, input, size, s, n, p, later);
    FirstAnd(s, ps, end);
  }

  // ---------------------------------------------------------------- units

  /** The pixels that n units stand for. */
  function Wide(f: Format, n: nat): nat {
    match f
    case Plt1Le => 8 * n
    case Plt1Be => 8 * n
    case Plt4Le => 2 * n
    case Plt4Be => 2 * n
    case Plt8 => n
    case Rgb32 => n
    case RgbAlpha => n
  }

  /** The bytes that k units take. */
  function Long(f: Format, k: nat): nat { if f.Rgb32? then 3 * k else k }

  function Count(f: Format, bytes: nat): nat { if f.Rgb32? then bytes / 3 else bytes }

  /** The pixels of the units in these bytes. */
  function Painted(f: Format, pal: Palette, bs: seq<byte>): seq<Pixel> {
    if |bs| < Long(f, 1) then [] else Cells(f, pal, bs[..Long(f, 1)]) + Painted(f, pal, bs[Long(f, 1)..])
  }

  /** The pixels of a copy of w pixels from d pixels back: those d pixels, over and over. */
  function Repeated(out: seq<Pixel>, d: nat, w: nat): seq<Pixel>
    requires 1 <= d <= |out|
  {
    seq(w, i requires 0 <= i < w => out[|out| - d + i % d])
  }

  /** The length that the token of a copy of n units carries. */
  function Stored(f: Format, n: nat): nat { if f.Rgb32? then n else if n < 2 then 0 else n - 2 }

  /** The shortest copy that a token can carry. */
  function Least(f: Format): nat { if f.Rgb32? then 1 else 3 }

  /** k units follow their count, less one. */
  ghost predicate Paints(f: Format, pal: Palette, p: Piece<Pixel>) {
    exists k: nat :: PaintsUnits(f, pal, p, k)
  }

  predicate PaintsUnits(f: Format, pal: Palette, p: Piece<Pixel>, k: nat) {
    1 <= k <= 32 && |p.bytes| == 1 + Long(f, k) && p.bytes[0] == k - 1 && p.pixels == Painted(f, pal, p.bytes[1..])
  }

  /** n units are the d units before, over and over. */
  ghost predicate CopiesBack(f: Format, out: seq<Pixel>, p: Piece<Pixel>) {
    exists n: nat, d: nat :: IsBack(f, out, p, n, d)
  }

  ghost predicate IsBack(f: Format, out: seq<Pixel>, p: Piece<Pixel>, n: nat, d: nat) {
    && n >= Least(f) && 1 <= d && Wide(f, d) <= |out|
    && IsToken(Stored(f, n), d - 1, 0, p.bytes)
    && p.pixels == Repeated(out, Wide(f, d), Wide(f, n))
  }

  /** n units are those of another image from its unit o on. */
  ghost predicate CopiesOther(f: Format, env: map<nat, seq<Pixel>>, id: nat, p: Piece<Pixel>) {
    exists n: nat, o: nat, dist: nat :: IsOther(f, env, id, p, n, o, dist)
  }

  ghost predicate IsOther(f: Format, env: map<nat, seq<Pixel>>, id: nat, p: Piece<Pixel>, n: nat, o: nat, dist: nat) {
    && n >= Least(f) && 1 <= dist <= id && id - dist in env && Wide(f, o) + Wide(f, n) <= |env[id - dist]|
    && IsToken(Stored(f, n), o, dist, p.bytes)
    && p.pixels == env[id - dist][Wide(f, o)..Wide(f, o) + Wide(f, n)]
  }

  /** The bytes are one of the forms of the token with these numbers. */
  ghost predicate IsToken(len: nat, ofs: nat, dist: nat, bytes: seq<byte>) {
    exists form, n: nat :: Fits(len, ofs, dist, form, n) && bytes == EncodeReference(len, ofs, dist, form, n)
  }

  /** The piece says something that can be done after the pixels out. */
  ghost predicate Says(f: Format, pal: Palette, env: map<nat, seq<Pixel>>, id: nat, out: seq<Pixel>, p: Piece<Pixel>) {
    Paints(f, pal, p) || CopiesBack(f, out, p) || CopiesOther(f, env, id, p)
  }

  // ---------------------------------------------------------------- one operation

  lemma LongStep(f: Format, k: nat)
    requires k > 0
    ensures Long(f, k) == Long(f, 1) + Long(f, k - 1) && Wide(f, k) == Wide(f, 1) + Wide(f, k - 1)
    ensures Long(f, 1) == Unit(f) && Wide(f, 1) == Scale(f) && (f.Rgb32? || Long(f, k) == k)
  {
  }

  lemma {:induction false} PaintedLength(f: Format, pal: Palette, bs: seq<byte>, k: nat)
    requires |bs| == Long(f, k)
    ensures |Painted(f, pal, bs)| == Wide(f, k)
    decreases k
  {
    if k > 0 {
      LongStep(f, k);
      PaintedLength(f, pal, bs[Long(f, 1)..], k - 1);
    }
  }

  /** A unit of any codec. */
  lemma ReadsOne<T>(c: Codec<T>, input: seq<byte>, size: nat, s: Cursor<T>, k: nat)
    requires c.Valid() && k > 0
    ensures var r := ReadLiterals(c, input, size, s, k);
            if s.ip + c.unit > |input| || |s.out| + c.scale > size then r == None
            else r == ReadLiterals(c, input, size, Cursor(s.ip + c.unit, s.out + c.cells(input[s.ip..s.ip + c.unit])), k - 1)
  {
  }

  /** The pixels of the units in these bytes, for any codec. */
  function Groups<T>(c: Codec<T>, bs: seq<byte>): seq<T>
    requires c.Valid()
    decreases |bs|
  {
    if |bs| < c.unit then [] else c.cells(bs[..c.unit]) + Groups(c, bs[c.unit..])
  }

  /** There are exactly k units. */
  ghost predicate Whole<T>(c: Codec<T>, bs: seq<byte>, k: nat)
    requires c.Valid()
    decreases k
  {
    if k == 0 then bs == [] else |bs| >= c.unit && Whole(c, bs[c.unit..], k - 1)
  }

  lemma {:induction false} GroupsRead<T>(c: Codec<T>, input: seq<byte>, size: nat, s: Cursor<T>, bs: seq<byte>, k: nat, end: Cursor<T>)
    requires c.Valid() && At(input, s.ip, bs) && Whole(c, bs, k) && |end.out| <= size
    requires end.ip == s.ip + |bs| && end.out == s.out + Groups(c, bs)
    ensures ReadLiterals(c, input, size, s, k) == Some(end)
    decreases k
  {
    if k > 0 {
      var first, rest := bs[..c.unit], bs[c.unit..];
      UnitAt(input, s.ip, bs, c.unit);
      Assoc(s.out, c.cells(first), Groups(c, rest));
      GroupsRead(c, input, size, Cursor(s.ip + c.unit, s.out + c.cells(first)), rest, k - 1, end);
      ReadsOne(c, input, size, s, k);
    } else {
      assert s.out + [] == s.out;
    }
  }

  lemma {:induction false} PaintedGroups(f: Format, pal: Palette, bs: seq<byte>, k: nat)
    requires |bs| == Long(f, k)
    ensures Groups(CodecOf(f, pal), bs) == Painted(f, pal, bs) && Whole(CodecOf(f, pal), bs, k)
    decreases k
  {
    if k > 0 {
      LongStep(f, k);
      PaintedGroups(f, pal, bs[Long(f, 1)..], k - 1);
    }
  }

  lemma PaintReads(f: Format, pal: Palette, input: seq<byte>, size: nat, s: Cursor<Pixel>, bs: seq<byte>, k: nat)
    requires At(input, s.ip, bs) && |bs| == Long(f, k) && |s.out| + Wide(f, k) <= size
    ensures ReadLiterals(CodecOf(f, pal), input, size, s, k) == Some(Cursor(s.ip + |bs|, s.out + Painted(f, pal, bs)))
  {
    PaintedLength(f, pal, bs, k);
    PaintedGroups(f, pal, bs, k);
    GroupsRead(CodecOf(f, pal), input, size, s, bs, k, Cursor(s.ip + |bs|, s.out + Painted(f, pal, bs)));
  }

  lemma UnitAt(input: seq<byte>, ip: nat, bs: seq<byte>, u: nat)
    requires At(input, ip, bs) && u <= |bs|
    ensures ip + u <= |input| && input[ip..ip + u] == bs[..u] && At(input, ip + u, bs[u..])
  {
    AtParts(input, ip, bs[..u], bs[u..]);
    assert bs[..u] + bs[u..] == bs;
  }

  /** Literals are read only where there is room for them in both buffers. */
  lemma {:induction false} ReadsPaint(f: Format, pal: Palette, input: seq<byte>, size: nat, s: Cursor<Pixel>, k: nat)
    requires ReadLiterals(CodecOf(f, pal), input, size, s, k).Some? && s.ip <= |input| && |s.out| <= size
    ensures s.ip + Long(f, k) <= |input| && |s.out| + Wide(f, k) <= size
    decreases k
  {
    if k > 0 {
      LongStep(f, k);
      ReadsOne(CodecOf(f, pal), input, size, s, k);
      ReadsPaint(f, pal, input, size, Cursor(s.ip + Long(f, 1), s.out + Cells(f, pal, input[s.ip..s.ip + Long(f, 1)])), k - 1);
    }
  }

  // ---------------------------------------------------------------- one piece

  lemma WideIsTimes(f: Format, n: nat)
    ensures Wide(f, n) == Times(n, Scale(f)) && IsScale(Scale(f))
  {
  }

  lemma RepeatedIsCopy(out: seq<Pixel>, d: nat, w: nat)
    requires 1 <= d <= |out|
    ensures CopyBack(out, d, w) == out + Repeated(out, d, w)
  {
    forall i | 0 <= i < w ensures CopyBack(out, d, w)[|out| + i] == Repeated(out, d, w)[i] {
      CopyBackPeriodic(out, d, w, i);
    }
  }

  /** The match of a token with the pixels that it gives, without a word on how. */
  lemma BackMatches(f: Format, pal: Palette, env: map<nat, seq<Pixel>>, id: nat, size: nat, out: seq<Pixel>, n: nat, d: nat)
    requires n >= Least(f) && 1 <= d
    ensures Match(CodecOf(f, pal), env, id, size, out, Reference(Stored(f, n), d - 1, 0))
            == if Wide(f, d) <= |out| && |out| + Wide(f, n) <= size then Some(out + Repeated(out, Wide(f, d), Wide(f, n))) else None
  {
    WideIsTimes(f, n);
    WideIsTimes(f, d);
    if Wide(f, d) <= |out| { RepeatedIsCopy(out, Wide(f, d), Wide(f, n)); }
  }

  lemma OtherMatches(f: Format, pal: Palette, env: map<nat, seq<Pixel>>, id: nat, size: nat, out: seq<Pixel>, n: nat, o: nat, dist: nat)
    requires n >= Least(f) && 1 <= dist
    ensures Match(CodecOf(f, pal), env, id, size, out, Reference(Stored(f, n), o, dist))
            == if dist <= id && id - dist in env && Wide(f, o) + Wide(f, n) <= |env[id - dist]| && |out| + Wide(f, n) <= size
               then Some(out + env[id - dist][Wide(f, o)..Wide(f, o) + Wide(f, n)]) else None
  {
    WideIsTimes(f, n);
    WideIsTimes(f, o);
  }

  lemma TokenParses(input: seq<byte>, ip: nat, len: nat, ofs: nat, dist: nat, bytes: seq<byte>)
    requires IsToken(len, ofs, dist, bytes) && At(input, ip, bytes)
    ensures ParseToken(input, ip) == Some((Reference(len, ofs, dist), ip + |bytes|)) && len >= 1
  {
    var form, n :| Fits(len, ofs, dist, form, n) && bytes == EncodeReference(len, ofs, dist, form, n);
    EncodedParses(input, ip, len, ofs, dist, form, n);
  }

  lemma ParsesToken(input: seq<byte>, ip: nat, t: Token, bytes: seq<byte>)
    requires ParseToken(input, ip) == Some((t, ip + |bytes|)) && t.Reference? && At(input, ip, bytes)
    ensures IsToken(t.len, t.ofs, t.dist, bytes) && t.len >= 1
  {
    var form, n := ParsedIsEncoded(input, ip);
    assert bytes == EncodeReference(t.len, t.ofs, t.dist, form, n);
  }

  /** A reference steps to what its match is, for any codec. */
  lemma ReferenceSteps<T>(c: Codec<T>, env: map<nat, seq<T>>, id: nat, input: seq<byte>, size: nat, s: Cursor<T>, t: Token, end: nat)
    requires c.Valid() && ParseToken(input, s.ip) == Some((t, end)) && t.Reference? && t.len >= 1
    ensures Step(c, env, id, input, size, s)
            == match Match(c, env, id, size, s.out, t) case None => None case Some(out) => Some(Cursor(end, out))
  {
  }

  lemma LiteralSteps<T>(c: Codec<T>, env: map<nat, seq<T>>, id: nat, input: seq<byte>, size: nat, s: Cursor<T>)
    requires c.Valid() && s.ip < |input| && ByteAt(input, s.ip) < 32
    ensures Step(c, env, id, input, size, s) == ReadLiterals(c, input, size, Cursor(s.ip + 1, s.out), ByteAt(input, s.ip) + 1)
    ensures ParseToken(input, s.ip) == Some((Literal(ByteAt(input, s.ip) + 1), s.ip + 1))
  {
  }

  lemma Cancel<T>(a: seq<T>, b: seq<T>, c: seq<T>)
    requires a + b == a + c
    ensures b == c
  {
    assert (a + b)[|a|..] == b && (a + c)[|a|..] == c;
  }

  lemma FirstByte(input: seq<byte>, ip: nat, bytes: seq<byte>)
    requires bytes != [] && At(input, ip, bytes)
    ensures ip < |input| && input[ip] == bytes[0] && At(input, ip + 1, bytes[1..])
  {
    assert bytes == [bytes[0]] + bytes[1..];
    AtParts(input, ip, [bytes[0]], bytes[1..]);
    AtOne(input, ip, bytes[0]);
  }

  lemma PaintDone(f: Format, pal: Palette, input: seq<byte>, size: nat, s: Cursor<Pixel>, p: Piece<Pixel>, k: nat)
    requires PaintsUnits(f, pal, p, k) && At(input, s.ip, p.bytes) && |s.out| + |p.pixels| <= size
    ensures s.ip < |input| && ByteAt(input, s.ip) == k - 1
    ensures ReadLiterals(CodecOf(f, pal), input, size, Cursor(s.ip + 1, s.out), k)
            == Some(Cursor(s.ip + |p.bytes|, s.out + p.pixels))
  {
    var bs := p.bytes[1..];
    FirstByte(input, s.ip, p.bytes);
    PaintedLength(f, pal, bs, k);
    PaintReads(f, pal, input, size, Cursor(s.ip + 1, s.out), bs, k);
    assert s.ip + 1 + |bs| == s.ip + |p.bytes|;
  }

  /** The decoder takes a piece that says something in one step, and does what it says. */
  lemma SaidIsDone(f: Format, pal: Palette, env: map<nat, seq<Pixel>>, id: nat, input: seq<byte>, size: nat, s: Cursor<Pixel>,
                   p: Piece<Pixel>, n: Cursor<Pixel>)
    requires Says(f, pal, env, id, s.out, p) && At(input, s.ip, p.bytes)
    requires n == Cursor(s.ip + |p.bytes|, s.out + p.pixels) && |n.out| <= size
    ensures Step(CodecOf(f, pal), env, id, input, size, s) == Some(n)
  {
    if k: nat :| PaintsUnits(f, pal, p, k) {
      PaintDone(f, pal, input, size, s, p, k);
      LiteralSteps(CodecOf(f, pal), env, id, input, size, s);
    } else {
      var t := CopyMatches(f, pal, env, id, input, size, s, p);
      ReferenceSteps(CodecOf(f, pal), env, id, input, size, s, t, n.ip);
    }
  }

  lemma BackDone(f: Format, pal: Palette, env: map<nat, seq<Pixel>>, id: nat, input: seq<byte>, size: nat, s: Cursor<Pixel>,
                 p: Piece<Pixel>, w: nat, d: nat)
    requires IsBack(f, s.out, p, w, d) && At(input, s.ip, p.bytes) && |s.out| + |p.pixels| <= size
    ensures var t := Reference(Stored(f, w), d - 1, 0);
            && ParseToken(input, s.ip) == Some((t, s.ip + |p.bytes|)) && t.len >= 1
            && Match(CodecOf(f, pal), env, id, size, s.out, t) == Some(s.out + p.pixels)
  {
    TokenParses(input, s.ip, Stored(f, w), d - 1, 0, p.bytes);
    BackMatches(f, pal, env, id, size, s.out, w, d);
  }

  lemma OtherDone(f: Format, pal: Palette, env: map<nat, seq<Pixel>>, id: nat, input: seq<byte>, size: nat, s: Cursor<Pixel>,
                  p: Piece<Pixel>, w: nat, o: nat, dist: nat)
    requires IsOther(f, env, id, p, w, o, dist) && At(input, s.ip, p.bytes) && |s.out| + |p.pixels| <= size
    ensures var t := Reference(Stored(f, w), o, dist);
            && ParseToken(input, s.ip) == Some((t, s.ip + |p.bytes|)) && t.len >= 1
            && Match(CodecOf(f, pal), env, id, size, s.out, t) == Some(s.out + p.pixels)
  {
    TokenParses(input, s.ip, Stored(f, w), o, dist, p.bytes);
    OtherMatches(f, pal, env, id, size, s.out, w, o, dist);
  }

  lemma CopyMatches(f: Format, pal: Palette, env: map<nat, seq<Pixel>>, id: nat, input: seq<byte>, size: nat, s: Cursor<Pixel>,
                    p: Piece<Pixel>) returns (t: Token)
    requires (CopiesBack(f, s.out, p) || CopiesOther(f, env, id, p)) && At(input, s.ip, p.bytes) && |s.out| + |p.pixels| <= size
    ensures t.Reference? && t.len >= 1 && ParseToken(input, s.ip) == Some((t, s.ip + |p.bytes|))
    ensures Match(CodecOf(f, pal), env, id, size, s.out, t) == Some(s.out + p.pixels)
  {
    if w: nat, d: nat :| IsBack(f, s.out, p, w, d) {
      t := Reference(Stored(f, w), d - 1, 0);
      BackDone(f, pal, env, id, input, size, s, p, w, d);
    } else {
      var w: nat, o: nat, dist: nat :| IsOther(f, env, id, p, w, o, dist);
      t := Reference(Stored(f, w), o, dist);
      OtherDone(f, pal, env, id, input, size, s, p, w, o, dist);
    }
  }

  lemma DonePaint(f: Format, pal: Palette, input: seq<byte>, size: nat, s: Cursor<Pixel>, p: Piece<Pixel>, k: nat)
    requires At(input, s.ip, p.bytes) && s.ip < |input| && ByteAt(input, s.ip) == k - 1 && 1 <= k <= 32 && |s.out| <= size
    requires ReadLiterals(CodecOf(f, pal), input, size, Cursor(s.ip + 1, s.out), k)
             == Some(Cursor(s.ip + |p.bytes|, s.out + p.pixels))
    ensures PaintsUnits(f, pal, p, k)
  {
    ReadsPaint(f, pal, input, size, Cursor(s.ip + 1, s.out), k);
    var bs := input[s.ip + 1..s.ip + 1 + Long(f, k)];
    PaintReads(f, pal, input, size, Cursor(s.ip + 1, s.out), bs, k);
    Cancel(s.out, p.pixels, Painted(f, pal, bs));
    assert p.bytes == input[s.ip..s.ip + 1 + Long(f, k)];
    assert p.bytes[1..] == bs && p.bytes[0] == input[s.ip];
  }

  lemma DoneBack(f: Format, pal: Palette, env: map<nat, seq<Pixel>>, id: nat, size: nat, out: seq<Pixel>, p: Piece<Pixel>,
                 t: Token, w: nat)
    requires t.Reference? && t.len >= 1 && t.dist == 0 && IsToken(t.len, t.ofs, 0, p.bytes)
    requires w == t.len + if f.Rgb32? then 0 else 2
    requires Match(CodecOf(f, pal), env, id, size, out, t) == Some(out + p.pixels)
    ensures IsBack(f, out, p, w, t.ofs + 1)
  {
    BackMatches(f, pal, env, id, size, out, w, t.ofs + 1);
    Cancel(out, p.pixels, Repeated(out, Wide(f, t.ofs + 1), Wide(f, w)));
  }

  lemma DoneOther(f: Format, pal: Palette, env: map<nat, seq<Pixel>>, id: nat, size: nat, out: seq<Pixel>, p: Piece<Pixel>,
                  t: Token, w: nat)
    requires t.Reference? && t.len >= 1 && t.dist > 0 && IsToken(t.len, t.ofs, t.dist, p.bytes)
    requires w == t.len + if f.Rgb32? then 0 else 2
    requires Match(CodecOf(f, pal), env, id, size, out, t) == Some(out + p.pixels)
    ensures IsOther(f, env, id, p, w, t.ofs, t.dist)
  {
    OtherMatches(f, pal, env, id, size, out, w, t.ofs, t.dist);
    Cancel(out, p.pixels, env[id - t.dist][Wide(f, t.ofs)..Wide(f, t.ofs) + Wide(f, w)]);
  }

  lemma DoneCopy(f: Format, pal: Palette, env: map<nat, seq<Pixel>>, id: nat, input: seq<byte>, size: nat, s: Cursor<Pixel>,
                 p: Piece<Pixel>, t: Token)
    requires At(input, s.ip, p.bytes) && t.Reference? && ParseToken(input, s.ip) == Some((t, s.ip + |p.bytes|))
    requires t.len >= 1 && Match(CodecOf(f, pal), env, id, size, s.out, t) == Some(s.out + p.pixels)
    ensures CopiesBack(f, s.out, p) || CopiesOther(f, env, id, p)
  {
    var w := t.len + if f.Rgb32? then 0 else 2;
    ParsesToken(input, s.ip, t, p.bytes);
    if t.dist == 0 { DoneBack(f, pal, env, id, size, s.out, p, t, w); } else { DoneOther(f, pal, env, id, size, s.out, p, t, w); }
  }

  /** Whatever the decoder takes in one step says what it does. */
  lemma DoneIsSaid(f: Format, pal: Palette, env: map<nat, seq<Pixel>>, id: nat, input: seq<byte>, size: nat, s: Cursor<Pixel>,
                   p: Piece<Pixel>)
    requires At(input, s.ip, p.bytes)
    requires Step(CodecOf(f, pal), env, id, input, size, s) == Some(Cursor(s.ip + |p.bytes|, s.out + p.pixels))
    ensures Says(f, pal, env, id, s.out, p) && |s.out| + |p.pixels| <= size
  {
    var (t, end) := ParseToken(input, s.ip).value;
    if t.Literal? {
      LiteralSteps(CodecOf(f, pal), env, id, input, size, s);
      DonePaint(f, pal, input, size, s, p, ByteAt(input, s.ip) + 1);
    } else {
      ReferenceSteps(CodecOf(f, pal), env, id, input, size, s, t, end);
      DoneCopy(f, pal, env, id, input, size, s, p, t);
    }
  }

  // ---------------------------------------------------------------- whole streams

  /** Each piece says something that can be done after those before it. */
  ghost predicate Story(f: Format, pal: Palette, env: map<nat, seq<Pixel>>, id: nat, out: seq<Pixel>, ps: seq<Piece<Pixel>>)
    decreases |ps|
  {
    ps == [] || (Says(f, pal, env, id, out, ps[0]) && Story(f, pal, env, id, out + ps[0].pixels, ps[1..]))
  }

  lemma {:induction false} StoryRuns(f: Format, pal: Palette, env: map<nat, seq<Pixel>>, id: nat, input: seq<byte>, size: nat,
                                     s: Cursor<Pixel>, ps: seq<Piece<Pixel>>)
    requires Story(f, pal, env, id, s.out, ps) && At(input, s.ip, BytesOf(ps)) && |s.out| + |PixelsOf(ps)| <= size
    ensures Runs(CodecOf(f, pal), env, id, input, size, s, ps)
    decreases |ps|
  {
    if ps != [] {
      var n := Cursor(s.ip + |ps[0].bytes|, s.out + ps[0].pixels);
      AtParts(input, s.ip, ps[0].bytes, BytesOf(ps[1..]));
      SaidIsDone(f, pal, env, id, input, size, s, ps[0], n);
      StoryRuns(f, pal, env, id, input, size, n, ps[1..]);
    }
  }

  lemma {:induction false} RunsStory(f: Format, pal: Palette, env: map<nat, seq<Pixel>>, id: nat, input: seq<byte>, size: nat,
                                     s: Cursor<Pixel>, ps: seq<Piece<Pixel>>)
    requires Runs(CodecOf(f, pal), env, id, input, size, s, ps)
    ensures Story(f, pal, env, id, s.out, ps)
    decreases |ps|
  {
    if ps != [] {
      DoneIsSaid(f, pal, env, id, input, size, s, ps[0]);
      RunsStory(f, pal, env, id, input, size, Cursor(s.ip + |ps[0].bytes|, s.out + ps[0].pixels), ps[1..]);
    }
  }

  lemma {:induction false} RunsBytes<T>(c: Codec<T>, env: map<nat, seq<T>>, id: nat, input: seq<byte>, size: nat, s: Cursor<T>,
                                        ps: seq<Piece<T>>)
    requires c.Valid() && ps != [] && Runs(c, env, id, input, size, s, ps)
    ensures At(input, s.ip, BytesOf(ps))
    decreases |ps|
  {
    if ps[1..] != [] {
      RunsBytes(c, env, id, input, size, Cursor(s.ip + |ps[0].bytes|, s.out + ps[0].pixels), ps[1..]);
    }
    BytesAt(input, s.ip, ps);
  }

  lemma BytesAt<T>(input: seq<byte>, ip: nat, ps: seq<Piece<T>>)
    requires ps != [] && At(input, ip, ps[0].bytes) && (ps[1..] == [] || At(input, ip + |ps[0].bytes|, BytesOf(ps[1..])))
    ensures At(input, ip, BytesOf(ps))
  {
    if ps[1..] == [] {
      assert BytesOf(ps) == ps[0].bytes + [] == ps[0].bytes;
    } else {
      AtParts(input, ip, ps[0].bytes, BytesOf(ps[1..]));
    }
  }

  /** The pieces say these pixels, and stand between ip and end. */
  ghost predicate Tells(f: Format, pal: Palette, env: map<nat, seq<Pixel>>, id: nat, input: seq<byte>, s: Cursor<Pixel>,
                        end: Cursor<Pixel>, ps: seq<Piece<Pixel>>)
  {
    ps != [] && Story(f, pal, env, id, s.out, ps) && At(input, s.ip, BytesOf(ps)) && EndsAt(s, ps, end)
  }

  lemma ToldDecodes(f: Format, pal: Palette, env: map<nat, seq<Pixel>>, id: nat, input: seq<byte>, s: Cursor<Pixel>,
                    end: Cursor<Pixel>, ps: seq<Piece<Pixel>>)
    requires Tells(f, pal, env, id, input, s, end, ps)
    ensures Decode(CodecOf(f, pal), env, id, input, |end.out|, s) == Some(end)
  {
    StoryRuns(f, pal, env, id, input, |end.out|, s, ps);
    RunsDecode(CodecOf(f, pal), env, id, input, |end.out|, s, ps, end);
  }

  lemma DecodedTells(f: Format, pal: Palette, env: map<nat, seq<Pixel>>, id: nat, input: seq<byte>, s: Cursor<Pixel>,
                     end: Cursor<Pixel>) returns (ps: seq<Piece<Pixel>>)
    requires Decode(CodecOf(f, pal), env, id, input, |end.out|, s) == Some(end)
    ensures Tells(f, pal, env, id, input, s, end, ps)
  {
    ps := DecodeRuns(CodecOf(f, pal), env, id, input, |end.out|, s, end);
    RunsStory(f, pal, env, id, input, |end.out|, s, ps);
    RunsBytes(CodecOf(f, pal), env, id, input, |end.out|, s, ps);
  }

  /** A stream decodes to these pixels, and ends there, exactly if it is a list of pieces that say
      these pixels. */
  lemma DecodesIffTold(f: Format, pal: Palette, env: map<nat, seq<Pixel>>, id: nat, input: seq<byte>, ip: nat, end: Cursor<Pixel>)
    ensures Decode(CodecOf(f, pal), env, id, input, |end.out|, Cursor(ip, [])) == Some(end)
            <==> exists ps :: Tells(f, pal, env, id, input, Cursor(ip, []), end, ps)
  {
    if Decode(CodecOf(f, pal), env, id, input, |end.out|, Cursor(ip, [])) == Some(end) {
      var ps := DecodedTells(f, pal, env, id, input, Cursor(ip, []), end);
    }
    if ps :| Tells(f, pal, env, id, input, Cursor(ip, []), end, ps) {
      ToldDecodes(f, pal, env, id, input, Cursor(ip, []), end, ps);
    }
  }
}
