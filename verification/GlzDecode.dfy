/**
 What a GLZ stream means: the decode loop as a recursion over tokens, for any
 type of cell, and the laws that relate the instantiations of the template.
 */
module GlzDecode {
  import opened Arithmetic
  import opened Common
  import opened GlzToken

  /** n pixels of the compression unit in pixels of the output (CAST_PLT_DISTANCE). */
  function Times(n: nat, s: nat): nat {
    if s == 8 then n * 8 else if s == 2 then n * 2 else n
  }

  predicate IsScale(s: nat) { s == 1 || s == 2 || s == 8 }

  /** One instantiation of the decoder: the bias of match lengths, the pixels and the bytes
      per literal group, and the pixels that the bytes of a group stand for. */
  datatype Codec<T> = Codec(bias: nat, scale: nat, unit: nat, cells: seq<byte> -> seq<T>) {
    ghost predicate Valid() {
      IsScale(scale) && unit >= 1 && forall bs: seq<byte> :: |bs| == unit ==> |cells(bs)| == scale
    }
  }

  /** Read position and the pixels produced so far. */
  datatype Cursor<T> = Cursor(ip: nat, out: seq<T>)

  /** A copy from d pixels back, pixel by pixel, so that source and target may overlap. */
  function CopyBack<T>(out: seq<T>, d: nat, len: nat): (r: seq<T>)
    requires 1 <= d <= |out|
    ensures |r| == |out| + len && out <= r
    decreases len
  {
    if len == 0 then out else CopyBack(out + [out[|out| - d]], d, len - 1)
  }

  /** One literal group. */
  function ReadGroup<T>(c: Codec<T>, input: seq<byte>, size: nat, s: Cursor<T>): (r: Option<Cursor<T>>)
    requires c.Valid()
    ensures r.Some? ==> |s.out| < |r.value.out| <= size && s.out <= r.value.out && s.ip <= r.value.ip
  {
    if s.ip + c.unit > |input| || |s.out| + c.scale > size then None
    else Some(Cursor(s.ip + c.unit, s.out + c.cells(input[s.ip..s.ip + c.unit])))
  }

  function ReadLiterals<T>(c: Codec<T>, input: seq<byte>, size: nat, s: Cursor<T>, n: nat): (r: Option<Cursor<T>>)
    requires c.Valid()
    ensures r.Some? && n > 0 ==> |s.out| < |r.value.out| <= size
    ensures r.Some? ==> s.out <= r.value.out && s.ip <= r.value.ip
    decreases n
  {
    if n == 0 then Some(s) else
    var g := ReadGroup(c, input, size, s);
    if g.None? then None else ReadLiterals(c, input, size, g.value, n - 1)
  }

  /** A match of len pixels from d pixels back in the same image. */
  function Near<T>(out: seq<T>, size: nat, d: nat, len: nat): (r: Option<seq<T>>)
    requires d >= 1
    ensures r.Some? ==> |r.value| == |out| + len <= size && out <= r.value
  {
    if |out| + len > size || d > |out| then None else Some(CopyBack(out, d, len))
  }

  /** A match of len pixels from offset ofs of an earlier image. */
  function Far<T>(out: seq<T>, size: nat, src: seq<T>, ofs: nat, len: nat): (r: Option<seq<T>>)
    ensures r.Some? ==> |r.value| == |out| + len <= size && out <= r.value
  {
    if |out| + len > size || ofs + len > |src| then None else Some(out + src[ofs..ofs + len])
  }

  /** The effect of a reference. */
  function Match<T>(c: Codec<T>, env: map<nat, seq<T>>, id: nat, size: nat, out: seq<T>, t: Token): (r: Option<seq<T>>)
    requires c.Valid() && t.Reference? && t.len >= 1
    ensures r.Some? ==> |out| < |r.value| <= size && out <= r.value
  {
    var len := Times(t.len + c.bias, c.scale);
    if t.dist == 0 then Near(out, size, Times(t.ofs + 1, c.scale), len)
    else if t.dist > id || id - t.dist !in env then None
    else Far(out, size, env[id - t.dist], Times(t.ofs, c.scale), len)
  }

  /** One token of image id; env holds the images that it may refer to. */
  function Step<T>(c: Codec<T>, env: map<nat, seq<T>>, id: nat, input: seq<byte>, size: nat, s: Cursor<T>): (r: Option<Cursor<T>>)
    requires c.Valid()
    ensures r.Some? ==> |s.out| < |r.value.out| <= size && s.out <= r.value.out && s.ip < r.value.ip
  {
    match ParseToken(input, s.ip)
    case None => None
    case Some((Literal(n), ip)) => ReadLiterals(c, input, size, Cursor(ip, s.out), n)
    case Some((Reference(l, o, d), ip)) =>
      var m := Match(c, env, id, size, s.out, Reference(l, o, d));
      if m.None? then None else Some(Cursor(ip, m.value))
  }

  /** The whole stream: tokens until size pixels are there. None where the decoder gives up. */
  function Decode<T>(c: Codec<T>, env: map<nat, seq<T>>, id: nat, input: seq<byte>, size: nat, s: Cursor<T>): (r: Option<Cursor<T>>)
    requires c.Valid()
    ensures r.Some? ==> |r.value.out| == size && s.out <= r.value.out
    decreases if |s.out| < size then size - |s.out| else 0
  {
    var n := Step(c, env, id, input, size, s);
    if n.None? then None
    else if |n.value.out| < size then Decode(c, env, id, input, size, n.value)
    else n
  }

  /** After a token the stream goes on, or is at its end. */
  lemma DecodeNext<T>(c: Codec<T>, env: map<nat, seq<T>>, id: nat, input: seq<byte>, size: nat, s: Cursor<T>)
    requires c.Valid() && Step(c, env, id, input, size, s).Some?
    ensures var n := Step(c, env, id, input, size, s).value;
            && |n.out| <= size
            && Decode(c, env, id, input, size, s) == (if |n.out| < size then Decode(c, env, id, input, size, n) else Some(n))
            && (Decode(c, env, id, input, size, n).Some? && |n.out| < size ==> n.ip < |input|)
  {
    var n := Step(c, env, id, input, size, s).value;
    if |n.out| < size && Decode(c, env, id, input, size, n).Some? {
      assert Step(c, env, id, input, size, n).Some?;
    }
  }

  // ---------------------------------------------------------------- overlapping copies

  lemma {:induction false} CopyBackSplit<T>(out: seq<T>, d: nat, a: nat, b: nat)
    requires 1 <= d <= |out|
    ensures CopyBack(out, d, a + b) == CopyBack(CopyBack(out, d, a), d, b)
    decreases a
  {
    if a > 0 { CopyBackSplit(out + [out[|out| - d]], d, a - 1, b); }
  }

  lemma {:induction false} CopyBackAt<T>(out: seq<T>, d: nat, len: nat, i: nat)
    requires 1 <= d <= |out| && |out| <= i < |out| + len
    ensures CopyBack(out, d, len)[i] == CopyBack(out, d, len)[i - d]
    decreases len
  {
    var next := out + [out[|out| - d]];
    assert next <= CopyBack(next, d, len - 1);
    if i > |out| { CopyBackAt(next, d, len - 1, i); }
  }

  /** A copy whose source ends before its target begins is a block copy. */
  lemma CopyBackBlock<T>(out: seq<T>, d: nat, len: nat)
    requires 1 <= d <= |out| && len <= d
    ensures CopyBack(out, d, len) == out + out[|out| - d..|out| - d + len]
  {
    forall i | |out| <= i < |out| + len ensures CopyBack(out, d, len)[i] == out[i - d] {
      CopyBackAt(out, d, len, i);
    }
  }

  /** An overlapping copy repeats the last d pixels: it is their periodic extension. */
  lemma {:induction false} CopyBackPeriodic<T>(out: seq<T>, d: nat, len: nat, i: nat)
    requires 1 <= d <= |out| && i < len
    ensures CopyBack(out, d, len)[|out| + i] == out[|out| - d + i % d]
  {
    CopyBackAt(out, d, len, |out| + i);
    if i >= d {
      CopyBackPeriodic(out, d, len, i - d);
      ModShift(i, d);
    } else {
      ModUnique(i, d, 0, i);
    }
  }

  // ---------------------------------------------------------------- expanding cells

  /** E turns every cell into s cells, sequence by sequence. */
  ghost predicate Expansion<T(!new), U>(E: seq<T> -> seq<U>, s: nat) {
    && IsScale(s)
    && (forall xs: seq<T> {:trigger Lengthens(E, s, xs)} :: Lengthens(E, s, xs))
    && (forall a: seq<T>, b: seq<T> {:trigger Distributes(E, a, b)} :: Distributes(E, a, b))
  }

  ghost predicate Lengthens<T, U>(E: seq<T> -> seq<U>, s: nat, xs: seq<T>) { |E(xs)| == Times(|xs|, s) }

  ghost predicate Distributes<T, U>(E: seq<T> -> seq<U>, a: seq<T>, b: seq<T>) { E(a + b) == E(a) + E(b) }

  /** c' reads the same stream as c, each cell of c being s cells of c'. */
  ghost predicate Scales<T(!new), U>(c: Codec<T>, c': Codec<U>, E: seq<T> -> seq<U>, s: nat) {
    && c.Valid() && c'.Valid() && Expansion(E, s)
    && c.scale == 1 && c'.scale == s && c.bias == c'.bias && c.unit == c'.unit
    && forall bs: seq<byte> :: |bs| == c.unit ==> c'.cells(bs) == E(c.cells(bs))
  }

  function ExpandEnv<T, U>(E: seq<T> -> seq<U>, env: map<nat, seq<T>>): map<nat, seq<U>> {
    map k | k in env :: E(env[k])
  }

  function ExpandSome<T, U>(E: seq<T> -> seq<U>, x: Option<seq<T>>): Option<seq<U>> {
    match x
    case None => None
    case Some(y) => Some(E(y))
  }

  function ExpandCursor<T, U>(E: seq<T> -> seq<U>, c: Option<Cursor<T>>): Option<Cursor<U>> {
    match c
    case None => None
    case Some(x) => Some(Cursor(x.ip, E(x.out)))
  }

  lemma RoomScales(have: nat, more: nat, size: nat, s: nat)
    requires IsScale(s)
    ensures have + more <= size <==> Times(have, s) + Times(more, s) <= Times(size, s)
    ensures Times(1, s) == s && Times(have + more, s) == Times(have, s) + Times(more, s)
  {
  }

  lemma ExpandSlice<T(!new), U>(E: seq<T> -> seq<U>, s: nat, xs: seq<T>, lo: nat, hi: nat)
    requires Expansion(E, s) && lo <= hi <= |xs|
    ensures Times(lo, s) <= Times(hi, s) <= |E(xs)|
    ensures E(xs)[Times(lo, s)..Times(hi, s)] == E(xs[lo..hi])
  {
    var a, b, c := xs[..lo], xs[lo..hi], xs[hi..];
    assert xs == a + (b + c);
    assert Distributes(E, a, b + c) && Distributes(E, b, c);
    assert Lengthens(E, s, a) && Lengthens(E, s, b) && Lengthens(E, s, c);
    RoomScales(lo, hi - lo, hi, s);
    Middle(E(a), E(b), E(c));
  }

  lemma Middle<T>(a: seq<T>, b: seq<T>, c: seq<T>)
    ensures (a + (b + c))[|a|..|a| + |b|] == b
  {
  }

  lemma ExpandCell<T(!new), U>(E: seq<T> -> seq<U>, s: nat, xs: seq<T>, i: nat)
    requires Expansion(E, s) && i < |xs|
    ensures |E(xs)| == Times(i, s) + Times(|xs| - i, s) && s <= Times(|xs| - i, s)
    ensures E(xs)[Times(i, s)..Times(i, s) + s] == E([xs[i]])
  {
    ExpandSlice(E, s, xs, i, i + 1);
    assert xs[i..i + 1] == [xs[i]];
    assert Lengthens(E, s, xs);
    RoomScales(i, 1, |xs|, s);
    RoomScales(i, |xs| - i, |xs|, s);
  }

  /** One pixel of an overlapping copy, expanded. */
  lemma CopyBackExpandOne<T(!new), U>(E: seq<T> -> seq<U>, s: nat, out: seq<T>, d: nat)
    requires Expansion(E, s) && 1 <= d <= |out|
    ensures 1 <= Times(d, s) <= |E(out)|
    ensures CopyBack(E(out), Times(d, s), s) == E(out + [out[|out| - d]])
  {
    ExpandCell(E, s, out, |out| - d);
    assert Distributes(E, out, [out[|out| - d]]);
    CopyBackBlock(E(out), Times(d, s), s);
  }

  lemma CopyBackExpandStep<T(!new), U>(E: seq<T> -> seq<U>, s: nat, out: seq<T>, d: nat, len: nat)
    requires Expansion(E, s) && 1 <= d <= |out| && len > 0
    ensures 1 <= Times(d, s) <= |E(out)| <= |E(out + [out[|out| - d]])|
    ensures CopyBack(E(out), Times(d, s), Times(len, s)) == CopyBack(E(out + [out[|out| - d]]), Times(d, s), Times(len - 1, s))
  {
    RoomScales(1, len - 1, len, s);
    CopyBackExpandOne(E, s, out, d);
    CopyBackSplit(E(out), Times(d, s), s, Times(len - 1, s));
  }

  /** Overlapping copies commute with expansion. */
  lemma {:induction false} CopyBackExpand<T(!new), U>(E: seq<T> -> seq<U>, s: nat, out: seq<T>, d: nat, len: nat)
    requires Expansion(E, s) && 1 <= d <= |out|
    ensures 1 <= Times(d, s) <= |E(out)|
    ensures CopyBack(E(out), Times(d, s), Times(len, s)) == E(CopyBack(out, d, len))
    decreases len
  {
    if len == 0 {
      assert Lengthens(E, s, out);
    } else {
      CopyBackExpandStep(E, s, out, d, len);
      CopyBackExpand(E, s, out + [out[|out| - d]], d, len - 1);
    }
  }

  /** One literal group, expanded. */
  lemma GroupExpand<T(!new), U>(c: Codec<T>, c': Codec<U>, E: seq<T> -> seq<U>, s: nat,
                                input: seq<byte>, size: nat, x: Cursor<T>)
    requires Scales(c, c', E, s)
    ensures ReadGroup(c', input, Times(size, s), Cursor(x.ip, E(x.out))) == ExpandCursor(E, ReadGroup(c, input, size, x))
  {
    RoomScales(|x.out|, 1, size, s);
    assert Lengthens(E, s, x.out);
    if x.ip + c.unit <= |input| {
      assert Distributes(E, x.out, c.cells(input[x.ip..x.ip + c.unit]));
    }
  }

  lemma {:induction false} LiteralsExpand<T(!new), U>(c: Codec<T>, c': Codec<U>, E: seq<T> -> seq<U>, s: nat,
                                                      input: seq<byte>, size: nat, x: Cursor<T>, n: nat)
    requires Scales(c, c', E, s)
    ensures ReadLiterals(c', input, Times(size, s), Cursor(x.ip, E(x.out)), n)
            == ExpandCursor(E, ReadLiterals(c, input, size, x, n))
    decreases n
  {
    if n > 0 {
      GroupExpand(c, c', E, s, input, size, x);
      var g := ReadGroup(c, input, size, x);
      if g.Some? {
        LiteralsExpand(c, c', E, s, input, size, g.value, n - 1);
      }
    }
  }

  lemma NearExpand<T(!new), U>(E: seq<T> -> seq<U>, s: nat, out: seq<T>, size: nat, d: nat, len: nat)
    requires Expansion(E, s) && d >= 1
    ensures Near(E(out), Times(size, s), Times(d, s), Times(len, s)) == ExpandSome(E, Near(out, size, d, len))
  {
    assert Lengthens(E, s, out);
    RoomScales(|out|, len, size, s);
    RoomScales(0, d, |out|, s);
    if d <= |out| { CopyBackExpand(E, s, out, d, len); }
  }

  lemma FarExpand<T(!new), U>(E: seq<T> -> seq<U>, s: nat, out: seq<T>, size: nat, src: seq<T>, ofs: nat, len: nat)
    requires Expansion(E, s)
    ensures Far(E(out), Times(size, s), E(src), Times(ofs, s), Times(len, s))
            == ExpandSome(E, Far(out, size, src, ofs, len))
  {
    assert Lengthens(E, s, out) && Lengthens(E, s, src);
    RoomScales(|out|, len, size, s);
    RoomScales(ofs, len, |src|, s);
    if ofs + len <= |src| {
      ExpandSlice(E, s, src, ofs, ofs + len);
      assert Distributes(E, out, src[ofs..ofs + len]);
    }
  }

  lemma MatchExpand<T(!new), U>(c: Codec<T>, c': Codec<U>, E: seq<T> -> seq<U>, s: nat,
                                env: map<nat, seq<T>>, id: nat, size: nat, out: seq<T>, t: Token)
    requires Scales(c, c', E, s) && t.Reference? && t.len >= 1
    ensures Match(c', ExpandEnv(E, env), id, Times(size, s), E(out), t)
            == ExpandSome(E, Match(c, env, id, size, out, t))
  {
    var m := Match(c, env, id, size, out, t);
    var m' := Match(c', ExpandEnv(E, env), id, Times(size, s), E(out), t);
    if t.dist == 0 {
      NearExpand(E, s, out, size, t.ofs + 1, t.len + c.bias);
      assert m' == ExpandSome(E, m);
    } else if t.dist > id || id - t.dist !in env {
      assert m' == ExpandSome(E, m);
    } else {
      FarExpand(E, s, out, size, env[id - t.dist], t.ofs, t.len + c.bias);
      assert m' == ExpandSome(E, m);
    }
  }

  lemma StepExpand<T(!new), U>(c: Codec<T>, c': Codec<U>, E: seq<T> -> seq<U>, s: nat,
                               env: map<nat, seq<T>>, id: nat, input: seq<byte>, size: nat, x: Cursor<T>)
    requires Scales(c, c', E, s)
    ensures Step(c', ExpandEnv(E, env), id, input, Times(size, s), Cursor(x.ip, E(x.out)))
            == ExpandCursor(E, Step(c, env, id, input, size, x))
  {
    match ParseToken(input, x.ip)
    case None =>
    case Some((Literal(n), ip)) => LiteralsExpand(c, c', E, s, input, size, Cursor(ip, x.out), n);
    case Some((Reference(l, o, d), ip)) => MatchExpand(c, c', E, s, env, id, size, x.out, Reference(l, o, d));
  }

  /** Decoding into cells of c' is decoding into cells of c and expanding the result:
      the same stream fails in both, or both consume the same bytes. */
  lemma {:induction false} DecodeExpand<T(!new), U>(c: Codec<T>, c': Codec<U>, E: seq<T> -> seq<U>, s: nat,
                                                    env: map<nat, seq<T>>, id: nat, input: seq<byte>, size: nat, x: Cursor<T>)
    requires Scales(c, c', E, s)
    ensures Decode(c', ExpandEnv(E, env), id, input, Times(size, s), Cursor(x.ip, E(x.out)))
            == ExpandCursor(E, Decode(c, env, id, input, size, x))
    decreases if |x.out| < size then size - |x.out| else 0
  {
    StepExpand(c, c', E, s, env, id, input, size, x);
    var n := Step(c, env, id, input, size, x);
    if n.Some? {
      assert Lengthens(E, s, n.value.out);
    }
    if n.Some? && |n.value.out| < size {
      DecodeExpand(c, c', E, s, env, id, input, size, n.value);
    }
  }

  // ---------------------------------------------------------------- whole units

  /** ys is xs without the pixels at its end that do not make up a unit of s pixels. */
  ghost predicate WholeUnits<T>(s: nat, xs: seq<T>, ys: seq<T>) {
    && ys <= xs && |xs| < |ys| + s
    && exists n: nat :: IsTimes(|ys|, n, s)
  }

  ghost predicate IsTimes(k: nat, n: nat, s: nat) { k == Times(n, s) }

  ghost predicate Trimmed<T>(s: nat, env: map<nat, seq<T>>, env': map<nat, seq<T>>) {
    env.Keys == env'.Keys && forall k :: k in env ==> WholeUnits(s, env[k], env'[k])
  }

  lemma FarTrimmed<T>(s: nat, out: seq<T>, size: nat, src: seq<T>, src': seq<T>, ofs: nat, len: nat)
    requires IsScale(s) && WholeUnits(s, src, src')
    ensures Far(out, size, src', Times(ofs, s), Times(len, s)) == Far(out, size, src, Times(ofs, s), Times(len, s))
  {
    var n: nat :| IsTimes(|src'|, n, s);
    RoomScales(ofs, len, n, s);
    RoomScales(ofs + len, 0, n, s);
    RoomScales(n, 1, ofs + len, s);
    var lo, hi := Times(ofs, s), Times(ofs, s) + Times(len, s);
    if hi <= |src'| { assert src'[lo..hi] == src[lo..hi]; }
  }

  lemma StepTrimmed<T>(c: Codec<T>, env: map<nat, seq<T>>, env': map<nat, seq<T>>, id: nat, input: seq<byte>, size: nat, x: Cursor<T>)
    requires c.Valid() && Trimmed(c.scale, env, env')
    ensures Step(c, env', id, input, size, x) == Step(c, env, id, input, size, x)
  {
    match ParseToken(input, x.ip)
    case None =>
    case Some((Literal(n), ip)) =>
    case Some((Reference(l, o, d), ip)) =>
      if 0 < d <= id && id - d in env {
        FarTrimmed(c.scale, x.out, size, env[id - d], env'[id - d], o, l + c.bias);
      }
  }

  /** References reach whole units of the other images only. */
  lemma {:induction false} DecodeTrimmed<T>(c: Codec<T>, env: map<nat, seq<T>>, env': map<nat, seq<T>>,
                                            id: nat, input: seq<byte>, size: nat, x: Cursor<T>)
    requires c.Valid() && Trimmed(c.scale, env, env')
    ensures Decode(c, env', id, input, size, x) == Decode(c, env, id, input, size, x)
    decreases if |x.out| < size then size - |x.out| else 0
  {
    StepTrimmed(c, env, env', id, input, size, x);
    var n := Step(c, env, id, input, size, x);
    if n.Some? && |n.value.out| < size { DecodeTrimmed(c, env, env', id, input, size, n.value); }
  }
}
