/**
 The compressed token grammar of a GLZ stream: the parser of one token, as a
 function and as the loops that the decoder runs, and the inverse encoder.
 Shifts and masks of single bytes are written as division and remainder.
 */
module GlzToken {
  import opened Common

  const MAX_COPY: int := 32

  /** A token as it stands in the stream, before the biases of the pixel format. */
  datatype Token =
    | Literal(count: nat)
    | Reference(len: nat, ofs: nat, dist: nat)

  // ---------------------------------------------------------------- the parser

  /** Weight of the i-th image-distance byte. */
  function Weight(i: nat): nat {
    if i == 0 then 1 else if i == 1 then 0x100 else 0x1_0000
  }

  /** Value of the first n (at most three) little-endian bytes at ip. */
  function Distance(input: seq<byte>, ip: nat, n: nat): nat
    requires n <= 3 && ip + n <= |input|
  {
    if n == 0 then 0 else Distance(input, ip, n - 1) + ByteAt(input, ip + n - 1) * Weight(n - 1)
  }

  /** The 255-continued rest of a match length. */
  function ReadLength(input: seq<byte>, ip: nat, len: nat): (r: Option<(nat, nat)>)
    ensures r.Some? ==> r.value.0 >= len && ip < r.value.1 <= |input|
    decreases |input| - ip
  {
    if ip >= |input| then None
    else if input[ip] == 255 then ReadLength(input, ip + 1, len + 255)
    else Some((len + ByteAt(input, ip), ip + 1))
  }

  /** The bytes behind the length: low offset byte, code byte, distance bytes, top offset byte. */
  datatype Fields = Fields(low: nat, code: nat, dist: nat, top: nat)

  predicate HasTop(long: bool, code: nat) { long && code / 32 % 2 == 1 }

  function ReadFields(input: seq<byte>, ip: nat, long: bool): (r: Option<(Fields, nat)>)
    ensures r.Some? ==> ip < r.value.1 <= |input|
  {
    if ip + 2 > |input| then None else
    var code := ByteAt(input, ip + 1);
    var n := code / 64;
    if ip + 2 + n > |input| then None else
    var dist := Distance(input, ip + 2, n);
    if !HasTop(long, code) then Some((Fields(ByteAt(input, ip), code, dist, 0), ip + 2 + n))
    else if ip + 3 + n > |input| then None
    else Some((Fields(ByteAt(input, ip), code, dist, ByteAt(input, ip + 2 + n)), ip + 3 + n))
  }

  predicate IsLong(ctrl: nat) { ctrl / 16 % 2 == 1 }

  function OffsetOf(ctrl: nat, f: Fields): nat {
    if IsLong(ctrl) then ctrl % 16 + f.low * 16 + f.code % 32 * 0x1000 + f.top * 0x2_0000
    else ctrl % 16 + f.low * 16
  }

  function DistOf(ctrl: nat, f: Fields): nat {
    if IsLong(ctrl) then f.dist else f.code % 64 + f.dist * 64
  }

  function ReadTail(input: seq<byte>, ip: nat, ctrl: nat, len: nat): (r: Option<(Token, nat)>)
    ensures r.Some? ==> r.value.0.Reference? && r.value.0.len == len && ip < r.value.1 <= |input|
  {
    var f := ReadFields(input, ip, IsLong(ctrl));
    if f.None? then None
    else Some((Reference(len, OffsetOf(ctrl, f.value.0), DistOf(ctrl, f.value.0)), f.value.1))
  }

  /** The match length that control byte ctrl announces, ip being behind it. */
  function LengthOf(input: seq<byte>, ip: nat, ctrl: nat): (r: Option<(nat, nat)>)
    requires ip <= |input|
    ensures r.Some? ==> ctrl / 32 <= r.value.0 && ip <= r.value.1 <= |input|
  {
    if ctrl / 32 == 7 then ReadLength(input, ip, 7) else Some((ctrl / 32, ip))
  }

  /** The token whose control byte stands at ip, and the position after its head.
      The bytes of a literal follow the head. */
  function ParseToken(input: seq<byte>, ip: nat): (r: Option<(Token, nat)>)
    ensures r.Some? ==> ip < r.value.1 <= |input|
    ensures r.Some? && r.value.0.Reference? ==> r.value.0.len >= 1
    ensures r.Some? && r.value.0.Literal? ==> r.value.0.count >= 1 && r.value.1 == ip + 1
  {
    if ip >= |input| then None
    else
      var ctrl := ByteAt(input, ip);
      if ctrl < MAX_COPY then Some((Literal(ctrl + 1), ip + 1))
      else
        var l := LengthOf(input, ip + 1, ctrl);
        if l.None? then None else ReadTail(input, l.value.1, ctrl, l.value.0)
  }

  // ---------------------------------------------------------------- the loops of the decoder

  /** The loop that extends a match length of 7. */
  method ReadLongLength(input: seq<byte>, start: nat) returns (len: nat, ip: nat)
    requires ReadLength(input, start, 7).Some?
    ensures ReadLength(input, start, 7) == Some((len, ip))
  {
    len, ip := 7, start;
    var more := true;
    while more
      invariant start <= ip <= |input|
      invariant more ==> ReadLength(input, ip, len) == ReadLength(input, start, 7)
      invariant !more ==> ReadLength(input, start, 7) == Some((len, ip))
      decreases |input| - ip, more
    {
      var code := ByteAt(input, ip);
      ip := ip + 1;
      len := len + code;
      more := code == 255;
    }
  }

  /** The loop over the image-distance bytes; unit is 1, or 64 after a 6-bit low part. */
  method ReadDistance(input: seq<byte>, start: nat, n: nat, low: nat, unit: nat) returns (dist: nat, ip: nat)
    requires n <= 3 && start + n <= |input|
    requires unit == 1 || unit == 64
    ensures dist == low + Distance(input, start, n) * unit && ip == start + n
  {
    dist, ip := low, start;
    for i := 0 to n
      invariant ip == start + i
      invariant dist == low + Distance(input, start, i) * unit
    {
      var code := ByteAt(input, ip);
      ip := ip + 1;
      dist := dist + code * (if unit == 1 then Weight(i) else 64 * Weight(i));
    }
  }

  /** Reads the offset and distance bytes of a reference. */
  method ReadOffsets(input: seq<byte>, start: nat, ctrl: nat, ghost len: nat)
    returns (ofs: nat, dist: nat, ip: nat)
    requires ReadTail(input, start, ctrl, len).Some?
    ensures ReadTail(input, start, ctrl, len) == Some((Reference(len, ofs, dist), ip))
  {
    ip := start;
    var pixelFlag := ctrl / 16 % 2;
    ofs := ctrl % 16;
    var code := ByteAt(input, ip);
    ip := ip + 1;
    ofs := ofs + code * 16;
    code := ByteAt(input, ip);
    ip := ip + 1;
    var imageFlag := code / 64;
    if pixelFlag == 0 {
      dist, ip := ReadDistance(input, ip, imageFlag, code % 64, 64);
    } else {
      pixelFlag := code / 32 % 2;
      ofs := ofs + code % 32 * 0x1000;
      dist, ip := ReadDistance(input, ip, imageFlag, 0, 1);
      if pixelFlag == 1 {
        code := ByteAt(input, ip);
        ip := ip + 1;
        ofs := ofs + code * 0x2_0000;
      }
    }
  }

  /** Reads the rest of a reference, start being just past its control byte ctrl. */
  method ReadReference(input: seq<byte>, start: nat, ctrl: nat)
    returns (len: nat, ofs: nat, dist: nat, ip: nat)
    requires 1 <= start <= |input| && input[start - 1] == ctrl >= MAX_COPY
    requires ParseToken(input, start - 1).Some?
    ensures ParseToken(input, start - 1) == Some((Reference(len, ofs, dist), ip))
  {
    ip := start;
    len := ctrl / 32;
    if len == 7 {
      len, ip := ReadLongLength(input, ip);
    }
    ofs, dist, ip := ReadOffsets(input, ip, ctrl, len);
  }

  // ---------------------------------------------------------------- the encoder

  /** The three widths in which a pixel offset can be written. */
  datatype Form = Short | Long | VeryLong

  function LengthBytes(rest: nat): seq<byte> {
    if rest < 255 then [rest] else [255] + LengthBytes(rest - 255)
  }

  function LengthTail(len: nat): seq<byte> {
    if len < 7 then [] else LengthBytes(len - 7)
  }

  function Span(n: nat): nat {
    if n == 0 then 1 else if n == 1 then 0x100 else if n == 2 then 0x1_0000 else 0x100_0000
  }

  /** The values that the form can carry with n distance bytes. */
  predicate Fits(len: nat, ofs: nat, dist: nat, form: Form, n: nat) {
    && len >= 1
    && n <= 3
    && match form
       case Short => ofs < 0x1000 && dist < 64 * Span(n)
       case Long => ofs < 0x2_0000 && dist < Span(n)
       case VeryLong => ofs < 0x200_0000 && dist < Span(n)
  }

  function Ctrl(len: nat, ofs: nat, form: Form): nat {
    Min(len, 7) * 32 + (if form.Short? then 0 else 16) + ofs % 16
  }

  function ToFields(ofs: nat, dist: nat, form: Form, n: nat): Fields {
    match form
    case Short => Fields(ofs / 16 % 256, n * 64 + dist % 64, dist / 64, 0)
    case Long => Fields(ofs / 16 % 256, n * 64 + ofs / 0x1000, dist, 0)
    case VeryLong => Fields(ofs / 16 % 256, n * 64 + 32 + ofs / 0x1000 % 32, dist, ofs / 0x2_0000)
  }

  /** The fields that the bytes of a tail can hold. */
  predicate Storable(f: Fields, long: bool) {
    && f.low < 256 && f.code < 256 && f.top < 256
    && f.dist < Span(f.code / 64)
    && (!HasTop(long, f.code) ==> f.top == 0)
  }

  function FieldBytes(f: Fields, long: bool): seq<byte>
    requires Storable(f, long)
  {
    [f.low, f.code] + (Le(f.dist, f.code / 64) + if HasTop(long, f.code) then [f.top] else [])
  }

  /** The bytes of a reference, field by field. */
  function Assemble(ctrl: byte, len: nat, f: Fields): seq<byte>
    requires Storable(f, IsLong(ctrl))
  {
    [ctrl] + (LengthTail(len) + FieldBytes(f, IsLong(ctrl)))
  }

  function EncodeReference(len: nat, ofs: nat, dist: nat, form: Form, n: nat): seq<byte>
    requires Fits(len, ofs, dist, form, n)
  {
    FieldsOfToken(len, ofs, dist, form, n);
    Assemble(Ctrl(len, ofs, form), len, ToFields(ofs, dist, form, n))
  }

  // ---------------------------------------------------------------- numbers to fields and back

  lemma FieldsOfToken(len: nat, ofs: nat, dist: nat, form: Form, n: nat)
    requires Fits(len, ofs, dist, form, n)
    ensures var c := Ctrl(len, ofs, form);
            var f := ToFields(ofs, dist, form, n);
            && 32 <= c < 256 && c / 32 == Min(len, 7) && IsLong(c) == !form.Short?
            && Storable(f, !form.Short?)
            && OffsetOf(c, f) == ofs && DistOf(c, f) == dist
  {
    CtrlFields(Min(len, 7), form.Short?, ofs % 16);
    FieldsOfNumbers(ofs, dist, form, n);
    var f := ToFields(ofs, dist, form, n);
    assert OffsetOf(Ctrl(len, ofs, form), f) == ofs;
  }

  /** Offset and distance cut into fields and put together again. */
  lemma FieldsOfNumbers(ofs: nat, dist: nat, form: Form, n: nat)
    requires Fits(1, ofs, dist, form, n)
    ensures var f := ToFields(ofs, dist, form, n);
            && f.low < 256 && f.code < 256 && f.top < 256 && f.code / 64 == n && f.dist < Span(n)
            && HasTop(!form.Short?, f.code) == form.VeryLong? && (!form.VeryLong? ==> f.top == 0)
            && ofs == ofs % 16 + f.low * 16 + (if form.Short? then 0 else f.code % 32 * 0x1000 + f.top * 0x2_0000)
            && dist == if form.Short? then f.code % 64 + f.dist * 64 else f.dist
  {
    OffsetCut(ofs);
    match form
    case Short => CodeFields(n, dist % 64);
    case Long => CodeFields(n, ofs / 0x1000);
    case VeryLong => CodeFields(n, 32 + ofs / 0x1000 % 32);
  }

  lemma OffsetCut(ofs: nat)
    ensures ofs == ofs % 16 + ofs / 16 % 256 * 16 + ofs / 0x1000 * 0x1000
    ensures ofs / 0x1000 == ofs / 0x1000 % 32 + ofs / 0x2_0000 * 32
    ensures ofs < 0x1000 ==> ofs / 0x1000 == 0
  {
  }

  lemma CtrlFields(l: nat, short: bool, o: nat)
    requires 1 <= l <= 7 && o < 16
    ensures var c := l * 32 + (if short then 0 else 16) + o;
            32 <= c < 256 && c / 32 == l && c % 16 == o && IsLong(c) == !short
  {
  }

  lemma CodeFields(n: nat, low: nat)
    requires n <= 3 && low < 64
    ensures var c := n * 64 + low;
            c < 256 && c / 64 == n && c % 64 == low && c % 32 == low % 32 && (c / 32 % 2 == 1) == (low >= 32)
  {
  }

  function FormOf(ctrl: nat, code: nat): Form {
    if !IsLong(ctrl) then Short else if HasTop(true, code) then VeryLong else Long
  }

  /** The digits of an offset: 4 bits, 8 bits, and the rest. */
  lemma OffsetDigits(low: nat, mid: nat, high: nat)
    requires low < 16 && mid < 256
    ensures var ofs := low + mid * 16 + high * 0x1000;
            ofs % 16 == low && ofs / 16 % 256 == mid && ofs / 0x1000 == high
  {
    var ofs := low + mid * 16 + high * 0x1000;
    assert ofs / 16 == mid + 256 * high;
  }

  lemma TokenOfFields(ctrl: nat, len: nat, f: Fields)
    requires 32 <= ctrl < 256 && ctrl / 32 == Min(len, 7) && Storable(f, IsLong(ctrl))
    ensures var ofs, dist, form, n := OffsetOf(ctrl, f), DistOf(ctrl, f), FormOf(ctrl, f.code), f.code / 64;
            && Fits(len, ofs, dist, form, n)
            && Ctrl(len, ofs, form) == ctrl
            && ToFields(ofs, dist, form, n) == f
            && IsLong(ctrl) == !form.Short?
  {
    var ofs := OffsetOf(ctrl, f);
    var high := if IsLong(ctrl) then f.code % 32 + f.top * 32 else 0;
    OffsetDigits(ctrl % 16, f.low, high);
    assert ofs == ctrl % 16 + f.low * 16 + high * 0x1000;
    match FormOf(ctrl, f.code)
    case Short =>
    case Long => assert f.code == f.code / 64 * 64 + f.code % 32;
    case VeryLong =>
      assert f.code == f.code / 64 * 64 + 32 + f.code % 32;
      assert ofs / 0x2_0000 == high / 32;
  }

  // ---------------------------------------------------------------- bytes to fields and back

  /** Where bs stands in the input. */
  predicate At(input: seq<byte>, ip: nat, bs: seq<byte>) {
    ip + |bs| <= |input| && input[ip..ip + |bs|] == bs
  }

  lemma AtParts(input: seq<byte>, ip: nat, a: seq<byte>, b: seq<byte>)
    ensures At(input, ip, a + b) <==> At(input, ip, a) && At(input, ip + |a|, b)
  {
    if ip + |a| + |b| <= |input| {
      var m := input[ip..ip + |a| + |b|];
      assert m[..|a|] == input[ip..ip + |a|];
      assert m[|a|..] == input[ip + |a|..ip + |a| + |b|];
      assert m == m[..|a|] + m[|a|..];
      assert (a + b)[..|a|] == a && (a + b)[|a|..] == b;
    }
  }

  lemma AtOne(input: seq<byte>, ip: nat, b: byte)
    ensures At(input, ip, [b]) <==> ip < |input| && ByteAt(input, ip) == b
  {
    if ip < |input| { assert input[ip..ip + 1] == [input[ip]]; }
  }

  lemma AtThree(input: seq<byte>, ip: nat, x: byte, a: seq<byte>, b: seq<byte>)
    ensures At(input, ip, [x] + (a + b))
            <==> ip < |input| && ByteAt(input, ip) == x && At(input, ip + 1, a) && At(input, ip + 1 + |a|, b)
  {
    AtParts(input, ip, [x], a + b);
    AtOne(input, ip, x);
    AtParts(input, ip + 1, a, b);
  }

  lemma {:induction false} ReadLengthIff(input: seq<byte>, ip: nat, len: nat, len': nat, end: nat)
    ensures ReadLength(input, ip, len) == Some((len', end))
            <==> len' >= len && At(input, ip, LengthBytes(len' - len)) && end == ip + |LengthBytes(len' - len)|
    decreases |input| - ip
  {
    if ip < |input| && len' >= len {
      if input[ip] == 255 {
        ReadLengthIff(input, ip + 1, len + 255, len', end);
      }
      if len' - len >= 255 {
        AtParts(input, ip, [255], LengthBytes(len' - len - 255));
      }
    }
  }

  lemma DistanceUnroll(input: seq<byte>, ip: nat, n: nat)
    requires n <= 3 && ip + n <= |input|
    ensures n == 1 ==> Distance(input, ip, n) == ByteAt(input, ip)
    ensures n == 2 ==> Distance(input, ip, n) == ByteAt(input, ip) + 0x100 * ByteAt(input, ip + 1)
    ensures n == 3 ==>
              Distance(input, ip, n) == ByteAt(input, ip) + 0x100 * ByteAt(input, ip + 1) + 0x1_0000 * ByteAt(input, ip + 2)
  {
    if n >= 1 { assert Distance(input, ip, 1) == ByteAt(input, ip); }
    if n >= 2 { assert Distance(input, ip, 2) == ByteAt(input, ip) + 0x100 * ByteAt(input, ip + 1); }
  }

  lemma {:induction false} DistanceIff(input: seq<byte>, ip: nat, n: nat, dist: nat)
    requires n <= 3 && ip + n <= |input|
    ensures Distance(input, ip, n) < Span(n)
    ensures Distance(input, ip, n) == dist <==> dist < Span(n) && At(input, ip, Le(dist, n))
    decreases n
  {
    DistanceUnroll(input, ip, n);
    if n > 0 {
      DistanceUnroll(input, ip + 1, n - 1);
      assert Distance(input, ip, n) == ByteAt(input, ip) + 256 * Distance(input, ip + 1, n - 1);
      DistanceIff(input, ip + 1, n - 1, dist / 256);
      AtParts(input, ip, [dist % 256], Le(dist / 256, n - 1));
    }
  }

  lemma FieldBytesAt(input: seq<byte>, ip: nat, long: bool, f: Fields)
    requires Storable(f, long)
    ensures At(input, ip, FieldBytes(f, long))
            <==> && ip + |FieldBytes(f, long)| <= |input|
                 && ByteAt(input, ip) == f.low && ByteAt(input, ip + 1) == f.code
                 && At(input, ip + 2, Le(f.dist, f.code / 64))
                 && (HasTop(long, f.code) ==> ByteAt(input, ip + 2 + f.code / 64) == f.top)
  {
    var ds := Le(f.dist, f.code / 64);
    var top: seq<byte> := if HasTop(long, f.code) then [f.top] else [];
    AtParts(input, ip, [f.low, f.code], ds + top);
    AtParts(input, ip + 2, ds, top);
    AtParts(input, ip, [f.low], [f.code]);
    AtOne(input, ip, f.low);
    AtOne(input, ip + 1, f.code);
    AtOne(input, ip + 2 + f.code / 64, f.top);
    assert [f.low] + [f.code] == [f.low, f.code];
  }

  lemma FieldsRead(input: seq<byte>, ip: nat, long: bool)
    requires ReadFields(input, ip, long).Some?
    ensures var (f, end) := ReadFields(input, ip, long).value;
            Storable(f, long) && At(input, ip, FieldBytes(f, long)) && end == ip + |FieldBytes(f, long)|
  {
    var (f, end) := ReadFields(input, ip, long).value;
    DistanceIff(input, ip + 2, f.code / 64, f.dist);
    FieldBytesAt(input, ip, long, f);
  }

  lemma FieldsWritten(input: seq<byte>, ip: nat, long: bool, f: Fields)
    requires Storable(f, long) && At(input, ip, FieldBytes(f, long))
    ensures ReadFields(input, ip, long) == Some((f, ip + |FieldBytes(f, long)|))
  {
    FieldBytesAt(input, ip, long, f);
    DistanceIff(input, ip + 2, f.code / 64, f.dist);
  }

  // ---------------------------------------------------------------- the round trip

  lemma LengthWritten(input: seq<byte>, ip: nat, ctrl: nat, len: nat)
    requires len >= 1 && ctrl / 32 == Min(len, 7) && At(input, ip, LengthTail(len))
    ensures LengthOf(input, ip, ctrl) == Some((len, ip + |LengthTail(len)|))
  {
    if len >= 7 { ReadLengthIff(input, ip, 7, len, ip + |LengthTail(len)|); }
  }

  lemma LengthRead(input: seq<byte>, ip: nat, ctrl: byte)
    requires 32 <= ctrl && ip <= |input| && LengthOf(input, ip, ctrl).Some?
    ensures var (len, mid) := LengthOf(input, ip, ctrl).value;
            ctrl / 32 == Min(len, 7) && At(input, ip, LengthTail(len)) && mid == ip + |LengthTail(len)|
  {
    var (len, mid) := LengthOf(input, ip, ctrl).value;
    if ctrl / 32 == 7 { ReadLengthIff(input, ip, 7, len, mid); }
  }

  /** The parts of a reference stand one behind the other. */
  predicate PartsAt(input: seq<byte>, ip: nat, ctrl: byte, len: nat, f: Fields)
    requires Storable(f, IsLong(ctrl))
  {
    && ip < |input| && ByteAt(input, ip) == ctrl
    && At(input, ip + 1, LengthTail(len))
    && At(input, ip + 1 + |LengthTail(len)|, FieldBytes(f, IsLong(ctrl)))
  }

  lemma AssembledAt(input: seq<byte>, ip: nat, ctrl: byte, len: nat, f: Fields)
    requires Storable(f, IsLong(ctrl))
    ensures |Assemble(ctrl, len, f)| == 1 + |LengthTail(len)| + |FieldBytes(f, IsLong(ctrl))|
    ensures At(input, ip, Assemble(ctrl, len, f)) <==> PartsAt(input, ip, ctrl, len, f)
  {
    AtThree(input, ip, ctrl, LengthTail(len), FieldBytes(f, IsLong(ctrl)));
  }

  lemma ParseParts(input: seq<byte>, ip: nat, ctrl: nat, len: nat, mid: nat, f: Fields, end: nat)
    requires ip < |input| && ByteAt(input, ip) == ctrl >= MAX_COPY
    requires LengthOf(input, ip + 1, ctrl) == Some((len, mid))
    requires ReadFields(input, mid, IsLong(ctrl)) == Some((f, end))
    ensures ParseToken(input, ip) == Some((Reference(len, OffsetOf(ctrl, f), DistOf(ctrl, f)), end))
  {
  }

  lemma AssembledParses(input: seq<byte>, ip: nat, ctrl: byte, len: nat, f: Fields, end: nat)
    requires MAX_COPY <= ctrl && ctrl / 32 == Min(len, 7) && len >= 1 && Storable(f, IsLong(ctrl))
    requires At(input, ip, Assemble(ctrl, len, f)) && end == ip + |Assemble(ctrl, len, f)|
    ensures ParseToken(input, ip) == Some((Reference(len, OffsetOf(ctrl, f), DistOf(ctrl, f)), end))
  {
    AssembledAt(input, ip, ctrl, len, f);
    PartsParse(input, ip, ctrl, len, f, end);
  }

  lemma PartsParse(input: seq<byte>, ip: nat, ctrl: byte, len: nat, f: Fields, end: nat)
    requires MAX_COPY <= ctrl && ctrl / 32 == Min(len, 7) && len >= 1 && Storable(f, IsLong(ctrl))
    requires PartsAt(input, ip, ctrl, len, f)
    requires end == ip + 1 + |LengthTail(len)| + |FieldBytes(f, IsLong(ctrl))|
    ensures ParseToken(input, ip) == Some((Reference(len, OffsetOf(ctrl, f), DistOf(ctrl, f)), end))
  {
    var mid := ip + 1 + |LengthTail(len)|;
    LengthThenFields(input, ip, ctrl, len, f);
    ParseParts(input, ip, ctrl, len, mid, f, end);
  }

  lemma LengthThenFields(input: seq<byte>, ip: nat, ctrl: nat, len: nat, f: Fields)
    requires len >= 1 && ctrl / 32 == Min(len, 7) && Storable(f, IsLong(ctrl))
    requires At(input, ip + 1, LengthTail(len))
    requires At(input, ip + 1 + |LengthTail(len)|, FieldBytes(f, IsLong(ctrl)))
    ensures ip + 1 <= |input|
    ensures var mid := ip + 1 + |LengthTail(len)|;
            && LengthOf(input, ip + 1, ctrl) == Some((len, mid))
            && ReadFields(input, mid, IsLong(ctrl)) == Some((f, mid + |FieldBytes(f, IsLong(ctrl))|))
  {
    LengthWritten(input, ip + 1, ctrl, len);
    FieldsWritten(input, ip + 1 + |LengthTail(len)|, IsLong(ctrl), f);
  }

  lemma EncodedParses(input: seq<byte>, ip: nat, len: nat, ofs: nat, dist: nat, form: Form, n: nat)
    requires Fits(len, ofs, dist, form, n)
    requires At(input, ip, EncodeReference(len, ofs, dist, form, n))
    ensures ParseToken(input, ip)
            == Some((Reference(len, ofs, dist), ip + |EncodeReference(len, ofs, dist, form, n)|))
  {
    FieldsOfToken(len, ofs, dist, form, n);
    AssembledParses(input, ip, Ctrl(len, ofs, form), len, ToFields(ofs, dist, form, n),
                    ip + |EncodeReference(len, ofs, dist, form, n)|);
  }

  lemma ParsedIsEncoded(input: seq<byte>, ip: nat) returns (form: Form, n: nat)
    requires ParseToken(input, ip).Some? && ParseToken(input, ip).value.0.Reference?
    ensures var (t, end) := ParseToken(input, ip).value;
            && Fits(t.len, t.ofs, t.dist, form, n)
            && At(input, ip, EncodeReference(t.len, t.ofs, t.dist, form, n))
            && end == ip + |EncodeReference(t.len, t.ofs, t.dist, form, n)|
  {
    var (t, end) := ParseToken(input, ip).value;
    var ctrl := ByteAt(input, ip);
    var mid := LengthOf(input, ip + 1, ctrl).value.1;
    var f := ReadFields(input, mid, IsLong(ctrl)).value.0;
    LengthRead(input, ip + 1, ctrl);
    FieldsRead(input, mid, IsLong(ctrl));
    TokenOfFields(ctrl, t.len, f);
    form, n := FormOf(ctrl, f.code), f.code / 64;
    AssembledAt(input, ip, ctrl, t.len, f);
  }

  /** A reference parses exactly where one of its encodings stands: the parser accepts the
      grammar and nothing else, and consumes exactly the bytes of the token. */
  lemma ReferenceRoundTrip(input: seq<byte>, ip: nat, len: nat, ofs: nat, dist: nat, end: nat)
    ensures ParseToken(input, ip) == Some((Reference(len, ofs, dist), end))
            <==> exists form, n :: Fits(len, ofs, dist, form, n)
                                   && At(input, ip, EncodeReference(len, ofs, dist, form, n))
                                   && end == ip + |EncodeReference(len, ofs, dist, form, n)|
  {
    forall form, n | && Fits(len, ofs, dist, form, n)
                     && At(input, ip, EncodeReference(len, ofs, dist, form, n))
      ensures ParseToken(input, ip)
              == Some((Reference(len, ofs, dist), ip + |EncodeReference(len, ofs, dist, form, n)|))
    {
      EncodedParses(input, ip, len, ofs, dist, form, n);
    }
    if ParseToken(input, ip) == Some((Reference(len, ofs, dist), end)) {
      var form, n := ParsedIsEncoded(input, ip);
    }
  }

  // ---------------------------------------------------------------- the bytes of a token

  /** The bytes of a reference, byte by byte: the control byte, the low offset byte, and the code byte
      with its distance bytes. */
  lemma ShortReference(input: seq<byte>, ip: nat, ctrl: byte, low: byte, code: byte, later: seq<byte>)
    requires 32 <= ctrl < 224 && ctrl / 16 % 2 == 0 && |later| == code / 64 && At(input, ip, [ctrl, low, code] + later)
    ensures ParseToken(input, ip)
            == Some((Reference(ctrl / 32, ctrl % 16 + 16 * low, code % 64 + 64 * FromLe(later)), ip + 3 + |later|))
  {
    ThreeAt(input, ip, ctrl, low, code, later);
    DistanceIs(input, ip + 3, later);
  }

  /** With a long offset the code byte holds five bits of the offset. */
  lemma LongReference(input: seq<byte>, ip: nat, ctrl: byte, low: byte, code: byte, later: seq<byte>)
    requires 32 <= ctrl < 224 && ctrl / 16 % 2 == 1 && code / 32 % 2 == 0
    requires |later| == code / 64 && At(input, ip, [ctrl, low, code] + later)
    ensures ParseToken(input, ip)
            == Some((Reference(ctrl / 32, ctrl % 16 + 16 * low + 0x1000 * (code % 32), FromLe(later)), ip + 3 + |later|))
  {
    ThreeAt(input, ip, ctrl, low, code, later);
    DistanceIs(input, ip + 3, later);
  }

  /** A very long offset has a byte of its own at the end. */
  lemma VeryLongReference(input: seq<byte>, ip: nat, ctrl: byte, low: byte, code: byte, later: seq<byte>, top: byte)
    requires 32 <= ctrl < 224 && ctrl / 16 % 2 == 1 && code / 32 % 2 == 1
    requires |later| == code / 64 && At(input, ip, [ctrl, low, code] + later) && At(input, ip + 3 + |later|, [top])
    ensures ParseToken(input, ip)
            == Some((Reference(ctrl / 32, ctrl % 16 + 16 * low + 0x1000 * (code % 32) + 0x2_0000 * top, FromLe(later)),
                     ip + 4 + |later|))
  {
    ThreeAt(input, ip, ctrl, low, code, later);
    DistanceIs(input, ip + 3, later);
    AtOne(input, ip + 3 + |later|, top);
  }

  /** A length of 7 goes on with k bytes of 255 and one that is not. */
  lemma {:induction false} LongLength(input: seq<byte>, ip: nat, len: nat, k: nat, last: byte)
    requires ip + k < |input| && last < 255 && input[ip + k] == last && forall i :: ip <= i < ip + k ==> input[i] == 255
    ensures ReadLength(input, ip, len) == Some((len + 255 * k + last, ip + k + 1))
    decreases k
  {
    if k > 0 { LongLength(input, ip + 1, len + 255, k - 1, last); }
  }

  lemma ThreeAt(input: seq<byte>, ip: nat, a: byte, b: byte, c: byte, later: seq<byte>)
    requires At(input, ip, [a, b, c] + later)
    ensures ip + 3 + |later| <= |input| && input[ip] == a && input[ip + 1] == b && input[ip + 2] == c && At(input, ip + 3, later)
  {
    AtParts(input, ip, [a, b, c], later);
    assert input[ip..ip + 3] == [a, b, c];
    assert input[ip..ip + 3][0] == a && input[ip..ip + 3][1] == b && input[ip..ip + 3][2] == c;
  }

  /** The distance bytes are a little-endian number. */
  lemma {:induction false} DistanceIs(input: seq<byte>, ip: nat, bs: seq<byte>)
    requires |bs| <= 3 && At(input, ip, bs)
    ensures Distance(input, ip, |bs|) == FromLe(bs)
    decreases |bs|
  {
    DistanceUnroll(input, ip, |bs|);
    if bs != [] {
      assert bs == [bs[0]] + bs[1..];
      AtParts(input, ip, [bs[0]], bs[1..]);
      AtOne(input, ip, bs[0]);
      DistanceUnroll(input, ip + 1, |bs| - 1);
      DistanceIs(input, ip + 1, bs[1..]);
    }
  }
}
