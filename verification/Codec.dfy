/** The binary codec (`libyaaf/serialization`): fixed-width fields are copied as they lie in memory, strings and
    byte vectors are preceded by their length in four bytes, least significant first (a little-endian host). */
module Codec {
  import opened Types

  type Byte = x: int | 0 <= x < 256

  datatype Field = Pod(bytes: seq<Byte>) | Text(bytes: seq<Byte>) | Blob(bytes: seq<Byte>)

  /** The type of a field, which the reader knows beforehand. */
  datatype Shape = PodShape(width: nat) | TextShape | BlobShape

  const HEADER: nat := 4

  /** The length is cast to 32 bits. */
  const LIMIT: nat := 0x1_0000_0000

  function ShapeOf(f: Field): Shape {
    match f
    case Pod(bytes) => PodShape(|bytes|)
    case Text(_) => TextShape
    case Blob(_) => BlobShape
  }

  function ShapesOf(fs: seq<Field>): (shapes: seq<Shape>)
    ensures |shapes| == |fs|
  {
    if fs == [] then [] else [ShapeOf(fs[0])] + ShapesOf(fs[1..])
  }

  function Size(f: Field): nat {
    if f.Pod? then |f.bytes| else HEADER + |f.bytes|
  }

  /** The `k` low bytes of `n`, least significant first. */
  function Digits(n: nat, k: nat): (h: seq<Byte>)
    ensures |h| == k
  {
    if k == 0 then [] else [n % 256] + Digits(n / 256, k - 1)
  }

  /** The number that such bytes stand for. */
  function Value(h: seq<Byte>): nat {
    if h == [] then 0 else h[0] as int + 256 * Value(h[1..])
  }

  /** The four bytes of `static_cast<uint32_t>(n)`. */
  function Header(n: nat): (h: seq<Byte>)
    ensures |h| == HEADER
  {
    Digits(n, HEADER)
  }

  function HeaderValue(h: seq<Byte>): nat
    requires |h| == HEADER
  {
    Value(h)
  }

  function EncodeField(f: Field): (bytes: seq<Byte>)
    ensures |bytes| == Size(f)
  {
    if f.Pod? then f.bytes else Header(|f.bytes|) + f.bytes
  }

  /** The field read from the start of `buf` and the bytes consumed; `None` when that needs bytes behind the end. */
  function DecodeField(buf: seq<Byte>, shape: Shape): (r: Option<(Field, nat)>)
    ensures r.Some? ==> r.value.1 <= |buf| && ShapeOf(r.value.0) == shape && r.value.1 == Size(r.value.0)
  {
    if shape.PodShape? then
      if shape.width <= |buf| then Some((Pod(buf[..shape.width]), shape.width)) else None
    else if |buf| < HEADER then None
    else
      var len := HeaderValue(buf[..HEADER]);
      if |buf| < HEADER + len then None
      else
        var bytes := buf[HEADER..HEADER + len];
        Some((if shape.TextShape? then Text(bytes) else Blob(bytes), HEADER + len))
  }

  function Encode(fs: seq<Field>): seq<Byte> {
    if fs == [] then [] else EncodeField(fs[0]) + Encode(fs[1..])
  }

  function Decode(buf: seq<Byte>, shapes: seq<Shape>): (r: Option<(seq<Field>, nat)>)
    ensures r.Some? ==> r.value.1 <= |buf| && |r.value.0| == |shapes|
  {
    if shapes == [] then Some(([], 0))
    else
      var head := DecodeField(buf, shapes[0]);
      if head.None? then None
      else
        var tail := Decode(buf[head.value.1..], shapes[1..]);
        if tail.None? then None
        else Some(([head.value.0] + tail.value.0, head.value.1 + tail.value.1))
  }

  /** The length of every string and byte vector fits the header. */
  ghost predicate Fits(f: Field) {
    f.Pod? || |f.bytes| < LIMIT
  }

  ghost predicate AllFit(fs: seq<Field>) {
    if fs == [] then true else Fits(fs[0]) && AllFit(fs[1..])
  }

  /** Powers of 256 as far as the header goes. */
  function Power(k: nat): nat
    requires k <= HEADER
  {
    [1, 0x100, 0x1_0000, 0x100_0000, LIMIT][k]
  }

  lemma {:induction false} TimesMonotone(d: nat, a: nat, b: nat)
    requires a <= b
    ensures d * a <= d * b
    decreases b - a
  {
    if a < b {
      TimesMonotone(d, a, b - 1);
      assert d * b == d * (b - 1) + d;
    }
  }

  /** Quotient and remainder are unique. */
  lemma {:induction false} UniqueRemainder(n: nat, d: nat, q: nat, r: nat)
    requires r < d && n == d * q + r
    ensures n % d == r && n / d == q
  {
    var p := n / d;
    assert n == d * p + n % d;
    assert d * (p + 1) == d * p + d && d * (q + 1) == d * q + d;
    if p < q {
      TimesMonotone(d, p + 1, q);
    } else if q < p {
      TimesMonotone(d, q + 1, p);
    }
  }

  /** The remainder of a product in two steps: the low byte, then the rest. */
  lemma {:induction false} SplitRemainder(n: nat, c: nat)
    requires c > 0
    ensures n % (256 * c) == n % 256 + 256 * (n / 256 % c) && n / (256 * c) == n / 256 / c
  {
    var m, r := n / 256, n % 256;
    var q, s := m / c, m % c;
    assert n == 256 * m + r && m == c * q + s;
    assert 256 * s + r < 256 * c;
    assert 256 * c * q == 256 * (c * q);
    UniqueRemainder(n, 256 * c, q, 256 * s + r);
  }

  /** The header holds the length modulo 2^32. */
  lemma {:induction false} DigitsValue(n: nat, k: nat)
    requires k <= HEADER
    ensures Value(Digits(n, k)) == n % Power(k)
  {
    if k > 0 {
      DigitsValue(n / 256, k - 1);
      assert Digits(n, k)[1..] == Digits(n / 256, k - 1);
      assert Power(k) == 256 * Power(k - 1);
      SplitRemainder(n, Power(k - 1));
    }
  }

  // ---- The layout, byte by byte ----

  /** The four bytes at `at` are those of `n`, least significant first. */
  ghost predicate HeaderAt(buf: seq<Byte>, at: nat, n: nat) {
    && at + 4 <= |buf|
    && buf[at] == n % 256 && buf[at + 1] == n / 0x100 % 256
    && buf[at + 2] == n / 0x1_0000 % 256 && buf[at + 3] == n / 0x100_0000 % 256
  }

  /** The length that the four bytes at `at` announce. */
  function LengthAt(buf: seq<Byte>, at: nat): nat
    requires at + 4 <= |buf|
  {
    buf[at] as int + 0x100 * buf[at + 1] as int + 0x1_0000 * buf[at + 2] as int + 0x100_0000 * buf[at + 3] as int
  }

  ghost predicate BytesAt(buf: seq<Byte>, at: nat, bytes: seq<Byte>) {
    at + |bytes| <= |buf| && forall i :: 0 <= i < |bytes| ==> bytes[i] == buf[at + i]
  }

  lemma {:induction false} BytesSplit(buf: seq<Byte>, at: nat, a: seq<Byte>, b: seq<Byte>)
    requires BytesAt(buf, at, a + b)
    ensures BytesAt(buf, at, a) && BytesAt(buf, at + |a|, b)
  {
    forall i | 0 <= i < |a|
      ensures a[i] == buf[at + i]
    {
      assert (a + b)[i] == a[i];
    }
    forall i | 0 <= i < |b|
      ensures b[i] == buf[at + |a| + i]
    {
      assert (a + b)[|a| + i] == b[i];
    }
  }

  lemma {:induction false} BytesUnique(buf: seq<Byte>, at: nat, a: seq<Byte>, b: seq<Byte>)
    requires BytesAt(buf, at, a) && BytesAt(buf, at, b) && |a| == |b|
    ensures a == b
  {
  }

  /** The field lies at `at`: its bytes alone if its width is fixed, else its length and then its bytes. */
  ghost predicate LiesAt(buf: seq<Byte>, at: nat, f: Field) {
    if f.Pod? then BytesAt(buf, at, f.bytes)
    else HeaderAt(buf, at, |f.bytes|) && BytesAt(buf, at + 4, f.bytes)
  }

  /** The field is what a reader that expects this shape finds at `at`. */
  ghost predicate ReadAt(buf: seq<Byte>, at: nat, shape: Shape, f: Field) {
    match shape
    case PodShape(width) => f.Pod? && |f.bytes| == width && BytesAt(buf, at, f.bytes)
    case _ =>
      && (if shape.TextShape? then f.Text? else f.Blob?)
      && BytesAt(buf, at + 4, f.bytes) && LengthAt(buf, at) == |f.bytes|
  }

  /** Where field `j` begins: behind the fields before it. */
  ghost function Offset(fs: seq<Field>, j: nat): nat
    requires j <= |fs|
  {
    if j == 0 then 0 else Offset(fs, j - 1) + (if fs[j - 1].Pod? then 0 else 4) + |fs[j - 1].bytes|
  }

  lemma {:induction false} HeaderBytes(n: nat)
    ensures HeaderAt(Header(n), 0, n)
  {
    SplitRemainder(n, 256);
    SplitRemainder(n, 0x1_0000);
    SplitRemainder(n / 256, 256);
    var c := n / 256 / 256;
    assert Digits(c / 256, 1) == [c / 256 % 256];
    assert Digits(c, 2) == [c % 256, c / 256 % 256];
    assert Digits(n / 256, 3) == [n / 256 % 256] + Digits(c, 2);
    assert Digits(n, 4) == [n % 256] + Digits(n / 256, 3);
  }

  lemma {:induction false} ValueCons(b: Byte, rest: seq<Byte>)
    ensures Value([b] + rest) == b as int + 256 * Value(rest)
  {
    assert ([b] + rest)[1..] == rest;
  }

  lemma {:induction false} HeaderNumber(h: seq<Byte>)
    requires |h| == HEADER
    ensures Value(h) == LengthAt(h, 0)
  {
    var three := [h[3]] + [];
    var two := [h[2]] + three;
    var one := [h[1]] + two;
    ValueCons(h[3], []);
    ValueCons(h[2], three);
    ValueCons(h[1], two);
    ValueCons(h[0], one);
    assert h == [h[0]] + one;
  }

  lemma {:induction false} FieldLies(buf: seq<Byte>, at: nat, f: Field)
    requires BytesAt(buf, at, EncodeField(f))
    ensures LiesAt(buf, at, f)
  {
    if !f.Pod? {
      var h := Header(|f.bytes|);
      BytesSplit(buf, at, h, f.bytes);
      HeaderBytes(|f.bytes|);
      assert h[0] == buf[at] && h[1] == buf[at + 1] && h[2] == buf[at + 2] && h[3] == buf[at + 3];
    }
  }

  lemma {:induction false} OffsetCons(fs: seq<Field>, j: nat)
    requires 0 < j <= |fs|
    ensures Offset(fs, j) == Size(fs[0]) + Offset(fs[1..], j - 1)
  {
    if j > 1 {
      OffsetCons(fs, j - 1);
      assert fs[1..][j - 2] == fs[j - 1];
    }
  }

  /** In an encoded list each field lies where the one before it ends. */
  lemma {:induction false} FieldsLie(buf: seq<Byte>, at: nat, fs: seq<Field>, j: nat)
    requires BytesAt(buf, at, Encode(fs)) && j < |fs|
    ensures LiesAt(buf, at + Offset(fs, j), fs[j])
    decreases |fs|
  {
    BytesSplit(buf, at, EncodeField(fs[0]), Encode(fs[1..]));
    if j == 0 {
      FieldLies(buf, at, fs[0]);
    } else {
      FieldsLie(buf, at + Size(fs[0]), fs[1..], j - 1);
      OffsetCons(fs, j);
    }
  }

  /** The encoding is as long as its fields together. */
  lemma {:induction false} EncodeLength(fs: seq<Field>)
    ensures |Encode(fs)| == Offset(fs, |fs|)
  {
    if fs != [] {
      EncodeLength(fs[1..]);
      OffsetCons(fs, |fs|);
    }
  }

  // ---- Round trips ----

  lemma {:induction false} HeaderThenBytes(h: seq<Byte>, bytes: seq<Byte>, rest: seq<Byte>, len: nat)
    requires |h| == HEADER && len <= |bytes|
    ensures (h + bytes + rest)[..HEADER] == h && (h + bytes + rest)[HEADER..HEADER + len] == bytes[..len]
  {
  }

  /** Reading a string or byte vector back gives its first `length mod 2^32` bytes. */
  lemma {:induction false} ReadsModuloLimit(f: Field, rest: seq<Byte>)
    requires !f.Pod?
    ensures var len := |f.bytes| % LIMIT;
      DecodeField(EncodeField(f) + rest, ShapeOf(f)) == Some((f.(bytes := f.bytes[..len]), HEADER + len))
  {
    DigitsValue(|f.bytes|, HEADER);
    HeaderThenBytes(Header(|f.bytes|), f.bytes, rest, |f.bytes| % LIMIT);
  }

  /** One field survives the round trip exactly when its length fits the header. */
  lemma {:induction false} FieldRoundTrip(f: Field, rest: seq<Byte>)
    ensures DecodeField(EncodeField(f) + rest, ShapeOf(f)).Some?
    ensures DecodeField(EncodeField(f) + rest, ShapeOf(f)).value.0 == f <==> Fits(f)
    ensures Fits(f) ==> DecodeField(EncodeField(f) + rest, ShapeOf(f)) == Some((f, Size(f)))
  {
    if f.Pod? {
      assert (EncodeField(f) + rest)[..|f.bytes|] == f.bytes;
    } else {
      ReadsModuloLimit(f, rest);
    }
  }

  /** Decoding a list whose first field is in the bytes `e`. */
  lemma {:induction false} DecodeCons(e: seq<Byte>, more: seq<Byte>, f: Field, shape: Shape, shapes: seq<Shape>)
    requires DecodeField(e + more, shape) == Some((f, |e|))
    ensures var all := Decode(e + more, [shape] + shapes);
      var tail := Decode(more, shapes);
      && (all.Some? <==> tail.Some?)
      && (tail.Some? ==> all.value == ([f] + tail.value.0, |e| + tail.value.1))
  {
    assert ([shape] + shapes)[1..] == shapes;
    assert (e + more)[|e|..] == more;
  }

  /** Decoding a list starts with the first field. */
  lemma {:induction false} DecodeHead(buf: seq<Byte>, shape: Shape, shapes: seq<Shape>)
    ensures var all := Decode(buf, [shape] + shapes);
      all.Some? ==> DecodeField(buf, shape).Some? && all.value.0[0] == DecodeField(buf, shape).value.0
  {
    assert ([shape] + shapes)[1..] == shapes;
  }

  /** The encoding and the shapes of a non-empty list, unfolded once. */
  lemma {:induction false} EncodeThenRest(f: Field, fs: seq<Field>, rest: seq<Byte>)
    ensures Encode([f] + fs) + rest == EncodeField(f) + (Encode(fs) + rest)
    ensures |Encode([f] + fs)| == Size(f) + |Encode(fs)|
    ensures ShapesOf([f] + fs) == [ShapeOf(f)] + ShapesOf(fs)
  {
    assert ([f] + fs)[1..] == fs;
  }

  ghost predicate RoundTrips(fs: seq<Field>, rest: seq<Byte>) {
    Decode(Encode(fs) + rest, ShapesOf(fs)) == Some((fs, |Encode(fs)|))
  }

  /** A field in front of something that decodes. */
  lemma {:induction false} ConsDecodes(f: Field, more: seq<Byte>, shapes: seq<Shape>, fs: seq<Field>, n: nat)
    requires Fits(f) && Decode(more, shapes) == Some((fs, n))
    ensures Decode(EncodeField(f) + more, [ShapeOf(f)] + shapes) == Some(([f] + fs, Size(f) + n))
  {
    FieldRoundTrip(f, more);
    DecodeCons(EncodeField(f), more, f, ShapeOf(f), shapes);
  }

  lemma {:induction false} RoundTripCons(f: Field, fs: seq<Field>, rest: seq<Byte>)
    requires Fits(f) && RoundTrips(fs, rest)
    ensures RoundTrips([f] + fs, rest)
  {
    var more := Encode(fs) + rest;
    EncodeThenRest(f, fs, rest);
    ConsDecodes(f, more, ShapesOf(fs), fs, |Encode(fs)|);
    DecodesBack([f] + fs, rest, EncodeField(f) + more, [ShapeOf(f)] + ShapesOf(fs), Size(f) + |Encode(fs)|);
  }

  lemma {:induction false} DecodesBack(fs: seq<Field>, rest: seq<Byte>, buf: seq<Byte>, shapes: seq<Shape>, n: nat)
    requires buf == Encode(fs) + rest && shapes == ShapesOf(fs) && n == |Encode(fs)|
    requires Decode(buf, shapes) == Some((fs, n))
    ensures RoundTrips(fs, rest)
  {
  }

  lemma {:induction false} RoundTripIfFits(fs: seq<Field>, rest: seq<Byte>)
    requires AllFit(fs)
    ensures RoundTrips(fs, rest)
  {
    if fs != [] {
      RoundTripIfFits(fs[1..], rest);
      RoundTripCons(fs[0], fs[1..], rest);
      assert fs == [fs[0]] + fs[1..];
    }
  }

  lemma {:induction false} NoRoundTripIfNot(fs: seq<Field>, rest: seq<Byte>)
    requires !AllFit(fs)
    ensures var r := Decode(Encode(fs) + rest, ShapesOf(fs)); r.Some? ==> r.value.0 != fs
  {
    var f, tail := fs[0], fs[1..];
    var more := Encode(tail) + rest;
    assert fs == [f] + tail;
    EncodeThenRest(f, tail, rest);
    FieldRoundTrip(f, more);
    if Fits(f) {
      NoRoundTripIfNot(tail, rest);
      DecodeCons(EncodeField(f), more, f, ShapeOf(f), ShapesOf(tail));
      var r := Decode(more, ShapesOf(tail));
      if r.Some? {
        ConsSplits(fs, r.value.0);
      }
    } else {
      DecodeHead(EncodeField(f) + more, ShapeOf(f), ShapesOf(tail));
    }
  }

  /** Any list of fields survives the round trip, in any buffer beginning with its encoding, and exactly the
      encoding is consumed, if and only if every length fits its header. */
  lemma {:induction false} RoundTrip(fs: seq<Field>, rest: seq<Byte>)
    ensures RoundTrips(fs, rest) <==> AllFit(fs)
  {
    if AllFit(fs) {
      RoundTripIfFits(fs, rest);
    } else {
      NoRoundTripIfNot(fs, rest);
    }
  }

  lemma {:induction false} ConsSplits(fs: seq<Field>, tail: seq<Field>)
    requires fs != []
    ensures [fs[0]] + tail == fs <==> tail == fs[1..]
  {
    assert ([fs[0]] + tail)[1..] == tail;
  }

  /** `buf` with the bytes from `at` on replaced by `bytes`, and nothing else. */
  ghost function Spliced(buf: seq<Byte>, at: nat, bytes: seq<Byte>): seq<Byte>
    requires at + |bytes| <= |buf|
  {
    buf[..at] + bytes + buf[at + |bytes|..]
  }

  lemma {:induction false} SplicedTwice(buf: seq<Byte>, at: nat, a: seq<Byte>, b: seq<Byte>)
    requires at + |a| + |b| <= |buf|
    ensures Spliced(Spliced(buf, at, a), at + |a|, b) == Spliced(buf, at, a + b)
  {
  }

  lemma {:induction false} SplicedNothing(buf: seq<Byte>, at: nat)
    requires at <= |buf|
    ensures Spliced(buf, at, []) == buf
  {
  }

  /** Nothing but the bytes from `from` to `to` has changed. */
  ghost predicate SameOutside(before: seq<Byte>, after: seq<Byte>, from: nat, to: nat) {
    |after| == |before| && forall j :: 0 <= j < |before| && (j < from || to <= j) ==> after[j] == before[j]
  }

  lemma {:induction false} SplicedBytes(buf: seq<Byte>, at: nat, bytes: seq<Byte>)
    requires at + |bytes| <= |buf|
    ensures SameOutside(buf, Spliced(buf, at, bytes), at, at + |bytes|) && BytesAt(Spliced(buf, at, bytes), at, bytes)
  {
  }

  /** `memcpy` into the buffer. */
  method CopyIn(buf: array<Byte>, at: nat, bytes: seq<Byte>)
    requires at + |bytes| <= buf.Length
    modifies buf
    ensures buf[..] == Spliced(old(buf[..]), at, bytes)
  {
    for i := 0 to |bytes|
      invariant forall j :: 0 <= j < buf.Length ==> buf[j] == if at <= j < at + i then bytes[j - at] else old(buf[j])
    {
      buf[at + i] := bytes[i];
    }
  }

  method WriteField(buf: array<Byte>, at: nat, f: Field) returns (n: nat)
    requires at + Size(f) <= buf.Length
    modifies buf
    ensures buf[..] == Spliced(old(buf[..]), at, EncodeField(f))
    ensures n == (if f.Pod? then 0 else 4) + |f.bytes|
    ensures LiesAt(buf[..], at, f) && SameOutside(old(buf[..]), buf[..], at, at + n)
  {
    SplicedBytes(buf[..], at, EncodeField(f));
    FieldLies(Spliced(buf[..], at, EncodeField(f)), at, f);
    if f.Pod? {
      CopyIn(buf, at, f.bytes);
      return |f.bytes|;
    }
    CopyIn(buf, at, Header(|f.bytes|));
    CopyIn(buf, at + HEADER, f.bytes);
    SplicedTwice(old(buf[..]), at, Header(|f.bytes|), f.bytes);
    n := HEADER + |f.bytes|;
  }

  /** `write_args`: exactly the bytes of the encoding are changed, from `at` on. */
  method WriteArgs(buf: array<Byte>, at: nat, fs: seq<Field>)
    requires at + |Encode(fs)| <= buf.Length
    modifies buf
    ensures buf[..] == Spliced(old(buf[..]), at, Encode(fs))
    decreases |fs|
  {
    ghost var before := buf[..];
    if fs == [] {
      SplicedNothing(before, at);
      return;
    }
    ghost var head, tail := EncodeField(fs[0]), Encode(fs[1..]);
    assert Encode(fs) == head + tail;
    var n := WriteField(buf, at, fs[0]);
    assert buf[..] == Spliced(before, at, head);
    WriteArgs(buf, at + n, fs[1..]);
    SplicedTwice(before, at, head, tail);
  }

  /** `calculate_args_size`: the bytes a write needs. */
  method Capacity(fs: seq<Field>) returns (n: nat)
    ensures n == |Encode(fs)| == Offset(fs, |fs|)
    decreases |fs|
  {
    EncodeLength(fs);
    if fs == [] {
      return 0;
    }
    var rest := Capacity(fs[1..]);
    n := Size(fs[0]) + rest;
  }

  /** `memcpy` out of the buffer. */
  method CopyOut(buf: array<Byte>, at: nat, n: nat) returns (bytes: seq<Byte>)
    requires at + n <= buf.Length
    ensures bytes == buf[at..at + n]
  {
    bytes := [];
    for i := 0 to n
      invariant bytes == buf[at..at + i]
    {
      bytes := bytes + [buf[at + i]];
    }
  }

  lemma ViewSlice(buf: array<Byte>, at: nat, i: nat, j: nat)
    requires at + j <= buf.Length && i <= j
    ensures buf[at..][i..j] == buf[at + i..at + j]
  {
  }

  lemma ViewRest(buf: array<Byte>, at: nat, i: nat)
    requires at + i <= buf.Length
    ensures buf[at..][i..] == buf[at + i..]
  {
  }

  lemma {:induction false} SliceBytes(buf: seq<Byte>, i: nat, j: nat)
    requires i <= j <= |buf|
    ensures BytesAt(buf, i, buf[i..j])
  {
  }

  /** Decoding reads the bytes that the layout says. */
  lemma {:induction false} DecodedIsRead(buf: seq<Byte>, shape: Shape)
    requires DecodeField(buf, shape).Some?
    ensures var (f, n) := DecodeField(buf, shape).value;
      ReadAt(buf, 0, shape, f) && n == (if f.Pod? then 0 else 4) + |f.bytes|
  {
    var (f, n) := DecodeField(buf, shape).value;
    if f.Pod? {
      SliceBytes(buf, 0, n);
    } else {
      HeaderNumber(buf[..HEADER]);
      SliceBytes(buf, 4, n);
    }
  }

  lemma {:induction false} ReadFurther(buf: seq<Byte>, n: nat, at: nat, shape: Shape, f: Field)
    requires n <= |buf| && ReadAt(buf[n..], at, shape, f)
    ensures ReadAt(buf, n + at, shape, f)
  {
    BytesFurther(buf, n, if f.Pod? then at else at + 4, f.bytes);
  }

  lemma {:induction false} BytesFurther(buf: seq<Byte>, n: nat, at: nat, bytes: seq<Byte>)
    requires n <= |buf| && BytesAt(buf[n..], at, bytes)
    ensures BytesAt(buf, n + at, bytes)
  {
    forall i | 0 <= i < |bytes|
      ensures bytes[i] == buf[n + at + i]
    {
      assert bytes[i] == buf[n..][at + i];
    }
  }

  /** Each field is what a reader finds where the one before it ends. */
  ghost predicate AllRead(buf: seq<Byte>, at: nat, shapes: seq<Shape>, fs: seq<Field>)
    decreases |shapes|
  {
    |fs| == |shapes| &&
    (shapes != [] ==>
       && ReadAt(buf, at, shapes[0], fs[0])
       && AllRead(buf, at + (if fs[0].Pod? then 0 else 4) + |fs[0].bytes|, shapes[1..], fs[1..]))
  }

  lemma {:induction false} AllReadFurther(buf: seq<Byte>, n: nat, at: nat, shapes: seq<Shape>, fs: seq<Field>)
    requires n <= |buf| && AllRead(buf[n..], at, shapes, fs)
    ensures AllRead(buf, n + at, shapes, fs)
    decreases |shapes|
  {
    if shapes != [] {
      ReadFurther(buf, n, at, shapes[0], fs[0]);
      AllReadFurther(buf, n, at + (if fs[0].Pod? then 0 else 4) + |fs[0].bytes|, shapes[1..], fs[1..]);
    }
  }

  lemma {:induction false} AllReadCons(buf: seq<Byte>, shapes: seq<Shape>, f: Field, n: nat, tail: seq<Field>)
    requires shapes != [] && ReadAt(buf, 0, shapes[0], f) && n == (if f.Pod? then 0 else 4) + |f.bytes|
    requires AllRead(buf, n, shapes[1..], tail)
    ensures AllRead(buf, 0, shapes, [f] + tail)
  {
    assert ([f] + tail)[0] == f && ([f] + tail)[1..] == tail;
  }

  /** A decoded list is what a reader finds, field by field. */
  lemma {:induction false} FieldsRead(buf: seq<Byte>, shapes: seq<Shape>)
    requires Decode(buf, shapes).Some?
    ensures AllRead(buf, 0, shapes, Decode(buf, shapes).value.0)
    decreases |shapes|
  {
    if shapes != [] {
      DecodedIsRead(buf, shapes[0]);
      var (f, n) := DecodeField(buf, shapes[0]).value;
      var tail := Decode(buf[n..], shapes[1..]).value.0;
      FieldsRead(buf[n..], shapes[1..]);
      AllReadFurther(buf, n, 0, shapes[1..], tail);
      AllReadCons(buf, shapes, f, n, tail);
    }
  }

  method ReadField(buf: array<Byte>, at: nat, shape: Shape) returns (f: Field, n: nat)
    requires at <= buf.Length && DecodeField(buf[at..], shape).Some?
    ensures DecodeField(buf[at..], shape) == Some((f, n))
    ensures ReadAt(buf[at..], 0, shape, f) && n == (if f.Pod? then 0 else 4) + |f.bytes|
  {
    DecodedIsRead(buf[at..], shape);
    match shape
    case PodShape(width) =>
      var bytes := CopyOut(buf, at, width);
      ViewSlice(buf, at, 0, width);
      f, n := Pod(bytes), width;
    case _ =>
      var h := CopyOut(buf, at, HEADER);
      ViewSlice(buf, at, 0, HEADER);
      var len := HeaderValue(h);
      var bytes := CopyOut(buf, at + HEADER, len);
      ViewSlice(buf, at, HEADER, HEADER + len);
      f, n := if shape.TextShape? then Text(bytes) else Blob(bytes), HEADER + len;
  }

  /** `read_args`: agrees with the decoding whenever that stays inside the buffer. */
  method ReadArgs(buf: array<Byte>, at: nat, shapes: seq<Shape>) returns (fs: seq<Field>, n: nat)
    requires at <= buf.Length && Decode(buf[at..], shapes).Some?
    ensures Decode(buf[at..], shapes) == Some((fs, n))
    decreases |shapes|
  {
    if shapes == [] {
      return [], 0;
    }
    ghost var view := buf[at..];
    var f, size := ReadField(buf, at, shapes[0]);
    ViewRest(buf, at, size);
    assert Decode(view[size..], shapes[1..]).Some?;
    var more, rest := ReadArgs(buf, at + size, shapes[1..]);
    assert Decode(view[size..], shapes[1..]) == Some((more, rest));
    fs, n := [f] + more, size + rest;
  }

  /** The message exchanged by network actors. */
  datatype NetworkMessage = NetworkMessage(name: seq<Byte>, data: seq<Byte>)

  function FieldsOf(m: NetworkMessage): seq<Field> {
    [Text(m.name), Blob(m.data)]
  }

  /** The message as it lies in a buffer: the name first, then the data, each behind its length. */
  ghost predicate MessageLies(buf: seq<Byte>, m: NetworkMessage) {
    && HeaderAt(buf, 0, |m.name|) && BytesAt(buf, 4, m.name)
    && HeaderAt(buf, 4 + |m.name|, |m.data|) && BytesAt(buf, 8 + |m.name|, m.data)
  }

  /** The message that the lengths found in a buffer delimit. */
  ghost predicate MessageRead(buf: seq<Byte>, m: NetworkMessage) {
    && BytesAt(buf, 4, m.name) && LengthAt(buf, 0) == |m.name|
    && BytesAt(buf, 8 + |m.name|, m.data) && LengthAt(buf, 4 + |m.name|) == |m.data|
  }

  lemma {:induction false} MessageOffsets(m: NetworkMessage)
    ensures var fs := FieldsOf(m);
      && Offset(fs, 0) == 0 && Offset(fs, 1) == 4 + |m.name| && Offset(fs, 2) == 8 + |m.name| + |m.data|
      && |Encode(fs)| == 8 + |m.name| + |m.data|
  {
    EncodeLength(FieldsOf(m));
    assert Offset(FieldsOf(m), 1) == Offset(FieldsOf(m), 0) + 4 + |m.name|;
  }

  lemma {:induction false} EncodedMessageLies(buf: seq<Byte>, m: NetworkMessage)
    requires BytesAt(buf, 0, Encode(FieldsOf(m)))
    ensures MessageLies(buf, m)
  {
    MessageOffsets(m);
    FieldsLie(buf, 0, FieldsOf(m), 0);
    FieldsLie(buf, 0, FieldsOf(m), 1);
    assert LiesAt(buf, 0, Text(m.name)) && LiesAt(buf, 4 + |m.name|, Blob(m.data));
  }

  /** `pack`: the message at the start of the buffer, and the rest of the buffer as it was. */
  method Pack(buf: array<Byte>, m: NetworkMessage)
    requires 8 + |m.name| + |m.data| <= buf.Length
    modifies buf
    ensures MessageLies(buf[..], m)
    ensures SameOutside(old(buf[..]), buf[..], 0, 8 + |m.name| + |m.data|)
    ensures |Encode(FieldsOf(m))| <= buf.Length && buf[..] == Spliced(old(buf[..]), 0, Encode(FieldsOf(m)))
  {
    MessageOffsets(m);
    SplicedBytes(buf[..], 0, Encode(FieldsOf(m)));
    EncodedMessageLies(Spliced(buf[..], 0, Encode(FieldsOf(m))), m);
    WriteArgs(buf, 0, FieldsOf(m));
  }

  /** `unpack`, for a buffer that holds what the headers announce. */
  method Unpack(buf: array<Byte>) returns (m: NetworkMessage)
    requires Decode(buf[..], [TextShape, BlobShape]).Some?
    ensures MessageRead(buf[..], m)
    ensures exists n :: Decode(buf[..], [TextShape, BlobShape]) == Some((FieldsOf(m), n))
  {
    assert buf[0..] == buf[..];
    var shapes := [TextShape, BlobShape];
    var fs, n := ReadArgs(buf, 0, shapes);
    TwoFields(buf[..]);
    m := NetworkMessage(fs[0].bytes, fs[1].bytes);
    assert FieldsOf(m) == fs;
    MessageOffsets(m);
    FieldsRead(buf[..], shapes);
    assert ReadAt(buf[..], 0, TextShape, fs[0]) && AllRead(buf[..], 4 + |m.name|, shapes[1..], fs[1..]);
  }

  lemma {:induction false} TwoFields(buf: seq<Byte>)
    requires Decode(buf, [TextShape, BlobShape]).Some?
    ensures var fs := Decode(buf, [TextShape, BlobShape]).value.0; |fs| == 2 && fs[0].Text? && fs[1].Blob?
  {
    var head := DecodeField(buf, TextShape);
    assert [TextShape, BlobShape][1..] == [BlobShape];
    var tail := Decode(buf[head.value.1..], [BlobShape]);
    assert tail.value.0[0].Blob?;
  }

  /** The number behind a header is the length modulo 2^32. */
  lemma {:induction false} LengthRead(buf: seq<Byte>, at: nat, n: nat)
    requires HeaderAt(buf, at, n)
    ensures LengthAt(buf, at) == n % LIMIT
  {
    HeaderBytes(n);
    HeaderNumber(Header(n));
    DigitsValue(n, HEADER);
  }

  /** What is read where a message lies is that message exactly when both lengths fit their headers. */
  lemma {:induction false} MessageRoundTrip(buf: seq<Byte>, m: NetworkMessage, found: NetworkMessage)
    requires MessageLies(buf, m) && MessageRead(buf, found)
    ensures found == m <==> |m.name| < LIMIT && |m.data| < LIMIT
  {
    PartRoundTrip(buf, 0, m.name, found.name);
    if found.name == m.name {
      PartRoundTrip(buf, 4 + |m.name|, m.data, found.data);
    }
  }

  lemma {:induction false} PartRoundTrip(buf: seq<Byte>, at: nat, bytes: seq<Byte>, found: seq<Byte>)
    requires HeaderAt(buf, at, |bytes|) && BytesAt(buf, at + 4, bytes)
    requires BytesAt(buf, at + 4, found) && LengthAt(buf, at) == |found|
    ensures found == bytes <==> |bytes| < LIMIT
  {
    LengthRead(buf, at, |bytes|);
    if |bytes| < LIMIT {
      BytesUnique(buf, at + 4, bytes, found);
    }
  }

  lemma {:induction false} MessageFields(m: NetworkMessage)
    ensures ShapesOf(FieldsOf(m)) == [TextShape, BlobShape]
    ensures AllFit(FieldsOf(m)) <==> |m.name| < LIMIT && |m.data| < LIMIT
  {
    var last := [Blob(m.data)];
    assert FieldsOf(m)[1..] == last && last[1..] == [];
    assert ShapesOf(last) == [BlobShape] && (AllFit(last) <==> |m.data| < LIMIT);
  }

  lemma {:induction false} SplicedAll(buf: seq<Byte>, bytes: seq<Byte>)
    requires |bytes| == |buf|
    ensures Spliced(buf, 0, bytes) == bytes == bytes + []
  {
  }

  /** A message over the wire: a buffer of the computed capacity is filled and read back. */
  method Transmit(m: NetworkMessage) returns (found: NetworkMessage)
    requires |m.name| < LIMIT && |m.data| < LIMIT
    ensures found == m
  {
    var n := Capacity(FieldsOf(m));
    var buf := new Byte[n];
    ghost var before := buf[..];
    MessageOffsets(m);
    Pack(buf, m);
    MessageFields(m);
    RoundTrip(FieldsOf(m), []);
    SplicedAll(before, Encode(FieldsOf(m)));
    found := Unpack(buf);
    MessageRoundTrip(buf[..], m, found);
  }
}
