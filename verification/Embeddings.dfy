/** Semantic search: stored vectors as bytes, cosine similarity, and the top-k selection. */
module Embeddings {
  import opened Basics
  import opened Sorting

  // Vectors as bytes

  type Byte = b: int | 0 <= b < 0x100
  type Word = w: int | 0 <= w < 0x1_0000_0000

  /** Four bytes of a blob, as `chunks_exact(4)` hands them out. */
  datatype Chunk = Chunk(b0: Byte, b1: Byte, b2: Byte, b3: Byte)

  /** `f32::to_le_bytes` on the float's 32-bit pattern. */
  function ToLeBytes(w: Word): Chunk {
    Chunk(w % 0x100, w / 0x100 % 0x100, w / 0x1_0000 % 0x100, w / 0x100_0000)
  }

  function FromLeBytes(c: Chunk): Word {
    c.b0 + 0x100 * c.b1 + 0x1_0000 * c.b2 + 0x100_0000 * c.b3
  }

  function Flatten(chunks: seq<Chunk>): seq<Byte> {
    if chunks == [] then [] else var c := chunks[0]; [c.b0, c.b1, c.b2, c.b3] + Flatten(chunks[1..])
  }

  /** Up to three bytes at the end belong to no chunk. */
  function Chunks(b: seq<Byte>): seq<Chunk> {
    if |b| < 4 then [] else [Chunk(b[0], b[1], b[2], b[3])] + Chunks(b[4..])
  }

  function VecToBytes(v: seq<Word>): seq<Byte> {
    Flatten(seq(|v|, i requires 0 <= i < |v| => ToLeBytes(v[i])))
  }

  function BytesToVec(b: seq<Byte>): seq<Word> {
    var chunks := Chunks(b);
    seq(|chunks|, i requires 0 <= i < |chunks| => FromLeBytes(chunks[i]))
  }

  lemma WordRoundTrip(w: Word)
    ensures FromLeBytes(ToLeBytes(w)) == w
  {
    assert w / 0x1_0000 == w / 0x100 / 0x100 && w / 0x100_0000 == w / 0x1_0000 / 0x100;
  }

  lemma ChunkRoundTrip(c: Chunk)
    ensures ToLeBytes(FromLeBytes(c)) == c
  {
    var w := FromLeBytes(c);
    var top := c.b2 + 0x100 * c.b3;
    var high := c.b1 + 0x100 * top;
    LowByte(w, c.b0, high);
    LowByte(high, c.b1, top);
    LowByte(top, c.b2, c.b3);
    HighBytes(w, high, top);
  }

  lemma LowByte(w: nat, b: Byte, high: nat)
    requires w == b + 0x100 * high
    ensures w % 0x100 == b && w / 0x100 == high
  {
  }

  lemma HighBytes(w: nat, high: nat, top: nat)
    requires w / 0x100 == high && high / 0x100 == top
    ensures w / 0x1_0000 == top && w / 0x100_0000 == top / 0x100
  {
  }

  lemma {:induction false} FlattenRoundTrip(chunks: seq<Chunk>)
    ensures Chunks(Flatten(chunks)) == chunks
  {
    if chunks != [] {
      assert Flatten(chunks)[4..] == Flatten(chunks[1..]);
      FlattenRoundTrip(chunks[1..]);
    }
  }

  lemma {:induction false} ChunksRoundTrip(b: seq<Byte>)
    ensures var whole := 4 * |Chunks(b)|;
            whole <= |b| < whole + 4 && Flatten(Chunks(b)) == b[..whole]
  {
    if |b| >= 4 {
      var rest := b[4..];
      ChunksRoundTrip(rest);
      assert Chunks(b)[1..] == Chunks(rest);
      FirstFour(b, 4 * |Chunks(rest)|);
    }
  }

  lemma FirstFour(b: seq<Byte>, n: nat)
    requires 4 + n <= |b|
    ensures b[..4 + n] == [b[0], b[1], b[2], b[3]] + b[4..][..n]
  {
  }

  /** What is stored is read back. */
  lemma VecRoundTrip(v: seq<Word>)
    ensures BytesToVec(VecToBytes(v)) == v
  {
    var chunks := seq(|v|, i requires 0 <= i < |v| => ToLeBytes(v[i]));
    FlattenRoundTrip(chunks);
    forall i | 0 <= i < |v| ensures FromLeBytes(chunks[i]) == v[i] {
      WordRoundTrip(v[i]);
    }
  }

  /** Reading a blob and storing it again drops exactly the incomplete last chunk. */
  lemma BlobRoundTrip(b: seq<Byte>)
    ensures var whole := 4 * |BytesToVec(b)|;
            whole <= |b| < whole + 4 && VecToBytes(BytesToVec(b)) == b[..whole]
  {
    var chunks, words := Chunks(b), BytesToVec(b);
    ChunksRoundTrip(b);
    forall i | 0 <= i < |chunks| ensures ToLeBytes(words[i]) == chunks[i] {
      ChunkRoundTrip(chunks[i]);
    }
    assert seq(|words|, i requires 0 <= i < |words| => ToLeBytes(words[i])) == chunks;
  }

  lemma {:induction false} FlattenAt(chunks: seq<Chunk>, i: nat)
    requires i < |chunks|
    ensures |Flatten(chunks)| == 4 * |chunks|
    ensures Flatten(chunks)[4 * i..4 * i + 4] == [chunks[i].b0, chunks[i].b1, chunks[i].b2, chunks[i].b3]
  {
    var front, back := [chunks[0].b0, chunks[0].b1, chunks[0].b2, chunks[0].b3], Flatten(chunks[1..]);
    assert Flatten(chunks) == front + back;
    if i > 0 {
      FlattenAt(chunks[1..], i - 1);
      assert (front + back)[4 * i..4 * i + 4] == back[4 * (i - 1)..4 * (i - 1) + 4];
    } else if |chunks| > 1 {
      FlattenAt(chunks[1..], 0);
    }
  }

  /** The stored bytes: four for every word, its lowest eight bits first. */
  lemma WordsAreLittleEndian(v: seq<Word>, i: nat)
    requires i < |v|
    ensures |VecToBytes(v)| == 4 * |v|
    ensures VecToBytes(v)[4 * i..4 * i + 4]
         == [v[i] % 0x100, v[i] / 0x100 % 0x100, v[i] / 0x1_0000 % 0x100, v[i] / 0x100_0000 % 0x100]
  {
    FlattenAt(seq(|v|, k requires 0 <= k < |v| => ToLeBytes(v[k])), i);
  }

  // Cosine similarity over the reals

  type Vector = seq<real>

  function Dot(a: Vector, b: Vector): real
    requires |a| == |b|
  {
    if a == [] then 0.0 else a[0] * b[0] + Dot(a[1..], b[1..])
  }

  /** The square root, which the standard library supplies. */
  ghost predicate SquareRoot(sqrt: real -> real) {
    forall x: real :: x >= 0.0 ==> sqrt(x) >= 0.0 && sqrt(x) * sqrt(x) == x
  }

  lemma ProductNonZero(x: real, y: real)
    requires x != 0.0 && y != 0.0
    ensures x * y != 0.0
  {
    var z := x * y;
    assert z / y == x;
  }

  function CosineSimilarity(a: Vector, b: Vector, sqrt: real -> real): real {
    if |a| != |b| || a == [] then 0.0
    else
      var normA, normB := sqrt(Dot(a, a)), sqrt(Dot(b, b));
      if normA == 0.0 || normB == 0.0 then 0.0
      else
        ProductNonZero(normA, normB);
        Dot(a, b) / (normA * normB)
  }

  lemma {:induction false} DotSymmetric(a: Vector, b: Vector)
    requires |a| == |b|
    ensures Dot(a, b) == Dot(b, a)
  {
    if a != [] { DotSymmetric(a[1..], b[1..]); }
  }

  /** The k-th unit vector. */
  function Unit(n: nat, k: nat): Vector {
    seq(n, i requires 0 <= i < n => if i == k then 1.0 else 0.0)
  }

  lemma {:induction false} DotWithUnitBeyond(v: Vector, k: nat)
    requires k >= |v|
    ensures Dot(v, Unit(|v|, k)) == 0.0
  {
    if v != [] {
      assert Unit(|v|, k)[1..] == Unit(|v| - 1, k - 1);
      DotWithUnitBeyond(v[1..], k - 1);
    }
  }

  /** The product with a unit vector is the coordinate itself, whichever it is. */
  lemma {:induction false} DotWithUnit(v: Vector, k: nat)
    requires k < |v|
    ensures Dot(v, Unit(|v|, k)) == v[k]
  {
    if k == 0 {
      assert Unit(|v|, 0)[1..] == Unit(|v| - 1, |v|);
      DotWithUnitBeyond(v[1..], |v|);
    } else {
      assert Unit(|v|, k)[1..] == Unit(|v| - 1, k - 1);
      DotWithUnit(v[1..], k - 1);
    }
  }

  ghost predicate NonZero(a: Vector) { exists i :: 0 <= i < |a| && a[i] != 0.0 }

  lemma {:induction false} DotSelf(a: Vector)
    ensures Dot(a, a) >= 0.0
    ensures NonZero(a) ==> Dot(a, a) > 0.0
  {
    if a != [] {
      DotSelf(a[1..]);
      NonZeroSplit(a);
      var square := SquareSign(a[0]);
      assert Dot(a, a) == square + Dot(a[1..], a[1..]);
    }
  }

  lemma NonZeroSplit(a: Vector)
    requires a != []
    ensures NonZero(a) <==> a[0] != 0.0 || NonZero(a[1..])
  {
    if i :| 0 < i < |a| && a[i] != 0.0 { assert a[1..][i - 1] != 0.0; }
    if i :| 0 <= i < |a[1..]| && a[1..][i] != 0.0 { assert a[i + 1] != 0.0; }
  }

  lemma ProductPositive(x: real, y: real, product: real)
    requires x > 0.0 && y > 0.0 && product == x * y
    ensures product > 0.0
  {
  }

  lemma SquarePositive(x: real, square: real)
    requires x != 0.0 && square == x * x
    ensures square > 0.0
  {
    if x > 0.0 {
      ProductPositive(x, x, square);
    } else {
      assert square == (-x) * (-x);
      ProductPositive(-x, -x, square);
    }
  }

  lemma SquareSign(x: real) returns (square: real)
    ensures square == x * x && square >= 0.0
    ensures x != 0.0 ==> square > 0.0
  {
    square := x * x;
    if x != 0.0 { SquarePositive(x, square); }
  }

  lemma ProductSign(x: real, y: real)
    requires x >= 0.0 && y >= 0.0
    ensures x * y >= 0.0
  {
  }

  /** s * a - t * b, element by element. */
  function Combined(a: Vector, b: Vector, s: real, t: real): Vector
    requires |a| == |b|
  {
    if a == [] then [] else [s * a[0] - t * b[0]] + Combined(a[1..], b[1..], s, t)
  }

  lemma SquareOfDifference(x: real, y: real, s: real, t: real)
    ensures (s * x - t * y) * (s * x - t * y) == s * s * (x * x) - 2.0 * s * t * (x * y) + t * t * (y * y)
  {
    var u, v := s * x, t * y;
    assert (u - v) * (u - v) == u * u - 2.0 * (u * v) + v * v;
    assert u * u == s * s * (x * x) && v * v == t * t * (y * y);
    assert u * v == s * t * (x * y);
  }

  lemma CombineStep(x: real, y: real, s: real, t: real, A: real, B: real, D: real)
    ensures (s * x - t * y) * (s * x - t * y) + (s * s * A - 2.0 * s * t * D + t * t * B)
            == s * s * (x * x + A) - 2.0 * s * t * (x * y + D) + t * t * (y * y + B)
  {
    SquareOfDifference(x, y, s, t);
    Distribute(s * s, x * x, A);
    Distribute(2.0 * s * t, x * y, D);
    Distribute(t * t, y * y, B);
  }

  lemma {:induction false} DotCombined(a: Vector, b: Vector, s: real, t: real)
    requires |a| == |b|
    ensures var c := Combined(a, b, s, t);
            |c| == |a| && Dot(c, c) == s * s * Dot(a, a) - 2.0 * s * t * Dot(a, b) + t * t * Dot(b, b)
  {
    if a == [] {
      TimesZero(s * s, 0.0);
      TimesZero(2.0 * s * t, 0.0);
      TimesZero(t * t, 0.0);
    } else {
      var c := Combined(a, b, s, t);
      var A, B, D := Dot(a[1..], a[1..]), Dot(b[1..], b[1..]), Dot(a[1..], b[1..]);
      DotCombined(a[1..], b[1..], s, t);
      assert c[1..] == Combined(a[1..], b[1..], s, t);
      var z := s * a[0] - t * b[0];
      assert Dot(c, c) == z * z + (s * s * A - 2.0 * s * t * D + t * t * B);
      CombineStep(a[0], b[0], s, t, A, B, D);
    }
  }

  lemma Distribute(k: real, x: real, y: real)
    ensures k * (x + y) == k * x + k * y
  {
  }

  /** The product is linear, so the unit vectors determine it. */
  lemma {:induction false} DotIsLinear(v: Vector, a: Vector, b: Vector, s: real, t: real)
    requires |v| == |a| == |b|
    ensures |Combined(a, b, s, t)| == |a| && Dot(v, Combined(a, b, s, t)) == s * Dot(v, a) - t * Dot(v, b)
  {
    if a == [] {
      TimesZero(s, 0.0);
      TimesZero(t, 0.0);
    } else {
      DotIsLinear(v[1..], a[1..], b[1..], s, t);
      assert Combined(a, b, s, t)[1..] == Combined(a[1..], b[1..], s, t);
      LinearStep(v[0], a[0], b[0], s, t, Dot(v[1..], a[1..]), Dot(v[1..], b[1..]));
    }
  }

  lemma LinearStep(v: real, x: real, y: real, s: real, t: real, X: real, Y: real)
    ensures v * (s * x - t * y) + (s * X - t * Y) == s * (v * x + X) - t * (v * y + Y)
  {
    Distribute(s, v * x, X);
    Distribute(t, v * y, Y);
    assert v * (s * x - t * y) == v * (s * x) - v * (t * y);
  }

  ghost predicate IsSquareOf(square: real, A: real, B: real, D: real, s: real, t: real) {
    square == s * s * A - 2.0 * s * t * D + t * t * B
  }

  lemma SquareOfCombined(a: Vector, b: Vector, s: real, t: real) returns (square: real)
    requires |a| == |b|
    ensures square >= 0.0
    ensures |Combined(a, b, s, t)| == |a| && (NonZero(Combined(a, b, s, t)) ==> square > 0.0)
    ensures IsSquareOf(square, Dot(a, a), Dot(b, b), Dot(a, b), s, t)
  {
    square := Dot(Combined(a, b, s, t), Combined(a, b, s, t));
    DotSelf(Combined(a, b, s, t));
    DotCombined(a, b, s, t);
  }

  /** What the square of B * a - D * b says about A = Dot(a, a), B = Dot(b, b) and D = Dot(a, b). */
  lemma GapMeans(A: real, B: real, D: real, square: real)
    requires IsSquareOf(square, A, B, D, B, D) && square >= 0.0 && B > 0.0
    ensures D * D <= A * B
    ensures square > 0.0 ==> D * D < A * B
  {
    var gap := A * B - D * D;
    assert square == B * gap by { GapAsProduct(A, B, D); }
    assert gap == square / B;
    if square > 0.0 { RatioPositive(square, B); } else { PositiveFactor(B, gap, square); }
  }

  /** Cauchy-Schwarz when b is not zero; strict unless the vectors are multiples of one another. */
  lemma CauchySchwarzNonZero(a: Vector, b: Vector)
    requires |a| == |b| && Dot(b, b) > 0.0
    ensures Dot(a, b) * Dot(a, b) <= Dot(a, a) * Dot(b, b)
    ensures |Combined(a, b, Dot(b, b), Dot(a, b))| == |a|
    ensures NonZero(Combined(a, b, Dot(b, b), Dot(a, b))) ==> Dot(a, b) * Dot(a, b) < Dot(a, a) * Dot(b, b)
  {
    var square := SquareOfCombined(a, b, Dot(b, b), Dot(a, b));
    GapMeans(Dot(a, a), Dot(b, b), Dot(a, b), square);
  }

  lemma NoGapAtZero(A: real, B: real, D: real)
    requires B == 0.0 && D == 0.0
    ensures D * D <= A * B
  {
    TimesZero(D, D);
    TimesZero(A, B);
  }

  /** The Cauchy-Schwarz inequality, for vectors of any length. */
  lemma CauchySchwarz(a: Vector, b: Vector)
    requires |a| == |b|
    ensures Dot(a, b) * Dot(a, b) <= Dot(a, a) * Dot(b, b)
  {
    DotSelf(b);
    DotWithZero(a, b);
    if Dot(b, b) > 0.0 {
      CauchySchwarzNonZero(a, b);
    } else {
      NoGapAtZero(Dot(a, a), Dot(b, b), Dot(a, b));
    }
  }

  lemma GapAsProduct(A: real, B: real, D: real)
    ensures B * B * A - 2.0 * B * D * D + D * D * B == B * (A * B - D * D)
  {
    assert B * B * A == B * (A * B) && D * D * B == B * (D * D);
    assert 2.0 * B * D * D == 2.0 * (B * (D * D));
  }

  lemma PositiveFactor(k: real, x: real, product: real)
    requires k > 0.0 && product == k * x && product >= 0.0
    ensures x >= 0.0
  {
    assert x == product / k;
  }

  lemma {:induction false} DotWithZero(a: Vector, b: Vector)
    requires |a| == |b|
    ensures !NonZero(b) ==> Dot(a, b) == 0.0
    ensures Dot(b, b) == 0.0 ==> Dot(a, b) == 0.0
  {
    DotSelf(b);
    if a != [] && !NonZero(b) {
      NonZeroSplit(b);
      DotWithZero(a[1..], b[1..]);
      TimesZero(a[0], b[0]);
    }
  }

  lemma TimesZero(x: real, y: real)
    requires y == 0.0
    ensures x * y == 0.0
  {
  }

  /** |x| <= y for a bound on the squares. */
  lemma SquareBound(x: real, y: real)
    requires y >= 0.0 && x * x <= y * y
    ensures -y <= x <= y
  {
    if x > y { SquareGrows(y, x); }
    if x < -y { SquareGrows(y, -x); }
  }

  lemma SquareGrows(x: real, y: real)
    requires 0.0 <= x < y
    ensures x * x < y * y
  {
    var d := y - x;
    assert y * y == x * x + d * x + y * d by {
      assert y * y == x * y + d * y && x * y == x * x + x * d;
    }
    ProductSign(d, x);
    ProductSign(y, d);
    ProductNonZero(y, d);
  }

  lemma NormProduct(A: real, B: real, sqrt: real -> real)
    requires SquareRoot(sqrt) && A >= 0.0 && B >= 0.0
    ensures sqrt(A) * sqrt(B) >= 0.0
    ensures (sqrt(A) * sqrt(B)) * (sqrt(A) * sqrt(B)) == A * B
    ensures sqrt(A) == 0.0 ==> A == 0.0
  {
    var p, q := sqrt(A), sqrt(B);
    assert p >= 0.0 && q >= 0.0 && p * p == A && q * q == B;
    if p == 0.0 { TimesZero(p, p); }
    ProductSign(p, q);
    SquareOfProduct(p, q);
    assert (p * q) * (p * q) == A * B;
  }

  lemma SquareOfProduct(p: real, q: real)
    ensures (p * q) * (p * q) == (p * p) * (q * q)
  {
  }

  lemma CosineIs(a: Vector, b: Vector, sqrt: real -> real) returns (n: real)
    requires SquareRoot(sqrt) && |a| == |b| && a != [] && sqrt(Dot(a, a)) != 0.0 && sqrt(Dot(b, b)) != 0.0
    ensures n > 0.0 && n * n == Dot(a, a) * Dot(b, b) && n == sqrt(Dot(a, a)) * sqrt(Dot(b, b))
    ensures CosineSimilarity(a, b, sqrt) == Dot(a, b) / n
  {
    DotSelf(a);
    DotSelf(b);
    n := PositiveNorms(Dot(a, a), Dot(b, b), sqrt);
  }

  lemma PositiveNorms(A: real, B: real, sqrt: real -> real) returns (n: real)
    requires SquareRoot(sqrt) && A >= 0.0 && B >= 0.0 && sqrt(A) != 0.0 && sqrt(B) != 0.0
    ensures n > 0.0 && n * n == A * B && n == sqrt(A) * sqrt(B)
  {
    n := sqrt(A) * sqrt(B);
    ProductPositive(sqrt(A), sqrt(B), n);
    NormProduct(A, B, sqrt);
  }

  lemma CosineInRange(a: Vector, b: Vector, sqrt: real -> real)
    requires SquareRoot(sqrt)
    ensures -1.0 <= CosineSimilarity(a, b, sqrt) <= 1.0
  {
    if |a| == |b| && a != [] && sqrt(Dot(a, a)) != 0.0 && sqrt(Dot(b, b)) != 0.0 {
      var n := CosineIs(a, b, sqrt);
      CauchySchwarz(a, b);
      SquareBound(Dot(a, b), n);
      QuotientBound(Dot(a, b), n);
    }
  }

  /** The similarity of non-zero vectors is their product over the root of the product of their squared lengths. */
  lemma SimilarityMeans(a: Vector, b: Vector, sqrt: real -> real) returns (n: real)
    requires SquareRoot(sqrt) && |a| == |b| && NonZero(a) && NonZero(b)
    ensures n > 0.0 && n * n == Dot(a, a) * Dot(b, b)
    ensures CosineSimilarity(a, b, sqrt) * n == Dot(a, b)
  {
    DotSelf(a);
    DotSelf(b);
    NormNonZero(Dot(a, a), sqrt);
    NormNonZero(Dot(b, b), sqrt);
    n := CosineIs(a, b, sqrt);
    TimesQuotient(Dot(a, b), n);
  }

  lemma TimesQuotient(x: real, n: real)
    requires n != 0.0
    ensures x / n * n == x
  {
  }

  /** Vectors of different lengths, and zero vectors, are similar to nothing. */
  lemma NoSimilarity(a: Vector, b: Vector, sqrt: real -> real)
    requires SquareRoot(sqrt) && (|a| != |b| || !NonZero(a) || !NonZero(b))
    ensures CosineSimilarity(a, b, sqrt) == 0.0
  {
    if |a| == |b| {
      if !NonZero(a) { DotWithZero(a, a); } else { DotWithZero(b, b); }
      RootOfZero(sqrt);
    }
  }

  lemma RootOfZero(sqrt: real -> real)
    requires SquareRoot(sqrt)
    ensures sqrt(0.0) == 0.0
  {
    SquareOfNothing(sqrt(0.0), sqrt(0.0) * sqrt(0.0));
  }

  lemma SquareOfNothing(x: real, square: real)
    requires square == x * x && square == 0.0
    ensures x == 0.0
  {
    if x != 0.0 { SquarePositive(x, square); }
  }

  lemma CosineIsSymmetric(a: Vector, b: Vector, sqrt: real -> real)
    ensures CosineSimilarity(a, b, sqrt) == CosineSimilarity(b, a, sqrt)
  {
    if |a| == |b| { DotSymmetric(a, b); }
  }

  lemma QuotientBound(x: real, n: real)
    requires n > 0.0 && -n <= x <= n
    ensures -1.0 <= x / n <= 1.0
  {
  }

  /** b is a positive multiple of a: the two point the same way. */
  ghost predicate SameDirection(a: Vector, b: Vector) {
    |a| == |b| && exists t: real :: t > 0.0 && IsMultiple(a, b, t)
  }

  ghost predicate IsMultiple(a: Vector, b: Vector, t: real) {
    |a| == |b| && forall i :: 0 <= i < |a| ==> b[i] == t * a[i]
  }

  lemma MultipleStep(v: real, x: real, y: real, t: real, X: real, Y: real, wholeX: real, wholeY: real)
    requires y == t * x && Y == t * X
    requires wholeX == v * x + X && wholeY == v * y + Y
    ensures wholeY == t * wholeX
  {
    assert v * (t * x) == t * (v * x);
    Distribute(t, v * x, X);
  }

  lemma {:induction false} DotWithMultiple(v: Vector, a: Vector, b: Vector, t: real)
    requires |v| == |a| && IsMultiple(a, b, t)
    ensures Dot(v, b) == t * Dot(v, a)
  {
    if a == [] {
      TimesZero(t, 0.0);
    } else {
      DotWithMultiple(v[1..], a[1..], b[1..], t);
      MultipleStep(v[0], a[0], b[0], t, Dot(v[1..], a[1..]), Dot(v[1..], b[1..]), Dot(v, a), Dot(v, b));
    }
  }

  lemma {:induction false} CombinedAt(a: Vector, b: Vector, s: real, t: real, i: nat)
    requires |a| == |b| && i < |a|
    ensures |Combined(a, b, s, t)| == |a| && Combined(a, b, s, t)[i] == s * a[i] - t * b[i]
    decreases |a|
  {
    CombinedLength(a, b, s, t);
    if i > 0 { CombinedAt(a[1..], b[1..], s, t, i - 1); }
  }

  lemma {:induction false} CombinedLength(a: Vector, b: Vector, s: real, t: real)
    requires |a| == |b|
    ensures |Combined(a, b, s, t)| == |a|
  {
    if a != [] { CombinedLength(a[1..], b[1..], s, t); }
  }

  lemma SameSquares(x: real, y: real, square: real)
    requires x >= 0.0 && y >= 0.0 && x * x == square && y * y == square
    ensures x == y
  {
    if x < y { SquareGrows(x, y); }
    if y < x { SquareGrows(y, x); }
  }

  lemma ZeroMeansMultiple(a: Vector, b: Vector, s: real, t: real)
    requires |a| == |b| && t != 0.0 && !NonZero(Combined(a, b, s, t))
    ensures IsMultiple(a, b, s / t)
  {
    forall i | 0 <= i < |a| ensures b[i] == s / t * a[i] {
      CombinedAt(a, b, s, t, i);
      assert Combined(a, b, s, t)[i] == 0.0;
      Quotient(t, b[i], s, a[i]);
    }
  }

  lemma Quotient(d: real, y: real, k: real, x: real)
    requires d != 0.0 && k * x - d * y == 0.0
    ensures y == k / d * x
  {
    assert y == (d * y) / d;
    assert (k * x) / d == k / d * x;
  }

  lemma FullScoreMeansMultiple(a: Vector, b: Vector)
    requires |a| == |b| && Dot(b, b) > 0.0 && Dot(a, b) > 0.0
    requires Dot(a, b) * Dot(a, b) >= Dot(a, a) * Dot(b, b)
    ensures SameDirection(a, b)
  {
    CauchySchwarzNonZero(a, b);
    ZeroMeansMultiple(a, b, Dot(b, b), Dot(a, b));
    RatioPositive(Dot(b, b), Dot(a, b));
  }

  lemma MultipleIsTight(a: Vector, b: Vector)
    requires SameDirection(a, b) && Dot(a, a) > 0.0
    ensures Dot(a, b) > 0.0 && Dot(a, b) * Dot(a, b) == Dot(a, a) * Dot(b, b)
  {
    var t: real :| t > 0.0 && IsMultiple(a, b, t);
    DotWithMultiple(a, a, b, t);
    DotWithMultiple(b, a, b, t);
    DotSymmetric(a, b);
    TightValues(Dot(a, a), Dot(b, b), Dot(a, b), t);
  }

  lemma TightValues(A: real, B: real, D: real, t: real)
    requires A > 0.0 && t > 0.0 && D == t * A && B == t * D
    ensures D > 0.0 && D * D == A * B
  {
    ProductPositive(t, A, D);
    assert A * (t * D) == (t * A) * D;
  }

  /** Non-zero vectors score the full 1 exactly when one is a positive multiple of the other. */
  lemma OneExactlyWhenSameDirection(a: Vector, b: Vector, sqrt: real -> real)
    requires SquareRoot(sqrt) && |a| == |b| && NonZero(a) && NonZero(b)
    ensures CosineSimilarity(a, b, sqrt) == 1.0 <==> SameDirection(a, b)
  {
    DotSelf(a);
    DotSelf(b);
    NormNonZero(Dot(a, a), sqrt);
    NormNonZero(Dot(b, b), sqrt);
    var n := CosineIs(a, b, sqrt);
    QuotientIsOne(Dot(a, b), n);
    if Dot(a, b) == n { FullScoreMeansMultiple(a, b); }
    if SameDirection(a, b) {
      MultipleIsTight(a, b);
      SameSquares(Dot(a, b), n, n * n);
    }
  }

  lemma QuotientIsOne(x: real, n: real)
    requires n > 0.0
    ensures x / n == 1.0 <==> x == n
  {
  }

  lemma RatioPositive(x: real, y: real)
    requires x > 0.0 && y > 0.0
    ensures x / y > 0.0
  {
  }

  lemma NormNonZero(A: real, sqrt: real -> real)
    requires SquareRoot(sqrt) && A > 0.0
    ensures sqrt(A) != 0.0
  {
    NormProduct(A, A, sqrt);
  }

  // The semantic query

  datatype StoredRow = StoredRow(id: string, blob: seq<Byte>)

  datatype Scored = Scored(score: real, id: string)

  /** Query parameters: the number behind each 32-bit pattern, and the square root. */
  datatype Arithmetic = Arithmetic(decode: Word -> real, sqrt: real -> real)

  function Values(words: seq<Word>, decode: Word -> real): Vector {
    seq(|words|, i requires 0 <= i < |words| => decode(words[i]))
  }

  function ScoreRow(q: Vector, row: StoredRow, m: Arithmetic): Scored {
    Scored(CosineSimilarity(q, Values(BytesToVec(row.blob), m.decode), m.sqrt), row.id)
  }

  function Scores(q: Vector, rows: seq<StoredRow>, m: Arithmetic): seq<Scored> {
    seq(|rows|, i requires 0 <= i < |rows| => ScoreRow(q, rows[i], m))
  }

  predicate HigherFirst(x: Scored, y: Scored) { x.score >= y.score }

  lemma ScoresInRange(q: Vector, rows: seq<StoredRow>, m: Arithmetic)
    requires SquareRoot(m.sqrt)
    ensures forall x <- Scores(q, rows, m) :: -1.0 <= x.score <= 1.0
  {
    forall i | 0 <= i < |rows| ensures -1.0 <= Scores(q, rows, m)[i].score <= 1.0 {
      CosineInRange(q, Values(BytesToVec(rows[i].blob), m.decode), m.sqrt);
    }
  }

  /** Nothing left out scores above anything returned. */
  ghost predicate Best(hits: seq<Scored>, scored: seq<Scored>) {
    && (forall i, j :: 0 <= i < j < |hits| ==> hits[i].score >= hits[j].score)
    && exists rest: seq<Scored> :: LeavesOut(hits, rest, scored)
  }

  ghost predicate LeavesOut(hits: seq<Scored>, rest: seq<Scored>, scored: seq<Scored>) {
    && multiset(hits) + multiset(rest) == multiset(scored)
    && forall h, o :: h in hits && o in rest ==> h.score >= o.score
  }

  lemma TopKIsTheBest(scored: seq<Scored>, k: nat)
    ensures Best(TopK(scored, k, HigherFirst), scored)
    ensures |TopK(scored, k, HigherFirst)| == Min(k, |scored|)
    ensures forall x <- TopK(scored, k, HigherFirst) :: x in scored
  {
    var hits, rest := TopK(scored, k, HigherFirst), Omitted(scored, k, HigherFirst);
    TopKIsBest(scored, k, HigherFirst);
    assert forall i, j :: 0 <= i < j < |hits| ==> HigherFirst(hits[i], hits[j]);
    assert LeavesOut(hits, rest, scored) by {
      assert forall h, o :: h in hits && o in rest ==> HigherFirst(h, o);
    }
    FromScored(hits, rest, scored);
  }

  lemma FromScored(hits: seq<Scored>, rest: seq<Scored>, scored: seq<Scored>)
    requires multiset(hits) + multiset(rest) == multiset(scored)
    ensures forall x <- hits :: x in scored
  {
    forall x | x in hits ensures x in scored {
      assert x in multiset(hits) && x in multiset(scored);
    }
  }

  /** The k best stored vectors, best first, each scored in [-1, 1]. */
  method QuerySemantic(q: Vector, rows: seq<StoredRow>, k: nat, m: Arithmetic) returns (hits: seq<Scored>)
    requires SquareRoot(m.sqrt)
    ensures |hits| == Min(k, |rows|)
    ensures Best(hits, Scores(q, rows, m))
    ensures forall h <- hits :: -1.0 <= h.score <= 1.0
  {
    var scored := Scores(q, rows, m);
    SortKeepsElements(scored, HigherFirst);
    TopKIsTheBest(scored, k);
    ScoresInRange(q, rows, m);
    hits := Sort(scored, HigherFirst);
    if |hits| > k { hits := hits[..k]; }
    assert hits == TopK(scored, k, HigherFirst);
  }

  // Where a vector stored under the query's own direction comes

  predicate Full(x: Scored) { x.score == 1.0 }

  function FullCount(xs: seq<Scored>): nat {
    if xs == [] then 0 else (if Full(xs[0]) then 1 else 0) + FullCount(xs[1..])
  }

  lemma {:induction false} InsertBehind(x: Scored, ys: seq<Scored>, p: nat)
    requires p < |ys| && forall j :: 0 <= j <= p ==> !HigherFirst(x, ys[j])
    ensures |Insert(x, ys, HigherFirst)| == |ys| + 1 && Insert(x, ys, HigherFirst)[p] == ys[p]
  {
    InsertKeepsElements(x, ys, HigherFirst);
    assert |multiset(Insert(x, ys, HigherFirst))| == |multiset(ys)| + 1;
    assert !HigherFirst(x, ys[0]);
    if p > 0 {
      assert forall j :: 0 <= j <= p - 1 ==> ys[1..][j] == ys[j + 1];
      InsertBehind(x, ys[1..], p - 1);
    }
  }

  /**
   Full scores are sorted to the front and keep their order: the r-th comes behind exactly the full scores before it.
   */
  lemma {:induction false} FullScoresLead(xs: seq<Scored>, r: nat)
    requires r < |xs| && Full(xs[r]) && forall x <- xs :: x.score <= 1.0
    ensures FullCount(xs[..r]) < |Sort(xs, HigherFirst)| && Sort(xs, HigherFirst)[FullCount(xs[..r])] == xs[r]
  {
    var x, ys := xs[0], xs[1..];
    assert x in xs && forall y <- ys :: y in xs;
    if Full(x) { FullGoesFirst(x, ys); }
    if r > 0 {
      FullScoresLead(ys, r - 1);
      CountSplits(xs, r);
      if !Full(x) {
        SortSorts(ys, HigherFirst);
        LesserGoesBehind(x, Sort(ys, HigherFirst), FullCount(ys[..r - 1]));
      }
    }
  }

  lemma CountSplits(xs: seq<Scored>, r: nat)
    requires 0 < r <= |xs|
    ensures FullCount(xs[..r]) == (if Full(xs[0]) then 1 else 0) + FullCount(xs[1..][..r - 1])
  {
    assert xs[..r][1..] == xs[1..][..r - 1];
  }

  lemma LesserGoesBehind(x: Scored, sorted: seq<Scored>, p: nat)
    requires x.score < 1.0 && p < |sorted| && Full(sorted[p]) && SortedBy(sorted, HigherFirst)
    ensures |Insert(x, sorted, HigherFirst)| == |sorted| + 1 && Insert(x, sorted, HigherFirst)[p] == sorted[p]
  {
    forall j | 0 <= j <= p ensures !HigherFirst(x, sorted[j]) {
      assert j < p ==> HigherFirst(sorted[j], sorted[p]);
    }
    InsertBehind(x, sorted, p);
  }

  lemma FullGoesFirst(x: Scored, xs: seq<Scored>)
    requires Full(x) && forall y <- xs :: y.score <= 1.0
    ensures Insert(x, Sort(xs, HigherFirst), HigherFirst) == [x] + Sort(xs, HigherFirst)
  {
    var sorted := Sort(xs, HigherFirst);
    if sorted != [] { SortedMembership(xs, HigherFirst, sorted[0]); }
  }

  /** How many of the rows point the same way as the query. */
  function SameWay(q: Vector, rows: seq<StoredRow>, m: Arithmetic): nat { FullCount(Scores(q, rows, m)) }

  /** A row scores the full 1 exactly when its vector points the query's way. */
  lemma FullExactly(q: Vector, row: StoredRow, m: Arithmetic)
    requires SquareRoot(m.sqrt) && NonZero(q)
    ensures Full(ScoreRow(q, row, m)) <==> SameDirection(q, Values(BytesToVec(row.blob), m.decode))
  {
    var v := Values(BytesToVec(row.blob), m.decode);
    if |v| == |q| && NonZero(v) {
      OneExactlyWhenSameDirection(q, v, m.sqrt);
    } else if |v| == |q| {
      ZeroScoresNothing(q, v, m.sqrt);
    }
  }

  lemma ZeroScoresNothing(q: Vector, v: Vector, sqrt: real -> real)
    requires SquareRoot(sqrt) && NonZero(q) && |v| == |q| && !NonZero(v)
    ensures CosineSimilarity(q, v, sqrt) == 0.0 && !SameDirection(q, v)
  {
    DotWithZero(q, v);
    DotWithZero(v, v);
    ZeroNorm(Dot(v, v), sqrt);
    var i :| 0 <= i < |q| && q[i] != 0.0;
    forall t: real | t > 0.0 ensures !IsMultiple(q, v, t) {
      ProductNonZero(t, q[i]);
    }
  }

  lemma ZeroNorm(A: real, sqrt: real -> real)
    requires SquareRoot(sqrt) && A == 0.0
    ensures sqrt(A) == 0.0
  {
    var p := sqrt(A);
    assert p * p == A;
    if p != 0.0 { SquarePositive(p, p * p); }
  }

  /**
   A vector stored under the query's own bits is found: it is the hit behind exactly the earlier rows that point the
   same way, so it is returned when those are fewer than k; otherwise every one of the k hits has the full score.
   */
  lemma ExactMatchIsFound(words: seq<Word>, rows: seq<StoredRow>, k: nat, m: Arithmetic, r: nat)
    requires SquareRoot(m.sqrt) && NonZero(Values(words, m.decode))
    requires r < |rows| && rows[r].blob == VecToBytes(words)
    ensures var q := Values(words, m.decode);
            var hits, ahead := TopK(Scores(q, rows, m), k, HigherFirst), SameWay(q, rows[..r], m);
            && (ahead < k ==> ahead < |hits| && hits[ahead] == Scored(1.0, rows[r].id))
            && (ahead >= k ==> |hits| == k)
            && (forall j :: 0 <= j < |hits| && j <= ahead ==> Full(hits[j]))
  {
    var q := Values(words, m.decode);
    var scored := Scores(q, rows, m);
    VecRoundTrip(words);
    assert IsMultiple(q, q, 1.0);
    FullExactly(q, rows[r], m);
    ScoresInRange(q, rows, m);
    assert scored[..r] == Scores(q, rows[..r], m);
    FullScoresLead(scored, r);
    SortSorts(scored, HigherFirst);
    SortKeepsElements(scored, HigherFirst);
    var sorted, ahead := Sort(scored, HigherFirst), SameWay(q, rows[..r], m);
    forall j | 0 <= j <= ahead ensures Full(sorted[j]) {
      SortedMembership(scored, HigherFirst, sorted[j]);
      assert j < ahead ==> HigherFirst(sorted[j], sorted[ahead]);
    }
  }
}
