/**
 The 64-bit difference hash: one bit for each pair of neighbouring pixels, packed four to a hexadecimal digit.
 The loops are given for any width and height; `ComputeDhash64` is the 9 by 8 instance.
 */
module PerceptualHash {
  import opened Arithmetic

  /** The comparison at column `x` of row `y`: is the left pixel brighter than the right one? */
  predicate Brighter(raw: seq<int>, width: nat, x: nat, y: nat)
    requires x + 1 < width && y * width + x + 1 < |raw|
  {
    raw[y * width + x] > raw[y * width + x + 1]
  }

  lemma InBuffer(width: nat, height: nat, x: nat, y: nat)
    requires x + 1 < width && y < height
    ensures y * width + x + 1 < width * height
  {
    assert y * width <= (height - 1) * width by { MulMonotone(width, y, height - 1); }
    assert (height - 1) * width == width * height - width;
  }

  /** The comparisons of row `y`, from the first `n` columns. */
  function RowBits(raw: seq<int>, width: nat, y: nat, n: nat): (bits: seq<bool>)
    requires n < width && y * width + n < |raw|
    ensures |bits| == n && forall x :: 0 <= x < n ==> bits[x] == Brighter(raw, width, x, y)
  {
    seq(n, x requires 0 <= x < n => Brighter(raw, width, x, y))
  }

  /** All comparisons of the first `n` rows, in row-major order. */
  function Comparisons(raw: seq<int>, width: nat, height: nat, n: nat): (bits: seq<bool>)
    requires width >= 1 && n <= height && |raw| >= width * height
    ensures |bits| == n * (width - 1)
  {
    if n == 0 then []
    else
      LastInRow(width, height, n - 1);
      assert n * (width - 1) == (n - 1) * (width - 1) + (width - 1);
      Comparisons(raw, width, height, n - 1) + RowBits(raw, width, n - 1, width - 1)
  }

  lemma LastInRow(width: nat, height: nat, y: nat)
    requires width >= 1 && y < height
    ensures y * width + (width - 1) < width * height
  {
    MulMonotone(width, y, height - 1);
    assert (height - 1) * width == width * height - width;
  }

  method ComparisonBits(raw: seq<int>, width: nat, height: nat) returns (bits: seq<bool>)
    requires width >= 1 && |raw| >= width * height
    ensures bits == Comparisons(raw, width, height, height)
  {
    bits := [];
    for y := 0 to height
      invariant bits == Comparisons(raw, width, height, y)
    {
      LastInRow(width, height, y);
      for x := 0 to width - 1
        invariant bits == Comparisons(raw, width, height, y) + RowBits(raw, width, y, x)
      {
        var left := raw[y * width + x];
        var right := raw[y * width + x + 1];
        bits := bits + [left > right];
      }
    }
  }

  // ----- Packing -----

  function HexDigit(nibble: nat): (digit: char)
    requires nibble < 16
    ensures IsHexDigit(digit)
  {
    if nibble < 10 then '0' + nibble as char else 'a' + (nibble - 10) as char
  }

  function DigitValue(digit: char): nat {
    if '0' <= digit <= '9' then (digit - '0') as nat
    else if 'a' <= digit <= 'f' then (digit - 'a') as nat + 10
    else 0
  }

  function BitValue(bit: bool): nat {
    if bit then 1 else 0
  }

  /** The number a group of bits writes in base 2, the first one highest. */
  function Value(bits: seq<bool>): nat {
    if bits == [] then 0 else 2 * Value(bits[..|bits| - 1]) + BitValue(bits[|bits| - 1])
  }

  /** The four bits of a digit, the highest first. */
  function DigitBits(digit: char): seq<bool> {
    var v := DigitValue(digit);
    [v / 8 % 2 == 1, v / 4 % 2 == 1, v / 2 % 2 == 1, v % 2 == 1]
  }

  /** Reading a hash back: the bits of its digits, one after another. */
  function Decode(hex: string): (bits: seq<bool>)
    ensures |bits| == 4 * |hex|
  {
    if hex == "" then [] else Decode(hex[..|hex| - 1]) + DigitBits(hex[|hex| - 1])
  }

  predicate IsHexDigit(digit: char) {
    '0' <= digit <= '9' || 'a' <= digit <= 'f'
  }

  predicate IsHex(hex: string) {
    forall k :: 0 <= k < |hex| ==> IsHexDigit(hex[k])
  }

  lemma FourBits(a: bool, b: bool, c: bool, d: bool)
    ensures Value([a, b, c, d]) == 8 * BitValue(a) + 4 * BitValue(b) + 2 * BitValue(c) + BitValue(d)
  {
    assert [a, b, c, d][..3] == [a, b, c] && [a, b, c][..2] == [a, b] && [a, b][..1] == [a] && [a][..0] == [];
    assert Value([a]) == BitValue(a);
    assert Value([a, b]) == 2 * BitValue(a) + BitValue(b);
    assert Value([a, b, c]) == 4 * BitValue(a) + 2 * BitValue(b) + BitValue(c);
  }

  lemma DigitRoundTrip(v: nat)
    requires v < 16
    ensures DigitValue(HexDigit(v)) == v
  {
  }

  lemma BitsOf(a: bool, b: bool, c: bool, d: bool, v: nat)
    requires v == 8 * BitValue(a) + 4 * BitValue(b) + 2 * BitValue(c) + BitValue(d)
    ensures v < 16 && (v / 8 % 2 == 1) == a && (v / 4 % 2 == 1) == b && (v / 2 % 2 == 1) == c && (v % 2 == 1) == d
  {
  }

  /** Four bits pack into a digit that reads back as those four bits. */
  lemma NibbleRoundTrip(bits: seq<bool>)
    requires |bits| == 4
    ensures Value(bits) < 16 && DigitBits(HexDigit(Value(bits))) == bits
  {
    assert bits == [bits[0], bits[1], bits[2], bits[3]];
    FourBits(bits[0], bits[1], bits[2], bits[3]);
    BitsOf(bits[0], bits[1], bits[2], bits[3], Value(bits));
    DigitRoundTrip(Value(bits));
  }

  function PadStart(text: string, length: nat): string {
    if |text| >= length then text else seq(length - |text|, _ => '0') + text
  }

  /** The inner loop: four bits shifted into a nibble. */
  method PackNibble(bits: seq<bool>, i: nat) returns (nibble: nat)
    requires 4 * i + 4 <= |bits|
    ensures nibble == Value(bits[4 * i..4 * i + 4])
  {
    nibble := 0;
    for j := 0 to 4
      invariant nibble == Value(bits[4 * i..4 * i + j])
    {
      ghost var group := bits[4 * i..4 * i + j + 1];
      assert group[..|group| - 1] == bits[4 * i..4 * i + j];
      nibble := 2 * nibble + BitValue(bits[i * 4 + j]);
    }
  }

  method PackHex(bits: seq<bool>, digits: nat) returns (hex: string)
    requires |bits| == 4 * digits
    ensures |hex| == digits && IsHex(hex) && Decode(hex) == bits
  {
    hex := "";
    for i := 0 to digits
      invariant |hex| == i && IsHex(hex) && Decode(hex) == bits[..4 * i]
    {
      var nibble := PackNibble(bits, i);
      NibbleRoundTrip(bits[4 * i..4 * i + 4]);
      ghost var before := hex;
      hex := hex + [HexDigit(nibble)];
      assert hex[..|hex| - 1] == before;
      assert bits[..4 * (i + 1)] == bits[..4 * i] + bits[4 * i..4 * i + 4];
    }
    assert bits[..4 * digits] == bits;
    hex := PadStart(hex, digits);
  }

  const WIDTH: nat := 9
  const HEIGHT: nat := 8

  method ComputeDhash64(raw: seq<int>) returns (hash: string)
    requires |raw| >= 72
    ensures |hash| == 16 && IsHex(hash) && Decode(hash) == Comparisons(raw, WIDTH, HEIGHT, HEIGHT)
  {
    var bits := ComparisonBits(raw, WIDTH, HEIGHT);
    hash := PackHex(bits, 16);
  }

  // ----- What the hash means -----

  /** A hash is determined by the bits it reads back as: packing loses nothing and adds nothing. */
  lemma {:induction false} DecodeIsInjective(a: string, b: string)
    requires IsHex(a) && IsHex(b) && |a| == |b|
    ensures Decode(a) == Decode(b) ==> a == b
  {
    if a != "" && Decode(a) == Decode(b) {
      var n := |a| - 1;
      DecodeSplits(a, b);
      DigitBitsInjective(a[n], b[n]);
      DecodeIsInjective(a[..n], b[..n]);
      assert a == a[..n] + [a[n]] && b == b[..n] + [b[n]];
    }
  }

  lemma DecodeSplits(a: string, b: string)
    requires |a| == |b| > 0 && Decode(a) == Decode(b)
    ensures var n := |a| - 1; Decode(a[..n]) == Decode(b[..n]) && DigitBits(a[n]) == DigitBits(b[n])
  {
    var n := |a| - 1;
    PartsOfEqual(Decode(a[..n]), DigitBits(a[n]), Decode(b[..n]), DigitBits(b[n]));
  }

  lemma PartsOfEqual(a: seq<bool>, c: seq<bool>, b: seq<bool>, d: seq<bool>)
    requires |a| == |b| && a + c == b + d
    ensures a == b && c == d
  {
    assert (a + c)[..|a|] == a && (b + d)[..|a|] == b;
    assert (a + c)[|a|..] == c && (b + d)[|a|..] == d;
  }

  lemma DigitBitsInjective(a: char, b: char)
    requires IsHexDigit(a) && IsHexDigit(b) && DigitBits(a) == DigitBits(b)
    ensures a == b
  {
    var v, w := DigitValue(a), DigitValue(b);
    ValueOfBits(v);
    ValueOfBits(w);
    assert DigitBits(a)[0] == DigitBits(b)[0] && DigitBits(a)[1] == DigitBits(b)[1];
    assert DigitBits(a)[2] == DigitBits(b)[2] && DigitBits(a)[3] == DigitBits(b)[3];
    assert v == w;
  }

  lemma ValueOfBits(v: nat)
    requires v < 16
    ensures v == 8 * BitValue(v / 8 % 2 == 1) + 4 * BitValue(v / 4 % 2 == 1)
                 + 2 * BitValue(v / 2 % 2 == 1) + BitValue(v % 2 == 1)
  {
  }

  ghost predicate SameComparisons(a: seq<int>, b: seq<int>, width: nat, height: nat)
    requires width >= 1 && |a| >= width * height && |b| >= width * height
  {
    forall x, y :: 0 <= x < width - 1 && 0 <= y < height ==> SameAt(a, b, width, height, x, y)
  }

  predicate SameAt(a: seq<int>, b: seq<int>, width: nat, height: nat, x: nat, y: nat)
    requires x + 1 < width && y < height && |a| >= width * height && |b| >= width * height
  {
    InBuffer(width, height, x, y);
    Brighter(a, width, x, y) == Brighter(b, width, x, y)
  }

  lemma RowsEqualIff(a: seq<int>, b: seq<int>, width: nat, height: nat, y: nat)
    requires width >= 1 && y < height && |a| >= width * height && |b| >= width * height
    requires y * width + (width - 1) < width * height
    ensures RowBits(a, width, y, width - 1) == RowBits(b, width, y, width - 1) <==>
            forall x :: 0 <= x < width - 1 ==> SameAt(a, b, width, height, x, y)
  {
    var rowA, rowB := RowBits(a, width, y, width - 1), RowBits(b, width, y, width - 1);
    assert forall x :: 0 <= x < width - 1 ==> (rowA[x] == rowB[x] <==> SameAt(a, b, width, height, x, y));
  }

  /** The bits of two images are equal exactly when every left-right comparison agrees. */
  lemma {:induction false} ComparisonsEqualIff(a: seq<int>, b: seq<int>, width: nat, height: nat, n: nat)
    requires width >= 1 && n <= height && |a| >= width * height && |b| >= width * height
    ensures Comparisons(a, width, height, n) == Comparisons(b, width, height, n) <==>
            forall x, y :: 0 <= x < width - 1 && 0 <= y < n ==> SameAt(a, b, width, height, x, y)
  {
    if n > 0 {
      ComparisonsEqualIff(a, b, width, height, n - 1);
      LastInRow(width, height, n - 1);
      var beforeA, beforeB := Comparisons(a, width, height, n - 1), Comparisons(b, width, height, n - 1);
      var rowA, rowB := RowBits(a, width, n - 1, width - 1), RowBits(b, width, n - 1, width - 1);
      if beforeA + rowA == beforeB + rowB {
        PartsOfEqual(beforeA, rowA, beforeB, rowB);
      }
      RowsEqualIff(a, b, width, height, n - 1);
    }
  }

  /** Two hashes are equal exactly when all the comparisons agree. */
  lemma HashesEqualIff(a: seq<int>, b: seq<int>, hashA: string, hashB: string)
    requires |a| >= 72 && |b| >= 72
    requires |hashA| == 16 && IsHex(hashA) && Decode(hashA) == Comparisons(a, WIDTH, HEIGHT, HEIGHT)
    requires |hashB| == 16 && IsHex(hashB) && Decode(hashB) == Comparisons(b, WIDTH, HEIGHT, HEIGHT)
    ensures hashA == hashB <==> SameComparisons(a, b, WIDTH, HEIGHT)
  {
    DecodeIsInjective(hashA, hashB);
    ComparisonsEqualIff(a, b, WIDTH, HEIGHT, HEIGHT);
  }

  // ----- The bits on the pixels, the digits on the number -----

  /** The bit of row y and column x says whether its pixel is brighter than the next one in the row. */
  lemma {:induction false} BitIsComparison(raw: seq<int>, width: nat, height: nat, n: nat, x: nat, y: nat)
    requires x + 1 < width && y < n <= height && |raw| >= width * height
    ensures y * (width - 1) + x < |Comparisons(raw, width, height, n)| && y * width + x + 1 < |raw|
    ensures Comparisons(raw, width, height, n)[y * (width - 1) + x] <==> raw[y * width + x] > raw[y * width + x + 1]
  {
    InBuffer(width, height, x, y);
    LastInRow(width, height, n - 1);
    Commute(n - 1, width - 1);
    if y < n - 1 {
      BitIsComparison(raw, width, height, n - 1, x, y);
    }
  }

  /** A hexadecimal numeral, the most significant digit first. */
  function HexNumber(hex: string): nat {
    if hex == "" then 0 else 16 * HexNumber(hex[..|hex| - 1]) + DigitValue(hex[|hex| - 1])
  }

  /** The digits count 0 to 15 in their usual order. */
  lemma DigitsInOrder(v: nat)
    requires v < 16
    ensures HexDigit(v) == "0123456789abcdef"[v] && DigitValue("0123456789abcdef"[v]) == v
  {
  }

  lemma AddTwo(bits: seq<bool>, a: bool, b: bool)
    ensures Value(bits + [a, b]) == 4 * Value(bits) + 2 * BitValue(a) + BitValue(b)
  {
    AddBit(bits, a);
    AddBit(bits + [a], b);
    assert bits + [a, b] == bits + [a] + [b];
  }

  lemma AddFour(bits: seq<bool>, a: bool, b: bool, c: bool, d: bool)
    ensures Value(bits + [a, b, c, d])
            == 16 * Value(bits) + 8 * BitValue(a) + 4 * BitValue(b) + 2 * BitValue(c) + BitValue(d)
  {
    var half := bits + [a, b];
    AddTwo(bits, a, b);
    AddTwo(half, c, d);
    assert bits + [a, b, c, d] == half + [c, d];
  }

  lemma FourMoreBits(bits: seq<bool>, digit: char)
    requires DigitValue(digit) < 16
    ensures Value(bits + DigitBits(digit)) == 16 * Value(bits) + DigitValue(digit)
  {
    var four := DigitBits(digit);
    AddFour(bits, four[0], four[1], four[2], four[3]);
    ValueOfBits(DigitValue(digit));
    assert four == [four[0], four[1], four[2], four[3]];
  }

  lemma AddBit(bits: seq<bool>, bit: bool)
    ensures Value(bits + [bit]) == 2 * Value(bits) + BitValue(bit)
  {
    assert (bits + [bit])[..|bits|] == bits;
  }

  /** Read as numbers, the hash in base 16 is the bits in base 2. */
  lemma {:induction false} HashIsTheNumber(hex: string)
    requires IsHex(hex)
    ensures HexNumber(hex) == Value(Decode(hex))
  {
    if hex != "" {
      var n := |hex| - 1;
      HashIsTheNumber(hex[..n]);
      assert IsHexDigit(hex[n]);
      FourMoreBits(Decode(hex[..n]), hex[n]);
    }
  }

  // ----- Brightness -----

  /** Two pixel buffers that rank every two of their pixels alike. */
  ghost predicate SameOrder(a: seq<int>, b: seq<int>) {
    |a| == |b| && forall i, j :: 0 <= i < |a| && 0 <= j < |a| ==> (a[i] < a[j] <==> b[i] < b[j])
  }

  lemma SameOrderAt(a: seq<int>, b: seq<int>, width: nat, height: nat, x: nat, y: nat)
    requires SameOrder(a, b) && x + 1 < width && y < height && |a| >= width * height
    ensures SameAt(a, b, width, height, x, y)
  {
    InBuffer(width, height, x, y);
    var i := y * width + x;
    assert a[i + 1] < a[i] <==> b[i + 1] < b[i];
  }

  /** Any change of brightness or contrast that keeps the order of the pixels leaves the comparison bits as they are. */
  lemma BrightnessDoesNotMatter(a: seq<int>, b: seq<int>, width: nat, height: nat)
    requires SameOrder(a, b) && width >= 1 && |a| >= width * height
    ensures Comparisons(a, width, height, height) == Comparisons(b, width, height, height)
  {
    forall x, y | 0 <= x < width - 1 && 0 <= y < height
      ensures SameAt(a, b, width, height, x, y)
    {
      SameOrderAt(a, b, width, height, x, y);
    }
    ComparisonsEqualIff(a, b, width, height, height);
  }

  /** The hashes of the two images are then the same. */
  lemma BrightnessKeepsHash(a: seq<int>, b: seq<int>, hashA: string, hashB: string)
    requires SameOrder(a, b) && |a| >= 72
    requires |hashA| == 16 && IsHex(hashA) && Decode(hashA) == Comparisons(a, WIDTH, HEIGHT, HEIGHT)
    requires |hashB| == 16 && IsHex(hashB) && Decode(hashB) == Comparisons(b, WIDTH, HEIGHT, HEIGHT)
    ensures hashA == hashB
  {
    BrightnessDoesNotMatter(a, b, WIDTH, HEIGHT);
    DecodeIsInjective(hashA, hashB);
  }

  function Mapped(raw: seq<int>, f: int -> int): (mapped: seq<int>)
    ensures |mapped| == |raw|
  {
    seq(|raw|, k requires 0 <= k < |raw| => f(raw[k]))
  }

  /** A map of the brightness levels that never turns two of the image's levels around; it may merge them. */
  ghost predicate NonDecreasingOn(raw: seq<int>, f: int -> int) {
    forall u, v :: u in raw && v in raw && u <= v ==> f(u) <= f(v)
  }

  predicate Merges(raw: seq<int>, f: int -> int, width: nat, height: nat, x: nat, y: nat)
    requires x + 1 < width && y < height && |raw| >= width * height
  {
    InBuffer(width, height, x, y);
    raw[y * width + x] > raw[y * width + x + 1] && f(raw[y * width + x]) == f(raw[y * width + x + 1])
  }

  lemma MergesIff(raw: seq<int>, f: int -> int, width: nat, height: nat, x: nat, y: nat)
    requires NonDecreasingOn(raw, f) && x + 1 < width && y < height && |raw| >= width * height
    ensures SameAt(Mapped(raw, f), raw, width, height, x, y) <==> !Merges(raw, f, width, height, x, y)
  {
    InBuffer(width, height, x, y);
    var left, right := raw[y * width + x], raw[y * width + x + 1];
    assert left in raw && right in raw;
  }

  /**
   A dimming that rounds may merge levels. The bits stay the same exactly when it merges no left pixel with a darker
   right neighbour.
   */
  lemma DimmingKeepsBitsIff(raw: seq<int>, f: int -> int, width: nat, height: nat)
    requires NonDecreasingOn(raw, f) && width >= 1 && |raw| >= width * height
    ensures Comparisons(Mapped(raw, f), width, height, height) == Comparisons(raw, width, height, height) <==>
            forall x, y :: 0 <= x < width - 1 && 0 <= y < height ==> !Merges(raw, f, width, height, x, y)
  {
    ComparisonsEqualIff(Mapped(raw, f), raw, width, height, height);
    forall x, y | 0 <= x < width - 1 && 0 <= y < height
      ensures SameAt(Mapped(raw, f), raw, width, height, x, y) <==> !Merges(raw, f, width, height, x, y)
    {
      MergesIff(raw, f, width, height, x, y);
    }
  }
}
