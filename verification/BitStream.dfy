/** The bit reader of exercises/bitstream.cpp and its two field parsers: fixed width, and the
    Exp-Golomb codes of section 9.2 of ITU-T H.265. */
module BitStream {
  import opened Basics

  const U32_WRAP := 0x1_0000_0000

  type U8 = x: int | 0 <= x < 0x100
  type U16 = x: int | 0 <= x < 0x1_0000
  type U32 = x: int | 0 <= x < 0x1_0000_0000
  type U64 = x: int | 0 <= x < 0x1_0000_0000_0000_0000

  // ----- arithmetic

  lemma Pow2Eight()
    ensures Pow2(2) == 4 && Pow2(7) == 128 && Pow2(8) == 256
  {}

  lemma DivModUnique(x: int, q: int, r: int, d: int)
    requires d > 0 && 0 <= r < d && x == q * d + r
    ensures x / d == q && x % d == r
  {
    assert x == (x / d) * d + x % d;
    assert (x / d - q) * d == r - x % d;
    Multiples(x / d - q, d);
  }

  lemma Multiples(t: int, d: int)
    requires d > 0
    ensures (t >= 1 ==> t * d >= d) && (t <= -1 ==> t * d <= -d)
  {}

  /** (x p) mod (p q) = p (x mod q) */
  lemma ModScale(x: nat, p: nat, q: nat)
    requires p > 0 && q > 0
    ensures p * q > 0 && (x * p) % (p * q) == p * (x % q)
  {
    var k, r := x / q, x % q;
    assert x == k * q + r;
    assert x * p == k * (p * q) + p * r by { Rearrange(k, q, r, p); }
    assert p * q > 0 by { Positive(p, q); }
    assert 0 <= p * r < p * q by { Smaller(p, r, q); }
    DivModUnique(x * p, k, p * r, p * q);
  }

  lemma Rearrange(k: int, q: int, r: int, p: int)
    ensures (k * q + r) * p == k * (p * q) + p * r
  {}

  lemma Positive(p: nat, q: nat)
    requires p > 0 && q > 0
    ensures p * q > 0
  {}

  lemma Smaller(p: nat, r: nat, q: nat)
    requires p > 0 && r < q
    ensures 0 <= p * r < p * q
  {}

  /** (p x) / (p r) = x / r */
  lemma DivScale(x: nat, p: nat, r: nat)
    requires p > 0 && r > 0
    ensures p * r > 0 && (p * x) / (p * r) == x / r
  {
    var k, m := x / r, x % r;
    assert x == k * r + m;
    assert p * x == k * (p * r) + p * m by { Rearrange(k, r, m, p); assert (k * r + m) * p == p * x; }
    Positive(p, r);
    Smaller(p, m, r);
    DivModUnique(p * x, k, p * m, p * r);
  }

  lemma DivMod(x: nat, d: nat)
    requires d > 0
    ensures x == (x / d) * d + x % d && 0 <= x / d && 0 <= x % d < d
  {}

  /** (x mod (r c)) / r = (x / r) mod c */
  lemma DivOfMod(x: nat, r: nat, c: nat)
    requires r > 0 && c > 0
    ensures r * c > 0 && (x % (r * c)) / r == (x / r) % c
  {
    var y, m := x / r, x % r;
    var k, d := y / c, y % c;
    DivMod(x, r);
    DivMod(y, c);
    Nested(k, c, d, r, m);
    Positive(r, c);
    DivModUnique(x, k, d * r + m, r * c);
    DivModUnique(d * r + m, d, m, r);
  }

  lemma Nested(k: int, c: nat, d: nat, r: nat, m: nat)
    requires d < c && m < r
    ensures (k * c + d) * r + m == k * (r * c) + (d * r + m)
    ensures 0 <= d * r + m < r * c
  {
    Rearrange(k, c, d, r);
    assert r * c == c * r && r * d == d * r;
    assert (d + 1) * r == d * r + r;
    MulAtMost(d + 1, c, r);
  }

  // ----- bits

  /** Bit k of the buffer, most significant bit of each byte first. */
  function BitAt(base: seq<U8>, k: nat): (b: nat)
    requires k < 8 * |base|
    ensures b <= 1
  {
    (base[k / 8] / Pow2(7 - k % 8)) % 2
  }

  /** The number the n bits from position `from` on spell, most significant bit first. */
  function Value(base: seq<U8>, from: nat, n: nat): (v: nat)
    requires from + n <= 8 * |base|
    ensures v < Pow2(n)
  {
    if n == 0 then 0 else 2 * Value(base, from, n - 1) + BitAt(base, from + n - 1)
  }

  lemma ValueNext(base: seq<U8>, from: nat, n: nat)
    requires from + n <= 8 * |base| && n > 0
    ensures Value(base, from, n) == 2 * Value(base, from, n - 1) + BitAt(base, from + n - 1)
  {}

  lemma {:induction false} ValueConcat(base: seq<U8>, from: nat, m: nat, n: nat)
    requires from + m + n <= 8 * |base|
    ensures Value(base, from, m + n) == Value(base, from, m) * Pow2(n) + Value(base, from + m, n)
  {
    hide BitAt, Pow2, Value;
    if n == 0 {
      ValueConcatEmpty(base, from, m);
    } else {
      ValueConcat(base, from, m, n - 1);
      ValueConcatNext(base, from, m, n - 1);
    }
  }

  lemma ValueConcatNext(base: seq<U8>, from: nat, m: nat, n: nat)
    requires from + m + n + 1 <= 8 * |base|
    requires Value(base, from, m + n) == Value(base, from, m) * Pow2(n) + Value(base, from + m, n)
    ensures Value(base, from, m + (n + 1)) == Value(base, from, m) * Pow2(n + 1) + Value(base, from + m, n + 1)
  {
    hide BitAt, Pow2, Value;
    ValueNext(base, from, m + n + 1);
    ValueNext(base, from + m, n + 1);
    Pow2Next(n + 1);
    ConcatNext(Value(base, from, m), Pow2(n), Pow2(n + 1), Value(base, from + m, n), Value(base, from + m, n + 1),
               Value(base, from, m + n), Value(base, from, m + n + 1), BitAt(base, from + m + n));
  }

  lemma ValueConcatEmpty(base: seq<U8>, from: nat, m: nat)
    requires from + m <= 8 * |base|
    ensures Value(base, from, m + 0) == Value(base, from, m) * Pow2(0) + Value(base, from + m, 0)
  {
    hide BitAt;
    assert Pow2(0) == 1 && Value(base, from + m, 0) == 0;
  }

  lemma ConcatNext(x: nat, p: nat, p2: nat, v: nat, v2: nat, whole: nat, whole2: nat, b: nat)
    requires whole == x * p + v && p2 == 2 * p && v2 == 2 * v + b && whole2 == 2 * whole + b
    ensures whole2 == x * p2 + v2
  {
    assert x * p2 == 2 * (x * p);
  }

  /** Bits from inside one byte. */
  lemma {:induction false} ValueInByte(base: seq<U8>, i: nat, off: nat, n: nat)
    requires i < |base| && off + n <= 8
    ensures Value(base, 8 * i + off, n) == (base[i] / Pow2(8 - off - n)) % Pow2(n)
  {
    if n > 0 {
      var b, k := base[i], 8 - off - n;
      ValueInByte(base, i, off, n - 1);
      assert (8 * i + off + n - 1) / 8 == i && (8 * i + off + n - 1) % 8 == off + n - 1;
      TopBits(b, k, n);
    }
  }

  /** Eight bits from the start of a byte spell the byte. */
  lemma ByteValue(base: seq<U8>, i: nat)
    requires i < |base|
    ensures Value(base, 8 * i, 8) == base[i]
  {
    hide Value, BitAt;
    ValueInByte(base, i, 0, 8);
    Pow2Eight();
    assert Pow2(0) == 1;
  }

  lemma TopBits(b: nat, k: nat, n: nat)
    requires n > 0
    ensures (b / Pow2(k)) % Pow2(n) == 2 * ((b / Pow2(k + 1)) % Pow2(n - 1)) + (b / Pow2(k)) % 2
  {
    var y, c := b / Pow2(k), Pow2(n - 1);
    HalfOf(b, k);
    var z := y / 2;
    var q, d := z / c, z % c;
    assert y == 2 * z + y % 2 && z == q * c + d;
    assert y == q * (2 * c) + (2 * d + y % 2) by { assert 2 * (q * c) == q * (2 * c); }
    DivModUnique(y, q, 2 * d + y % 2, 2 * c);
  }

  lemma HalfOf(b: nat, k: nat)
    ensures b / Pow2(k + 1) == (b / Pow2(k)) / 2
  {
    var p := Pow2(k);
    var y, m := b / p, b % p;
    assert b == y * p + m;
    var z, d := y / 2, y % 2;
    assert y == 2 * z + d;
    assert b == z * (2 * p) + (d * p + m) by { assert (2 * z + d) * p == z * (2 * p) + d * p; }
    assert d * p + m < 2 * p;
    DivModUnique(b, z, d * p + m, 2 * p);
  }

  // ----- the shifts of read

  /** data <<= left; data >>= right; on an 8-bit unsigned. */
  function Shifted(data: U8, left: nat, right: nat): int { ((data * Pow2(left)) % 256) / Pow2(right) }

  lemma ShiftedIs(data: U8, off: nat, n: nat)
    requires off + n <= 8
    ensures Shifted(data, off, 8 - n) == (data / Pow2(8 - off - n)) % Pow2(n)
  {
    var p, q, r, c := Pow2(off), Pow2(8 - off), Pow2(8 - off - n), Pow2(n);
    Pow2Eight();
    Pow2Sum(off, 8 - off);
    Pow2Sum(8 - off - n, n);
    Pow2Sum(off, 8 - off - n);
    ModScale(data, p, q);
    DivScale(data % q, p, r);
    DivOfMod(data, r, c);
  }

  /** Bitwise or of naturals. */
  function Or(x: nat, y: nat): nat
    decreases x + y
  {
    if x == 0 then y
    else if y == 0 then x
    else 2 * Or(x / 2, y / 2) + if x % 2 == 1 || y % 2 == 1 then 1 else 0
  }

  /** Or adds when the low n bits of one operand are clear and the other has no more than n bits. */
  lemma {:induction false} OrAdds(x: nat, n: nat, d: nat)
    requires d < Pow2(n)
    ensures Or(x * Pow2(n), d) == x * Pow2(n) + d
  {
    if x > 0 && d > 0 {
      var p := Pow2(n - 1);
      assert x * Pow2(n) == 2 * (x * p);
      Positive(x, p);
      OrAdds(x, n - 1, d / 2);
    }
  }

  /** output <<= n; output |= data; on an unsigned of w bits. */
  function Append(output: nat, w: nat, n: nat, data: nat): nat { Or((output * Pow2(n)) % Pow2(w), data) }

  lemma AppendIs(x: nat, w: nat, n: nat, data: nat)
    requires n <= w && data < Pow2(n)
    ensures Append(x % Pow2(w), w, n, data) == (x * Pow2(n) + data) % Pow2(w)
  {
    hide Or, Pow2;
    var p, q, m := Pow2(n), Pow2(w - n), Pow2(w);
    Pow2Sum(n, w - n);
    var r := x % q;
    ModScale(x % m, p, q);
    ModOfMod(x, q, p);
    assert p * r == r * p;
    OrAdds(r, n, data);
    ModAdds(x, p, q, data);
  }

  lemma ModAdds(x: nat, p: nat, q: nat, data: nat)
    requires data < p && q > 0
    ensures p * q > 0 && (x * p + data) % (p * q) == p * (x % q) + data
  {
    var r := x % q;
    ModScale(x, p, q);
    assert p * r + data < p * q by { MulAtMost(r + 1, q, p); Distribute(p, r); }
    var k := (x * p) / (p * q);
    assert x * p == k * (p * q) + p * r;
    DivModUnique(x * p + data, k, p * r + data, p * q);
  }

  lemma Distribute(p: nat, r: nat)
    ensures (r + 1) * p == p * r + p
  {}

  lemma ModOfMod(x: nat, q: nat, p: nat)
    requires q > 0 && p > 0
    ensures p * q > 0 && (x % (p * q)) % q == x % q
  {
    Positive(p, q);
    var k, r := x / (p * q), x % (p * q);
    assert x == k * (p * q) + r && r == (r / q) * q + r % q;
    assert k * (p * q) == (k * p) * q;
    assert x == (k * p + r / q) * q + r % q by { assert (k * p + r / q) * q == (k * p) * q + (r / q) * q; }
    DivModUnique(x, k * p + r / q, r % q, q);
  }

  // ----- the reader

  class BitStream {
    const base: seq<U8>
    var pos: U32
    var end: U32

    /** The bits up to `end` lie in the buffer. */
    ghost predicate Valid()
      reads this
    {
      end <= 8 * |base|
    }

    constructor (base: seq<U8>, bits: U32)
      requires bits <= 8 * |base|
      ensures Valid() && this.base == base && pos == 0 && end == bits
    {
      this.base, pos, end := base, 0, bits;
    }

    /** Appends the next `bits` bits to an output of w bits, or, when there are not so many left, does
        nothing; returns how many it appended. */
    method Read(bits: U32, w: nat, output: nat) returns (total: U32, output': nat)
      requires Valid() && w >= 8 && output < Pow2(w)
      modifies this`pos
      ensures Valid()
      ensures total == if old(pos) + bits <= end then bits else 0
      ensures pos == old(pos) + total
      ensures output' == if total == 0 then output else Joined(base, old(pos), w, output, total)
    {
      hide Pow2, Value, Append, BitAt, Shifted, Joined;
      total := 0;
      output' := output;
      var currBit := pos;
      var termBit := (pos + bits) % U32_WRAP;
      WrapAround(pos, bits, end);
      AppendNothing(base, pos, w, output);
      while currBit < termBit && termBit <= end
        invariant 0 <= total <= bits && currBit == pos + total && pos == old(pos)
        invariant total > 0 ==> pos + bits <= end
        invariant total < bits && total > 0 ==> currBit < termBit
        invariant total == 0 ==> output' == output
        invariant pos + total <= 8 * |base| ==> output' == Joined(base, pos, w, output, total)
        decreases bits - total
      {
        var offsetByte, offsetBit := currBit / 8, currBit % 8;
        var count := if bits - total < 8 - offsetBit then bits - total else 8 - offsetBit;
        var data := Shifted(base[offsetByte], offsetBit, 8 - count);
        AppendBits(base, pos, w, output, total, count);
        output' := Append(output', w, count, data);
        currBit := currBit + count;
        total := total + count;
      }
      pos := pos + total;
    }

    /** The bit at the position, without a look at `end`. */
    method ReadBit() returns (bit: bool)
      requires Valid() && pos < 8 * |base|
      modifies this`pos
      ensures Valid() && bit == (BitAt(base, old(pos)) == 1) && pos == (old(pos) + 1) % U32_WRAP
    {
      var currBit := pos;
      pos := (pos + 1) % U32_WRAP;
      bit := (base[currBit / 8] * Pow2(currBit % 8)) / 128 % 2 != 0;  // & 0x80
      TopBit(base[currBit / 8], currBit % 8);
    }

    /** Advances by `bits`, or to the end when that is nearer. From a position past the end, which ReadBit
        can reach, the unsigned distance to the end wraps: the position moves on, and is within the end
        again only after going once around. */
    method Seek(bits: U32) returns (count: U32)
      requires Valid()
      modifies this`pos
      ensures Valid() && count <= bits && pos == (old(pos) + count) % U32_WRAP && (count == bits || pos == end)
      ensures old(pos) <= end ==> pos == old(pos) + count <= end
      ensures old(pos) > end && old(pos) + bits < U32_WRAP ==> count == bits && pos == old(pos) + bits > end
      ensures pos <= end <==> old(pos) <= end || old(pos) + bits >= U32_WRAP
    {
      var left := (end - pos) % U32_WRAP;
      count := if bits < left then bits else left;
      pos := (pos + count) % U32_WRAP;
    }
  }

  /** read_bit takes an empty reader past its end, and seek then moves on past the end. */
  method SeekRun() returns (count: U32, pos: U32, end: U32)
    ensures count == 3 && pos == 4 && end == 0
  {
    var stream := new BitStream([0], 0);
    var bit := stream.ReadBit();
    count := stream.Seek(3);
    pos, end := stream.pos, stream.end;
  }

  lemma TopBit(data: U8, off: nat)
    requires off < 8
    ensures (data * Pow2(off)) / 128 == data / Pow2(7 - off)
  {
    hide Pow2;
    Pow2Eight();
    Pow2Sum(off, 7 - off);
    DivScale(data, Pow2(off), Pow2(7 - off));
  }

  lemma WrapAround(pos: U32, bits: U32, end: U32)
    ensures pos < (pos + bits) % U32_WRAP <= end <==> bits > 0 && pos + bits <= end
    ensures pos + bits <= end ==> (pos + bits) % U32_WRAP == pos + bits
  {}

  /** The output after n bits have been appended. */
  function Joined(base: seq<U8>, pos: nat, w: nat, output: nat, n: nat): (r: nat)
    requires pos + n <= 8 * |base|
    ensures r < Pow2(w)
  {
    (output * Pow2(n) + Value(base, pos, n)) % Pow2(w)
  }

  lemma AppendNothing(base: seq<U8>, pos: nat, w: nat, output: nat)
    requires output < Pow2(w)
    ensures pos <= 8 * |base| ==> Joined(base, pos, w, output, 0) == output
  {
    assert Pow2(0) == 1;
    DivModUnique(output, 0, output, Pow2(w));
  }

  /** The bits of one byte that one turn of the loop appends. */
  lemma AppendBits(base: seq<U8>, pos: nat, w: nat, output: nat, total: nat, count: nat)
    requires w >= 8 && 0 < count <= 8 - (pos + total) % 8 && pos + total + count <= 8 * |base|
    ensures var data := Shifted(base[(pos + total) / 8], (pos + total) % 8, 8 - count);
            data >= 0 && Append(Joined(base, pos, w, output, total), w, count, data) ==
            Joined(base, pos, w, output, total + count)
  {
    hide Pow2, Value, Append, BitAt, Shifted;
    var i, off := (pos + total) / 8, (pos + total) % 8;
    ShiftedIs(base[i], off, count);
    ValueInByte(base, i, off, count);
    ValueConcat(base, pos, total, count);
    AppendJoined(output, total, count, w, Value(base, pos, total), Value(base, pos + total, count),
                 Value(base, pos, total + count));
  }

  lemma AppendJoined(output: nat, total: nat, count: nat, w: nat, v: nat, data: nat, next: nat)
    requires count <= w && data < Pow2(count) && next == v * Pow2(count) + data
    ensures Append((output * Pow2(total) + v) % Pow2(w), w, count, data) ==
            (output * Pow2(total + count) + next) % Pow2(w)
  {
    hide Pow2, Append;
    Pow2Sum(total, count);
    AppendIs(output * Pow2(total) + v, w, count, data);
    Regroup(output, Pow2(total), Pow2(count), v, data);
  }

  lemma Regroup(output: nat, p: nat, q: nat, v: nat, data: nat)
    ensures (output * p + v) * q + data == output * (p * q) + (v * q + data)
  {}

  /** Appending a bits and then b bits is appending a + b, whatever the width of the output. */
  lemma JoinedConcat(base: seq<U8>, pos: nat, w: nat, output: nat, a: nat, b: nat)
    requires pos + a + b <= 8 * |base|
    ensures Joined(base, pos + a, w, Joined(base, pos, w, output, a), b) == Joined(base, pos, w, output, a + b)
  {
    hide Pow2, Value;
    ValueConcat(base, pos, a, b);
    Pow2Sum(a, b);
    var v, u := Value(base, pos, a), Value(base, pos + a, b);
    Regroup(output, Pow2(a), Pow2(b), v, u);
    ModTimes(output * Pow2(a) + v, Pow2(b), u, Pow2(w));
  }

  lemma ModTimes(x: nat, p: nat, u: nat, m: nat)
    requires m > 0
    ensures ((x % m) * p + u) % m == (x * p + u) % m
  {
    var k, r := x / m, x % m;
    assert x == k * m + r;
    var y := r * p + u;
    var j, d := y / m, y % m;
    assert y == j * m + d;
    assert x * p + u == (k * p + j) * m + d by { Spread(k, m, r, p); assert (k * p + j) * m == k * p * m + j * m; }
    DivModUnique(x * p + u, k * p + j, d, m);
  }

  lemma Spread(k: int, m: int, r: int, p: int)
    ensures (k * m + r) * p == k * p * m + r * p
  {}

  /** Of two readers at the same place, one reads a bits and then b, the other a + b. With a + b bits left
      they end with the same output at the same place. With fewer left the second does nothing, and the
      first does the same unless one of its reads still fits. */
  method ReadsCompose(one: BitStream, two: BitStream, a: U32, b: U32, w: nat, output: nat)
    returns (parts: nat, whole: nat, total: nat)
    requires one != two && one.Valid() && two.Valid()
    requires one.base == two.base && one.pos == two.pos && one.end == two.end
    requires a + b < U32_WRAP && w >= 8 && output < Pow2(w)
    modifies one`pos, two`pos
    ensures total == one.pos - old(one.pos)
    ensures old(one.pos) + a + b <= one.end ==> parts == whole && one.pos == two.pos && total == a + b
    ensures old(one.pos) + a + b > one.end ==> whole == output && two.pos == old(two.pos)
    ensures one.pos == two.pos <==>
      old(one.pos) + a + b <= one.end ||
      ((a == 0 || old(one.pos) + a > one.end) && (b == 0 || old(one.pos) + b > one.end))
  {
    hide Joined, Pow2;
    ghost var pos := one.pos;
    var first, second, both;
    first, parts := one.Read(a, w, output);
    second, parts := one.Read(b, w, parts);
    both, whole := two.Read(a + b, w, output);
    total := first + second;
    if pos + a + b <= one.end {
      JoinedConcat(one.base, pos, w, output, a, b);
      AppendNothing(one.base, pos, w, output);
    }
  }

  /** With room in the output nothing is lost. */
  lemma ReadHasRoom(base: seq<U8>, pos: nat, w: nat, output: nat, n: nat)
    requires n <= w && output < Pow2(w - n) && pos + n <= 8 * |base|
    ensures Joined(base, pos, w, output, n) == output * Pow2(n) + Value(base, pos, n)
  {
    hide Pow2, Value;
    var p, v := Pow2(n), Value(base, pos, n);
    Pow2Sum(n, w - n);
    MulAtMost(output + 1, Pow2(w - n), p);
    Distribute(p, output);
    assert p * output == output * p && Pow2(w - n) * p == p * Pow2(w - n);
    DivModUnique(output * p + v, 0, output * p + v, Pow2(w));
  }

  // ----- Exp-Golomb codes

  function Log2(n: nat): (l: nat)
    requires n > 0
    ensures Pow2(l) <= n < Pow2(l + 1)
  {
    if n == 1 then 0 else 1 + Log2(n / 2)
  }

  /** n in binary with `len` digits, most significant first. */
  function Binary(n: nat, len: nat): (bits: seq<nat>)
    ensures |bits| == len
  {
    if len == 0 then [] else Binary(n / 2, len - 1) + [n % 2]
  }

  function ZeroBits(n: nat): (bits: seq<nat>)
    ensures |bits| == n && forall i :: 0 <= i < n ==> bits[i] == 0
  {
    if n == 0 then [] else ZeroBits(n - 1) + [0]
  }

  /** The code of v: v + 1 in binary, preceded by one zero less than it has digits. */
  function ExpGolomb(v: nat): (bits: seq<nat>)
    ensures |bits| == 2 * Log2(v + 1) + 1
  {
    ZeroBits(Log2(v + 1)) + Binary(v + 1, Log2(v + 1) + 1)
  }

  /** The first rows of the table of section 9.2. */
  lemma FirstCodes()
    ensures ExpGolomb(0) == [1] && ExpGolomb(1) == [0, 1, 0] && ExpGolomb(2) == [0, 1, 1]
    ensures ExpGolomb(3) == [0, 0, 1, 0, 0]
  {
    hide Log2, ZeroBits, Binary;
    SmallLogs();
    SmallBits();
  }

  lemma SmallLogs()
    ensures Log2(1) == 0 && Log2(2) == 1 && Log2(3) == 1 && Log2(4) == 2
  {
    hide Pow2;
  }

  lemma SmallBits()
    ensures ZeroBits(0) == [] && ZeroBits(1) == [0] && ZeroBits(2) == [0, 0]
    ensures Binary(1, 1) == [1] && Binary(2, 2) == [1, 0] && Binary(3, 2) == [1, 1] && Binary(4, 3) == [1, 0, 0]
  {
    assert ZeroBits(0) == [] && Binary(0, 0) == [];
    assert Binary(1, 0) == [];
    assert Binary(1, 1) == [1] && Binary(2, 2) == [1, 0];
  }

  /** The buffer has these bits from position `from` on. */
  ghost predicate Spells(base: seq<U8>, from: nat, bits: seq<nat>) {
    from + |bits| <= 8 * |base| && forall i :: 0 <= i < |bits| ==> BitAt(base, from + i) == bits[i]
  }

  lemma {:induction false} SpellsBinary(base: seq<U8>, from: nat, n: nat, len: nat)
    requires from + len <= 8 * |base| && n < Pow2(len)
    ensures Spells(base, from, Binary(n, len)) <==> Value(base, from, len) == n
  {
    hide BitAt;
    if len > 0 {
      var front := Binary(n / 2, len - 1);
      SpellsBinary(base, from, n / 2, len - 1);
      var bit := BitAt(base, from + len - 1);
      SpellsSnoc(base, from, front, n % 2);
      assert Value(base, from, len) == 2 * Value(base, from, len - 1) + bit;
    }
  }

  lemma SpellsSnoc(base: seq<U8>, from: nat, front: seq<nat>, bit: nat)
    requires from + |front| < 8 * |base|
    ensures Spells(base, from, front + [bit]) <==> Spells(base, from, front) && BitAt(base, from + |front|) == bit
  {
    hide BitAt;
    if Spells(base, from, front + [bit]) {
      assert forall i :: 0 <= i < |front| ==> (front + [bit])[i] == front[i];
      assert (front + [bit])[|front|] == bit;
    }
  }

  lemma SpellsConcat(base: seq<U8>, from: nat, s: seq<nat>, t: seq<nat>)
    ensures Spells(base, from, s + t) <==> Spells(base, from, s) && Spells(base, from + |s|, t)
  {
    hide BitAt;
    if Spells(base, from, s + t) {
      assert forall i :: 0 <= i < |s| ==> (s + t)[i] == s[i];
      forall i | 0 <= i < |t| ensures BitAt(base, from + |s| + i) == t[i] {
        assert (s + t)[|s| + i] == t[i];
        assert BitAt(base, from + (|s| + i)) == (s + t)[|s| + i];
      }
    }
  }

  /** How many zero bits precede the first one bit. */
  function Zeros(base: seq<U8>, from: nat): (z: nat)
    requires from <= 8 * |base|
    ensures from + z <= 8 * |base|
    ensures forall k :: from <= k < from + z ==> BitAt(base, k) == 0
    ensures from + z < 8 * |base| ==> BitAt(base, from + z) == 1
    decreases 8 * |base| - from
  {
    if from == 8 * |base| || BitAt(base, from) == 1 then 0 else 1 + Zeros(base, from + 1)
  }

  lemma ZerosIs(base: seq<U8>, from: nat, z: nat)
    requires from + z < 8 * |base| && BitAt(base, from + z) == 1
    requires forall k :: from <= k < from + z ==> BitAt(base, k) == 0
    ensures Zeros(base, from) == z
  {
    hide BitAt;
    var y := Zeros(base, from);
  }

  /** What the decoder computes from the bits at `from`. */
  function Decoded(base: seq<U8>, from: nat, z: nat): nat
    requires from + 2 * z + 1 <= 8 * |base|
  {
    Value(base, from + z + 1, z) + Pow2(z) - 1
  }

  lemma LeadingOne(base: seq<U8>, from: nat, z: nat)
    requires from + z + 1 <= 8 * |base|
    ensures Value(base, from, z + 1) == (if BitAt(base, from) == 1 then Pow2(z) else 0) + Value(base, from + 1, z)
  {
    hide BitAt, Pow2, Value;
    OneBit(base, from);
    ValueConcat(base, from, 1, z);
    Times(BitAt(base, from), Pow2(z));
  }

  lemma OneBit(base: seq<U8>, from: nat)
    requires from < 8 * |base|
    ensures Value(base, from, 1) == BitAt(base, from)
  {
    hide BitAt;
    assert Value(base, from, 0) == 0;
  }

  lemma Times(b: nat, p: nat)
    requires b <= 1
    ensures b * p == if b == 1 then p else 0
  {}

  /** Bits that spell the code of v decode to v, at any bit offset; and bits that decode to v, their
      leading zeros counted, spell its code. */
  lemma CodeRoundTrip(base: seq<U8>, from: nat, v: nat)
    requires from <= 8 * |base|
    ensures Spells(base, from, ExpGolomb(v)) <==>
            var z := Zeros(base, from);
            from + 2 * z + 1 <= 8 * |base| && Decoded(base, from, z) == v
    ensures Spells(base, from, ExpGolomb(v)) ==> |ExpGolomb(v)| == 2 * Zeros(base, from) + 1
  {
    var l := Log2(v + 1);
    SpellsConcat(base, from, ZeroBits(l), Binary(v + 1, l + 1));
    if Spells(base, from, ExpGolomb(v)) {
      CodeDecodes(base, from, v, l);
    }
    var z := Zeros(base, from);
    if from + 2 * z + 1 <= 8 * |base| && Decoded(base, from, z) == v {
      DecodedSpells(base, from, z, v);
    }
  }

  lemma SpellsFits(base: seq<U8>, from: nat, bits: seq<nat>)
    requires Spells(base, from, bits)
    ensures from + |bits| <= 8 * |base|
  {}

  lemma ZerosSpelled(base: seq<U8>, from: nat, l: nat)
    requires Spells(base, from, ZeroBits(l))
    ensures from + l <= 8 * |base| && forall k :: from <= k < from + l ==> BitAt(base, k) == 0
  {
    hide BitAt;
    forall k | from <= k < from + l ensures BitAt(base, k) == 0 { assert ZeroBits(l)[k - from] == 0; }
  }

  lemma CodeDecodes(base: seq<U8>, from: nat, v: nat, l: nat)
    requires l == Log2(v + 1) && Spells(base, from, ZeroBits(l)) && Spells(base, from + l, Binary(v + 1, l + 1))
    ensures Zeros(base, from) == l && from + 2 * l + 1 <= 8 * |base| && Decoded(base, from, l) == v
  {
    hide BitAt, Spells, Value, Pow2, Binary, Log2, Zeros;
    SpellsFits(base, from + l, Binary(v + 1, l + 1));
    SpellsBinary(base, from + l, v + 1, l + 1);
    LeadingOne(base, from + l, l);
    assert BitAt(base, from + l) == 1;
    ZerosSpelled(base, from, l);
    ZerosIs(base, from, l);
  }

  lemma DecodedSpells(base: seq<U8>, from: nat, z: nat, v: nat)
    requires from + 2 * z + 1 <= 8 * |base| && z == Zeros(base, from) && v == Decoded(base, from, z)
    ensures Spells(base, from, ExpGolomb(v))
  {
    hide BitAt, Spells, Value, Pow2, Binary, ZeroBits, Log2, Zeros;
    LeadingOne(base, from + z, z);
    Pow2Next(z + 1);
    Log2Is(v + 1, z);
    SpellsBinary(base, from + z, v + 1, z + 1);
    SpellsZeros(base, from, z);
    SpellsConcat(base, from, ZeroBits(z), Binary(v + 1, z + 1));
  }

  lemma SpellsZeros(base: seq<U8>, from: nat, z: nat)
    requires from + z <= 8 * |base| && z <= Zeros(base, from)
    ensures Spells(base, from, ZeroBits(z))
  {
    hide BitAt;
    forall i | 0 <= i < z ensures BitAt(base, from + i) == ZeroBits(z)[i] {}
  }

  lemma {:induction false} Log2Is(n: nat, l: nat)
    requires Pow2(l) <= n < Pow2(l + 1)
    ensures Log2(n) == l
  {
    if n > 1 { Log2Is(n / 2, l - 1); }
  }

  // ----- the field parsers

  class Field {
    var bitPattern: U64
    var bitPosition: U16
    var bitWidth: U8
    var valid: bool
  }

  const W := 64  // the width of bitPattern

  lemma PatternFits(base: seq<U8>, pos: nat, n: nat)
    requires pos + n <= 8 * |base| && n <= 30
    ensures Joined(base, pos, W, 0, n) == Value(base, pos, n) && Pow2(n) <= 0x4000_0000
  {
    hide Value;
    Pow2AtMost(n, 30);
    Pow2Thirty();
    Pow2Sum(n, W - n);
    ReadHasRoom(base, pos, W, 0, n);
  }

  lemma ValueEmpty(base: seq<U8>, pos: nat)
    ensures pos <= 8 * |base| ==> Value(base, pos, 0) == 0
  {}

  lemma {:induction false} Pow2AtMost(m: nat, n: nat)
    requires m <= n
    ensures Pow2(m) <= Pow2(n)
    decreases n - m
  {
    if m < n { Pow2AtMost(m, n - 1); }
  }

  lemma Pow2Thirty()
    ensures Pow2(30) == 0x4000_0000 && Pow2(64) == 0x1_0000_0000_0000_0000
  {
    hide Pow2;
    Pow2Eight();
    Pow2Sum(8, 8);
    Pow2Sum(16, 16);
    Pow2Sum(32, 32);
    Pow2Sum(30, 2);
  }

  method TryParseFixedWidth(stream: BitStream, field: Field) returns (valid: bool)
    requires stream.Valid()
    modifies stream`pos, field
    ensures stream.Valid() && field.bitPosition == old(stream.pos) % 0x1_0000 && valid == field.valid
    ensures valid <==> old(field.bitWidth) == 0 || old(stream.pos) + old(field.bitWidth) <= stream.end
    ensures valid ==>
      field.bitWidth == old(field.bitWidth) && stream.pos == old(stream.pos) + field.bitWidth &&
      (field.bitWidth > 0 ==> field.bitPattern == Value(stream.base, old(stream.pos), field.bitWidth) % Pow2(W)) &&
      (field.bitWidth == 0 ==> field.bitPattern == 0)
    ensures valid && 0 < field.bitWidth <= 64 ==>
      field.bitPattern == Value(stream.base, old(stream.pos), field.bitWidth)
    ensures !valid ==> field.bitWidth == 0 && field.bitPattern == 0 && stream.pos == old(stream.pos)
  {
    hide Value, Pow2;
    Pow2Thirty();
    var expectCount := field.bitWidth;
    field.bitPattern := 0;
    field.bitPosition := stream.pos % 0x1_0000;
    var total, pattern := stream.Read(field.bitWidth, W, field.bitPattern);
    field.bitWidth, field.bitPattern := total, pattern;
    field.valid := field.bitWidth == expectCount;
    valid := field.valid;
    if valid && 0 < field.bitWidth <= 64 { ValueFits(stream.base, old(stream.pos), field.bitWidth); }
  }

  /** 64 bits or less fit the pattern. */
  lemma ValueFits(base: seq<U8>, pos: nat, n: nat)
    requires pos + n <= 8 * |base| && n <= 64
    ensures Value(base, pos, n) % Pow2(W) == Value(base, pos, n)
  {
    hide Value, Pow2;
    Pow2AtMost(n, 64);
    DivModUnique(Value(base, pos, n), 0, Value(base, pos, n), Pow2(W));
  }

  /** The source reads bits until it finds a one, and shifts a 32-bit int by their number. */
  method TryParseVariableExpGolomb(stream: BitStream, field: Field) returns (valid: bool)
    requires stream.Valid() && stream.pos <= 8 * |stream.base|
    requires stream.pos + Zeros(stream.base, stream.pos) < 8 * |stream.base|
    requires Zeros(stream.base, stream.pos) <= 30
    requires stream.pos + Zeros(stream.base, stream.pos) + 1 < U32_WRAP
    modifies stream`pos, field
    ensures stream.Valid() && field.bitPosition == old(stream.pos) % 0x1_0000 && valid == field.valid
    ensures var z := Zeros(stream.base, old(stream.pos));
            var after := old(stream.pos) + z + 1;
            (valid <==> z == 0 || after + z <= stream.end) &&
            (valid ==>
               after + z <= 8 * |stream.base| && field.bitPattern == Decoded(stream.base, old(stream.pos), z) &&
               field.bitWidth == 2 * z + 1 && stream.pos == after + z) &&
            (!valid ==> field.bitPattern == Pow2(z) - 1 && field.bitWidth == z + 1 && stream.pos == after)
  {
    hide Value, Pow2, BitAt;
    ghost var from, z := stream.pos, Zeros(stream.base, stream.pos);
    var zeroCount: U32 := 0;
    field.bitPattern := 0;
    field.bitPosition := stream.pos % 0x1_0000;
    var bit := stream.ReadBit();
    while !bit
      invariant stream.Valid() && 0 <= zeroCount <= z && stream.pos == from + zeroCount + 1
      invariant field.bitPattern == 0 && field.bitPosition == from % 0x1_0000
      invariant bit <==> zeroCount == z
      decreases z - zeroCount
    {
      zeroCount := zeroCount + 1;
      bit := stream.ReadBit();
    }
    Pow2Thirty();
    ValueEmpty(stream.base, stream.pos);
    ghost var fits := stream.pos + z <= stream.end;
    var total, pattern := stream.Read(zeroCount, W, field.bitPattern);
    field.bitWidth := total + zeroCount + 1;
    if fits { PatternFits(stream.base, from + z + 1, z); }
    Pow2AtMost(z, 30);
    field.bitPattern := pattern + (Pow2(zeroCount) - 1);
    field.valid := field.bitWidth == 2 * zeroCount + 1;
    valid := field.valid;
  }

  /** Decoding the Exp-Golomb code of v, at any bit offset, returns v and advances by the code's length. */
  method DecodeCode(stream: BitStream, field: Field, v: nat) returns (valid: bool)
    requires stream.Valid() && Spells(stream.base, stream.pos, ExpGolomb(v)) && Log2(v + 1) <= 30
    requires stream.pos + |ExpGolomb(v)| <= stream.end
    modifies stream`pos, field
    ensures stream.Valid() && valid && field.valid
    ensures field.bitPattern == v && field.bitWidth == |ExpGolomb(v)|
    ensures stream.pos == old(stream.pos) + |ExpGolomb(v)|
  {
    CodeRoundTrip(stream.base, stream.pos, v);
    valid := TryParseVariableExpGolomb(stream, field);
  }
}
