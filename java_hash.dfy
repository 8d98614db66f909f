/** The `hashCode` functions the entities combine, written out with Java's
    32-bit `int` arithmetic: `String.hashCode`, the 31-fold of
    `Objects.hash` and `List.hashCode`, and the date and time hashes of
    `java.time` (as OpenJDK defines them). */
module JavaHash {
  import opened JavaText
  import opened JavaTime

  /** An `int` as its 32 bits. */
  function Bits(x: Int32): bv32 {
    (if x < 0 then x + TwoTo32 else x) as bv32
  }

  /** 32 bits read back as an `int`. */
  function FromBits(b: bv32): Int32 {
    var u := b as int;
    if u >= TwoTo31 then u - TwoTo32 else u
  }

  /** `s.hashCode()`: h = 31 * h + c over the characters, in `int`. */
  function StringHash(s: string): Int32
    decreases |s|
  {
    if s == [] then 0 else Wrap32(31 * StringHash(s[..|s| - 1]) + s[|s| - 1] as int)
  }

  /** `Objects.hash(v1, ..., vn)` and `List.hashCode()` over the element
      hashes `hs`: result = 31 * result + h, starting from 1. */
  function ElementsHash(hs: seq<Int32>): Int32
    decreases |hs|
  {
    if hs == [] then 1 else Wrap32(31 * ElementsHash(hs[..|hs| - 1]) + hs[|hs| - 1])
  }

  /** `LocalDate.hashCode()`: (year & 0xFFFFF800) ^ ((year << 11) + (month << 6) + day). */
  function LocalDateHash(d: LocalDate): Int32 {
    var y := d.year as Int32;
    FromBits((Bits(y) & 0xFFFF_F800) ^ Bits(Wrap32(y * 2048 + d.month * 64 + d.day)))
  }

  /** `LocalTime.hashCode()`: the nano of day folded to 32 bits,
      (int) (nod ^ (nod >>> 32)). */
  function LocalTimeHash(t: LocalDateTime): Int32 {
    var nod := t.hour * 3_600_000_000_000 + t.minute * 60_000_000_000 + t.second * 1_000_000_000 + t.nano;
    FromBits((nod % TwoTo32) as bv32 ^ (nod / TwoTo32) as bv32)
  }

  /** `LocalDateTime.hashCode()`: the date hash xor the time hash. */
  function LocalDateTimeHash(t: LocalDateTime): Int32 {
    FromBits(Bits(LocalDateHash(t.date)) ^ Bits(LocalTimeHash(t)))
  }

  // ---------------------------------------------------------------------
  // Facts about 32-bit arithmetic the hash lemmas need

  /** Two values wrap to the same `int` iff they agree modulo 2^32. */
  lemma Wrap32Equal(x: int, y: int)
    ensures Wrap32(x) == Wrap32(y) <==> (x - y) % TwoTo32 == 0
  {
    var a, b := Wrap32(x), Wrap32(y);
    assert (x - a) % TwoTo32 == 0 && (y - b) % TwoTo32 == 0;
    var k1 := (x - a) / TwoTo32;
    var k2 := (y - b) / TwoTo32;
    assert x - y == (a - b) + (k1 - k2) * TwoTo32;
    if a == b {
      assert (x - y) % TwoTo32 == 0;
    } else {
      assert -TwoTo32 < a - b < TwoTo32;
      ModOfShift(a - b, k1 - k2);
    }
  }

  lemma ModOfShift(r: int, k: int)
    requires -TwoTo32 < r < TwoTo32 && r != 0
    ensures (r + k * TwoTo32) % TwoTo32 != 0
  {
    var q := (r + k * TwoTo32) / TwoTo32;
    var m := (r + k * TwoTo32) % TwoTo32;
    assert r == (q - k) * TwoTo32 + m;
    MultipleBounds(q - k);
  }

  lemma MultipleBounds(z: int)
    ensures z >= 1 ==> z * TwoTo32 >= TwoTo32
    ensures z <= -1 ==> z * TwoTo32 <= -TwoTo32
  {
  }

  /** Wrapping an intermediate result does not change the final one. */
  lemma Wrap32Inner(a: int, x: int, b: int)
    ensures Wrap32(a * Wrap32(x) + b) == Wrap32(a * x + b)
  {
    var w := Wrap32(x);
    var k := (x - w) / TwoTo32;
    assert x == w + k * TwoTo32;
    Distribute(a, w, k);
    WrapShift(a * w + b, a * k);
  }

  lemma Distribute(a: int, w: int, k: int)
    ensures a * (w + k * TwoTo32) == a * w + (a * k) * TwoTo32
  {
  }

  /** Adding a multiple of 2^32 does not change the wrapped value. */
  lemma WrapShift(y: int, m: int)
    ensures Wrap32(y + m * TwoTo32) == Wrap32(y)
  {
    Wrap32Equal(y + m * TwoTo32, y);
    assert (y + m * TwoTo32) - y == m * TwoTo32;
  }

  /** Two `int`s added to the same value wrap apart. */
  lemma Wrap32AddInjective(c: int, x: Int32, y: Int32)
    ensures Wrap32(c + x) == Wrap32(c + y) <==> x == y
  {
    Wrap32Equal(c + x, c + y);
    if x != y {
      ModOfShift(x - y, 0);
    }
  }

  /** 961 = 31 * 31 is odd, so multiplying by it loses nothing modulo 2^32:
      3427929153 is its inverse (961 * 3427929153 = 1 + 767 * 2^32). */
  lemma TimesNineSixtyOne(d: int)
    requires (961 * d) % TwoTo32 == 0
    ensures d % TwoTo32 == 0
  {
    var q := (961 * d) / TwoTo32;
    assert 961 * d == q * TwoTo32;
    assert d == (q * 3427929153 - d * 767) * TwoTo32 by {
      assert d * (961 * 3427929153) == d * (1 + 767 * TwoTo32);
      assert (961 * d) * 3427929153 == (q * TwoTo32) * 3427929153;
    }
  }
}
