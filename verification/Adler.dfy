/** The deferred-modulo Adler-32 of the browser client against the per-byte definition of
    section 2.2 of RFC 1950 (assets/js/adler32.js). */
module Adler {

  const BASE := 65521
  const BLOCK := 3850
  const LIMIT := 0x8000_0000

  /** The two sums of the definition: every byte is added modulo 65521, and so is every partial sum. */
  datatype Sums = Sums(a: int, b: int)

  function Checksum(bytes: seq<int>, start: Sums): Sums {
    if bytes == [] then Sums(start.a % BASE, start.b % BASE)
    else
      var s := Checksum(bytes[..|bytes| - 1], start);
      var a := (s.a + bytes[|bytes| - 1]) % BASE;
      Sums(a, (s.b + a) % BASE)
  }

  function Reduced(a: int, b: int): Sums { Sums(a % BASE, b % BASE) }

  /** ((b % 65521) << 16) | (a % 65521), a signed 32-bit number. */
  function Packed(s: Sums): int {
    var v := (s.b % BASE) * 65536 + s.a % BASE;
    if v < LIMIT then v else v - 2 * LIMIT
  }

  /** An optional seed: its low and its high half, of the number taken modulo 2^32. */
  datatype Seed = NoSeed | Seed(value: int)

  function Start(seed: Seed): Sums {
    if seed.NoSeed? then Sums(1, 0) else Sums(seed.value % 65536, seed.value % 0x1_0000_0000 / 65536)
  }

  /** x >>> 16 and x & 65535 of a number below 2^31. */
  function Fold(x: nat): nat
    requires x < LIMIT
  {
    15 * (x / 65536) + x % 65536
  }

  lemma NoBytes(start: Sums)
    ensures Reduced(start.a, start.b) == Checksum([], start)
  {
  }

  lemma ModSub(x: int, q: int)
    ensures (x - BASE * q) % BASE == x % BASE
  {
    var d := x / BASE;
    assert x - BASE * q == BASE * (d - q) + x % BASE;
  }

  /** Folding keeps the remainder, because 65536 leaves 15. */
  lemma FoldKeeps(x: nat)
    requires x < LIMIT
    ensures Fold(x) % BASE == x % BASE
  {
    assert x == 65536 * (x / 65536) + x % 65536;
    assert Fold(x) == x - BASE * (x / 65536);
    ModSub(x, x / 65536);
  }

  lemma ModAdd(x: int, y: int)
    ensures (x % BASE + y) % BASE == (x + y) % BASE
  {
    ModSub(x + y, x / BASE);
    assert x % BASE + y == x + y - BASE * (x / BASE);
  }

  /** One more byte, with the sums not yet reduced. */
  lemma AddByte(done: seq<int>, start: Sums, a: int, b: int, x: int)
    requires Reduced(a, b) == Checksum(done, start)
    ensures Reduced(a + x, b + a + x) == Checksum(done + [x], start)
  {
    assert (done + [x])[..|done|] == done;
    ModAdd(a, x);
    ModAdd(b, (a + x) % BASE);
    ModAdd(a + x, b % BASE);
    ModAdd(b, a + x);
    ModAdd(a + x, b);
  }

  // ---- What a checksum is ----

  /** The checksum of x followed by y goes on from the sums of x. */
  lemma {:induction false} ChecksumConcat(x: seq<int>, y: seq<int>, start: Sums)
    ensures Checksum(x + y, start) == Checksum(y, Checksum(x, start))
  {
    if y == [] {
      assert x + y == x;
      SumsReduced(x, start);
    } else {
      assert (x + y)[..|x + y| - 1] == x + y[..|y| - 1];
      ChecksumConcat(x, y[..|y| - 1], start);
    }
  }

  lemma SumsReduced(x: seq<int>, start: Sums)
    ensures var s := Checksum(x, start); 0 <= s.a < 65521 && 0 <= s.b < 65521
  {
  }

  /** A packed checksum, given as a seed, stands for its two sums. */
  lemma PackedSeed(s: Sums)
    requires 0 <= s.a < 65521 && 0 <= s.b < 65521
    ensures Start(Seed(Packed(s))) == s
  {
    var v := s.b * 65536 + s.a;
    assert s.b % BASE == s.b && s.a % BASE == s.a;
    assert v % 65536 == s.a && v / 65536 == s.b;
    if v >= LIMIT {
      Wrapped(v);
    }
  }

  lemma Wrapped(v: int)
    requires 0x8000_0000 <= v < 0x1_0000_0000
    ensures (v - 0x1_0000_0000) % 65536 == v % 65536 && (v - 0x1_0000_0000) % 0x1_0000_0000 == v
  {
    assert v - 0x1_0000_0000 == 65536 * (v / 65536 - 65536) + v % 65536;
  }

  /** Chaining: the checksum of y, seeded with the checksum of x, is the checksum of x followed by y. */
  lemma Chained(x: seq<int>, y: seq<int>, seed: Seed)
    ensures Packed(Checksum(y, Start(Seed(Packed(Checksum(x, Start(seed))))))) == Packed(Checksum(x + y, Start(seed)))
  {
    SumsReduced(x, Start(seed));
    PackedSeed(Checksum(x, Start(seed)));
    ChecksumConcat(x, y, Start(seed));
  }

  /** One more than the sum of all bytes, and the sum of these sums over all beginnings. */
  function Total(bytes: seq<int>): int {
    if bytes == [] then 1 else Total(bytes[..|bytes| - 1]) + bytes[|bytes| - 1]
  }

  function TotalOfTotals(bytes: seq<int>): int {
    if bytes == [] then 0 else TotalOfTotals(bytes[..|bytes| - 1]) + Total(bytes)
  }

  /** Without a seed the low half of a checksum is the one total modulo 65521, and the high half the other. */
  lemma {:induction false} PlainChecksum(bytes: seq<int>)
    ensures Checksum(bytes, Start(NoSeed)) == Sums(Total(bytes) % 65521, TotalOfTotals(bytes) % 65521)
  {
    if bytes != [] {
      var n := |bytes| - 1;
      PlainChecksum(bytes[..n]);
      assert bytes == bytes[..n] + [bytes[n]];
      AddByte(bytes[..n], Start(NoSeed), Total(bytes[..n]), TotalOfTotals(bytes[..n]), bytes[n]);
    }
  }

  /** The checksum of the ASCII text "abc". */
  lemma ChecksumOfAbc()
    ensures Packed(Checksum([97, 98, 99], Start(NoSeed))) == 0x024d_0127
  {
    hide Total, TotalOfTotals, Checksum;
    PlainChecksum([97, 98, 99]);
    NoTotals();
    NextTotals([], 97);
    NextTotals([97], 98);
    NextTotals([97, 98], 99);
    assert [] + [97] == [97] && [97] + [98] == [97, 98] && [97, 98] + [99] == [97, 98, 99];
  }

  lemma NoTotals()
    ensures Total([]) == 1 && TotalOfTotals([]) == 0
  {
  }

  lemma NextTotals(done: seq<int>, x: int)
    ensures Total(done + [x]) == Total(done) + x && TotalOfTotals(done + [x]) == TotalOfTotals(done) + Total(done) + x
  {
    assert (done + [x])[..|done|] == done;
  }

  // ---- Bounds ----

  function Triangle(n: nat): nat { n * (n + 1) / 2 }

  lemma TriangleStep(n: nat)
    ensures Triangle(n + 1) == Triangle(n) + n + 1
  {
    assert (n + 1) * (n + 2) == n * (n + 1) + 2 * (n + 1);
  }

  lemma {:induction false} TriangleMono(m: nat, n: nat)
    requires m <= n
    ensures Triangle(m) <= Triangle(n)
    decreases n - m
  {
    if m < n {
      TriangleStep(m);
      TriangleMono(m + 1, n);
    }
  }

  /** The accumulators n bytes into a block. */
  predicate Within(a: nat, b: nat, n: nat) {
    a <= 65760 + 255 * n && b <= 600000 + 65760 * n + 255 * Triangle(n)
  }

  lemma WithinStart(a: nat, b: nat)
    requires a <= 65760 && b <= 600000
    ensures Within(a, b, 0)
  {
  }

  lemma WithinStep(a: nat, b: nat, n: nat, x: nat)
    requires Within(a, b, n) && x <= 255
    ensures Within(a + x, b + a + x, n + 1)
  {
    TriangleStep(n);
  }

  /** Up to three bytes more than a block still fit below 2^31, and folding restores the bounds. */
  lemma BlockFits(a: nat, b: nat, n: nat)
    requires Within(a, b, n) && n <= BLOCK + 3
    ensures a < LIMIT && b < LIMIT && Fold(a) <= 65760 && Fold(b) <= 600000
  {
    TriangleMono(n, BLOCK + 3);
    assert Triangle(BLOCK + 3) == 7424731;
  }

  lemma Masked(x: int)
    ensures 0 <= x % 256 <= 255
  {
  }

  /** Numbers masked to bytes. */
  function Bytes(units: seq<int>): seq<int> {
    seq(|units|, i requires 0 <= i < |units| => units[i] % 256)
  }

  /** The nested loops over elements that are masked to one byte each. */
  method Blocks(units: seq<int>, start: Sums) returns (a: nat, b: nat)
    requires 0 <= start.a <= 65535 && 0 <= start.b <= 65535
    ensures Reduced(a, b) == Checksum(Bytes(units), start) && a <= 65760 && b <= 600000
  {
    hide Checksum, Within, Fold;
    a, b := start.a, start.b;
    ghost var bytes := Bytes(units);
    NoBytes(start);
    var i := 0;
    while i < |units|
      invariant 0 <= i <= |units| && a <= 65760 && b <= 600000
      invariant Reduced(a, b) == Checksum(bytes[..i], start)
    {
      var m := (if |units| - i < BLOCK then |units| - i else BLOCK) + i;
      ghost var from := i;
      WithinStart(a, b);
      while i < m
        invariant from <= i <= m <= |units| && Within(a, b, i - from)
        invariant Reduced(a, b) == Checksum(bytes[..i], start)
      {
        var x := units[i] % 256;
        Masked(units[i]);
        WithinStep(a, b, i - from, x);
        AddByte(bytes[..i], start, a, b, x);
        assert bytes[..i + 1] == bytes[..i] + [x];
        a := a + x;
        b := b + a;
        i := i + 1;
      }
      BlockFits(a, b, i - from);
      FoldKeeps(a);
      FoldKeeps(b);
      a, b := Fold(a), Fold(b);
    }
    assert bytes[..|units|] == bytes;
  }

  lemma PackedReduced(a: nat, b: nat)
    ensures Packed(Sums(a, b)) == Packed(Reduced(a, b))
  {
  }

  /** adler32_buf, for every array and seed. */
  method AdlerBuf(buf: array<int>, seed: Seed) returns (r: int)
    ensures r == Packed(Checksum(Bytes(buf[..]), Start(seed)))
  {
    var s := Start(seed);
    var a, b := Blocks(buf[..], s);
    PackedReduced(a, b);
    r := Packed(Sums(a, b));
  }

  /** adler32_bstr, for every string of 16-bit units and seed: one byte of each unit counts. */
  method AdlerBstr(bstr: seq<int>, seed: Seed) returns (r: int)
    ensures r == Packed(Checksum(Bytes(bstr), Start(seed)))
  {
    var s := Start(seed);
    var a, b := Blocks(bstr, s);
    PackedReduced(a, b);
    r := Packed(Sums(a, b));
  }

  // ---- Strings, read as UTF-8 on the fly ----

  /** A Unicode scalar value. */
  predicate Scalar(c: int) { 0 <= c < 0xD800 || 0xE000 <= c < 0x11_0000 }

  /** Its UTF-16 code units (section 2.1 of RFC 2781). */
  function Units(c: int): (u: seq<int>)
    ensures u != []
  {
    if c < 0x1_0000 then [c] else [0xD800 + (c - 0x1_0000) / 1024, 0xDC00 + (c - 0x1_0000) % 1024]
  }

  /** Its UTF-8 bytes (section 3 of RFC 3629). */
  function Octets(c: int): seq<int> {
    if c < 0x80 then [c]
    else if c < 0x800 then [192 + c / 64, 128 + c % 64]
    else if c < 0x1_0000 then [224 + c / 4096, 128 + c / 64 % 64, 128 + c % 64]
    else [240 + c / 0x4_0000, 128 + c / 4096 % 64, 128 + c / 64 % 64, 128 + c % 64]
  }

  function Utf16(cs: seq<int>): seq<int> {
    if cs == [] then [] else Utf16(cs[..|cs| - 1]) + Units(cs[|cs| - 1])
  }

  function Utf8(cs: seq<int>): seq<int> {
    if cs == [] then [] else Utf8(cs[..|cs| - 1]) + Octets(cs[|cs| - 1])
  }

  lemma {:induction false} UnitsAt(cs: seq<int>, j: nat)
    requires j < |cs|
    ensures Utf16(cs[..j]) + Units(cs[j]) <= Utf16(cs)
    decreases |cs| - j
  {
    if j == |cs| - 1 {
      assert cs[..|cs|] == cs;
    } else {
      UnitsAt(cs[..|cs| - 1], j);
      assert cs[..|cs| - 1][..j] == cs[..j];
    }
  }

  /** The next character of the string, found where the units of the characters before it end. */
  lemma NextChar(cs: seq<int>, j: nat)
    requires j <= |cs| && |Utf16(cs[..j])| < |Utf16(cs)|
    ensures j < |cs|
    ensures var i := |Utf16(cs[..j])|;
            && i + |Units(cs[j])| <= |Utf16(cs)| && Utf16(cs)[i] == Units(cs[j])[0]
            && (cs[j] >= 0x1_0000 ==> Utf16(cs)[i + 1] == Units(cs[j])[1])
            && |Utf16(cs[..j + 1])| == i + |Units(cs[j])|
    ensures Utf8(cs[..j + 1]) == Utf8(cs[..j]) + Octets(cs[j])
  {
    assert cs[..|cs|] == cs;
    UnitsAt(cs, j);
    assert cs[..j + 1][..j] == cs[..j];
    var i := |Utf16(cs[..j])|;
    assert (Utf16(cs[..j]) + Units(cs[j]))[i] == Units(cs[j])[0];
    if cs[j] >= 0x1_0000 {
      assert (Utf16(cs[..j]) + Units(cs[j]))[i + 1] == Units(cs[j])[1];
    }
  }

  /** a += x; b += a. */
  method Put(a: nat, b: nat, x: nat, ghost done: seq<int>, ghost start: Sums, ghost n: nat)
    returns (a': nat, b': nat, ghost more: seq<int>)
    requires Reduced(a, b) == Checksum(done, start) && Within(a, b, n) && x <= 255
    ensures more == done + [x] && Reduced(a', b') == Checksum(more, start) && Within(a', b', n + 1)
  {
    hide Checksum, Within;
    AddByte(done, start, a, b, x);
    WithinStep(a, b, n, x);
    a' := a + x;
    b' := b + a';
    more := done + [x];
  }

  /** The bytes of one code unit outside the surrogates; the or of disjoint bits is written as a sum. */
  method PutUnit(a: nat, b: nat, c: int, ghost done: seq<int>, ghost start: Sums, ghost n: nat)
    returns (a': nat, b': nat, used: nat)
    requires Reduced(a, b) == Checksum(done, start) && Within(a, b, n) && Scalar(c) && c < 0x1_0000
    ensures Reduced(a', b') == Checksum(done + Octets(c), start) && Within(a', b', n + used) && used == |Octets(c)|
  {
    hide Checksum, Within;
    a', b', used := a, b, 0;
    ghost var more := done;
    if c < 0x80 {
      a', b', more := Put(a', b', c, more, start, n);
      used := 1;
    } else if c < 0x800 {
      a', b', more := Put(a', b', 192 + c / 64 % 32, more, start, n);
      a', b', more := Put(a', b', 128 + c % 64, more, start, n + 1);
      used := 2;
    } else {
      a', b', more := Put(a', b', 224 + c / 4096 % 16, more, start, n);
      a', b', more := Put(a', b', 128 + c / 64 % 64, more, start, n + 1);
      a', b', more := Put(a', b', 128 + c % 64, more, start, n + 2);
      used := 3;
    }
    assert more == done + Octets(c);
  }

  /** The bytes of a surrogate pair. */
  method PutPair(a: nat, b: nat, hi: int, lo: int, ghost c: int, ghost done: seq<int>, ghost start: Sums, ghost n: nat)
    returns (a': nat, b': nat)
    requires Reduced(a, b) == Checksum(done, start) && Within(a, b, n)
    requires Scalar(c) && c >= 0x1_0000 && Units(c) == [hi, lo]
    ensures Reduced(a', b') == Checksum(done + Octets(c), start) && Within(a', b', n + 4)
  {
    hide Checksum, Within;
    a', b' := a, b;
    ghost var more := done;
    var high, low := hi % 1024 + 64, lo % 1024;
    PairOctets(c);
    a', b', more := Put(a', b', 240 + high / 256 % 8, more, start, n);
    a', b', more := Put(a', b', 128 + high / 4 % 64, more, start, n + 1);
    a', b', more := Put(a', b', 128 + low / 64 % 16 + high % 4 * 16, more, start, n + 2);
    a', b', more := Put(a', b', 128 + low % 64, more, start, n + 3);
    assert more == done + Octets(c);
  }

  lemma PairOctets(c: int)
    requires Scalar(c) && c >= 0x1_0000
    ensures var high, low := Units(c)[0] % 1024 + 64, Units(c)[1] % 1024;
            Octets(c) == [240 + high / 256 % 8, 128 + high / 4 % 64, 128 + low / 64 % 16 + high % 4 * 16,
              128 + low % 64]
  {
    var h, l := (c - 0x1_0000) / 1024, (c - 0x1_0000) % 1024;
    LowBits(54, h);
    LowBits(55, l);
    assert c == 1024 * (h + 64) + l;
    PairDigits(c, h + 64, l);
  }

  lemma LowBits(q: int, r: int)
    requires 0 <= r < 1024
    ensures (1024 * q + r) % 1024 == r
  {
  }

  /** The digits of 1024 * y + l in base 64. */
  lemma PairDigits(c: int, y: int, l: int)
    requires 0 <= l < 1024 && 64 <= y < 1088 && c == 1024 * y + l
    ensures c / 0x4_0000 == y / 256 % 8
    ensures c / 4096 % 64 == y / 4 % 64
    ensures c / 64 % 64 == l / 64 % 16 + y % 4 * 16
    ensures c % 64 == l % 64
  {
    Quotient(c, 0x4_0000, y / 256, 1024 * (y % 256) + l);
    Quotient(c, 4096, y / 4, 1024 * (y % 4) + l);
    Quotient(c, 64, 16 * y + l / 64, l % 64);
    Quotient(16 * y + l / 64, 64, y / 4, 16 * (y % 4) + l / 64);
    assert y / 256 < 8 && l / 64 < 16;
  }

  lemma Quotient(n: int, m: int, q: int, r: int)
    requires m > 0 && n == m * q + r && 0 <= r < m
    ensures n / m == q && n % m == r
  {
    if n / m < q {
      TimesMono(m, n / m + 1, q);
    } else if n / m > q {
      TimesMono(m, q + 1, n / m);
    }
  }

  lemma TimesMono(m: int, a: int, b: int)
    requires m > 0 && a <= b
    ensures m * a <= m * b
  {
  }

  /** adler32_str of a well-formed string is the checksum of its UTF-8 bytes, for every seed. The
      budget of a block counts bytes, and the last character may overrun it by up to three. */
  method AdlerStr(str: seq<int>, seed: Seed, ghost cs: seq<int>) returns (r: int)
    requires str == Utf16(cs) && forall c :: c in cs ==> Scalar(c)
    ensures r == Packed(Checksum(Utf8(cs), Start(seed)))
  {
    hide Checksum, Within, Fold, Utf16, Utf8, Units, Octets, Scalar;
    ghost var start := Start(seed);
    var s := Start(seed);
    var a: nat, b: nat := s.a, s.b;
    NoBytes(start);
    NoChars();
    var i := 0;
    ghost var j := 0;
    assert cs[..0] == [];
    while i < |str|
      invariant 0 <= j <= |cs| && i == |Utf16(cs[..j])| <= |str| && a <= 65760 && b <= 600000
      invariant Reduced(a, b) == Checksum(Utf8(cs[..j]), start)
    {
      WithinStart(a, b);
      var m: int := if |str| - i < BLOCK then |str| - i else BLOCK;
      a, b, i, j := StrBlock(str, i, m, a, b, start, cs, j);
      FoldKeeps(a);
      FoldKeeps(b);
      a, b := Fold(a), Fold(b);
    }
    AllChars(cs, j);
    PackedReduced(a, b);
    r := Packed(Sums(a, b));
  }

  lemma NoChars()
    ensures Utf16([]) == [] && Utf8([]) == []
  {
  }

  /** Once all units are read, all characters are. */
  lemma AllChars(cs: seq<int>, j: nat)
    requires j <= |cs| && |Utf16(cs[..j])| >= |Utf16(cs)|
    ensures cs[..j] == cs
  {
    assert cs[..|cs|] == cs;
    if j < |cs| {
      UnitsAt(cs, j);
    }
  }

  /** The inner loop of adler32_str. */
  method StrBlock(str: seq<int>, from: nat, budget: int, a0: nat, b0: nat, ghost start: Sums, ghost cs: seq<int>,
      ghost j0: nat)
    returns (a: nat, b: nat, i: nat, ghost j: nat)
    requires str == Utf16(cs) && forall c :: c in cs ==> Scalar(c)
    requires j0 <= |cs| && from == |Utf16(cs[..j0])| && 0 < budget <= BLOCK && from + budget <= |str|
    requires Reduced(a0, b0) == Checksum(Utf8(cs[..j0]), start) && Within(a0, b0, 0)
    ensures from < i <= |str| && j0 <= j <= |cs| && i == |Utf16(cs[..j])|
    ensures Reduced(a, b) == Checksum(Utf8(cs[..j]), start)
    ensures a < LIMIT && b < LIMIT && Fold(a) <= 65760 && Fold(b) <= 600000
  {
    hide Checksum, Within, Fold, Utf16, Utf8, Octets;
    a, b, i, j := a0, b0, from, j0;
    var m := budget;
    ghost var n: nat := 0;
    while m > 0
      invariant j0 <= j <= |cs| && i == |Utf16(cs[..j])| && from <= i <= |str| && i + m <= |str|
      invariant n == budget - m && -3 <= m <= budget && (m < budget ==> from < i)
      invariant Reduced(a, b) == Checksum(Utf8(cs[..j]), start) && Within(a, b, n)
      decreases m
    {
      NextChar(cs, j);
      OctetsCover(cs[j]);
      var c := str[i];
      i := i + 1;
      if 0xD800 <= c < 0xE000 {
        var d := str[i];
        i := i + 1;
        a, b := PutPair(a, b, c, d, cs[j], Utf8(cs[..j]), start, n);
        m, n := m - 4, n + 4;
      } else {
        var used;
        a, b, used := PutUnit(a, b, c, Utf8(cs[..j]), start, n);
        m, n := m - used, n + used;
      }
      j := j + 1;
    }
    BlockFits(a, b, n);
  }

  /** No character has fewer bytes than units, and none has more than four. */
  lemma OctetsCover(c: int)
    requires Scalar(c)
    ensures 1 <= |Units(c)| <= |Octets(c)| <= 4
    ensures c >= 0x1_0000 ==> |Units(c)| == 2 && |Octets(c)| == 4 && 0xD800 <= Units(c)[0] < 0xE000
    ensures c < 0x1_0000 ==> Units(c) == [c] && !(0xD800 <= c < 0xE000)
  {
  }
}
