/** The base64 coder of the websocket handshake (websocket/base64.h) against section 4 of RFC 4648:
    the definition works on 24-bit groups, the code on bytes and masks. */
module Base64 {

  predicate Bytes(x: seq<int>) { forall i :: 0 <= i < |x| ==> 0 <= x[i] < 256 }

  /** The alphabet. */
  function Letter(v: int): char
    requires 0 <= v < 64
  {
    if v < 26 then 'A' + v as char
    else if v < 52 then 'a' + (v - 26) as char
    else if v < 62 then '0' + (v - 52) as char
    else if v == 62 then '+' else '/'
  }

  const UPPER := "ABCDEFGHIJKLMNOPQRSTUVWXYZ"
  const LOWER := "abcdefghijklmnopqrstuvwxyz"
  const ALPHABET := UPPER + LOWER + "0123456789+/"

  /** Table 1 of RFC 4648. */
  lemma LetterIs(v: int)
    requires 0 <= v < 64
    ensures |ALPHABET| == 64 && Letter(v) == ALPHABET[v]
  {
    if v < 26 {
      UpperIs(v);
    } else if v < 52 {
      LowerIs(v - 26);
    }
  }

  lemma UpperIs(v: int)
    requires 0 <= v < 26
    ensures UPPER[v] == 'A' + v as char
  {
  }

  lemma LowerIs(v: int)
    requires 0 <= v < 26
    ensures LOWER[v] == 'a' + v as char
  {
  }

  /** is_base64. */
  predicate IsBase64(c: char) {
    c == '+' || '/' <= c <= '9' || 'A' <= c <= 'Z' || 'a' <= c <= 'z'
  }

  /** The place of a letter in the alphabet, cut down to a byte: 255 for a character that is not there. */
  function Find(c: char): (v: int)
    ensures IsBase64(c) ==> 0 <= v < 64 && Letter(v) == c
    ensures 0 <= v < 256
  {
    if 'A' <= c <= 'Z' then (c - 'A') as int
    else if 'a' <= c <= 'z' then (c - 'a') as int + 26
    else if '0' <= c <= '9' then (c - '0') as int + 52
    else if c == '+' then 62 else if c == '/' then 63 else 255
  }

  lemma FindLetter(v: int)
    requires 0 <= v < 64
    ensures IsBase64(Letter(v)) && Find(Letter(v)) == v && Letter(v) != '='
  {
  }

  // ---- The definition ----

  predicate IsDigits(v: seq<int>) { forall i :: 0 <= i < |v| ==> 0 <= v[i] < 64 }

  function Letters(v: seq<int>): string
    requires IsDigits(v)
  {
    seq(|v|, i requires 0 <= i < |v| => Letter(v[i]))
  }

  /** The four base-64 digits of a 24-bit group. */
  function Split(n: int): (v: seq<int>)
    requires 0 <= n < 0x100_0000
    ensures |v| == 4 && IsDigits(v)
  {
    [n / 0x4_0000, n / 4096 % 64, n / 64 % 64, n % 64]
  }

  function Group(a: int, b: int, c: int): int { 65536 * a + 256 * b + c }

  function Encode(x: seq<int>): string
    requires Bytes(x)
  {
    if |x| >= 3 then Letters(Split(Group(x[0], x[1], x[2]))) + Encode(x[3..])
    else if |x| == 2 then Letters(Split(Group(x[0], x[1], 0))[..3]) + "="
    else if |x| == 1 then Letters(Split(Group(x[0], 0, 0))[..2]) + "=="
    else ""
  }

  /** The digits of the longest prefix of letters. */
  function Digits(s: string): (v: seq<int>)
    ensures forall i :: 0 <= i < |v| ==> 0 <= v[i] < 64
  {
    if s != "" && s[0] != '=' && IsBase64(s[0]) then [Find(s[0])] + Digits(s[1..]) else []
  }

  function Bits(a: int, b: int, c: int, d: int): int { 0x4_0000 * a + 4096 * b + 64 * c + d }

  function Triple(n: int): seq<int> { [n / 65536, n / 256 % 256, n % 256] }

  /** Groups of four digits become three bytes; the bits that fill the last group are dropped. */
  function Undigit(v: seq<int>): seq<int> {
    if |v| >= 4 then Triple(Bits(v[0], v[1], v[2], v[3])) + Undigit(v[4..])
    else if |v| == 3 then Triple(Bits(v[0], v[1], v[2], 0))[..2]
    else if |v| == 2 then Triple(Bits(v[0], v[1], 0, 0))[..1]
    else []
  }

  function Decode(s: string): seq<int> { Undigit(Digits(s)) }

  /** Examples of section 10 of RFC 4648: the text foobar, and both lengths of padding. */
  lemma Examples()
    ensures Encode([]) == "" && Encode([102]) == "Zg==" && Encode([102, 111]) == "Zm8="
    ensures Encode([102, 111, 111, 98, 97, 114]) == "Zm9vYmFy"
  {
    hide Letter, Split, Letters;
    FooBar();
    var foo, bar := [102, 111, 111], [98, 97, 114];
    assert foo + bar == [102, 111, 111, 98, 97, 114];
    EncodeWhole(foo, bar);
    EncodeWhole(bar, []);
    assert bar + [] == bar;
  }

  lemma FooBar()
    ensures Letters(Split(Group(102, 111, 111))) == "Zm9v" && Letters(Split(Group(98, 97, 114))) == "YmFy"
    ensures Letters(Split(Group(102, 111, 0))[..3]) == "Zm8" && Letters(Split(Group(102, 0, 0))[..2]) == "Zg"
  {
    hide Letter, Letters, Split;
    FooBarDigits();
    SomeLetters();
    LettersAre([25, 38, 61, 47]);
    LettersAre([24, 38, 5, 50]);
    LettersAre([25, 38, 60, 0][..3]);
    LettersAre([25, 32, 0, 0][..2]);
  }

  lemma FooBarDigits()
    ensures Split(Group(102, 111, 111)) == [25, 38, 61, 47] && Split(Group(98, 97, 114)) == [24, 38, 5, 50]
    ensures Split(Group(102, 111, 0)) == [25, 38, 60, 0] && Split(Group(102, 0, 0)) == [25, 32, 0, 0]
  {
  }

  lemma LettersAre(v: seq<int>)
    requires IsDigits(v) && 2 <= |v| <= 4
    ensures Letters(v) == [Letter(v[0]), Letter(v[1])] + (if |v| > 2 then [Letter(v[2])] else [])
                          + if |v| > 3 then [Letter(v[3])] else []
  {
    hide Letter;
  }

  lemma SomeLetters()
    ensures Letter(25) == 'Z' && Letter(38) == 'm' && Letter(61) == '9' && Letter(47) == 'v' && Letter(24) == 'Y'
    ensures Letter(5) == 'F' && Letter(50) == 'y' && Letter(60) == '8' && Letter(32) == 'g'
  {
  }

  // ---- Round trip ----

  lemma {:induction false} LettersDigits(v: seq<int>, s: string)
    requires IsDigits(v)
    ensures Digits(Letters(v) + s) == v + Digits(s)
  {
    hide Letter, Find, Digits;
    if v == [] {
      assert Letters(v) + s == s;
    } else {
      LettersDigits(v[1..], s);
      assert Letters(v) + s == [Letter(v[0])] + (Letters(v[1..]) + s);
      DigitFirst(v[0], Letters(v[1..]) + s);
      assert v == [v[0]] + v[1..];
    }
  }

  lemma DigitFirst(v: int, s: string)
    requires 0 <= v < 64
    ensures Digits([Letter(v)] + s) == [v] + Digits(s)
  {
    hide Letter, Find, IsBase64;
    FindLetter(v);
    assert ([Letter(v)] + s)[1..] == s;
  }

  /** Four digits of a group put back together. */
  lemma Regroup(n: int)
    requires 0 <= n < 0x100_0000
    ensures Bits(n / 0x4_0000, n / 4096 % 64, n / 64 % 64, n % 64) == n
  {
    Quotients(n, 64, 64);
    Quotients(n, 4096, 64);
  }

  lemma Quotients(n: int, p: int, q: int)
    requires 0 <= n && (p == 64 || p == 4096) && q == 64
    ensures n / (p * q) == n / p / q
  {
  }

  lemma Ungroup(a: int, b: int, c: int)
    requires 0 <= a < 256 && 0 <= b < 256 && 0 <= c < 256
    ensures 0 <= Group(a, b, c) < 0x100_0000 && Triple(Group(a, b, c)) == [a, b, c]
  {
    var n := Group(a, b, c);
    By65536(n, a, 256 * b + c);
    By256(n, 256 * a + b, c);
    By256(256 * a + b, a, b);
  }

  /** The zero bits that fill the last group stay zero. */
  lemma FillerBits(n: int)
    requires 0 <= n < 0x100_0000
    ensures n % 256 == 0 ==> n % 64 == 0
    ensures n % 65536 == 0 ==> n / 64 % 64 == 0 && n % 64 == 0
  {
    if n % 65536 == 0 {
      By64(n, 1024 * (n / 65536), 0);
      By64(1024 * (n / 65536), 16 * (n / 65536), 0);
    } else if n % 256 == 0 {
      By64(n, 4 * (n / 256), 0);
    }
  }

  /** Decoding what was encoded gives the bytes back, for every byte sequence; the text has four
      characters for every three bytes begun. */
  lemma {:induction false} RoundTrip(x: seq<int>)
    requires Bytes(x)
    ensures Decode(Encode(x)) == x
    ensures |Encode(x)| == 4 * ((|x| + 2) / 3)
  {
    hide Digits, Letter, Decode, Encode, Split;
    if |x| >= 3 {
      RoundTrip(x[3..]);
      WholeGroup(x);
    } else if x != [] {
      LastGroup(x);
    } else {
      NothingCoded();
    }
  }

  lemma NothingCoded()
    ensures Encode([]) == "" && Decode("") == []
  {
  }

  lemma WholeGroup(x: seq<int>)
    requires Bytes(x) && |x| >= 3 && Decode(Encode(x[3..])) == x[3..]
    ensures Decode(Encode(x)) == x && |Encode(x)| == 4 + |Encode(x[3..])|
  {
    hide Digits, Letters, Split, Triple, Bits, Undigit, Encode;
    var rest := x[3..];
    var n := Group(x[0], x[1], x[2]);
    Ungroup(x[0], x[1], x[2]);
    SplitBits(n);
    assert x == x[..3] + rest;
    EncodeWhole(x[..3], rest);
    LettersDigits(Split(n), Encode(rest));
    LettersLength(Split(n));
    UndigitWhole(Split(n), Digits(Encode(rest)));
  }

  lemma SplitBits(n: int)
    requires 0 <= n < 0x100_0000
    ensures Bits(Split(n)[0], Split(n)[1], Split(n)[2], Split(n)[3]) == n
  {
    hide Bits;
    Regroup(n);
  }

  lemma LettersLength(v: seq<int>)
    requires IsDigits(v)
    ensures |Letters(v)| == |v|
  {
  }

  lemma LastGroup(x: seq<int>)
    requires Bytes(x) && 1 <= |x| <= 2
    ensures Decode(Encode(x)) == x && |Encode(x)| == 4
  {
    hide Digits, Letter;
    var n := Group(x[0], if |x| == 2 then x[1] else 0, 0);
    Ungroup(x[0], if |x| == 2 then x[1] else 0, 0);
    FillerBits(n);
    Regroup(n);
    NoDigits();
    if |x| == 2 {
      LettersDigits(Split(n)[..3], "=");
      assert x == [x[0], x[1]];
    } else {
      LettersDigits(Split(n)[..2], "==");
      assert x == [x[0]];
    }
  }

  lemma NoDigits()
    ensures Digits("") == [] && Digits("=") == [] && Digits("==") == []
  {
  }

  // ---- The coder ----

  /** The masks and shifts of the encoder split the three bytes into four digits. */
  method Sextets(three: array<int>, four: array<int>)
    requires three.Length == 3 && four.Length == 4 && Bytes(three[..]) && three != four
    modifies four
    ensures 0 <= Group(three[0], three[1], three[2]) < 0x100_0000
    ensures four[..] == Split(Group(three[0], three[1], three[2]))
  {
    hide Group, Split;
    var a, b, c := three[0], three[1], three[2];
    assert a == three[..][0] && b == three[..][1] && c == three[..][2];
    MasksSplit(a, b, c);
    four[0] := a / 4;
    four[1] := a % 4 * 16 + b / 16;
    four[2] := b % 16 * 4 + c / 64;
    four[3] := c % 64;
    assert four[..] == [four[0], four[1], four[2], four[3]];
  }

  lemma MasksSplit(a: int, b: int, c: int)
    requires 0 <= a < 256 && 0 <= b < 256 && 0 <= c < 256
    ensures 0 <= Group(a, b, c) < 0x100_0000
    ensures Split(Group(a, b, c)) == [a / 4, a % 4 * 16 + b / 16, b % 16 * 4 + c / 64, c % 64]
  {
    var n := Group(a, b, c);
    var d0, d1, d2 := a / 4, a % 4 * 16 + b / 16, b % 16 * 4 + c / 64;
    By0x40000(n, d0, 65536 * (a % 4) + 256 * b + c);
    By4096(n, 64 * d0 + d1, 256 * (b % 16) + c);
    By64(n, 64 * (64 * d0 + d1) + d2, c % 64);
    By64(64 * d0 + d1, d0, d1);
    By64(64 * (64 * d0 + d1) + d2, 64 * d0 + d1, d2);
  }

  lemma By64(n: int, q: int, r: int)
    requires n == 64 * q + r && 0 <= r < 64
    ensures n / 64 == q && n % 64 == r
  {
  }

  lemma By256(n: int, q: int, r: int)
    requires n == 256 * q + r && 0 <= r < 256
    ensures n / 256 == q && n % 256 == r
  {
  }

  lemma By4096(n: int, q: int, r: int)
    requires n == 4096 * q + r && 0 <= r < 4096
    ensures n / 4096 == q
  {
  }

  lemma By65536(n: int, q: int, r: int)
    requires n == 65536 * q + r && 0 <= r < 65536
    ensures n / 65536 == q
  {
  }

  lemma By0x40000(n: int, q: int, r: int)
    requires n == 0x4_0000 * q + r && 0 <= r < 0x4_0000
    ensures n / 0x4_0000 == q
  {
  }

  /** ret += the letters of the first n digits. */
  method Emit(ret: string, four: array<int>, n: nat) returns (out: string)
    requires four.Length == 4 && n <= 4 && IsDigits(four[..])
    ensures out == ret + Letters(four[..n])
  {
    hide Letter;
    out := ret;
    for j := 0 to n
      invariant out == ret + Letters(four[..j])
    {
      out := out + [Letter(four[j])];
      assert Letters(four[..j + 1]) == Letters(four[..j]) + [Letter(four[j])];
    }
  }

  lemma EncodeWhole(three: seq<int>, rest: seq<int>)
    requires |three| == 3 && Bytes(three) && Bytes(rest)
    ensures 0 <= Group(three[0], three[1], three[2]) < 0x100_0000
    ensures Encode(three + rest) == Letters(Split(Group(three[0], three[1], three[2]))) + Encode(rest)
  {
    assert (three + rest)[3..] == rest;
  }

  lemma NextByte(was: seq<int>, input: seq<int>, pos: nat)
    requires pos < |input|
    ensures was + input[pos..] == (was + [input[pos]]) + input[pos + 1..]
  {
  }

  /** base64_encode. */
  method EncodeBytes(input: seq<int>) returns (ret: string)
    requires Bytes(input)
    ensures ret == Encode(input)
  {
    hide Letter, Letters, Split, Encode, Bytes;
    ret := "";
    var i, pos := 0, 0;
    var three, four := new int[3](_ => 0), new int[4](_ => 0);
    assert three[..0] + input == input;
    BytesOf(input, 0, 0);
    while pos < |input|
      invariant 0 <= i < 3 && 0 <= pos <= |input| && Bytes(three[..i] + input[pos..])
      invariant ret + Encode(three[..i] + input[pos..]) == Encode(input)
    {
      NextByte(three[..i], input, pos);
      ghost var was := three[..i];
      three[i] := input[pos];
      i, pos := i + 1, pos + 1;
      assert three[..i] == was + [input[pos - 1]];
      if i == 3 {
        ret := EncodeGroup(ret, three, four, input[pos..]);
        i := 0;
        assert three[..0] + input[pos..] == input[pos..];
      }
    }
    assert three[..i] + input[pos..] == three[..i];
    if i > 0 {
      ret := EncodeTail(ret, three, four, i);
    } else {
      NoBytes();
    }
  }

  lemma BytesOf(x: seq<int>, i: nat, j: nat)
    requires Bytes(x) && i <= j <= |x|
    ensures Bytes(x[i..j]) && Bytes(x[i..])
  {
  }

  /** Three bytes are together: emit their four letters. */
  method EncodeGroup(before: string, three: array<int>, four: array<int>, ghost rest: seq<int>) returns (ret: string)
    requires three.Length == 3 && four.Length == 4 && three != four && Bytes(three[..3] + rest)
    modifies four
    ensures Bytes(rest) && ret + Encode(rest) == before + Encode(three[..3] + rest)
  {
    hide Letter, Letters, Split, Encode;
    assert three[..3] == three[..];
    BytesOf(three[..3] + rest, 0, 3);
    BytesOf(three[..3] + rest, 3, 3);
    assert (three[..3] + rest)[..3] == three[..] && (three[..3] + rest)[3..] == rest;
    EncodeWhole(three[..], rest);
    Sextets(three, four);
    ret := Emit(before, four, 4);
    assert four[..4] == four[..];
  }

  lemma NoBytes()
    ensures Encode([]) == ""
  {
  }

  /** One or two bytes are left: fill with zero bits, emit one digit more than bytes, pad. */
  method EncodeTail(before: string, three: array<int>, four: array<int>, n: nat) returns (ret: string)
    requires three.Length == 3 && four.Length == 4 && three != four && 1 <= n <= 2 && Bytes(three[..n])
    modifies three, four
    ensures ret == before + Encode(old(three[..n]))
  {
    hide Letter, Letters, Split, Encode;
    ghost var x := three[..n];
    for j := n to 3
      invariant three[..n] == x && forall k :: n <= k < j ==> three[k] == 0
    {
      three[j] := 0;
    }
    assert three[..] == x + if n == 2 then [0] else [0, 0];
    EncodeLast(x);
    Sextets(three, four);
    ret := Emit(before, four, n + 1);
    ret := ret + "=";
    if n == 1 {
      ret := ret + "=";
    }
  }

  lemma EncodeLast(x: seq<int>)
    requires Bytes(x) && 1 <= |x| <= 2
    ensures Bytes(x + if |x| == 2 then [0] else [0, 0])
    ensures var n := Group(x[0], if |x| == 2 then x[1] else 0, 0);
            0 <= n < 0x100_0000
            && Encode(x) == Letters(Split(n)[..|x| + 1]) + if |x| == 2 then "=" else "=="
  {
    hide Letters, Split, Triple, Group, Letter;
    Ungroup(x[0], if |x| == 2 then x[1] else 0, 0);
  }

  /** The masks and shifts of the decoder, for the digits that count. */
  lemma MasksJoin(a: int, b: int, c: int, d: int)
    requires 0 <= a < 64 && 0 <= b < 64
    ensures Triple(Bits(a, b, 0, 0))[..1] == [(a * 4 + b / 16 % 4) % 256]
    ensures 0 <= c < 64 ==>
              Triple(Bits(a, b, c, 0))[..2] == [(a * 4 + b / 16 % 4) % 256, (b % 16 * 16 + c / 4 % 16) % 256]
    ensures 0 <= c < 64 && 0 <= d < 64 ==>
              Triple(Bits(a, b, c, d))
              == [(a * 4 + b / 16 % 4) % 256, (b % 16 * 16 + c / 4 % 16) % 256, (c % 4 * 64 + d) % 256]
  {
    hide Triple, Bits;
    JoinBytes(a, b, 0, 0);
    ByteRange(a, b, 0, 0);
    if 0 <= c < 64 {
      JoinBytes(a, b, c, 0);
      ByteRange(a, b, c, 0);
    }
    if 0 <= c < 64 && 0 <= d < 64 {
      JoinBytes(a, b, c, d);
      ByteRange(a, b, c, d);
    }
  }

  /** For digits the byte masks change nothing. */
  lemma ByteRange(a: int, b: int, c: int, d: int)
    requires 0 <= a < 64 && 0 <= b < 64 && 0 <= c < 64 && 0 <= d < 64
    ensures (a * 4 + b / 16 % 4) % 256 == a * 4 + b / 16
    ensures (b % 16 * 16 + c / 4 % 16) % 256 == b % 16 * 16 + c / 4
    ensures (c % 4 * 64 + d) % 256 == c % 4 * 64 + d
  {
    assert 0 <= b / 16 < 4 && 0 <= c / 4 < 16;
    assert b / 16 % 4 == b / 16 && c / 4 % 16 == c / 4;
    By256(a * 4 + b / 16, 0, a * 4 + b / 16);
    By256(b % 16 * 16 + c / 4, 0, b % 16 * 16 + c / 4);
    By256(c % 4 * 64 + d, 0, c % 4 * 64 + d);
  }

  lemma JoinBytes(a: int, b: int, c: int, d: int)
    requires 0 <= a < 64 && 0 <= b < 64 && 0 <= c < 64 && 0 <= d < 64
    ensures Triple(Bits(a, b, c, d)) == [a * 4 + b / 16, b % 16 * 16 + c / 4, c % 4 * 64 + d]
  {
    var n := Bits(a, b, c, d);
    var b0, b1, b2 := a * 4 + b / 16, b % 16 * 16 + c / 4, c % 4 * 64 + d;
    By65536(n, b0, 4096 * (b % 16) + 64 * c + d);
    By256(n, 256 * b0 + b1, b2);
    By256(256 * b0 + b1, b0, b1);
  }

  lemma UndigitWhole(v: seq<int>, rest: seq<int>)
    requires |v| == 4
    ensures Undigit(v + rest) == Triple(Bits(v[0], v[1], v[2], v[3])) + Undigit(rest)
  {
    assert (v + rest)[4..] == rest;
  }

  /** base64_decode, for every string. In the last group the missing characters become digit 255,
      which touches no byte that is output. */
  method DecodeText(input: string) returns (ret: seq<int>)
    ensures ret == Decode(input)
  {
    hide Find, IsBase64, Undigit, Triple, Bits;
    ret := [];
    var i, at := 0, 0;
    var four := new char[4](_ => '\0');
    ghost var held: seq<int> := [];
    assert held + Digits(input) == Digits(input);
    while at < |input| && input[at] != '=' && IsBase64(input[at])
      invariant 0 <= i < 4 && 0 <= at <= |input| && |held| == i
      invariant forall k :: 0 <= k < i ==> IsBase64(four[k]) && held[k] == Find(four[k])
      invariant ret + Undigit(held + Digits(input[at..])) == Decode(input)
    {
      assert held + ([Find(input[at])] + Digits(input[at + 1..])) == held + [Find(input[at])] + Digits(input[at + 1..]);
      assert input[at..][1..] == input[at + 1..];
      four[i] := input[at];
      held := held + [Find(input[at])];
      i, at := i + 1, at + 1;
      if i == 4 {
        UndigitWhole(held, Digits(input[at..]));
        var three := Join(four);
        ret := ret + three;
        i, held := 0, [];
        assert held + Digits(input[at..]) == Digits(input[at..]);
      }
    }
    assert Digits(input[at..]) == [];
    assert held + [] == held;
    var last := DecodeTail(four, i, held);
    ret := ret + last;
  }

  /** The characters left over, filled up with zero characters. */
  method DecodeTail(four: array<char>, n: nat, ghost held: seq<int>) returns (ret: seq<int>)
    requires four.Length == 4 && n < 4 && |held| == n
    requires forall k :: 0 <= k < n ==> IsBase64(four[k]) && held[k] == Find(four[k])
    modifies four
    ensures ret == Undigit(held)
  {
    hide Find, IsBase64, Undigit, Triple, Bits;
    ret := [];
    JoinedTail(held);
    if n > 0 {
      for j := n to 4
        invariant forall k :: 0 <= k < n ==> IsBase64(four[k]) && held[k] == Find(four[k])
      {
        four[j] := '\0';
      }
      var three := Join(four);
      ret := three[..n - 1];
    }
  }

  /** The last group. */
  lemma JoinedTail(v: seq<int>)
    requires |v| < 4
    ensures |v| <= 1 ==> Undigit(v) == []
    ensures |v| == 2 ==> Undigit(v) == Triple(Bits(v[0], v[1], 0, 0))[..1]
    ensures |v| == 3 ==> Undigit(v) == Triple(Bits(v[0], v[1], v[2], 0))[..2]
  {
  }

  /** Four characters become three bytes. */
  method Join(four: array<char>) returns (three: seq<int>)
    requires four.Length == 4
    ensures |three| == 3
    ensures IsBase64(four[0]) && IsBase64(four[1]) ==>
              three[..1] == Triple(Bits(Find(four[0]), Find(four[1]), 0, 0))[..1]
    ensures IsBase64(four[0]) && IsBase64(four[1]) && IsBase64(four[2]) ==>
              three[..2] == Triple(Bits(Find(four[0]), Find(four[1]), Find(four[2]), 0))[..2]
    ensures IsBase64(four[0]) && IsBase64(four[1]) && IsBase64(four[2]) && IsBase64(four[3]) ==>
              three == Triple(Bits(Find(four[0]), Find(four[1]), Find(four[2]), Find(four[3])))
  {
    hide Find, IsBase64, Bits, Triple;
    var a, b, c, d := Find(four[0]), Find(four[1]), Find(four[2]), Find(four[3]);
    if 0 <= a < 64 && 0 <= b < 64 {
      MasksJoin(a, b, c, d);
    }
    three := [(a * 4 + b / 16 % 4) % 256, (b % 16 * 16 + c / 4 % 16) % 256, (c % 4 * 64 + d) % 256];
  }
}
