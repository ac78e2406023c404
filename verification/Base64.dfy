/** b64_encode of samples/order_book_ws.cpp (section 4 of RFC 4648), with a decoder to measure it
    against. */
module Base64 {
  import opened Bits

  const UPPER: string := "ABCDEFGHIJKLMNOPQRSTUVWXYZ"
  const LOWER: string := "abcdefghijklmnopqrstuvwxyz"
  const DIGITS: string := "0123456789"
  const ALPHABET: string := UPPER + LOWER + DIGITS + "+/"

  const PAD: char := '='

  /** The character of a six-bit value: table 1 of the standard, by ranges. */
  function Char(v: nat): (c: char)
    requires v < 64
    ensures c != PAD
  {
    if v < 26 then (v + 65) as char
    else if v < 52 then (v + 71) as char
    else if v < 62 then (v - 4) as char
    else if v == 62 then '+'
    else '/'
  }

  /** The six-bit value of a character, or -1. */
  function Value(c: char): (v: int)
    ensures -1 <= v < 64
    ensures v >= 0 ==> Char(v) == c
  {
    if 'A' <= c <= 'Z' then c as int - 65
    else if 'a' <= c <= 'z' then c as int - 71
    else if '0' <= c <= '9' then c as int + 4
    else if c == '+' then 62
    else if c == '/' then 63
    else -1
  }

  lemma ValueOfChar(v: nat)
    requires v < 64
    ensures Value(Char(v)) == v
  {
  }

  lemma UpperAt(v: nat)
    requires v < 26
    ensures UPPER[v] as int == 65 + v
  {
  }

  lemma LowerAt(v: nat)
    requires v < 26
    ensures LOWER[v] as int == 97 + v
  {
  }

  lemma DigitAt(v: nat)
    requires v < 10
    ensures DIGITS[v] as int == 48 + v
  {
  }

  /** The alphabet of the code is the one of the standard, and padding is no part of it. */
  lemma AlphabetIsStandard(v: nat)
    requires v < 64
    ensures |ALPHABET| == 64 && ALPHABET[v] == Char(v) && ALPHABET[v] != '='
    ensures v < 26 ==> ALPHABET[v] as int == 'A' as int + v
    ensures 26 <= v < 52 ==> ALPHABET[v] as int == 'a' as int + v - 26
    ensures 52 <= v < 62 ==> ALPHABET[v] as int == '0' as int + v - 52
    ensures ALPHABET[62] == '+' && ALPHABET[63] == '/'
  {
    if v < 26 {
      UpperAt(v);
    } else if v < 52 {
      LowerAt(v - 26);
    } else if v < 62 {
      DigitAt(v - 52);
    }
  }

  // ---- The encoding ----

  /** Digit k of v in base 64, and in base 256. */
  function Six(v: nat, k: nat): (d: nat)
    ensures d < 64
  {
    if k == 0 then v % 64 else Six(v / 64, k - 1)
  }

  function Eight(v: nat, k: nat): (d: byte) {
    if k == 0 then v % 256 else Eight(v / 256, k - 1)
  }

  /** Three bytes as one 24-bit group. */
  function Group(x: byte, y: byte, z: byte): (v: nat)
    ensures v < 0x100_0000
  {
    x as int * 0x1_0000 + y as int * 0x100 + z as int
  }

  /** Byte i of a group, zero when it is missing. */
  function At(s: seq<byte>, i: nat): byte { if i < |s| then s[i] else 0 }

  /** Four values as one 24-bit group. */
  function Compose(a: nat, b: nat, c: nat, d: nat): nat {
    a * 0x4_0000 + b * 0x1000 + c * 64 + d
  }

  /** The four characters of the first group. */
  function Quad(s: seq<byte>): (q: string)
    requires s != []
    ensures |q| == 4
  {
    var v := Group(s[0], At(s, 1), At(s, 2));
    [Char(Six(v, 3)), Char(Six(v, 2)),
     if |s| > 1 then Char(Six(v, 1)) else PAD, if |s| > 2 then Char(Six(v, 0)) else PAD]
  }

  function Front(s: seq<byte>): seq<byte> { if |s| <= 3 then s else s[..3] }
  function Rest(s: seq<byte>): seq<byte> { if |s| <= 3 then [] else s[3..] }

  function Encode(s: seq<byte>): string
    decreases |s|
  {
    if s == [] then "" else Quad(s) + Encode(Rest(s))
  }

  // ---- The decoder of the standard ----

  datatype Result = Bytes(data: seq<byte>) | Malformed

  /** How many padding characters end a group. */
  function PadCount(q: string): nat
    requires |q| == 4
  {
    if q[3] != PAD then 0 else if q[2] != PAD then 1 else 2
  }

  /** The first `n` bytes of a group, whose other bytes have to be zero. */
  function Take(v: nat, n: nat): Result {
    var x, y, z := Eight(v, 2), Eight(v, 1), Eight(v, 0);
    if n == 3 then Bytes([x, y, z])
    else if n == 2 then if z == 0 then Bytes([x, y]) else Malformed
    else if y == 0 && z == 0 then Bytes([x]) else Malformed
  }

  /** One group of four characters; padding is for the last one. */
  function Unquad(q: string, last: bool): Result
    requires |q| == 4
  {
    var p := PadCount(q);
    var a, b := Value(q[0]), Value(q[1]);
    var c := if p == 2 then 0 else Value(q[2]);
    var d := if p >= 1 then 0 else Value(q[3]);
    if a < 0 || b < 0 || c < 0 || d < 0 || (p > 0 && !last) then Malformed
    else Take(Compose(a, b, c, d), 3 - p)
  }

  function Join(x: Result, y: Result): Result {
    if x.Bytes? && y.Bytes? then Bytes(x.data + y.data) else Malformed
  }

  function Decode(t: string): Result {
    if t == "" then Bytes([])
    else if |t| < 4 then Malformed
    else Join(Unquad(t[..4], |t| == 4), Decode(t[4..]))
  }

  // ---- Digits ----

  lemma SixDigits(v: nat)
    ensures Six(v, 0) == v % 64 && Six(v, 1) == v / 64 % 64
    ensures Six(v, 2) == v / 64 / 64 % 64 && Six(v, 3) == v / 64 / 64 / 64 % 64
  {
  }

  /** Composing the digits of a group gives the group. */
  lemma ComposeDigits(v: nat)
    requires v < 0x100_0000
    ensures Compose(Six(v, 3), Six(v, 2), Six(v, 1), Six(v, 0)) == v
  {
  }

  /** Quotient and remainder, and a bound on the quotient. */
  lemma Quotient(v: nat, m: nat, n: nat)
    requires (m == 64 || m == 256) && v < m * n
    ensures v == m * (v / m) + v % m && 0 <= v / m < n
  {
  }

  lemma QuotientOf(q: nat, r: nat, m: nat)
    requires (m == 64 || m == 256) && r < m
    ensures (m * q + r) / m == q && (m * q + r) % m == r
  {
  }

  /** The digits of composed values are the values. */
  lemma DigitsOf(a: nat, b: nat, c: nat, d: nat)
    requires a < 64 && b < 64 && c < 64 && d < 64
    ensures var v := Compose(a, b, c, d);
      v < 0x100_0000 && Six(v, 3) == a && Six(v, 2) == b && Six(v, 1) == c && Six(v, 0) == d
  {
    SixDigits(Compose(a, b, c, d));
    QuotientOf(a * 0x1000 + b * 64 + c, d, 64);
    QuotientOf(a * 64 + b, c, 64);
    QuotientOf(a, b, 64);
  }

  lemma EightDigits(v: nat)
    ensures Eight(v, 0) == v % 256 && Eight(v, 1) == v / 256 % 256 && Eight(v, 2) == v / 256 / 256 % 256
  {
  }

  /** The bytes of a group are the bytes it was made of. */
  lemma BytesOf(x: byte, y: byte, z: byte)
    ensures var v := Group(x, y, z); Eight(v, 2) == x && Eight(v, 1) == y && Eight(v, 0) == z
  {
    EightDigits(Group(x, y, z));
    QuotientOf(x as int * 256 + y as int, z, 256);
    QuotientOf(x, y, 256);
  }

  lemma GroupOf(v: nat)
    requires v < 0x100_0000
    ensures Group(Eight(v, 2), Eight(v, 1), Eight(v, 0)) == v
  {
  }

  /** A missing byte leaves its digits zero. */
  lemma MissingBytes(x: byte, y: byte)
    ensures Six(Group(x, y, 0), 0) == 0
    ensures Six(Group(x, 0, 0), 1) == 0 && Six(Group(x, 0, 0), 0) == 0
  {
  }

  lemma TakeGroup(x: byte, y: byte, z: byte, n: nat)
    requires 1 <= n <= 3 && (n < 2 ==> y == 0) && (n < 3 ==> z == 0)
    ensures Take(Group(x, y, z), n) == Bytes([x, y, z][..n])
  {
    BytesOf(x, y, z);
  }

  lemma QuadBack(s: seq<byte>, last: bool)
    requires s != [] && (|s| < 3 ==> last)
    ensures Unquad(Quad(s), last) == Bytes(Front(s))
  {
    var x, y, z := s[0], At(s, 1), At(s, 2);
    var v := Group(x, y, z);
    ValueOfChar(Six(v, 3));
    ValueOfChar(Six(v, 2));
    ValueOfChar(Six(v, 1));
    ValueOfChar(Six(v, 0));
    MissingBytes(x, y);
    ComposeDigits(v);
    TakeGroup(x, y, z, |Front(s)|);
    assert Front(s) == [x, y, z][..|Front(s)|];
  }

  /** Decoding gives back every byte string. */
  lemma {:induction false} RoundTrip(s: seq<byte>)
    ensures Decode(Encode(s)) == Bytes(s)
    decreases |s|
  {
    hide Quad, Unquad;
    if s != [] {
      var t := Encode(s);
      RoundTrip(Rest(s));
      QuadBack(s, |t| == 4);
      assert t[..4] == Quad(s) && t[4..] == Encode(Rest(s));
      assert s == Front(s) + Rest(s);
    }
  }

  lemma GroupTaken(v: nat, n: nat)
    requires v < 0x100_0000 && 1 <= n <= 3 && Take(v, n).Bytes?
    ensures var s := Take(v, n).data; |s| == n && Group(s[0], At(s, 1), At(s, 2)) == v
  {
    GroupOf(v);
  }

  /** Four characters that decode are the encoding of what they decode to. */
  lemma UnquadUnique(q: string, last: bool)
    requires |q| == 4 && Unquad(q, last).Bytes?
    ensures var s := Unquad(q, last).data;
      1 <= |s| <= 3 && (|s| < 3 ==> last) && Quad(s) == q
  {
    var p := PadCount(q);
    var a, b := Value(q[0]), Value(q[1]);
    var c := if p == 2 then 0 else Value(q[2]);
    var d := if p >= 1 then 0 else Value(q[3]);
    DigitsOf(a, b, c, d);
    GroupTaken(Compose(a, b, c, d), 3 - p);
  }

  /** The encoding is the only text that decodes to the data. */
  lemma {:induction false} OnlyText(t: string, s: seq<byte>)
    ensures Decode(t) == Bytes(s) <==> t == Encode(s)
    decreases |t|
  {
    if t == Encode(s) {
      RoundTrip(s);
    } else if Decode(t) == Bytes(s) {
      DecodedFrom(t);
    }
  }

  lemma {:induction false} DecodedFrom(t: string)
    requires Decode(t).Bytes?
    ensures Encode(Decode(t).data) == t
  {
    if t != "" {
      var q, rest := t[..4], t[4..];
      var x, y := Unquad(q, |t| == 4).data, Decode(rest).data;
      UnquadUnique(q, |t| == 4);
      DecodedFrom(rest);
      QuadFront(x, y);
      assert t == q + rest;
    }
  }

  lemma QuadFront(x: seq<byte>, y: seq<byte>)
    requires x != [] && |x| <= 3 && (|x| < 3 ==> y == [])
    ensures Quad(x + y) == Quad(x) && Rest(x + y) == y
  {
  }

  function Pads(n: nat): nat { (3 - n % 3) % 3 }

  lemma Thirds(n: nat)
    requires n > 3
    ensures (n + 2) / 3 == (n - 3 + 2) / 3 + 1
  {
  }

  lemma {:induction false} EncodedLength(s: seq<byte>)
    ensures |Encode(s)| == (|s| + 2) / 3 * 4
    decreases |s|
  {
    if |s| > 3 {
      Thirds(|s|);
      EncodedLength(Rest(s));
    } else if s != [] {
      assert Encode(Rest(s)) == "";
    }
  }

  /** Four characters for every three bytes begun, and equals signs at the very end only, one for each
      byte that is missing. */
  lemma {:induction false} LengthAndPadding(s: seq<byte>)
    ensures |Encode(s)| == (|s| + 2) / 3 * 4
    ensures forall i :: 0 <= i < |Encode(s)| ==> (Encode(s)[i] == '=' <==> i >= |Encode(s)| - (3 - |s| % 3) % 3)
    decreases |s|
  {
    EncodedLength(s);
    if s != [] {
      var q, rest := Quad(s), Encode(Rest(s));
      LengthAndPadding(Rest(s));
      PadsOf(|s|);
      forall i | 0 <= i < |Encode(s)|
        ensures Encode(s)[i] == PAD <==> i >= |Encode(s)| - Pads(|s|)
      {
        assert Encode(s)[i] == if i < 4 then q[i] else rest[i - 4];
      }
    }
  }

  lemma PadsOf(n: nat)
    requires n > 0
    ensures n >= 3 ==> Pads(n) == Pads(n - 3)
    ensures n < 3 ==> Pads(n) == 3 - n
    ensures Pads(n) <= 2
  {
  }

  // ---- What each character is ----

  /** Bits 6j to 6j + 5 of the bytes, the highest bit of the first byte first, and zeros behind the end. */
  function SixBits(s: seq<byte>, j: nat): (v: nat)
    ensures v < 64
  {
    var two := At(s, 6 * j / 8) as int * 256 + At(s, 6 * j / 8 + 1) as int;
    match 6 * j % 8
    case 0 => two / 1024 % 64
    case 6 => two / 16 % 64
    case 4 => two / 64 % 64
    case _ => two / 256 % 64
  }

  /** The bytes cut where the characters of a group meet. */
  lemma Cuts(x: byte, y: byte, z: byte)
    ensures var v, a, b, c := Group(x, y, z), x as int, y as int, z as int;
            && Six(v, 3) == a / 4 && Six(v, 2) == a % 4 * 16 + b / 16
            && Six(v, 1) == b % 16 * 4 + c / 64 && Six(v, 0) == c % 64
  {
    var a, b, c := x as int, y as int, z as int;
    DigitsOf(a / 4, a % 4 * 16 + b / 16, b % 16 * 4 + c / 64, c % 64);
  }

  lemma SixBitsCut(x: byte, y: byte)
    ensures var a, b := x as int, y as int;
            && (a * 256 + b) / 1024 % 64 == a / 4
            && (a * 256 + b) / 16 % 64 == a % 4 * 16 + b / 16
            && (a * 256 + b) / 64 % 64 == a % 16 * 4 + b / 64
            && (a * 256 + b) / 256 % 64 == a % 64
  {
    var a, b := x as int, y as int;
    DivModUnique(1024, a / 4, a % 4 * 256 + b);
    DivModUnique(16, a * 16 + b / 16, b % 16);
    DivModUnique(64, a / 4, a % 4 * 16 + b / 16);
    DivModUnique(64, a * 4 + b / 64, b % 64);
    DivModUnique(64, a / 16, a % 16 * 4 + b / 64);
    DivModUnique(256, a, b);
  }

  lemma SixBitsLater(s: seq<byte>, j: nat)
    requires j >= 4 && s != []
    ensures SixBits(s, j) == SixBits(Rest(s), j - 4)
  {
    assert 6 * j == 6 * (j - 4) + 24;
  }

  lemma QuadAt(s: seq<byte>, j: nat)
    requires s != [] && j < 4 && j <= |s|
    ensures Quad(s)[j] == Char(SixBits(s, j))
  {
    hide Six, Group, Char;
    Cuts(s[0], At(s, 1), At(s, 2));
    SixBitsCut(At(s, 6 * j / 8), At(s, 6 * j / 8 + 1));
  }

  /** Every other character is the alphabet's for the next six bits. */
  lemma {:induction false} BitsInOrder(s: seq<byte>, j: nat)
    requires j < |Encode(s)| - (3 - |s| % 3) % 3
    ensures |ALPHABET| == 64 && Encode(s)[j] == ALPHABET[SixBits(s, j)]
    decreases |s|
  {
    hide Quad, SixBits, Char;
    EncodedLength(s);
    AlphabetIsStandard(SixBits(s, j));
    if s != [] {
      PadsOf(|s|);
      if j < 4 {
        QuadAt(s, j);
      } else {
        EncodedLength(Rest(s));
        SixBitsLater(s, j);
        BitsInOrder(Rest(s), j - 4);
      }
    }
  }

  lemma OneGroup(s: seq<byte>)
    requires 0 < |s| <= 3
    ensures Encode(s) == Quad(s)
  {
    assert Encode(Rest(s)) == "";
  }

  lemma TwoGroups(s: seq<byte>)
    requires 3 <= |s| <= 6
    ensures Encode(s) == Quad(s[..3]) + Encode(s[3..])
  {
    QuadFront(s[..3], s[3..]);
    assert s == s[..3] + s[3..];
  }

  /** The examples of section 10 of RFC 4648, and the last two characters of its alphabet. */
  lemma ShortExamples()
    ensures Encode([]) == "" && Encode([0x66]) == "Zg==" && Encode([0x66, 0x6f]) == "Zm8="
    ensures Encode([0x66, 0x6f, 0x6f]) == "Zm9v" && Encode([0xfb, 0xff]) == "+/8="
  {
    QuadExamples();
    OneGroup([0x66]);
    OneGroup([0x66, 0x6f]);
    OneGroup([0x66, 0x6f, 0x6f]);
    OneGroup([0xfb, 0xff]);
  }

  lemma QuadExamples()
    ensures Quad([0x66]) == "Zg==" && Quad([0x66, 0x6f]) == "Zm8=" && Quad([0x66, 0x6f, 0x6f]) == "Zm9v"
    ensures Quad([0xfb, 0xff]) == "+/8="
  {
    hide Six, Group;
    Cuts(0x66, 0, 0);
    Cuts(0x66, 0x6f, 0);
    Cuts(0x66, 0x6f, 0x6f);
    Cuts(0xfb, 0xff, 0);
  }

  lemma LongExamples()
    ensures Encode([0x66, 0x6f, 0x6f, 0x62]) == "Zm9vYg=="
    ensures Encode([0x66, 0x6f, 0x6f, 0x62, 0x61]) == "Zm9vYmE="
    ensures Encode([0x66, 0x6f, 0x6f, 0x62, 0x61, 0x72]) == "Zm9vYmFy"
  {
    hide Encode, Quad;
    var foo: seq<byte>, bar: seq<byte> := [0x66, 0x6f, 0x6f], [0x62, 0x61, 0x72];
    QuadExamples();
    LaterQuads();
    OneGroup(bar[..1]);
    OneGroup(bar[..2]);
    OneGroup(bar);
    TwoGroups(foo + bar[..1]);
    TwoGroups(foo + bar[..2]);
    TwoGroups(foo + bar);
    assert bar[..1] == [0x62] && bar[..2] == [0x62, 0x61];
    assert (foo + bar)[3..] == bar && (foo + bar)[..3] == foo;
    assert (foo + bar[..1])[3..] == bar[..1] && (foo + bar[..1])[..3] == foo;
    assert (foo + bar[..2])[3..] == bar[..2] && (foo + bar[..2])[..3] == foo;
    assert foo + bar == [0x66, 0x6f, 0x6f, 0x62, 0x61, 0x72];
    assert foo + bar[..2] == [0x66, 0x6f, 0x6f, 0x62, 0x61];
    assert foo + bar[..1] == [0x66, 0x6f, 0x6f, 0x62];
  }

  lemma LaterQuads()
    ensures Quad([0x62]) == "Yg==" && Quad([0x62, 0x61]) == "YmE=" && Quad([0x62, 0x61, 0x72]) == "YmFy"
  {
    hide Six, Group;
    Cuts(0x62, 0, 0);
    Cuts(0x62, 0x61, 0);
    Cuts(0x62, 0x61, 0x72);
  }

  // ---- The loop ----

  lemma Shifts(v: nat)
    ensures Shr(v, 6) == v / 64 && Shr(v, 12) == v / 64 / 64 && Shr(v, 18) == v / 64 / 64 / 64
  {
    ShiftSix(v, 0);
    ShiftSix(v, 6);
    ShiftSix(v, 12);
  }

  lemma ShiftSix(v: nat, k: nat)
    ensures Shr(v, k + 6) == Shr(v, k) / 64
  {
    assert Shr(v, k + 2) == Shr(v, k) / 4;
    assert Shr(v, k + 4) == Shr(v, k + 2) / 4;
    assert Shr(v, k + 6) == Shr(v, k + 4) / 4;
  }

  /** The character the code looks up for six bits of v. */
  lemma Lookup(v: nat)
    ensures And(v, 0x3F) == v % 64 && |ALPHABET| == 64 && ALPHABET[v % 64] == Char(v % 64)
  {
    Pow2Values();
    AndMask(v, 6);
    AlphabetIsStandard(v % 64);
  }

  /** OR-ing three bytes, each in its own place, makes a group. */
  lemma GroupBits(x: byte, y: byte, z: byte)
    ensures Or(x as int * 0x1_0000, y as int * 0x100) == Group(x, y, 0)
    ensures Or(Group(x, y, 0), z) == Group(x, y, z)
  {
    Pow2Values();
    OrLow(x, y as int * 0x100, 16);
    OrLow(x as int * 0x100 + y as int, z, 8);
  }

  /** The four table lookups for one group of `n` bytes. */
  method Characters(v: nat, ghost s: seq<byte>, second: bool, third: bool) returns (q: string)
    requires s != [] && v == Group(s[0], At(s, 1), At(s, 2))
    requires second == (|s| > 1) && third == (|s| > 2)
    ensures q == Quad(s)
  {
    Shifts(v);
    SixDigits(v);
    Lookup(Shr(v, 18));
    Lookup(Shr(v, 12));
    Lookup(Shr(v, 6));
    Lookup(v);
    q := [ALPHABET[And(Shr(v, 18), 0x3F)]];
    q := q + [ALPHABET[And(Shr(v, 12), 0x3F)]];
    q := q + [if second then ALPHABET[And(Shr(v, 6), 0x3F)] else PAD];
    q := q + [if third then ALPHABET[And(v, 0x3F)] else PAD];
  }

  /** The bytes of one group. */
  method Gather(data: seq<byte>, i: nat) returns (v: nat)
    requires i < |data|
    ensures v == Group(data[i], At(data[i..], 1), At(data[i..], 2))
  {
    GroupBits(data[i], At(data[i..], 1), At(data[i..], 2));
    v := data[i] as int * 0x1_0000;
    if i + 1 < |data| {
      v := Or(v, data[i + 1] as int * 0x100);
    }
    if i + 2 < |data| {
      v := Or(v, data[i + 2]);
    }
  }

  /** b64_encode. */
  method EncodeLoop(data: seq<byte>) returns (out: string)
    ensures out == Encode(data)
  {
    out := "";
    var i := 0;
    ghost var left := data;
    while i < |data|
      invariant 0 <= i
      invariant left == if i < |data| then data[i..] else []
      invariant out + Encode(left) == Encode(data)
    {
      var v := Gather(data, i);
      var q := Characters(v, left, i + 1 < |data|, i + 2 < |data|);
      assert out + Encode(left) == out + q + Encode(Rest(left));
      out := out + q;
      i := i + 3;
      left := Rest(left);
    }
  }
}
