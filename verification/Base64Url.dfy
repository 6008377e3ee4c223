/**
 The URL-safe base64 of section 5 of RFC 4648, with the padding stripped on the way out and put back
 on the way in. Bytes become sextets, sextets become characters.
 */
module Base64Url {
  import opened Common

  type Byte = x: int | 0 <= x < 256
  type Sextet = x: int | 0 <= x < 64

  // ----- Bytes and sextets -----

  function First(a: Byte): Sextet { a / 4 }
  function Second(a: Byte, b: Byte): Sextet { a % 4 * 16 + b / 16 }
  function Third(b: Byte, c: Byte): Sextet { b % 16 * 4 + c / 64 }
  function Fourth(c: Byte): Sextet { c % 64 }

  function ByteA(p: Sextet, q: Sextet): Byte { p * 4 + q / 16 }
  function ByteB(q: Sextet, r: Sextet): Byte { q % 16 * 16 + r / 4 }
  function ByteC(r: Sextet, s: Sextet): Byte { r % 4 * 64 + s }

  lemma GroupRoundTrip(a: Byte, b: Byte, c: Byte)
    ensures ByteA(First(a), Second(a, b)) == a
    ensures ByteB(Second(a, b), Third(b, c)) == b
    ensures ByteC(Third(b, c), Fourth(c)) == c
  {
  }

  function SextetCount(n: nat): nat {
    if n == 0 then 0 else if n < 3 then n + 1 else 4 + SextetCount(n - 3)
  }

  /** Four sextets for every three bytes, and one more than the bytes of a short last group. */
  lemma {:induction false} SextetCountIs(n: nat)
    ensures SextetCount(n) == n / 3 * 4 + (if n % 3 == 0 then 0 else n % 3 + 1)
  {
    if n >= 3 { SextetCountIs(n - 3); }
  }

  function Sextets(b: seq<Byte>): (v: seq<Sextet>)
    ensures |v| == SextetCount(|b|)
  {
    if b == [] then []
    else if |b| == 1 then [First(b[0]), Second(b[0], 0)]
    else if |b| == 2 then [First(b[0]), Second(b[0], b[1]), Third(b[1], 0)]
    else [First(b[0]), Second(b[0], b[1]), Third(b[1], b[2]), Fourth(b[2])] + Sextets(b[3..])
  }

  /** A single leftover sextet is an error; the spare bits of a short last group are ignored. */
  function Bytes(v: seq<Sextet>): Option<seq<Byte>> {
    if v == [] then Some([])
    else if |v| == 1 then None
    else if |v| == 2 then Some([ByteA(v[0], v[1])])
    else if |v| == 3 then Some([ByteA(v[0], v[1]), ByteB(v[1], v[2])])
    else match Bytes(v[4..])
      case None => None
      case Some(rest) => Some([ByteA(v[0], v[1]), ByteB(v[1], v[2]), ByteC(v[2], v[3])] + rest)
  }

  lemma BytesOfGroup(p: Sextet, q: Sextet, r: Sextet, t: Sextet, rest: seq<Sextet>)
    requires Bytes(rest).Some?
    ensures Bytes([p, q, r, t] + rest) == Some([ByteA(p, q), ByteB(q, r), ByteC(r, t)] + Bytes(rest).value)
  {
    assert ([p, q, r, t] + rest)[4..] == rest;
  }

  lemma BytesOfShortGroup(p: Sextet, q: Sextet, r: Sextet)
    ensures Bytes([p, q]) == Some([ByteA(p, q)])
    ensures Bytes([p, q, r]) == Some([ByteA(p, q), ByteB(q, r)])
  {
  }

  lemma BytesOfOne(a: Byte)
    ensures Bytes(Sextets([a])) == Some([a])
  {
    BytesOfShortGroup(First(a), Second(a, 0), 0);
    assert ByteA(First(a), Second(a, 0)) == a by { GroupRoundTrip(a, 0, 0); }
  }

  lemma BytesOfTwo(a: Byte, b: Byte)
    ensures Bytes(Sextets([a, b])) == Some([a, b])
  {
    assert Sextets([a, b]) == [First(a), Second(a, b), Third(b, 0)];
    BytesOfShortGroup(First(a), Second(a, b), Third(b, 0));
    assert ByteA(First(a), Second(a, b)) == a && ByteB(Second(a, b), Third(b, 0)) == b by { GroupRoundTrip(a, b, 0); }
  }

  lemma {:induction false} BytesOfSextets(b: seq<Byte>)
    ensures Bytes(Sextets(b)) == Some(b)
  {
    if |b| == 1 {
      BytesOfOne(b[0]);
      assert b == [b[0]];
    } else if |b| == 2 {
      BytesOfTwo(b[0], b[1]);
      assert b == [b[0], b[1]];
    } else if b != [] {
      BytesOfSextets(b[3..]);
      BytesOfGroup(First(b[0]), Second(b[0], b[1]), Third(b[1], b[2]), Fourth(b[2]), Sextets(b[3..]));
      GroupRoundTrip(b[0], b[1], b[2]);
      assert b == [b[0], b[1], b[2]] + b[3..];
    }
  }

  // ----- Sextets and characters -----

  predicate InAlphabet(c: char) {
    'A' <= c <= 'Z' || 'a' <= c <= 'z' || '0' <= c <= '9' || c == '-' || c == '_'
  }

  function CharOf(v: Sextet): char {
    if v < 26 then ('A' as int + v) as char
    else if v < 52 then ('a' as int + v - 26) as char
    else if v < 62 then ('0' as int + v - 52) as char
    else if v == 62 then '-' else '_'
  }

  function ValueOf(c: char): (v: Sextet)
    requires InAlphabet(c)
    ensures CharOf(v) == c
  {
    if 'A' <= c <= 'Z' then c as int - 'A' as int
    else if 'a' <= c <= 'z' then c as int - 'a' as int + 26
    else if '0' <= c <= '9' then c as int - '0' as int + 52
    else if c == '-' then 62 else 63
  }

  lemma ValueOfCharOf(v: Sextet)
    ensures InAlphabet(CharOf(v)) && ValueOf(CharOf(v)) == v
  {
  }

  predicate AllInAlphabet(s: string) { forall i :: 0 <= i < |s| ==> InAlphabet(s[i]) }

  function Chars(v: seq<Sextet>): (s: string)
    ensures |s| == |v| && forall i :: 0 <= i < |v| ==> s[i] == CharOf(v[i])
  {
    seq(|v|, i requires 0 <= i < |v| => CharOf(v[i]))
  }

  function Values(s: string): (v: seq<Sextet>)
    requires AllInAlphabet(s)
    ensures |v| == |s| && forall i :: 0 <= i < |s| ==> v[i] == ValueOf(s[i])
  {
    seq(|s|, i requires 0 <= i < |s| => ValueOf(s[i]))
  }

  lemma ValuesOfChars(v: seq<Sextet>)
    ensures AllInAlphabet(Chars(v)) && Values(Chars(v)) == v
  {
    forall i | 0 <= i < |v| ensures InAlphabet(Chars(v)[i]) && ValueOf(Chars(v)[i]) == v[i] {
      ValueOfCharOf(v[i]);
    }
  }

  /** Table 2 of RFC 4648. */
  lemma AlphabetIs(v: Sextet)
    ensures CharOf(0) == 'A' && CharOf(25) == 'Z' && CharOf(26) == 'a' && CharOf(51) == 'z'
    ensures CharOf(52) == '0' && CharOf(61) == '9' && CharOf(62) == '-' && CharOf(63) == '_'
    ensures v < 61 && v != 25 && v != 51 ==> CharOf(v + 1) as int == CharOf(v) as int + 1
  {
  }

  // ----- Padding -----

  function Pads(k: nat): (s: string)
    ensures |s| == k && forall i :: 0 <= i < k ==> s[i] == '='
  {
    seq(k, _ => '=')
  }

  /** Drop every trailing `=`. */
  function Strip(s: string): string {
    if s != "" && s[|s| - 1] == '=' then Strip(s[..|s| - 1]) else s
  }

  /** How many `=` bring `n` characters to a multiple of four. */
  function Missing(n: nat): (k: nat)
    ensures k < 4 && (n + k) % 4 == 0
  {
    (0 - n) % 4
  }

  function EncodePadded(b: seq<Byte>): string {
    var data := Chars(Sextets(b));
    data + Pads(Missing(|data|))
  }

  function DecodePadded(s: string): Option<seq<Byte>> {
    var data := Strip(s);
    if |s| % 4 != 0 || !AllInAlphabet(data) then None else Bytes(Values(data))
  }

  function Encode(b: seq<Byte>): string { Strip(EncodePadded(b)) }

  function Decode(s: string): Option<seq<Byte>> { DecodePadded(s + Pads(Missing(|s|))) }

  lemma {:induction false} StripPads(s: string, k: nat)
    requires AllInAlphabet(s)
    ensures Strip(s + Pads(k)) == s
    decreases k
  {
    if k > 0 {
      assert (s + Pads(k))[..|s| + k - 1] == s + Pads(k - 1);
      StripPads(s, k - 1);
    } else {
      assert s + Pads(k) == s;
    }
  }

  /** The unpadded text uses only the alphabet, so never `.`, `:` or `=`, and is empty only for no bytes. */
  lemma EncodedText(b: seq<Byte>)
    ensures Encode(b) == Chars(Sextets(b))
    ensures AllInAlphabet(Encode(b)) && (Encode(b) == "" <==> b == [])
  {
    ValuesOfChars(Sextets(b));
    StripPads(Chars(Sextets(b)), Missing(|Sextets(b)|));
  }

  lemma DecodeOfText(s: string)
    requires AllInAlphabet(s)
    ensures Decode(s) == Bytes(Values(s))
  {
    var padded := s + Pads(Missing(|s|));
    StripPads(s, Missing(|s|));
    assert |padded| % 4 == 0;
  }

  lemma DecodeOfChars(v: seq<Sextet>)
    ensures Decode(Chars(v)) == Bytes(v)
  {
    ValuesOfChars(v);
    DecodeOfText(Chars(v));
  }

  /** Stripping the padding and adding (-length) mod 4 back loses nothing, for every byte string. */
  lemma RoundTrip(b: seq<Byte>)
    ensures Decode(Encode(b)) == Some(b)
  {
    EncodedText(b);
    DecodeOfChars(Sextets(b));
    BytesOfSextets(b);
  }

  /** Test vectors of section 10 of RFC 4648, without their padding, and one with both special characters. */
  lemma RfcVectors()
    ensures Encode([0x66]) == "Zg" && Encode([0x66, 0x6f]) == "Zm8"
    ensures Encode([0x66, 0x6f, 0x6f]) == "Zm9v"
    ensures Encode([0xfb, 0xff, 0xbf]) == "-_-_"
  {
    VectorOne();
    VectorTwo();
    VectorThree();
    VectorSpecial();
  }

  lemma VectorOne()
    ensures Encode([0x66]) == "Zg"
  {
    EncodedText([0x66]);
    assert Sextets([0x66]) == [25, 32];
  }

  lemma VectorTwo()
    ensures Encode([0x66, 0x6f]) == "Zm8"
  {
    EncodedText([0x66, 0x6f]);
    assert Sextets([0x66, 0x6f]) == [25, 38, 60];
  }

  lemma CharsOfFour(p: Sextet, q: Sextet, r: Sextet, t: Sextet)
    ensures Chars([p, q, r, t]) == [CharOf(p), CharOf(q), CharOf(r), CharOf(t)]
  {
  }

  lemma VectorThree()
    ensures Encode([0x66, 0x6f, 0x6f]) == "Zm9v"
  {
    var b: seq<Byte> := [0x66, 0x6f, 0x6f];
    EncodedText(b);
    assert b[3..] == [];
    assert Sextets(b) == [25, 38, 61, 47];
    CharsOfFour(25, 38, 61, 47);
  }

  lemma VectorSpecial()
    ensures Encode([0xfb, 0xff, 0xbf]) == "-_-_"
  {
    var b: seq<Byte> := [0xfb, 0xff, 0xbf];
    EncodedText(b);
    assert b[3..] == [];
    assert Sextets(b) == [62, 63, 62, 63];
    CharsOfFour(62, 63, 62, 63);
  }
}
