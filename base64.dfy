/** The browser's `btoa`: a string whose characters all lie in U+0000..U+00FF
    is read as Latin-1 bytes and written in the base 64 alphabet of section 4
    of RFC 4648, with '=' padding; any other character makes it throw. `Atob`
    is its inverse. */
module Base64 {
  import opened Wrappers

  type Byte = x: int | 0 <= x < 256
  type Sextet = x: int | 0 <= x < 64

  /** Table 1 of RFC 4648. */
  function CharOf(x: Sextet): char {
    if x < 26 then ('A' as int + x) as char
    else if x < 52 then ('a' as int + (x - 26)) as char
    else if x < 62 then ('0' as int + (x - 52)) as char
    else if x == 62 then '+'
    else '/'
  }

  function SextetOf(c: char): Option<Sextet> {
    if 'A' <= c <= 'Z' then Some(c as int - 'A' as int)
    else if 'a' <= c <= 'z' then Some(c as int - 'a' as int + 26)
    else if '0' <= c <= '9' then Some(c as int - '0' as int + 52)
    else if c == '+' then Some(62)
    else if c == '/' then Some(63)
    else None
  }

  lemma SextetOfCharOf(x: Sextet)
    ensures SextetOf(CharOf(x)) == Some(x)
  {
  }

  /** Padding never reads as a digit of the alphabet. */
  lemma PadIsNoSextet()
    ensures SextetOf('=') == None
  {
  }

  // The four sextets of a group of three bytes a, b, c ...
  function S0(a: Byte): Sextet { a / 4 }
  function S1(a: Byte, b: Byte): Sextet { (a as int % 4) * 16 + b / 16 }
  function S2(b: Byte, c: Byte): Sextet { (b as int % 16) * 4 + c / 64 }
  function S3(c: Byte): Sextet { c % 64 }

  // ... and the bytes of a group of four sextets w, x, y, z.
  function B0(w: Sextet, x: Sextet): Byte { (w as int) * 4 + x / 16 }
  function B1(x: Sextet, y: Sextet): Byte { (x as int % 16) * 16 + y / 4 }
  function B2(y: Sextet, z: Sextet): Byte { (y as int % 4) * 64 + z }

  /** Three bytes spread over four sextets, and back. */
  lemma SplitBytes(a: Byte, b: Byte, c: Byte)
    ensures B0(S0(a), S1(a, b)) == a
    ensures B1(S1(a, b), S2(b, c)) == b
    ensures B2(S2(b, c), S3(c)) == c
  {
  }

  function Encode(b: seq<Byte>): (r: string)
    ensures |r| == (|b| + 2) / 3 * 4
  {
    if |b| >= 3 then
      [CharOf(S0(b[0])), CharOf(S1(b[0], b[1])), CharOf(S2(b[1], b[2])), CharOf(S3(b[2]))]
      + Encode(b[3..])
    else if |b| == 2 then
      [CharOf(S0(b[0])), CharOf(S1(b[0], b[1])), CharOf(S2(b[1], 0)), '=']
    else if |b| == 1 then
      [CharOf(S0(b[0])), CharOf(S1(b[0], 0)), '=', '=']
    else []
  }

  /** Decoding of padded base 64 text; bits below the last whole byte are
      ignored, as `atob` does. */
  function Decode(s: string): Option<seq<Byte>> {
    if s == [] then Some([])
    else if |s| < 4 then None
    else
      match (SextetOf(s[0]), SextetOf(s[1]), SextetOf(s[2]), SextetOf(s[3]))
      case (Some(w), Some(x), None, None) =>
        if |s| == 4 && s[2] == '=' && s[3] == '=' then Some([B0(w, x)]) else None
      case (Some(w), Some(x), Some(y), None) =>
        if |s| == 4 && s[3] == '=' then Some([B0(w, x), B1(x, y)]) else None
      case (Some(w), Some(x), Some(y), Some(z)) =>
        (match Decode(s[4..])
         case Some(rest) => Some([B0(w, x), B1(x, y), B2(y, z)] + rest)
         case None => None)
      case _ => None
  }

  /** A full group in front of decodable text. */
  lemma DecodeGroup(a: Byte, b: Byte, c: Byte, t: string, rest: seq<Byte>)
    requires Decode(t) == Some(rest)
    ensures Decode([CharOf(S0(a)), CharOf(S1(a, b)), CharOf(S2(b, c)), CharOf(S3(c))] + t)
            == Some([a, b, c] + rest)
  {
    var s := [CharOf(S0(a)), CharOf(S1(a, b)), CharOf(S2(b, c)), CharOf(S3(c))] + t;
    SplitBytes(a, b, c);
    SextetOfCharOf(S0(a));
    SextetOfCharOf(S1(a, b));
    SextetOfCharOf(S2(b, c));
    SextetOfCharOf(S3(c));
    assert s[4..] == t;
  }

  /** The last group of an encoding of two bytes more than a multiple of three. */
  lemma DecodeTwo(a: Byte, b: Byte)
    ensures Decode([CharOf(S0(a)), CharOf(S1(a, b)), CharOf(S2(b, 0)), '=']) == Some([a, b])
  {
    PadIsNoSextet();
    SplitBytes(a, b, 0);
    SextetOfCharOf(S0(a));
    SextetOfCharOf(S1(a, b));
    SextetOfCharOf(S2(b, 0));
  }

  /** The last group of an encoding of one byte more than a multiple of three. */
  lemma DecodeOne(a: Byte)
    ensures Decode([CharOf(S0(a)), CharOf(S1(a, 0)), '=', '=']) == Some([a])
  {
    PadIsNoSextet();
    var w, x := S0(a), S1(a, 0);
    assert B0(w, x) == a;
    SextetOfCharOf(w);
    SextetOfCharOf(x);
  }

  /** Every byte sequence is read back from its encoding. */
  lemma {:induction false} DecodeEncode(b: seq<Byte>)
    ensures Decode(Encode(b)) == Some(b)
  {
    if |b| >= 3 {
      DecodeEncode(b[3..]);
      DecodeGroup(b[0], b[1], b[2], Encode(b[3..]), b[3..]);
      assert b == [b[0], b[1], b[2]] + b[3..];
    } else if |b| == 2 {
      DecodeTwo(b[0], b[1]);
      assert b == [b[0], b[1]];
    } else if |b| == 1 {
      DecodeOne(b[0]);
      assert b == [b[0]];
    }
  }

  /** The Latin-1 bytes of a string, or None when a character lies above
      U+00FF. */
  function Latin1(s: string): (r: Option<seq<Byte>>)
    ensures r.Some? ==> |r.value| == |s|
  {
    if s == [] then Some([])
    else if s[0] as int >= 256 then None
    else match Latin1(s[1..])
      case None => None
      case Some(rest) => Some([s[0] as int] + rest)
  }

  /** The string whose characters have the given code points. */
  function Latin1Text(b: seq<Byte>): (r: string)
    ensures |r| == |b|
  {
    if b == [] then [] else [b[0] as char] + Latin1Text(b[1..])
  }

  lemma {:induction false} Latin1Fails(s: string)
    ensures Latin1(s) == None <==> exists i :: 0 <= i < |s| && s[i] as int >= 256
  {
    if s != [] {
      Latin1Fails(s[1..]);
      if s[0] as int < 256 {
        assert forall i :: 1 <= i < |s| ==> s[i] == s[1..][i - 1];
        if exists i :: 0 <= i < |s| && s[i] as int >= 256 {
          var i :| 0 <= i < |s| && s[i] as int >= 256;
          assert s[1..][i - 1] as int >= 256;
        }
      }
    }
  }

  lemma {:induction false} Latin1TextOf(s: string)
    requires Latin1(s).Some?
    ensures Latin1Text(Latin1(s).value) == s
  {
    if s != [] {
      Latin1TextOf(s[1..]);
    }
  }

  /** `btoa(s)`; None stands for the InvalidCharacterError it throws. */
  function Btoa(s: string): Option<string> {
    match Latin1(s)
    case None => None
    case Some(b) => Some(Encode(b))
  }

  /** `atob(t)` on well-formed input. */
  function Atob(t: string): Option<string> {
    match Decode(t)
    case None => None
    case Some(b) => Some(Latin1Text(b))
  }

  /** `btoa` throws exactly on a character above U+00FF, and otherwise
      `atob` restores the string. */
  lemma AtobBtoa(s: string)
    ensures Btoa(s) == None <==> exists i :: 0 <= i < |s| && s[i] as int >= 256
    ensures Btoa(s).Some? ==> Atob(Btoa(s).value) == Some(s)
  {
    Latin1Fails(s);
    if Latin1(s).Some? {
      DecodeEncode(Latin1(s).value);
      Latin1TextOf(s);
    }
  }
}
