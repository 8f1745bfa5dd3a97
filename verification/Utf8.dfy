/** UTF-8 (RFC 3629): the bytes of a string, and the strict decoding of `to_str`. */
module Utf8 {
  import opened Wrappers

  function EncodeChar(c: char): (b: Bytes)
    ensures 1 <= |b| <= 4
  {
    var n := c as int;
    if n < 0x80 then [n]
    else if n < 0x800 then [0xC0 + n / 64, 0x80 + n % 64]
    else if n < 0x1_0000 then [0xE0 + n / 4096, 0x80 + n / 64 % 64, 0x80 + n % 64]
    else [0xF0 + n / 262144, 0x80 + n / 4096 % 64, 0x80 + n / 64 % 64, 0x80 + n % 64]
  }

  function Encode(s: string): Bytes {
    if s == "" then [] else EncodeChar(s[0]) + Encode(s[1..])
  }

  predicate IsContinuation(b: byte) {
    0x80 <= b < 0xC0
  }

  predicate IsScalar(n: int) {
    0 <= n < 0xD800 || 0xE000 <= n < 0x11_0000
  }

  /** How many bytes the first character takes, by its lead byte; 0 for a byte that cannot lead. */
  function LeadLength(b: byte): nat {
    if b < 0x80 then 1
    else if 0xC0 <= b < 0xE0 then 2
    else if 0xE0 <= b < 0xF0 then 3
    else if 0xF0 <= b < 0xF8 then 4
    else 0
  }

  /** A continuation byte carries six bits. */
  function Six(b: byte, high: int): int {
    high + b - 0x80
  }

  /** The number spelled by the first character's bytes. */
  function CodePoint(b: Bytes): int
    requires b != [] && LeadLength(b[0]) <= |b|
  {
    match LeadLength(b[0])
    case 1 => b[0]
    case 2 => Six(b[1], 64 * (b[0] as int - 0xC0))
    case 3 => Six(b[2], 64 * Six(b[1], 64 * (b[0] as int - 0xE0)))
    case 4 => Six(b[3], 64 * Six(b[2], 64 * Six(b[1], 64 * (b[0] as int - 0xF0))))
    case _ => -1
  }

  /** The first character and its length; None if the bytes do not begin with a well-formed one. */
  function DecodeFirst(b: Bytes): (r: Option<(char, nat)>)
    ensures r.Some? ==> 1 <= r.value.1 <= |b|
  {
    if b == [] then None
    else
      var n := LeadLength(b[0]);
      if n == 0 || n > |b| || (exists i | 1 <= i < n :: !IsContinuation(b[i])) then None
      else
        var v := CodePoint(b);
        // the shortest form, and no surrogates
        if !IsScalar(v) || (n > 1 && v < [0, 0, 0x80, 0x800, 0x1_0000][n]) then None
        else Some((v as char, n))
  }

  function Decode(b: Bytes): Option<string>
    decreases |b|
  {
    if b == [] then Some("")
    else
      match DecodeFirst(b)
      case None => None
      case Some((c, n)) =>
        match Decode(b[n..])
        case None => None
        case Some(rest) => Some([c] + rest)
  }

  lemma DecodeFirstOfEncoded(c: char, rest: Bytes)
    ensures DecodeFirst(EncodeChar(c) + rest) == Some((c, |EncodeChar(c)|))
  {
    var b, n, k := EncodeChar(c) + rest, c as int, |EncodeChar(c)|;
    assert forall i | 0 <= i < k :: b[i] == EncodeChar(c)[i];
    assert LeadLength(b[0]) == k;
    assert forall i | 1 <= i < k :: IsContinuation(b[i]);
    assert CodePoint(b) == n by {
      assert n / 64 / 64 == n / 4096;
      assert n / 4096 / 64 == n / 262144;
    }
  }

  /** Decoding undoes encoding, for every string. */
  lemma {:induction false} DecodeEncode(s: string)
    ensures Decode(Encode(s)) == Some(s)
  {
    if s != "" {
      DecodeFirstOfEncoded(s[0], Encode(s[1..]));
      DecodeEncode(s[1..]);
      assert Encode(s)[|EncodeChar(s[0])|..] == Encode(s[1..]);
      assert [s[0]] + s[1..] == s;
    }
  }

  /** A character spelled by sixes of bits is encoded as those sixes. */
  lemma EncodeCharOfSixes(lead: int, x: int, y: int, z: int)
    requires 0 <= lead < 32 && 0 <= x < 64 && 0 <= y < 64 && 0 <= z < 64
    ensures var n := 64 * lead + x;
            0x80 <= n < 0x800 ==> EncodeChar(n as char) == [0xC0 + lead, 0x80 + x]
    ensures var n := 64 * (64 * lead + x) + y;
            0x800 <= n < 0x1_0000 && IsScalar(n) ==> EncodeChar(n as char) == [0xE0 + lead, 0x80 + x, 0x80 + y]
    ensures var n := 64 * (64 * (64 * lead + x) + y) + z;
            0x1_0000 <= n && IsScalar(n) ==> EncodeChar(n as char) == [0xF0 + lead, 0x80 + x, 0x80 + y, 0x80 + z]
  {
    var two, three, four := 64 * lead + x, 64 * (64 * lead + x) + y, 64 * (64 * (64 * lead + x) + y) + z;
    assert four / 64 == three && three / 64 == two && two / 64 == lead;
    assert four / 4096 == two && four / 262144 == lead && three / 4096 == lead;
  }

  lemma EncodeCharOfDecoded(b: Bytes)
    requires DecodeFirst(b).Some?
    ensures EncodeChar(DecodeFirst(b).value.0) == b[..DecodeFirst(b).value.1]
  {
    var (c, n) := DecodeFirst(b).value;
    assert n == LeadLength(b[0]) && c as int == CodePoint(b);
    assert forall i | 1 <= i < n :: IsContinuation(b[i]);
    if n == 1 {
      assert EncodeChar(c) == [b[0]];
    } else {
      hide EncodeChar;
      match n
      case 2 => EncodeCharOfSixes(b[0] as int - 0xC0, b[1] as int - 0x80, 0, 0);
      case 3 => EncodeCharOfSixes(b[0] as int - 0xE0, b[1] as int - 0x80, b[2] as int - 0x80, 0);
      case 4 => EncodeCharOfSixes(b[0] as int - 0xF0, b[1] as int - 0x80, b[2] as int - 0x80, b[3] as int - 0x80);
    }
  }

  /** Decoding is strict: it accepts only what encoding writes. */
  lemma {:induction false} EncodeDecode(b: Bytes)
    requires Decode(b).Some?
    ensures Encode(Decode(b).value) == b
    decreases |b|
  {
    hide DecodeFirst, EncodeChar;
    if b != [] {
      var (c, n) := DecodeFirst(b).value;
      EncodeCharOfDecoded(b);
      EncodeDecode(b[n..]);
      var rest := Decode(b[n..]).value;
      assert ([c] + rest)[1..] == rest;
      assert b == b[..n] + b[n..];
    }
  }

  lemma {:induction false} EncodeAppend(a: string, b: string)
    ensures Encode(a + b) == Encode(a) + Encode(b)
  {
    hide EncodeChar;
    if a == "" {
      assert a + b == b;
    } else {
      EncodeAppend(a[1..], b);
      assert (a + b)[1..] == a[1..] + b;
    }
  }
}
