/** devinfo/src/mountinfo/mod.rs: the mount table reader. */
module MountInfos {
  import opened Wrappers
  import opened Text
  import opened Utf8
  import Decimal

  datatype MountError =
    | MissingField(index: nat)
    | NotANumber(index: nat)
    | TruncatedEscape
    | BadOctalDigit
    | NonUtf8
    | Device(why: string)
    | Io(why: string)

  const BACKSLASH: byte := 92

  // ---- escapes ----

  predicate IsOctal(b: byte) {
    48 <= b < 56
  }

  function OctalValue(b: byte): nat
    requires IsOctal(b)
  {
    b - 48
  }

  /** Three digits, most significant first; the first problem met is the error. */
  function ReadOctal(b: Bytes, digits: nat, code: nat): Result<nat, MountError>
    decreases digits
  {
    if digits == 0 then Ok(code)
    else if b == [] then Err(TruncatedEscape)
    else if !IsOctal(b[0]) then Err(BadOctalDigit)
    else ReadOctal(b[1..], digits - 1, code * 8 + OctalValue(b[0]))
  }

  /** `parse_value`; a code above 255 loses its high bit in the cast to a byte. */
  function Unescape(b: Bytes): Result<Bytes, MountError>
    decreases |b|
  {
    if b == [] then Ok([])
    else if b[0] != BACKSLASH then Prepend(b[0], Unescape(b[1..]))
    else
      match ReadOctal(b[1..], 3, 0)
      case Err(e) => Err(e)
      case Ok(code) => if |b| < 4 then Err(TruncatedEscape) else Prepend(code % 256, Unescape(b[4..]))
  }

  function Prepend(b: byte, r: Result<Bytes, MountError>): Result<Bytes, MountError> {
    match r
    case Err(e) => Err(e)
    case Ok(rest) => Ok([b] + rest)
  }

  predicate EscapeAt(b: Bytes, i: nat) {
    i + 3 < |b| && IsOctal(b[i + 1]) && IsOctal(b[i + 2]) && IsOctal(b[i + 3])
  }

  function Backslashes(b: Bytes): nat {
    if b == [] then 0 else (if b[0] == BACKSLASH then 1 else 0) + Backslashes(b[1..])
  }

  /** The digits are the characters 0 to 7. */
  lemma OctalDigits(b: byte)
    ensures IsOctal(b) <==> b as char in "01234567"
    ensures IsOctal(b) ==> "01234567"[OctalValue(b)] == b as char
  {
  }

  /** A bad escape is reported by what comes first: a character that is no digit, or the end of the text. */
  lemma BadEscapeIsReported(b: Bytes, n: nat)
    requires b != [] && b[0] == BACKSLASH && n < 3 && n + 1 <= |b|
    requires forall i | 1 <= i <= n :: IsOctal(b[i])
    ensures n + 1 < |b| && !IsOctal(b[n + 1]) ==> Unescape(b) == Err(BadOctalDigit)
    ensures n + 1 == |b| ==> Unescape(b) == Err(TruncatedEscape)
  {
    assert ReadOctal(b[1..], 3, 0)
        == if n >= 1 then ReadOctal(b[2..], 2, OctalValue(b[1])) else ReadOctal(b[1..], 3, 0);
  }

  lemma ReadOctalExact(b: Bytes)
    ensures ReadOctal(b, 3, 0).Ok? <==> 3 <= |b| && IsOctal(b[0]) && IsOctal(b[1]) && IsOctal(b[2])
    ensures ReadOctal(b, 3, 0).Ok? ==>
              ReadOctal(b, 3, 0).value == OctalValue(b[0]) * 64 + OctalValue(b[1]) * 8 + OctalValue(b[2])
  {
  }

  /** It fails exactly on a backslash without three octal digits, and otherwise drops three bytes an escape. */
  lemma {:induction false} UnescapeExact(b: Bytes)
    ensures Unescape(b).Ok? <==> forall i: nat | i < |b| && b[i] == BACKSLASH :: EscapeAt(b, i)
    ensures Unescape(b).Ok? ==> |Unescape(b).value| + 3 * Backslashes(b) == |b|
    decreases |b|
  {
    if b == [] {
    } else if b[0] != BACKSLASH {
      UnescapeExact(b[1..]);
      ShiftedEscapes(b, 1);
    } else {
      ReadOctalExact(b[1..]);
      if EscapeAt(b, 0) {
        UnescapeExact(b[4..]);
        ShiftedEscapes(b, 4);
        assert Backslashes(b) == 1 + Backslashes(b[1..]);
        assert b[1..][1..] == b[2..] && b[2..][1..] == b[3..] && b[3..][1..] == b[4..];
        assert Backslashes(b[1..]) == Backslashes(b[2..]) == Backslashes(b[3..]) == Backslashes(b[4..]);
      }
    }
  }

  lemma ShiftedEscapes(b: Bytes, k: nat)
    requires k <= |b|
    ensures forall i: nat | k <= i < |b| :: b[i] == b[k..][i - k] && (EscapeAt(b, i) <==> EscapeAt(b[k..], i - k))
    ensures (forall i: nat | i < |b[k..]| && b[k..][i] == BACKSLASH :: EscapeAt(b[k..], i))
            <==> forall i: nat | k <= i < |b| && b[i] == BACKSLASH :: EscapeAt(b, i)
  {
  }

  /** The two nested loops of the source. */
  method ParseValue(value: string) returns (r: Result<Bytes, MountError>)
    ensures r == Unescape(Encode(value))
  {
    var bytes := Encode(value);
    var ret: Bytes := [];
    ghost var whole := Unescape(bytes);
    PrependNothing(whole);
    while bytes != []
      invariant whole == PrependAll(ret, Unescape(bytes))
      decreases |bytes|
    {
      ghost var before := bytes;
      var b := bytes[0];
      bytes := bytes[1..];
      if b == BACKSLASH {
        var code: nat := 0;
        ghost var escape := ReadOctal(bytes, 3, 0);
        for i := 0 to 3
          invariant 1 + i <= |before| && bytes == before[1 + i..]
          invariant escape == ReadOctal(bytes, 3 - i, code)
        {
          if bytes == [] {
            return Err(TruncatedEscape);
          }
          var digit := bytes[0];
          bytes := bytes[1..];
          if !IsOctal(digit) {
            return Err(BadOctalDigit);
          }
          code := code * 8 + OctalValue(digit);
        }
        PrependOneMore(ret, code % 256, Unescape(bytes));
        ret := ret + [code % 256];
      } else {
        PrependOneMore(ret, b, Unescape(bytes));
        ret := ret + [b];
      }
    }
    assert ret + [] == ret;
    r := Ok(ret);
  }

  function PrependAll(a: Bytes, r: Result<Bytes, MountError>): Result<Bytes, MountError> {
    match r
    case Err(e) => Err(e)
    case Ok(rest) => Ok(a + rest)
  }

  lemma PrependOneMore(a: Bytes, b: byte, r: Result<Bytes, MountError>)
    ensures PrependAll(a, Prepend(b, r)) == PrependAll(a + [b], r)
  {
    if r.Ok? {
      assert a + ([b] + r.value) == a + [b] + r.value;
    }
  }

  // ---- writing escapes ----

  function OctalDigit(d: nat): char
    requires d < 8
  {
    (48 + d) as char
  }

  function EscapeByte(b: byte): string {
    ['\\', OctalDigit(b / 64), OctalDigit(b / 8 % 8), OctalDigit(b % 8)]
  }

  function EscapeBytes(b: Bytes): string {
    if b == [] then "" else EscapeByte(b[0]) + EscapeBytes(b[1..])
  }

  /** A field of the table: each character as it is, or all of its bytes escaped, as the writer chooses. */
  function Escape(s: string, escaped: char -> bool): string {
    if s == "" then ""
    else (if escaped(s[0]) then EscapeBytes(EncodeChar(s[0])) else [s[0]]) + Escape(s[1..], escaped)
  }

  /** An escape stands for its octal code, modulo 256: "\777" reads as 255. */
  lemma EscapeIsItsCode(d2: byte, d1: byte, d0: byte, rest: Bytes)
    requires IsOctal(d2) && IsOctal(d1) && IsOctal(d0)
    ensures Unescape([BACKSLASH, d2, d1, d0] + rest)
            == Prepend((OctalValue(d2) * 64 + OctalValue(d1) * 8 + OctalValue(d0)) % 256, Unescape(rest))
  {
  }

  lemma EscapedBytes(b: byte)
    ensures Encode(EscapeByte(b)) == [BACKSLASH, 48 + b / 64, 48 + b / 8 % 8, 48 + b % 8]
  {
    var e := EscapeByte(b);
    assert e[1..][1..][1..][1..] == "";
    assert Encode(e[1..][1..][1..]) == [48 + b % 8];
    assert Encode(e[1..][1..]) == [48 + b / 8 % 8] + [48 + b % 8];
    assert Encode(e[1..]) == [48 + b / 64] + ([48 + b / 8 % 8] + [48 + b % 8]);
  }

  lemma DigitsOfByte(b: byte)
    ensures b / 64 < 4 && b / 64 * 64 + b / 8 % 8 * 8 + b % 8 == b
  {
  }

  lemma UnescapeOneByte(b: byte, rest: Bytes)
    ensures Unescape(Encode(EscapeByte(b)) + rest) == Prepend(b, Unescape(rest))
  {
    hide Encode, Unescape, EscapeByte;
    EscapedBytes(b);
    DigitsOfByte(b);
    EscapeIsItsCode(48 + b / 64, 48 + b / 8 % 8, 48 + b % 8, rest);
  }

  lemma FirstEscape(b: Bytes, rest: Bytes)
    requires b != []
    ensures Encode(EscapeBytes(b)) + rest == Encode(EscapeByte(b[0])) + (Encode(EscapeBytes(b[1..])) + rest)
  {
    EncodeThenRest(EscapeByte(b[0]), EscapeBytes(b[1..]), rest);
  }

  lemma EncodeThenRest(a: string, b: string, rest: Bytes)
    ensures Encode(a + b) + rest == Encode(a) + (Encode(b) + rest)
  {
    EncodeAppend(a, b);
    assert Encode(a) + Encode(b) + rest == Encode(a) + (Encode(b) + rest);
  }

  lemma {:induction false} UnescapeBytes(b: Bytes, rest: Bytes)
    ensures Unescape(Encode(EscapeBytes(b)) + rest) == PrependAll(b, Unescape(rest))
  {
    if b == [] {
      assert Encode(EscapeBytes(b)) + rest == rest;
      PrependNothing(Unescape(rest));
    } else {
      FirstEscape(b, rest);
      UnescapeOneByte(b[0], Encode(EscapeBytes(b[1..])) + rest);
      UnescapeBytes(b[1..], rest);
      PrependFirst(b, Unescape(rest));
    }
  }

  lemma PrependNothing(r: Result<Bytes, MountError>)
    ensures PrependAll([], r) == r
  {
    if r.Ok? {
      assert [] + r.value == r.value;
    }
  }

  lemma PrependFirst(b: Bytes, r: Result<Bytes, MountError>)
    requires b != []
    ensures Prepend(b[0], PrependAll(b[1..], r)) == PrependAll(b, r)
  {
    if r.Ok? {
      assert [b[0]] + (b[1..] + r.value) == b + r.value;
    }
  }

  lemma {:induction false} UnescapePlain(b: Bytes, rest: Bytes)
    requires BACKSLASH !in b
    ensures Unescape(b + rest) == PrependAll(b, Unescape(rest))
  {
    if b == [] {
      assert b + rest == rest;
      PrependNothing(Unescape(rest));
    } else {
      UnescapePlain(b[1..], rest);
      assert (b + rest)[1..] == b[1..] + rest;
      PrependFirst(b, Unescape(rest));
    }
  }

  lemma OnlyBackslashEncodesBackslash(c: char)
    requires c != '\\'
    ensures BACKSLASH !in EncodeChar(c)
  {
  }

  /** Unescaping undoes any escaping that covers the backslash. */
  lemma {:induction false} UnescapeEscape(s: string, escaped: char -> bool)
    requires Covers(escaped, s)
    ensures Unescape(Encode(Escape(s, escaped))) == Ok(Encode(s))
  {
    if s != "" {
      var head := if escaped(s[0]) then EscapeBytes(EncodeChar(s[0])) else [s[0]];
      var tail := Escape(s[1..], escaped);
      EncodeAppend(head, tail);
      UnescapeEscape(s[1..], escaped);
      if escaped(s[0]) {
        UnescapeBytes(EncodeChar(s[0]), Encode(tail));
      } else {
        OnlyBackslashEncodesBackslash(s[0]);
        assert Encode([s[0]]) == EncodeChar(s[0]) by {
          assert [s[0]][1..] == "";
        }
        UnescapePlain(EncodeChar(s[0]), Encode(tail));
      }
    }
  }

  // ---- words ----

  /** `char::is_whitespace`: the Unicode White_Space property. */
  predicate IsWhite(c: char) {
    var n := c as int;
    9 <= n <= 13 || n == 0x20 || n == 0x85 || n == 0xA0 || n == 0x1680 || 0x2000 <= n <= 0x200A
    || n == 0x2028 || n == 0x2029 || n == 0x202F || n == 0x205F || n == 0x3000
  }

  /** The 25 characters of white space, one by one. */
  lemma WhiteSpaceIs(c: char)
    ensures IsWhite(c) <==>
              || c in "\t\n\U{B}\U{C}\r \U{85}\U{A0}\U{1680}\U{2000}\U{2001}\U{2002}\U{2003}\U{2004}\U{2005}"
              || c in "\U{2006}\U{2007}\U{2008}\U{2009}\U{200A}\U{2028}\U{2029}\U{202F}\U{205F}\U{3000}"
  {
  }

  predicate IsWord(s: string) {
    s != "" && forall i | 0 <= i < |s| :: !IsWhite(s[i])
  }

  function WordLength(s: string): (n: nat)
    ensures n <= |s|
    ensures forall i | 0 <= i < n :: !IsWhite(s[i])
    ensures n < |s| ==> IsWhite(s[n])
  {
    if s == "" || IsWhite(s[0]) then 0 else 1 + WordLength(s[1..])
  }

  /** `split_whitespace` */
  function Words(s: string): (words: seq<string>)
    ensures forall w | w in words :: IsWord(w)
    decreases |s|
  {
    if s == "" then []
    else if IsWhite(s[0]) then Words(s[1..])
    else
      var n := WordLength(s);
      [s[..n]] + Words(s[n..])
  }

  lemma FirstWord(w: string, rest: string)
    requires IsWord(w) && (rest == "" || IsWhite(rest[0]))
    ensures Words(w + rest) == [w] + Words(rest)
  {
    var s := w + rest;
    var n := WordLength(s);
    assert forall i | 0 <= i < |w| :: s[i] == w[i];
    assert |w| < |s| ==> s[|w|] == rest[0];
    assert n == |w|;
    assert s[..n] == w && s[n..] == rest;
  }

  lemma {:induction false} OnlySpaces(s: string)
    requires forall i | 0 <= i < |s| :: IsWhite(s[i])
    ensures Words(s) == []
  {
    if s != "" {
      OnlySpaces(s[1..]);
    }
  }

  lemma FirstWordThenSpace(w: string, rest: string)
    requires IsWord(w)
    ensures Words(w + ([' '] + rest)) == [w] + Words(rest)
  {
    FirstWord(w, [' '] + rest);
    assert ([' '] + rest)[1..] == rest;
  }

  /** Words joined by spaces come apart again, whatever white space (a line end) follows. */
  lemma {:induction false} WordsOfJoined(words: seq<string>, trailing: string)
    requires words != [] && forall i | 0 <= i < |words| :: IsWord(words[i])
    requires forall i | 0 <= i < |trailing| :: IsWhite(trailing[i])
    ensures Words(Join(words, ' ') + trailing) == words
  {
    hide Words;
    if |words| == 1 {
      OnlySpaces(trailing);
      FirstWord(words[0], trailing);
    } else {
      var tail := Join(words[1..], ' ');
      WordsOfJoined(words[1..], trailing);
      FirstWordThenSpace(words[0], tail + trailing);
      assert words[0] + [' '] + tail + trailing == words[0] + ([' '] + (tail + trailing));
    }
  }

  // ---- a line ----

  datatype MountInfo = MountInfo(source: string, dest: string, fstype: string, options: seq<string>)

  const DISK_BY := "/dev/disk/by-"

  /** `str::parse::<i32>` */
  function ParseI32(s: string): Option<int> {
    var digits := if s != "" && (s[0] == '-' || s[0] == '+') then s[1..] else s;
    if digits == "" || !Decimal.AllDigits(digits) then None
    else
      var v := if s[0] == '-' then 0 - Decimal.Value(digits) else Decimal.Value(digits);
      if I32_MIN <= v <= I32_MAX then Some(v) else None
  }

  /** A path field: unescaped, and UTF-8. */
  function PathField(field: string): Result<string, MountError> {
    match Unescape(Encode(field))
    case Err(e) => Err(e)
    case Ok(bytes) =>
      match Decode(bytes)
      case None => Err(NonUtf8)
      case Some(path) => Ok(path)
  }

  /** `from_str`; `device` resolves a path under /dev/disk/by- to the device it names. */
  function FromStr(line: string, device: string -> Result<string, MountError>): Result<MountInfo, MountError> {
    FromParts(Words(line), device)
  }

  function FromParts(parts: seq<string>, device: string -> Result<string, MountError>): Result<MountInfo, MountError> {
    if |parts| < 4 then Err(MissingField(|parts|))
    else if |parts| > 4 && ParseI32(parts[4]).None? then Err(NotANumber(4))
    else if |parts| > 5 && ParseI32(parts[5]).None? then Err(NotANumber(5))
    else
      match PathField(parts[0])
      case Err(e) => Err(e)
      case Ok(path) =>
        match (if StartsWith(path, DISK_BY) then device(path) else Ok(path))
        case Err(e) => Err(e)
        case Ok(source) =>
          match PathField(parts[1])
          case Err(e) => Err(e)
          case Ok(dest) => Ok(MountInfo(source, dest, parts[2], Split(parts[3], ',')))
  }

  /** The fields of a line, written with the chosen characters escaped. */
  function Fields(m: MountInfo, escaped: char -> bool): seq<string> {
    [Escape(m.source, escaped), Escape(m.dest, escaped), m.fstype, Join(m.options, ',')]
  }

  /** What the last two plain fields of a line must be like to be read back. */
  ghost predicate PlainFields(m: MountInfo) {
    && IsWord(m.fstype)
    && m.options != [] && IsWord(Join(m.options, ','))
    && forall i | 0 <= i < |m.options| :: ',' !in m.options[i]
  }

  /** White space and the backslash are escaped wherever they occur. */
  ghost predicate Covers(escaped: char -> bool, s: string) {
    forall i | 0 <= i < |s| && (IsWhite(s[i]) || s[i] == '\\') :: escaped(s[i])
  }

  lemma EscapeBytesAreWords(b: Bytes)
    requires b != []
    ensures IsWord(EscapeBytes(b))
  {
  }

  lemma {:induction false} EscapedIsWord(s: string, escaped: char -> bool)
    requires Covers(escaped, s)
    ensures if s == "" then Escape(s, escaped) == "" else IsWord(Escape(s, escaped))
  {
    if s != "" {
      EscapedIsWord(s[1..], escaped);
      if escaped(s[0]) {
        EscapeBytesAreWords(EncodeChar(s[0]));
      }
    }
  }

  lemma PathFieldOfEscaped(path: string, escaped: char -> bool)
    requires Covers(escaped, path)
    ensures PathField(Escape(path, escaped)) == Ok(path)
  {
    UnescapeEscape(path, escaped);
    DecodeEncode(path);
  }

  /** `extra` may follow the four fields: a dump and a pass number, then anything. */
  ghost predicate ExtraFields(extra: seq<string>) {
    && (forall i | 0 <= i < |extra| :: IsWord(extra[i]))
    && (forall i | 0 <= i < |extra| && i < 2 :: ParseI32(extra[i]).Some?)
  }

  lemma GoodParts(parts: seq<string>, source: string, dest: string, device: string -> Result<string, MountError>)
    requires |parts| >= 4
    requires forall i | 4 <= i < |parts| && i < 6 :: ParseI32(parts[i]).Some?
    requires PathField(parts[0]) == Ok(source) && !StartsWith(source, DISK_BY)
    requires PathField(parts[1]) == Ok(dest)
    ensures FromParts(parts, device) == Ok(MountInfo(source, dest, parts[2], Split(parts[3], ',')))
  {
  }

  lemma PartsRoundTrip(
      m: MountInfo, escaped: char -> bool, extra: seq<string>, device: string -> Result<string, MountError>)
    requires PlainFields(m) && Covers(escaped, m.source) && Covers(escaped, m.dest) && ExtraFields(extra)
    requires !StartsWith(m.source, DISK_BY)
    ensures FromParts(Fields(m, escaped) + extra, device) == Ok(m)
  {
    var words := Fields(m, escaped) + extra;
    PathFieldOfEscaped(m.source, escaped);
    PathFieldOfEscaped(m.dest, escaped);
    SplitJoin(m.options, ',');
    assert forall i | 4 <= i < |words| && i < 6 :: words[i] == extra[i - 4];
    GoodParts(words, m.source, m.dest, device);
  }

  /**
   * A line written with non-empty paths, escaped where need be, is read back exactly, whatever follows the four
   * fields.
   */
  lemma LineRoundTrip(
      m: MountInfo, escaped: char -> bool, extra: seq<string>, trailing: string,
      device: string -> Result<string, MountError>)
    requires PlainFields(m) && Covers(escaped, m.source) && Covers(escaped, m.dest) && ExtraFields(extra)
    requires !StartsWith(m.source, DISK_BY) && m.source != "" && m.dest != ""
    requires forall i | 0 <= i < |trailing| :: IsWhite(trailing[i])
    ensures FromStr(Join(Fields(m, escaped) + extra, ' ') + trailing, device) == Ok(m)
  {
    EscapedIsWord(m.source, escaped);
    EscapedIsWord(m.dest, escaped);
    WordsOfJoined(Fields(m, escaped) + extra, trailing);
    PartsRoundTrip(m, escaped, extra, device);
  }

  /** A source under /dev/disk/by- is read as the device that it names, and the line fails if there is none. */
  lemma DiskLineRoundTrip(
      m: MountInfo, escaped: char -> bool, extra: seq<string>, trailing: string,
      device: string -> Result<string, MountError>)
    requires PlainFields(m) && Covers(escaped, m.source) && Covers(escaped, m.dest) && ExtraFields(extra)
    requires StartsWith(m.source, "/dev/disk/by-") && m.dest != ""
    requires forall i | 0 <= i < |trailing| :: IsWhite(trailing[i])
    ensures FromStr(Join(Fields(m, escaped) + extra, ' ') + trailing, device)
            == match device(m.source)
               case Ok(source) => Ok(m.(source := source))
               case Err(e) => Err(e)
  {
    EscapedIsWord(m.source, escaped);
    EscapedIsWord(m.dest, escaped);
    WordsOfJoined(Fields(m, escaped) + extra, trailing);
    DiskPartsRoundTrip(m, escaped, extra, device);
  }

  lemma DiskPartsRoundTrip(
      m: MountInfo, escaped: char -> bool, extra: seq<string>, device: string -> Result<string, MountError>)
    requires PlainFields(m) && Covers(escaped, m.source) && Covers(escaped, m.dest) && ExtraFields(extra)
    requires StartsWith(m.source, "/dev/disk/by-")
    ensures FromParts(Fields(m, escaped) + extra, device)
            == match device(m.source)
               case Ok(source) => Ok(m.(source := source))
               case Err(e) => Err(e)
  {
    hide PathField, Escape;
    var words := Fields(m, escaped) + extra;
    PathFieldOfEscaped(m.source, escaped);
    PathFieldOfEscaped(m.dest, escaped);
    SplitJoin(m.options, ',');
    assert forall i | 4 <= i < |words| && i < 6 :: words[i] == extra[i - 4];
  }

  /** Dump and pass numbers are decimal i32, with a plus sign or not. */
  lemma NumbersReadBack(i: int)
    ensures ParseI32(Decimal.Integer(i)) == if -0x8000_0000 <= i <= 0x7fff_ffff then Some(i) else None
    ensures i >= 0 ==> ParseI32("+" + Decimal.Integer(i)) == ParseI32(Decimal.Integer(i))
  {
    if i < 0 {
      assert Decimal.Integer(i)[1..] == Decimal.Natural(-i);
    } else {
      var s := Decimal.Natural(i);
      assert Decimal.IsDigit(s[0]);
      assert ("+" + s)[1..] == s;
    }
  }

  /** A line with fewer than four fields, or with a dump or pass field that is no number, is refused for that. */
  lemma BadFieldsAreRefused(words: seq<string>, trailing: string, device: string -> Result<string, MountError>)
    requires words != [] && forall i | 0 <= i < |words| :: IsWord(words[i])
    requires forall i | 0 <= i < |trailing| :: IsWhite(trailing[i])
    ensures var r := FromStr(Join(words, ' ') + trailing, device);
            && (|words| < 4 ==> r == Err(MissingField(|words|)))
            && (|words| > 4 && ParseI32(words[4]).None? ==> r == Err(NotANumber(4)))
            && (|words| > 5 && ParseI32(words[4]).Some? && ParseI32(words[5]).None? ==> r == Err(NotANumber(5)))
  {
    WordsOfJoined(words, trailing);
  }

  lemma WordIsNonEmptyPath(word: string)
    requires word != "" && PathField(word).Ok?
    ensures PathField(word).value != ""
  {
  }

  /**
   * The paths must be non-empty: no line at all reads as an empty destination, nor, unless a device lookup
   * gives one, as an empty source.
   */
  lemma NoLineHasEmptyPath(line: string, device: string -> Result<string, MountError>)
    requires FromStr(line, device).Ok?
    ensures FromStr(line, device).value.dest != ""
    ensures FromStr(line, device).value.source != ""
            || exists path :: StartsWith(path, DISK_BY) && device(path) == Ok("")
  {
    var parts := Words(line);
    assert parts[0] in parts && parts[1] in parts;
    WordIsNonEmptyPath(parts[0]);
    WordIsNonEmptyPath(parts[1]);
  }

  /** `Display` writes the paths as they are. */
  function Display(m: MountInfo): string {
    m.source + " " + m.dest + " " + m.fstype + " " + (if m.options == [] then "defaults" else Join(m.options, ','))
  }

  lemma {:induction false} EscapeNothing(s: string)
    ensures Escape(s, _ => false) == s
  {
    if s != "" {
      EscapeNothing(s[1..]);
    }
  }

  /**
   * So displaying and reading back is the identity on paths that need no escape; no options read back as the
   * word "defaults".
   */
  lemma DisplayRoundTrip(m: MountInfo, device: string -> Result<string, MountError>)
    requires IsWord(m.source) && '\\' !in m.source && IsWord(m.dest) && '\\' !in m.dest
    requires !StartsWith(m.source, DISK_BY)
    requires m.options == [] ==> IsWord(m.fstype)
    requires m.options != [] ==> PlainFields(m)
    ensures FromStr(Display(m), device) == Ok(if m.options == [] then m.(options := ["defaults"]) else m)
  {
    var shown := if m.options == [] then m.(options := ["defaults"]) else m;
    var plain := _ => false;
    EscapeNothing(m.source);
    EscapeNothing(m.dest);
    LineRoundTrip(shown, plain, [], "", device);
    var f := Fields(shown, plain);
    assert f + [] == f;
    JoinFour(f[0], f[1], f[2], f[3]);
    assert Join(f, ' ') + "" == Display(m);
  }

  lemma JoinFour(a: string, b: string, c: string, d: string)
    ensures Join([a, b, c, d], ' ') == a + " " + b + " " + c + " " + d
  {
    assert [a, b, c, d][1..] == [b, c, d] && [b, c, d][1..] == [c, d] && [c, d][1..] == [d];
    assert Join([c, d], ' ') == c + " " + d;
    assert Join([b, c, d], ' ') == b + " " + (c + " " + d);
  }

  // ---- the iterator ----

  /** What reading one line gives: its text, or an error. */
  datatype LineRead = Line(text: string) | Broken(why: string)

  function TrimStart(s: string): string {
    if s != "" && IsWhite(s[0]) then TrimStart(s[1..]) else s
  }

  predicate IsSkipped(text: string) {
    var line := TrimStart(text);
    line == "" || line[0] == '#'
  }

  function Item(read: LineRead, device: string -> Result<string, MountError>): Result<MountInfo, MountError> {
    match read
    case Line(text) => FromStr(TrimStart(text), device)
    case Broken(why) => Err(Io(why))
  }

  /** What the iterator yields in all: one item for each line that is not blank and not a comment, in order. */
  function Items(
      lines: seq<LineRead>, device: string -> Result<string, MountError>): seq<Result<MountInfo, MountError>>
  {
    if lines == [] then []
    else
      (if lines[0].Line? && IsSkipped(lines[0].text) then [] else [Item(lines[0], device)])
      + Items(lines[1..], device)
  }

  lemma {:induction false} TrimsWhite(leading: string, s: string)
    requires forall i | 0 <= i < |leading| :: IsWhite(leading[i])
    requires s == "" || !IsWhite(s[0])
    ensures TrimStart(leading + s) == s
  {
    if leading == "" {
      assert leading + s == s;
    } else {
      TrimsWhite(leading[1..], s);
      assert (leading + s)[1..] == leading[1..] + s;
    }
  }

  /** A line of a written table. */
  datatype TableLine =
    | Entry(leading: string, m: MountInfo, escaped: char -> bool, extra: seq<string>, trailing: string)
    | Blank(white: string)
    | Comment(leading: string, remark: string)

  ghost predicate AllWhite(s: string) {
    forall i | 0 <= i < |s| :: IsWhite(s[i])
  }

  /** Entries are written so that they can be read back; blank lines and comments may begin with white space. */
  ghost predicate WellWritten(line: TableLine) {
    match line
    case Entry(leading, m, escaped, extra, trailing) =>
      && AllWhite(leading) && AllWhite(trailing) && PlainFields(m) && ExtraFields(extra)
      && Covers(escaped, m.source) && Covers(escaped, m.dest) && m.source != "" && m.dest != ""
      && !StartsWith(m.source, DISK_BY)
    case Blank(white) => AllWhite(white)
    case Comment(leading, _) => AllWhite(leading)
  }

  function Written(line: TableLine): string {
    match line
    case Entry(leading, m, escaped, extra, trailing) => leading + (Join(Fields(m, escaped) + extra, ' ') + trailing)
    case Blank(white) => white
    case Comment(leading, remark) => leading + ("#" + remark)
  }

  /** An entry is taken for a comment if its source is written with a '#' in front. */
  predicate LooksLikeComment(line: TableLine) {
    line.Entry? && StartsWith(Escape(line.m.source, line.escaped), "#")
  }

  function EntriesOf(table: seq<TableLine>): seq<MountInfo> {
    if table == [] then []
    else (if table[0].Entry? && !LooksLikeComment(table[0]) then [table[0].m] else []) + EntriesOf(table[1..])
  }

  function LinesOf(table: seq<TableLine>): seq<LineRead> {
    if table == [] then [] else [Line(Written(table[0]))] + LinesOf(table[1..])
  }

  function Good(entries: seq<MountInfo>): seq<Result<MountInfo, MountError>> {
    if entries == [] then [] else [Ok(entries[0])] + Good(entries[1..])
  }

  lemma {:induction false} JoinBegins(words: seq<string>, sep: char)
    requires words != [] && words[0] != ""
    ensures Join(words, sep) != "" && Join(words, sep)[0] == words[0][0]
  {
  }

  /** One line: a well-written entry gives itself, unless it looks like a comment; nothing else gives anything. */
  lemma LineYields(line: TableLine, rest: seq<LineRead>, device: string -> Result<string, MountError>)
    requires WellWritten(line)
    ensures Items([Line(Written(line))] + rest, device)
            == if line.Entry? && !LooksLikeComment(line) then [Ok(line.m)] + Items(rest, device)
               else Items(rest, device)
  {
    hide FromStr, TrimStart, Escape, Join;
    var lines := [Line(Written(line))] + rest;
    assert lines[1..] == rest;
    match line {
      case Entry(leading, m, escaped, extra, trailing) =>
        var words := Fields(m, escaped) + extra;
        var text := Join(words, ' ') + trailing;
        EscapedIsWord(m.source, escaped);
        JoinBegins(words, ' ');
        TrimsWhite(leading, text);
        LineRoundTrip(m, escaped, extra, trailing, device);
      case Blank(white) =>
        TrimsWhite(white, "");
        assert white + "" == white;
      case Comment(leading, remark) =>
        TrimsWhite(leading, "#" + remark);
    }
  }

  /** A written table, blank lines and comments anywhere in it, reads back as exactly its entries, in order. */
  lemma {:induction false} TableReadsBack(table: seq<TableLine>, device: string -> Result<string, MountError>)
    requires forall i | 0 <= i < |table| :: WellWritten(table[i])
    ensures Items(LinesOf(table), device) == Good(EntriesOf(table))
  {
    hide WellWritten, Written, LooksLikeComment;
    if table != [] {
      TableReadsBack(table[1..], device);
      LineYields(table[0], LinesOf(table[1..]), device);
      var entries, later := EntriesOf(table), EntriesOf(table[1..]);
      assert if table[0].Entry? && !LooksLikeComment(table[0]) then entries[0] == table[0].m && entries[1..] == later
             else entries == later;
    }
  }

  /** A line that cannot be read is one error, wherever it stands; the lines around it are read all the same. */
  lemma {:induction false} BrokenLineIsOneError(
      before: seq<LineRead>, why: string, rest: seq<LineRead>, device: string -> Result<string, MountError>)
    ensures Items(before + [Broken(why)] + rest, device)
            == Items(before, device) + [Err(Io(why))] + Items(rest, device)
  {
    var lines := before + [Broken(why)] + rest;
    if before == [] {
      assert lines[1..] == rest;
    } else {
      BrokenLineIsOneError(before[1..], why, rest, device);
      assert lines[1..] == before[1..] + [Broken(why)] + rest;
    }
  }

  class MountIter {
    const device: string -> Result<string, MountError>
    var file: seq<LineRead>
    var buffer: string

    constructor (file: seq<LineRead>, device: string -> Result<string, MountError>)
      ensures this.file == file && this.device == device
    {
      this.file, this.device, buffer := file, device, "";
    }

    method Next() returns (item: Option<Result<MountInfo, MountError>>)
      modifies this
      ensures Items(old(file), device) == (if item.Some? then [item.value] else []) + Items(file, device)
      ensures item.None? ==> file == []
      ensures item.Some? ==> |file| < |old(file)|
    {
      while true
        invariant Items(file, device) == Items(old(file), device) && |file| <= |old(file)|
        decreases |file|
      {
        buffer := "";
        if file == [] {
          return None;
        }
        var read := file[0];
        file := file[1..];
        match read
        case Line(text) =>
          buffer := buffer + text;
          assert buffer == text;
          var line := TrimStart(buffer);
          if !(line == "" || line[0] == '#') {
            return Some(FromStr(line, device));
          }
        case Broken(why) =>
          return Some(Err(Io(why)));
      }
    }
  }

  /** The first entry of the source decides; an error before it is returned. `same` is path equality. */
  function FirstMount(
      items: seq<Result<MountInfo, MountError>>, source: string, path: string, same: (string, string) -> bool)
    : Result<bool, MountError>
  {
    if items == [] then Ok(false)
    else
      match items[0]
      case Err(e) => Err(e)
      case Ok(m) =>
        if same(m.source, source) then Ok(same(m.dest, path)) else FirstMount(items[1..], source, path, same)
  }

  method SourceMountedAt(mounts: MountIter, source: string, path: string, same: (string, string) -> bool)
    returns (r: Result<bool, MountError>)
    modifies mounts
    ensures r == FirstMount(Items(old(mounts.file), mounts.device), source, path, same)
  {
    var isFound := false;
    while true
      invariant FirstMount(Items(mounts.file, mounts.device), source, path, same)
             == FirstMount(Items(old(mounts.file), mounts.device), source, path, same)
      decreases |mounts.file|
    {
      ghost var items := Items(mounts.file, mounts.device);
      var item := mounts.Next();
      if item.None? {
        break;
      }
      assert items[0] == item.value && items[1..] == Items(mounts.file, mounts.device);
      match item.value
      case Err(e) => return Err(e);
      case Ok(mount) =>
        if same(mount.source, source) {
          isFound := same(mount.dest, path);
          return Ok(isFound);
        }
    }
    r := Ok(isFound);
  }

  /** All that is assumed of path equality. */
  ghost predicate IsEquivalence(same: (string, string) -> bool) {
    && (forall a :: same(a, a))
    && (forall a, b | same(a, b) :: same(b, a))
    && (forall a, b, c | same(a, b) && same(b, c) :: same(a, c))
  }

  /** The `i`-th item is an entry of the source. */
  predicate IsEntry(items: seq<Result<MountInfo, MountError>>, source: string, same: (string, string) -> bool, i: nat) {
    i < |items| && items[i].Ok? && same(items[i].value.source, source)
  }

  /** Some entry of the source has the path. */
  ghost predicate Mounted(
      items: seq<Result<MountInfo, MountError>>, source: string, path: string, same: (string, string) -> bool)
  {
    exists i: nat :: IsEntry(items, source, same, i) && same(items[i].value.dest, path)
  }

  ghost predicate OneDestination(
      items: seq<Result<MountInfo, MountError>>, source: string, same: (string, string) -> bool)
  {
    forall i: nat, j: nat | IsEntry(items, source, same, i) && IsEntry(items, source, same, j) ::
      same(items[i].value.dest, items[j].value.dest)
  }

  /** No error comes before the first entry of the source. */
  ghost predicate ReachesEntry(
      items: seq<Result<MountInfo, MountError>>, source: string, same: (string, string) -> bool)
  {
    forall i | 0 <= i < |items| && items[i].Err? :: exists j | 0 <= j < i :: IsEntry(items, source, same, j)
  }

  /** The first item that is an entry of the source or an error, with nothing but other sources before it. */
  ghost predicate IsFirst(
      items: seq<Result<MountInfo, MountError>>, source: string, same: (string, string) -> bool, f: nat)
  {
    && f < |items| && (items[f].Ok? ==> IsEntry(items, source, same, f))
    && forall j | 0 <= j < f :: items[j].Ok? && !IsEntry(items, source, same, j)
  }

  lemma {:induction false} FirstOrNone(
      items: seq<Result<MountInfo, MountError>>, source: string, same: (string, string) -> bool)
    returns (f: nat)
    ensures IsFirst(items, source, same, f)
            || forall i | 0 <= i < |items| :: items[i].Ok? && !IsEntry(items, source, same, i)
  {
    f := 0;
    if items != [] && items[0].Ok? && !IsEntry(items, source, same, 0) {
      var rest := FirstOrNone(items[1..], source, same);
      f := rest + 1;
      assert forall i | 0 < i < |items| :: items[i] == items[1..][i - 1];
      assert forall i: nat | 0 < i :: IsEntry(items, source, same, i) <==> IsEntry(items[1..], source, same, i - 1);
    }
  }

  /** That item decides. */
  lemma {:induction false} FirstMountDecides(
      items: seq<Result<MountInfo, MountError>>, source: string, path: string, same: (string, string) -> bool, f: nat)
    requires IsFirst(items, source, same, f)
    ensures FirstMount(items, source, path, same)
            == if items[f].Ok? then Ok(same(items[f].value.dest, path)) else Err(items[f].error)
  {
    if f > 0 {
      assert !IsEntry(items, source, same, 0);
      assert forall j: nat | 0 < j :: IsEntry(items, source, same, j) <==> IsEntry(items[1..], source, same, j - 1);
      FirstMountDecides(items[1..], source, path, same, f - 1);
    }
  }

  lemma {:induction false} NoEntryNoMount(
      items: seq<Result<MountInfo, MountError>>, source: string, path: string, same: (string, string) -> bool)
    requires forall i | 0 <= i < |items| :: items[i].Ok? && !IsEntry(items, source, same, i)
    ensures FirstMount(items, source, path, same) == Ok(false)
  {
    if items != [] {
      assert !IsEntry(items, source, same, 0);
      assert forall j: nat | 0 < j :: IsEntry(items, source, same, j) <==> IsEntry(items[1..], source, same, j - 1);
      NoEntryNoMount(items[1..], source, path, same);
    }
  }

  /**
   * "Is the source mounted at the path" is answered rightly for every path exactly when no error comes
   * before the first entry of the source and all its entries agree on where, whatever path equality is.
   */
  lemma FirstMountIsExact(items: seq<Result<MountInfo, MountError>>, source: string, same: (string, string) -> bool)
    requires IsEquivalence(same)
    ensures (forall path :: FirstMount(items, source, path, same) == Ok(Mounted(items, source, path, same)))
            <==> ReachesEntry(items, source, same) && OneDestination(items, source, same)
  {
    var f := FirstOrNone(items, source, same);
    if IsFirst(items, source, same, f) {
      forall path ensures FirstMount(items, source, path, same)
                          == if items[f].Ok? then Ok(same(items[f].value.dest, path)) else Err(items[f].error)
      {
        FirstMountDecides(items, source, path, same, f);
      }
      if items[f].Ok? {
        FirstEntryIsExact(items, source, same, f);
      } else {
        assert FirstMount(items, source, source, same).Err?;
        assert !ReachesEntry(items, source, same);
      }
    } else {
      forall path ensures FirstMount(items, source, path, same) == Ok(false) && !Mounted(items, source, path, same) {
        NoEntryNoMount(items, source, path, same);
      }
    }
  }

  /** The first entry speaks for all exactly when they have one destination. */
  lemma FirstEntryIsExact(
      items: seq<Result<MountInfo, MountError>>, source: string, same: (string, string) -> bool, f: nat)
    requires IsEquivalence(same) && IsFirst(items, source, same, f) && items[f].Ok?
    ensures ReachesEntry(items, source, same)
    ensures (forall path :: same(items[f].value.dest, path) == Mounted(items, source, path, same))
            <==> OneDestination(items, source, same)
  {
    var first := items[f].value.dest;
    if OneDestination(items, source, same) {
      forall path ensures same(first, path) == Mounted(items, source, path, same) {
        if i: nat :| IsEntry(items, source, same, i) && same(items[i].value.dest, path) {
          assert same(first, items[i].value.dest);
        }
      }
    } else {
      var i: nat, j: nat :| IsEntry(items, source, same, i) && IsEntry(items, source, same, j)
                            && !same(items[i].value.dest, items[j].value.dest);
      assert Mounted(items, source, items[i].value.dest, same) && Mounted(items, source, items[j].value.dest, same);
      assert !(same(first, items[i].value.dest) && same(first, items[j].value.dest));
    }
  }

  /** With two destinations, being mounted at the second is denied. */
  lemma SecondMountIsDenied(first: MountInfo, second: MountInfo, same: (string, string) -> bool)
    requires IsEquivalence(same) && same(first.source, second.source) && !same(first.dest, second.dest)
    ensures var items := [Ok(first), Ok(second)];
            && Mounted(items, second.source, second.dest, same)
            && FirstMount(items, second.source, second.dest, same) == Ok(false)
  {
    var items := [Ok(first), Ok(second)];
    assert IsEntry(items, second.source, same, 1);
  }
}
