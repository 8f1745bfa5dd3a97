/** version-info/src/git_utils.rs: the `git describe` parser. */
module GitVersions {
  import opened Wrappers
  import opened Text

  // ---- the regular expression ----

  /** The parts of an anchored pattern. */
  datatype Item =
    | AnyPlus            // (.+), captured, greedy
    | Literal(text: string)
    | HexDigits(n: nat)  // ([0-9a-f]{n}), captured
    | End                // $

  /** `^(.+)-(.+)-g([0-9a-f]{12})$` */
  const PATTERN: seq<Item> := [AnyPlus, Literal("-"), AnyPlus, Literal("-g"), HexDigits(12), End]

  predicate IsHex(c: char) {
    '0' <= c <= '9' || 'a' <= c <= 'f'
  }

  predicate AllHex(s: string) {
    forall i | 0 <= i < |s| :: IsHex(s[i])
  }

  lemma HexDigitsAre(s: string)
    ensures AllHex(s) <==> forall c | c in s :: c in "0123456789abcdef"
  {
    forall i | 0 <= i < |s| ensures IsHex(s[i]) <==> s[i] in "0123456789abcdef" {
    }
  }

  /** `.` matches anything but a line feed. */
  predicate OneLine(s: string) {
    '\n' !in s
  }

  /**
   * Leftmost-first matching by backtracking: the captures of the first match in the order of
   * preference, a greedy repetition preferring more to less.
   */
  function Match(items: seq<Item>, s: string): Option<seq<string>>
    decreases |items|, 0, |s|
  {
    if items == [] then Some([])
    else
      match items[0]
      case AnyPlus => MatchAny(items[1..], s, LineLength(s))
      case Literal(text) => if StartsWith(s, text) then Match(items[1..], s[|text|..]) else None
      case HexDigits(n) =>
        if n <= |s| && AllHex(s[..n]) then Capture(s[..n], Match(items[1..], s[n..])) else None
      case End => if s == "" then Match(items[1..], s) else None
  }

  /** A greedy repetition of at most `n` characters: the longest one that lets the rest match. */
  function MatchAny(rest: seq<Item>, s: string, n: nat): Option<seq<string>>
    requires n <= |s|
    decreases |rest|, 1, n
  {
    if n == 0 then None
    else
      match Match(rest, s[n..])
      case Some(captures) => Some([s[..n]] + captures)
      case None => MatchAny(rest, s, n - 1)
  }

  function Capture(text: string, r: Option<seq<string>>): Option<seq<string>> {
    match r
    case None => None
    case Some(captures) => Some([text] + captures)
  }

  function LineLength(s: string): (n: nat)
    ensures n <= |s| && OneLine(s[..n]) && (n < |s| ==> s[n] == '\n')
  {
    if s == "" || s[0] == '\n' then 0
    else
      var n := 1 + LineLength(s[1..]);
      assert s[..n] == [s[0]] + s[1..][..n - 1];
      n
  }

  // ---- what it matches ----

  /** A reading of the text as a tag, a count of commits and a hash. */
  predicate Reads(s: string, tag: string, count: string, hash: string) {
    && s == tag + "-" + count + "-g" + hash
    && tag != "" && OneLine(tag) && count != "" && OneLine(count)
    && |hash| == 12 && AllHex(hash)
  }

  /** The last part of the pattern, after the tag and its dash. */
  const REST: seq<Item> := [AnyPlus, Literal("-g"), HexDigits(12), End]

  const TAIL: seq<Item> := [Literal("-g"), HexDigits(12), End]

  lemma MatchTail(s: string)
    ensures Match(TAIL, s) == if |s| == 14 && StartsWith(s, "-g") && AllHex(s[2..]) then Some([s[2..]]) else None
  {
    assert TAIL[1..] == [HexDigits(12), End] && [HexDigits(12), End][1..] == [End] && [End][1..] == [];
    if StartsWith(s, "-g") {
      var t := s[2..];
      assert Match(TAIL, s) == Match([HexDigits(12), End], t);
      if 12 <= |t| {
        MatchHexEnd(t);
      }
    }
  }

  lemma MatchHexEnd(t: string)
    requires 12 <= |t|
    ensures Match([HexDigits(12), End], t) == if |t| == 12 && AllHex(t) then Some([t]) else None
  {
    assert [HexDigits(12), End][1..] == [End] && [End][1..] == [];
    assert Match([End], t[12..]) == if t[12..] == "" then Some([]) else None;
    if |t| == 12 {
      assert t[..12] == t;
      assert [t] + [] == [t];
    }
  }

  /** The greedy repetition finds the longest prefix that the rest can follow; `k` is its length, if there is one. */
  lemma {:induction false} GreedyFindsLongest(rest: seq<Item>, s: string, n: nat) returns (k: nat)
    requires n <= |s|
    ensures k <= n && (MatchAny(rest, s, n).Some? <==> k > 0)
    ensures k > 0 ==> Match(rest, s[k..]).Some? && MatchAny(rest, s, n).value == [s[..k]] + Match(rest, s[k..]).value
    ensures forall i | k < i <= n :: Match(rest, s[i..]).None?
  {
    if n == 0 || Match(rest, s[n..]).Some? {
      k := n;
    } else {
      k := GreedyFindsLongest(rest, s, n - 1);
    }
  }

  /** What stands before the last fourteen characters can be taken up to its end, but not over a line end. */
  lemma LineReaches(s: string, k: nat)
    requires k <= |s|
    ensures k <= LineLength(s) <==> OneLine(s[..k])
  {
  }

  predicate EndsInHash(s: string) {
    |s| > 14 && OneLine(s[..|s| - 14]) && StartsWith(s[|s| - 14..], "-g") && AllHex(s[|s| - 12..])
  }

  /** After the tag, the count is whatever stands before the last fourteen characters. */
  lemma MatchRest(s: string)
    ensures Match(REST, s) == if EndsInHash(s) then Some([s[..|s| - 14], s[|s| - 12..]]) else None
  {
    assert REST[1..] == TAIL;
    if EndsInHash(s) {
      LineReaches(s, |s| - 14);
      MatchTail(s[|s| - 14..]);
      assert s[|s| - 14..][2..] == s[|s| - 12..];
    }
    var k := GreedyFindsLongest(TAIL, s, LineLength(s));
    if k > 0 {
      MatchTail(s[k..]);
      LineReaches(s, k);
      assert s[k..][2..] == s[|s| - 12..];
      assert [s[..k]] + [s[|s| - 12..]] == [s[..k], s[|s| - 12..]];
    }
  }

  /** The whole pattern: the captures are a reading, and no reading has a longer tag. */
  lemma MatchIsLongestReading(s: string)
    ensures var r := Match(PATTERN, s);
            && (r.Some? ==>
                  |r.value| == 3 && Reads(s, r.value[0], r.value[1], r.value[2]))
            && (forall tag, count, hash | Reads(s, tag, count, hash) :: r.Some? && |tag| <= |r.value[0]|)
  {
    MatchIsReading(s);
    forall tag, count, hash | Reads(s, tag, count, hash)
      ensures Match(PATTERN, s).Some? && |tag| <= |Match(PATTERN, s).value[0]|
    {
      ReadingIsMatched(s, tag, count, hash);
    }
  }

  lemma AfterTag(s: string, k: nat)
    requires k <= |s|
    ensures Match(PATTERN[1..], s[k..]) == if k < |s| && s[k] == '-' then Match(REST, s[k + 1..]) else None
  {
  }

  lemma MatchIsReading(s: string)
    ensures Match(PATTERN, s).Some? ==>
              && |Match(PATTERN, s).value| == 3
              && Reads(s, Match(PATTERN, s).value[0], Match(PATTERN, s).value[1], Match(PATTERN, s).value[2])
  {
    var k := GreedyFindsLongest(PATTERN[1..], s, LineLength(s));
    if k > 0 {
      AfterTag(s, k);
      MatchRest(s[k + 1..]);
      LineReaches(s, k);
      PartsMakeReading(s, k);
    }
  }

  lemma PartsMakeReading(s: string, k: nat)
    requires 0 < k < |s| && s[k] == '-' && OneLine(s[..k]) && EndsInHash(s[k + 1..])
    ensures var t := s[k + 1..]; Reads(s, s[..k], t[..|t| - 14], t[|t| - 12..])
  {
  }

  lemma ReadingIsMatched(s: string, tag: string, count: string, hash: string)
    requires Reads(s, tag, count, hash)
    ensures Match(PATTERN, s).Some? && Match(PATTERN, s).value != [] && |tag| <= |Match(PATTERN, s).value[0]|
  {
    var k := |tag|;
    var t := s[k + 1..];
    assert t == count + "-g" + hash;
    assert t[..|t| - 14] == count && t[|t| - 12..] == hash && t[|t| - 14..][..2] == "-g";
    MatchRest(t);
    AfterTag(s, k);
    assert s[k] == '-' && s[..k] == tag;
    LineReaches(s, k);
    var longest := GreedyFindsLongest(PATTERN[1..], s, LineLength(s));
  }

  // ---- the parser ----

  datatype GitVersion = GitVersion(commitHash: string, tag: Option<string>, numCommits: Option<string>)

  function ParseGitVer(gitVer: string): GitVersion {
    match Match(PATTERN, gitVer)
    case Some(c) => if |c| == 3 then GitVersion(c[2], Some(c[0]), Some(c[1])) else GitVersion(gitVer, None, None)
    case None => GitVersion(gitVer, None, None)
  }

  /** How `git describe --long` writes the parts; without a tag, the hash alone. */
  function Describe(v: GitVersion): string {
    if v.tag.Some? && v.numCommits.Some? then v.tag.value + "-" + v.numCommits.value + "-g" + v.commitHash
    else v.commitHash
  }

  /** Printing the parsed parts gives every input back. */
  lemma DescribeOfParsed(s: string)
    ensures Describe(ParseGitVer(s)) == s
  {
    MatchIsLongestReading(s);
  }

  /** A text is split into parts exactly when some reading of it exists. */
  lemma ParsedExactlyReadable(s: string)
    ensures ParseGitVer(s).tag.Some? <==> exists tag, count, hash :: Reads(s, tag, count, hash)
  {
    MatchIsLongestReading(s);
  }

  lemma SameHash(s: string, tag: string, count: string, hash: string, t2: string, c2: string, h2: string)
    requires Reads(s, tag, count, hash) && Reads(s, t2, c2, h2)
    ensures hash == h2 && tag + "-" + count == t2 + "-" + c2
  {
    assert hash == s[|s| - 12..] && h2 == s[|s| - 12..];
    assert tag + "-" + count == s[..|s| - 14] && t2 + "-" + c2 == s[..|s| - 14];
  }

  /**
   * What `git describe --long` prints is taken apart exactly, dashes and "-g" in the tag or not: only the count
   * must have no dash.
   */
  lemma ParseOfDescribed(tag: string, count: string, hash: string)
    requires tag != "" && OneLine(tag)
    requires count != "" && OneLine(count) && '-' !in count
    requires |hash| == 12 && AllHex(hash)
    ensures ParseGitVer(tag + "-" + count + "-g" + hash) == GitVersion(hash, Some(tag), Some(count))
  {
    var s := tag + "-" + count + "-g" + hash;
    assert Reads(s, tag, count, hash);
    MatchIsLongestReading(s);
    var c := Match(PATTERN, s).value;
    SameHash(s, tag, count, hash, c[0], c[1], c[2]);
    var p := tag + "-" + count;
    assert p == c[0] + "-" + c[1];
    assert p[|c[0]|] == '-';
    assert forall i | |tag| < i < |p| :: p[i] == count[i - |tag| - 1];
    assert c[0] == p[..|tag|] == tag;
    assert c[1] == p[|tag| + 1..] == count;
  }
}
