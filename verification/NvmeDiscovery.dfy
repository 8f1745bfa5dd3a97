/** nvmeadm/src/nvmf_discovery.rs: the log page command, the discovery records and the connection string. */
module NvmeDiscoveries {
  import opened Wrappers
  import opened Text
  import Decimal
  import NvmeAddresses

  type TrType = NvmeAddresses.TrType

  // ---- bits, one at a time ----

  function BitOr(a: nat, b: nat): nat
    decreases a + b
  {
    if a == 0 then b
    else if b == 0 then a
    else 2 * BitOr(a / 2, b / 2) + (if a % 2 == 1 || b % 2 == 1 then 1 else 0)
  }

  function ShiftLeft(n: nat, k: nat): nat
    decreases k, n
  {
    if k == 0 then n else 2 * ShiftLeft(n, k - 1)
  }

  function ShiftRight(n: nat, k: nat): nat
    decreases k, n
  {
    if k == 0 then n else ShiftRight(n / 2, k - 1)
  }

  /** The lowest `k` bits: a mask of `k` ones. */
  function LowBits(n: nat, k: nat): nat
    decreases k, n
  {
    if k == 0 then 0 else 2 * LowBits(n / 2, k - 1) + n % 2
  }

  lemma {:induction false} BitOrZero(a: nat)
    ensures BitOr(a, 0) == a && BitOr(0, a) == a
  {
  }

  /** A field of `k` bits below another number: the two come apart again. */
  lemma {:induction false} FieldsComeApart(low: nat, high: nat, k: nat)
    requires low < ShiftLeft(1, k)
    ensures ShiftRight(BitOr(low, ShiftLeft(high, k)), k) == high
    ensures LowBits(BitOr(low, ShiftLeft(high, k)), k) == low
  {
    var word := BitOr(low, ShiftLeft(high, k));
    if k > 0 {
      FieldsComeApart(low / 2, high, k - 1);
      var above := ShiftLeft(high, k - 1);
      assert ShiftLeft(high, k) == 2 * above;
      assert word / 2 == BitOr(low / 2, above) && word % 2 == low % 2 by {
        BitOrZero(low / 2);
        BitOrZero(above);
      }
    }
  }

  /** Masking and shifting lose nothing: the halves put together are the number. */
  lemma {:induction false} HalvesMakeWhole(n: nat, k: nat)
    ensures BitOr(LowBits(n, k), ShiftLeft(ShiftRight(n, k), k)) == n
    ensures LowBits(n, k) < ShiftLeft(1, k)
  {
    if k > 0 {
      HalvesMakeWhole(n / 2, k - 1);
      var low, above := LowBits(n / 2, k - 1), ShiftLeft(ShiftRight(n / 2, k - 1), k - 1);
      assert LowBits(n, k) == 2 * low + n % 2 && ShiftLeft(ShiftRight(n, k), k) == 2 * above;
      BitOrDoubled(low, above, n % 2);
    }
  }

  lemma BitOrDoubled(low: nat, above: nat, bit: nat)
    requires bit < 2
    ensures BitOr(2 * low + bit, 2 * above) == 2 * BitOr(low, above) + bit
  {
  }

  lemma {:induction false} ShiftTwice(n: nat, j: nat, k: nat)
    ensures ShiftLeft(n, j + k) == ShiftLeft(ShiftLeft(n, k), j)
  {
    if j > 0 {
      ShiftTwice(n, j - 1, k);
    }
  }

  // ---- the log page command ----

  const HEADER_LENGTH: nat := 1024
  const ENTRY_LENGTH: nat := 1024
  const DISCOVERY_LOG: nat := 0x70

  datatype Command = Command(cdw10: nat, cdw11: nat, dptrLen: nat)

  function TotalLength(count: nat): nat {
    HEADER_LENGTH + ENTRY_LENGTH * count
  }

  /**
   * The words of the Get Log Page command for so many records; the casts truncate. None: the length overflows a
   * usize.
   */
  function LogPageCommand(count: u64): Option<Command> {
    var total := TotalLength(count);
    if total > U64_MAX then None
    else Some(CommandWords((total / 4 - 1) % (U32_MAX + 1), total % (U32_MAX + 1)))
  }

  function CommandWords(dwordCount: nat, dptrLen: nat): Command {
    var numdl := LowBits(dwordCount, 16);
    var numdu := ShiftRight(dwordCount, 16);
    Command(BitOr(DISCOVERY_LOG, ShiftLeft(numdl, 16)), numdu, dptrLen)
  }

  /** How a controller reads the command (section 5.14 of NVM Express 1.3): a zero's based count of dwords. */
  function ReadLength(c: Command): nat {
    4 * (BitOr(ShiftRight(c.cdw10, 16), ShiftLeft(c.cdw11, 16)) + 1)
  }

  function ReadLogId(c: Command): nat {
    LowBits(c.cdw10, 8)
  }

  /**
   * The controller is asked for exactly the length computed, for the discovery log, as long
   * as the number of dwords fits in 32 bits; the length of the buffer, a 32-bit field, is right
   * exactly when the length is below 2^32; a length beyond 64 bits is an overflow.
   */
  lemma LogPageLengthIsExact(count: u64)
    ensures var total := TotalLength(count);
            match LogPageCommand(count)
            case None => total > U64_MAX
            case Some(c) =>
              && total <= U64_MAX
              && (ReadLength(c) == total <==> total <= 4 * (U32_MAX + 1))
              && (c.dptrLen == total <==> total <= U32_MAX)
              && ReadLogId(c) == 0x70
  {
    hide CommandWords, ReadLength, ReadLogId;
    var total := TotalLength(count);
    CommandReadsBack((total / 4 - 1) % (U32_MAX + 1), total % (U32_MAX + 1));
    DwordsOf(256 * (count + 1));
  }

  /** With 4 GiB, header included, the length asked for is right but the length of the buffer is cut to nothing. */
  lemma FourGibibytesCutBuffer()
    ensures var count := 4_194_303;
            && TotalLength(count) == 0x1_0000_0000 && LogPageCommand(count).Some?
            && LogPageCommand(count).value.dptrLen == 0
            && ReadLength(LogPageCommand(count).value) == TotalLength(count)
  {
    hide CommandWords, ReadLength, ReadLogId;
    CommandReadsBack(0x3fff_ffff, 0);
  }

  /** The casts lose nothing exactly when the values fit. */
  lemma DwordsOf(dwords: nat)
    requires dwords > 0
    ensures 4 * dwords / 4 == dwords
    ensures (dwords - 1) % (U32_MAX + 1) + 1 == dwords <==> dwords <= U32_MAX + 1
    ensures 4 * dwords % (U32_MAX + 1) == 4 * dwords <==> 4 * dwords <= U32_MAX
  {
  }

  /** Any count of dwords survives the split over the two words, next to the log id. */
  lemma CommandReadsBack(dwordCount: nat, dptrLen: nat)
    ensures var c := CommandWords(dwordCount, dptrLen);
            ReadLength(c) == 4 * (dwordCount + 1) && ReadLogId(c) == 0x70 && c.dptrLen == dptrLen
  {
    CommandWord(LowBits(dwordCount, 16));
    HalvesMakeWhole(dwordCount, 16);
  }

  /** The low half of the count and the log id, in one word, come apart again. */
  lemma CommandWord(numdl: nat)
    ensures var word := BitOr(DISCOVERY_LOG, ShiftLeft(numdl, 16));
            ShiftRight(word, 16) == numdl && LowBits(word, 8) == DISCOVERY_LOG
  {
    LogIdFits();
    FieldsComeApart(DISCOVERY_LOG, numdl, 16);
    ShiftTwice(numdl, 8, 8);
    FieldsComeApart(DISCOVERY_LOG, ShiftLeft(numdl, 8), 8);
  }

  lemma LogIdFits()
    ensures DISCOVERY_LOG < ShiftLeft(1, 8) && DISCOVERY_LOG < ShiftLeft(1, 16)
  {
  }

  // ---- the records ----

  datatype AddressFamily = Pci | Ipv4 | Ipv6 | Ib | FibreChannel
  datatype SubType = DiscoveryController | Nvme

  datatype RawEntry = RawEntry(
    trtype: byte, adrfam: byte, subtype: byte, portid: nat, trsvcid: string, traddr: string, subnqn: string)

  datatype DiscoveryLogEntry = DiscoveryLogEntry(
    trType: TrType, adrFam: AddressFamily, subtype: SubType, portId: nat, trsvcid: string, traddr: string,
    subnqn: string)

  function TrTypeFrom(b: byte): Option<TrType> {
    match b
    case 1 => Some(NvmeAddresses.rdma) case 2 => Some(NvmeAddresses.fc) case 3 => Some(NvmeAddresses.tcp)
    case _ => None
  }

  function AddressFamilyFrom(b: byte): Option<AddressFamily> {
    match b
    case 0 => Some(Pci) case 1 => Some(Ipv4) case 2 => Some(Ipv6) case 3 => Some(Ib) case 4 => Some(FibreChannel)
    case _ => None
  }

  function SubTypeFrom(b: byte): Option<SubType> {
    match b case 1 => Some(DiscoveryController) case 2 => Some(Nvme) case _ => None
  }

  function Decoded(e: RawEntry): Option<DiscoveryLogEntry> {
    var t, a, s := TrTypeFrom(e.trtype), AddressFamilyFrom(e.adrfam), SubTypeFrom(e.subtype);
    if t.None? || a.None? || s.None? then None
    else Some(DiscoveryLogEntry(t.value, a.value, s.value, e.portid, e.trsvcid, e.traddr, e.subnqn))
  }

  /** The codes of the discovery log page (section 5.3 of NVMe over Fabrics 1.0). */
  function TrTypeCode(t: TrType): byte {
    match t
    case rdma => 1
    case fc => 2
    case tcp => 3
  }

  function AddressFamilyCode(a: AddressFamily): byte {
    match a
    case Pci => 0
    case Ipv4 => 1
    case Ipv6 => 2
    case Ib => 3
    case FibreChannel => 4
  }

  function SubTypeCode(s: SubType): byte {
    match s
    case DiscoveryController => 1
    case Nvme => 2
  }

  /** A record as a page holds it. */
  function Raw(e: DiscoveryLogEntry): RawEntry {
    RawEntry(TrTypeCode(e.trType), AddressFamilyCode(e.adrFam), SubTypeCode(e.subtype), e.portId, e.trsvcid, e.traddr,
             e.subnqn)
  }

  /** A raw record decodes to an entry exactly when it is that entry as a page holds it, with every code and text. */
  lemma DecodesExactly(r: RawEntry, e: DiscoveryLogEntry)
    ensures Decoded(r) == Some(e) <==> r == Raw(e)
  {
  }

  /** The records of two pages are those of the first and then of the second; one record gives itself or nothing. */
  lemma {:induction false} DecodedInOrder(first: seq<RawEntry>, second: seq<RawEntry>, r: RawEntry)
    ensures DecodedAll(first + second) == DecodedAll(first) + DecodedAll(second)
    ensures DecodedAll([r]) == if Decoded(r).Some? then [Decoded(r).value] else []
  {
    assert [r][..0] == [];
    if second == [] {
      assert first + second == first;
    } else {
      var n := |second| - 1;
      DecodedInOrder(first, second[..n], r);
      assert (first + second)[..|first + second| - 1] == first + second[..n];
    }
  }

  /** The records whose three codes are known, in page order. */
  function DecodedAll(raw: seq<RawEntry>): seq<DiscoveryLogEntry> {
    if raw == [] then []
    else
      DecodedAll(raw[..|raw| - 1])
      + match Decoded(raw[|raw| - 1]) case None => [] case Some(e) => [e]
  }

  /** A record is collected exactly when some raw record decodes to it; one bad record spoils none of the others. */
  lemma {:induction false} CollectedExactly(raw: seq<RawEntry>, e: DiscoveryLogEntry)
    ensures e in DecodedAll(raw) <==> exists r | r in raw :: Decoded(r) == Some(e)
  {
    if raw != [] {
      var front, last := raw[..|raw| - 1], raw[|raw| - 1];
      CollectedExactly(front, e);
      assert raw == front + [last];
      assert last in raw;
      if e in DecodedAll(front) {
        var r :| r in front && Decoded(r) == Some(e);
        assert r in raw;
      }
    }
  }

  class Discovery {
    var entries: seq<DiscoveryLogEntry>

    constructor ()
      ensures entries == []
    {
      entries := [];
    }

    /** The record loop; records are added to those of an earlier discovery. */
    method AddRecords(raw: seq<RawEntry>)
      modifies this
      ensures entries == old(entries) + DecodedAll(raw)
    {
      assert entries + [] == entries;
      for i := 0 to |raw|
        invariant entries == old(entries) + DecodedAll(raw[..i])
      {
        assert raw[..i + 1][..i] == raw[..i];
        var e := raw[i];
        var trType, adrFam, subtype := TrTypeFrom(e.trtype), AddressFamilyFrom(e.adrfam), SubTypeFrom(e.subtype);
        if trType.None? || adrFam.None? || subtype.None? {
          continue;
        }
        var record := DiscoveryLogEntry(
          trType.value, adrFam.value, subtype.value, e.portid, e.trsvcid, e.traddr, e.subnqn);
        entries := entries + [record];
      }
      assert raw[..|raw|] == raw;
    }
  }

  // ---- the connection string ----

  datatype Connection =
    | Open(instance: u64)
    | InvalidString(piece: string)
    | InvalidInstance(text: string)
    | UnknownToken(key: string)

  /** `str::parse::<u64>` */
  function ParseU64(s: string): Option<u64> {
    var digits := if s != "" && s[0] == '+' then s[1..] else s;
    if digits == "" || !Decimal.AllDigits(digits) || Decimal.Value(digits) > U64_MAX then None
    else Some(Decimal.Value(digits))
  }

  /** The outcome of the pieces: the first instance opens, and everything before it must be a cntlid. */
  function Connect(pieces: seq<string>, whole: string): Connection {
    if pieces == [] then InvalidString(whole)
    else
      var tokens := Split(pieces[0], '=');
      if |tokens| != 2 then InvalidString(pieces[0])
      else if tokens[0] == "instance" then
        match ParseU64(tokens[1])
        case Some(id) => Open(id)
        case None => InvalidInstance(tokens[1])
      else if tokens[0] == "cntlid" then Connect(pieces[1..], whole)
      else UnknownToken(tokens[0])
  }

  /** `Subsystem::from_str`, up to opening the subsystem of the instance it names. */
  method ParseConnection(s: string) returns (r: Connection)
    ensures r == Connect(Split(s, ','), s)
  {
    var parts := Split(s, ',');
    for i := 0 to |parts|
      invariant Connect(parts[i..], s) == Connect(parts, s)
    {
      var tokens := Split(parts[i], '=');
      if |tokens| != 2 {
        return InvalidString(parts[i]);
      }
      if tokens[0] == "instance" {
        match ParseU64(tokens[1])
        case Some(id) => return Open(id);
        case None => return InvalidInstance(tokens[1]);
      } else if tokens[0] == "cntlid" {
        assert parts[i..][1..] == parts[i + 1..];
      } else {
        return UnknownToken(tokens[0]);
      }
    }
    r := InvalidString(s);
  }

  predicate IsControllerId(piece: string) {
    var tokens := Split(piece, '=');
    |tokens| == 2 && tokens[0] == "cntlid"
  }

  predicate IsInstance(piece: string, id: u64) {
    var tokens := Split(piece, '=');
    |tokens| == 2 && tokens[0] == "instance" && ParseU64(tokens[1]) == Some(id)
  }

  /** An instance is opened exactly when a well-formed one comes after nothing but controller ids. */
  lemma {:induction false} OpensExactly(pieces: seq<string>, whole: string, id: u64)
    ensures Connect(pieces, whole) == Open(id)
            <==> exists k | 0 <= k < |pieces| ::
                   IsInstance(pieces[k], id) && forall j | 0 <= j < k :: IsControllerId(pieces[j])
  {
    if pieces != [] {
      OpensExactly(pieces[1..], whole, id);
      assert "instance" != "cntlid" by {
        assert "instance"[0] != "cntlid"[0];
      }
      if IsControllerId(pieces[0]) {
        if k :| 0 <= k < |pieces[1..]| && IsInstance(pieces[1..][k], id)
                && forall j | 0 <= j < k :: IsControllerId(pieces[1..][j]) {
          assert IsInstance(pieces[k + 1], id);
          forall j | 0 <= j < k + 1 ensures IsControllerId(pieces[j]) {
            assert j > 0 ==> pieces[1..][j - 1] == pieces[j];
          }
        }
        if k :| 0 <= k < |pieces| && IsInstance(pieces[k], id) && forall j | 0 <= j < k :: IsControllerId(pieces[j]) {
          assert IsInstance(pieces[1..][k - 1], id);
          forall j | 0 <= j < k - 1 ensures IsControllerId(pieces[1..][j]) {
            assert pieces[1..][j] == pieces[j + 1];
          }
        }
      } else {
        if IsInstance(pieces[0], id) {
          assert Connect(pieces, whole) == Open(id);
        }
      }
    }
  }

  /** Instance numbers are decimal u64, with a plus sign or not. */
  lemma InstancesReadBack(n: nat)
    ensures ParseU64(Decimal.Natural(n)) == if n <= 0xffff_ffff_ffff_ffff then Some(n) else None
    ensures ParseU64("+" + Decimal.Natural(n)) == ParseU64(Decimal.Natural(n))
  {
    var s := Decimal.Natural(n);
    assert Decimal.IsDigit(s[0]);
    assert ("+" + s)[1..] == s;
  }

  /** A text reads as a number exactly when it is one digit or more, worth that number, after at most one plus sign. */
  lemma InstanceExactly(s: string, n: u64)
    ensures ParseU64(s) == Some(n) <==>
              exists digits :: digits != "" && Decimal.AllDigits(digits) && Decimal.Value(digits) == n
                               && (s == digits || s == "+" + digits)
  {
    if s != "" && s[0] == '+' {
      assert s == "+" + s[1..];
      assert !Decimal.IsDigit(s[0]);
    }
    forall digits | s == "+" + digits ensures s[1..] == digits {
    }
  }

  /** After controller ids alone, the next piece decides: it opens its instance or is the error, and says which. */
  lemma {:induction false} PieceDecides(pieces: seq<string>, whole: string, k: nat)
    requires k <= |pieces| && forall j | 0 <= j < k :: IsControllerId(pieces[j])
    ensures k == |pieces| ==> Connect(pieces, whole) == InvalidString(whole)
    ensures k < |pieces| && !IsControllerId(pieces[k]) ==>
              var tokens := Split(pieces[k], '=');
              Connect(pieces, whole)
              == if |tokens| != 2 then InvalidString(pieces[k])
                 else if tokens[0] != "instance" then UnknownToken(tokens[0])
                 else if ParseU64(tokens[1]).None? then InvalidInstance(tokens[1])
                 else Open(ParseU64(tokens[1]).value)
  {
    hide Split, ParseU64;
    assert "instance" != "cntlid" by {
      assert "instance"[0] != "cntlid"[0];
    }
    if k > 0 {
      assert IsControllerId(pieces[0]);
      assert forall j | 0 <= j < k - 1 :: pieces[1..][j] == pieces[j + 1];
      PieceDecides(pieces[1..], whole, k - 1);
    }
  }

  /** What the kernel writes is read: "instance=X,cntlid=Y". */
  lemma KernelAnswerOpens(instance: u64, cntlid: string)
    requires ',' !in cntlid
    ensures var s := "instance=" + Decimal.Natural(instance) + ",cntlid=" + cntlid;
            Connect(Split(s, ','), s) == Open(instance)
  {
    hide Split;
    var digits := Decimal.Natural(instance);
    var first, second := "instance" + ['='] + digits, "cntlid=" + cntlid;
    var s := "instance=" + digits + ",cntlid=" + cntlid;
    assert s == first + [','] + second;
    assert ',' !in digits && '=' !in digits;
    SplitFirst(first, ',', second);
    SplitFirst("instance", '=', digits);
    SplitNone(digits, '=');
  }
}
