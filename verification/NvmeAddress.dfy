/** nvmeadm: connect arguments as text (nvmf_discovery.rs) and the two readers of such text (nvmf_subsystem.rs). */
module NvmeAddresses {
  import opened Wrappers
  import opened Text
  import Decimal

  type Pair = (string, string)

  /** The pairs of a comma-separated list; a piece without '=' is passed over. */
  function Pairs(pieces: seq<string>): seq<Pair> {
    if pieces == [] then []
    else
      match SplitOnce(pieces[0], '=')
      case None => Pairs(pieces[1..])
      case Some(pair) => [pair] + Pairs(pieces[1..])
  }

  function AddressPairs(s: string): seq<Pair> {
    Pairs(Split(s, ','))
  }

  /** `collect` into a map: the last occurrence of a key wins. */
  function ToMap(pairs: seq<Pair>): map<string, string> {
    if pairs == [] then map[] else ToMap(pairs[..|pairs| - 1])[pairs[|pairs| - 1].0 := pairs[|pairs| - 1].1]
  }

  /** `SubsystemAddr::collect` */
  function Collect(s: string): map<string, string> {
    ToMap(AddressPairs(s))
  }

  function Lookup(m: map<string, string>, key: string): Option<string> {
    if key in m then Some(m[key]) else None
  }

  // ---- the folding reader ----

  datatype SubsystemAddrToken =
    | TrAddr(traddr: string)
    | TrSvcId(trsvcid: string)
    | SrcAddr(srcAddr: string)
    | Unknown(key: string, value: string)

  function Token(pair: Pair): SubsystemAddrToken {
    if pair.0 == "traddr" then TrAddr(pair.1)
    else if pair.0 == "trsvcid" then TrSvcId(pair.1)
    else if pair.0 == "src_addr" then SrcAddr(pair.1)
    else Unknown(pair.0, pair.1)
  }

  datatype SubsystemAddrExt = SubsystemAddrExt(
    trAddr: Option<string>,
    trSvcId: Option<string>,
    srcAddr: Option<string>,
    unknowns: seq<SubsystemAddrToken>)
  {
    predicate MatchHostPort(host: string, port: string) {
      trAddr == Some(host) && trSvcId == Some(port)
    }
  }

  /** The pairs that are none of the three known ones. */
  function Unknowns(pairs: seq<Pair>): seq<SubsystemAddrToken> {
    if pairs == [] then []
    else
      Unknowns(pairs[..|pairs| - 1])
      + if Token(pairs[|pairs| - 1]).Unknown? then [Token(pairs[|pairs| - 1])] else []
  }

  lemma {:induction false} PairsOfLonger(pieces: seq<string>, piece: string)
    ensures Pairs(pieces + [piece])
            == Pairs(pieces) + if SplitOnce(piece, '=').Some? then [SplitOnce(piece, '=').value] else []
  {
    if pieces == [] {
      assert pieces + [piece] == [piece];
    } else {
      PairsOfLonger(pieces[1..], piece);
      assert (pieces + [piece])[1..] == pieces[1..] + [piece];
    }
  }

  /** What was read so far is what the pairs so far say. */
  ghost predicate Agrees(acc: SubsystemAddrExt, pairs: seq<Pair>) {
    && acc.trAddr == Lookup(ToMap(pairs), "traddr")
    && acc.trSvcId == Lookup(ToMap(pairs), "trsvcid")
    && acc.srcAddr == Lookup(ToMap(pairs), "src_addr")
    && acc.unknowns == Unknowns(pairs)
  }

  lemma NothingRead()
    ensures Agrees(SubsystemAddrExt(None, None, None, []), [])
  {
  }

  lemma OneMorePair(pairs: seq<Pair>, pair: Pair)
    ensures ToMap(pairs + [pair]) == ToMap(pairs)[pair.0 := pair.1]
    ensures Unknowns(pairs + [pair]) == Unknowns(pairs) + if Token(pair).Unknown? then [Token(pair)] else []
  {
  }

  /**
   * `SubsystemAddrExt::from`, which updates an accumulator piece by piece. On every string it
   * agrees with the map of `collect`, and its unknowns are the other pairs in order.
   */
  method ParseAddress(value: string) returns (acc: SubsystemAddrExt)
    ensures acc.trAddr == Lookup(Collect(value), "traddr")
    ensures acc.trSvcId == Lookup(Collect(value), "trsvcid")
    ensures acc.srcAddr == Lookup(Collect(value), "src_addr")
    ensures acc.unknowns == Unknowns(AddressPairs(value))
  {
    hide ToMap, Unknowns, Split, SplitOnce;
    var pieces := Split(value, ',');
    acc := SubsystemAddrExt(None, None, None, []);
    NothingRead();
    ghost var pairs: seq<Pair> := [];
    for i := 0 to |pieces|
      invariant pairs == Pairs(pieces[..i]) && Agrees(acc, pairs)
    {
      assert pieces[..i + 1] == pieces[..i] + [pieces[i]];
      PairsOfLonger(pieces[..i], pieces[i]);
      var pair := SplitOnce(pieces[i], '=');
      if pair.Some? {
        OneMorePair(pairs, pair.value);
        pairs := pairs + [pair.value];
        match Token(pair.value)
        case TrAddr(traddr) => acc := acc.(trAddr := Some(traddr));
        case TrSvcId(trsvcid) => acc := acc.(trSvcId := Some(trsvcid));
        case SrcAddr(srcAddr) => acc := acc.(srcAddr := Some(srcAddr));
        case Unknown(_, _) => acc := acc.(unknowns := acc.unknowns + [Token(pair.value)]);
      }
    }
    assert pieces[..|pieces|] == pieces;
  }

  /** `SubsystemAddr::match_host_port`: two lookups in the map. */
  method MatchHostPort(address: string, host: string, port: string) returns (r: bool)
    ensures r <==> Lookup(Collect(address), "traddr") == Some(host) && Lookup(Collect(address), "trsvcid") == Some(port)
  {
    var ext := ParseAddress(address);
    r := ext.MatchHostPort(host, port);
  }

  // ---- connect arguments ----

  datatype TrType = rdma | fc | tcp

  function TransportName(t: TrType): string {
    match t
    case rdma => "rdma"
    case fc => "fc"
    case tcp => "tcp"
  }

  /** `TrType::try_from`, the reader of the names. */
  function ReadTransport(s: string): Option<TrType> {
    if s == "rdma" then Some(rdma)
    else if s == "fc" then Some(fc)
    else if s == "tcp" then Some(tcp)
    else None
  }

  /** It reads exactly what is printed. */
  lemma TransportReadsBack(t: TrType, s: string)
    ensures ReadTransport(TransportName(t)) == Some(t)
    ensures ReadTransport(s) == Some(t) <==> s == TransportName(t)
  {
    assert "rdma" != "fc" && "fc" != "tcp" && "rdma" != "tcp" by {
      assert "rdma"[0] != "fc"[0] && "fc"[0] != "tcp"[0] && "rdma"[0] != "tcp"[0];
    }
  }

  datatype HostInfo = HostInfo(id: string, nqn: string)

  datatype ConnectArgs = ConnectArgs(
    traddr: string,
    trsvcid: string,
    nqn: string,
    defaultHostnqnPrefix: string,
    transport: TrType,
    ctrlLossTmo: Option<u32>,
    reconnectDelay: Option<u32>,
    keepAliveTmo: Option<u32>,
    nrIoQueues: Option<u32>,
    hostnqn: Option<string>,
    hostid: Option<string>)

  function HostId(a: ConnectArgs, host: HostInfo): string {
    if a.hostid.Some? then a.hostid.value else host.id
  }

  /** The host's name; made from the prefix and the id when only the id is given. */
  function HostNqn(a: ConnectArgs, host: HostInfo): string {
    if a.hostnqn.Some? then a.hostnqn.value
    else if a.hostid.Some? then a.defaultHostnqnPrefix + ":" + a.hostid.value
    else host.nqn
  }

  function Number(key: string, value: Option<u32>): seq<Pair> {
    if value.Some? then [(key, Decimal.Natural(value.value))] else []
  }

  /** What the text is to say: each set field once, under its own key. */
  function Fields(a: ConnectArgs, host: HostInfo): seq<Pair> {
    [("hostnqn", HostNqn(a, host)), ("hostid", HostId(a, host)), ("nqn", a.nqn),
     ("transport", TransportName(a.transport)), ("traddr", a.traddr), ("trsvcid", a.trsvcid)]
    + Number("keep_alive_tmo", a.keepAliveTmo) + Number("reconnect_delay", a.reconnectDelay)
    + Number("ctrl_loss_tmo", a.ctrlLossTmo) + Number("nr_io_queues", a.nrIoQueues)
  }

  function Piece(p: Pair): string {
    p.0 + "=" + p.1
  }

  function Pieces(pairs: seq<Pair>): seq<string> {
    if pairs == [] then [] else [Piece(pairs[0])] + Pieces(pairs[1..])
  }

  lemma PiecesUnfold(pairs: seq<Pair>)
    ensures Pieces(pairs) == if pairs == [] then [] else [Piece(pairs[0])] + Pieces(pairs[1..])
  {
  }

  lemma {:induction false} PiecesOfBoth(a: seq<Pair>, b: seq<Pair>)
    ensures Pieces(a + b) == Pieces(a) + Pieces(b)
  {
    hide Pieces, Piece;
    PiecesUnfold(a);
    if a == [] {
      assert a + b == b;
    } else {
      PiecesOfBoth(a[1..], b);
      PiecesUnfold(a + b);
      assert (a + b)[1..] == a[1..] + b;
    }
  }

  /** With only the host id given, the generated host name carries a comma of its own: an empty piece follows it. */
  function HostNqnPieces(a: ConnectArgs, host: HostInfo): seq<string> {
    if a.hostid.Some? && a.hostnqn.None? then ["hostnqn=" + HostNqn(a, host), ""] else ["hostnqn=" + HostNqn(a, host)]
  }

  function PrintedPieces(a: ConnectArgs, host: HostInfo): seq<string> {
    HostNqnPieces(a, host)
    + ["hostid=" + HostId(a, host), "nqn=" + a.nqn, "transport=" + TransportName(a.transport),
       "traddr=" + a.traddr, "trsvcid=" + a.trsvcid]
    + Pieces(Number("keep_alive_tmo", a.keepAliveTmo)) + Pieces(Number("reconnect_delay", a.reconnectDelay))
    + Pieces(Number("ctrl_loss_tmo", a.ctrlLossTmo)) + Pieces(Number("nr_io_queues", a.nrIoQueues))
  }

  /** A write that ends a piece with a comma. */
  lemma WritePiece(f: string, written: seq<string>, piece: string)
    requires f == if written == [] then "" else Join(written, ',') + ","
    ensures f + (piece + ",") == Join(written + [piece], ',') + ","
    ensures f + piece == Join(written + [piece], ',')
  {
    if written == [] {
      assert written + [piece] == [piece];
    } else {
      JoinOneMore(written, piece, ',');
    }
  }

  /** `Display for ConnectArgs`, write by write. */
  method Display(a: ConnectArgs, host: HostInfo) returns (f: string)
    ensures f == Join(PrintedPieces(a, host), ',')
  {
    var hostId, hostNqn;
    match (a.hostid, a.hostnqn) {
      case (Some(id), Some(nqn)) => hostId, hostNqn := id, nqn;
      case (Some(id), None) => hostId, hostNqn := id, a.defaultHostnqnPrefix + ":" + id + ",";
      case (None, None) => hostId, hostNqn := host.id, host.nqn;
      case (None, Some(nqn)) => hostId, hostNqn := host.id, nqn;
    }
    f := "hostnqn=" + hostNqn + ",";
    ghost var written := HostNqnPieces(a, host);
    assert f == Join(written, ',') + ",";
    f, written := f + ("hostid=" + hostId + ","), WriteNext(f, written, "hostid=" + hostId);
    f, written := f + ("nqn=" + a.nqn + ","), WriteNext(f, written, "nqn=" + a.nqn);
    f, written := f + ("transport=" + TransportName(a.transport) + ","),
                  WriteNext(f, written, "transport=" + TransportName(a.transport));
    f, written := f + ("traddr=" + a.traddr + ","), WriteNext(f, written, "traddr=" + a.traddr);
    f, written := f + ("trsvcid=" + a.trsvcid), WriteNext(f, written, "trsvcid=" + a.trsvcid);
    assert written == HostNqnPieces(a, host)
      + ["hostid=" + HostId(a, host), "nqn=" + a.nqn, "transport=" + TransportName(a.transport),
         "traddr=" + a.traddr, "trsvcid=" + a.trsvcid];
    f := WriteNumber(f, written, "keep_alive_tmo", a.keepAliveTmo);
    written := written + Pieces(Number("keep_alive_tmo", a.keepAliveTmo));
    f := WriteNumber(f, written, "reconnect_delay", a.reconnectDelay);
    written := written + Pieces(Number("reconnect_delay", a.reconnectDelay));
    f := WriteNumber(f, written, "ctrl_loss_tmo", a.ctrlLossTmo);
    written := written + Pieces(Number("ctrl_loss_tmo", a.ctrlLossTmo));
    f := WriteNumber(f, written, "nr_io_queues", a.nrIoQueues);
  }

  /** The pieces written once `piece` is added to them. */
  ghost function WriteNext(f: string, written: seq<string>, piece: string): (r: seq<string>)
    requires written != [] && f == Join(written, ',') + ","
    ensures r == written + [piece]
    ensures f + (piece + ",") == Join(r, ',') + ","
    ensures f + piece == Join(r, ',')
  {
    WritePiece(f, written, piece);
    written + [piece]
  }

  method WriteNumber(f: string, ghost written: seq<string>, key: string, value: Option<u32>) returns (g: string)
    requires written != [] && f == Join(written, ',')
    ensures g == Join(written + Pieces(Number(key, value)), ',')
  {
    g := f;
    if value.Some? {
      var piece := key + "=" + Decimal.Natural(value.value);
      g := g + ("," + piece);
      JoinOneMore(written, piece, ',');
      assert Number(key, value)[1..] == [];
      assert Pieces(Number(key, value)) == [piece];
    } else {
      assert written + [] == written;
    }
  }

  // ---- printing, then reading ----

  ghost predicate NoCommas(pairs: seq<Pair>) {
    forall i | 0 <= i < |pairs| :: ',' !in pairs[i].1
  }

  ghost predicate PlainKeys(pairs: seq<Pair>) {
    && (forall i | 0 <= i < |pairs| :: ',' !in pairs[i].0 && '=' !in pairs[i].0)
    && (forall i, j | 0 <= i < j < |pairs| :: pairs[i].0 != pairs[j].0)
  }

  lemma {:induction false} PairsOfPieces(pairs: seq<Pair>)
    requires forall i | 0 <= i < |pairs| :: '=' !in pairs[i].0
    ensures Pairs(Pieces(pairs)) == pairs
  {
    if pairs != [] {
      PairsOfPieces(pairs[1..]);
      SplitOnceAt(pairs[0].0, '=', pairs[0].1);
    }
  }

  lemma {:induction false} MapOfDistinct(pairs: seq<Pair>)
    requires forall i, j | 0 <= i < j < |pairs| :: pairs[i].0 != pairs[j].0
    ensures forall i | 0 <= i < |pairs| :: Lookup(ToMap(pairs), pairs[i].0) == Some(pairs[i].1)
    ensures forall key | key in ToMap(pairs) :: exists i | 0 <= i < |pairs| :: pairs[i].0 == key
  {
    if pairs != [] {
      MapOfDistinct(pairs[..|pairs| - 1]);
      assert pairs[|pairs| - 1].0 in ToMap(pairs);
    }
  }

  /** Fixed by where it stands among the fields, whichever of them are set. */
  function KeyRank(key: string): nat {
    if key == "hostnqn" then 0
    else if key == "hostid" then 1
    else if key == "nqn" then 2
    else if key == "transport" then 3
    else if key == "traddr" then 4
    else if key == "trsvcid" then 5
    else if key == "keep_alive_tmo" then 6
    else if key == "reconnect_delay" then 7
    else if key == "ctrl_loss_tmo" then 8
    else if key == "nr_io_queues" then 9
    else 10
  }

  /** Keys in field order, their ranks from `low` up to but not including `high`. */
  ghost predicate InFieldOrder(pairs: seq<Pair>, low: nat, high: nat) {
    && (forall i | 0 <= i < |pairs| :: low <= KeyRank(pairs[i].0) < high)
    && (forall i, j | 0 <= i < j < |pairs| :: KeyRank(pairs[i].0) < KeyRank(pairs[j].0))
  }

  lemma OrderOfBoth(a: seq<Pair>, b: seq<Pair>, low: nat, middle: nat, high: nat)
    requires low <= middle <= high && InFieldOrder(a, low, middle) && InFieldOrder(b, middle, high)
    ensures InFieldOrder(a + b, low, high)
  {
  }

  lemma EarlyKeyIsPlain(key: string)
    requires KeyRank(key) < 5
    ensures ',' !in key && '=' !in key
  {
  }

  lemma LateKeyIsPlain(key: string)
    requires 5 <= KeyRank(key) < 10
    ensures ',' !in key && '=' !in key
  {
  }

  lemma RankedKeyIsPlain(key: string)
    requires KeyRank(key) < 10
    ensures ',' !in key && '=' !in key
  {
    hide KeyRank;
    if KeyRank(key) < 5 {
      EarlyKeyIsPlain(key);
    } else {
      LateKeyIsPlain(key);
    }
  }

  lemma KeyRanks()
    ensures KeyRank("hostnqn") == 0 && KeyRank("hostid") == 1 && KeyRank("nqn") == 2 && KeyRank("transport") == 3
    ensures KeyRank("traddr") == 4 && KeyRank("trsvcid") == 5 && KeyRank("keep_alive_tmo") == 6
    ensures KeyRank("reconnect_delay") == 7 && KeyRank("ctrl_loss_tmo") == 8 && KeyRank("nr_io_queues") == 9
  {
  }

  lemma FieldKeys(a: ConnectArgs, host: HostInfo)
    ensures PlainKeys(Fields(a, host))
    ensures |Fields(a, host)| >= 6 && Fields(a, host)[4] == ("traddr", a.traddr)
    ensures Fields(a, host)[5] == ("trsvcid", a.trsvcid)
  {
    hide KeyRank;
    KeyRanks();
    var head := [("hostnqn", HostNqn(a, host)), ("hostid", HostId(a, host)), ("nqn", a.nqn),
                 ("transport", TransportName(a.transport)), ("traddr", a.traddr), ("trsvcid", a.trsvcid)];
    assert InFieldOrder(head, 0, 6);
    var f6, f7 := Number("keep_alive_tmo", a.keepAliveTmo), Number("reconnect_delay", a.reconnectDelay);
    var f8, f9 := Number("ctrl_loss_tmo", a.ctrlLossTmo), Number("nr_io_queues", a.nrIoQueues);
    OrderOfBoth(head, f6, 0, 6, 7);
    OrderOfBoth(head + f6, f7, 0, 7, 8);
    OrderOfBoth(head + f6 + f7, f8, 0, 8, 9);
    OrderOfBoth(head + f6 + f7 + f8, f9, 0, 9, 10);
    assert Fields(a, host) == head + f6 + f7 + f8 + f9;
    OrderedKeysArePlain(Fields(a, host));
  }

  lemma OrderedKeysArePlain(f: seq<Pair>)
    requires InFieldOrder(f, 0, 10)
    ensures PlainKeys(f)
  {
    hide KeyRank;
    forall i | 0 <= i < |f| ensures ',' !in f[i].0 && '=' !in f[i].0 {
      RankedKeyIsPlain(f[i].0);
    }
  }

  /** The printed pieces are the fields, but for the empty piece, which the readers pass over. */
  lemma PrintedPairs(a: ConnectArgs, host: HostInfo)
    ensures Pairs(PrintedPieces(a, host)) == Fields(a, host)
    ensures forall p | p in PrintedPieces(a, host) :: p == "" || p in Pieces(Fields(a, host))
    ensures forall p | p in Pieces(Fields(a, host)) :: p in PrintedPieces(a, host)
  {
    FieldKeys(a, host);
    PairsOfPieces(Fields(a, host));
    PrintedIsFields(a, host);
    var p := Pieces(Fields(a, host));
    if a.hostid.Some? && a.hostnqn.None? {
      EmptyPieceIsPassedOver(p);
    }
  }

  lemma EmptyPieceIsPassedOver(p: seq<string>)
    requires p != []
    ensures Pairs([p[0]] + [""] + p[1..]) == Pairs(p)
    ensures forall q :: q in [p[0]] + [""] + p[1..] <==> q == "" || q in p
  {
  }

  lemma PrintedIsFields(a: ConnectArgs, host: HostInfo)
    ensures var p := Pieces(Fields(a, host));
            && p != []
            && PrintedPieces(a, host) == if a.hostid.Some? && a.hostnqn.None? then [p[0]] + [""] + p[1..] else p
  {
    var head := [("hostnqn", HostNqn(a, host)), ("hostid", HostId(a, host)), ("nqn", a.nqn),
                 ("transport", TransportName(a.transport)), ("traddr", a.traddr), ("trsvcid", a.trsvcid)];
    var f6, f7 := Number("keep_alive_tmo", a.keepAliveTmo), Number("reconnect_delay", a.reconnectDelay);
    var f8, f9 := Number("ctrl_loss_tmo", a.ctrlLossTmo), Number("nr_io_queues", a.nrIoQueues);
    PiecesOfFive(head, f6, f7, f8, f9);
    HeadPieces(a, host, head);
    Regroup("hostnqn=" + HostNqn(a, host),
            ["hostid=" + HostId(a, host), "nqn=" + a.nqn, "transport=" + TransportName(a.transport),
             "traddr=" + a.traddr, "trsvcid=" + a.trsvcid],
            Pieces(f6), Pieces(f7), Pieces(f8), Pieces(f9));
  }

  lemma Regroup(h: string, five: seq<string>, r6: seq<string>, r7: seq<string>, r8: seq<string>, r9: seq<string>)
    ensures var p := [h] + five + r6 + r7 + r8 + r9;
            p != [] && [h, ""] + five + r6 + r7 + r8 + r9 == [p[0]] + [""] + p[1..]
  {
  }

  lemma PiecesOfFive(a: seq<Pair>, b: seq<Pair>, c: seq<Pair>, d: seq<Pair>, e: seq<Pair>)
    ensures Pieces(a + b + c + d + e) == Pieces(a) + Pieces(b) + Pieces(c) + Pieces(d) + Pieces(e)
  {
    PiecesOfBoth(a, b);
    PiecesOfBoth(a + b, c);
    PiecesOfBoth(a + b + c, d);
    PiecesOfBoth(a + b + c + d, e);
  }

  lemma HeadPieces(a: ConnectArgs, host: HostInfo, head: seq<Pair>)
    requires head == [("hostnqn", HostNqn(a, host)), ("hostid", HostId(a, host)), ("nqn", a.nqn),
                      ("transport", TransportName(a.transport)), ("traddr", a.traddr), ("trsvcid", a.trsvcid)]
    ensures Pieces(head) == ["hostnqn=" + HostNqn(a, host)]
      + ["hostid=" + HostId(a, host), "nqn=" + a.nqn, "transport=" + TransportName(a.transport),
         "traddr=" + a.traddr, "trsvcid=" + a.trsvcid]
  {
    PiecesOfHead(head);
    assert "hostnqn" + "=" == "hostnqn=" && "hostid" + "=" == "hostid=" && "nqn" + "=" == "nqn=";
    assert "transport" + "=" == "transport=" && "traddr" + "=" == "traddr=" && "trsvcid" + "=" == "trsvcid=";
  }

  lemma PiecesOfHead(head: seq<Pair>)
    requires |head| == 6
    ensures Pieces(head)
            == [Piece(head[0]), Piece(head[1]), Piece(head[2]), Piece(head[3]), Piece(head[4]), Piece(head[5])]
  {
    PiecesOfBoth(head[..3], head[3..]);
    assert head == head[..3] + head[3..];
    PiecesOfThree(head[..3]);
    PiecesOfThree(head[3..]);
  }

  lemma PiecesOfThree(p: seq<Pair>)
    requires |p| == 3
    ensures Pieces(p) == [Piece(p[0]), Piece(p[1]), Piece(p[2])]
  {
    assert p[1..][1..][1..] == [];
    assert Pieces(p[1..][1..]) == [Piece(p[2])];
    assert Pieces(p[1..]) == [Piece(p[1])] + [Piece(p[2])];
  }

  lemma {:induction false} PlainPieces(pairs: seq<Pair>)
    requires PlainKeys(pairs) && NoCommas(pairs)
    ensures forall p | p in Pieces(pairs) :: ',' !in p
  {
    if pairs != [] {
      PlainPieces(pairs[1..]);
    }
  }

  lemma {:induction false} PairsHaveNoCommas(pieces: seq<string>)
    requires forall p | p in pieces :: ',' !in p
    ensures NoCommas(Pairs(pieces))
  {
    if pieces != [] {
      PairsHaveNoCommas(pieces[1..]);
      var pair := SplitOnce(pieces[0], '=');
      if pair.Some? {
        assert forall c | c in pair.value.1 :: c in pieces[0];
      }
    }
  }

  /** Reading any text gives values without commas. */
  lemma CollectedHaveNoCommas(s: string, key: string)
    requires key in Collect(s)
    ensures ',' !in Collect(s)[key]
  {
    PairsHaveNoCommas(Split(s, ','));
    MapValueIsPair(AddressPairs(s), key);
  }

  lemma {:induction false} MapValueIsPair(pairs: seq<Pair>, key: string)
    requires key in ToMap(pairs)
    ensures exists i | 0 <= i < |pairs| :: pairs[i] == (key, ToMap(pairs)[key])
  {
    var last := |pairs| - 1;
    if pairs[last].0 != key {
      MapValueIsPair(pairs[..last], key);
    } else {
      assert pairs[last] == (key, ToMap(pairs)[key]);
    }
  }

  /**
   * Printed and read back, the arguments give exactly the set fields, each under its own
   * key, if and only if no value holds a comma.
   */
  lemma PrintThenRead(a: ConnectArgs, host: HostInfo)
    ensures Collect(Join(PrintedPieces(a, host), ',')) == ToMap(Fields(a, host)) <==> NoCommas(Fields(a, host))
    ensures forall i | 0 <= i < |Fields(a, host)| ::
              Lookup(ToMap(Fields(a, host)), Fields(a, host)[i].0) == Some(Fields(a, host)[i].1)
  {
    var f, text := Fields(a, host), Join(PrintedPieces(a, host), ',');
    FieldKeys(a, host);
    MapOfDistinct(f);
    PrintedPairs(a, host);
    if NoCommas(f) {
      PlainPieces(f);
      SplitJoin(PrintedPieces(a, host), ',');
    } else if Collect(text) == ToMap(f) {
      var i :| 0 <= i < |f| && ',' in f[i].1;
      assert Lookup(ToMap(f), f[i].0) == Some(f[i].1);
      CollectedHaveNoCommas(text, f[i].0);
      assert false;
    }
  }

  /** So the address check recognises the very target the arguments name. */
  lemma PrintedTargetMatches(a: ConnectArgs, host: HostInfo)
    requires NoCommas(Fields(a, host))
    ensures var m := Collect(Join(PrintedPieces(a, host), ','));
            Lookup(m, "traddr") == Some(a.traddr) && Lookup(m, "trsvcid") == Some(a.trsvcid)
  {
    PrintThenRead(a, host);
    FieldKeys(a, host);
  }

  /** What a number field of the text says. */
  predicate SaysNumber(m: map<string, string>, key: string, value: Option<u32>) {
    match value
    case None => key !in m
    case Some(n) => key in m && Decimal.ReadInteger(m[key]) == Some(n)
  }

  /** The host fields as they are given, or else the machine's own; with only the id given, the name is made from it. */
  predicate SaysHost(m: map<string, string>, a: ConnectArgs, host: HostInfo) {
    && Lookup(m, "hostid") == (if a.hostid.Some? then a.hostid else Some(host.id))
    && match (a.hostid, a.hostnqn)
       case (_, Some(nqn)) => Lookup(m, "hostnqn") == Some(nqn)
       case (Some(id), None) => Lookup(m, "hostnqn") == Some(a.defaultHostnqnPrefix + ":" + id)
       case (None, None) => Lookup(m, "hostnqn") == Some(host.nqn)
  }

  /** Every field of the arguments, found under its key in the text read back, has its own value. */
  lemma PrintedSaysArguments(a: ConnectArgs, host: HostInfo)
    requires NoCommas(Fields(a, host))
    ensures var m := Collect(Join(PrintedPieces(a, host), ','));
            && SaysHost(m, a, host)
            && Lookup(m, "nqn") == Some(a.nqn)
            && Lookup(m, "traddr") == Some(a.traddr) && Lookup(m, "trsvcid") == Some(a.trsvcid)
            && "transport" in m && ReadTransport(m["transport"]) == Some(a.transport)
            && SaysNumber(m, "keep_alive_tmo", a.keepAliveTmo) && SaysNumber(m, "reconnect_delay", a.reconnectDelay)
            && SaysNumber(m, "ctrl_loss_tmo", a.ctrlLossTmo) && SaysNumber(m, "nr_io_queues", a.nrIoQueues)
  {
    hide PrintedPieces, Collect, ToMap, Fields, ReadTransport, SaysNumber;
    var f := Fields(a, host);
    PrintThenRead(a, host);
    HeadFields(a, host);
    assert forall i | 0 <= i < 6 :: f[i] == f[..6][i];
    assert Lookup(ToMap(f), f[0].0) == Some(f[0].1) && Lookup(ToMap(f), f[1].0) == Some(f[1].1);
    assert Lookup(ToMap(f), f[2].0) == Some(f[2].1) && Lookup(ToMap(f), f[3].0) == Some(f[3].1);
    assert Lookup(ToMap(f), f[4].0) == Some(f[4].1) && Lookup(ToMap(f), f[5].0) == Some(f[5].1);
    TransportReadsBack(a.transport, "");
    NumberField(a, host, 6);
    NumberField(a, host, 7);
    NumberField(a, host, 8);
    NumberField(a, host, 9);
  }

  lemma HeadFields(a: ConnectArgs, host: HostInfo)
    ensures var f := Fields(a, host);
            |f| >= 6 && f[..6] == [("hostnqn", HostNqn(a, host)), ("hostid", HostId(a, host)), ("nqn", a.nqn),
                                   ("transport", TransportName(a.transport)), ("traddr", a.traddr),
                                   ("trsvcid", a.trsvcid)]
  {
  }

  /** The number fields, by rank. */
  function NumberOfRank(a: ConnectArgs, rank: nat): (string, Option<u32>) {
    if rank == 6 then ("keep_alive_tmo", a.keepAliveTmo)
    else if rank == 7 then ("reconnect_delay", a.reconnectDelay)
    else if rank == 8 then ("ctrl_loss_tmo", a.ctrlLossTmo)
    else ("nr_io_queues", a.nrIoQueues)
  }

  /** What stands under the key of a number field. */
  lemma UnderNumberKey(a: ConnectArgs, host: HostInfo, rank: nat)
    requires 6 <= rank < 10
    ensures var (key, value) := NumberOfRank(a, rank);
            && (forall p | p in Fields(a, host) && p.0 == key :: value.Some? && p.1 == Decimal.Natural(value.value))
            && (value.Some? ==> (key, Decimal.Natural(value.value)) in Fields(a, host))
  {
    hide KeyRank, Decimal.Natural;
    KeyRanks();
    var (key, value) := NumberOfRank(a, rank);
    assert KeyRank(key) == rank;
    forall p | p in Fields(a, host) && p.0 == key ensures p in Number(key, value) {
      assert KeyRank(p.0) == rank;
    }
  }

  /** A number field is among the fields exactly when it is set. */
  lemma NumberField(a: ConnectArgs, host: HostInfo, rank: nat)
    requires 6 <= rank < 10
    ensures SaysNumber(ToMap(Fields(a, host)), NumberOfRank(a, rank).0, NumberOfRank(a, rank).1)
  {
    hide Fields, KeyRank, NumberOfRank, ToMap, Decimal.Natural, Decimal.ReadInteger;
    var f := Fields(a, host);
    var (key, value) := NumberOfRank(a, rank);
    FieldKeys(a, host);
    MapOfDistinct(f);
    UnderNumberKey(a, host, rank);
    if value.Some? {
      var i :| 0 <= i < |f| && f[i] == (key, Decimal.Natural(value.value));
      assert Lookup(ToMap(f), f[i].0) == Some(f[i].1);
      Decimal.IntegerReadsBack(value.value);
      assert Decimal.Integer(value.value) == Decimal.Natural(value.value);
    }
  }
}
