/** composer/src/composer.rs: the address allocator of `Builder`. */
module Composer {
  import opened Wrappers

  type Ipv4 = u32

  /** A network, by its base address and its number of addresses. */
  datatype NetworkRange = NetworkRange(base: Ipv4, size: nat)
  {
    /** `Ipv4Network::nth` */
    function Nth(n: nat): Option<int> {
      if n < size then Some(base + n) else None
    }
  }

  // "10.1.0.0/16"
  const TEST_NET_NETWORK := NetworkRange(0x0A01_0000, 0x1_0000)

  type Ipv4Network = n: NetworkRange | 1 <= n.size && n.base + n.size <= U32_MAX + 1 witness TEST_NET_NETWORK

  const LOCALHOST: Ipv4 := 0x7F00_0001

  function Octets(ip: Ipv4): seq<nat> {
    [ip / 0x100_0000, ip / 0x1_0000 % 0x100, ip / 0x100 % 0x100, ip % 0x100]
  }

  /** The host's address is 127.0.0.1 and the default network 10.1.0.0/16. */
  lemma WellKnownAddresses()
    ensures Octets(LOCALHOST) == [127, 0, 0, 1]
    ensures Octets(TEST_NET_NETWORK.base) == [10, 1, 0, 0] && TEST_NET_NETWORK.size == 0x1_0000
  {
  }

  datatype NetworkMode = Host | Bridge

  /** A container to be created, of which only the name matters to the allocator. */
  datatype Planned = Planned(name: string, ip: Ipv4)

  datatype Existing = Existing(id: string, ip: Ipv4)

  /** The fields of `Builder` that the allocator reads and writes. */
  datatype BuilderState = BuilderState(
    containers: seq<Planned>,
    existing: map<string, Existing>,
    network: Ipv4Network,
    networkMode: Option<NetworkMode>)

  function PlannedIps(containers: seq<Planned>): set<Ipv4> {
    set c | c in containers :: c.ip
  }

  function ExistingIps(existing: map<string, Existing>): set<Ipv4> {
    set name | name in existing :: existing[name].ip
  }

  function Used(b: BuilderState): set<Ipv4> {
    PlannedIps(b.containers) + ExistingIps(b.existing)
  }

  // ---- the least free address ----

  /** The first of the offsets `o` to 255 whose address is in the network and not used. */
  function FirstFree(network: Ipv4Network, used: set<Ipv4>, o: nat): (r: Option<Ipv4>)
    decreases 256 - o
  {
    if o > 255 then None
    else if network.Nth(o).Some? && network.Nth(o).value !in used then Some(network.Nth(o).value)
    else FirstFree(network, used, o + 1)
  }

  function NextIp(b: BuilderState): Option<Ipv4> {
    FirstFree(b.network, Used(b), 2)
  }

  predicate IsFree(network: Ipv4Network, used: set<Ipv4>, o: nat) {
    o < network.size && network.base + o !in used
  }

  /** It is the least free one, and there is none exactly when every candidate is taken. */
  lemma {:induction false} FirstFreeIsLeast(network: Ipv4Network, used: set<Ipv4>, o: nat)
    ensures FirstFree(network, used, o).None? <==> forall i | o <= i <= 255 :: !IsFree(network, used, i)
    ensures FirstFree(network, used, o).Some? ==>
              var n := FirstFree(network, used, o).value - network.base;
              o <= n <= 255 && IsFree(network, used, n) && forall i | o <= i < n :: !IsFree(network, used, i)
    decreases 256 - o
  {
    if o <= 255 && !IsFree(network, used, o) {
      FirstFreeIsLeast(network, used, o + 1);
    }
  }

  function Candidates(network: Ipv4Network): nat {
    var last := if network.size < 256 then network.size else 256;
    if last < 2 then 0 else last - 2
  }

  /** The addresses at offsets 2 to 2 + n. */
  function Block(base: Ipv4, n: nat): set<int> {
    if n == 0 then {} else Block(base, n - 1) + {base + n + 1}
  }

  lemma {:induction false} BlockSize(base: Ipv4, n: nat)
    ensures |Block(base, n)| == n
    ensures forall a: int :: a in Block(base, n) <==> base + 2 <= a < base + 2 + n
  {
    if n > 0 {
      BlockSize(base, n - 1);
    }
  }

  lemma SubsetSize(a: set<int>, b: set<int>)
    requires a <= b
    ensures |a| <= |b|
  {
    assert |a| + |b - a| == |a + (b - a)|;
    assert a + (b - a) == b;
  }

  /** Pigeonhole: an address is found whenever fewer are in use than the network has to offer. */
  lemma RoomMeansAddress(network: Ipv4Network, used: set<Ipv4>)
    requires |used| < Candidates(network)
    ensures FirstFree(network, used, 2).Some?
  {
    hide FirstFree, Block;
    FirstFreeIsLeast(network, used, 2);
    var n := Candidates(network);
    if FirstFree(network, used, 2).None? {
      BlockSize(network.base, n);
      forall a | a in Block(network.base, n) ensures a in used {
        assert !IsFree(network, used, a - network.base);
      }
      SubsetSize(Block(network.base, n), used);
      assert false;
    }
  }

  lemma PlannedWithOneMore(containers: seq<Planned>, c: Planned)
    ensures PlannedIps(containers + [c]) == PlannedIps(containers) + {c.ip}
  {
  }

  lemma ExistingWithOneLess(existing: map<string, Existing>, name: string)
    requires name in existing
    ensures ExistingIps(existing) == ExistingIps(existing - {name}) + {existing[name].ip}
  {
    forall n | n in existing ensures existing[n].ip in ExistingIps(existing - {name}) + {existing[name].ip} {
      assert n == name || n in existing - {name};
    }
  }

  lemma {:induction false} PlannedAddresses(containers: seq<Planned>)
    ensures |PlannedIps(containers)| <= |containers|
  {
    if containers != [] {
      var front, last := containers[..|containers| - 1], containers[|containers| - 1];
      PlannedAddresses(front);
      PlannedWithOneMore(front, last);
      assert containers == front + [last];
    }
  }

  lemma {:induction false} ExistingAddresses(existing: map<string, Existing>)
    ensures |ExistingIps(existing)| <= |existing|
    decreases |existing|
  {
    if existing != map[] {
      var name :| name in existing;
      var others := existing - {name};
      assert existing.Keys == others.Keys + {name};
      ExistingAddresses(others);
      ExistingWithOneLess(existing, name);
    }
  }

  /** At most one address for each container, planned or existing. */
  lemma UsedIsBounded(b: BuilderState)
    ensures |Used(b)| <= |b.containers| + |b.existing|
  {
    PlannedAddresses(b.containers);
    ExistingAddresses(b.existing);
    var p, e := PlannedIps(b.containers), ExistingIps(b.existing);
    assert |p + e| == |p| + |e - p|;
    SubsetSize(e - p, e);
  }

  // ---- adding containers ----

  /** `add_container_spec`; None is the panic on "No available ip". */
  function Add(b: BuilderState, name: string): Option<BuilderState> {
    if name in b.existing then
      Some(b.(existing := b.existing - {name}, containers := b.containers + [Planned(name, b.existing[name].ip)]))
    else if b.networkMode == Some(Host) then Some(b.(containers := b.containers + [Planned(name, LOCALHOST)]))
    else
      match NextIp(b)
      case None => None
      case Some(ip) => Some(b.(containers := b.containers + [Planned(name, ip)]))
  }

  function NextIpForName(b: BuilderState, name: string): Option<Ipv4> {
    if name in b.existing then Some(b.existing[name].ip) else NextIp(b)
  }

  predicate ContainerExists(b: BuilderState, name: string) {
    (exists i | 0 <= i < |b.containers| :: b.containers[i].name == name) || name in b.existing
  }

  /** No address belongs to two containers, planned or existing. */
  ghost predicate Distinct(b: BuilderState) {
    && (forall i, j | 0 <= i < j < |b.containers| :: b.containers[i].ip != b.containers[j].ip)
    && (forall m, n | m in b.existing && n in b.existing && m != n :: b.existing[m].ip != b.existing[n].ip)
    && (forall i, n | 0 <= i < |b.containers| && n in b.existing :: b.containers[i].ip != b.existing[n].ip)
  }

  /** Outside host mode the address was foretold, and adding fails exactly when none was free. */
  lemma AddUsesForetoldAddress(b: BuilderState, name: string)
    requires b.networkMode != Some(Host)
    ensures Add(b, name).None? <==> NextIpForName(b, name).None?
    ensures Add(b, name).Some? ==>
              Add(b, name).value.containers == b.containers + [Planned(name, NextIpForName(b, name).value)]
  {
  }

  /** Reuse moves an address from existing to planned; a new container takes one that nobody has. */
  lemma AddKeepsDistinct(b: BuilderState, name: string)
    requires Distinct(b) && Add(b, name).Some?
    requires name in b.existing || b.networkMode != Some(Host)
    ensures var t := Add(b, name).value;
            && Distinct(t) && ContainerExists(t, name)
            && (name in b.existing ==> Used(t) == Used(b))
            && (name !in b.existing ==>
                  NextIp(b).Some? && NextIp(b).value !in Used(b) && Used(t) == Used(b) + {NextIp(b).value})
  {
    var t := Add(b, name).value;
    var c := t.containers[|b.containers|];
    assert t.containers == b.containers + [c] && c.name == name;
    PlannedWithOneMore(b.containers, c);
    if name in b.existing {
      ExistingWithOneLess(b.existing, name);
    } else {
      FirstFreeIsLeast(b.network, Used(b), 2);
      assert c.ip !in Used(b);
      assert forall d | d in b.containers :: d.ip in Used(b);
      assert forall n | n in b.existing :: b.existing[n].ip in Used(b);
    }
  }

  /** The one way to repeat an address: a new container in host mode when the host's address is taken already. */
  lemma DistinctAfterAdd(b: BuilderState, name: string)
    requires Distinct(b) && Add(b, name).Some?
    ensures Distinct(Add(b, name).value)
            <==> name in b.existing || b.networkMode != Some(Host) || LOCALHOST !in Used(b)
  {
    if name in b.existing || b.networkMode != Some(Host) {
      AddKeepsDistinct(b, name);
    } else {
      var t := Add(b, name).value;
      var n := |b.containers|;
      assert t.containers[n].ip == LOCALHOST;
      if LOCALHOST in PlannedIps(b.containers) {
        var i :| 0 <= i < n && b.containers[i].ip == LOCALHOST;
        assert t.containers[i].ip == t.containers[n].ip;
      } else if LOCALHOST in ExistingIps(b.existing) {
        var m :| m in b.existing && b.existing[m].ip == LOCALHOST;
        assert t.containers[n].ip == t.existing[m].ip;
      } else {
        assert forall d | d in b.containers :: d.ip != LOCALHOST;
      }
    }
  }

  datatype Call = AddContainer(name: string) | SetNetwork(network: Ipv4Network) | SetMode(mode: NetworkMode)

  function Called(b: BuilderState, call: Call): Option<BuilderState> {
    match call
    case AddContainer(name) => Add(b, name)
    case SetNetwork(network) => Some(b.(network := network))
    case SetMode(mode) => Some(b.(networkMode := Some(mode)))
  }

  /** A chain of builder calls; None once one of them panics. */
  function Chain(b: BuilderState, calls: seq<Call>): Option<BuilderState> {
    if calls == [] then Some(b)
    else
      match Chain(b, calls[..|calls| - 1])
      case None => None
      case Some(t) => Called(t, calls[|calls| - 1])
  }

  /** Every container a chain adds takes its address from the network, not from the host. */
  ghost predicate NeverOnHost(b: BuilderState, calls: seq<Call>) {
    b.networkMode != Some(Host) && forall i | 0 <= i < |calls| :: calls[i] != SetMode(Host)
  }

  lemma {:induction false} ModeOfChain(b: BuilderState, calls: seq<Call>)
    requires NeverOnHost(b, calls) && Chain(b, calls).Some?
    ensures Chain(b, calls).value.networkMode != Some(Host)
  {
    if calls != [] {
      ModeOfChain(b, calls[..|calls| - 1]);
    }
  }

  /** Over every chain of calls, changes of network included, addresses stay pairwise distinct. */
  lemma {:induction false} ChainKeepsDistinct(b: BuilderState, calls: seq<Call>)
    requires Distinct(b) && NeverOnHost(b, calls) && Chain(b, calls).Some?
    ensures Distinct(Chain(b, calls).value)
  {
    if calls != [] {
      var front := calls[..|calls| - 1];
      ChainKeepsDistinct(b, front);
      ModeOfChain(b, front);
      var t := Chain(b, front).value;
      match calls[|calls| - 1] {
        case AddContainer(name) => AddKeepsDistinct(t, name);
        case _ =>
          var u := Chain(b, calls).value;
          assert u.containers == t.containers && u.existing == t.existing;
      }
    }
  }

  /** A name exists after a chain exactly if it did before or the chain added it. */
  lemma {:induction false} ExistsExactlyIfAdded(b: BuilderState, calls: seq<Call>, name: string)
    requires Chain(b, calls).Some?
    ensures ContainerExists(Chain(b, calls).value, name) <==> ContainerExists(b, name) || AddContainer(name) in calls
  {
    if calls != [] {
      var front, last := calls[..|calls| - 1], calls[|calls| - 1];
      ExistsExactlyIfAdded(b, front, name);
      assert calls == front + [last];
      StepKeepsNames(Chain(b, front).value, last, name);
    }
  }

  lemma StepKeepsNames(b: BuilderState, call: Call, name: string)
    requires Called(b, call).Some?
    ensures ContainerExists(Called(b, call).value, name) <==> ContainerExists(b, name) || call == AddContainer(name)
  {
    var t := Called(b, call).value;
    if ContainerExists(b, name) && name !in b.existing {
      var i :| 0 <= i < |b.containers| && b.containers[i].name == name;
      assert t.containers[i].name == name;
    }
    if call.AddContainer? {
      assert t.containers[|b.containers|].name == call.name;
    }
  }

  /** In host mode the second new container already repeats the address of the first. */
  lemma HostModeRepeatsAddress(b: BuilderState, x: string, y: string)
    requires b.networkMode == Some(Host) && x !in b.existing && y !in b.existing
    ensures Chain(b, [AddContainer(x), AddContainer(y)]).Some?
    ensures !Distinct(Chain(b, [AddContainer(x), AddContainer(y)]).value)
  {
    var one, two := [AddContainer(x)], [AddContainer(x), AddContainer(y)];
    assert one[..0] == [] && two[..1] == one;
    var n := |b.containers|;
    assert Chain(b, one) == Some(b.(containers := b.containers + [Planned(x, LOCALHOST)]));
    var t := Chain(b, two).value;
    assert t.containers[n].ip == t.containers[n + 1].ip;
  }

  function AddAll(names: seq<string>): seq<Call> {
    if names == [] then [] else AddAll(names[..|names| - 1]) + [AddContainer(names[|names| - 1])]
  }

  /**
   * With nothing existing, the k-th container (from 0) gets the network's base + 2 + k, and none is refused
   * while the candidates last.
   */
  lemma {:induction false} AddressesAreSequential(b: BuilderState, names: seq<string>)
    requires b.containers == [] && b.existing == map[] && b.networkMode != Some(Host)
    requires |names| <= Candidates(b.network)
    ensures Chain(b, AddAll(names)).Some?
    ensures var t := Chain(b, AddAll(names)).value;
            && t == b.(containers := t.containers)
            && |t.containers| == |names|
            && forall k | 0 <= k < |names| ::
                 t.containers[k].name == names[k] && t.containers[k].ip == b.network.base + 2 + k
  {
    if names != [] {
      var front := names[..|names| - 1];
      var calls := AddAll(names);
      AddressesAreSequential(b, front);
      assert calls[..|calls| - 1] == AddAll(front);
      var t := Chain(b, AddAll(front)).value;
      NextIsSequential(t);
    }
  }

  lemma NextIsSequential(t: BuilderState)
    requires t.existing == map[] && |t.containers| < Candidates(t.network)
    requires forall k | 0 <= k < |t.containers| :: t.containers[k].ip == t.network.base + 2 + k
    ensures NextIp(t) == Some(t.network.base + 2 + |t.containers|)
  {
    var n := |t.containers|;
    forall o: nat | 2 <= o < 2 + n ensures !IsFree(t.network, Used(t), o) {
      assert t.containers[o - 2] in t.containers;
    }
    assert IsFree(t.network, Used(t), 2 + n);
    FirstFreeIsLeast(t.network, Used(t), 2);
  }

  // ---- the built map ----

  /** `build_only` fills a map by name; the last container of a name is the one it keeps. */
  function Built(containers: seq<Planned>): map<string, Ipv4> {
    if containers == [] then map[]
    else
      var last := containers[|containers| - 1];
      Built(containers[..|containers| - 1])[last.name := last.ip]
  }

  lemma {:induction false} BuiltHasLast(containers: seq<Planned>, name: string)
    ensures name in Built(containers) <==> exists i | 0 <= i < |containers| :: containers[i].name == name
    ensures name in Built(containers) ==>
              exists i | 0 <= i < |containers| ::
                containers[i] == Planned(name, Built(containers)[name])
                && forall j | i < j < |containers| :: containers[j].name != name
  {
    if containers != [] {
      var n := |containers| - 1;
      var front := containers[..n];
      BuiltHasLast(front, name);
      if containers[n].name == name {
        assert containers[n] == Planned(name, Built(containers)[name]);
      } else if name in Built(front) {
        var i :| 0 <= i < |front| && front[i] == Planned(name, Built(front)[name])
                 && forall j | i < j < |front| :: front[j].name != name;
        assert containers[i] == Planned(name, Built(containers)[name]);
      }
    }
  }

  /** Containers of different names start with different addresses. */
  lemma BuiltAddressesDiffer(b: BuilderState, x: string, y: string)
    requires Distinct(b) && x != y && x in Built(b.containers) && y in Built(b.containers)
    ensures Built(b.containers)[x] != Built(b.containers)[y]
  {
    BuiltHasLast(b.containers, x);
    BuiltHasLast(b.containers, y);
  }

  // ---- the builder ----

  class Builder {
    var containers: seq<Planned>
    var existingContainers: map<string, Existing>
    var network: Ipv4Network
    var networkMode: Option<NetworkMode>

    function State(): BuilderState
      reads this
    {
      BuilderState(containers, existingContainers, network, networkMode)
    }

    constructor ()
      ensures State() == BuilderState([], map[], TEST_NET_NETWORK, None)
    {
      containers, existingContainers, network, networkMode := [], map[], TEST_NET_NETWORK, None;
    }

    /** The scan over the last octet. */
    method FindNextIp() returns (r: Option<Ipv4>)
      ensures r == NextIp(State())
    {
      for o := 2 to 256
        invariant FirstFree(network, Used(State()), o) == NextIp(State())
      {
        match network.Nth(o)
        case None =>
        case Some(ip) =>
          if (forall name | name in existingContainers :: existingContainers[name].ip != ip)
             && (forall i | 0 <= i < |containers| :: containers[i].ip != ip)
          {
            assert ip !in Used(State());
            return Some(ip);
          }
          assert ip in Used(State());
      }
      r := None;
    }

    /** `panics` when there is no address left; the builder is then as it was. */
    method AddContainerSpec(name: string) returns (panics: bool)
      modifies this
      ensures panics <==> Add(old(State()), name).None?
      ensures !panics ==> State() == Add(old(State()), name).value
      ensures panics ==> State() == old(State())
    {
      if name in existingContainers {
        var nextIp := existingContainers[name].ip;
        existingContainers := existingContainers - {name};
        containers := containers + [Planned(name, nextIp)];
        return false;
      }
      var nextIp := LOCALHOST;
      if networkMode != Some(Host) {
        var free := FindNextIp();
        if free.None? {
          return true;
        }
        nextIp := free.value;
      }
      containers := containers + [Planned(name, nextIp)];
      panics := false;
    }
  }

  /** So a builder with room cannot panic. */
  lemma RoomMeansNoPanic(b: BuilderState, name: string)
    requires |b.containers| + |b.existing| < Candidates(b.network)
    ensures Add(b, name).Some?
  {
    UsedIsBounded(b);
    RoomMeansAddress(b.network, Used(b));
  }
}
