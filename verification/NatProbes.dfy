/** NAT classification and port probing (extras/realm/nat.go). The three-tier generator of
    port guesses is proved to return what picking the first acceptable ones from a single
    stream of guesses would: neighbours, then the extrapolated stride, then random draws. */
module NatProbes {
  import Aead
  import opened Net
  import opened Sorting

  const SEQUENTIAL_SPAN: nat := 64
  const STRIDE_PROBES: nat := 16
  const MISS_LIMIT: nat := 256
  const MIN_PROBE_PORT: nat := 1024
  const MAX_PORT: nat := 65535

  datatype NatClass = Unknown | EndpointIndependent | EndpointDependent

  // ------------------------------------------------------------ classification

  predicate Conflict(a: AddrPort, b: AddrPort) {
    !a.addr.NoAddr? && !b.addr.NoAddr? && Unmap(a.addr) == Unmap(b.addr) && a.port != b.port
  }

  /** ClassifyNAT: two ports seen on one address are conclusive, and nothing else is. */
  method Classify(observed: seq<AddrPort>) returns (c: NatClass)
    ensures c == EndpointDependent <==> exists a, b | a in observed && b in observed :: Conflict(a, b)
    ensures c != EndpointDependent ==> c == Unknown
  {
    var ports: map<Addr, u16> := map[];
    for i := 0 to |observed|
      invariant forall k | 0 <= k < i && !observed[k].addr.NoAddr? ::
                  Unmap(observed[k].addr) in ports && ports[Unmap(observed[k].addr)] == observed[k].port
      invariant forall ip | ip in ports ::
                  exists k :: 0 <= k < i && !observed[k].addr.NoAddr? && Unmap(observed[k].addr) == ip && observed[k].port == ports[ip]
    {
      var a := observed[i];
      if a.addr.NoAddr? {
        continue;
      }
      var ip := Unmap(a.addr);
      if ip in ports && ports[ip] != a.port {
        var k :| 0 <= k < i && !observed[k].addr.NoAddr? && Unmap(observed[k].addr) == ip && observed[k].port == ports[ip];
        assert Conflict(observed[k], a);
        return EndpointDependent;
      }
      ports := ports[ip := a.port];
    }
    return Unknown;
  }

  // ------------------------------------------------------------ hosts worth probing

  const BY_PORT: u16 -> int := (p: u16) => p

  /** The ports a host announced. */
  function Announced(addrs: seq<AddrPort>, ip: Addr): set<u16> {
    set a | a in addrs && a.addr == ip :: a.port
  }

  /** An IPv4 host that announced two ports, or any when probing is forced. */
  predicate WorthProbing(addrs: seq<AddrPort>, ip: Addr, force: bool) {
    && ip.V4?
    && Announced(addrs, ip) != {}
    && (force || |Announced(addrs, ip)| >= 2)
  }

  predicate Ascending(ports: seq<u16>) {
    forall i, j | 0 <= i < j < |ports| :: ports[i] < ports[j]
  }

  /** slices.Compact on a sorted list. */
  function Compact(s: seq<u16>): seq<u16> {
    if |s| <= 1 then s
    else if s[0] == s[1] then Compact(s[1..])
    else [s[0]] + Compact(s[1..])
  }

  lemma SortedTail(s: seq<u16>)
    requires Sorted(BY_PORT, s) && |s| > 1
    ensures Sorted(BY_PORT, s[1..]) && s[0] <= s[1]
  {
    var rest := s[1..];
    forall i, j | 0 <= i < j < |rest|
      ensures BY_PORT(rest[i]) <= BY_PORT(rest[j])
    {
      assert BY_PORT(s[i + 1]) <= BY_PORT(s[j + 1]);
    }
    assert BY_PORT(s[0]) <= BY_PORT(s[1]);
  }

  lemma AscendingCons(p: u16, s: seq<u16>)
    requires Ascending(s) && s != [] && p < s[0]
    ensures Ascending([p] + s)
  {
    assert forall i | 0 <= i < |s| :: s[0] <= s[i];
  }

  lemma {:induction false} CompactIs(s: seq<u16>)
    requires Sorted(BY_PORT, s)
    ensures Ascending(Compact(s))
    ensures forall p :: p in Compact(s) <==> p in s
    ensures s != [] ==> Compact(s) != [] && Compact(s)[0] == s[0]
  {
    if |s| > 1 {
      var rest := s[1..];
      SortedTail(s);
      assert s == [s[0]] + rest;
      CompactIs(rest);
      if s[0] != s[1] {
        AscendingCons(s[0], Compact(rest));
      }
    }
  }

  function UniqueSorted(s: seq<u16>): seq<u16> {
    Compact(Sort(BY_PORT, s))
  }

  function Elements<T>(s: seq<T>): set<T> {
    set x | x in s
  }

  lemma ElementsSnoc<T>(s: seq<T>, x: T)
    ensures Elements(s + [x]) == Elements(s) + {x}
  {
  }

  lemma {:induction false} AscendingCount(s: seq<u16>)
    requires Ascending(s)
    ensures |Elements(s)| == |s|
  {
    if s == [] {
      assert Elements(s) == {};
    } else {
      var front, last := s[..|s| - 1], s[|s| - 1];
      AscendingCount(front);
      ElementsSnoc(front, last);
      assert s == front + [last];
      assert last !in front;
    }
  }

  lemma UniqueSortedIs(s: seq<u16>)
    ensures Ascending(UniqueSorted(s))
    ensures Elements(UniqueSorted(s)) == Elements(s)
    ensures |UniqueSorted(s)| == |Elements(s)|
  {
    SortSorts(BY_PORT, s);
    CompactIs(Sort(BY_PORT, s));
    AscendingCount(UniqueSorted(s));
  }

  /** The ports announced by each IPv4 host, in the order they were announced. */
  method GroupByHost(addrs: seq<AddrPort>) returns (byHost: map<Addr, seq<u16>>)
    ensures forall ip :: ip in byHost <==> ip.V4? && Announced(addrs, ip) != {}
    ensures forall ip | ip in byHost :: Elements(byHost[ip]) == Announced(addrs, ip)
  {
    byHost := map[];
    for i := 0 to |addrs|
      invariant forall ip :: ip in byHost <==> ip.V4? && Announced(addrs[..i], ip) != {}
      invariant forall ip | ip in byHost :: Elements(byHost[ip]) == Announced(addrs[..i], ip)
    {
      var a := addrs[i];
      AnnouncedGrows(addrs, i);
      if !a.addr.V4? {
        continue;
      }
      var before := if a.addr in byHost then byHost[a.addr] else [];
      ElementsSnoc(before, a.port);
      byHost := byHost[a.addr := before + [a.port]];
    }
    assert addrs[..|addrs|] == addrs;
  }

  lemma AnnouncedGrows(addrs: seq<AddrPort>, i: nat)
    requires i < |addrs|
    ensures forall ip :: Announced(addrs[..i + 1], ip)
                         == Announced(addrs[..i], ip) + (if addrs[i].addr == ip then {addrs[i].port} else {})
  {
    assert addrs[..i + 1] == addrs[..i] + [addrs[i]];
  }

  /** The hosts worth probing with their announced ports in ascending order. */
  ghost predicate IsHosts(addrs: seq<AddrPort>, force: bool, hosts: map<Addr, seq<u16>>) {
    && (forall ip :: ip in hosts <==> WorthProbing(addrs, ip, force))
    && (forall ip | ip in hosts :: Ascending(hosts[ip]) && Elements(hosts[ip]) == Announced(addrs, ip))
  }

  /** endpointDependentHosts. */
  method DependentHosts(addrs: seq<AddrPort>, force: bool) returns (hosts: map<Addr, seq<u16>>)
    ensures IsHosts(addrs, force, hosts)
  {
    var byHost := GroupByHost(addrs);
    hosts := map[];
    var todo := byHost.Keys;
    while todo != {}
      invariant todo <= byHost.Keys
      invariant forall ip :: ip in hosts <==> ip !in todo && WorthProbing(addrs, ip, force)
      invariant forall ip | ip in hosts :: Ascending(hosts[ip]) && Elements(hosts[ip]) == Announced(addrs, ip)
      decreases todo
    {
      var ip :| ip in todo;
      var ports := UniqueSorted(byHost[ip]);
      UniqueSortedIs(byHost[ip]);
      if |ports| >= 2 || force {
        hosts := hosts[ip := ports];
      }
      todo := todo - {ip};
    }
  }

  /** The hosts in ascending address order. */
  function HostOrder(ip: Addr): int {
    if ip.V4? then Aead.U32(ip.v4) else 0
  }

  ghost predicate IsOrdered(ips: seq<Addr>, hosts: map<Addr, seq<u16>>) {
    && (forall ip :: ip in ips <==> ip in hosts)
    && (forall i, j | 0 <= i < j < |ips| :: HostOrder(ips[i]) <= HostOrder(ips[j]) && ips[i] != ips[j])
  }

  /** The first byte in which they differ is the smaller one's. */
  predicate Below(a: Bytes4, b: Bytes4) {
    exists k | 0 <= k < 4 :: a[k] < b[k] && forall m | 0 <= m < k :: a[m] == b[m]
  }

  lemma NumberedBelow(a: Bytes4, b: Bytes4)
    requires a != b && Aead.U32(a) <= Aead.U32(b)
    ensures Below(a, b)
  {
    var k := if a[0] != b[0] then 0 else if a[1] != b[1] then 1 else if a[2] != b[2] then 2 else 3;
    assert a[..2] == [a[0], a[1]] && b[..2] == [b[0], b[1]];
    assert a[2..] == [a[2], a[3]] && b[2..] == [b[2], b[3]];
    assert a == [a[0], a[1], a[2], a[3]] && b == [b[0], b[1], b[2], b[3]];
    assert a[k] < b[k] && forall m | 0 <= m < k :: a[m] == b[m];
  }

  /** The hosts are taken in the order of their bytes. */
  lemma HostsAscend(peers: seq<AddrPort>, force: bool, ips: seq<Addr>, hosts: map<Addr, seq<u16>>, i: nat, j: nat)
    requires IsHosts(peers, force, hosts) && IsOrdered(ips, hosts) && i < j < |ips|
    ensures ips[i].V4? && ips[j].V4? && Below(ips[i].v4, ips[j].v4)
  {
    assert ips[i] in hosts && ips[j] in hosts;
    assert HostOrder(ips[i]) <= HostOrder(ips[j]) && ips[i] != ips[j];
    NumberedBelow(ips[i].v4, ips[j].v4);
  }

  method SortedHosts(hosts: map<Addr, seq<u16>>) returns (ips: seq<Addr>)
    ensures IsOrdered(ips, hosts)
  {
    var list: seq<Addr> := [];
    var todo := hosts.Keys;
    while todo != {}
      invariant todo <= hosts.Keys
      invariant forall ip :: ip in list <==> ip in hosts && ip !in todo
      invariant forall i, j | 0 <= i < j < |list| :: list[i] != list[j]
      decreases todo
    {
      var ip :| ip in todo;
      list := list + [ip];
      todo := todo - {ip};
    }
    ips := Sort(HostOrder, list);
    SortSorts(HostOrder, list);
    DistinctByCount(list);
    DistinctByCount(ips);
    assert forall i, j | 0 <= i < j < |ips| :: HostOrder(ips[i]) <= HostOrder(ips[j]);
  }

  predicate Distinct<T(==)>(s: seq<T>) {
    forall i, j | 0 <= i < j < |s| :: s[i] != s[j]
  }

  lemma {:induction false} DistinctByCount<T>(s: seq<T>)
    ensures Distinct(s) <==> forall x :: multiset(s)[x] <= 1
  {
    if s != [] {
      var front, last := s[..|s| - 1], s[|s| - 1];
      assert s == front + [last];
      DistinctByCount(front);
      if Distinct(s) {
        assert last !in multiset(front);
      } else if Distinct(front) {
        assert last in multiset(front);
        assert multiset(s)[last] >= 2;
      } else {
        var x :| multiset(front)[x] > 1;
        assert multiset(s)[x] > 1;
      }
    }
  }

  // ------------------------------------------------------------ picking from a stream of guesses

  datatype Guess = Guess(ip: Addr, port: int)

  predicate InRange(g: Guess) {
    MIN_PROBE_PORT <= g.port <= MAX_PORT
  }

  function Target(g: Guess): AddrPort
    requires InRange(g)
  {
    AddrPort(g.ip, g.port)
  }

  predicate Acceptable(announced: set<AddrPort>, g: Guess) {
    InRange(g) && Target(g) !in announced
  }

  function Offer(limit: nat, announced: set<AddrPort>, picked: seq<AddrPort>, g: Guess): seq<AddrPort> {
    if |picked| < limit && Acceptable(announced, g) && Target(g) !in picked then picked + [Target(g)] else picked
  }

  /** Taking each acceptable guess of a stream that was not taken before, while there is room. */
  function Pick(limit: nat, announced: set<AddrPort>, guesses: seq<Guess>): seq<AddrPort> {
    if guesses == [] then []
    else Offer(limit, announced, Pick(limit, announced, guesses[..|guesses| - 1]), guesses[|guesses| - 1])
  }

  lemma PickNext(limit: nat, announced: set<AddrPort>, guesses: seq<Guess>, g: Guess)
    ensures Pick(limit, announced, guesses + [g]) == Offer(limit, announced, Pick(limit, announced, guesses), g)
  {
    assert (guesses + [g])[..|guesses|] == guesses;
  }

  /** The targets of the acceptable guesses, each at its first occurrence. */
  function FirstOccurrences(announced: set<AddrPort>, guesses: seq<Guess>): seq<AddrPort> {
    if guesses == [] then []
    else
      var before := FirstOccurrences(announced, guesses[..|guesses| - 1]);
      var g := guesses[|guesses| - 1];
      if Acceptable(announced, g) && Target(g) !in before then before + [Target(g)] else before
  }

  lemma {:induction false} FirstOccurrencesAre(announced: set<AddrPort>, guesses: seq<Guess>)
    ensures Distinct(FirstOccurrences(announced, guesses))
    ensures forall a :: a in FirstOccurrences(announced, guesses) <==>
                        exists g :: g in guesses && Acceptable(announced, g) && Target(g) == a
  {
    if guesses != [] {
      var front, g := guesses[..|guesses| - 1], guesses[|guesses| - 1];
      assert guesses == front + [g];
      FirstOccurrencesAre(announced, front);
    }
  }

  /** The budget only cuts the list short: it changes neither the choice nor the order. */
  lemma {:induction false} PickIsPrefix(limit: nat, announced: set<AddrPort>, guesses: seq<Guess>)
    ensures var all := FirstOccurrences(announced, guesses);
            Pick(limit, announced, guesses) == if |all| <= limit then all else all[..limit]
  {
    if guesses != [] {
      PickIsPrefix(limit, announced, guesses[..|guesses| - 1]);
    }
  }

  lemma {:induction false} FullPickStays(limit: nat, announced: set<AddrPort>, guesses: seq<Guess>, more: seq<Guess>)
    requires |Pick(limit, announced, guesses)| == limit
    ensures Pick(limit, announced, guesses + more) == Pick(limit, announced, guesses)
  {
    if more == [] {
      assert guesses + more == guesses;
    } else {
      var front, g := more[..|more| - 1], more[|more| - 1];
      FullPickStays(limit, announced, guesses, front);
      assert guesses + more == guesses + front + [g];
      PickNext(limit, announced, guesses + front, g);
    }
  }

  /** What every list of picked probes is: within budget, without repeats, on acceptable ports. */
  lemma PickIsSound(limit: nat, announced: set<AddrPort>, guesses: seq<Guess>)
    ensures var p := Pick(limit, announced, guesses);
            && |p| <= limit && Distinct(p)
            && forall a | a in p :: exists g :: g in guesses && Acceptable(announced, g) && Target(g) == a
  {
    PickIsPrefix(limit, announced, guesses);
    FirstOccurrencesAre(announced, guesses);
    var p, all := Pick(limit, announced, guesses), FirstOccurrences(announced, guesses);
    assert forall a | a in p :: a in all;
  }

  // ------------------------------------------------------------ the three tiers as streams

  function Flatten(rows: seq<seq<Guess>>): seq<Guess> {
    if rows == [] then [] else Flatten(rows[..|rows| - 1]) + rows[|rows| - 1]
  }

  lemma {:induction false} FlattenNext(rows: seq<seq<Guess>>, i: nat)
    requires i < |rows|
    ensures Flatten(rows[..i + 1]) == Flatten(rows[..i]) + rows[i]
    ensures Flatten(rows[..i + 1]) <= Flatten(rows)
    decreases |rows|
  {
    assert rows[..i + 1][..i] == rows[..i];
    if i + 1 == |rows| {
      assert rows[..i + 1] == rows;
    } else {
      var front := rows[..|rows| - 1];
      assert front[..i + 1] == rows[..i + 1] && front[..i] == rows[..i];
      FlattenNext(front, i);
    }
  }

  lemma {:induction false} FlattenHas(rows: seq<seq<Guess>>, g: Guess)
    ensures g in Flatten(rows) <==> exists i | 0 <= i < |rows| :: g in rows[i]
  {
    if rows != [] {
      var n := |rows| - 1;
      FlattenHas(rows[..n], g);
      assert forall i | 0 <= i < n :: rows[..n][i] == rows[i];
    }
  }

  lemma Associates(a: seq<Guess>, b: seq<Guess>, c: seq<Guess>)
    ensures a + b + c == a + (b + c)
  {
  }

  function PortsOf(hosts: map<Addr, seq<u16>>, ip: Addr): seq<u16> {
    if ip in hosts then hosts[ip] else []
  }

  function PortRows(ip: Addr, ports: seq<u16>, offset: int): seq<seq<Guess>> {
    seq(|ports|, i requires 0 <= i < |ports| => [Guess(ip, ports[i] + offset), Guess(ip, ports[i] - offset)])
  }

  function HostRows(ips: seq<Addr>, hosts: map<Addr, seq<u16>>, offset: int): seq<seq<Guess>> {
    seq(|ips|, i requires 0 <= i < |ips| => Flatten(PortRows(ips[i], PortsOf(hosts, ips[i]), offset)))
  }

  function OffsetRows(ips: seq<Addr>, hosts: map<Addr, seq<u16>>, span: nat): seq<seq<Guess>> {
    seq(span, i requires 0 <= i < span => Flatten(HostRows(ips, hosts, i + 1)))
  }

  /** Every announced port plus and minus 1, then plus and minus 2, and so on, the hosts taken in turn. */
  function Tier1(ips: seq<Addr>, hosts: map<Addr, seq<u16>>): seq<Guess> {
    Flatten(OffsetRows(ips, hosts, SEQUENTIAL_SPAN))
  }

  function Step(ports: seq<u16>, i: nat): int
    requires 0 < i < |ports|
  {
    ports[i] as int - ports[i - 1] as int
  }

  /** The announced ports are an arithmetic progression with this positive step. */
  predicate IsStride(ports: seq<u16>, d: int) {
    && |ports| >= 2
    && d > 0
    && forall i | 0 < i < |ports| :: Step(ports, i) == d
  }

  method PortStride(ports: seq<u16>) returns (d: int, ok: bool)
    ensures ok ==> IsStride(ports, d)
    ensures !ok ==> forall e :: !IsStride(ports, e)
  {
    if |ports| < 2 {
      return 0, false;
    }
    var stride := Step(ports, 1);
    if stride <= 0 {
      return 0, false;
    }
    for i := 2 to |ports|
      invariant forall j | 0 < j < i :: Step(ports, j) == stride
    {
      if Step(ports, i) != stride {
        assert Step(ports, 1) == stride;
        return 0, false;
      }
    }
    return stride, true;
  }

  /** The progression continued past its last announced port, one guess a step. */
  function StrideRows(ip: Addr, ports: seq<u16>): seq<seq<Guess>>
    requires |ports| >= 2
  {
    seq(STRIDE_PROBES, i => [Guess(ip, ports[|ports| - 1] + Step(ports, 1) * (i + 1))])
  }

  function Extrapolated(ip: Addr, ports: seq<u16>): seq<Guess> {
    if |ports| >= 2 && IsStride(ports, Step(ports, 1)) then Flatten(StrideRows(ip, ports)) else []
  }

  function StrideHostRows(ips: seq<Addr>, hosts: map<Addr, seq<u16>>): seq<seq<Guess>> {
    seq(|ips|, i requires 0 <= i < |ips| => Extrapolated(ips[i], PortsOf(hosts, ips[i])))
  }

  /** Each host's constant stride, where it has one, extrapolated. */
  function Tier2(ips: seq<Addr>, hosts: map<Addr, seq<u16>>): seq<Guess> {
    Flatten(StrideHostRows(ips, hosts))
  }

  /** Random guesses: any port in range, on one of the hosts. */
  predicate AreDraws(ips: seq<Addr>, draws: seq<Guess>) {
    forall g | g in draws :: g.ip in ips && InRange(g)
  }

  /** The last 256 rounds of draws hit only ports already announced or already taken. */
  ghost predicate Exhausted(announced: set<AddrPort>, probes: seq<AddrPort>, ips: seq<Addr>, draws: seq<Guess>) {
    var rest := 256 * |ips|;
    && rest <= |draws|
    && forall g | g in draws[|draws| - rest..] :: !Acceptable(announced, g) || Target(g) in probes
  }

  function AnnouncedPorts(peers: seq<AddrPort>): set<AddrPort> {
    set a | a in peers :: Normalised(a)
  }

  // ------------------------------------------------------------ the generator

  /** The variables the generator's add closure captures. The stream is every guess that was
      offered, including those a full list made it skip. */
  class Prober {
    const limit: nat
    var seen: set<AddrPort>
    var probes: seq<AddrPort>
    ghost const announced: set<AddrPort>
    ghost var stream: seq<Guess>

    ghost predicate Valid()
      reads this
    {
      && seen == announced + Elements(probes)
      && probes == Pick(limit, announced, stream)
      && |probes| <= limit
    }

    constructor (limit: nat, peers: seq<AddrPort>)
      ensures Valid() && stream == [] && this.limit == limit
      ensures announced == AnnouncedPorts(peers)
    {
      this.limit := limit;
      seen := AnnouncedPorts(peers);
      announced := AnnouncedPorts(peers);
      probes := [];
      stream := [];
    }

    method Add(ip: Addr, port: int) returns (room: bool)
      requires Valid()
      modifies `seen, `probes, `stream
      ensures Valid() && stream == old(stream) + [Guess(ip, port)]
      ensures room <==> |old(probes)| < limit
      ensures old(probes) <= probes
      ensures probes == old(probes) ==> !room || Refused(Guess(ip, port))
    {
      ghost var g := Guess(ip, port);
      PickNext(limit, announced, stream, g);
      stream := stream + [g];
      if |probes| >= limit {
        return false;
      }
      if port < MIN_PROBE_PORT || port > MAX_PORT {
        return true;
      }
      var addr := AddrPort(ip, port);
      if addr in seen {
        return true;
      }
      ElementsSnoc(probes, addr);
      seen := seen + {addr};
      probes := probes + [addr];
      return true;
    }

    /** A guess that would not be taken: out of range, announced or already taken. */
    ghost predicate Refused(g: Guess)
      reads `probes
    {
      !Acceptable(announced, g) || Target(g) in probes
    }

    /** Skipping guesses once the list is full, as breaking out of a loop does. */
    ghost method SkipTo(base: seq<Guess>, part: seq<Guess>, whole: seq<Guess>)
      requires Valid() && |probes| == limit && stream == base + part && part <= whole
      modifies `stream
      ensures Valid() && stream == base + whole
    {
      var rest := whole[|part|..];
      FullPickStays(limit, announced, stream, rest);
      assert whole == part + rest;
      assert stream + rest == base + whole;
      stream := base + whole;
    }

    method AddNeighbours(ip: Addr, ports: seq<u16>, offset: int) returns (room: bool)
      requires Valid()
      modifies `seen, `probes, `stream
      ensures Valid() && stream == old(stream) + Flatten(PortRows(ip, ports, offset))
      ensures !room ==> |probes| == limit
    {
      ghost var base, rows := stream, PortRows(ip, ports, offset);
      ghost var part := [];
      assert Flatten(rows[..0]) == [] && base + part == base;
      for i := 0 to |ports|
        invariant Valid() && part == Flatten(rows[..i]) && stream == base + part
      {
        FlattenNext(rows, i);
        room := AddPair(ip, ports[i], offset);
        Associates(base, part, rows[i]);
        part := part + rows[i];
        if !room {
          SkipTo(base, part, Flatten(rows));
          return;
        }
      }
      assert rows[..|ports|] == rows;
      room := true;
    }

    method AddPair(ip: Addr, port: u16, offset: int) returns (room: bool)
      requires Valid()
      modifies `seen, `probes, `stream
      ensures Valid() && stream == old(stream) + [Guess(ip, port + offset), Guess(ip, port - offset)]
      ensures !room ==> |probes| == limit
    {
      ghost var base := stream;
      ghost var pair := [Guess(ip, port + offset), Guess(ip, port - offset)];
      room := Add(ip, port + offset);
      if !room {
        SkipTo(base, pair[..1], pair);
        return;
      }
      room := Add(ip, port - offset);
    }

    method AddNeighboursOfAll(ips: seq<Addr>, hosts: map<Addr, seq<u16>>, offset: int) returns (room: bool)
      requires Valid()
      modifies `seen, `probes, `stream
      ensures Valid() && stream == old(stream) + Flatten(HostRows(ips, hosts, offset))
      ensures !room ==> |probes| == limit
    {
      ghost var base, rows := stream, HostRows(ips, hosts, offset);
      ghost var part := [];
      assert Flatten(rows[..0]) == [] && base + part == base;
      for i := 0 to |ips|
        invariant Valid() && part == Flatten(rows[..i]) && stream == base + part
      {
        FlattenNext(rows, i);
        room := AddNeighbours(ips[i], PortsOf(hosts, ips[i]), offset);
        Associates(base, part, rows[i]);
        part := part + rows[i];
        if !room {
          SkipTo(base, part, Flatten(rows));
          return;
        }
      }
      assert rows[..|ips|] == rows;
      room := true;
    }

    method AddTier1(ips: seq<Addr>, hosts: map<Addr, seq<u16>>)
      requires Valid()
      modifies `seen, `probes, `stream
      ensures Valid() && stream == old(stream) + Tier1(ips, hosts)
    {
      ghost var base, rows := stream, OffsetRows(ips, hosts, SEQUENTIAL_SPAN);
      ghost var part := [];
      assert Flatten(rows[..0]) == [] && base + part == base;
      for offset := 1 to SEQUENTIAL_SPAN + 1
        invariant Valid() && part == Flatten(rows[..offset - 1]) && stream == base + part
      {
        FlattenNext(rows, offset - 1);
        var room := AddNeighboursOfAll(ips, hosts, offset);
        Associates(base, part, rows[offset - 1]);
        part := part + rows[offset - 1];
        if !room {
          SkipTo(base, part, Flatten(rows));
          return;
        }
      }
      assert rows[..SEQUENTIAL_SPAN] == rows;
    }

    method AddTier2(ips: seq<Addr>, hosts: map<Addr, seq<u16>>)
      requires Valid()
      modifies `seen, `probes, `stream
      ensures Valid() && stream == old(stream) + Tier2(ips, hosts)
    {
      ghost var base, rows := stream, StrideHostRows(ips, hosts);
      ghost var part := [];
      assert Flatten(rows[..0]) == [] && base + part == base;
      for i := 0 to |ips|
        invariant Valid() && part == Flatten(rows[..i]) && stream == base + part
      {
        FlattenNext(rows, i);
        AddExtrapolated(ips[i], PortsOf(hosts, ips[i]));
        Associates(base, part, rows[i]);
        part := part + rows[i];
      }
      assert rows[..|ips|] == rows;
    }

    method AddExtrapolated(ip: Addr, ports: seq<u16>)
      requires Valid()
      modifies `seen, `probes, `stream
      ensures Valid() && stream == old(stream) + Extrapolated(ip, ports)
    {
      var stride, ok := PortStride(ports);
      if !ok {
        assert Extrapolated(ip, ports) == [];
        return;
      }
      var last := ports[|ports| - 1];
      ghost var base, rows := stream, StrideRows(ip, ports);
      ghost var part := [];
      assert Flatten(rows[..0]) == [] && base + part == base;
      for i := 1 to STRIDE_PROBES + 1
        invariant Valid() && part == Flatten(rows[..i - 1]) && stream == base + part
      {
        FlattenNext(rows, i - 1);
        var room := Add(ip, last + stride * i);
        Associates(base, part, rows[i - 1]);
        part := part + rows[i - 1];
        if !room {
          SkipTo(base, part, Flatten(rows));
          return;
        }
      }
      assert rows[..STRIDE_PROBES] == rows;
    }

    /** One random guess for each host in turn, until the list is full. */
    method AddRound(ips: seq<Addr>) returns (ghost round: seq<Guess>)
      requires Valid()
      modifies `seen, `probes, `stream
      ensures Valid() && stream == old(stream) + round
      ensures AreDraws(ips, round) && old(probes) <= probes
      ensures probes == old(probes) && |probes| < limit ==> |round| == |ips| && forall g | g in round :: Refused(g)
    {
      round := [];
      for i := 0 to |ips|
        invariant Valid() && stream == old(stream) + round
        invariant |round| == i && AreDraws(ips, round) && old(probes) <= probes
        invariant probes == old(probes) && |probes| < limit ==> forall g | g in round :: Refused(g)
      {
        var port :| MIN_PROBE_PORT <= port <= MAX_PORT;
        round := round + [Guess(ips[i], port)];
        var room := Add(ips[i], port);
        if !room {
          break;
        }
      }
    }

    method AddTier3(ips: seq<Addr>) returns (ghost draws: seq<Guess>)
      requires Valid()
      modifies `seen, `probes, `stream
      ensures Valid() && stream == old(stream) + draws && AreDraws(ips, draws)
      ensures |probes| < limit ==> Exhausted(announced, probes, ips, draws)
    {
      draws := [];
      ghost var missed: seq<Guess> := [];
      var misses := 0;
      while |probes| < limit && misses < MISS_LIMIT
        invariant Valid() && stream == old(stream) + draws && AreDraws(ips, draws)
        invariant misses <= MISS_LIMIT
        invariant |missed| <= |draws| && draws[|draws| - |missed|..] == missed
        invariant |probes| < limit ==> |missed| == misses * |ips| && forall g | g in missed :: Refused(g)
        decreases limit - |probes|, MISS_LIMIT - misses
      {
        ghost var was := probes;
        var before := |probes|;
        ghost var round := AddRound(ips);
        draws := draws + round;
        if |probes| == before {
          assert probes == was;
          missed := missed + round;
          misses := misses + 1;
          continue;
        }
        missed := [];
        misses := 0;
      }
    }
  }

  /** The port is d away from one of these. */
  predicate Beside(ports: seq<u16>, port: int, d: int) {
    exists i | 0 <= i < |ports| :: port == ports[i] + d || port == ports[i] - d
  }

  /** The port is one of the 64 on either side of one of these. */
  predicate Near(ports: seq<u16>, port: int) {
    exists i | 0 <= i < |ports| :: 1 <= port - ports[i] <= 64 || 1 <= ports[i] - port <= 64
  }

  /** Where the progression of these ports is after i more steps. */
  function Continued(ports: seq<u16>, i: nat): int
    requires |ports| >= 2
  {
    ports[|ports| - 1] + (ports[1] - ports[0] as int) * i
  }

  /** The port is one of the next sixteen of an arithmetic progression. */
  predicate Ahead(ports: seq<u16>, port: int) {
    && |ports| >= 2 && IsStride(ports, ports[1] as int - ports[0] as int)
    && exists i | 1 <= i <= 16 :: port == Continued(ports, i)
  }

  lemma NeighboursOnHost(ip: Addr, ports: seq<u16>, offset: int, g: Guess)
    ensures g in Flatten(PortRows(ip, ports, offset)) <==> g.ip == ip && Beside(ports, g.port, offset)
  {
    var rows := PortRows(ip, ports, offset);
    FlattenHas(rows, g);
    assert forall i | 0 <= i < |rows| ::
        g in rows[i] <==> g.ip == ip && (g.port == ports[i] + offset || g.port == ports[i] - offset);
  }

  lemma NeighboursOnHosts(ips: seq<Addr>, hosts: map<Addr, seq<u16>>, offset: int, g: Guess)
    ensures g in Flatten(HostRows(ips, hosts, offset)) <==> g.ip in ips && Beside(PortsOf(hosts, g.ip), g.port, offset)
  {
    var rows := HostRows(ips, hosts, offset);
    FlattenHas(rows, g);
    forall i | 0 <= i < |ips|
      ensures g in rows[i] <==> g.ip == ips[i] && Beside(PortsOf(hosts, g.ip), g.port, offset)
    {
      NeighboursOnHost(ips[i], PortsOf(hosts, ips[i]), offset, g);
    }
  }

  lemma NearIsBeside(ports: seq<u16>, port: int)
    ensures Near(ports, port) <==> exists d: nat | 1 <= d <= 64 :: Beside(ports, port, d)
  {
    if Near(ports, port) {
      var i :| 0 <= i < |ports| && (1 <= port - ports[i] <= 64 || 1 <= ports[i] - port <= 64);
      var d: nat := if port > ports[i] then port - ports[i] else ports[i] - port;
      assert Beside(ports, port, d);
    }
  }

  /** The first tier is every port within 64 of an announced one, on its host, taken in order
      of distance. */
  lemma Tier1Is(ips: seq<Addr>, hosts: map<Addr, seq<u16>>, g: Guess)
    ensures g in Tier1(ips, hosts) <==> g.ip in ips && Near(PortsOf(hosts, g.ip), g.port)
    ensures Tier1(ips, hosts) == Flatten(OffsetRows(ips, hosts, 64))
    ensures forall i | 0 <= i < 64 ::
              g in OffsetRows(ips, hosts, 64)[i] <==> g.ip in ips && Beside(PortsOf(hosts, g.ip), g.port, i + 1)
  {
    var rows := OffsetRows(ips, hosts, SEQUENTIAL_SPAN);
    FlattenHas(rows, g);
    forall i | 0 <= i < 64
      ensures g in rows[i] <==> g.ip in ips && Beside(PortsOf(hosts, g.ip), g.port, i + 1)
    {
      NeighboursOnHosts(ips, hosts, i + 1, g);
    }
    NearIsBeside(PortsOf(hosts, g.ip), g.port);
    if d: nat :| 1 <= d <= 64 && Beside(PortsOf(hosts, g.ip), g.port, d) {
      assert g.ip in ips ==> g in rows[d - 1];
    }
  }

  lemma StrideIsStep(ports: seq<u16>)
    requires |ports| >= 2
    ensures Step(ports, 1) == ports[1] as int - ports[0] as int
  {
  }

  lemma ExtrapolatedIs(ip: Addr, ports: seq<u16>, g: Guess)
    ensures g in Extrapolated(ip, ports) <==> g.ip == ip && Ahead(ports, g.port)
  {
    if |ports| >= 2 && IsStride(ports, Step(ports, 1)) {
      var rows := StrideRows(ip, ports);
      FlattenHas(rows, g);
      assert forall i | 0 <= i < |rows| :: rows[i] == [Guess(ip, Continued(ports, i + 1))];
      if i: nat :| 1 <= i <= 16 && g.port == Continued(ports, i) {
        assert g.ip == ip ==> g in rows[i - 1];
      }
    }
  }

  /** The second tier is the next sixteen steps past the last announced port of each host whose
      ports are an arithmetic progression. */
  lemma Tier2Is(ips: seq<Addr>, hosts: map<Addr, seq<u16>>, g: Guess)
    ensures g in Tier2(ips, hosts) <==> g.ip in ips && Ahead(PortsOf(hosts, g.ip), g.port)
  {
    var rows := StrideHostRows(ips, hosts);
    FlattenHas(rows, g);
    forall k | 0 <= k < |ips|
      ensures g in rows[k] <==> g.ip == ips[k] && Ahead(PortsOf(hosts, g.ip), g.port)
    {
      ExtrapolatedIs(ips[k], PortsOf(hosts, ips[k]), g);
    }
  }

  /** Distinct new ports at or above 1024, all on hosts worth probing. */
  ghost predicate AreProbes(peers: seq<AddrPort>, force: bool, probes: seq<AddrPort>) {
    && Distinct(probes)
    && forall a | a in probes :: a.port >= MIN_PROBE_PORT && a !in AnnouncedPorts(peers) && WorthProbing(peers, a.addr, force)
  }

  lemma GuessesGiveProbes(peers: seq<AddrPort>, force: bool, limit: nat, ips: seq<Addr>,
                          hosts: map<Addr, seq<u16>>, guesses: seq<Guess>)
    requires IsHosts(peers, force, hosts) && IsOrdered(ips, hosts)
    requires forall g | g in guesses :: g.ip in ips
    ensures AreProbes(peers, force, Pick(limit, AnnouncedPorts(peers), guesses))
    ensures |Pick(limit, AnnouncedPorts(peers), guesses)| <= limit
  {
    PickIsSound(limit, AnnouncedPorts(peers), guesses);
  }

  /** The stream the probes are picked from: the cheap guesses first. */
  function Guesses(ips: seq<Addr>, hosts: map<Addr, seq<u16>>, draws: seq<Guess>): seq<Guess> {
    Tier1(ips, hosts) + Tier2(ips, hosts) + draws
  }

  lemma GuessesOnHosts(ips: seq<Addr>, hosts: map<Addr, seq<u16>>, draws: seq<Guess>)
    requires AreDraws(ips, draws)
    ensures forall g | g in Guesses(ips, hosts, draws) :: g.ip in ips
  {
    forall g | g in Guesses(ips, hosts, draws) ensures g.ip in ips {
      Tier1Is(ips, hosts, g);
      Tier2Is(ips, hosts, g);
    }
  }

  method Generate(peers: seq<AddrPort>, limit: nat, ips: seq<Addr>, hosts: map<Addr, seq<u16>>)
    returns (probes: seq<AddrPort>, ghost draws: seq<Guess>)
    ensures AreDraws(ips, draws)
    ensures probes == Pick(limit, AnnouncedPorts(peers), Guesses(ips, hosts, draws))
    ensures |probes| < limit ==> Exhausted(AnnouncedPorts(peers), probes, ips, draws)
  {
    var p := new Prober(limit, peers);
    p.AddTier1(ips, hosts);
    p.AddTier2(ips, hosts);
    assert p.stream == Tier1(ips, hosts) + Tier2(ips, hosts);
    draws := p.AddTier3(ips);
    probes := p.probes;
  }

  /** The probes are the first acceptable guesses of the three tiers in their order, up to the
      limit, and fall short of it only after 256 rounds of draws in a row that hit nothing new. */
  ghost predicate IsProbeList(peers: seq<AddrPort>, limit: int, force: bool, probes: seq<AddrPort>,
                              ips: seq<Addr>, hosts: map<Addr, seq<u16>>, draws: seq<Guess>) {
    && IsHosts(peers, force, hosts) && IsOrdered(ips, hosts) && AreDraws(ips, draws)
    && (limit <= 0 || ips == [] ==> probes == [])
    && (limit > 0 && ips != [] ==>
          && probes == Pick(limit, AnnouncedPorts(peers), Guesses(ips, hosts, draws))
          && (|probes| < limit ==> Exhausted(AnnouncedPorts(peers), probes, ips, draws)))
  }

  ghost predicate AreGenerated(peers: seq<AddrPort>, limit: int, force: bool, probes: seq<AddrPort>) {
    exists ips, hosts, draws :: IsProbeList(peers, limit, force, probes, ips, hosts, draws)
  }

  /** symmetricNATProbes: it ends for every sequence of draws. */
  method SymmetricProbes(peers: seq<AddrPort>, limit: int, force: bool)
    returns (probes: seq<AddrPort>, ghost ips: seq<Addr>, ghost hosts: map<Addr, seq<u16>>, ghost draws: seq<Guess>)
    ensures IsProbeList(peers, limit, force, probes, ips, hosts, draws)
    ensures AreProbes(peers, force, probes) && |probes| <= if limit > 0 then limit else 0
  {
    var table := DependentHosts(peers, force);
    var list := SortedHosts(table);
    hosts, ips, draws, probes := table, list, [], [];
    if limit <= 0 || list == [] {
      return;
    }
    probes, draws := Generate(peers, limit, list, table);
    GuessesOnHosts(ips, hosts, draws);
    GuessesGiveProbes(peers, force, limit, ips, hosts, Guesses(ips, hosts, draws));
  }

  lemma RoomyPickHasAll(limit: nat, announced: set<AddrPort>, guesses: seq<Guess>, g: Guess)
    requires g in guesses && Acceptable(announced, g) && |Pick(limit, announced, guesses)| < limit
    ensures Target(g) in Pick(limit, announced, guesses)
  {
    PickIsPrefix(limit, announced, guesses);
    FirstOccurrencesAre(announced, guesses);
  }

  /** A list with room to spare holds every unannounced port from 1024 to 65535 that is within
      64 of one its host announced, or among the next sixteen of ports evenly spaced. */
  lemma GuessedPortsProbed(peers: seq<AddrPort>, limit: int, force: bool, probes: seq<AddrPort>, ips: seq<Addr>,
                           hosts: map<Addr, seq<u16>>, draws: seq<Guess>, ip: Addr, port: u16)
    requires IsProbeList(peers, limit, force, probes, ips, hosts, draws) && |probes| < limit
    requires WorthProbing(peers, ip, force) && 1024 <= port && AddrPort(ip, port) !in AnnouncedPorts(peers)
    requires Near(PortsOf(hosts, ip), port) || Ahead(PortsOf(hosts, ip), port)
    ensures AddrPort(ip, port) in probes
    ensures Ascending(PortsOf(hosts, ip)) && Elements(PortsOf(hosts, ip)) == Announced(peers, ip)
  {
    var g := Guess(ip, port);
    Tier1Is(ips, hosts, g);
    Tier2Is(ips, hosts, g);
    RoomyPickHasAll(limit, AnnouncedPorts(peers), Guesses(ips, hosts, draws), g);
  }
}
