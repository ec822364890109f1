/** Resolving a hole punching attempt into a plan (extras/realm/punch_engine.go): whom to send
    to, how fast, for how long, and whose answer to believe. */
module PunchPlans {
  import opened Clock
  import opened Nat = NatProbes
  import opened Net
  import opened Results
  import opened Sorting

  const DEFAULT_TIMEOUT: int := 10 * SECOND
  const DEFAULT_INTERVAL: int := 100 * MILLISECOND
  const DEFAULT_PROBES: int := 1024
  const DEFAULT_PROBE_RATE: int := 100
  const DEFAULT_PROBE_BUDGET: int := 20 * SECOND
  const DEFAULT_PROBING_TIMEOUT: int := DEFAULT_PROBE_BUDGET
  const DEFAULT_BOTH_ENDS_TIMEOUT: int := 2 * SECOND
  const MAX_PEER_ADDRS: nat := 16
  const MAX_PROBES: int := 4096

  // ------------------------------------------------------------ whom to punch at

  predicate IsUnspecified(a: Addr) {
    a == V4([0, 0, 0, 0]) || a == V6(ZERO16, "")
  }

  const ZERO16: Bytes16 := [0, 0, 0, 0, 0, 0, 0, 0, 0, 0, 0, 0, 0, 0, 0, 0]
  const ONE16: Bytes16 := [0, 0, 0, 0, 0, 0, 0, 0, 0, 0, 0, 0, 0, 0, 0, 1]

  predicate IsLoopback(a: Addr) {
    match Unmap(a)
    case NoAddr => false
    case V4(v4) => v4[0] == 127
    case V6(v6, _) => v6 == ONE16
  }

  predicate IsMulticast(a: Addr) {
    match Unmap(a)
    case NoAddr => false
    case V4(v4) => v4[0] / 16 == 0xE
    case V6(v6, _) => v6[0] == 0xFF
  }

  predicate PunchableTarget(a: AddrPort, allowLoopback: bool) {
    && !a.addr.NoAddr? && a.port != 0
    && !IsUnspecified(a.addr) && !IsMulticast(a.addr)
    && (!IsLoopback(a.addr) || allowLoopback)
  }

  datatype Family = AnyFamily | IPv4 | IPv6

  /** The family a socket is restricted to: by configuration, or by its own address. */
  function EffectiveFamily(family: Family, local: Option<Addr>): Family {
    if family != AnyFamily || local.None? || local.value.NoAddr? || IsUnspecified(Unmap(local.value)) then family
    else if Unmap(local.value).V4? then IPv4
    else IPv6
  }

  predicate HasFamily(locals: seq<AddrPort>, v4: bool) {
    exists a | a in locals :: if v4 then a.addr.V4? else a.addr.V6?
  }

  predicate FamilyAllows(locals: seq<AddrPort>, family: Family, a: Addr) {
    match family
    case IPv4 => a.V4?
    case IPv6 => a.V6?
    case AnyFamily =>
      if !HasFamily(locals, true) && !HasFamily(locals, false) then !a.NoAddr?
      else (a.V4? && HasFamily(locals, true)) || (a.V6? && HasFamily(locals, false))
  }

  /** The candidate a peer address turns into can be punched at. */
  predicate Eligible(locals: seq<AddrPort>, family: Family, a: AddrPort) {
    PunchableTarget(a, exists l | l in locals :: IsLoopback(l.addr)) && FamilyAllows(locals, family, a.addr)
  }

  predicate LoopbackIn(locals: seq<AddrPort>) {
    exists l | l in locals :: match Unmap(l.addr)
                              case V4(v4) => v4[0] == 127
                              case V6(v6, _) => v6 == ONE16
                              case NoAddr => false
  }

  /** An IPv4 candidate is punched at unless its port is zero, it is 0.0.0.0, a multicast address
      of 224 to 239, or on 127 without such an address here, or its family is not wanted: not
      asked for, or asked for none and the local addresses are all of the other. */
  lemma EligibleV4(locals: seq<AddrPort>, family: Family, v4: Bytes4, port: u16)
    ensures Eligible(locals, family, AddrPort(V4(v4), port)) <==>
              && port != 0 && v4 != [0, 0, 0, 0] && !(224 <= v4[0] <= 239)
              && (v4[0] == 127 ==> LoopbackIn(locals))
              && (family == IPv4 ||
                  (family == AnyFamily && ((exists l | l in locals :: l.addr.V4?) || !exists l | l in locals :: l.addr.V6?)))
  {
    assert LoopbackIn(locals) <==> exists l | l in locals :: IsLoopback(l.addr);
  }

  /** And an IPv6 one likewise, for ::, the block ff00::/8 and ::1. */
  lemma EligibleV6(locals: seq<AddrPort>, family: Family, v6: Bytes16, zone: string, port: u16)
    requires !Is4In6(V6(v6, zone))
    ensures Eligible(locals, family, AddrPort(V6(v6, zone), port)) <==>
              && port != 0 && !(v6 == ZERO16 && zone == "") && v6[0] != 0xFF
              && (v6 == ONE16 ==> LoopbackIn(locals))
              && (family == IPv6 ||
                  (family == AnyFamily && ((exists l | l in locals :: l.addr.V6?) || !exists l | l in locals :: l.addr.V4?)))
  {
    assert LoopbackIn(locals) <==> exists l | l in locals :: IsLoopback(l.addr);
  }

  /** A socket bound to an address of one family narrows an unrestricted attempt to it. */
  lemma FamilyOfSocket(family: Family, local: Option<Addr>)
    ensures EffectiveFamily(family, local)
            == if family == AnyFamily && local.Some? && !local.value.NoAddr?
                  && Unmap(local.value) != V4([0, 0, 0, 0]) && Unmap(local.value) != V6(ZERO16, "")
               then if Unmap(local.value).V4? then IPv4 else IPv6
               else family
  {
  }

  function EligibleOf(locals: seq<AddrPort>, family: Family, peers: seq<AddrPort>): set<AddrPort> {
    set a | a in peers && Eligible(locals, family, Normalised(a)) :: Normalised(a)
  }

  lemma EligibleNext(locals: seq<AddrPort>, family: Family, peers: seq<AddrPort>, k: nat)
    requires k < |peers|
    ensures EligibleOf(locals, family, peers[..k + 1]) == EligibleOf(locals, family, peers[..k])
              + (if Eligible(locals, family, Normalised(peers[k])) then {Normalised(peers[k])} else {})
  {
    assert peers[..k + 1] == peers[..k] + [peers[k]];
  }

  /** The candidates, without repeats and in textual order, of the first peers only: as many as
      give sixteen, or all of them. */
  ghost predicate IsCandidates(locals: seq<AddrPort>, family: Family, peers: seq<AddrPort>, text: AddrPort -> int,
                               used: nat, targets: seq<AddrPort>) {
    && used <= |peers|
    && Elements(targets) == EligibleOf(locals, family, peers[..used])
    && Distinct(targets) && Sorted(text, targets)
    && |targets| <= MAX_PEER_ADDRS
    && (used < |peers| ==> |targets| == MAX_PEER_ADDRS)
  }

  method CandidateAddrs(locals: seq<AddrPort>, peers: seq<AddrPort>, family: Family, text: AddrPort -> int)
    returns (targets: seq<AddrPort>)
    ensures exists used :: IsCandidates(locals, family, peers, text, used, targets)
  {
    var seen: set<AddrPort> := {};
    var list: seq<AddrPort> := [];
    ghost var used := 0;
    for i := 0 to |peers|
      invariant used == i
      invariant seen == Elements(list) == EligibleOf(locals, family, peers[..i])
      invariant Distinct(list) && |list| <= MAX_PEER_ADDRS
    {
      if |list| >= MAX_PEER_ADDRS {
        break;
      }
      EligibleNext(locals, family, peers, i);
      used := used + 1;
      var a := Normalised(peers[i]);
      if !Eligible(locals, family, a) || a in seen {
        continue;
      }
      ElementsSnoc(list, a);
      seen := seen + {a};
      list := list + [a];
    }
    targets := Sort(text, list);
    SortKeepsElements(text, list);
    assert IsCandidates(locals, family, peers, text, used, targets);
  }

  lemma SortKeepsElements(text: AddrPort -> int, list: seq<AddrPort>)
    requires Distinct(list)
    ensures var s := Sort(text, list);
            Distinct(s) && Sorted(text, s) && Elements(s) == Elements(list) && |s| == |list|
  {
    SortSorts(text, list);
    DistinctByCount(list);
    DistinctByCount(Sort(text, list));
  }

  // ------------------------------------------------------------ pacing

  const TWO63: int := 0x8000_0000_0000_0000
  const TWO64: int := 0x1_0000_0000_0000_0000

  /** Go's 64-bit signed integers, which wrap around. */
  function Int64(n: int): (r: int)
    ensures -TWO63 <= r < TWO63
  {
    (n + TWO63) % TWO64 - TWO63
  }

  /** probePacing: a burst and the gap between bursts for a rate per second. */
  function ProbePacing(rate: int): (r: (nat, int)) {
    if rate <= 0 then (0, 0)
    else
      var burst := Max(1, rate / 10);
      (burst, Quotient(Int64(SECOND * burst), rate))
  }

  /** The rates up to which the gap's computation does not wrap around. */
  const MAX_PACED_RATE: int := 92_233_720_369

  /** Between 52.6 ms and a second pass between bursts, and they keep to the rate as nearly as
      whole nanoseconds can, exactly when the product of second and burst fits 64 bits. */
  lemma PacingKeepsRate(rate: int)
    requires 0 < rate < TWO63
    ensures var (burst, gap) := ProbePacing(rate);
            (52_631_578 <= gap <= SECOND && gap * rate <= SECOND * burst < (gap + 1) * rate) <==> rate <= MAX_PACED_RATE
  {
    var burst := Max(1, rate / 10);
    if rate <= MAX_PACED_RATE {
      assert Int64(SECOND * burst) == SECOND * burst;
      QuotientIs(SECOND * burst, rate);
      GapBounds(rate, burst, SECOND * burst / rate);
    } else {
      WrappedGapFallsShort(rate, burst);
    }
  }

  lemma QuotientIs(n: nat, d: int)
    requires d > 0
    ensures n / d * d <= n < (n / d + 1) * d
  {
  }

  lemma GapBounds(rate: int, burst: int, gap: int)
    requires 0 < rate && burst == Max(1, rate / 10) && gap * rate <= SECOND * burst < (gap + 1) * rate
    ensures 52_631_578 <= gap <= SECOND
  {
    if gap < 52_631_578 {
      TimesRate(gap + 1, 52_631_578, rate);
      assert false;
    }
    if gap > SECOND {
      TimesRate(SECOND + 1, gap, rate);
      assert false;
    }
  }

  lemma TimesRate(a: int, b: int, rate: int)
    requires a <= b && rate > 0
    ensures a * rate <= b * rate
  {
  }

  lemma WrapsDown(n: int)
    requires n >= TWO63
    ensures Int64(n) <= n - TWO64
  {
    var m := n + TWO63;
    assert m == m / TWO64 * TWO64 + m % TWO64;
  }

  lemma QuotientShort(n: int, d: int)
    requires d > 0
    ensures Quotient(n, d) * d <= n + d
  {
    QuotientIs(if n >= 0 then n else -n, d);
  }

  /** A product that wraps around leaves a gap too small for the rate, if not a negative one. */
  lemma WrappedGapFallsShort(rate: int, burst: int)
    requires MAX_PACED_RATE < rate < TWO63 && burst == rate / 10
    ensures (Quotient(Int64(SECOND * burst), rate) + 1) * rate <= SECOND * burst
  {
    WrapsDown(SECOND * burst);
    QuotientShort(Int64(SECOND * burst), rate);
  }

  /** Past that bound the gap may be anything, but a burst holds every probe a plan can have. */
  lemma PacedOrOneBurst(rate: int)
    requires rate > 0
    ensures ProbePacing(rate).1 > 0 || ProbePacing(rate).0 >= MAX_PROBES
  {
    if rate <= MAX_PACED_RATE {
      PacingKeepsRate(rate);
    }
  }

  // ------------------------------------------------------------ whose answer to believe

  datatype Policy = DefaultPolicy | Candidates | CandidateHosts | AnySource | UnknownPolicy(code: int)

  function ResolvePolicy(policy: Policy, fallback: Policy): Option<Policy> {
    match policy
    case DefaultPolicy => Some(fallback)
    case UnknownPolicy(_) => None
    case _ => Some(policy)
  }

  datatype SourceFilter = SourceFilter(policy: Policy, addrs: set<AddrPort>, hosts: set<Addr>) {
    predicate Allows(from: AddrPort) {
      match policy
      case Candidates => from in addrs
      case CandidateHosts => from.addr in hosts
      case AnySource => true
      case _ => false
    }
  }

  /** What each policy accepts, given everyone the attempt sends to. */
  ghost predicate Expected(policy: Policy, candidates: seq<AddrPort>, from: AddrPort) {
    match policy
    case Candidates => from in candidates
    case CandidateHosts => exists a | a in candidates :: a.addr == from.addr
    case AnySource => true
    case _ => false
  }

  method NewSourceFilter(candidates: seq<AddrPort>, policy: Policy) returns (f: SourceFilter)
    ensures forall from :: f.Allows(from) <==> Expected(policy, candidates, from)
  {
    var addrs: set<AddrPort>, hosts: set<Addr> := {}, {};
    for i := 0 to |candidates|
      invariant addrs == set a | a in candidates[..i]
      invariant hosts == set a | a in candidates[..i] :: a.addr
    {
      assert candidates[..i + 1] == candidates[..i] + [candidates[i]];
      addrs := addrs + {candidates[i]};
      hosts := hosts + {candidates[i].addr};
    }
    assert candidates[..|candidates|] == candidates;
    f := match policy
      case Candidates => SourceFilter(policy, addrs, {})
      case CandidateHosts => SourceFilter(policy, {}, hosts)
      case _ => SourceFilter(policy, {}, {});
  }

  // ------------------------------------------------------------ the plan

  datatype SymmetricNat = SymmetricNat(disable: bool, localNat: NatClass, peerNat: NatClass,
    probes: int, probeRate: int, probeBudget: int, bothEndsTimeout: int)

  datatype Config = Config(timeout: int, interval: int, family: Family, policy: Policy, sym: SymmetricNat)

  datatype Plan = Plan(sources: SourceFilter, targets: seq<AddrPort>, interval: int,
    probes: seq<AddrPort>, probeBurst: nat, probeGap: int, probeBudget: int,
    timeout: int, bothEndsSymmetric: bool)

  datatype Fault = InvalidKey | UnknownSourcePolicy | NoTargets | BadInterval | BadProbes | BadProbeRate
    | BadProbeBudget | BadTimeout | BadBothEndsTimeout

  /** The peers an attempt is made with: what both sides announced, and the local socket. */
  datatype Peers = Peers(locals: seq<AddrPort>, peers: seq<AddrPort>, socket: Option<Addr>)

  /** The NAT class in force: the configured one, or what the observations imply. */
  ghost function ClassInForce(configured: NatClass, observed: seq<AddrPort>): NatClass {
    if configured != Unknown then configured
    else if exists a, b | a in observed && b in observed :: Conflict(a, b) then EndpointDependent
    else Unknown
  }

  ghost predicate BothEndsSymmetric(c: Config, p: Peers) {
    && ClassInForce(c.sym.localNat, p.locals) == EndpointDependent
    && ClassInForce(c.sym.peerNat, p.peers) == EndpointDependent
  }

  ghost predicate WillProbe(c: Config, p: Peers) {
    && !c.sym.disable
    && ClassInForce(c.sym.peerNat, p.peers) == EndpointDependent
    && !BothEndsSymmetric(c, p)
  }

  /** What is wrong with an attempt that is refused for this. */
  ghost predicate Applies(f: Fault, keyValid: bool, c: Config, fallback: Policy, p: Peers) {
    match f
    case InvalidKey => !keyValid
    case UnknownSourcePolicy => ResolvePolicy(c.policy, fallback).None?
    case NoTargets => EligibleOf(p.locals, EffectiveFamily(c.family, p.socket), p.peers) == {}
    case BadInterval => c.interval < 0
    case BadProbes => WillProbe(c, p) && c.sym.probes < 0
    case BadProbeRate => WillProbe(c, p) && c.sym.probeRate < 0
    case BadProbeBudget => WillProbe(c, p) && c.sym.probeBudget < 0
    case BadTimeout => c.timeout < 0
    case BadBothEndsTimeout => BothEndsSymmetric(c, p) && c.sym.bothEndsTimeout < 0
  }

  function OrDefault(n: int, default: int): int {
    if n == 0 then default else n
  }

  datatype Probing = Probing(probes: seq<AddrPort>, burst: nat, gap: int, budget: int)

  const NO_PROBING := Probing([], 0, 0, 0)

  /** What probing may cost: a bounded number of new ports, paced, on hosts that hide theirs. */
  ghost predicate ProbingFits(sym: SymmetricNat, targets: seq<AddrPort>, q: Probing) {
    && AreProbes(targets, sym.peerNat == EndpointDependent, q.probes)
    && |q.probes| <= Min(OrDefault(sym.probes, DEFAULT_PROBES), MAX_PROBES)
    && AreGenerated(targets, Min(OrDefault(sym.probes, DEFAULT_PROBES), MAX_PROBES), sym.peerNat == EndpointDependent, q.probes)
    && (q.burst, q.gap) == ProbePacing(OrDefault(sym.probeRate, DEFAULT_PROBE_RATE))
    && q.burst > 0
    && q.budget == OrDefault(sym.probeBudget, DEFAULT_PROBE_BUDGET)
  }

  method PlanProbing(sym: SymmetricNat, targets: seq<AddrPort>) returns (r: Result<Probing, Fault>)
    ensures r.Err? <==> sym.probes < 0 || sym.probeRate < 0 || sym.probeBudget < 0
    ensures r.Err? ==> r.error == (if sym.probes < 0 then BadProbes else if sym.probeRate < 0 then BadProbeRate else BadProbeBudget)
    ensures r.Ok? ==> ProbingFits(sym, targets, r.value)
  {
    var probes := OrDefault(sym.probes, DEFAULT_PROBES);
    if probes < 0 {
      return Err(BadProbes);
    }
    probes := Min(probes, MAX_PROBES);
    var rate := OrDefault(sym.probeRate, DEFAULT_PROBE_RATE);
    if rate < 0 {
      return Err(BadProbeRate);
    }
    var list, ips, hosts, draws := SymmetricProbes(targets, probes, sym.peerNat == EndpointDependent);
    assert IsProbeList(targets, probes, sym.peerNat == EndpointDependent, list, ips, hosts, draws);
    var (burst, gap) := ProbePacing(rate);
    if burst == 0 {
      list := [];
    }
    var budget := OrDefault(sym.probeBudget, DEFAULT_PROBE_BUDGET);
    if budget < 0 {
      return Err(BadProbeBudget);
    }
    return Ok(Probing(list, burst, gap, budget));
  }

  method ClassOf(configured: NatClass, observed: seq<AddrPort>) returns (c: NatClass)
    ensures c == ClassInForce(configured, observed)
  {
    c := configured;
    if c == Unknown {
      c := Classify(observed);
    }
  }

  method PlanTimeout(c: Config, probing: bool, bothEnds: bool) returns (r: Result<int, Fault>)
    ensures r.Err? <==> c.timeout < 0 || (bothEnds && c.sym.bothEndsTimeout < 0)
    ensures r.Err? ==> r.error == if c.timeout < 0 then BadTimeout else BadBothEndsTimeout
    ensures r.Ok? ==> 0 < r.value == TimeoutFor(c, probing, bothEnds)
  {
    var timeout := c.timeout;
    if timeout == 0 {
      timeout := DEFAULT_TIMEOUT;
      if probing {
        timeout := DEFAULT_PROBING_TIMEOUT;
      }
    }
    if timeout < 0 {
      return Err(BadTimeout);
    }
    if bothEnds {
      var limit := OrDefault(c.sym.bothEndsTimeout, DEFAULT_BOTH_ENDS_TIMEOUT);
      if limit < 0 {
        return Err(BadBothEndsTimeout);
      }
      timeout := Min(timeout, limit);
    }
    return Ok(timeout);
  }

  /** Ten seconds, or twenty for an attempt that probes, unless it was given another time; and
      when both ends are symmetric no more than the two seconds, or the time given for that. */
  function TimeoutFor(c: Config, probing: bool, bothEnds: bool): int {
    var asked := if c.timeout != 0 then c.timeout else if probing then 20 * SECOND else 10 * SECOND;
    if bothEnds then Min(asked, OrDefault(c.sym.bothEndsTimeout, 2 * SECOND)) else asked
  }

  /** What every plan promises the loop that runs it. */
  ghost predicate IsPlan(c: Config, fallback: Policy, p: Peers, text: AddrPort -> int, plan: Plan) {
    && (exists used :: IsCandidates(p.locals, EffectiveFamily(c.family, p.socket), p.peers, text, used, plan.targets))
    && plan.targets != []
    && plan.interval == OrDefault(c.interval, DEFAULT_INTERVAL) > 0
    && plan.bothEndsSymmetric == BothEndsSymmetric(c, p)
    && (if WillProbe(c, p) then ProbingFits(c.sym, plan.targets, ProbingOf(plan)) else ProbingOf(plan) == NO_PROBING)
    && 0 < plan.timeout == TimeoutFor(c, plan.probes != [], plan.bothEndsSymmetric)
    && ResolvePolicy(c.policy, fallback).Some?
    && forall from :: plan.sources.Allows(from)
                      <==> Expected(ResolvePolicy(c.policy, fallback).value, plan.targets + plan.probes, from)
  }

  function ProbingOf(plan: Plan): Probing {
    Probing(plan.probes, plan.probeBurst, plan.probeGap, plan.probeBudget)
  }

  lemma NoneEligible(p: Peers, family: Family, text: AddrPort -> int, used: nat, targets: seq<AddrPort>)
    requires IsCandidates(p.locals, family, p.peers, text, used, targets)
    ensures targets == [] <==> EligibleOf(p.locals, family, p.peers) == {}
  {
    if targets == [] {
      assert p.peers[..used] == p.peers;
    } else {
      assert targets[0] in Elements(targets);
      var a :| a in p.peers[..used] && Eligible(p.locals, family, Normalised(a)) && Normalised(a) == targets[0];
      assert a in p.peers;
      assert Normalised(a) in EligibleOf(p.locals, family, p.peers);
    }
  }

  datatype Resolved = Resolved(probing: Probing, bothEnds: bool, timeout: int)

  /** The NAT classes, the probing and the timeout an attempt on these targets gets. */
  ghost predicate IsResolved(c: Config, p: Peers, targets: seq<AddrPort>, q: Resolved) {
    && q.bothEnds == BothEndsSymmetric(c, p)
    && (if WillProbe(c, p) then ProbingFits(c.sym, targets, q.probing) else q.probing == NO_PROBING)
    && 0 < q.timeout == TimeoutFor(c, q.probing.probes != [], q.bothEnds)
  }

  /** The faults that show only once the targets are known. */
  predicate IsLate(f: Fault) {
    f.BadProbes? || f.BadProbeRate? || f.BadProbeBudget? || f.BadTimeout? || f.BadBothEndsTimeout?
  }

  method Resolve(ghost fallback: Policy, c: Config, p: Peers, targets: seq<AddrPort>) returns (r: Result<Resolved, Fault>)
    ensures r.Err? ==> IsLate(r.error) && Applies(r.error, true, c, fallback, p)
    ensures r.Ok? ==> forall f | IsLate(f) :: !Applies(f, true, c, fallback, p)
    ensures r.Ok? ==> IsResolved(c, p, targets, r.value)
  {
    var localNat := ClassOf(c.sym.localNat, p.locals);
    var peerNat := ClassOf(c.sym.peerNat, p.peers);
    var bothEnds := localNat == EndpointDependent && peerNat == EndpointDependent;
    var q := NO_PROBING;
    if !c.sym.disable && peerNat == EndpointDependent && !bothEnds {
      var probing := PlanProbing(c.sym, targets);
      if probing.Err? {
        return Err(probing.error);
      }
      q := probing.value;
    }
    var timeout := PlanTimeout(c, q.probes != [], bothEnds);
    if timeout.Err? {
      return Err(timeout.error);
    }
    return Ok(Resolved(q, bothEnds, timeout.value));
  }

  /** newPunchPlan. */
  method NewPlan(keyValid: bool, c: Config, fallback: Policy, p: Peers, text: AddrPort -> int) returns (r: Result<Plan, Fault>)
    ensures r.Err? ==> Applies(r.error, keyValid, c, fallback, p)
    ensures r.Ok? ==> forall f :: !Applies(f, keyValid, c, fallback, p)
    ensures r.Ok? ==> IsPlan(c, fallback, p, text, r.value)
  {
    if !keyValid {
      return Err(InvalidKey);
    }
    var policy := ResolvePolicy(c.policy, fallback);
    if policy.None? {
      return Err(UnknownSourcePolicy);
    }
    var family := EffectiveFamily(c.family, p.socket);
    var targets := CandidateAddrs(p.locals, p.peers, family, text);
    ghost var used :| IsCandidates(p.locals, family, p.peers, text, used, targets);
    NoneEligible(p, family, text, used, targets);
    if targets == [] {
      return Err(NoTargets);
    }
    var interval := OrDefault(c.interval, DEFAULT_INTERVAL);
    if interval <= 0 {
      return Err(BadInterval);
    }
    var resolved := Resolve(fallback, c, p, targets);
    if resolved.Err? {
      return Err(resolved.error);
    }
    var q := resolved.value.probing;
    var sources := NewSourceFilter(targets + q.probes, policy.value);
    return Ok(Plan(sources, targets, interval, q.probes, q.burst, q.gap, q.budget,
                   resolved.value.timeout, resolved.value.bothEnds));
  }
}
