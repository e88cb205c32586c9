/** Remote Proofing settings to a firewall contract, and from the contract to the rules that should be in force. */
module Lifecycle {
  import opened Wrappers
  import opened Text

  // ---------- settings

  /** A decoded settings value. */
  datatype Setting = Missing | Flag(b: bool) | Word(s: string) | Other

  datatype Exposure = MeshOnly | Lan | Public

  /**
    The settings that bear on the contract; `loaded` says whether a settings file was read at all, and `given` are the
    warnings of reading and normalizing the files.
  */
  datatype Settings = Settings(
    loaded: bool, enabled: Setting, exposure: Setting, approval: Setting, indicator: Setting, remoteInput: Setting,
    given: seq<string>)

  /** A control that is on unless it is switched off by a boolean. */
  predicate SwitchedOff(s: Settings, control: Setting) {
    s.loaded && control == Flag(false)
  }

  /** Anything but a boolean falls back to the disabled default. */
  function Enabled(s: Settings): bool {
    s.loaded && s.enabled.Flag? && s.enabled.b
  }

  /** Anything but a known word falls back to the mesh. */
  function ExposureOf(s: Settings): Exposure {
    if s.loaded && s.exposure == Word("lan") then Lan
    else if s.loaded && s.exposure == Word("public") then Public
    else MeshOnly
  }

  /** Network facts from the mesh status; texts are stripped and not empty. */
  datatype Facts = Facts(overlayIp: Option<string>, overlayCidr: Option<string>, gateway: Option<string>)

  predicate GoodFacts(f: Facts) {
    && (f.overlayIp.Some? ==> f.overlayIp.value != "") && (f.overlayCidr.Some? ==> f.overlayCidr.value != "")
    && (f.gateway.Some? ==> f.gateway.value != "")
  }

  // ---------- plan and lifecycle

  datatype BindScope = DisabledScope | MeshOverlay | TrustedLan | AllInterfaces
  datatype Policy = Closed | MeshOverlayOnly | TrustedLanOnly | PublicExplicit

  const ANYWHERE := "0.0.0.0/0"
  const UNRESOLVED_LAN := "trusted-lan"
  const TCP_PORTS := ["47984", "47989", "47990", "48010"]
  const UDP_PORT_RANGES := ["47998-48010"]

  datatype Note = PortsStayClosed | CidrUnavailable | ResolveLanFirst | NeedsAcceptance

  datatype Warning =
    | Given(text: string) | AddressNotVisible | CidrNotVisible | NoTrustedInterface | ExposedEverywhere
    | ApprovalOff | IndicatorOff | InputBlocked

  datatype Intent = Intent(
    tcpPorts: seq<string>, udpPortRanges: seq<string>, allowSources: seq<string>, notes: seq<Note>)

  datatype Plan = Plan(
    loaded: bool, enabled: bool, scope: BindScope, bindAddress: Option<string>, policy: Policy, firewall: Intent,
    gateway: Option<string>, warnings: seq<Warning>)

  function ScopeOf(s: Settings): BindScope {
    if !Enabled(s) then DisabledScope
    else match ExposureOf(s)
      case MeshOnly => MeshOverlay
      case Lan => TrustedLan
      case Public => AllInterfaces
  }

  function PolicyOf(scope: BindScope): Policy {
    match scope
    case DisabledScope => Closed
    case MeshOverlay => MeshOverlayOnly
    case TrustedLan => TrustedLanOnly
    case AllInterfaces => PublicExplicit
  }

  function FirewallIntent(enabled: bool, policy: Policy, facts: Facts): Intent {
    if !enabled then Intent([], [], [], [PortsStayClosed])
    else
      var (sources, notes) := match policy
        case MeshOverlayOnly =>
          if facts.overlayCidr.Some? then ([facts.overlayCidr.value], []) else ([], [CidrUnavailable])
        case TrustedLanOnly => ([UNRESOLVED_LAN], [ResolveLanFirst])
        case PublicExplicit => ([ANYWHERE], [NeedsAcceptance])
        case Closed => ([], []);
      Intent(TCP_PORTS, UDP_PORT_RANGES, sources, notes)
  }

  function When(condition: bool, warning: Warning): seq<Warning> {
    if condition then [warning] else []
  }

  function GivenWarnings(texts: seq<string>): seq<Warning> {
    seq(|texts|, i requires 0 <= i < |texts| => Given(texts[i]))
  }

  function WarningsOf(s: Settings, facts: Facts): seq<Warning> {
    var scope, on := ScopeOf(s), Enabled(s);
    GivenWarnings(s.given)
    + When(scope.MeshOverlay? && facts.overlayIp.None?, AddressNotVisible)
    + When(scope.MeshOverlay? && facts.overlayCidr.None?, CidrNotVisible)
    + When(scope.TrustedLan? && facts.gateway.None?, NoTrustedInterface)
    + When(scope.AllInterfaces?, ExposedEverywhere)
    + When(on && SwitchedOff(s, s.approval), ApprovalOff)
    + When(on && SwitchedOff(s, s.indicator), IndicatorOff)
    + When(on && SwitchedOff(s, s.remoteInput), InputBlocked)
  }

  function BuildPlan(s: Settings, facts: Facts): Plan {
    var scope := ScopeOf(s);
    var address := match scope
      case MeshOverlay => facts.overlayIp
      case AllInterfaces => Some("0.0.0.0")
      case _ => None;
    Plan(s.loaded, Enabled(s), scope, address, PolicyOf(scope), FirewallIntent(Enabled(s), PolicyOf(scope), facts),
         facts.gateway, WarningsOf(s, facts))
  }

  datatype Blocker = SettingsAbsent | ProofingDisabled | OverlayAddressMissing | OverlayCidrMissing | LanUnresolved

  datatype ServiceState = Unmanaged | Stopped | Ready | Blocked
  datatype FirewallState = UnmanagedFirewall | ClosedFirewall | Applied | NeedsResolution | BlockedFirewall

  datatype Contract = Contract(
    managed: bool, enabled: bool, scope: BindScope, policy: Policy, bindAddress: Option<string>,
    service: ServiceState, startAllowed: bool, restart: bool, serviceBlockers: seq<Blocker>,
    firewall: FirewallState, applyAllowed: bool, firewallBlockers: seq<Blocker>, intent: Intent,
    gateway: Option<string>, warnings: seq<Warning>, degraded: bool, resolved: Option<LocalNetwork>)

  function ServiceBlockers(p: Plan): seq<Blocker> {
    if !p.loaded then [SettingsAbsent]
    else if !p.enabled then [ProofingDisabled]
    else if p.scope.MeshOverlay? && (p.bindAddress.None? || p.bindAddress.value == "") then [OverlayAddressMissing]
    else if p.scope.TrustedLan? then [LanUnresolved] else []
  }

  function FirewallBlockers(p: Plan): seq<Blocker> {
    if !p.loaded || !p.enabled then []
    else if p.scope.MeshOverlay? && p.firewall.allowSources == [] then [OverlayCidrMissing]
    else if p.scope.TrustedLan? then [LanUnresolved] else []
  }

  function BuildLifecycle(p: Plan): Contract {
    var service, firewall := ServiceBlockers(p), FirewallBlockers(p);
    var blocked := service != [] || firewall != [];
    Contract(p.loaded, p.enabled, p.scope, p.policy, p.bindAddress,
      if !p.loaded then Unmanaged else if !p.enabled then Stopped else if blocked then Blocked else Ready,
      p.loaded && p.enabled && !blocked, p.loaded && p.enabled && !blocked, service,
      if !p.loaded then UnmanagedFirewall else if !p.enabled then ClosedFirewall
      else if p.scope.TrustedLan? then NeedsResolution else if blocked then BlockedFirewall else Applied,
      p.loaded && p.enabled && firewall == [], firewall, p.firewall,
      p.gateway, p.warnings, p.loaded && p.enabled && (p.warnings != [] || blocked), None)
  }

  // ---------- the trusted network

  /** What the routing tables say: an address of this host, its network and interface. */
  datatype LocalNetwork = LocalNetwork(bindAddress: string, network: string, device: string)

  predicate GoodLan(l: LocalNetwork) {
    l.bindAddress != "" && l.network !in {"", UNRESOLVED_LAN}
  }

  function WithoutLan(blockers: seq<Blocker>): (r: seq<Blocker>)
    ensures LanUnresolved !in r
    ensures forall b :: b != LanUnresolved ==> (b in r <==> b in blockers)
  {
    if blockers == [] then []
    else
      var n := |blockers| - 1;
      WithoutLan(blockers[..n]) + if blockers[n].LanUnresolved? then [] else [blockers[n]]
  }

  function WithoutLanNote(notes: seq<Note>): (r: seq<Note>)
    ensures ResolveLanFirst !in r
    ensures forall n :: n != ResolveLanFirst ==> (n in r <==> n in notes)
  {
    if notes == [] then []
    else
      var n := |notes| - 1;
      WithoutLanNote(notes[..n]) + if notes[n].ResolveLanFirst? then [] else [notes[n]]
  }

  /** Without a gateway no route is asked for. */
  predicate Resolvable(c: Contract, lan: Option<LocalNetwork>) {
    c.scope.TrustedLan? && c.gateway.Some? && c.gateway.value != "" && lan.Some?
  }

  function Resolved(c: Contract, lan: Option<LocalNetwork>): Contract {
    if !Resolvable(c, lan) then c
    else
      c.(degraded := c.warnings != [] || WithoutLan(c.serviceBlockers) != [] || WithoutLan(c.firewallBlockers) != [],
         resolved := lan,
         bindAddress := Some(lan.value.bindAddress), service := Ready, startAllowed := c.managed && c.enabled,
         restart := c.managed && c.enabled,
         serviceBlockers := WithoutLan(c.serviceBlockers), firewall := Applied, applyAllowed := c.managed && c.enabled,
         firewallBlockers := WithoutLan(c.firewallBlockers),
         intent := c.intent.(allowSources := [lan.value.network], notes := WithoutLanNote(c.intent.notes)))
  }

  /** The lifecycle document, which resolution updates in place. */
  class Document {
    var contract: Contract

    constructor (c: Contract)
      ensures contract == c
    {
      contract := c;
    }

    method ResolveTrustedLan(lan: Option<LocalNetwork>) returns (changed: bool)
      modifies this
      ensures contract == Resolved(old(contract), lan)
      ensures changed <==> Resolvable(old(contract), lan)
    {
      hide WithoutLan, WithoutLanNote, BuildLifecycle, BuildPlan, WarningsOf, FirewallIntent;
      if !contract.scope.TrustedLan? || contract.gateway.None? || contract.gateway.value == "" || lan.None? {
        return false;
      }
      var allowed := contract.managed && contract.enabled;
      var blockers := WithoutLan(contract.serviceBlockers);
      contract := contract.(bindAddress := Some(lan.value.bindAddress), service := Ready, startAllowed := allowed,
                            restart := allowed, serviceBlockers := blockers);
      var intent := contract.intent.(allowSources := [lan.value.network],
                                     notes := WithoutLanNote(contract.intent.notes));
      var obstacles := WithoutLan(contract.firewallBlockers);
      contract := contract.(firewall := Applied, applyAllowed := allowed, firewallBlockers := obstacles,
                            intent := intent, resolved := lan,
                            degraded := contract.warnings != [] || blockers != [] || obstacles != []);
      changed := true;
    }
  }

  // ---------- rules

  /** A rule for one port or range; an empty source lets everybody in. */
  datatype Rule = Rule(port: string, protocol: string, source: string)

  function RuleFor(port: string, protocol: string, source: Option<string>): Rule {
    Rule(port, protocol, if source.None? || source.value == ANYWHERE then "" else source.value)
  }

  function PortClause(r: Rule): string {
    " port port=\"" + r.port + "\" protocol=\"" + r.protocol + "\" accept"
  }

  function SourceClause(r: Rule): string {
    if r.source == "" then "" else " source address=\"" + r.source + "\""
  }

  /** The text that is handed to the firewall. */
  function RichRule(r: Rule): string {
    "rule family=\"ipv4\"" + SourceClause(r) + PortClause(r)
  }

  predicate Unquoted(r: Rule) {
    '"' !in r.port && '"' !in r.protocol && '"' !in r.source
  }

  /** What stands between the quotation marks, and around them. */
  function Pieces(r: Rule): seq<string> {
    ["rule family=", "ipv4"] + (if r.source == "" then [] else [" source address=", r.source]) + PortPieces(r)
  }

  function PortPieces(r: Rule): seq<string> {
    [" port port=", r.port, " protocol=", r.protocol, " accept"]
  }

  lemma JoinStep(first: string, rest: seq<string>)
    requires rest != []
    ensures Join([first] + rest, '"') == first + "\"" + Join(rest, '"')
  {
    assert ([first] + rest)[1..] == rest;
  }

  lemma PortText(r: Rule)
    ensures Join(PortPieces(r), '"') == PortClause(r)
  {
    hide Join;
    var last := [" accept"];
    OnePiece(" accept");
    JoinStep(r.protocol, last);
    JoinStep(" protocol=", [r.protocol] + last);
    JoinStep(r.port, [" protocol="] + ([r.protocol] + last));
    JoinStep(" port port=", [r.port] + ([" protocol="] + ([r.protocol] + last)));
    assert PortPieces(r) == [" port port="] + ([r.port] + ([" protocol="] + ([r.protocol] + last)));
  }

  lemma OnePiece(s: string)
    ensures Join([s], '"') == s
  {}

  lemma RuleText(r: Rule)
    ensures Join(Pieces(r), '"') == RichRule(r)
  {
    hide Join, PortClause, PortPieces;
    var tail := PortPieces(r);
    SomePieces(r);
    PortText(r);
    if r.source == "" {
      JoinStep("ipv4", tail);
      JoinStep("rule family=", ["ipv4"] + tail);
      assert Pieces(r) == ["rule family="] + (["ipv4"] + tail);
    } else {
      JoinStep(r.source, tail);
      JoinStep(" source address=", [r.source] + tail);
      JoinStep("ipv4", [" source address="] + ([r.source] + tail));
      JoinStep("rule family=", ["ipv4"] + ([" source address="] + ([r.source] + tail)));
      assert Pieces(r) == ["rule family="] + (["ipv4"] + ([" source address="] + ([r.source] + tail)));
    }
  }

  lemma SomePieces(r: Rule)
    ensures PortPieces(r) != []
  {}

  lemma TextOfPieces(r: Rule)
    requires Unquoted(r)
    ensures Split(RichRule(r), '"') == Pieces(r)
  {
    hide Join, Split, RichRule;
    RuleText(r);
    SplitAfterJoin(Pieces(r), '"');
  }

  /** Different rules have different texts, so sets of texts are sets of rules. */
  lemma RuleTextsDiffer(r: Rule, s: Rule)
    requires Unquoted(r) && Unquoted(s) && RichRule(r) == RichRule(s)
    ensures r == s
  {
    TextOfPieces(r);
    TextOfPieces(s);
    var p, q := Pieces(r), Pieces(s);
    assert |p| == |q|;
    assert p[|p| - 2] == r.protocol && p[|p| - 4] == r.port && q[|q| - 2] == s.protocol && q[|q| - 4] == s.port;
    assert r.source != "" ==> p[3] == r.source;
    assert s.source != "" ==> q[3] == s.source;
  }

  /** No sources at all means one rule set without a source. */
  function Sources(c: Contract): seq<Option<string>> {
    if c.intent.allowSources == [] then [None]
    else seq(|c.intent.allowSources|, i requires 0 <= i < |c.intent.allowSources| => Some(c.intent.allowSources[i]))
  }

  predicate IsDesired(c: Contract, r: Rule) {
    && c.applyAllowed
    && exists k :: 0 <= k < |Sources(c)| && Sources(c)[k] != Some(UNRESOLVED_LAN) && ServesSource(c, r, Sources(c)[k])
  }

  predicate ServesSource(c: Contract, r: Rule, source: Option<string>) {
    || (exists i :: 0 <= i < |c.intent.tcpPorts| && r == RuleFor(c.intent.tcpPorts[i], "tcp", source))
    || (exists i :: 0 <= i < |c.intent.udpPortRanges| && r == RuleFor(c.intent.udpPortRanges[i], "udp", source))
  }

  function PortRules(ports: seq<string>, protocol: string, source: Option<string>): (r: seq<Rule>)
    ensures |r| == |ports| && forall i :: 0 <= i < |ports| ==> r[i] == RuleFor(ports[i], protocol, source)
  {
    seq(|ports|, i requires 0 <= i < |ports| => RuleFor(ports[i], protocol, source))
  }

  method DesiredFirewallRules(c: Contract) returns (rules: seq<Rule>)
    ensures forall r :: r in rules <==> IsDesired(c, r)
  {
    hide ServesSource;
    rules := [];
    if !c.applyAllowed {
      return;
    }
    var sources := Sources(c);
    for k := 0 to |sources|
      invariant forall r :: r in rules <==>
        exists m :: 0 <= m < k && sources[m] != Some(UNRESOLVED_LAN) && ServesSource(c, r, sources[m])
    {
      if sources[k] != Some(UNRESOLVED_LAN) {
        var tcp, udp := PortRules(c.intent.tcpPorts, "tcp", sources[k]),
          PortRules(c.intent.udpPortRanges, "udp", sources[k]);
        ServedByPorts(c, sources[k], tcp, udp);
        rules := rules + tcp + udp;
      }
    }
  }

  lemma ServedByPorts(c: Contract, source: Option<string>, tcp: seq<Rule>, udp: seq<Rule>)
    requires tcp == PortRules(c.intent.tcpPorts, "tcp", source)
      && udp == PortRules(c.intent.udpPortRanges, "udp", source)
    ensures forall r :: r in tcp || r in udp <==> ServesSource(c, r, source)
  {
    forall r ensures r in tcp || r in udp <==> ServesSource(c, r, source) {
      if i :| 0 <= i < |c.intent.tcpPorts| && r == RuleFor(c.intent.tcpPorts[i], "tcp", source) {
        assert tcp[i] == r;
      }
      if i :| 0 <= i < |c.intent.udpPortRanges| && r == RuleFor(c.intent.udpPortRanges[i], "udp", source) {
        assert udp[i] == r;
      }
    }
  }

  // ---------- what the builders cannot produce

  function Built(s: Settings, facts: Facts, lan: Option<LocalNetwork>): Contract {
    Resolved(BuildLifecycle(BuildPlan(s, facts)), lan)
  }

  /** Whoever may be let in is named: an applied contract has exactly one source, a resolved one. */
  lemma AppliedContractNamesItsSource(s: Settings, facts: Facts, lan: Option<LocalNetwork>)
    requires GoodFacts(facts) && (lan.Some? ==> GoodLan(lan.value))
    ensures var c := Built(s, facts, lan);
      && (c.applyAllowed ==> s.loaded && Enabled(s) && |c.intent.allowSources| == 1 && c.intent.allowSources[0] != "")
      && (c.applyAllowed && c.scope.TrustedLan? ==> lan.Some? && c.intent.allowSources == [lan.value.network])
      && (c.startAllowed ==> c.applyAllowed) && (c.restart <==> c.startAllowed)
  {}

  /**
    A resolved contract has no blocker left; it is degraded exactly if there is a warning, and the source is the
    network.
  */
  lemma ResolutionClearsTheWay(s: Settings, facts: Facts, lan: Option<LocalNetwork>)
    requires Resolvable(BuildLifecycle(BuildPlan(s, facts)), lan)
    ensures var c := Built(s, facts, lan);
      && c.serviceBlockers == [] && c.firewallBlockers == [] && c.intent.notes == []
      && c.startAllowed && c.restart && c.applyAllowed && c.resolved == lan
      && c.intent.allowSources == [lan.value.network]
      && (c.degraded <==> c.warnings != [])
      && NoTrustedInterface !in c.warnings
  {
    hide SourceClause, PortClause, Pieces, PortPieces;
    assert [LanUnresolved][..0] == [] && [ResolveLanFirst][..0] == [];
  }

  /**
    With one named source, a rule without source clause is desired exactly if that source is the whole address space.
  */
  lemma OpenRuleOfContract(c: Contract)
    requires c.applyAllowed ==>
      |c.intent.allowSources| == 1 && c.intent.allowSources[0] != "" && c.intent.tcpPorts != []
    ensures (exists r :: IsDesired(c, r) && r.source == "") <==> c.applyAllowed && c.intent.allowSources == [ANYWHERE]
  {
    if c.applyAllowed {
      assert |Sources(c)| == 1 && Sources(c)[0] == Some(c.intent.allowSources[0]);
      assert c.intent.allowSources == [c.intent.allowSources[0]];
      var r := RuleFor(c.intent.tcpPorts[0], "tcp", Sources(c)[0]);
      assert ServesSource(c, r, Sources(c)[0]);
      assert c.intent.allowSources == [ANYWHERE] ==> IsDesired(c, r);
    }
  }

  /**
    A rule without a source clause is desired exactly when the settings ask for public exposure, or the mesh or the
    local network is itself given as the whole address space.
  */
  lemma OpenRuleMeansOpenSource(s: Settings, facts: Facts, lan: Option<LocalNetwork>)
    requires GoodFacts(facts) && (lan.Some? ==> GoodLan(lan.value))
    ensures var c := Built(s, facts, lan);
      (exists r :: IsDesired(c, r) && r.source == "") <==>
        && s.loaded && Enabled(s)
        && match ExposureOf(s)
           case Public => true
           case MeshOnly => facts.overlayCidr == Some(ANYWHERE)
           case Lan => facts.gateway.Some? && lan.Some? && lan.value.network == ANYWHERE
  {
    hide IsDesired, WarningsOf;
    AppliedContractNamesItsSource(s, facts, lan);
    OpenRuleOfContract(Built(s, facts, lan));
  }

  // ---------- from the settings to the rules

  /** Whom the settings let in, once the network facts are there. */
  function SourceLetIn(s: Settings, facts: Facts, lan: Option<LocalNetwork>): Option<string> {
    if !s.loaded || s.enabled != Flag(true) then None
    else if s.exposure == Word("public") then Some("0.0.0.0/0")
    else if s.exposure != Word("lan") then facts.overlayCidr
    else if facts.gateway.Some? && lan.Some? then Some(lan.value.network) else None
  }

  /** The rule for one port, with no source clause if everybody is let in. */
  function RuleTo(port: string, protocol: string, source: string): Rule {
    Rule(port, protocol, if source == "0.0.0.0/0" then "" else source)
  }

  /** Four TCP ports and one range of UDP ports. */
  function FiveRules(source: string): set<Rule> {
    {RuleTo("47984", "tcp", source), RuleTo("47989", "tcp", source), RuleTo("47990", "tcp", source),
     RuleTo("48010", "tcp", source), RuleTo("47998-48010", "udp", source)}
  }

  lemma BuiltContractLetsIn(s: Settings, facts: Facts, lan: Option<LocalNetwork>)
    requires GoodFacts(facts)
    ensures var c := Built(s, facts, lan); var source := SourceLetIn(s, facts, lan);
      && (c.applyAllowed <==> source.Some?)
      && (source.Some? ==> c.intent.allowSources == [source.value])
      && (c.applyAllowed ==> c.intent.tcpPorts == TCP_PORTS && c.intent.udpPortRanges == UDP_PORT_RANGES)
  {
    hide WarningsOf;
  }

  lemma RulesOfOneSource(c: Contract, source: string, r: Rule)
    requires c.applyAllowed && c.intent.allowSources == [source] && source != UNRESOLVED_LAN
    requires c.intent.tcpPorts == TCP_PORTS && c.intent.udpPortRanges == UDP_PORT_RANGES
    ensures IsDesired(c, r) <==> r in FiveRules(source)
  {
    assert Sources(c) == [Some(source)];
    assert ServesSource(c, r, Sources(c)[0]) <==> r in FiveRules(source) by {
      assert forall i :: 0 <= i < 4 ==>
        RuleFor(TCP_PORTS[i], "tcp", Some(source)) == RuleTo(TCP_PORTS[i], "tcp", source);
      if r in FiveRules(source) {
        var i := if r.port == "47984" then 0 else if r.port == "47989" then 1 else if r.port == "47990" then 2 else 3;
        assert r.protocol == "tcp" ==> r == RuleFor(c.intent.tcpPorts[i], "tcp", Some(source));
        assert r.protocol == "udp" ==> r == RuleFor(c.intent.udpPortRanges[0], "udp", Some(source));
      }
    }
  }

  /** The whole way: whoever the settings let in gets the five rules, and nobody gets any other. */
  lemma SettingsDecideTheRules(s: Settings, facts: Facts, lan: Option<LocalNetwork>, r: Rule)
    requires GoodFacts(facts) && facts.overlayCidr != Some(UNRESOLVED_LAN) && (lan.Some? ==> GoodLan(lan.value))
    ensures var source := SourceLetIn(s, facts, lan);
      IsDesired(Built(s, facts, lan), r) <==> source.Some? && r in FiveRules(source.value)
  {
    hide Built, FiveRules;
    BuiltContractLetsIn(s, facts, lan);
    var source := SourceLetIn(s, facts, lan);
    if source.Some? {
      RulesOfOneSource(Built(s, facts, lan), source.value, r);
    }
  }

  /** The service may start exactly if it knows where to listen and the firewall may be set. */
  lemma SettingsDecideTheStart(s: Settings, facts: Facts, lan: Option<LocalNetwork>)
    requires GoodFacts(facts)
    ensures Built(s, facts, lan).startAllowed <==>
      && SourceLetIn(s, facts, lan).Some?
      && (s.exposure != Word("public") && s.exposure != Word("lan") ==> facts.overlayIp.Some?)
    ensures var c := Built(s, facts, lan);
      c.startAllowed ==> c.service == Ready && c.bindAddress == if s.exposure == Word("public") then Some("0.0.0.0")
                                               else if s.exposure == Word("lan") then Some(lan.value.bindAddress)
                                               else facts.overlayIp
  {
    hide WarningsOf;
  }

  /** What the service and the firewall are asked to be, before and after the local network is found. */
  lemma SettingsDecideTheStates(s: Settings, facts: Facts, lan: Option<LocalNetwork>)
    requires GoodFacts(facts)
    ensures var c := Built(s, facts, lan); var on := s.loaded && s.enabled == Flag(true);
      && (c.service == Unmanaged <==> !s.loaded) && (c.firewall == UnmanagedFirewall <==> !s.loaded)
      && (c.service == Stopped <==> s.loaded && !on) && (c.firewall == ClosedFirewall <==> s.loaded && !on)
      && (c.service == Ready <==> c.startAllowed) && (c.service == Blocked <==> on && !c.startAllowed)
      && (c.firewall == NeedsResolution <==> on && s.exposure == Word("lan") && !c.applyAllowed)
      && (c.firewall == BlockedFirewall <==> on && s.exposure != Word("lan") && !c.startAllowed)
      && (c.firewall == Applied <==> c.startAllowed)
      && (c.degraded <==> on && (c.warnings != [] || !c.startAllowed))
  {
    hide WarningsOf;
    assert [LanUnresolved][..0] == [];
  }

  /** What gives occasion to a warning. */
  predicate Occasion(s: Settings, facts: Facts, w: Warning) {
    var on := s.loaded && s.enabled == Flag(true);
    match w
    case Given(text) => text in s.given
    case AddressNotVisible => on && s.exposure !in {Word("lan"), Word("public")} && facts.overlayIp.None?
    case CidrNotVisible => on && s.exposure !in {Word("lan"), Word("public")} && facts.overlayCidr.None?
    case NoTrustedInterface => on && s.exposure == Word("lan") && facts.gateway.None?
    case ExposedEverywhere => on && s.exposure == Word("public")
    case ApprovalOff => on && s.approval == Flag(false)
    case IndicatorOff => on && s.indicator == Flag(false)
    case InputBlocked => on && s.remoteInput == Flag(false)
  }

  lemma GivenAreGiven(texts: seq<string>, w: Warning)
    ensures w in GivenWarnings(texts) <==> w.Given? && w.text in texts
  {
    var given := GivenWarnings(texts);
    if w.Given? && w.text in texts {
      var i :| 0 <= i < |texts| && texts[i] == w.text;
      assert given[i] == w;
    }
  }

  /** A warning is there exactly if there is an occasion for it. */
  lemma WarningsMean(s: Settings, facts: Facts, w: Warning)
    ensures w in WarningsOf(s, facts) <==> Occasion(s, facts, w)
  {
    hide GivenWarnings;
    GivenAreGiven(s.given, w);
    var scope, on, given := ScopeOf(s), Enabled(s), GivenWarnings(s.given);
    var a := When(scope.MeshOverlay? && facts.overlayIp.None?, AddressNotVisible);
    var b := When(scope.MeshOverlay? && facts.overlayCidr.None?, CidrNotVisible);
    var c := When(scope.TrustedLan? && facts.gateway.None?, NoTrustedInterface);
    var d := When(scope.AllInterfaces?, ExposedEverywhere);
    var e := When(on && SwitchedOff(s, s.approval), ApprovalOff);
    var f := When(on && SwitchedOff(s, s.indicator), IndicatorOff);
    var g := When(on && SwitchedOff(s, s.remoteInput), InputBlocked);
    assert WarningsOf(s, facts) == given + a + b + c + d + e + f + g;
    assert w in WarningsOf(s, facts) <==>
      w in given || w in a || w in b || w in c || w in d || w in e || w in f || w in g;
  }
}
