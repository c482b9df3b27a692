/** Where traffic goes in a generated configuration: from outbound to outbound through detours and
    proxySettings, and from core to core through the local socks bridges and their routing rules. */
module ChainWalk {
  import opened Chains

  // ----- the configuration of both cores

  /** The tags "bridge-<tag>", "bridge-loopback-<port>" and "<tag>-inbound". */
  datatype InboundTag = BridgeTo(tag: Tag) | BridgeLoopback(endpoint: nat) | IngressOf(tag: Tag)

  datatype Inbound = Inbound(tag: InboundTag, endpoint: nat)

  datatype Rule = Rule(inbound: InboundTag, outbound: Tag)

  datatype Config = Config(outbounds: seq<Outbound>, inbounds: seq<Inbound>, rules: seq<Rule>,
                           xrayOutbounds: seq<Outbound>, xrayInbounds: seq<Inbound>, xrayRules: seq<Rule>)

  /** The bridges that lead back into a sing-box chain. */
  function NormalCount(b: seq<Bridge>): nat {
    if b == [] then 0 else (if b[0].loopbackProtect then 0 else 1) + NormalCount(b[1..])
  }

  /** The bridge inbounds of buildOutboundsSection: normal bridges are paired with the ingress tags. */
  function BridgeInbounds(b: seq<Bridge>, ingress: seq<Tag>): seq<Inbound>
    requires NormalCount(b) == |ingress|
  {
    if b == [] then []
    else if b[0].loopbackProtect then
      [Inbound(BridgeLoopback(b[0].endpoint), b[0].endpoint)] + BridgeInbounds(b[1..], ingress)
    else
      [Inbound(BridgeTo(ingress[0]), b[0].endpoint)] + BridgeInbounds(b[1..], ingress[1..])
  }

  /** The bridge rules of buildRouteSection. */
  function BridgeRules(b: seq<Bridge>, ingress: seq<Tag>): seq<Rule>
    requires NormalCount(b) == |ingress|
  {
    if b == [] then []
    else if b[0].loopbackProtect then
      [Rule(BridgeLoopback(b[0].endpoint), XrayDirect)] + BridgeRules(b[1..], ingress)
    else
      [Rule(BridgeTo(ingress[0]), ingress[0])] + BridgeRules(b[1..], ingress[1..])
  }

  /** The inbounds and rules of buildXrayConfig. */
  function XrayInbounds(b: seq<Bridge>, ingress: seq<Tag>): (r: seq<Inbound>)
    requires |b| == |ingress|
    ensures |r| == |b| && forall k :: 0 <= k < |r| ==> r[k] == Inbound(IngressOf(ingress[k]), b[k].endpoint)
  {
    seq(|b|, k requires 0 <= k < |b| => Inbound(IngressOf(ingress[k]), b[k].endpoint))
  }

  function XrayRules(ingress: seq<Tag>): (r: seq<Rule>)
    ensures |r| == |ingress| && forall k :: 0 <= k < |r| ==> r[k] == Rule(IngressOf(ingress[k]), ingress[k])
  {
    seq(|ingress|, k requires 0 <= k < |ingress| => Rule(IngressOf(ingress[k]), ingress[k]))
  }

  predicate CountsMatch(p: Pieces) {
    NormalCount(p.xrayToSing) == |p.singIngress| && |p.singToXray| == |p.xrayIngress|
  }

  function LoopbackCount(b: seq<Bridge>): int {
    |b| - NormalCount(b)
  }

  function Emitted(p: Pieces): Config
    requires CountsMatch(p)
  {
    Config(p.outbounds + (if LoopbackCount(p.xrayToSing) > 0 then [Outbound(XrayDirect, Free, None)] else [])
             + [Outbound(Direct, Free, None)],
           BridgeInbounds(p.xrayToSing, p.singIngress), BridgeRules(p.xrayToSing, p.singIngress),
           if p.xrayOutbounds == [] then [] else p.xrayOutbounds + [Outbound(Direct, Free, None)],
           XrayInbounds(p.singToXray, p.xrayIngress), XrayRules(p.xrayIngress))
  }

  // ----- following it

  function FindOutbound(os: seq<Outbound>, t: Tag): Option<Outbound> {
    if os == [] then None else if os[0].tag == t then Some(os[0]) else FindOutbound(os[1..], t)
  }

  function FindInbound(ins: seq<Inbound>, e: nat): Option<Inbound> {
    if ins == [] then None else if ins[0].endpoint == e then Some(ins[0]) else FindInbound(ins[1..], e)
  }

  function FindRule(rs: seq<Rule>, i: InboundTag): Option<Tag> {
    if rs == [] then None else if rs[0].inbound == i then Some(rs[0].outbound) else FindRule(rs[1..], i)
  }

  /** Where a core sends the traffic that arrives at one of its local endpoints. */
  function Target(ins: seq<Inbound>, rs: seq<Rule>, e: nat): Option<Tag> {
    match FindInbound(ins, e)
    case None => None
    case Some(i) => FindRule(rs, i.tag)
  }

  datatype Node = Sing(tag: Tag) | Xray(tag: Tag)

  function Lookup(cfg: Config, node: Node): Option<Outbound> {
    match node
    case Sing(t) => FindOutbound(cfg.outbounds, t)
    case Xray(t) => FindOutbound(cfg.xrayOutbounds, t)
  }

  datatype Move = Stuck | End | To(node: Node)

  /** Where the traffic of an outbound goes next. */
  function Next(cfg: Config, node: Node): Move {
    match Lookup(cfg, node)
    case None => Stuck
    case Some(o) =>
      if o.via.Some? then To(if node.Sing? then Sing(o.via.value) else Xray(o.via.value))
      else if !o.server.Socks? then End
      else if node.Sing? then
        match Target(cfg.xrayInbounds, cfg.xrayRules, o.server.endpoint)
        case None => Stuck
        case Some(t) => To(Xray(t))
      else
        match Target(cfg.inbounds, cfg.rules, o.server.endpoint)
        case None => Stuck
        case Some(t) => To(Sing(t))
  }

  /** The hop that an outbound stands for; bridges and direct outbounds stand for none. */
  function HopAt(cfg: Config, node: Node): seq<Hop> {
    match Lookup(cfg, node)
    case None => []
    case Some(o) => if o.server.Real? then [o.server.hop] else []
  }

  /** The hops that traffic passes from a node on, if it comes to an end in so many steps. */
  function Walk(cfg: Config, node: Node, steps: nat): Option<seq<Hop>>
    decreases steps
  {
    if steps == 0 then None
    else
      match Next(cfg, node)
      case Stuck => None
      case End => Some(HopAt(cfg, node))
      case To(n) =>
        match Walk(cfg, n, steps - 1)
        case None => None
        case Some(rest) => Some(HopAt(cfg, node) + rest)
  }

  /** Where the traffic of a node leaves both cores, if it comes to an end in so many steps. */
  function Leaves(cfg: Config, node: Node, steps: nat): Option<Node>
    decreases steps
  {
    if steps == 0 then None
    else
      match Next(cfg, node)
      case Stuck => None
      case End => Some(node)
      case To(n) => Leaves(cfg, n, steps - 1)
  }

  // ----- one chain

  function FirstTag(c: Chain): Tag {
    if c.includeProxy then Proxy else Numbered(c.prefix, c.start)
  }

  /** What one of the chain's lists holds can be looked up in the configuration. */
  ghost predicate AllFound(cfg: seq<Outbound>, os: seq<Outbound>) {
    forall k :: 0 <= k < |os| ==> FindOutbound(cfg, os[k].tag) == Some(os[k])
  }

  ghost predicate Bridged(cfg: Config, c: Chain, egress: Egress) {
    && (XrayEnts(c.ents) != [] ==> Target(cfg.xrayInbounds, cfg.xrayRules, c.endpoint) == Some(FirstTag(c)))
    && (ExitBridge(c, egress).Some? ==>
        if TailingEnts(c.ents) != [] then Target(cfg.inbounds, cfg.rules, c.endpoint + 1) == Some(Numbered(c.prefix, TailStart(c)))
        else
          && Target(cfg.inbounds, cfg.rules, c.endpoint + 1) == Some(XrayDirect)
          && FindOutbound(cfg.outbounds, XrayDirect) == Some(Outbound(XrayDirect, Free, None)))
  }

  /** The configuration holds the chain. */
  ghost predicate Holds(cfg: Config, c: Chain, egress: Egress) {
    && AllFound(cfg.outbounds, ChainPieces(c, egress).outbounds)
    && AllFound(cfg.xrayOutbounds, ChainPieces(c, egress).xrayOutbounds)
    && Bridged(cfg, c, egress)
  }

  /** A chain of more than one hop is linked, and a chain behind WARP starts with WARP. */
  predicate WellFormed(c: Chain) {
    && c.ents != [] && CoreTransitions(c.ents, false) <= 2
    && (|c.ents| > 1 ==> c.link)
    && (c.warpWrap ==> |c.ents| > 1 && c.includeProxy && !c.ents[0].xray)
  }

  /** The node at which a chain ends: the last hop, or the direct outbound behind a loopback bridge. */
  function LastNode(c: Chain, egress: Egress): Node {
    var xrays, tail := XrayEnts(c.ents), TailingEnts(c.ents);
    if tail != [] then Sing(Numbered(c.prefix, TailStart(c) + (|tail| - 1)))
    else if xrays == [] then Sing(SingTag(c, if InitialServers(c) == [] then 0 else |InitialServers(c)| - 1))
    else if egress.Loopback? then Sing(XrayDirect)
    else Xray(XrayTag(c, |xrays| - 1))
  }

  lemma TailOutbound(cfg: Config, c: Chain, egress: Egress, k: nat)
    requires Holds(cfg, c, egress) && k < |TailingEnts(c.ents)|
    ensures var tail := TailingEnts(c.ents);
      Lookup(cfg, Sing(Numbered(c.prefix, TailStart(c) + k)))
      == Some(Outbound(Numbered(c.prefix, TailStart(c) + k), Real(tail[k]),
                       if k < |tail| - 1 && c.link then Some(Numbered(c.prefix, TailStart(c) + k + 1)) else None))
  {
    hide TailingEnts, InitialEnts, XrayEnts, FindOutbound;
    var a := SingChain(InitialServers(c), c.prefix, c.includeProxy, c.link, c.start, c.warpWrap);
    var b := SingChain(Servers(TailingEnts(c.ents)), c.prefix, false, c.link, TailStart(c), false);
    assert ChainPieces(c, egress).outbounds == a + b;
    assert (a + b)[|a| + k] == b[k];
  }

  lemma {:induction false} TailWalk(cfg: Config, c: Chain, egress: Egress, k: nat, steps: nat)
    requires Holds(cfg, c, egress) && c.link && k < |TailingEnts(c.ents)| && steps >= |TailingEnts(c.ents)| - k
    ensures Walk(cfg, Sing(Numbered(c.prefix, TailStart(c) + k)), steps) == Some(TailingEnts(c.ents)[k..])
    ensures Leaves(cfg, Sing(Numbered(c.prefix, TailStart(c) + k)), steps) == Some(LastNode(c, egress))
    decreases |TailingEnts(c.ents)| - k
  {
    hide Holds, TailingEnts, TailStart, Lookup, Target;
    TailOutbound(cfg, c, egress, k);
    var tail := TailingEnts(c.ents);
    var here := Sing(Numbered(c.prefix, TailStart(c) + k));
    assert HopAt(cfg, here) == [tail[k]];
    assert tail[k..] == [tail[k]] + tail[k + 1..];
    if k < |tail| - 1 {
      TailWalk(cfg, c, egress, k + 1, steps - 1);
      assert Next(cfg, here) == To(Sing(Numbered(c.prefix, TailStart(c) + (k + 1))));
    } else {
      assert Next(cfg, here) == End && tail[k..] == [tail[k]];
    }
  }

  lemma XrayOutbound(cfg: Config, c: Chain, egress: Egress, k: nat)
    requires Holds(cfg, c, egress) && k < |XrayEnts(c.ents)|
    ensures var xrays, exit := XrayEnts(c.ents), ExitBridge(c, egress);
      var t := if c.includeProxy && k == 0 then Proxy else Numbered(c.prefix, c.start + k);
      Lookup(cfg, Xray(t))
      == Some(Outbound(t, Real(xrays[k]), if (k < |xrays| - 1 || exit.Some?) && (c.link || exit.Some?)
                                          then Some(Numbered(c.prefix, c.start + k + 1)) else None,
                       if k == |xrays| - 1 then BindOf(c, egress) else ""))
  {
    hide TailingEnts, InitialEnts, XrayEnts, FindOutbound, ExitBridge;
    var os := XrayChain(XrayEnts(c.ents), c.prefix, c.includeProxy, c.link, c.start, ExitBridge(c, egress), BindOf(c, egress));
    assert ChainPieces(c, egress).xrayOutbounds == os;
    assert FindOutbound(cfg.xrayOutbounds, os[k].tag) == Some(os[k]);
  }

  lemma ExitOutbound(cfg: Config, c: Chain, egress: Egress)
    requires Holds(cfg, c, egress) && ExitBridge(c, egress).Some?
    ensures var t := Numbered(c.prefix, c.start + |XrayEnts(c.ents)|);
      Lookup(cfg, Xray(t)) == Some(Outbound(t, Socks(c.endpoint + 1), None))
  {
    hide TailingEnts, InitialEnts, XrayEnts, FindOutbound;
    var xrays := XrayEnts(c.ents);
    var os := XrayChain(xrays, c.prefix, c.includeProxy, c.link, c.start, ExitBridge(c, egress), BindOf(c, egress));
    assert ChainPieces(c, egress).xrayOutbounds == os;
    assert FindOutbound(cfg.xrayOutbounds, os[|xrays|].tag) == Some(os[|xrays|]);
  }

  /** Behind the last Xray hop come the tailing sing-box hops, or nothing but a direct outbound. */
  lemma ExitWalk(cfg: Config, c: Chain, egress: Egress, steps: nat)
    requires c.link || |c.ents| == 1
    requires Holds(cfg, c, egress) && ExitBridge(c, egress).Some? && steps >= 2 + |TailingEnts(c.ents)|
    ensures Walk(cfg, Xray(Numbered(c.prefix, c.start + |XrayEnts(c.ents)|)), steps) == Some(TailingEnts(c.ents))
    ensures Leaves(cfg, Xray(Numbered(c.prefix, c.start + |XrayEnts(c.ents)|)), steps) == Some(LastNode(c, egress))
  {
    hide AllFound, FindOutbound, TailingEnts, XrayEnts, InitialEnts, Target;
    ExitOutbound(cfg, c, egress);
    var tail := TailingEnts(c.ents);
    if tail != [] {
      TailNeedsLink(c);
      TailWalk(cfg, c, egress, 0, steps - 1);
      assert tail[0..] == tail;
    }
    assert [] + tail == tail;
  }

  lemma OneHopHasNoTail(ents: seq<Hop>)
    requires |ents| <= 1
    ensures TailingEnts(ents) == []
  {
    if |ents| == 1 {
      assert ents[1..] == [];
      if ents[0].xray {
        assert InitialEnts(ents) == [] && ents[0..] == ents;
        assert SingEnts(ents) == SingEnts(ents[1..]);
      } else {
        assert |InitialEnts(ents)| == 1;
      }
    }
  }

  lemma TailNeedsLink(c: Chain)
    requires TailingEnts(c.ents) != []
    ensures |c.ents| > 1
  {
    if |c.ents| <= 1 {
      OneHopHasNoTail(c.ents);
    }
  }

  function XrayTag(c: Chain, k: nat): Tag {
    if c.includeProxy && k == 0 then Proxy else Numbered(c.prefix, c.start + k)
  }

  lemma {:induction false} XrayWalk(cfg: Config, c: Chain, egress: Egress, k: nat, steps: nat)
    requires Holds(cfg, c, egress) && (c.link || |c.ents| == 1) && k < |XrayEnts(c.ents)|
    requires steps >= |XrayEnts(c.ents)| - k + 2 + |TailingEnts(c.ents)|
    ensures Walk(cfg, Xray(XrayTag(c, k)), steps) == Some(XrayEnts(c.ents)[k..] + TailingEnts(c.ents))
    ensures Leaves(cfg, Xray(XrayTag(c, k)), steps) == Some(LastNode(c, egress))
    decreases |XrayEnts(c.ents)| - k
  {
    hide Holds, TailingEnts, InitialEnts, XrayEnts, Lookup, Target;
    XrayOutbound(cfg, c, egress, k);
    var xrays, tail := XrayEnts(c.ents), TailingEnts(c.ents);
    var here := Xray(XrayTag(c, k));
    assert HopAt(cfg, here) == [xrays[k]];
    XrayCount(c.ents);
    if k < |xrays| - 1 {
      XrayWalk(cfg, c, egress, k + 1, steps - 1);
      assert Next(cfg, here) == To(Xray(XrayTag(c, k + 1)));
      assert xrays[k..] + tail == [xrays[k]] + (xrays[k + 1..] + tail);
    } else if ExitBridge(c, egress).Some? {
      ExitWalk(cfg, c, egress, steps - 1);
      assert Next(cfg, here) == To(Xray(Numbered(c.prefix, c.start + |xrays|)));
      assert xrays[k..] + tail == [xrays[k]] + tail;
    } else {
      assert Next(cfg, here) == End && tail == [];
      assert xrays[k..] + tail == [xrays[k]];
    }
  }

  lemma {:induction false} XrayCount(ents: seq<Hop>)
    ensures |XrayEnts(ents)| <= |ents|
  {
    if ents != [] {
      XrayCount(ents[1..]);
    }
  }

  function SingTag(c: Chain, k: nat): Tag {
    if c.warpWrap && k == 1 then WarpBypass else if c.includeProxy && k == 0 then Proxy else Numbered(c.prefix, c.start + k)
  }

  lemma InitialOutbound(cfg: Config, c: Chain, egress: Egress, k: nat)
    requires Holds(cfg, c, egress) && k < |InitialServers(c)|
    ensures var servers := InitialServers(c);
      Lookup(cfg, Sing(SingTag(c, k)))
      == Some(Outbound(SingTag(c, k), servers[k],
                       if c.warpWrap && k == 0 then Some(WarpBypass)
                       else if k < |servers| - 1 && c.link then Some(Numbered(c.prefix, c.start + k + 1)) else None))
  {
    hide TailingEnts, InitialServers, XrayEnts, FindOutbound;
    var a := SingChain(InitialServers(c), c.prefix, c.includeProxy, c.link, c.start, c.warpWrap);
    var b := SingChain(Servers(TailingEnts(c.ents)), c.prefix, false, c.link, TailStart(c), false);
    assert ChainPieces(c, egress).outbounds == a + b;
    assert (a + b)[k] == a[k];
  }

  /** The rest of the chain from its k-th sing-box outbound before Xray on. */
  function FromInitial(c: Chain, k: nat): seq<Hop> {
    (if k < |InitialEnts(c.ents)| then InitialEnts(c.ents)[k..] else []) + (XrayEnts(c.ents) + TailingEnts(c.ents))
  }

  /** Behind the k-th sing-box outbound before Xray come the rest of them, the Xray hops and the tail. */
  lemma {:induction false} InitialWalk(cfg: Config, c: Chain, egress: Egress, k: nat, steps: nat)
    requires Holds(cfg, c, egress) && WellFormed(c) && k < |InitialServers(c)|
    requires steps >= |InitialServers(c)| - k + |XrayEnts(c.ents)| + 2 + |TailingEnts(c.ents)|
    ensures Walk(cfg, Sing(SingTag(c, k)), steps) == Some(FromInitial(c, k))
    ensures Leaves(cfg, Sing(SingTag(c, k)), steps) == Some(LastNode(c, egress))
    decreases |InitialServers(c)| - k
  {
    hide Holds, WellFormed, InitialServers, FromInitial, TailingEnts, XrayEnts, SingTag, HopAt, Next, LastNode;
    if k < |InitialServers(c)| - 1 {
      InitialWalk(cfg, c, egress, k + 1, steps - 1);
      InitialMove(cfg, c, egress, k);
    } else if XrayEnts(c.ents) != [] {
      LinkedOrOne(c);
      XrayWalk(cfg, c, egress, 0, steps - 1);
      EnterXray(cfg, c, egress, k);
    } else {
      InitialEnd(cfg, c, egress, k);
    }
  }

  /** From one sing-box outbound to the next. */
  lemma InitialMove(cfg: Config, c: Chain, egress: Egress, k: nat)
    requires Holds(cfg, c, egress) && WellFormed(c) && k < |InitialServers(c)| - 1
    ensures Next(cfg, Sing(SingTag(c, k))) == To(Sing(SingTag(c, k + 1)))
    ensures HopAt(cfg, Sing(SingTag(c, k))) + FromInitial(c, k + 1) == FromInitial(c, k)
  {
    hide TailingEnts, InitialEnts, XrayEnts, Lookup, Target, AllFound, CoreTransitions, Holds;
    InitialOutbound(cfg, c, egress, k);
    LinkNeeded(c);
    var initial, rest := InitialEnts(c.ents), XrayEnts(c.ents) + TailingEnts(c.ents);
    assert HopAt(cfg, Sing(SingTag(c, k))) == [initial[k]];
    var more := if k + 1 < |initial| then initial[k + 1..] else [];
    assert initial[k..] == [initial[k]] + more;
    assert ([initial[k]] + more) + rest == [initial[k]] + (more + rest);
  }

  /** From the bridge to the first Xray hop. */
  lemma EnterXray(cfg: Config, c: Chain, egress: Egress, k: nat)
    requires Holds(cfg, c, egress) && WellFormed(c) && k == |InitialServers(c)| - 1 && XrayEnts(c.ents) != []
    ensures Next(cfg, Sing(SingTag(c, k))) == To(Xray(XrayTag(c, 0)))
    ensures HopAt(cfg, Sing(SingTag(c, k))) == []
    ensures XrayEnts(c.ents)[0..] + TailingEnts(c.ents) == FromInitial(c, k) && [] + FromInitial(c, k) == FromInitial(c, k)
  {
    hide TailingEnts, InitialEnts, XrayEnts, Lookup, Target, AllFound, CoreTransitions;
    InitialOutbound(cfg, c, egress, k);
    if c.warpWrap {
      WarpHasMore(c);
    }
    assert InitialServers(c)[k] == Socks(c.endpoint);
    var rest := XrayEnts(c.ents) + TailingEnts(c.ents);
    assert [] + rest == rest && XrayEnts(c.ents)[0..] == XrayEnts(c.ents);
  }

  /** A chain without Xray ends at its last sing-box outbound. */
  lemma InitialEnd(cfg: Config, c: Chain, egress: Egress, k: nat)
    requires Holds(cfg, c, egress) && WellFormed(c) && k == |InitialServers(c)| - 1 && XrayEnts(c.ents) == []
    ensures Next(cfg, Sing(SingTag(c, k))) == End && HopAt(cfg, Sing(SingTag(c, k))) == FromInitial(c, k)
    ensures LastNode(c, egress) == Sing(SingTag(c, k))
  {
    hide TailingEnts, InitialEnts, XrayEnts, Lookup, Target, AllFound, CoreTransitions, Holds;
    InitialOutbound(cfg, c, egress, k);
    if c.warpWrap {
      WarpHasMore(c);
    }
    NoXrayNoTail(c.ents);
    var initial := InitialEnts(c.ents);
    assert initial[k..] == [initial[k]];
    assert [initial[k]] + ([] + []) == [initial[k]];
  }

  lemma LinkedOrOne(c: Chain)
    requires WellFormed(c)
    ensures c.link || |c.ents| == 1
  {}

  /** A WARP chain has a second sing-box outbound: the next hop, or the bridge to Xray. */
  lemma WarpHasMore(c: Chain)
    requires WellFormed(c) && c.warpWrap
    ensures |InitialServers(c)| > 1
  {
    assert InitialEnts(c.ents) == [c.ents[0]] + InitialEnts(c.ents[1..]);
    if c.ents[1].xray {
      assert c.ents[1] in XrayEnts(c.ents) by { XrayMember(c.ents, 1); }
    } else {
      assert |InitialEnts(c.ents[1..])| > 0;
    }
  }

  lemma {:induction false} XrayMember(ents: seq<Hop>, k: nat)
    requires k < |ents| && ents[k].xray
    ensures ents[k] in XrayEnts(ents)
  {
    if k > 0 {
      XrayMember(ents[1..], k - 1);
    }
  }

  lemma OneServer(c: Chain)
    requires |c.ents| == 1
    ensures |InitialServers(c)| == 1
  {
    assert c.ents[1..] == [] && InitialEnts(c.ents[1..]) == [] && XrayEnts(c.ents[1..]) == [];
  }

  /** More than one outbound before Xray means that the chain is linked. */
  lemma LinkNeeded(c: Chain)
    requires WellFormed(c) && |InitialServers(c)| > 1
    ensures c.link
  {
    if |c.ents| == 1 {
      OneServer(c);
    }
  }

  lemma {:induction false} NoXrayNoTail(ents: seq<Hop>)
    requires XrayEnts(ents) == []
    ensures InitialEnts(ents) == ents && TailingEnts(ents) == []
  {
    if ents != [] {
      NoXrayNoTail(ents[1..]);
      assert ents == [ents[0]] + ents[1..];
    }
  }

  /** Meaning preservation for one chain: if the configuration holds it, traffic that enters at its
      first outbound passes exactly the user's hops, in build order, and then comes to an end. */
  lemma ChainVisitsHops(cfg: Config, c: Chain, egress: Egress, steps: nat)
    requires Holds(cfg, c, egress) && WellFormed(c) && steps >= |c.ents| + 3
    ensures Walk(cfg, Sing(FirstTag(c)), steps) == Some(c.ents)
    ensures Leaves(cfg, Sing(FirstTag(c)), steps) == Some(LastNode(c, egress))
  {
    hide Holds, TailingEnts, XrayEnts, CoreTransitions, Walk, Leaves, LastNode, Lookup;
    PartsInOrder(c.ents);
    var initial, xrays, tail := InitialEnts(c.ents), XrayEnts(c.ents), TailingEnts(c.ents);
    if xrays == [] {
      NoXrayNoTail(c.ents);
    }
    assert |initial| + |xrays| + |tail| == |c.ents|;
    InitialWalk(cfg, c, egress, 0, steps);
    assert initial + (xrays + tail) == c.ents;
    assert |initial| > 0 ==> initial[0..] == initial;
    assert [] + (xrays + tail) == xrays + tail;
  }

  /** What enters at "warp-bypass" passes the same hops without WARP. */
  lemma BehindWarp(cfg: Config, c: Chain, egress: Egress, steps: nat)
    requires Holds(cfg, c, egress) && WellFormed(c) && c.warpWrap && steps >= |c.ents| + 2
    ensures Walk(cfg, Sing(WarpBypass), steps) == Some(c.ents[1..])
  {
    hide *;
    SecondOfWarp(c);
    InitialWalk(cfg, c, egress, 1, steps);
  }

  lemma SecondOfWarp(c: Chain)
    requires WellFormed(c) && c.warpWrap
    ensures |InitialServers(c)| > 1 && SingTag(c, 1) == WarpBypass && FromInitial(c, 1) == c.ents[1..]
    ensures |InitialServers(c)| + |XrayEnts(c.ents)| + |TailingEnts(c.ents)| <= |c.ents| + 1
  {
    PartsInOrder(c.ents);
    WarpHasMore(c);
    assert InitialEnts(c.ents) != [];
    hide InitialEnts, TailingEnts, XrayEnts, CoreTransitions;
    var initial, rest := InitialEnts(c.ents), XrayEnts(c.ents) + TailingEnts(c.ents);
    assert c.ents == initial + rest;
    assert c.ents[1..] == initial[1..] + rest;
    assert |initial| == 1 ==> initial[1..] == [];
  }
}
