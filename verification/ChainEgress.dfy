/** Where the traffic of a chain leaves the two cores: with the TUN device on, never through a socket of Xray
    that the device would capture. */
module ChainEgress {
  import opened Chains
  import opened ChainWalk
  import opened ChainConfig

  /** The last hop that is asked for. */
  function LastHop(c: Chain): Hop
    requires c.ents != []
  {
    c.ents[|c.ents| - 1]
  }

  /** Followed from its first tag, the chain ends at the outbound of its last hop; at a sing-box outbound if that
      is a sing-box hop, at an Xray outbound bound to the interface if it is an Xray hop and there is one. With
      the TUN device on and no interface, a chain that ends in Xray ends at a direct outbound of sing-box
      instead. */
  ghost predicate LeavesThrough(cfg: Config, c: Chain, tun: bool, interface: string)
    requires c.ents != []
  {
    var end := Leaves(cfg, Sing(FirstTag(c)), |c.ents| + 3);
    && end.Some? && Lookup(cfg, end.value).Some?
    && var o := Lookup(cfg, end.value).value;
      if !LastHop(c).xray then end.value.Sing? && o.server == Real(LastHop(c)) && o.bound == ""
      else if interface != "" then end.value.Xray? && o.server == Real(LastHop(c)) && o.bound == interface
      else if tun then end.value.Sing? && o.server == Free
      else end.value.Xray? && o.server == Real(LastHop(c)) && o.bound == ""
  }

  lemma LastPart(ents: seq<Hop>)
    requires ents != [] && CoreTransitions(ents, false) <= 2
    ensures var xrays, tail := XrayEnts(ents), TailingEnts(ents);
      ents[|ents| - 1] == if tail != [] then tail[|tail| - 1] else if xrays != [] then xrays[|xrays| - 1]
        else InitialEnts(ents)[|InitialEnts(ents)| - 1]
    ensures ents[|ents| - 1].xray <==> TailingEnts(ents) == [] && XrayEnts(ents) != []
  {
    PartsInOrder(ents);
    hide InitialEnts, XrayEnts, TailingEnts, CoreTransitions;
    var initial, xrays, tail := InitialEnts(ents), XrayEnts(ents), TailingEnts(ents);
    assert ents == initial + xrays + tail;
    if tail != [] {
      assert tail[|tail| - 1] in tail;
    } else if xrays != [] {
      assert xrays[|xrays| - 1] in xrays;
    } else {
      assert initial[|initial| - 1] in initial;
    }
  }

  ghost predicate EndsAt(cfg: Config, n: Node, server: Server, bound: string) {
    Lookup(cfg, n).Some? && Lookup(cfg, n).value.server == server && Lookup(cfg, n).value.bound == bound
  }

  /** The outbound at which a chain ends. */
  lemma LastOutbound(cfg: Config, c: Chain, egress: Egress)
    requires Holds(cfg, c, egress) && WellFormed(c)
    ensures var n := LastNode(c, egress);
      if !LastHop(c).xray then n.Sing? && EndsAt(cfg, n, Real(LastHop(c)), "")
      else if egress.Loopback? then n.Sing? && EndsAt(cfg, n, Free, "")
      else n.Xray? && EndsAt(cfg, n, Real(LastHop(c)), if egress.BindInterface? then egress.interface else "")
  {
    hide InitialEnts, XrayEnts, TailingEnts, CoreTransitions, Holds, EndsAt, InitialServers, SingTag, XrayTag, TailStart;
    WellFormedParts(c);
    LastPart(c.ents);
    if TailingEnts(c.ents) != [] {
      LastTail(cfg, c, egress);
    } else if XrayEnts(c.ents) == [] {
      LastInitial(cfg, c, egress);
    } else if egress.Loopback? {
      LoopbackEnd(cfg, c, egress);
    } else {
      LastXray(cfg, c, egress);
    }
  }

  lemma WellFormedParts(c: Chain)
    requires WellFormed(c)
    ensures c.ents != [] && CoreTransitions(c.ents, false) <= 2
  {}

  lemma LastTail(cfg: Config, c: Chain, egress: Egress)
    requires Holds(cfg, c, egress) && TailingEnts(c.ents) != []
    ensures var tail := TailingEnts(c.ents);
      EndsAt(cfg, Sing(Numbered(c.prefix, TailStart(c) + (|tail| - 1))), Real(tail[|tail| - 1]), "")
  {
    hide TailingEnts, TailStart, Holds, Lookup;
    TailOutbound(cfg, c, egress, |TailingEnts(c.ents)| - 1);
  }

  lemma LastXray(cfg: Config, c: Chain, egress: Egress)
    requires Holds(cfg, c, egress) && XrayEnts(c.ents) != [] && TailingEnts(c.ents) == []
    ensures var xrays := XrayEnts(c.ents);
      EndsAt(cfg, Xray(XrayTag(c, |xrays| - 1)), Real(xrays[|xrays| - 1]), if egress.BindInterface? then egress.interface else "")
  {
    hide XrayEnts, TailingEnts, Holds, Lookup;
    XrayOutbound(cfg, c, egress, |XrayEnts(c.ents)| - 1);
  }

  lemma LoopbackEnd(cfg: Config, c: Chain, egress: Egress)
    requires Holds(cfg, c, egress) && XrayEnts(c.ents) != [] && TailingEnts(c.ents) == [] && egress.Loopback?
    ensures EndsAt(cfg, Sing(XrayDirect), Free, "")
  {
    hide XrayEnts, TailingEnts, AllFound, FindOutbound, Target;
  }

  lemma LastInitial(cfg: Config, c: Chain, egress: Egress)
    requires Holds(cfg, c, egress) && WellFormed(c) && XrayEnts(c.ents) == []
    ensures |InitialServers(c)| == |c.ents|
    ensures EndsAt(cfg, Sing(SingTag(c, |c.ents| - 1)), Real(c.ents[|c.ents| - 1]), "")
  {
    hide XrayEnts, TailingEnts, InitialEnts, CoreTransitions, Holds, Lookup;
    NoXrayNoTail(c.ents);
    InitialOutbound(cfg, c, egress, |c.ents| - 1);
  }

  /** Every chain of a configuration leaves where it should. */
  lemma ChainLeaves(cs: seq<Chain>, tun: bool, interface: string, egress: Egress, k: nat)
    requires egress == if interface != "" then BindInterface(interface) else if tun then Loopback else Plain
    requires Layout(cs) && NoClash(cs, egress) && k < |cs|
    ensures cs[k].ents != [] && LeavesThrough(Configuration(cs, egress), cs[k], tun, interface)
  {
    hide NoClash, Configuration, Leaves, Holds, LastNode, Lookup, CoreTransitions;
    var cfg := Configuration(cs, egress);
    AllHold(cs, egress, k);
    ChainVisitsHops(cfg, cs[k], egress, |cs[k].ents| + 3);
    LastOutbound(cfg, cs[k], egress);
  }

  /** The bridges back to sing-box that a chain gets: one into the hops behind Xray if it comes back; one past
      the TUN device if it ends in Xray, the device is on and there is no interface to bind to; or none. */
  ghost predicate BridgedOut(bridges: seq<Bridge>, c: Chain, tun: bool, interface: string)
    requires c.ents != []
  {
    if !LastHop(c).xray && (exists h :: h in c.ents && h.xray) then bridges == [Bridge(c.endpoint + 1, false)]
    else if LastHop(c).xray && interface == "" && tun then bridges == [Bridge(c.endpoint + 1, true)]
    else bridges == []
  }

  lemma {:induction false} XrayHops(ents: seq<Hop>)
    ensures XrayEnts(ents) != [] <==> exists h :: h in ents && h.xray
  {
    if ents != [] {
      XrayHops(ents[1..]);
    }
  }

  lemma OwnBridges(c: Chain, tun: bool, interface: string, egress: Egress)
    requires egress == if interface != "" then BindInterface(interface) else if tun then Loopback else Plain
    requires c.ents != [] && CoreTransitions(c.ents, false) <= 2
    ensures BridgedOut(ChainPieces(c, egress).xrayToSing, c, tun, interface)
  {
    LastPart(c.ents);
    XrayHops(c.ents);
    hide XrayEnts, TailingEnts, InitialEnts, CoreTransitions, InitialServers;
  }

  // ----- what is not emitted

  /** Nothing of a loopback bridge is in the configuration. */
  ghost predicate NoLoopbacks(cfg: Config) {
    && (forall i :: i in cfg.inbounds ==> !i.tag.BridgeLoopback?)
    && (forall r :: r in cfg.rules ==> !r.inbound.BridgeLoopback? && r.outbound != XrayDirect)
    && (forall o :: o in cfg.outbounds ==> o.tag != XrayDirect)
  }

  ghost predicate AllNormal(b: seq<Bridge>) {
    forall k :: 0 <= k < |b| ==> !b[k].loopbackProtect
  }

  lemma {:induction false} NormalSum(cs: seq<Chain>, egress: Egress)
    requires !egress.Loopback?
    ensures AllNormal(Sum(cs, egress).xrayToSing)
  {
    if cs != [] {
      var n := |cs| - 1;
      NormalSum(cs[..n], egress);
      NormalPieces(cs[n], egress);
      hide ChainPieces;
    }
  }

  lemma NormalPieces(c: Chain, egress: Egress)
    requires !egress.Loopback?
    ensures AllNormal(ChainPieces(c, egress).xrayToSing)
  {
    hide InitialEnts, XrayEnts, TailingEnts;
  }

  lemma {:induction false} NormalInbounds(b: seq<Bridge>, ingress: seq<Tag>)
    requires NormalCount(b) == |ingress| && AllNormal(b)
    ensures NormalCount(b) == |b|
    ensures forall i :: i in BridgeInbounds(b, ingress) ==> !i.tag.BridgeLoopback?
    ensures forall r :: r in BridgeRules(b, ingress) ==> !r.inbound.BridgeLoopback? && r.outbound in ingress
  {
    if b != [] {
      NormalInbounds(b[1..], ingress[1..]);
    }
  }

  lemma {:induction false} IngressTags(cs: seq<Chain>, egress: Egress)
    ensures forall t :: t in Sum(cs, egress).singIngress ==> t.Numbered?
  {
    if cs != [] {
      var n := |cs| - 1;
      IngressTags(cs[..n], egress);
      var c, p := cs[n], ChainPieces(cs[n], egress);
      assert p.singIngress == if TailingEnts(c.ents) == [] then [] else [Numbered(c.prefix, TailStart(c))];
      hide ChainPieces, InitialEnts, XrayEnts, TailingEnts, TailStart;
    }
  }

  /** With an interface to bind to, or without the TUN device, there are no loopback bridges. */
  lemma NoLoopbacksWithout(cs: seq<Chain>, egress: Egress)
    requires Layout(cs) && !egress.Loopback?
    ensures NoLoopbacks(Configuration(cs, egress))
  {
    hide Sum, HopCount, BridgeInbounds, BridgeRules;
    CountsAlwaysMatch(cs, egress);
    NormalSum(cs, egress);
    IngressTags(cs, egress);
    SingTagsDistinct(cs, egress);
    var p := Sum(cs, egress);
    NormalInbounds(p.xrayToSing, p.singIngress);
  }

  // ----- which sockets are bound

  /** Only outbounds of last Xray hops are bound, and to no other interface. */
  ghost predicate BoundOnly(cfg: Config, cs: seq<Chain>, interface: string) {
    && (forall o :: o in cfg.outbounds ==> o.bound == "")
    && (forall o :: o in cfg.xrayOutbounds && o.bound != "" ==> o.bound == interface && EndsSomeChain(cs, o.server))
  }

  ghost predicate EndsSomeChain(cs: seq<Chain>, server: Server) {
    exists k :: 0 <= k < |cs| && EndsChain(cs[k], server)
  }

  predicate EndsChain(c: Chain, server: Server) {
    c.ents != [] && LastHop(c).xray && server == Real(LastHop(c))
  }

  ghost predicate Unbound(os: seq<Outbound>) {
    forall o :: o in os ==> o.bound == ""
  }

  ghost predicate BoundAtEnds(os: seq<Outbound>, cs: seq<Chain>, egress: Egress) {
    forall o :: o in os && o.bound != "" ==> egress.BindInterface? && o.bound == egress.interface && EndsSomeChain(cs, o.server)
  }

  lemma UnboundPieces(c: Chain, egress: Egress)
    ensures Unbound(ChainPieces(c, egress).outbounds)
  {
    hide InitialServers, TailingEnts, XrayEnts;
  }

  lemma BoundLast(hops: seq<Hop>, prefix: Prefix, includeProxy: bool, link: bool, start: nat, bridge: Option<Bridge>, bind: string)
    ensures forall o :: o in XrayChain(hops, prefix, includeProxy, link, start, bridge, bind) && o.bound != "" ==>
      hops != [] && o.bound == bind && o.server == Real(hops[|hops| - 1])
  {}

  lemma XrayPieces(c: Chain, egress: Egress)
    ensures forall o :: o in ChainPieces(c, egress).xrayOutbounds && o.bound != "" ==>
      XrayEnts(c.ents) != [] && o.bound == BindOf(c, egress) && o.server == Real(XrayEnts(c.ents)[|XrayEnts(c.ents)| - 1])
  {
    hide XrayEnts, TailingEnts, XrayChain, BindOf, InitialServers, ExitBridge;
    BoundLast(XrayEnts(c.ents), c.prefix, c.includeProxy, c.link, c.start, ExitBridge(c, egress), BindOf(c, egress));
  }

  lemma BindMeans(c: Chain, egress: Egress)
    requires CoreTransitions(c.ents, false) <= 2 && XrayEnts(c.ents) != [] && BindOf(c, egress) != ""
    ensures egress.BindInterface? && BindOf(c, egress) == egress.interface
    ensures EndsChain(c, Real(XrayEnts(c.ents)[|XrayEnts(c.ents)| - 1]))
  {
    assert c.ents != [];
    LastPart(c.ents);
    hide XrayEnts, TailingEnts, CoreTransitions;
  }

  lemma OneEnd(c: Chain, server: Server)
    requires EndsChain(c, server)
    ensures EndsSomeChain([c], server)
  {
    assert EndsChain([c][0], server);
  }

  lemma BoundPieces(c: Chain, egress: Egress)
    requires CoreTransitions(c.ents, false) <= 2
    ensures BoundAtEnds(ChainPieces(c, egress).xrayOutbounds, [c], egress)
  {
    hide XrayEnts, TailingEnts, CoreTransitions, ChainPieces, BindOf, EndsChain, EndsSomeChain;
    XrayPieces(c, egress);
    if XrayEnts(c.ents) != [] && BindOf(c, egress) != "" {
      BindMeans(c, egress);
      OneEnd(c, Real(XrayEnts(c.ents)[|XrayEnts(c.ents)| - 1]));
    }
  }

  lemma EndsMore(cs: seq<Chain>, c: Chain, server: Server)
    requires EndsSomeChain(cs, server) || EndsSomeChain([c], server)
    ensures EndsSomeChain(cs + [c], server)
  {
    hide EndsChain;
    var more := cs + [c];
    if EndsSomeChain(cs, server) {
      var k :| 0 <= k < |cs| && EndsChain(cs[k], server);
      assert EndsChain(more[k], server);
    } else {
      assert EndsChain(more[|cs|], server);
    }
  }

  lemma BoundMore(a: seq<Outbound>, b: seq<Outbound>, cs: seq<Chain>, c: Chain, egress: Egress)
    requires BoundAtEnds(a, cs, egress) && BoundAtEnds(b, [c], egress)
    ensures BoundAtEnds(a + b, cs + [c], egress)
  {
    hide EndsSomeChain;
    forall o | o in a + b && o.bound != "" ensures EndsSomeChain(cs + [c], o.server) {
      EndsMore(cs, c, o.server);
    }
  }

  /** No chain passes between the cores more than twice. */
  ghost predicate FewChanges(cs: seq<Chain>) {
    forall k :: 0 <= k < |cs| ==> CoreTransitions(cs[k].ents, false) <= 2
  }

  lemma LastOfSum(cs: seq<Chain>, egress: Egress)
    requires cs != [] && FewChanges(cs)
    ensures var n := |cs| - 1;
      && FewChanges(cs[..n]) && CoreTransitions(cs[n].ents, false) <= 2 && cs[..n] + [cs[n]] == cs
      && Sum(cs, egress).outbounds == Sum(cs[..n], egress).outbounds + ChainPieces(cs[n], egress).outbounds
      && Sum(cs, egress).xrayOutbounds == Sum(cs[..n], egress).xrayOutbounds + ChainPieces(cs[n], egress).xrayOutbounds
  {
    hide CoreTransitions, ChainPieces;
  }

  lemma {:induction false} BoundSum(cs: seq<Chain>, egress: Egress)
    requires FewChanges(cs)
    ensures Unbound(Sum(cs, egress).outbounds) && BoundAtEnds(Sum(cs, egress).xrayOutbounds, cs, egress)
  {
    if cs == [] {
      assert Sum(cs, egress) == NOTHING;
    } else {
      hide *;
      var n := |cs| - 1;
      LastOfSum(cs, egress);
      BoundSum(cs[..n], egress);
      UnboundPieces(cs[n], egress);
      BoundPieces(cs[n], egress);
      UnboundMore(Sum(cs[..n], egress).outbounds, ChainPieces(cs[n], egress).outbounds);
      BoundMore(Sum(cs[..n], egress).xrayOutbounds, ChainPieces(cs[n], egress).xrayOutbounds, cs[..n], cs[n], egress);
    }
  }

  lemma UnboundMore(a: seq<Outbound>, b: seq<Outbound>)
    requires Unbound(a) && Unbound(b)
    ensures Unbound(a + b)
  {}

  lemma BoundOnlyLast(cs: seq<Chain>, interface: string, egress: Egress)
    requires egress.BindInterface? ==> egress.interface == interface
    requires FewChanges(cs)
    ensures BoundOnly(Configuration(cs, egress), cs, interface)
  {
    hide Sum, CoreTransitions, EndsSomeChain, BridgeInbounds, BridgeRules;
    CountsAlwaysMatch(cs, egress);
    BoundSum(cs, egress);
  }
}
