/** What the chain compiler of src/configs/generate.cpp emits for a list of hops: sing-box outbounds,
    Xray outbounds and the bridges between the two cores, as values, and what it means to follow
    them. */
module Chains {
  datatype Option<T> = None | Some(value: T)

  /** A profile in a chain, as far as the compiler looks at it. */
  datatype Hop = Hop(id: int, xray: bool)

  datatype Prefix = MainChain | RouteChain

  /** The tags "proxy", "warp-bypass", "direct", "xray-direct", and a prefix with a number. */
  datatype Tag = Proxy | WarpBypass | Direct | XrayDirect | Numbered(prefix: Prefix, n: nat)

  /** Where an outbound connects to: the server of a hop, the local socks inbound of a bridge, or freely. */
  datatype Server = Real(hop: Hop) | Socks(endpoint: nat) | Free

  /** An outbound of either core: via is sing-box's detour or Xray's proxySettings; bound is the interface that
      its socket is bound to, if any. */
  datatype Outbound = Outbound(tag: Tag, server: Server, via: Option<Tag>, bound: string := "")

  /** coreBridgeConfig: the endpoint stands for its host, port and credentials. */
  datatype Bridge = Bridge(endpoint: nat, loopbackProtect: bool)

  /** How the final egress of Xray is kept out of the TUN device. */
  datatype Egress = Plain | BindInterface(interface: string) | Loopback

  /** One call of buildOutboundChain; the chain may use two endpoints from `endpoint` on. */
  datatype Chain = Chain(ents: seq<Hop>, prefix: Prefix, includeProxy: bool, link: bool, start: nat, warpWrap: bool,
                         endpoint: nat)

  /** The lists that the build context accumulates. */
  datatype Pieces = Pieces(outbounds: seq<Outbound>, xrayOutbounds: seq<Outbound>,
                           singToXray: seq<Bridge>, xrayToSing: seq<Bridge>,
                           singIngress: seq<Tag>, xrayIngress: seq<Tag>)

  const NOTHING := Pieces([], [], [], [], [], [])

  function Plus(a: Pieces, b: Pieces): Pieces {
    Pieces(a.outbounds + b.outbounds, a.xrayOutbounds + b.xrayOutbounds, a.singToXray + b.singToXray,
           a.xrayToSing + b.xrayToSing, a.singIngress + b.singIngress, a.xrayIngress + b.xrayIngress)
  }

  // ----- the three parts of a chain

  /** How often the chain passes from one core to the other, starting in the given one. */
  function CoreTransitions(ents: seq<Hop>, inXray: bool): nat {
    if ents == [] then 0
    else (if ents[0].xray != inXray then 1 else 0) + CoreTransitions(ents[1..], ents[0].xray)
  }

  function XrayEnts(ents: seq<Hop>): (r: seq<Hop>)
    ensures forall h :: h in r ==> h.xray && h in ents
  {
    if ents == [] then [] else (if ents[0].xray then [ents[0]] else []) + XrayEnts(ents[1..])
  }

  function SingEnts(ents: seq<Hop>): (r: seq<Hop>)
    ensures forall h :: h in r ==> !h.xray
  {
    if ents == [] then [] else (if ents[0].xray then [] else [ents[0]]) + SingEnts(ents[1..])
  }

  /** The hops before the first Xray hop. */
  function InitialEnts(ents: seq<Hop>): (r: seq<Hop>)
    ensures |r| <= |ents| && r == ents[..|r|]
    ensures forall h :: h in r ==> !h.xray
  {
    if ents == [] || ents[0].xray then [] else [ents[0]] + InitialEnts(ents[1..])
  }

  /** The sing-box hops after the first Xray hop. */
  function TailingEnts(ents: seq<Hop>): (r: seq<Hop>)
    ensures forall h :: h in r ==> !h.xray
  {
    SingEnts(ents[|InitialEnts(ents)|..])
  }

  function Parts(ents: seq<Hop>): seq<Hop> {
    InitialEnts(ents) + XrayEnts(ents) + TailingEnts(ents)
  }

  lemma {:induction false} NoXray(ents: seq<Hop>)
    ensures CoreTransitions(ents, false) == 0 <==> XrayEnts(ents) == []
    ensures XrayEnts(ents) == [] ==> SingEnts(ents) == ents
  {
    if ents != [] {
      NoXray(ents[1..]);
      assert ents == [ents[0]] + ents[1..];
    }
  }

  lemma SamePrefix(h: Hop, a: seq<Hop>, b: seq<Hop>)
    ensures [h] + a == [h] + b <==> a == b
  {
    if [h] + a == [h] + b {
      assert a == ([h] + a)[1..] && b == ([h] + b)[1..];
    }
  }

  lemma {:induction false} XrayThenSing(ents: seq<Hop>)
    ensures CoreTransitions(ents, true) <= 1 <==> XrayEnts(ents) + SingEnts(ents) == ents
  {
    if ents != [] {
      var rest := ents[1..];
      var x, s := XrayEnts(rest), SingEnts(rest);
      assert ents == [ents[0]] + rest;
      if ents[0].xray {
        XrayThenSing(rest);
        assert XrayEnts(ents) + SingEnts(ents) == [ents[0]] + (x + s);
        SamePrefix(ents[0], x + s, rest);
      } else {
        NoXray(rest);
        SingAfterSing(ents, x, s);
      }
    }
  }

  lemma SingAfterSing(ents: seq<Hop>, x: seq<Hop>, s: seq<Hop>)
    requires ents != [] && !ents[0].xray && x == XrayEnts(ents[1..]) && s == SingEnts(ents[1..])
    requires x == [] ==> s == ents[1..]
    ensures x + ([ents[0]] + s) == ents <==> x == []
  {
    if x == [] {
      assert x + ([ents[0]] + s) == ents;
    } else {
      assert (x + ([ents[0]] + s))[0] == x[0];
    }
  }

  /** The three parts make up the chain again exactly when it passes between the cores at most twice:
      sing-box hops, then Xray hops, then sing-box hops. */
  lemma {:induction false} PartsInOrder(ents: seq<Hop>)
    ensures Parts(ents) == ents <==> CoreTransitions(ents, false) <= 2
  {
    if ents != [] {
      var rest := ents[1..];
      assert ents == [ents[0]] + rest;
      if ents[0].xray {
        XrayThenSing(rest);
        assert Parts(ents) == [ents[0]] + (XrayEnts(rest) + SingEnts(rest));
        SamePrefix(ents[0], XrayEnts(rest) + SingEnts(rest), rest);
      } else {
        PartsInOrder(rest);
        InitialStep(ents);
        SamePrefix(ents[0], Parts(rest), rest);
      }
    }
  }

  lemma InitialStep(ents: seq<Hop>)
    requires ents != [] && !ents[0].xray
    ensures Parts(ents) == [ents[0]] + Parts(ents[1..])
  {
    var i, x, t := InitialEnts(ents[1..]), XrayEnts(ents[1..]), TailingEnts(ents[1..]);
    XraySkip(ents);
    hide XrayEnts, SingEnts;
    assert InitialEnts(ents) == [ents[0]] + i;
    assert |InitialEnts(ents)| == 1 + |i|;
    hide InitialEnts;
    Dropped(ents, |i|);
    assert TailingEnts(ents) == t;
    hide TailingEnts;
    Group(ents[0], i, x, t);
  }

  lemma Dropped(ents: seq<Hop>, k: nat)
    requires k + 1 <= |ents|
    ensures ents[1 + k..] == ents[1..][k..]
  {}

  lemma Group(h: Hop, i: seq<Hop>, x: seq<Hop>, t: seq<Hop>)
    ensures [h] + i + x + t == [h] + (i + x + t)
  {}

  lemma XraySkip(ents: seq<Hop>)
    requires ents != [] && !ents[0].xray
    ensures XrayEnts(ents) == XrayEnts(ents[1..])
  {}

  // ----- what buildOutboundChain appends

  function Servers(hops: seq<Hop>): (s: seq<Server>)
    ensures |s| == |hops| && forall k :: 0 <= k < |s| ==> s[k] == Real(hops[k])
  {
    seq(|hops|, k requires 0 <= k < |hops| => Real(hops[k]))
  }

  /** buildSingboxChain. */
  function SingChain(servers: seq<Server>, prefix: Prefix, includeProxy: bool, link: bool, start: nat, warpWrap: bool): (r: seq<Outbound>)
    ensures |r| == |servers|
  {
    seq(|servers|, k requires 0 <= k < |servers| =>
      Outbound(if warpWrap && k == 1 then WarpBypass else if includeProxy && k == 0 then Proxy else Numbered(prefix, start + k),
               servers[k],
               if warpWrap && k == 0 then Some(WarpBypass)
               else if k < |servers| - 1 && link then Some(Numbered(prefix, start + k + 1)) else None))
  }

  /** buildXrayChain. The last hop's socket is bound to the interface. */
  function XrayChain(hops: seq<Hop>, prefix: Prefix, includeProxy: bool, link: bool, start: nat, bridge: Option<Bridge>, bind: string): (r: seq<Outbound>)
    ensures |r| == |hops| + if bridge.Some? then 1 else 0
  {
    seq(|hops|, k requires 0 <= k < |hops| =>
      Outbound(if includeProxy && k == 0 then Proxy else Numbered(prefix, start + k),
               Real(hops[k]),
               if (k < |hops| - 1 || bridge.Some?) && (link || bridge.Some?) then Some(Numbered(prefix, start + k + 1)) else None,
               if k == |hops| - 1 then bind else ""))
    + if bridge.Some? then [Outbound(Numbered(prefix, start + |hops|), Socks(bridge.value.endpoint), None)] else []
  }

  /** The bridge after the Xray hops: back to sing-box, or past the TUN device. */
  function ExitBridge(c: Chain, egress: Egress): Option<Bridge> {
    if XrayEnts(c.ents) == [] then None
    else if TailingEnts(c.ents) != [] then Some(Bridge(c.endpoint + 1, false))
    else if egress.Loopback? then Some(Bridge(c.endpoint + 1, true))
    else None
  }

  /** The interface to which the last Xray hop is bound. */
  function BindOf(c: Chain, egress: Egress): string {
    if XrayEnts(c.ents) != [] && TailingEnts(c.ents) == [] && egress.BindInterface? then egress.interface else ""
  }

  /** The sing-box part before Xray, with the bridge into it. */
  function InitialServers(c: Chain): seq<Server> {
    Servers(InitialEnts(c.ents)) + if XrayEnts(c.ents) == [] then [] else [Socks(c.endpoint)]
  }

  function TailStart(c: Chain): nat {
    c.start + |InitialServers(c)|
  }

  /** buildOutboundChain, for a chain that entIDListtoEntList accepts. */
  function ChainPieces(c: Chain, egress: Egress): Pieces {
    var xrays, tail, exit := XrayEnts(c.ents), TailingEnts(c.ents), ExitBridge(c, egress);
    Pieces(
      SingChain(InitialServers(c), c.prefix, c.includeProxy, c.link, c.start, c.warpWrap)
      + SingChain(Servers(tail), c.prefix, false, c.link, TailStart(c), false),
      if xrays == [] then [] else XrayChain(xrays, c.prefix, c.includeProxy, c.link, c.start, exit, BindOf(c, egress)),
      if xrays == [] then [] else [Bridge(c.endpoint, false)],
      if exit.Some? then [exit.value] else [],
      if tail == [] then [] else [Numbered(c.prefix, TailStart(c))],
      if xrays == [] then [] else [if c.includeProxy then Proxy else Numbered(c.prefix, c.start)])
  }
}
