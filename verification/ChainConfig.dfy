/** A whole configuration: the main chain and the outbound groups of the routing profile, and why every
    one of them can be followed in it. */
module ChainConfig {
  import opened Chains
  import opened ChainWalk

  function Sum(cs: seq<Chain>, egress: Egress): Pieces {
    if cs == [] then NOTHING else Plus(Sum(cs[..|cs| - 1], egress), ChainPieces(cs[|cs| - 1], egress))
  }

  /** The number of hops in the groups, from which the next group's numbering starts. */
  function HopCount(cs: seq<Chain>): nat {
    if |cs| <= 1 then 0 else HopCount(cs[..|cs| - 1]) + |cs[|cs| - 1].ents|
  }

  /** The main chain comes first; the groups are numbered one after the other; every chain has its own
      two endpoints. */
  ghost predicate Layout(cs: seq<Chain>) {
    forall k :: 0 <= k < |cs| ==> Placed(cs[k], k, HopCount(cs[..k]))
  }

  ghost predicate Placed(c: Chain, k: nat, start: nat) {
    && WellFormed(c) && c.endpoint == 2 * k && c.start == start
    && c.prefix == (if k == 0 then MainChain else RouteChain)
    && c.includeProxy == (k == 0) && (k > 0 ==> !c.warpWrap)
  }

  lemma LayoutPrefix(cs: seq<Chain>, n: nat)
    requires Layout(cs) && n <= |cs|
    ensures Layout(cs[..n])
  {
    forall k | 0 <= k < n
      ensures cs[..n][..k] == cs[..k]
    {}
  }

  // ----- tags

  ghost predicate Distinct(os: seq<Outbound>) {
    forall i, j :: 0 <= i < j < |os| ==> os[i].tag != os[j].tag
  }

  lemma {:induction false} FoundWhenDistinct(os: seq<Outbound>, k: nat)
    requires Distinct(os) && k < |os|
    ensures FindOutbound(os, os[k].tag) == Some(os[k])
  {
    if k > 0 {
      FoundWhenDistinct(os[1..], k - 1);
    }
  }

  /** A tag that a chain of the main configuration may carry. */
  predicate MainTag(t: Tag) {
    t == Proxy || t == WarpBypass || (t.Numbered? && t.prefix == MainChain)
  }

  predicate RouteTag(t: Tag, lo: int, hi: int) {
    t.Numbered? && t.prefix == RouteChain && lo <= t.n < hi
  }

  ghost predicate MainTags(os: seq<Outbound>) {
    Distinct(os) && forall k :: 0 <= k < |os| ==> MainTag(os[k].tag)
  }

  ghost predicate RouteTags(os: seq<Outbound>, lo: int, hi: int) {
    Distinct(os) && forall k :: 0 <= k < |os| ==> RouteTag(os[k].tag, lo, hi)
  }

  /** Distinct tags of the main chain and of groups numbered below n. */
  ghost predicate TagsBelow(os: seq<Outbound>, n: int) {
    Distinct(os) && forall k :: 0 <= k < |os| ==> MainTag(os[k].tag) || RouteTag(os[k].tag, 0, n)
  }

  lemma MoreTags(a: seq<Outbound>, b: seq<Outbound>, lo: int, hi: int)
    requires TagsBelow(a, lo) && RouteTags(b, lo, hi) && lo <= hi
    ensures TagsBelow(a + b, hi)
  {}

  lemma ServersCount(c: Chain)
    requires WellFormed(c)
    ensures |InitialServers(c)| + |TailingEnts(c.ents)| <= |c.ents|
    ensures XrayEnts(c.ents) == [] ==> TailingEnts(c.ents) == []
    ensures |XrayEnts(c.ents)| <= |c.ents|
    ensures |XrayEnts(c.ents)| == |c.ents| ==> TailingEnts(c.ents) == []
  {
    hide TailingEnts, XrayEnts, InitialEnts, CoreTransitions;
    PartsInOrder(c.ents);
    if XrayEnts(c.ents) == [] {
      NoXrayNoTail(c.ents);
    }
  }

  /** The sing-box tags of one chain are distinct and within its numbers. */
  lemma SingTags(c: Chain, egress: Egress)
    requires WellFormed(c)
    ensures c.prefix == MainChain && c.includeProxy ==> MainTags(ChainPieces(c, egress).outbounds)
    ensures c.prefix == RouteChain && !c.includeProxy && !c.warpWrap ==>
      RouteTags(ChainPieces(c, egress).outbounds, c.start, c.start + |c.ents|)
  {
    hide TailingEnts, XrayEnts, InitialEnts, CoreTransitions, InitialServers;
    ServersCount(c);
    var a := SingChain(InitialServers(c), c.prefix, c.includeProxy, c.link, c.start, c.warpWrap);
    var b := SingChain(Servers(TailingEnts(c.ents)), c.prefix, false, c.link, TailStart(c), false);
    assert ChainPieces(c, egress).outbounds == a + b;
    if c.warpWrap {
      WarpHasMore(c);
    }
    var os: seq<Outbound> := a + b;
    forall i, j | 0 <= i < j < |os|
      ensures os[i].tag != os[j].tag
    {}
  }

  /** The numbers that a chain's Xray outbounds reach up to: one past its own, for a chain of nothing but
      Xray hops behind a loopback bridge. */
  predicate Overflows(c: Chain, egress: Egress) {
    XrayEnts(c.ents) == c.ents && egress.Loopback?
  }

  lemma XrayTags(c: Chain, egress: Egress)
    requires WellFormed(c)
    ensures c.prefix == MainChain && c.includeProxy ==> MainTags(ChainPieces(c, egress).xrayOutbounds)
    ensures c.prefix == RouteChain && !c.includeProxy ==>
      RouteTags(ChainPieces(c, egress).xrayOutbounds, c.start, c.start + |c.ents| + if Overflows(c, egress) then 1 else 0)
  {
    hide TailingEnts, InitialEnts, CoreTransitions, InitialServers, XrayEnts;
    ServersCount(c);
    AllXray(c.ents);
    var xrays := XrayEnts(c.ents);
    var os := XrayChain(xrays, c.prefix, c.includeProxy, c.link, c.start, ExitBridge(c, egress), BindOf(c, egress));
    assert ChainPieces(c, egress).xrayOutbounds == if xrays == [] then [] else os;
  }

  lemma {:induction false} AllXray(ents: seq<Hop>)
    ensures |XrayEnts(ents)| <= |ents|
    ensures |XrayEnts(ents)| == |ents| <==> XrayEnts(ents) == ents
  {
    if ents != [] {
      AllXray(ents[1..]);
      assert ents == [ents[0]] + ents[1..];
    }
  }

  /** No group that overflows is followed by one with Xray hops. */
  predicate NoClash(cs: seq<Chain>, egress: Egress) {
    forall k :: 0 < k < |cs| - 1 && Overflows(cs[k], egress) ==> XrayEnts(cs[k + 1].ents) == []
  }

  lemma {:induction false} SingTagsDistinct(cs: seq<Chain>, egress: Egress)
    requires Layout(cs)
    ensures TagsBelow(Sum(cs, egress).outbounds, HopCount(cs))
  {
    hide ChainPieces, WellFormed;
    if cs != [] {
      var n := |cs| - 1;
      LayoutPrefix(cs, n);
      SingTagsDistinct(cs[..n], egress);
      SingTags(cs[n], egress);
      if n > 0 {
        MoreTags(Sum(cs[..n], egress).outbounds, ChainPieces(cs[n], egress).outbounds, HopCount(cs[..n]), HopCount(cs));
      } else {
        assert cs[..0] == [];
        assert Sum(cs, egress).outbounds == ChainPieces(cs[0], egress).outbounds;
      }
    }
  }

  /** How far the Xray tags of the chains so far reach. */
  function XrayReach(cs: seq<Chain>, egress: Egress): int {
    HopCount(cs) + if |cs| > 1 && Overflows(cs[|cs| - 1], egress) then 1 else 0
  }

  lemma NoClashPrefix(cs: seq<Chain>, egress: Egress)
    requires NoClash(cs, egress) && cs != []
    ensures NoClash(cs[..|cs| - 1], egress)
  {
    hide Overflows, XrayEnts;
  }

  lemma MoreXrayTags(cs: seq<Chain>, egress: Egress, before: seq<Outbound>)
    requires Layout(cs) && NoClash(cs, egress) && |cs| > 1
    requires TagsBelow(before, XrayReach(cs[..|cs| - 1], egress))
    ensures TagsBelow(before + ChainPieces(cs[|cs| - 1], egress).xrayOutbounds, XrayReach(cs, egress))
  {
    hide ChainPieces, WellFormed, Overflows, XrayEnts, TagsBelow, RouteTags;
    var n := |cs| - 1;
    var mine := ChainPieces(cs[n], egress).xrayOutbounds;
    XrayTags(cs[n], egress);
    NotEmpty(cs[n]);
    if n > 1 && Overflows(cs[n - 1], egress) {
      assert XrayEnts(cs[n - 1 + 1].ents) == [];
      NoXrayOutbounds(cs[n], egress);
      assert before + mine == before;
      TagsBelowMore(before, XrayReach(cs[..n], egress), XrayReach(cs, egress));
    } else {
      MoreTags(before, mine, HopCount(cs[..n]), XrayReach(cs, egress));
    }
  }

  lemma TagsBelowMore(os: seq<Outbound>, m: int, n: int)
    requires TagsBelow(os, m) && m <= n
    ensures TagsBelow(os, n)
  {}

  lemma {:induction false} XrayTagsDistinct(cs: seq<Chain>, egress: Egress)
    requires Layout(cs) && NoClash(cs, egress)
    ensures TagsBelow(Sum(cs, egress).xrayOutbounds, XrayReach(cs, egress))
  {
    hide ChainPieces, WellFormed, Overflows, NoClash, XrayReach;
    if cs != [] {
      hide TagsBelow;
      var n := |cs| - 1;
      LayoutPrefix(cs, n);
      NoClashPrefix(cs, egress);
      XrayTagsDistinct(cs[..n], egress);
      if n == 0 {
        FirstXrayTags(cs, egress);
      } else {
        MoreXrayTags(cs, egress, Sum(cs[..n], egress).xrayOutbounds);
      }
    }
  }

  lemma FirstXrayTags(cs: seq<Chain>, egress: Egress)
    requires Layout(cs) && |cs| == 1
    ensures TagsBelow(Sum(cs, egress).xrayOutbounds, XrayReach(cs, egress))
  {
    hide ChainPieces, WellFormed;
    XrayTags(cs[0], egress);
    assert cs[..0] == [] && Sum(cs, egress).xrayOutbounds == ChainPieces(cs[0], egress).xrayOutbounds;
  }

  lemma NotEmpty(c: Chain)
    requires WellFormed(c)
    ensures |c.ents| >= 1
  {}

  lemma NoXrayOutbounds(c: Chain, egress: Egress)
    requires XrayEnts(c.ents) == []
    ensures ChainPieces(c, egress).xrayOutbounds == []
  {}

  /** Every outbound of a chain is in the sum. */
  lemma {:induction false} InSum(cs: seq<Chain>, egress: Egress, k: nat)
    requires k < |cs|
    ensures forall o :: o in ChainPieces(cs[k], egress).outbounds ==> o in Sum(cs, egress).outbounds
    ensures forall o :: o in ChainPieces(cs[k], egress).xrayOutbounds ==> o in Sum(cs, egress).xrayOutbounds
    decreases |cs|
  {
    hide ChainPieces;
    if k < |cs| - 1 {
      InSum(cs[..|cs| - 1], egress, k);
    }
  }

  /** Behind a group that overflows, a group with Xray hops starts with a tag that is already taken. */
  lemma ClashRepeats(cs: seq<Chain>, egress: Egress, k: nat)
    requires Layout(cs) && 0 < k < |cs| - 1 && Overflows(cs[k], egress) && XrayEnts(cs[k + 1].ents) != []
    ensures !Distinct(Sum(cs, egress).xrayOutbounds)
  {
    hide ChainPieces, Sum, XrayEnts, Overflows, WellFormed;
    var c, d := cs[k], cs[k + 1];
    assert cs[..k + 1][..k] == cs[..k] && d.start == c.start + |c.ents|;
    OverflowTag(c, egress);
    FirstXrayTag(d, egress);
    RepeatedTag(cs, egress, k, k + 1, |c.ents|, 0);
  }

  lemma FirstXrayTag(c: Chain, egress: Egress)
    requires XrayEnts(c.ents) != []
    ensures ChainPieces(c, egress).xrayOutbounds != [] && ChainPieces(c, egress).xrayOutbounds[0].tag == FirstTag(c)
  {
    hide InitialEnts, TailingEnts, InitialServers;
  }

  lemma OverflowTag(c: Chain, egress: Egress)
    requires WellFormed(c) && Overflows(c, egress)
    ensures |ChainPieces(c, egress).xrayOutbounds| == |c.ents| + 1
    ensures ChainPieces(c, egress).xrayOutbounds[|c.ents|].tag == Numbered(c.prefix, c.start + |c.ents|)
  {
    hide InitialEnts, CoreTransitions;
    ServersCount(c);
  }

  /** The same tag in two chains is the same tag at two places of the sum. */
  lemma {:induction false} RepeatedTag(cs: seq<Chain>, egress: Egress, k: nat, m: nat, i: nat, j: nat)
    requires k < m < |cs| && i < |ChainPieces(cs[k], egress).xrayOutbounds| && j < |ChainPieces(cs[m], egress).xrayOutbounds|
    requires ChainPieces(cs[k], egress).xrayOutbounds[i].tag == ChainPieces(cs[m], egress).xrayOutbounds[j].tag
    ensures !Distinct(Sum(cs, egress).xrayOutbounds)
    decreases |cs|
  {
    hide ChainPieces;
    var n := |cs| - 1;
    var before, last := Sum(cs[..n], egress).xrayOutbounds, ChainPieces(cs[n], egress).xrayOutbounds;
    if m < n {
      RepeatedTag(cs[..n], egress, k, m, i, j);
      var p, q :| 0 <= p < q < |before| && before[p].tag == before[q].tag;
      assert (before + last)[p] == before[p] && (before + last)[q] == before[q];
    } else {
      InSum(cs[..n], egress, k);
      var o := ChainPieces(cs[k], egress).xrayOutbounds[i];
      assert o in before;
      var p :| 0 <= p < |before| && before[p] == o;
      assert (before + last)[p].tag == (before + last)[|before| + j].tag;
    }
  }

  /** The Xray tags of a configuration are distinct exactly when no group of nothing but Xray hops,
      behind a loopback bridge, is followed by a group with Xray hops. */
  lemma XrayTagsDistinctExactly(cs: seq<Chain>, egress: Egress)
    requires Layout(cs)
    ensures Distinct(Sum(cs, egress).xrayOutbounds) <==> NoClash(cs, egress)
  {
    if NoClash(cs, egress) {
      XrayTagsDistinct(cs, egress);
    } else {
      var k :| 0 < k < |cs| - 1 && Overflows(cs[k], egress) && XrayEnts(cs[k + 1].ents) != [];
      ClashRepeats(cs, egress, k);
    }
  }

  /** A main chain of one server and two routing outbounds of one Xray server each, behind TUN. */
  const CLASHING := [Chain([Hop(1, false)], MainChain, true, true, 0, false, 0),
                     Chain([Hop(2, true)], RouteChain, false, false, 0, false, 2),
                     Chain([Hop(3, true)], RouteChain, false, false, 1, false, 4)]

  /** Their Xray tags clash: the second group's only hop has the tag of the first group's bridge. */
  lemma ClashExample()
    ensures Layout(CLASHING) && !NoClash(CLASHING, Loopback) && !Distinct(Sum(CLASHING, Loopback).xrayOutbounds)
    ensures Outbound(Numbered(RouteChain, 1), Socks(3), None) in Sum(CLASHING, Loopback).xrayOutbounds
    ensures Outbound(Numbered(RouteChain, 1), Real(Hop(3, true)), Some(Numbered(RouteChain, 2))) in Sum(CLASHING, Loopback).xrayOutbounds
  {
    ClashingLayout();
    OneXrayHop(CLASHING[1]);
    OneXrayHop(CLASHING[2]);
    OneXrayPieces(CLASHING[1]);
    OneXrayPieces(CLASHING[2]);
    hide Layout, ChainPieces, Sum, XrayEnts, Distinct;
    ClashRepeats(CLASHING, Loopback, 1);
    InSum(CLASHING, Loopback, 1);
    InSum(CLASHING, Loopback, 2);
  }

  lemma ClashingLayout()
    ensures Layout(CLASHING)
  {
    var cs := CLASHING;
    forall k | 0 <= k < 3 ensures Placed(cs[k], k, HopCount(cs[..k])) {
      OneHop(cs[k]);
      assert k == 2 ==> cs[..k][..1] == cs[..1];
      hide WellFormed;
    }
  }

  /** A group of one Xray hop behind a loopback bridge. */
  lemma OneXrayPieces(c: Chain)
    requires XrayEnts(c.ents) == c.ents && |c.ents| == 1 && TailingEnts(c.ents) == [] && !c.includeProxy
    ensures var os := ChainPieces(c, Loopback).xrayOutbounds;
      && Outbound(Numbered(c.prefix, c.start), Real(c.ents[0]), Some(Numbered(c.prefix, c.start + 1))) in os
      && Outbound(Numbered(c.prefix, c.start + 1), Socks(c.endpoint + 1), None) in os
  {
    hide XrayEnts, TailingEnts, InitialServers;
    var os := XrayChain(c.ents, c.prefix, c.includeProxy, c.link, c.start, ExitBridge(c, Loopback), "");
    assert ChainPieces(c, Loopback).xrayOutbounds == os;
    assert os[0] in os && os[1] in os;
  }

  lemma OneHop(c: Chain)
    requires |c.ents| == 1 && !c.warpWrap
    ensures WellFormed(c)
  {
    assert c.ents[1..] == [];
  }

  lemma OneXrayHop(c: Chain)
    requires |c.ents| == 1 && c.ents[0].xray
    ensures XrayEnts(c.ents) == c.ents && TailingEnts(c.ents) == []
  {
    OneHopHasNoTail(c.ents);
    assert c.ents == [c.ents[0]] && c.ents[1..] == [];
  }

  // ----- bridges

  lemma {:induction false} NormalAppend(a: seq<Bridge>, b: seq<Bridge>)
    ensures NormalCount(a + b) == NormalCount(a) + NormalCount(b)
  {
    if a == [] {
      assert a + b == b;
    } else {
      assert (a + b)[1..] == a[1..] + b;
      NormalAppend(a[1..], b);
    }
  }

  lemma OwnCounts(c: Chain, egress: Egress)
    ensures CountsMatch(ChainPieces(c, egress))
  {
    hide TailingEnts, InitialEnts, XrayEnts;
    if XrayEnts(c.ents) == [] {
      NoXrayNoTail(c.ents);
    }
    assert forall b: Bridge :: [b][1..] == [];
    var exit := ExitBridge(c, egress);
    if exit.Some? {
      OneBridge(exit.value);
    }
  }

  lemma OneBridge(b: Bridge)
    ensures NormalCount([b]) == if b.loopbackProtect then 0 else 1
  {
    assert [b][1..] == [];
  }

  /** In every configuration, the bridges match the ingress tags: the three mismatch errors cannot occur. */
  lemma {:induction false} CountsAlwaysMatch(cs: seq<Chain>, egress: Egress)
    ensures CountsMatch(Sum(cs, egress))
  {
    hide ChainPieces;
    if cs != [] {
      var n := |cs| - 1;
      CountsAlwaysMatch(cs[..n], egress);
      OwnCounts(cs[n], egress);
      NormalAppend(Sum(cs[..n], egress).xrayToSing, ChainPieces(cs[n], egress).xrayToSing);
    }
  }

  function TargetOf(i: InboundTag): Tag {
    match i
    case BridgeTo(t) => t
    case BridgeLoopback(_) => XrayDirect
    case IngressOf(t) => t
  }

  lemma {:induction false} BridgeRuleFor(b: seq<Bridge>, ingress: seq<Tag>, e: nat)
    requires NormalCount(b) == |ingress| && FindInbound(BridgeInbounds(b, ingress), e).Some?
    ensures var i := FindInbound(BridgeInbounds(b, ingress), e).value;
      FindRule(BridgeRules(b, ingress), i.tag) == Some(TargetOf(i.tag))
  {
    if b[0].endpoint != e {
      BridgeRuleFor(b[1..], if b[0].loopbackProtect then ingress else ingress[1..], e);
    }
  }

  lemma {:induction false} BridgeInboundsAppend(a: seq<Bridge>, ia: seq<Tag>, b: seq<Bridge>, ib: seq<Tag>)
    requires NormalCount(a) == |ia| && NormalCount(b) == |ib|
    ensures NormalCount(a + b) == |ia + ib|
    ensures BridgeInbounds(a + b, ia + ib) == BridgeInbounds(a, ia) + BridgeInbounds(b, ib)
  {
    NormalAppend(a, b);
    if a == [] {
      assert a + b == b && ia + ib == ib;
    } else {
      assert (a + b)[1..] == a[1..] + b;
      if a[0].loopbackProtect {
        BridgeInboundsAppend(a[1..], ia, b, ib);
      } else {
        assert (ia + ib)[1..] == ia[1..] + ib;
        BridgeInboundsAppend(a[1..], ia[1..], b, ib);
      }
    }
  }

  lemma {:induction false} FindAppend(a: seq<Inbound>, b: seq<Inbound>, e: nat)
    ensures FindInbound(a + b, e) == if FindInbound(a, e).Some? then FindInbound(a, e) else FindInbound(b, e)
  {
    if a == [] {
      assert a + b == b;
    } else {
      assert (a + b)[1..] == a[1..] + b;
      FindAppend(a[1..], b, e);
    }
  }

  lemma {:induction false} NotFound(ins: seq<Inbound>, e: nat)
    requires forall k :: 0 <= k < |ins| ==> ins[k].endpoint != e
    ensures FindInbound(ins, e) == None
  {
    if ins != [] {
      NotFound(ins[1..], e);
    }
  }

  function OwnInbounds(c: Chain, egress: Egress): seq<Inbound> {
    OwnCounts(c, egress);
    var p := ChainPieces(c, egress);
    BridgeInbounds(p.xrayToSing, p.singIngress)
  }

  function SumInbounds(cs: seq<Chain>, egress: Egress): seq<Inbound> {
    CountsAlwaysMatch(cs, egress);
    var p := Sum(cs, egress);
    BridgeInbounds(p.xrayToSing, p.singIngress)
  }

  lemma OwnInboundsAre(c: Chain, egress: Egress)
    ensures var exit := ExitBridge(c, egress);
      OwnInbounds(c, egress) == if exit.None? then []
        else [Inbound(if exit.value.loopbackProtect then BridgeLoopback(c.endpoint + 1) else BridgeTo(Numbered(c.prefix, TailStart(c))), c.endpoint + 1)]
  {
    hide TailingEnts, InitialEnts, XrayEnts;
    OwnCounts(c, egress);
    var exit, p := ExitBridge(c, egress), ChainPieces(c, egress);
    if exit.Some? {
      OneBridge(exit.value);
      assert p.xrayToSing == [exit.value] && p.xrayToSing[1..] == [];
      assert BridgeInbounds([], []) == [];
      if exit.value.loopbackProtect {
        assert p.singIngress == [];
      } else {
        assert p.singIngress == [Numbered(c.prefix, TailStart(c))] && p.singIngress[1..] == [];
      }
      assert forall i: Inbound :: [i] + [] == [i];
    }
  }

  lemma SumInboundsStep(cs: seq<Chain>, egress: Egress)
    requires cs != []
    ensures SumInbounds(cs, egress) == SumInbounds(cs[..|cs| - 1], egress) + OwnInbounds(cs[|cs| - 1], egress)
  {
    hide ChainPieces, BridgeInbounds;
    var n := |cs| - 1;
    CountsAlwaysMatch(cs[..n], egress);
    OwnCounts(cs[n], egress);
    var p, q := Sum(cs[..n], egress), ChainPieces(cs[n], egress);
    BridgeInboundsAppend(p.xrayToSing, p.singIngress, q.xrayToSing, q.singIngress);
  }

  /** In the whole configuration, the endpoint of a bridge back to sing-box leads to its own inbound. */
  lemma {:induction false} ExitFound(cs: seq<Chain>, egress: Egress, k: nat)
    requires Layout(cs) && k < |cs|
    ensures FindInbound(SumInbounds(cs, egress), 2 * k + 1) == FindInbound(OwnInbounds(cs[k], egress), 2 * k + 1)
    decreases |cs|
  {
    hide OwnInbounds, SumInbounds, WellFormed, HopCount, ExitBridge, TailStart;
    var n := |cs| - 1;
    LayoutPrefix(cs, n);
    SumInboundsStep(cs, egress);
    OwnInboundsAre(cs[n], egress);
    FindAppend(SumInbounds(cs[..n], egress), OwnInbounds(cs[n], egress), 2 * k + 1);
    if k < n {
      ExitFound(cs[..n], egress, k);
      NotFound(OwnInbounds(cs[n], egress), 2 * k + 1);
    } else {
      InboundsBelow(cs[..n], egress);
      NotFound(SumInbounds(cs[..n], egress), 2 * k + 1);
    }
  }

  lemma {:induction false} InboundsBelow(cs: seq<Chain>, egress: Egress)
    requires Layout(cs)
    ensures AllBelow(SumInbounds(cs, egress), 2 * |cs|)
  {
    if cs != [] {
      hide OwnInbounds, SumInbounds, WellFormed, HopCount, ExitBridge, TailStart;
      var n := |cs| - 1;
      LayoutPrefix(cs, n);
      SumInboundsStep(cs, egress);
      OwnInboundsAre(cs[n], egress);
      InboundsBelow(cs[..n], egress);
      BelowMore(SumInbounds(cs[..n], egress), OwnInbounds(cs[n], egress), 2 * n, 2 * n + 2);
    }
  }

  // ----- bridges into Xray

  function OwnXrayInbounds(c: Chain, egress: Egress): seq<Inbound> {
    OwnCounts(c, egress);
    XrayInbounds(ChainPieces(c, egress).singToXray, ChainPieces(c, egress).xrayIngress)
  }

  function SumXrayInbounds(cs: seq<Chain>, egress: Egress): seq<Inbound> {
    CountsAlwaysMatch(cs, egress);
    XrayInbounds(Sum(cs, egress).singToXray, Sum(cs, egress).xrayIngress)
  }

  lemma OwnXrayInboundsAre(c: Chain, egress: Egress)
    ensures OwnXrayInbounds(c, egress) == if XrayEnts(c.ents) == [] then [] else [Inbound(IngressOf(FirstTag(c)), c.endpoint)]
  {
    hide TailingEnts, InitialEnts, XrayEnts;
    OwnCounts(c, egress);
  }

  lemma SumXrayStep(cs: seq<Chain>, egress: Egress)
    requires cs != []
    ensures SumXrayInbounds(cs, egress) == SumXrayInbounds(cs[..|cs| - 1], egress) + OwnXrayInbounds(cs[|cs| - 1], egress)
  {
    hide ChainPieces;
    var n := |cs| - 1;
    CountsAlwaysMatch(cs, egress);
    CountsAlwaysMatch(cs[..n], egress);
    OwnCounts(cs[n], egress);
  }

  lemma {:induction false} EntryFound(cs: seq<Chain>, egress: Egress, k: nat)
    requires Layout(cs) && k < |cs|
    ensures FindInbound(SumXrayInbounds(cs, egress), 2 * k) == FindInbound(OwnXrayInbounds(cs[k], egress), 2 * k)
    decreases |cs|
  {
    hide OwnXrayInbounds, SumXrayInbounds, WellFormed, HopCount, XrayEnts;
    var n := |cs| - 1;
    LayoutPrefix(cs, n);
    SumXrayStep(cs, egress);
    OwnXrayInboundsAre(cs[n], egress);
    FindAppend(SumXrayInbounds(cs[..n], egress), OwnXrayInbounds(cs[n], egress), 2 * k);
    if k < n {
      EntryFound(cs[..n], egress, k);
      NotFound(OwnXrayInbounds(cs[n], egress), 2 * k);
    } else {
      XrayInboundsBelow(cs[..n], egress);
      NotFound(SumXrayInbounds(cs[..n], egress), 2 * k);
    }
  }

  lemma {:induction false} XrayInboundsBelow(cs: seq<Chain>, egress: Egress)
    requires Layout(cs)
    ensures AllBelow(SumXrayInbounds(cs, egress), 2 * |cs|)
  {
    if cs != [] {
      hide OwnXrayInbounds, SumXrayInbounds, WellFormed, HopCount, XrayEnts, FirstTag;
      var n := |cs| - 1;
      LayoutPrefix(cs, n);
      SumXrayStep(cs, egress);
      OwnXrayInboundsAre(cs[n], egress);
      XrayInboundsBelow(cs[..n], egress);
      BelowMore(SumXrayInbounds(cs[..n], egress), OwnXrayInbounds(cs[n], egress), 2 * n, 2 * n + 2);
    }
  }

  predicate AllBelow(ins: seq<Inbound>, e: int) {
    forall i :: 0 <= i < |ins| ==> ins[i].endpoint < e
  }

  lemma BelowMore(a: seq<Inbound>, b: seq<Inbound>, lo: int, hi: int)
    requires AllBelow(a, lo) && AllBelow(b, hi) && lo <= hi
    ensures AllBelow(a + b, hi)
  {}

  lemma {:induction false} IngressRule(rs: seq<Rule>, t: Tag)
    requires forall k :: 0 <= k < |rs| ==> rs[k].inbound == IngressOf(rs[k].outbound)
    requires Rule(IngressOf(t), t) in rs
    ensures FindRule(rs, IngressOf(t)) == Some(t)
  {
    if rs[0].inbound != IngressOf(t) {
      IngressRule(rs[1..], t);
    }
  }

  lemma {:induction false} FoundIn(ins: seq<Inbound>, e: nat)
    requires FindInbound(ins, e).Some?
    ensures FindInbound(ins, e).value in ins
  {
    if ins[0].endpoint != e {
      FoundIn(ins[1..], e);
    }
  }

  // ----- every chain is in the configuration

  lemma {:induction false} LoopbackInSum(cs: seq<Chain>, egress: Egress, k: nat)
    requires k < |cs| && LoopbackCount(ChainPieces(cs[k], egress).xrayToSing) > 0
    ensures LoopbackCount(Sum(cs, egress).xrayToSing) > 0
    decreases |cs|
  {
    hide ChainPieces;
    var n := |cs| - 1;
    NormalAppend(Sum(cs[..n], egress).xrayToSing, ChainPieces(cs[n], egress).xrayToSing);
    NormalAtMost(Sum(cs[..n], egress).xrayToSing);
    NormalAtMost(ChainPieces(cs[n], egress).xrayToSing);
    if k < n {
      LoopbackInSum(cs[..n], egress, k);
    }
  }

  lemma {:induction false} NormalAtMost(b: seq<Bridge>)
    ensures NormalCount(b) <= |b|
  {
    if b != [] {
      NormalAtMost(b[1..]);
    }
  }

  function Configuration(cs: seq<Chain>, egress: Egress): Config {
    CountsAlwaysMatch(cs, egress);
    Emitted(Sum(cs, egress))
  }

  /** All sing-box tags of a configuration are distinct, with those of the direct outbounds. */
  lemma AllSingTagsDistinct(cs: seq<Chain>, egress: Egress)
    requires Layout(cs)
    ensures Distinct(Configuration(cs, egress).outbounds)
  {
    hide Sum, HopCount;
    CountsAlwaysMatch(cs, egress);
    SingTagsDistinct(cs, egress);
  }

  lemma AllXrayTagsDistinct(cs: seq<Chain>, egress: Egress)
    requires Layout(cs) && NoClash(cs, egress)
    ensures Distinct(Configuration(cs, egress).xrayOutbounds)
  {
    hide Sum, XrayReach;
    CountsAlwaysMatch(cs, egress);
    XrayTagsDistinct(cs, egress);
  }

  lemma OutboundsFound(cs: seq<Chain>, egress: Egress, k: nat)
    requires Layout(cs) && NoClash(cs, egress) && k < |cs|
    ensures AllFound(Configuration(cs, egress).outbounds, ChainPieces(cs[k], egress).outbounds)
    ensures AllFound(Configuration(cs, egress).xrayOutbounds, ChainPieces(cs[k], egress).xrayOutbounds)
  {
    hide ChainPieces, Distinct, FindOutbound, Sum;
    CountsAlwaysMatch(cs, egress);
    AllSingTagsDistinct(cs, egress);
    AllXrayTagsDistinct(cs, egress);
    InSum(cs, egress, k);
    var cfg, p := Configuration(cs, egress), ChainPieces(cs[k], egress);
    forall i | 0 <= i < |p.outbounds|
      ensures FindOutbound(cfg.outbounds, p.outbounds[i].tag) == Some(p.outbounds[i])
    {
      FoundIfIn(cfg.outbounds, p.outbounds[i]);
    }
    forall i | 0 <= i < |p.xrayOutbounds|
      ensures FindOutbound(cfg.xrayOutbounds, p.xrayOutbounds[i].tag) == Some(p.xrayOutbounds[i])
    {
      FoundIfIn(cfg.xrayOutbounds, p.xrayOutbounds[i]);
    }
  }

  lemma FoundIfIn(os: seq<Outbound>, o: Outbound)
    requires Distinct(os) && o in os
    ensures FindOutbound(os, o.tag) == Some(o)
  {
    var k :| 0 <= k < |os| && os[k] == o;
    FoundWhenDistinct(os, k);
  }

  lemma EntryTarget(cs: seq<Chain>, egress: Egress, k: nat)
    requires Layout(cs) && k < |cs| && XrayEnts(cs[k].ents) != []
    ensures var cfg := Configuration(cs, egress);
      Target(cfg.xrayInbounds, cfg.xrayRules, cs[k].endpoint) == Some(FirstTag(cs[k]))
  {
    hide ChainPieces, Sum, WellFormed, HopCount, XrayEnts, FirstTag;
    CountsAlwaysMatch(cs, egress);
    EntryFound(cs, egress, k);
    OwnXrayInboundsAre(cs[k], egress);
    var cfg, t := Configuration(cs, egress), FirstTag(cs[k]);
    assert cfg.xrayInbounds == SumXrayInbounds(cs, egress);
    assert FindInbound(cfg.xrayInbounds, 2 * k) == Some(Inbound(IngressOf(t), 2 * k));
    FoundIn(cfg.xrayInbounds, 2 * k);
    var i :| 0 <= i < |cfg.xrayInbounds| && cfg.xrayInbounds[i] == Inbound(IngressOf(t), 2 * k);
    assert cfg.xrayRules[i] == Rule(IngressOf(t), t);
    IngressRule(cfg.xrayRules, t);
  }

  lemma ExitTarget(cs: seq<Chain>, egress: Egress, k: nat)
    requires Layout(cs) && k < |cs| && ExitBridge(cs[k], egress).Some?
    ensures var cfg := Configuration(cs, egress);
      Target(cfg.inbounds, cfg.rules, cs[k].endpoint + 1)
      == Some(if ExitBridge(cs[k], egress).value.loopbackProtect then XrayDirect else Numbered(cs[k].prefix, TailStart(cs[k])))
  {
    hide ChainPieces, Sum, WellFormed, HopCount, ExitBridge, BridgeInbounds, BridgeRules, TailStart;
    CountsAlwaysMatch(cs, egress);
    ExitFound(cs, egress, k);
    OwnInboundsAre(cs[k], egress);
    var p := Sum(cs, egress);
    assert Configuration(cs, egress).inbounds == SumInbounds(cs, egress);
    BridgeRuleFor(p.xrayToSing, p.singIngress, 2 * k + 1);
  }

  lemma DirectFound(cs: seq<Chain>, egress: Egress, k: nat)
    requires Layout(cs) && k < |cs| && ExitBridge(cs[k], egress).Some? && ExitBridge(cs[k], egress).value.loopbackProtect
    ensures FindOutbound(Configuration(cs, egress).outbounds, XrayDirect) == Some(Outbound(XrayDirect, Free, None))
  {
    hide Sum, Distinct, Layout, TailingEnts, InitialEnts, XrayEnts;
    CountsAlwaysMatch(cs, egress);
    AllSingTagsDistinct(cs, egress);
    OneBridge(ExitBridge(cs[k], egress).value);
    LoopbackInSum(cs, egress, k);
    FoundIfIn(Configuration(cs, egress).outbounds, Outbound(XrayDirect, Free, None));
  }

  /** Every chain of a configuration can be followed in it. */
  lemma AllHold(cs: seq<Chain>, egress: Egress, k: nat)
    requires Layout(cs) && NoClash(cs, egress) && k < |cs|
    ensures Holds(Configuration(cs, egress), cs[k], egress)
  {
    hide ChainPieces, Layout, NoClash, AllFound, Configuration, TailingEnts, InitialEnts, XrayEnts, FindOutbound, Target;
    OutboundsFound(cs, egress, k);
    if XrayEnts(cs[k].ents) != [] {
      EntryTarget(cs, egress, k);
    }
    if ExitBridge(cs[k], egress).Some? {
      ExitTarget(cs, egress, k);
      if ExitBridge(cs[k], egress).value.loopbackProtect {
        DirectFound(cs, egress, k);
      }
    }
  }

  /** The compiler preserves meaning: in the configuration of a main chain and any groups, traffic that
      enters any of them at its first outbound passes exactly the hops asked for, in build order. */
  lemma CompilerCorrect(cs: seq<Chain>, egress: Egress, k: nat, steps: nat)
    requires Layout(cs) && NoClash(cs, egress) && k < |cs| && steps >= |cs[k].ents| + 3
    ensures Walk(Configuration(cs, egress), Sing(FirstTag(cs[k])), steps) == Some(cs[k].ents)
  {
    hide NoClash, Configuration, Walk, Holds;
    AllHold(cs, egress, k);
    ChainVisitsHops(Configuration(cs, egress), cs[k], egress, steps);
  }
}
