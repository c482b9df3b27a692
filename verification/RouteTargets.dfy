/** Outbounds of the routing profile: CalculatePrerequisities numbers them before they are built, and the
    numbers turn out right. */
module RouteTargets {
  import opened Chains
  import opened ChainWalk
  import opened ChainConfig
  import opened ChainEgress
  import opened ChainBuilder

  const WARP_BYPASS_ID := -5

  datatype RouteError = MissingOutbound | ForbiddenOutbound | EmptyChain | MissingHop | ForbiddenHop

  function Reversed(ids: seq<int>): (r: seq<int>)
    ensures |r| == |ids| && forall k :: 0 <= k < |r| ==> r[k] == ids[|ids| - 1 - k]
  {
    seq(|ids|, k requires 0 <= k < |ids| => ids[|ids| - 1 - k])
  }

  /** The hops to build for an outbound of the routing profile: a chain's list from the far end. */
  function HopIds(chainLists: map<int, seq<int>>, item: int): seq<int> {
    if item in chainLists then Reversed(chainLists[item]) else [item]
  }

  function Before(groups: seq<seq<int>>, k: nat): nat
    requires k <= |groups|
  {
    if k == 0 then 0 else Before(groups, k - 1) + |groups[k - 1]|
  }

  /** The item's tag is the first number of a group that holds its hops. */
  ghost predicate Mapped(chainLists: map<int, seq<int>>, groups: seq<seq<int>>, tags: map<int, Tag>, item: int) {
    item in tags && exists k :: 0 <= k < |groups| && Names(chainLists, groups, tags[item], item, k)
  }

  ghost predicate Names(chainLists: map<int, seq<int>>, groups: seq<seq<int>>, t: Tag, item: int, k: nat)
    requires k < |groups|
  {
    groups[k] == HopIds(chainLists, item) && t == Numbered(RouteChain, Before(groups, k))
  }

  lemma {:induction false} BeforeSame(groups: seq<seq<int>>, more: seq<seq<int>>, k: nat)
    requires k <= |groups| && groups <= more
    ensures Before(more, k) == Before(groups, k)
  {
    if k > 0 {
      BeforeSame(groups, more, k - 1);
    }
  }

  /** One more group: what was mapped stays mapped, and so is the new item, which may be an old one. */
  lemma MapMore(chainLists: map<int, seq<int>>, groups: seq<seq<int>>, tags: map<int, Tag>, item: int)
    ensures var groups', tags' := groups + [HopIds(chainLists, item)], tags[item := Numbered(RouteChain, Before(groups, |groups|))];
      && Mapped(chainLists, groups', tags', item)
      && (forall i :: Mapped(chainLists, groups, tags, i) ==> Mapped(chainLists, groups', tags', i))
      && Before(groups', |groups'|) == Before(groups, |groups|) + |HopIds(chainLists, item)|
  {
    var groups', tags' := groups + [HopIds(chainLists, item)], tags[item := Numbered(RouteChain, Before(groups, |groups|))];
    BeforeSame(groups, groups', |groups|);
    assert Names(chainLists, groups', tags'[item], item, |groups|);
    forall i | Mapped(chainLists, groups, tags, i) && i != item
      ensures Mapped(chainLists, groups', tags', i)
    {
      var k :| 0 <= k < |groups| && Names(chainLists, groups, tags[i], i, k);
      BeforeSame(groups, groups', k);
      assert Names(chainLists, groups', tags'[i], i, k);
    }
  }

  /** The routing part of CalculatePrerequisities. The same outbound may be asked for more than once. */
  method CollectGroups(profiles: map<int, Profile>, chainLists: map<int, seq<int>>, items: seq<int>, warp: bool)
    returns (groups: seq<seq<int>>, outboundMap: map<int, Tag>, error: Option<RouteError>)
    requires forall id :: id in chainLists <==> id in profiles && profiles[id].chain
    ensures error == None ==> forall k :: 0 <= k < |groups| ==> groups[k] != []
    ensures error == None ==> forall k :: 0 <= k < |items| && items[k] >= 0 ==> Mapped(chainLists, groups, outboundMap, items[k])
    ensures error == None <==> forall k :: 0 <= k < |items| && items[k] >= 0 ==> Routable(profiles, chainLists, items[k])
    ensures FixedTargets(outboundMap, warp)
  {
    hide Mapped, Routable;
    groups, error := [], None;
    outboundMap := map[-1 := Proxy, -2 := Direct, WARP_BYPASS_ID := if warp then WarpBypass else Proxy];
    var suffix := 0;
    for i := 0 to |items|
      invariant error == None && suffix == Before(groups, |groups|) && FixedTargets(outboundMap, warp)
      invariant forall k :: 0 <= k < |groups| ==> groups[k] != []
      invariant forall k :: 0 <= k < i && items[k] >= 0 ==> Mapped(chainLists, groups, outboundMap, items[k])
      invariant forall k :: 0 <= k < i && items[k] >= 0 ==> Routable(profiles, chainLists, items[k])
    {
      var item := items[i];
      if item < 0 {
        continue;
      }
      error := CheckOutbound(profiles, chainLists, item);
      if error != None {
        return;
      }
      MapMore(chainLists, groups, outboundMap, item);
      RoutableHops(profiles, chainLists, item);
      outboundMap := outboundMap[item := Numbered(RouteChain, suffix)];
      var hops := HopIds(chainLists, item);
      groups := groups + [hops];
      suffix := suffix + |hops|;
    }
  }

  /** "proxy", "direct" and "warp-bypass" as targets of route rules. */
  predicate FixedTargets(outboundMap: map<int, Tag>, warp: bool) {
    && -1 in outboundMap && outboundMap[-1] == Proxy
    && -2 in outboundMap && outboundMap[-2] == Direct
    && WARP_BYPASS_ID in outboundMap && outboundMap[WARP_BYPASS_ID] == (if warp then WarpBypass else Proxy)
  }

  predicate Plain(profiles: map<int, Profile>, id: int) {
    id in profiles && !profiles[id].extraCore && !profiles[id].customFullConfig && !profiles[id].xrayFullConfig
  }

  predicate AllPlain(profiles: map<int, Profile>, ids: seq<int>) {
    forall k :: 0 <= k < |ids| ==> Plain(profiles, ids[k]) && !profiles[ids[k]].chain
  }

  /** What an outbound of the routing profile must be like. */
  predicate Routable(profiles: map<int, Profile>, chainLists: map<int, seq<int>>, item: int) {
    && Plain(profiles, item)
    && (item in chainLists ==> chainLists[item] != [] && AllPlain(profiles, chainLists[item]))
  }

  lemma RoutableHops(profiles: map<int, Profile>, chainLists: map<int, seq<int>>, item: int)
    requires Routable(profiles, chainLists, item)
    ensures HopIds(chainLists, item) != []
  {}

  /** The checks of one outbound. */
  method CheckOutbound(profiles: map<int, Profile>, chainLists: map<int, seq<int>>, item: int) returns (error: Option<RouteError>)
    requires forall id :: id in chainLists <==> id in profiles && profiles[id].chain
    ensures error == None <==> Routable(profiles, chainLists, item)
  {
    if item !in profiles {
      return Some(MissingOutbound);
    }
    var neededEnt := profiles[item];
    if neededEnt.extraCore || neededEnt.customFullConfig || neededEnt.xrayFullConfig {
      return Some(ForbiddenOutbound);
    }
    if neededEnt.chain {
      var list := chainLists[item];
      if list == [] {
        return Some(EmptyChain);
      }
      for j := 0 to |list|
        invariant forall k :: 0 <= k < j ==> Plain(profiles, list[k]) && !profiles[list[k]].chain
      {
        if list[j] !in profiles {
          return Some(MissingHop);
        }
        var hopEnt := profiles[list[j]];
        if hopEnt.extraCore || hopEnt.customFullConfig || hopEnt.xrayFullConfig || hopEnt.chain {
          return Some(ForbiddenHop);
        }
      }
    }
    return None;
  }

  /** The numbers given out beforehand are those of the groups when they are built. */
  lemma {:induction false} StartIs(profiles: map<int, Profile>, groups: seq<seq<int>>, cs: seq<Chain>, k: nat)
    requires Layout(cs) && |cs| == |groups| + 1 && k < |cs|
    requires forall j :: 0 <= j < |groups| ==> Asked(profiles, groups[j], cs[j + 1])
    ensures HopCount(cs[..k + 1]) == Before(groups, k)
  {
    hide Layout;
    if k > 0 {
      StartIs(profiles, groups, cs, k - 1);
      assert cs[..k + 1][..k] == cs[..k];
      assert Asked(profiles, groups[k - 1], cs[k - 1 + 1]);
      AskedCount(profiles, groups[k - 1], cs[k]);
    }
  }

  lemma AskedCount(profiles: map<int, Profile>, ids: seq<int>, c: Chain)
    requires Asked(profiles, ids, c)
    ensures |c.ents| == |ids|
  {}

  /** The tag that a route rule gets for an outbound is the first outbound of the outbound's own group. */
  lemma TagNamesGroup(profiles: map<int, Profile>, chainLists: map<int, seq<int>>, groups: seq<seq<int>>,
                      tags: map<int, Tag>, item: int, cs: seq<Chain>) returns (k: nat)
    requires Mapped(chainLists, groups, tags, item) && Layout(cs) && |cs| == |groups| + 1
    requires forall j :: 0 <= j < |groups| ==> Asked(profiles, groups[j], cs[j + 1])
    ensures k + 1 < |cs| && FirstTag(cs[k + 1]) == tags[item] && Asked(profiles, HopIds(chainLists, item), cs[k + 1])
  {
    hide Asked, HopCount, Before, WellFormed;
    k :| 0 <= k < |groups| && Names(chainLists, groups, tags[item], item, k);
    StartIs(profiles, groups, cs, k);
    assert Placed(cs[k + 1], k + 1, HopCount(cs[..k + 1]));
    assert Asked(profiles, groups[k], cs[k + 1]);
  }

  /** The whole compiler: collect the routing outbounds, build every chain, emit both configurations. What
      a rule sends to an outbound of the routing profile passes exactly that outbound's hops; "proxy" passes
      the hops of the main chain, "warp-bypass" the same without WARP, "direct" none, unless Xray tags
      clash. Every tag that traffic is counted on is an outbound. */
  method Compile(ctx: BuildContext, profiles: map<int, Profile>, chainLists: map<int, seq<int>>, mainIds: seq<int>, items: seq<int>, warp: bool)
    returns (cfg: Config, outboundMap: map<int, Tag>, routeError: Option<RouteError>, ghost cs: seq<Chain>)
    requires ctx.error == None && ctx.Lists() == NOTHING && ctx.nextEndpoint == 0 && ctx.chainGroups == []
    requires forall id :: id in chainLists <==> id in profiles && profiles[id].chain
    modifies ctx
    ensures ctx.error != Some(BridgeMismatch)
    ensures routeError == None && ctx.error == None && mainIds != [] ==>
      forall g: ChainGroup :: g in ctx.chainGroups ==> FindOutbound(cfg.outbounds, g.watchTag).Some?
    ensures routeError == None && ctx.error == None && mainIds != [] && NoClash(cs, ctx.HowOut()) ==>
      && FixedTargets(outboundMap, warp)
      && Followed(profiles, cfg, outboundMap[-1], if warp then [WARP_PROFILE_ID] + mainIds else mainIds)
      && Followed(profiles, cfg, outboundMap[WARP_BYPASS_ID], mainIds)
      && Walk(cfg, Sing(outboundMap[-2]), 1) == Some([])
      && forall j :: 0 <= j < |items| && items[j] >= 0 ==>
        items[j] in outboundMap && Followed(profiles, cfg, outboundMap[items[j]], HopIds(chainLists, items[j]))
    ensures routeError == None && ctx.error == None && mainIds != [] && NoClash(cs, ctx.HowOut()) ==>
      && (forall k :: 0 <= k < |cs| ==> cs[k].ents != [] && LeavesThrough(cfg, cs[k], ctx.tunEnabled, ctx.defaultInterface))
      && (forall g: ChainGroup :: g in ctx.chainGroups ==> WatchedHere(cfg, g))
    ensures routeError == None && ctx.error == None && mainIds != [] ==>
      && BoundOnly(cfg, cs, ctx.defaultInterface)
      && (ctx.defaultInterface != "" || !ctx.tunEnabled ==> NoLoopbacks(cfg))
  {
    hide LeavesThrough, WatchedHere, BoundOnly, NoLoopbacks;
    hide Mapped, Asked, Layout, NoClash, Walk, Configuration, Followed, Counted;
    cfg, cs := Config([], [], [], [], [], []), [];
    var groups;
    groups, outboundMap, routeError := CollectGroups(profiles, chainLists, items, warp);
    if routeError != None {
      return;
    }
    cfg, cs := ctx.BuildConfig(profiles, mainIds, warp, groups);
    if ctx.error == None && mainIds != [] {
      AllWatchTagsEmitted(ctx.chainGroups, cs, ctx.HowOut());
    }
    if ctx.error == None && mainIds != [] && NoClash(cs, ctx.HowOut()) {
      FixedFollowed(profiles, mainIds, warp, cs, ctx.HowOut());
      AllWatchedHere(ctx.chainGroups, cs, ctx.HowOut());
      forall j | 0 <= j < |items| && items[j] >= 0
        ensures items[j] in outboundMap && Followed(profiles, cfg, outboundMap[items[j]], HopIds(chainLists, items[j]))
      {
        MappedKey(chainLists, groups, outboundMap, items[j]);
        var k := TagNamesGroup(profiles, chainLists, groups, outboundMap, items[j], cs);
        FollowedBy(profiles, cfg, outboundMap[items[j]], HopIds(chainLists, items[j]), cs[k + 1]);
      }
    }
  }

  /** The targets that no group is built for. */
  lemma FixedFollowed(profiles: map<int, Profile>, mainIds: seq<int>, warp: bool, cs: seq<Chain>, egress: Egress)
    requires Layout(cs) && cs != [] && NoClash(cs, egress) && mainIds != []
    requires Asked(profiles, if warp then [WARP_PROFILE_ID] + mainIds else mainIds, cs[0]) && cs[0].warpWrap == warp
    ensures var cfg := Configuration(cs, egress);
      && Followed(profiles, cfg, Proxy, if warp then [WARP_PROFILE_ID] + mainIds else mainIds)
      && Followed(profiles, cfg, if warp then WarpBypass else Proxy, mainIds)
      && Walk(cfg, Sing(Direct), 1) == Some([])
  {
    hide Asked, Layout, NoClash, Walk, Configuration, Followed, Holds, WellFormed;
    var cfg, c := Configuration(cs, egress), cs[0];
    MainTagIs(cs);
    CompilerCorrect(cs, egress, 0, |c.ents| + 3);
    FollowedBy(profiles, cfg, Proxy, if warp then [WARP_PROFILE_ID] + mainIds else mainIds, c);
    if warp {
      AllHold(cs, egress, 0);
      AskedCount(profiles, [WARP_PROFILE_ID] + mainIds, c);
      BehindWarp(cfg, c, egress, |mainIds| + 3);
      BypassFollowed(profiles, cfg, mainIds, c);
    }
    DirectEnds(cs, egress);
  }

  lemma BypassFollowed(profiles: map<int, Profile>, cfg: Config, mainIds: seq<int>, c: Chain)
    requires Asked(profiles, [WARP_PROFILE_ID] + mainIds, c)
    requires c.ents != [] && Walk(cfg, Sing(WarpBypass), |mainIds| + 3) == Some(c.ents[1..])
    ensures Followed(profiles, cfg, WarpBypass, mainIds)
  {
    hide Walk;
    var ids := [WARP_PROFILE_ID] + mainIds;
    var ps: seq<Profile> :| Resolves(profiles, ids, ps) && c.ents == Hops(ps);
    var rest: seq<Profile> := ps[1..];
    assert Hops(ps)[1..] == Hops(rest);
    forall k | 0 <= k < |mainIds| ensures Find(profiles, mainIds[k]) == Some(rest[k]) && !rest[k].chain {
      assert ids[k + 1] == mainIds[k];
    }
    assert Resolves(profiles, mainIds, rest);
  }

  lemma DirectEnds(cs: seq<Chain>, egress: Egress)
    requires Layout(cs)
    ensures Walk(Configuration(cs, egress), Sing(Direct), 1) == Some([])
  {
    hide Sum, Distinct;
    ConfigurationIs(cs, egress);
    AllSingTagsDistinct(cs, egress);
    FoundIfIn(Configuration(cs, egress).outbounds, Outbound(Direct, Free, None));
  }

  /** Traffic that enters at the tag passes the profiles that the ids name, in that order. */
  ghost predicate Followed(profiles: map<int, Profile>, cfg: Config, t: Tag, ids: seq<int>) {
    exists ps :: Resolves(profiles, ids, ps) && Walk(cfg, Sing(t), |ids| + 3) == Some(Hops(ps))
  }

  lemma FollowedBy(profiles: map<int, Profile>, cfg: Config, t: Tag, ids: seq<int>, c: Chain)
    requires Asked(profiles, ids, c) && Walk(cfg, Sing(t), |c.ents| + 3) == Some(c.ents)
    ensures Followed(profiles, cfg, t, ids)
  {
    hide Walk;
    AskedCount(profiles, ids, c);
  }

  lemma MappedKey(chainLists: map<int, seq<int>>, groups: seq<seq<int>>, tags: map<int, Tag>, item: int)
    requires Mapped(chainLists, groups, tags, item)
    ensures item in tags
  {}

  lemma MainTagIs(cs: seq<Chain>)
    requires Layout(cs) && cs != []
    ensures FirstTag(cs[0]) == Proxy && WellFormed(cs[0])
  {
    hide WellFormed;
    assert Placed(cs[0], 0, HopCount(cs[..0]));
  }

  lemma AllWatchTagsEmitted(gs: seq<ChainGroup>, cs: seq<Chain>, egress: Egress)
    requires Layout(cs) && Counted(gs, cs)
    ensures forall g: ChainGroup :: g in gs ==> FindOutbound(Configuration(cs, egress).outbounds, g.watchTag).Some?
  {
    hide Layout, Configuration, FindOutbound, WatchTag;
    forall g: ChainGroup | g in gs ensures FindOutbound(Configuration(cs, egress).outbounds, g.watchTag).Some? {
      var k :| 0 <= k < |gs| && gs[k] == g;
      WatchTagEmitted(cs, egress, k);
    }
  }

  /** Every tag that traffic is counted on names a sing-box outbound of the configuration. */
  lemma WatchTagEmitted(cs: seq<Chain>, egress: Egress, k: nat)
    requires Layout(cs) && k < |cs|
    ensures FindOutbound(Configuration(cs, egress).outbounds, WatchTag(cs[k])).Some?
  {
    hide ChainPieces, Distinct, FindOutbound, Sum, WatchTag, HopCount, WellFormed;
    assert Placed(cs[k], k, HopCount(cs[..k]));
    InSum(cs, egress, k);
    ConfigurationIs(cs, egress);
    AllSingTagsDistinct(cs, egress);
    var o := WatchedOutbound(cs[k], egress);
    FoundIfIn(Configuration(cs, egress).outbounds, o);
  }

  lemma WatchedOutbound(c: Chain, egress: Egress) returns (o: Outbound)
    requires WellFormed(c)
    ensures o in ChainPieces(c, egress).outbounds && o.tag == WatchTag(c)
  {
    hide TailingEnts, InitialEnts, XrayEnts, CoreTransitions;
    var a := SingChain(InitialServers(c), c.prefix, c.includeProxy, c.link, c.start, c.warpWrap);
    var b := SingChain(Servers(TailingEnts(c.ents)), c.prefix, false, c.link, TailStart(c), false);
    assert ChainPieces(c, egress).outbounds == a + b;
    if TailingEnts(c.ents) != [] {
      o := (a + b)[|a|];
      assert o == b[0];
    } else {
      if XrayEnts(c.ents) == [] {
        NoXrayNoTail(c.ents);
      }
      o := (a + b)[0];
      assert o == a[0];
    }
  }

  /** The part of a chain whose traffic is counted: the hops behind the last Xray hop if the chain comes back
      to sing-box, and the whole chain if not. */
  ghost predicate CountedHops(ents: seq<Hop>, s: seq<Hop>) {
    if s == ents then ents == [] || ents[|ents| - 1].xray || forall h :: h in ents ==> !h.xray
    else
      && 0 < |s| < |ents| && ents[|ents| - |s|..] == s
      && (forall h :: h in s ==> !h.xray) && ents[|ents| - |s| - 1].xray
  }

  /** What is counted on the group's tag is the traffic of that part of its chain. */
  ghost predicate WatchedHere(cfg: Config, g: ChainGroup) {
    var n := |g.profiles| + 3;
    exists s :: Walk(cfg, Sing(g.watchTag), n) == Some(s) && CountedHops(Hops(g.profiles), s)
  }

  lemma WatchedWalk(cs: seq<Chain>, egress: Egress, k: nat) returns (s: seq<Hop>)
    requires Layout(cs) && NoClash(cs, egress) && k < |cs|
    ensures Walk(Configuration(cs, egress), Sing(WatchTag(cs[k])), |cs[k].ents| + 3) == Some(s)
    ensures CountedHops(cs[k].ents, s)
  {
    hide NoClash, Configuration, Walk, Leaves, Holds, LastNode, CoreTransitions, TailingEnts, CountedHops, HopCount;
    var cfg, c := Configuration(cs, egress), cs[k];
    assert WellFormed(c) by { assert Placed(c, k, HopCount(cs[..k])); }
    AllHold(cs, egress, k);
    PartsCounted(c);
    if TailingEnts(c.ents) != [] {
      s := TailingEnts(c.ents);
      TailNeedsLink(c);
      TailLength(c);
      TailWalk(cfg, c, egress, 0, |c.ents| + 3);
      assert s[0..] == s && TailStart(c) + 0 == TailStart(c);
    } else {
      s := c.ents;
      CompilerCorrect(cs, egress, k, |c.ents| + 3);
    }
  }

  lemma TailLength(c: Chain)
    requires WellFormed(c)
    ensures |TailingEnts(c.ents)| <= |c.ents|
  {
    PartsInOrder(c.ents);
    hide TailingEnts, InitialEnts, XrayEnts;
  }

  lemma CountedSuffix(front: seq<Hop>, tail: seq<Hop>)
    requires front != [] && tail != [] && front[|front| - 1].xray && forall h :: h in tail ==> !h.xray
    ensures CountedHops(front + tail, tail)
  {
    assert tail != front + tail by { assert |tail| < |front + tail|; }
    assert (front + tail)[|front|..] == tail;
  }

  lemma CountedWhole(ents: seq<Hop>)
    requires ents == [] || ents[|ents| - 1].xray || forall h :: h in ents ==> !h.xray
    ensures CountedHops(ents, ents)
  {}

  lemma NonEmpty(c: Chain)
    requires WellFormed(c)
    ensures c.ents != [] && CoreTransitions(c.ents, false) <= 2
  {}

  lemma LastOfConcat(a: seq<Hop>, b: seq<Hop>)
    requires b != []
    ensures (a + b)[|a + b| - 1] == b[|b| - 1] && b[|b| - 1] in b
  {}

  lemma PartsCounted(c: Chain)
    requires WellFormed(c)
    ensures CountedHops(c.ents, if TailingEnts(c.ents) != [] then TailingEnts(c.ents) else c.ents)
  {
    hide TailingEnts, InitialEnts, XrayEnts, CoreTransitions, CountedHops;
    NonEmpty(c);
    PartsInOrder(c.ents);
    LastPart(c.ents);
    TailNeedsXray(c.ents);
    var initial, xrays, tail := InitialEnts(c.ents), XrayEnts(c.ents), TailingEnts(c.ents);
    if tail != [] {
      LastOfConcat(initial, xrays);
      CountedSuffix(initial + xrays, tail);
    } else {
      if xrays == [] { NoXrayNoTail(c.ents); }
      CountedWhole(c.ents);
    }
  }

  lemma AllWatchedHere(gs: seq<ChainGroup>, cs: seq<Chain>, egress: Egress)
    requires Layout(cs) && NoClash(cs, egress) && Counted(gs, cs)
    ensures forall g: ChainGroup :: g in gs ==> WatchedHere(Configuration(cs, egress), g)
  {
    hide Layout, NoClash, Configuration, Walk, WatchTag, CountedHops, Hops;
    forall g: ChainGroup | g in gs ensures WatchedHere(Configuration(cs, egress), g) {
      var k :| 0 <= k < |gs| && gs[k] == g;
      var s := WatchedWalk(cs, egress, k);
      HopsLength(g.profiles);
    }
  }

  lemma HopsLength(ps: seq<Profile>)
    ensures |Hops(ps)| == |ps|
  {}
}
