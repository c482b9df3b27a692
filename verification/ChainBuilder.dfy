/** The build context of src/configs/generate.cpp: the lists that buildOutboundChain fills chain by
    chain, and the sections that read them. */
module ChainBuilder {
  import opened Chains
  import opened ChainWalk
  import opened ChainConfig
  import opened ChainEgress

  const WARP_PROFILE_ID := -2408

  /** What the compiler asks of a stored profile. */
  datatype Profile = Profile(id: int, xray: bool, chain: bool, extraCore: bool, xrayFullConfig: bool, customFullConfig: bool)

  datatype BuildError = NullProxy | ChainInChain | FullConfigInChain | TooManyExtraCores | TooManyXrayConfigs
                      | ExtraCoreWithXrayConfig | XrayConfigWithXrayHops | ExtraCoreNotLast | XrayConfigNotLast
                      | TooManyTransitions | BridgeMismatch

  function HopOf(p: Profile): Hop {
    Hop(p.id, p.xray)
  }

  function Hops(ps: seq<Profile>): (hops: seq<Hop>)
    ensures |hops| == |ps| && forall k :: 0 <= k < |ps| ==> hops[k] == HopOf(ps[k])
  {
    seq(|ps|, k requires 0 <= k < |ps| => HopOf(ps[k]))
  }

  // ----- which lists are accepted

  /** The WARP profile is not stored; it is a sing-box hop. */
  function Find(profiles: map<int, Profile>, id: int): Option<Profile> {
    if id == WARP_PROFILE_ID then Some(Profile(id, false, false, false, false, false))
    else if id in profiles then Some(profiles[id]) else None
  }

  predicate Resolves(profiles: map<int, Profile>, ids: seq<int>, ps: seq<Profile>) {
    |ps| == |ids| && forall k :: 0 <= k < |ids| ==> Find(profiles, ids[k]) == Some(ps[k]) && !ps[k].chain
  }

  function ExtraCores(ps: seq<Profile>): (f: seq<bool>)
    ensures |f| == |ps| && forall k :: 0 <= k < |ps| ==> f[k] == ps[k].extraCore
  {
    seq(|ps|, k requires 0 <= k < |ps| => ps[k].extraCore)
  }

  function XrayConfigs(ps: seq<Profile>): (f: seq<bool>)
    ensures |f| == |ps| && forall k :: 0 <= k < |ps| ==> f[k] == ps[k].xrayFullConfig
  {
    seq(|ps|, k requires 0 <= k < |ps| => ps[k].xrayFullConfig)
  }

  predicate OnlyLast(flags: seq<bool>) {
    forall k :: 0 <= k < |flags| - 1 ==> !flags[k]
  }

  predicate Any(flags: seq<bool>) {
    exists k :: 0 <= k < |flags| && flags[k]
  }

  predicate AnyXray(ps: seq<Profile>) {
    exists k :: 0 <= k < |ps| && ps[k].xray
  }

  predicate AnyFullConfig(ps: seq<Profile>) {
    exists k :: 0 <= k < |ps| && ps[k].customFullConfig
  }

  lemma AnyStep(ps: seq<Profile>, p: Profile)
    ensures AnyXray(ps + [p]) <==> AnyXray(ps) || p.xray
    ensures AnyFullConfig(ps + [p]) <==> AnyFullConfig(ps) || p.customFullConfig
  {
    var more := ps + [p];
    assert more[|ps|] == p;
    if AnyXray(ps) {
      var k :| 0 <= k < |ps| && ps[k].xray;
      assert more[k].xray;
    }
    if AnyFullConfig(ps) {
      var k :| 0 <= k < |ps| && ps[k].customFullConfig;
      assert more[k].customFullConfig;
    }
  }

  /** The lists that entIDListtoEntList accepts: no full configs; at most one extra core or custom Xray
      config, at the end; no Xray hops beside a custom Xray config; at most two core transitions. */
  predicate Acceptable(ps: seq<Profile>) {
    && !AnyFullConfig(ps)
    && OnlyLast(ExtraCores(ps)) && OnlyLast(XrayConfigs(ps))
    && !(Any(ExtraCores(ps)) && Any(XrayConfigs(ps)))
    && !(Any(XrayConfigs(ps)) && AnyXray(ps))
    && CoreTransitions(Hops(ps), false) <= 2
  }

  /** count flags are set, and idx is the last of them. */
  ghost predicate Tally(flags: seq<bool>, count: nat, idx: int) {
    && (count == 0 <==> !Any(flags))
    && (count > 0 ==> 0 <= idx < |flags| && flags[idx])
    && (count == 1 ==> forall k :: 0 <= k < |flags| && flags[k] ==> k == idx)
    && (count > 1 ==> !OnlyLast(flags))
  }

  lemma TallyStep(flags: seq<bool>, count: nat, idx: int, f: bool)
    requires Tally(flags, count, idx)
    ensures Tally(flags + [f], if f then count + 1 else count, if f then |flags| else idx)
  {
    var more := flags + [f];
    assert more[|flags|] == f;
    if Any(flags) {
      var k :| 0 <= k < |flags| && flags[k];
      assert more[k];
      assert Any(more);
    }
    if f {
      assert Any(more);
    }
    if count > 1 {
      var k :| 0 <= k < |flags| - 1 && flags[k];
      assert more[k];
    }
    if count == 1 && f {
      assert more[idx];
    }
  }

  /** A tally of at most one, at the end, means that only the last flag is set. */
  lemma TallyLast(flags: seq<bool>, count: nat, idx: int)
    requires Tally(flags, count, idx)
    ensures OnlyLast(flags) <==> count <= 1 && !(count == 1 && |flags| > 1 && idx != |flags| - 1)
    ensures Any(flags) <==> count > 0
  {}

  /** Some hop enters Xray; some hop comes back from it. */
  function EntersXray(ents: seq<Hop>, inXray: bool): bool {
    ents != [] && ((!inXray && ents[0].xray) || EntersXray(ents[1..], ents[0].xray))
  }

  function LeavesXray(ents: seq<Hop>, inXray: bool): bool {
    ents != [] && ((inXray && !ents[0].xray) || LeavesXray(ents[1..], ents[0].xray))
  }

  lemma {:induction false} EntersMeans(ents: seq<Hop>)
    ensures EntersXray(ents, false) <==> XrayEnts(ents) != []
  {
    if ents != [] {
      EntersMeans(ents[1..]);
    }
  }

  lemma {:induction false} LeavesMeansSing(ents: seq<Hop>)
    ensures LeavesXray(ents, true) <==> SingEnts(ents) != []
  {
    if ents != [] {
      LeavesMeansSing(ents[1..]);
    }
  }

  lemma {:induction false} LeavesMeans(ents: seq<Hop>)
    ensures LeavesXray(ents, false) <==> TailingEnts(ents) != []
  {
    if ents != [] {
      if ents[0].xray {
        LeavesMeansSing(ents[1..]);
        assert ents[0..] == ents;
      } else {
        LeavesMeans(ents[1..]);
        assert ents[|InitialEnts(ents)|..] == ents[1..][|InitialEnts(ents[1..])|..];
      }
    }
  }

  // ----- the scan of entIDListtoEntList, one hop further

  lemma {:induction false} TransitionsStep(ents: seq<Hop>, h: Hop, inXray: bool)
    ensures var last := if ents == [] then inXray else ents[|ents| - 1].xray;
      && CoreTransitions(ents + [h], inXray) == CoreTransitions(ents, inXray) + (if h.xray != last then 1 else 0)
      && EntersXray(ents + [h], inXray) == (EntersXray(ents, inXray) || (!last && h.xray))
      && LeavesXray(ents + [h], inXray) == (LeavesXray(ents, inXray) || (last && !h.xray))
  {
    if ents == [] {
      assert [] + [h] == [h] && [h][1..] == [];
    } else {
      assert (ents + [h])[1..] == ents[1..] + [h];
      TransitionsStep(ents[1..], h, ents[0].xray);
    }
  }

  // ----- the context

  datatype ChainGroup = ChainGroup(profiles: seq<Profile>, watchTag: Tag)

  class BuildContext {
    const tunEnabled: bool
    const defaultInterface: string
    var singToXrayTransitioned: bool
    var xrayToSingTransitioned: bool
    var outbounds: seq<Outbound>
    var xrayOutbounds: seq<Outbound>
    var singToXrayBridges: seq<Bridge>
    var xrayToSingBridges: seq<Bridge>
    var singIngressTags: seq<Tag>
    var xrayIngressTags: seq<Tag>
    var chainGroups: seq<ChainGroup>
    var error: Option<BuildError>
    var nextEndpoint: nat // stands for MkManyPorts and GenRandomLoopback, which never repeat an endpoint

    constructor (tun: bool, interface: string)
      ensures tunEnabled == tun && defaultInterface == interface && Lists() == NOTHING
      ensures error == None && chainGroups == [] && nextEndpoint == 0
    {
      tunEnabled, defaultInterface := tun, interface;
      singToXrayTransitioned, xrayToSingTransitioned := false, false;
      outbounds, xrayOutbounds := [], [];
      singToXrayBridges, xrayToSingBridges := [], [];
      singIngressTags, xrayIngressTags := [], [];
      chainGroups, error, nextEndpoint := [], None, 0;
    }

    function Lists(): Pieces
      reads this
    {
      Pieces(outbounds, xrayOutbounds, singToXrayBridges, xrayToSingBridges, singIngressTags, xrayIngressTags)
    }

    function HowOut(): Egress {
      if defaultInterface != "" then BindInterface(defaultInterface) else if tunEnabled then Loopback else Plain
    }

    /** entIDListtoEntList: accepts exactly the lists that resolve and are acceptable, and notes where
        the chain changes cores. */
    method EntIDListToEntList(profiles: map<int, Profile>, ids: seq<int>) returns (ents: seq<Profile>)
      requires error == None && !singToXrayTransitioned && !xrayToSingTransitioned
      modifies this`singToXrayTransitioned, this`xrayToSingTransitioned, this`error
      ensures error == None <==> exists ps :: Resolves(profiles, ids, ps) && Acceptable(ps)
      ensures error != Some(BridgeMismatch)
      ensures error == None ==> Resolves(profiles, ids, ents) && Acceptable(ents)
      ensures error == None ==>
        (singToXrayTransitioned <==> XrayEnts(Hops(ents)) != []) && (xrayToSingTransitioned <==> TailingEnts(Hops(ents)) != [])
    {
      hide Scanned, EntersXray, LeavesXray, XrayEnts, TailingEnts, Acceptable;
      var scan := Scan([], 0, -1, 0, -1, 0, false, 0, false);
      ents := [];
      NothingScanned();
      for i := 0 to |ids|
        invariant error == None && ents == scan.ents && Resolves(profiles, ids[..i], ents) && Scanned(scan)
        invariant singToXrayTransitioned == EntersXray(Hops(ents), false)
        invariant xrayToSingTransitioned == LeavesXray(Hops(ents), false)
      {
        var found := Find(profiles, ids[i]);
        if found == None {
          error := Some(NullProxy);
          Unresolved(profiles, ids, i);
          return;
        }
        var ent := found.value;
        ScanStep(scan, ent);
        if !scan.inXray && ent.xray {
          singToXrayTransitioned := true;
        }
        if scan.inXray && !ent.xray {
          xrayToSingTransitioned := true;
        }
        if ent.chain {
          error := Some(ChainInChain);
          Unresolved(profiles, ids, i);
          return;
        }
        scan := NoteHop(scan, ent);
        ents := ents + [ent];
      }
      assert ids[..|ids|] == ids;
      EntersMeans(Hops(ents));
      LeavesMeans(Hops(ents));
      OnlyResolution(profiles, ids, ents);
      error := CheckScan(scan);
    }

    /** buildSingboxChain. */
    method BuildSingboxChain(servers: seq<Server>, prefix: Prefix, includeProxy: bool, link: bool, startSuffix: nat,
                             markIngress: bool, warpWrap: bool)
      modifies this`outbounds, this`singIngressTags
      ensures outbounds == old(outbounds) + SingChain(servers, prefix, includeProxy, link, startSuffix, warpWrap)
      ensures singIngressTags == old(singIngressTags)
        + if markIngress && servers != [] then [if includeProxy then Proxy else Numbered(prefix, startSuffix)] else []
    {
      ghost var chain := SingChain(servers, prefix, includeProxy, link, startSuffix, warpWrap);
      for idx := 0 to |servers|
        invariant outbounds == old(outbounds) + chain[..idx]
        invariant singIngressTags == old(singIngressTags)
          + if markIngress && idx > 0 then [if includeProxy then Proxy else Numbered(prefix, startSuffix)] else []
      {
        var tag := Numbered(prefix, startSuffix + idx);
        var nextTag: Option<Tag> := None;
        if idx < |servers| - 1 {
          nextTag := Some(Numbered(prefix, startSuffix + idx + 1));
        }
        if includeProxy && idx == 0 {
          tag := Proxy;
        }
        if warpWrap && idx == 1 {
          tag := WarpBypass;
        }
        if markIngress && idx == 0 {
          singIngressTags := singIngressTags + [tag];
        }
        var entry := Outbound(tag, servers[idx], None);
        if nextTag != None && link {
          entry := entry.(via := nextTag);
        }
        if warpWrap && idx == 0 {
          entry := entry.(via := Some(WarpBypass));
        }
        outbounds := outbounds + [entry];
        assert chain[idx] == entry;
        assert chain[..idx + 1] == chain[..idx] + [entry];
      }
      assert chain[..|servers|] == chain;
    }

    /** buildXrayChain. */
    method BuildXrayChain(hops: seq<Hop>, prefix: Prefix, includeProxy: bool, link: bool, startSuffix: nat, bridge: Option<Bridge>,
                          bind: string)
      modifies this`xrayOutbounds, this`xrayIngressTags
      ensures xrayOutbounds == old(xrayOutbounds) + XrayChain(hops, prefix, includeProxy, link, startSuffix, bridge, bind)
      ensures xrayIngressTags == old(xrayIngressTags)
        + if hops != [] then [if includeProxy then Proxy else Numbered(prefix, startSuffix)] else []
    {
      ghost var chain := XrayChain(hops, prefix, includeProxy, link, startSuffix, bridge, bind);
      for idx := 0 to |hops|
        invariant xrayOutbounds == old(xrayOutbounds) + chain[..idx]
        invariant xrayIngressTags == old(xrayIngressTags)
          + if idx > 0 then [if includeProxy then Proxy else Numbered(prefix, startSuffix)] else []
      {
        var tag := Numbered(prefix, startSuffix + idx);
        var nextTag: Option<Tag> := None;
        if idx < |hops| - 1 || bridge != None {
          nextTag := Some(Numbered(prefix, startSuffix + idx + 1));
        }
        if includeProxy && idx == 0 {
          tag := Proxy;
        }
        if idx == 0 {
          xrayIngressTags := xrayIngressTags + [tag];
        }
        var entry := Outbound(tag, Real(hops[idx]), None);
        if bind != "" && idx == |hops| - 1 {
          entry := entry.(bound := bind);
        }
        if nextTag != None && (link || bridge != None) {
          entry := entry.(via := nextTag);
        }
        xrayOutbounds := xrayOutbounds + [entry];
        assert chain[idx] == entry;
        assert chain[..idx + 1] == chain[..idx] + [entry];
      }
      if bridge != None {
        xrayOutbounds := xrayOutbounds + [Outbound(Numbered(prefix, startSuffix + |hops|), Socks(bridge.value.endpoint), None)];
      }
      assert bridge == None ==> chain[..|hops|] == chain;
      assert bridge != None ==> chain == chain[..|hops|] + [chain[|hops|]];
    }

    /** The bridges of buildOutboundChain: into Xray, and out of it again. */
    method AddBridges(initialSingEnts: seq<Hop>, xrayEnts: seq<Hop>, tailingSingEnts: seq<Hop>, ghost c: Chain)
      returns (initialServers: seq<Server>, xrayToSingBridge: Option<Bridge>, bind: string)
      requires initialSingEnts == InitialEnts(c.ents) && xrayEnts == XrayEnts(c.ents) && tailingSingEnts == TailingEnts(c.ents)
      requires (singToXrayTransitioned <==> xrayEnts != []) && (xrayToSingTransitioned <==> tailingSingEnts != [])
      requires c.endpoint == nextEndpoint
      modifies this`singToXrayBridges, this`xrayToSingBridges, this`nextEndpoint
      ensures initialServers == InitialServers(c) && xrayToSingBridge == ExitBridge(c, HowOut()) && bind == BindOf(c, HowOut())
      ensures singToXrayBridges == old(singToXrayBridges) + if xrayEnts == [] then [] else [Bridge(c.endpoint, false)]
      ensures xrayToSingBridges == old(xrayToSingBridges) + if xrayToSingBridge == None then [] else [xrayToSingBridge.value]
      ensures nextEndpoint == old(nextEndpoint) + 2
    {
      hide XrayEnts, InitialEnts, TailingEnts;
      var port := nextEndpoint;
      nextEndpoint := nextEndpoint + 2;
      initialServers := Servers(initialSingEnts);
      if singToXrayTransitioned {
        singToXrayBridges := singToXrayBridges + [Bridge(port, false)];
        initialServers := initialServers + [Socks(port)];
      }
      var xrayFinalEgress := xrayEnts != [] && tailingSingEnts == [] && !xrayToSingTransitioned;
      xrayToSingBridge, bind := None, "";
      if xrayToSingTransitioned {
        xrayToSingBridge := Some(Bridge(port + 1, false));
        xrayToSingBridges := xrayToSingBridges + [Bridge(port + 1, false)];
      } else if xrayFinalEgress && defaultInterface != "" {
        bind := defaultInterface;
      } else if xrayFinalEgress && tunEnabled {
        xrayToSingBridge := Some(Bridge(port + 1, true));
        xrayToSingBridges := xrayToSingBridges + [Bridge(port + 1, true)];
      }
      TailNeedsXray(c.ents);
    }

    /** The outbounds of buildOutboundChain. */
    method EmitParts(initialServers: seq<Server>, xrayEnts: seq<Hop>, tailingSingEnts: seq<Hop>, exit: Option<Bridge>, bind: string,
                     prefix: Prefix, includeProxy: bool, link: bool, startSuffix: nat, warpWrap: bool)
      modifies this`outbounds, this`xrayOutbounds, this`singIngressTags, this`xrayIngressTags
      ensures outbounds == old(outbounds)
        + (SingChain(initialServers, prefix, includeProxy, link, startSuffix, warpWrap)
           + SingChain(Servers(tailingSingEnts), prefix, false, link, startSuffix + |initialServers|, false))
      ensures xrayOutbounds == old(xrayOutbounds)
        + if xrayEnts == [] then [] else XrayChain(xrayEnts, prefix, includeProxy, link, startSuffix, exit, bind)
      ensures singIngressTags == old(singIngressTags)
        + if tailingSingEnts == [] then [] else [Numbered(prefix, startSuffix + |initialServers|)]
      ensures xrayIngressTags == old(xrayIngressTags)
        + if xrayEnts == [] then [] else [if includeProxy then Proxy else Numbered(prefix, startSuffix)]
    {
      hide SingChain, XrayChain;
      EmptyChains(prefix, includeProxy, link, startSuffix, warpWrap, startSuffix + |initialServers|);
      if initialServers != [] {
        BuildSingboxChain(initialServers, prefix, includeProxy, link, startSuffix, false, warpWrap);
      }
      if xrayEnts != [] {
        BuildXrayChain(xrayEnts, prefix, includeProxy, link, startSuffix, exit, bind);
      }
      if tailingSingEnts != [] {
        BuildSingboxChain(Servers(tailingSingEnts), prefix, false, link, startSuffix + |initialServers|, true, false);
      }
    }

    /** buildOutboundChain, once the list of hops is accepted. */
    method EmitChain(c: Chain) returns (watchTag: Tag)
      requires (singToXrayTransitioned <==> XrayEnts(c.ents) != []) && (xrayToSingTransitioned <==> TailingEnts(c.ents) != [])
      requires c.endpoint == nextEndpoint
      modifies this`singToXrayBridges, this`xrayToSingBridges, this`nextEndpoint
      modifies this`outbounds, this`xrayOutbounds, this`singIngressTags, this`xrayIngressTags
      ensures Lists() == Plus(old(Lists()), ChainPieces(c, HowOut())) && nextEndpoint == old(nextEndpoint) + 2
      ensures watchTag == WatchTag(c)
    {
      hide XrayEnts, InitialEnts, TailingEnts, SingChain, XrayChain, ExitBridge, BindOf, InitialServers, Servers;
      var initialSingEnts, xrayEnts, tailingSingEnts := SplitEnts(c.ents);
      var initialServers, exit, bind := AddBridges(initialSingEnts, xrayEnts, tailingSingEnts, c);
      EmitParts(initialServers, xrayEnts, tailingSingEnts, exit, bind, c.prefix, c.includeProxy, c.link, c.start, c.warpWrap);
      watchTag := if tailingSingEnts != [] then Numbered(c.prefix, c.start + |initialServers|)
        else if c.includeProxy then Proxy else Numbered(c.prefix, c.start);
    }

    /** buildOutboundChain: appends exactly the pieces of the chain. */
    method BuildOutboundChain(profiles: map<int, Profile>, ids: seq<int>, prefix: Prefix, includeProxy: bool, link: bool,
                              startSuffix: nat, warpWrap: bool) returns (ents: seq<Profile>)
      modifies this
      ensures old(error) != None ==> error == old(error)
      ensures old(error) == None ==> (error == None <==> exists ps :: Resolves(profiles, ids, ps) && Acceptable(ps))
      ensures old(error) == None ==> error != Some(BridgeMismatch)
      ensures error == None ==>
        var c := Chain(Hops(ents), prefix, includeProxy, link, startSuffix, warpWrap, old(nextEndpoint));
        && Resolves(profiles, ids, ents) && Acceptable(ents)
        && Lists() == Plus(old(Lists()), ChainPieces(c, HowOut())) && nextEndpoint == old(nextEndpoint) + 2
        && chainGroups == old(chainGroups) + if ents == [] then [] else [ChainGroup(ents, WatchTag(c))]
      ensures error == None && ents != [] ==>
        var c := Chain(Hops(ents), prefix, includeProxy, link, startSuffix, warpWrap, old(nextEndpoint));
        && c.ents != [] && old(xrayToSingBridges) <= xrayToSingBridges
        && BridgedOut(xrayToSingBridges[|old(xrayToSingBridges)|..], c, tunEnabled, defaultInterface)
    {
      hide BridgedOut;
      hide Acceptable, Resolves, XrayEnts, TailingEnts, ChainPieces, Plus, WatchTag, Hops;
      ents := [];
      if error != None {
        return;
      }
      singToXrayTransitioned := false;
      xrayToSingTransitioned := false;
      ents := EntIDListToEntList(profiles, ids);
      if error != None {
        return;
      }
      var c := Chain(Hops(ents), prefix, includeProxy, link, startSuffix, warpWrap, nextEndpoint);
      ghost var was := Lists();
      var watchTag := EmitChain(c);
      if ents != [] {
        HopsOf(ents);
        FewTransitions(ents);
        OwnBridges(c, tunEnabled, defaultInterface, HowOut());
        PlusBridges(was, ChainPieces(c, HowOut()));
      }
      if ents != [] {
        chainGroups := chainGroups + [ChainGroup(ents, watchTag)];
      }
    }

    /** buildOutboundsSection: the main chain and then every group of the routing profile. */
    method BuildOutbounds(profiles: map<int, Profile>, mainIds: seq<int>, warp: bool, groups: seq<seq<int>>)
      returns (ghost cs: seq<Chain>)
      requires error == None && Lists() == NOTHING && nextEndpoint == 0 && chainGroups == []
      requires forall k :: 0 <= k < |groups| ==> groups[k] != []
      modifies this
      ensures error != Some(BridgeMismatch)
      ensures error == None && mainIds != [] ==> Counted(chainGroups, cs)
      ensures error == None ==>
        && (mainIds != [] ==> Layout(cs)) && Lists() == Sum(cs, HowOut()) && |cs| == |groups| + 1
        && Asked(profiles, if warp then [WARP_PROFILE_ID] + mainIds else mainIds, cs[0]) && cs[0].warpWrap == warp
        && forall k :: 0 <= k < |groups| ==> Asked(profiles, groups[k], cs[k + 1])
    {
      hide Acceptable, Resolves, ChainPieces, Plus, WatchTag, Hops, Layout, Asked, Sum, HopCount;
      hide Counted;
      var entIDs := if warp then [WARP_PROFILE_ID] + mainIds else mainIds;
      var ents := BuildOutboundChain(profiles, entIDs, MainChain, true, true, 0, warp);
      var routeSuffix: nat := 0;
      cs := [Chain(Hops(ents), MainChain, true, true, 0, warp, 0)];
      if error == None {
        FirstLayout(profiles, entIDs, ents, warp, HowOut());
        ResolvedLength(profiles, entIDs, ents);
        CountedFirst(ents, cs[0]);
        assert mainIds != [] ==> chainGroups == [ChainGroup(ents, WatchTag(cs[0]))];
      }
      for i := 0 to |groups|
        invariant error != Some(BridgeMismatch)
        invariant error == None && mainIds != [] ==> Counted(chainGroups, cs)
        invariant error == None ==>
          && (mainIds != [] ==> Layout(cs)) && Lists() == Sum(cs, HowOut()) && |cs| == i + 1
          && nextEndpoint == 2 * |cs| && routeSuffix == HopCount(cs)
          && Asked(profiles, entIDs, cs[0]) && cs[0].warpWrap == warp
          && forall k :: 0 <= k < i ==> Asked(profiles, groups[k], cs[k + 1])
      {
        var linked := |groups[i]| > 1;
        ghost var start, endpoint, was := routeSuffix, nextEndpoint, chainGroups;
        ents := BuildOutboundChain(profiles, groups[i], RouteChain, false, linked, routeSuffix, false);
        if error == None {
          ghost var c := Chain(Hops(ents), RouteChain, false, linked, start, false, endpoint);
          NextLayout(profiles, groups[i], ents, cs, c);
          ResolvedLength(profiles, groups[i], ents);
          if mainIds != [] { CountedMore(was, cs, ents, c); }
          SumStep(cs, c, HowOut());
          cs := cs + [c];
        }
        routeSuffix := routeSuffix + |groups[i]|;
      }
    }

    /** The bridge inbounds of buildOutboundsSection. */
    method EmitBridgeInbounds() returns (inboundArr: seq<Inbound>)
      modifies this`error
      ensures NormalCount(xrayToSingBridges) == |singIngressTags| ==>
        error == old(error) && inboundArr == BridgeInbounds(xrayToSingBridges, singIngressTags)
      ensures NormalCount(xrayToSingBridges) != |singIngressTags| ==> error == Some(BridgeMismatch)
    {
      inboundArr := [];
      var loopbackBridgeCount := CountLoopback(xrayToSingBridges);
      if |xrayToSingBridges| - loopbackBridgeCount != |singIngressTags| {
        error := Some(BridgeMismatch);
        return;
      }
      inboundArr := PairInbounds(xrayToSingBridges, singIngressTags);
    }

    /** The bridge rules of buildRouteSection. */
    method EmitBridgeRules() returns (bridgeRules: seq<Rule>)
      modifies this`error
      ensures NormalCount(xrayToSingBridges) == |singIngressTags| ==>
        error == old(error) && bridgeRules == BridgeRules(xrayToSingBridges, singIngressTags)
      ensures NormalCount(xrayToSingBridges) != |singIngressTags| ==> error == Some(BridgeMismatch)
    {
      bridgeRules := [];
      var routeLoopbackBridgeCount := CountLoopback(xrayToSingBridges);
      if |xrayToSingBridges| - routeLoopbackBridgeCount != |singIngressTags| {
        error := Some(BridgeMismatch);
        return;
      }
      bridgeRules := PairRules(xrayToSingBridges, singIngressTags);
    }

    /** The ingress part of buildXrayConfig. */
    method EmitXray() returns (outs: seq<Outbound>, inbounds: seq<Inbound>, routeRules: seq<Rule>)
      modifies this`error
      ensures |singToXrayBridges| == |xrayIngressTags| && (xrayOutbounds == [] ==> xrayIngressTags == []) ==>
        && error == old(error) && outs == (if xrayOutbounds == [] then [] else xrayOutbounds + [Outbound(Direct, Free, None)])
        && inbounds == XrayInbounds(singToXrayBridges, xrayIngressTags) && routeRules == XrayRules(xrayIngressTags)
      ensures xrayOutbounds != [] && |singToXrayBridges| != |xrayIngressTags| ==> error == Some(BridgeMismatch)
    {
      outs, inbounds, routeRules := [], [], [];
      if xrayOutbounds == [] {
        return;
      }
      if |xrayIngressTags| != |singToXrayBridges| {
        error := Some(BridgeMismatch);
        return;
      }
      for i := 0 to |xrayIngressTags|
        invariant inbounds == XrayInbounds(singToXrayBridges, xrayIngressTags)[..i]
        invariant routeRules == XrayRules(xrayIngressTags)[..i]
      {
        var inboundTag := IngressOf(xrayIngressTags[i]);
        inbounds := inbounds + [Inbound(inboundTag, singToXrayBridges[i].endpoint)];
        routeRules := routeRules + [Rule(inboundTag, xrayIngressTags[i])];
      }
      outs := xrayOutbounds + [Outbound(Direct, Free, None)];
    }

    /** From ids to a configuration of both cores. The bridges always match; and a chain that is accepted
        is followed hop by hop, unless Xray tags clash or there is no main chain at all. */
    method BuildConfig(profiles: map<int, Profile>, mainIds: seq<int>, warp: bool, groups: seq<seq<int>>)
      returns (cfg: Config, ghost cs: seq<Chain>)
      requires error == None && Lists() == NOTHING && nextEndpoint == 0 && chainGroups == []
      requires forall k :: 0 <= k < |groups| ==> groups[k] != []
      modifies this
      ensures error != Some(BridgeMismatch)
      ensures error == None && mainIds != [] ==> Counted(chainGroups, cs)
      ensures error == None ==>
        && cfg == Configuration(cs, HowOut()) && (mainIds != [] ==> Layout(cs)) && |cs| == |groups| + 1
        && Asked(profiles, if warp then [WARP_PROFILE_ID] + mainIds else mainIds, cs[0]) && cs[0].warpWrap == warp
        && forall k :: 0 <= k < |groups| ==> Asked(profiles, groups[k], cs[k + 1])
      ensures error == None && mainIds != [] && NoClash(cs, HowOut()) ==>
        forall k :: 0 <= k < |cs| ==>
          && Walk(cfg, Sing(FirstTag(cs[k])), |cs[k].ents| + 3) == Some(cs[k].ents)
          && cs[k].ents != [] && LeavesThrough(cfg, cs[k], tunEnabled, defaultInterface)
      ensures error == None && mainIds != [] && (defaultInterface != "" || !tunEnabled) ==> NoLoopbacks(cfg)
      ensures error == None && mainIds != [] ==> BoundOnly(cfg, cs, defaultInterface)
    {
      hide LeavesThrough, NoLoopbacks, BoundOnly, FewChanges;
      hide Layout, Asked, Configuration, Walk, NoClash, Sum, BridgeInbounds, BridgeRules, XrayInbounds, XrayRules, Counted;
      cfg := Config([], [], [], [], [], []);
      cs := BuildOutbounds(profiles, mainIds, warp, groups);
      if error != None {
        return;
      }
      CountsAlwaysMatch(cs, HowOut());
      XrayEmptyTogether(cs, HowOut());
      var inbounds := EmitBridgeInbounds();
      var loopbackBridgeCount := CountLoopback(xrayToSingBridges);
      var outs := outbounds;
      if loopbackBridgeCount > 0 {
        outs := outs + [Outbound(XrayDirect, Free, None)];
      }
      outs := outs + [Outbound(Direct, Free, None)];
      var rules := EmitBridgeRules();
      var xrayOuts, xrayIns, xrayRules := EmitXray();
      cfg := Config(outs, inbounds, rules, xrayOuts, xrayIns, xrayRules);
      ConfigurationIs(cs, HowOut());
      assert cfg == Configuration(cs, HowOut());
      forall k | 0 <= k < |cs| && mainIds != [] && NoClash(cs, HowOut())
        ensures Walk(cfg, Sing(FirstTag(cs[k])), |cs[k].ents| + 3) == Some(cs[k].ents)
        ensures cs[k].ents != [] && LeavesThrough(cfg, cs[k], tunEnabled, defaultInterface)
      {
        CompilerCorrect(cs, HowOut(), k, |cs[k].ents| + 3);
        ChainLeaves(cs, tunEnabled, defaultInterface, HowOut(), k);
      }
      if mainIds != [] {
        LaidOutChanges(cs);
        BoundOnlyLast(cs, defaultInterface, HowOut());
        if defaultInterface != "" || !tunEnabled {
          NoLoopbacksWithout(cs, HowOut());
        }
      }
    }
  }

  lemma HopsOf(ps: seq<Profile>)
    ensures |Hops(ps)| == |ps|
  {}

  lemma FewTransitions(ps: seq<Profile>)
    requires Acceptable(ps)
    ensures CoreTransitions(Hops(ps), false) <= 2
  {}

  lemma PlusBridges(a: Pieces, b: Pieces)
    ensures var p := Plus(a, b).xrayToSing; a.xrayToSing <= p && p[|a.xrayToSing|..] == b.xrayToSing
  {}

  lemma LaidOutChanges(cs: seq<Chain>)
    requires Layout(cs)
    ensures FewChanges(cs)
  {
    forall k | 0 <= k < |cs| ensures CoreTransitions(cs[k].ents, false) <= 2 {
      assert Placed(cs[k], k, HopCount(cs[..k]));
    }
  }

  /** The loop of buildOutboundsSection that pairs the bridges with the ingress tags. */
  method PairInbounds(bridges: seq<Bridge>, ingressTags: seq<Tag>) returns (inboundArr: seq<Inbound>)
    requires NormalCount(bridges) == |ingressTags|
    ensures inboundArr == BridgeInbounds(bridges, ingressTags)
  {
    inboundArr := [];
    var singIngressIdx := 0;
    assert bridges[0..] == bridges && ingressTags[0..] == ingressTags;
    for idx := 0 to |bridges|
      invariant 0 <= singIngressIdx <= |ingressTags|
      invariant NormalCount(bridges[idx..]) == |ingressTags[singIngressIdx..]|
      invariant inboundArr + BridgeInbounds(bridges[idx..], ingressTags[singIngressIdx..])
        == BridgeInbounds(bridges, ingressTags)
    {
      ghost var b, ingress := bridges[idx..], ingressTags[singIngressIdx..];
      assert b[0] == bridges[idx] && b[1..] == bridges[idx + 1..];
      var bridgeConf := bridges[idx];
      var bridgeTag;
      if bridgeConf.loopbackProtect {
        bridgeTag := BridgeLoopback(bridgeConf.endpoint);
      } else {
        assert ingress[1..] == ingressTags[singIngressIdx + 1..];
        bridgeTag := BridgeTo(ingressTags[singIngressIdx]);
        singIngressIdx := singIngressIdx + 1;
      }
      inboundArr := inboundArr + [Inbound(bridgeTag, bridgeConf.endpoint)];
    }
  }

  /** The loop of buildRouteSection that does the same for the rules. */
  method PairRules(bridges: seq<Bridge>, ingressTags: seq<Tag>) returns (bridgeRules: seq<Rule>)
    requires NormalCount(bridges) == |ingressTags|
    ensures bridgeRules == BridgeRules(bridges, ingressTags)
  {
    bridgeRules := [];
    var routeSingIngressIdx := 0;
    assert bridges[0..] == bridges && ingressTags[0..] == ingressTags;
    for idx := 0 to |bridges|
      invariant 0 <= routeSingIngressIdx <= |ingressTags|
      invariant NormalCount(bridges[idx..]) == |ingressTags[routeSingIngressIdx..]|
      invariant bridgeRules + BridgeRules(bridges[idx..], ingressTags[routeSingIngressIdx..])
        == BridgeRules(bridges, ingressTags)
    {
      ghost var b, ingress := bridges[idx..], ingressTags[routeSingIngressIdx..];
      assert b[0] == bridges[idx] && b[1..] == bridges[idx + 1..];
      var bridgeConf := bridges[idx];
      var inboundTag, outboundTag;
      if bridgeConf.loopbackProtect {
        inboundTag, outboundTag := BridgeLoopback(bridgeConf.endpoint), XrayDirect;
      } else {
        assert ingress[1..] == ingressTags[routeSingIngressIdx + 1..];
        inboundTag, outboundTag := BridgeTo(ingressTags[routeSingIngressIdx]), ingressTags[routeSingIngressIdx];
        routeSingIngressIdx := routeSingIngressIdx + 1;
      }
      bridgeRules := bridgeRules + [Rule(inboundTag, outboundTag)];
    }
  }

  /** The chain is made of the profiles that the ids name. */
  ghost predicate Asked(profiles: map<int, Profile>, ids: seq<int>, c: Chain) {
    exists ps :: Resolves(profiles, ids, ps) && c.ents == Hops(ps)
  }

  /** One traffic group for each chain: its profiles, and the tag that their traffic is counted on. */
  ghost predicate Counted(gs: seq<ChainGroup>, cs: seq<Chain>) {
    |gs| == |cs| && forall k :: 0 <= k < |gs| ==> Hops(gs[k].profiles) == cs[k].ents && gs[k].watchTag == WatchTag(cs[k])
  }

  lemma CountedFirst(ps: seq<Profile>, c: Chain)
    requires c.ents == Hops(ps)
    ensures Counted([ChainGroup(ps, WatchTag(c))], [c])
  {}

  lemma CountedMore(gs: seq<ChainGroup>, cs: seq<Chain>, ps: seq<Profile>, c: Chain)
    requires Counted(gs, cs) && c.ents == Hops(ps)
    ensures Counted(gs + [ChainGroup(ps, WatchTag(c))], cs + [c])
  {
    hide WatchTag;
  }

  lemma ResolvedLength(profiles: map<int, Profile>, ids: seq<int>, ps: seq<Profile>)
    requires Resolves(profiles, ids, ps)
    ensures |ps| == |ids|
  {}

  lemma FirstLayout(profiles: map<int, Profile>, ids: seq<int>, ps: seq<Profile>, warp: bool, egress: Egress)
    requires Resolves(profiles, ids, ps) && Acceptable(ps)
    ensures var c := Chain(Hops(ps), MainChain, true, true, 0, warp, 0);
      (ids != [] && (warp ==> |ids| > 1 && ids[0] == WARP_PROFILE_ID) ==> Layout([c])) && Asked(profiles, ids, c) && Sum([c], egress) == Plus(NOTHING, ChainPieces(c, egress)) && HopCount([c]) == 0
  {
    hide ChainPieces;
    var c := Chain(Hops(ps), MainChain, true, true, 0, warp, 0);
    assert [c][..0] == [];
  }

  lemma NextLayout(profiles: map<int, Profile>, ids: seq<int>, ps: seq<Profile>, cs: seq<Chain>, c: Chain)
    requires cs != [] && Resolves(profiles, ids, ps) && Acceptable(ps) && ids != []
    requires c == Chain(Hops(ps), RouteChain, false, |ids| > 1, HopCount(cs), false, 2 * |cs|)
    ensures (Layout(cs) ==> Layout(cs + [c])) && Asked(profiles, ids, c) && HopCount(cs + [c]) == HopCount(cs) + |ids|
  {
    RouteWellFormed(c, ps, ids, profiles);
    hide WellFormed, Acceptable, HopCount;
    assert Placed(c, |cs|, HopCount(cs));
    hide Placed;
    var more := cs + [c];
    assert more[..|cs|] == cs;
    forall k | 0 <= k < |more| && Layout(cs)
      ensures Placed(more[k], k, HopCount(more[..k]))
    {
      if k < |cs| {
        assert more[..k] == cs[..k];
      }
    }
    HopCountStep(cs, c);
  }

  lemma SumStep(cs: seq<Chain>, c: Chain, egress: Egress)
    ensures Sum(cs + [c], egress) == Plus(Sum(cs, egress), ChainPieces(c, egress))
  {
    hide ChainPieces, Plus;
    assert (cs + [c])[..|cs|] == cs;
  }

  lemma HopCountStep(cs: seq<Chain>, c: Chain)
    requires cs != []
    ensures HopCount(cs + [c]) == HopCount(cs) + |c.ents|
  {
    assert (cs + [c])[..|cs|] == cs;
  }

  lemma RouteWellFormed(c: Chain, ps: seq<Profile>, ids: seq<int>, profiles: map<int, Profile>)
    requires Resolves(profiles, ids, ps) && Acceptable(ps) && ids != []
    requires c.ents == Hops(ps) && c.link == (|ids| > 1) && !c.warpWrap
    ensures WellFormed(c)
  {}

  lemma ConfigurationIs(cs: seq<Chain>, egress: Egress)
    ensures CountsMatch(Sum(cs, egress)) && Configuration(cs, egress) == Emitted(Sum(cs, egress))
  {
    CountsAlwaysMatch(cs, egress);
  }

  lemma {:induction false} XrayEmptyTogether(cs: seq<Chain>, egress: Egress)
    ensures Sum(cs, egress).xrayOutbounds == [] ==> Sum(cs, egress).xrayIngress == []
  {
    if cs != [] {
      XrayEmptyTogether(cs[..|cs| - 1], egress);
    }
  }

  method CountLoopback(bridges: seq<Bridge>) returns (count: int)
    ensures count == LoopbackCount(bridges)
  {
    count := 0;
    assert bridges[0..] == bridges;
    for i := 0 to |bridges|
      invariant count + LoopbackCount(bridges[i..]) == LoopbackCount(bridges)
    {
      assert bridges[i..][1..] == bridges[i + 1..];
      if bridges[i].loopbackProtect {
        count := count + 1;
      }
    }
  }

  /** The outbound whose traffic counts for the chain. */
  function WatchTag(c: Chain): Tag {
    if TailingEnts(c.ents) != [] then Numbered(c.prefix, TailStart(c)) else FirstTag(c)
  }

  lemma TailNeedsXray(ents: seq<Hop>)
    ensures TailingEnts(ents) != [] ==> XrayEnts(ents) != []
  {
    hide XrayEnts;
    if XrayEnts(ents) == [] {
      NoXrayNoTail(ents);
    }
  }

  lemma EmptyChains(prefix: Prefix, includeProxy: bool, link: bool, start: nat, warpWrap: bool, start': nat)
    ensures SingChain([], prefix, includeProxy, link, start, warpWrap) == []
    ensures SingChain(Servers([]), prefix, false, link, start', false) == []
  {}

  /** The first i hops are split. */
  ghost predicate SplitAt(ents: seq<Hop>, i: nat, initial: seq<Hop>, xrays: seq<Hop>, tailing: seq<Hop>)
    requires i <= |ents|
  {
    && xrays + XrayEnts(ents[i..]) == XrayEnts(ents)
    && (xrays == [] ==> initial == ents[..i] && tailing == [] && initial + InitialEnts(ents[i..]) == InitialEnts(ents))
    && (xrays != [] ==> initial == InitialEnts(ents) && tailing + SingEnts(ents[i..]) == TailingEnts(ents))
  }

  lemma Unfolded(ents: seq<Hop>)
    requires ents != []
    ensures ents[0].xray ==>
      XrayEnts(ents) == [ents[0]] + XrayEnts(ents[1..]) && SingEnts(ents) == SingEnts(ents[1..]) && InitialEnts(ents) == []
    ensures !ents[0].xray ==>
      && XrayEnts(ents) == XrayEnts(ents[1..]) && SingEnts(ents) == [ents[0]] + SingEnts(ents[1..])
      && InitialEnts(ents) == [ents[0]] + InitialEnts(ents[1..])
  {}

  lemma SplitXray(ents: seq<Hop>, i: nat, initial: seq<Hop>, xrays: seq<Hop>, tailing: seq<Hop>)
    requires i < |ents| && SplitAt(ents, i, initial, xrays, tailing) && ents[i].xray
    ensures SplitAt(ents, i + 1, initial, xrays + [ents[i]], tailing)
  {
    hide XrayEnts, SingEnts, InitialEnts;
    var rest := ents[i..];
    assert rest[1..] == ents[i + 1..];
    Unfolded(rest);
    assert (xrays + [ents[i]]) + XrayEnts(rest[1..]) == xrays + XrayEnts(rest);
    if xrays == [] {
      assert initial + [] == initial;
      assert ents[|initial|..] == rest;
      assert [] + SingEnts(rest[1..]) == SingEnts(rest[1..]);
    }
  }

  lemma SplitSing(ents: seq<Hop>, i: nat, initial: seq<Hop>, xrays: seq<Hop>, tailing: seq<Hop>)
    requires i < |ents| && SplitAt(ents, i, initial, xrays, tailing) && !ents[i].xray
    ensures if xrays == [] then SplitAt(ents, i + 1, initial + [ents[i]], xrays, tailing)
      else SplitAt(ents, i + 1, initial, xrays, tailing + [ents[i]])
  {
    hide XrayEnts, SingEnts, InitialEnts, TailingEnts;
    var rest := ents[i..];
    assert rest[1..] == ents[i + 1..];
    Unfolded(rest);
    if xrays == [] {
      assert (initial + [ents[i]]) + InitialEnts(rest[1..]) == initial + InitialEnts(rest);
      assert ents[..i + 1] == initial + [ents[i]];
    } else {
      assert (tailing + [ents[i]]) + SingEnts(rest[1..]) == tailing + SingEnts(rest);
    }
  }

  lemma SplitDone(ents: seq<Hop>, initial: seq<Hop>, xrays: seq<Hop>, tailing: seq<Hop>)
    requires SplitAt(ents, |ents|, initial, xrays, tailing)
    ensures initial == InitialEnts(ents) && xrays == XrayEnts(ents) && tailing == TailingEnts(ents)
  {
    assert ents[|ents|..] == [];
    if xrays == [] {
      NoXrayNoTail(ents);
    }
  }

  /** The loop of buildOutboundChain that splits the chain. */
  method SplitEnts(ents: seq<Hop>) returns (initial: seq<Hop>, xrays: seq<Hop>, tailing: seq<Hop>)
    ensures initial == InitialEnts(ents) && xrays == XrayEnts(ents) && tailing == TailingEnts(ents)
  {
    initial, xrays, tailing := [], [], [];
    assert ents[0..] == ents;
    for i := 0 to |ents|
      invariant SplitAt(ents, i, initial, xrays, tailing)
    {
      hide SplitAt;
      if ents[i].xray {
        SplitXray(ents, i, initial, xrays, tailing);
        xrays := xrays + [ents[i]];
      } else {
        SplitSing(ents, i, initial, xrays, tailing);
        if xrays == [] {
          initial := initial + [ents[i]];
        } else {
          tailing := tailing + [ents[i]];
        }
      }
    }
    SplitDone(ents, initial, xrays, tailing);
  }

  /** The counters of entIDListtoEntList. */
  datatype Scan = Scan(ents: seq<Profile>, extracoreCount: nat, extracoreIdx: int, xrayFullConfigCount: nat, xrayFullConfigIdx: int,
                       xrayHopCount: nat, hasCustomFullConfig: bool, coreTransitions: nat, inXray: bool)

  ghost predicate Scanned(s: Scan) {
    var n := |s.ents|;
    && Tally(ExtraCores(s.ents), s.extracoreCount, s.extracoreIdx)
    && Tally(XrayConfigs(s.ents), s.xrayFullConfigCount, s.xrayFullConfigIdx)
    && (s.xrayHopCount > 0 <==> AnyXray(s.ents))
    && (s.hasCustomFullConfig <==> AnyFullConfig(s.ents))
    && s.inXray == (n > 0 && s.ents[n - 1].xray)
    && s.coreTransitions == CoreTransitions(Hops(s.ents), false)
  }

  /** One profile of the loop. */
  method NoteHop(s: Scan, ent: Profile) returns (s': Scan)
    requires Scanned(s)
    ensures Scanned(s') && s'.ents == s.ents + [ent]
  {
    hide Tally, CoreTransitions, EntersXray, LeavesXray, AnyXray, AnyFullConfig, ExtraCores, XrayConfigs, Hops;
    ScanStep(s, ent);
    AnyStep(s.ents, ent);
    s' := s.(ents := s.ents + [ent], inXray := ent.xray);
    if s.inXray != ent.xray {
      s' := s'.(coreTransitions := s.coreTransitions + 1);
    }
    if ent.extraCore {
      s' := s'.(extracoreCount := s.extracoreCount + 1, extracoreIdx := |s.ents|);
    }
    if ent.xrayFullConfig {
      s' := s'.(xrayFullConfigCount := s.xrayFullConfigCount + 1, xrayFullConfigIdx := |s.ents|);
    }
    if ent.xray {
      s' := s'.(xrayHopCount := s.xrayHopCount + 1);
    }
    if ent.customFullConfig {
      s' := s'.(hasCustomFullConfig := true);
    }
  }

  /** The checks after the loop. */
  method CheckScan(s: Scan) returns (error: Option<BuildError>)
    requires Scanned(s)
    ensures error == None <==> Acceptable(s.ents)
    ensures error != Some(BridgeMismatch)
  {
    hide Tally, CoreTransitions, Any, OnlyLast, AnyXray, AnyFullConfig;
    TallyLast(ExtraCores(s.ents), s.extracoreCount, s.extracoreIdx);
    TallyLast(XrayConfigs(s.ents), s.xrayFullConfigCount, s.xrayFullConfigIdx);
    if s.hasCustomFullConfig {
      return Some(FullConfigInChain);
    }
    if s.extracoreCount > 1 {
      return Some(TooManyExtraCores);
    }
    if s.xrayFullConfigCount > 1 {
      return Some(TooManyXrayConfigs);
    }
    if s.extracoreCount > 0 && s.xrayFullConfigCount > 0 {
      return Some(ExtraCoreWithXrayConfig);
    }
    if s.xrayFullConfigCount > 0 && s.xrayHopCount > 0 {
      return Some(XrayConfigWithXrayHops);
    }
    if s.extracoreCount == 1 && |s.ents| > 1 && s.extracoreIdx != |s.ents| - 1 {
      return Some(ExtraCoreNotLast);
    }
    if s.xrayFullConfigCount == 1 && |s.ents| > 1 && s.xrayFullConfigIdx != |s.ents| - 1 {
      return Some(XrayConfigNotLast);
    }
    if s.coreTransitions > 2 {
      return Some(TooManyTransitions);
    }
    return None;
  }

  lemma NothingScanned()
    ensures Scanned(Scan([], 0, -1, 0, -1, 0, false, 0, false))
    ensures !EntersXray(Hops([]), false) && !LeavesXray(Hops([]), false)
  {}

  lemma ScanStep(s: Scan, p: Profile)
    requires Scanned(s)
    ensures var ps := s.ents + [p];
      && Tally(ExtraCores(ps), if p.extraCore then s.extracoreCount + 1 else s.extracoreCount, if p.extraCore then |s.ents| else s.extracoreIdx)
      && Tally(XrayConfigs(ps), if p.xrayFullConfig then s.xrayFullConfigCount + 1 else s.xrayFullConfigCount,
               if p.xrayFullConfig then |s.ents| else s.xrayFullConfigIdx)
      && CoreTransitions(Hops(ps), false) == s.coreTransitions + (if p.xray != s.inXray then 1 else 0)
      && EntersXray(Hops(ps), false) == (EntersXray(Hops(s.ents), false) || (!s.inXray && p.xray))
      && LeavesXray(Hops(ps), false) == (LeavesXray(Hops(s.ents), false) || (s.inXray && !p.xray))
  {
    hide Tally, CoreTransitions, EntersXray, LeavesXray;
    assert ExtraCores(s.ents + [p]) == ExtraCores(s.ents) + [p.extraCore];
    assert XrayConfigs(s.ents + [p]) == XrayConfigs(s.ents) + [p.xrayFullConfig];
    assert Hops(s.ents + [p]) == Hops(s.ents) + [HopOf(p)];
    TallyStep(ExtraCores(s.ents), s.extracoreCount, s.extracoreIdx, p.extraCore);
    TallyStep(XrayConfigs(s.ents), s.xrayFullConfigCount, s.xrayFullConfigIdx, p.xrayFullConfig);
    TransitionsStep(Hops(s.ents), HopOf(p), false);
  }

  lemma Unresolved(profiles: map<int, Profile>, ids: seq<int>, i: nat)
    requires i < |ids| && (Find(profiles, ids[i]) == None || Find(profiles, ids[i]).value.chain)
    ensures !exists ps :: Resolves(profiles, ids, ps) && Acceptable(ps)
  {
    hide Acceptable;
  }

  lemma OnlyResolution(profiles: map<int, Profile>, ids: seq<int>, ps: seq<Profile>)
    requires Resolves(profiles, ids, ps)
    ensures (exists qs :: Resolves(profiles, ids, qs) && Acceptable(qs)) <==> Acceptable(ps)
  {
    hide Acceptable;
    forall qs | Resolves(profiles, ids, qs)
      ensures qs == ps
    {
      forall k | 0 <= k < |ps|
        ensures qs[k] == ps[k]
      {
        assert Find(profiles, ids[k]) == Some(ps[k]) && Find(profiles, ids[k]) == Some(qs[k]);
      }
    }
  }
}
