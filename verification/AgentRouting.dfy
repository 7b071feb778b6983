// Agent listeners and source networks: what ValidateAgents accepts, and what
// the registry built from an accepted configuration does.
module AgentRouting {
  import opened Optional
  import opened Addresses

  // A pattern's regex, and whether regexp.Compile accepts it.
  datatype Pattern = Pattern(name: string, regex: string, compiles: bool)

  // The rest of a profile.  nameOk and trustedDomainsOk are the verdicts of
  // validators that are not part of this model.
  datatype Settings = Settings(
    nameOk: bool, mode: string, patterns: seq<Pattern>,
    maxRequests: int, maxBytes: int, maxDomains: int, windowMinutes: int, rateLimit: Option<(int, int)>,
    trustedDomainsOk: bool, readPaths: seq<string>, writePaths: seq<string>)

  const PROFILE_DEFAULT := "_default"

  // sourceCidrs: None is an entry net.ParseCIDR rejects.
  datatype Profile = Profile(listeners: seq<Addr>, sourceCidrs: seq<Option<Network>>, settings: Settings)

  datatype Config = Config(fetchListen: Addr, metricsListen: Option<Addr>, killSwitchListen: Option<Addr>,
                           agents: map<string, Profile>)

  predicate WellTyped(p: Profile) {
    forall i :: 0 <= i < |p.sourceCidrs| && p.sourceCidrs[i].Some? ==> IsNetwork(p.sourceCidrs[i].value)
  }

  // The addresses the process itself listens on.
  function Reserved(cfg: Config): set<Canon> {
    {Canonicalize(cfg.fetchListen)}
    + (if cfg.metricsListen.Some? then {Canonicalize(cfg.metricsListen.value)} else {})
    + (if cfg.killSwitchListen.Some? then {Canonicalize(cfg.killSwitchListen.value)} else {})
  }

  // wildcardPortConflict over the reserved map, in whatever order it is visited.
  method WildcardPortConflict(canon: Canon, reserved: set<Canon>) returns (conflict: bool)
    ensures conflict <==> canon.Canon? && exists y :: y in reserved && y.Canon? && y.port == canon.port
                                                      && y.host.Wildcard? != canon.host.Wildcard?
  {
    if canon.Raw? { return false; }
    var todo := reserved;
    while todo != {}
      invariant todo <= reserved
      invariant forall y :: y in reserved && y !in todo ==>
        !(y.Canon? && y.port == canon.port && y.host.Wildcard? != canon.host.Wildcard?)
      decreases todo
    {
      var existing :| existing in todo;
      todo := todo - {existing};
      if existing.Canon? && existing.port == canon.port && existing.host.Wildcard? != canon.host.Wildcard? {
        return true;
      }
    }
    return false;
  }

  // Not a duplicate and no wildcard clash: exactly, no bind conflict.
  lemma FreeMeansNoConflict(canon: Canon, reserved: set<Canon>)
    requires canon.Canon?
    ensures canon !in reserved && !(exists y :: y in reserved && y.Canon? && y.port == canon.port
                                                && y.host.Wildcard? != canon.host.Wildcard?)
            <==> forall y :: y in reserved ==> !BindConflict(canon, y)
  {
    if canon in reserved { assert BindConflict(canon, canon); }
    if y :| y in reserved && y.Canon? && y.port == canon.port && y.host.Wildcard? != canon.host.Wildcard? {
      assert BindConflict(canon, y);
    }
  }

  datatype Owned = Owned(network: Network, agent: string)

  // ---- The declarative reading of an accepted configuration --------------

  ghost predicate ListenersFree(taken: set<Canon>, addrs: seq<Addr>) {
    && (forall i :: 0 <= i < |addrs| ==> addrs[i].Addr?)
    && (forall i, y :: 0 <= i < |addrs| && y in taken ==> !BindConflict(Canonicalize(addrs[i]), y))
    && (forall i, j :: 0 <= i < j < |addrs| ==> !BindConflict(Canonicalize(addrs[j]), Canonicalize(addrs[i])))
  }

  predicate Parsable(p: Profile) { forall i :: 0 <= i < |p.sourceCidrs| ==> p.sourceCidrs[i].Some? }

  function OwnedBy(name: string, cidrs: seq<Option<Network>>): seq<Owned>
    requires forall i :: 0 <= i < |cidrs| ==> cidrs[i].Some?
  {
    seq(|cidrs|, i requires 0 <= i < |cidrs| => Owned(cidrs[i].value, name))
  }

  // What validation promises about a set of agents, stated without any order:
  // no listener can clash with a reserved address or another listener, and
  // networks of different agents share no address at all.
  ghost predicate Acceptable(cfg: Config, done: set<string>)
    requires done <= cfg.agents.Keys && forall a :: a in cfg.agents ==> WellTyped(cfg.agents[a])
  {
    && (forall a :: a in done ==> SettingsOk(a, cfg.agents[a].settings) && Parsable(cfg.agents[a]))
    && (forall a :: a in done ==> ListenersFree(Reserved(cfg), cfg.agents[a].listeners))
    && (forall a, b :: a in done && b in done && a != b ==> Separate(cfg.agents[a], cfg.agents[b]))
  }

  ghost predicate Separate(p: Profile, q: Profile)
    requires WellTyped(p) && WellTyped(q)
  {
    ListenersApart(p, q) && NetworksApart(p, q)
  }

  ghost predicate ListenersApart(p: Profile, q: Profile) {
    forall i, j :: 0 <= i < |p.listeners| && 0 <= j < |q.listeners| ==>
      !BindConflict(Canonicalize(p.listeners[i]), Canonicalize(q.listeners[j]))
  }

  ghost predicate NetworksApart(p: Profile, q: Profile)
    requires WellTyped(p) && WellTyped(q)
  {
    forall i, j :: 0 <= i < |p.sourceCidrs| && 0 <= j < |q.sourceCidrs|
                   && p.sourceCidrs[i].Some? && q.sourceCidrs[j].Some? ==>
      Disjoint(p.sourceCidrs[i].value, q.sourceCidrs[j].value)
  }

  predicate SettingsOk(name: string, s: Settings) {
    && (name == PROFILE_DEFAULT || s.nameOk)
    && (s.mode == "" || s.mode == "strict" || s.mode == "balanced" || s.mode == "audit")
    && (forall i :: 0 <= i < |s.patterns| ==> s.patterns[i].name != "" && s.patterns[i].regex != "" && s.patterns[i].compiles)
    && s.maxRequests >= 0 && s.maxBytes >= 0 && s.maxDomains >= 0 && s.windowMinutes >= 0
    && (s.rateLimit.Some? ==> s.rateLimit.value.0 >= 0 && s.rateLimit.value.1 >= 0)
    && s.trustedDomainsOk && "" !in s.readPaths && "" !in s.writePaths
  }

  // The verdict in full, each reserved address and each demand by name: every
  // agent's settings are in order and its networks parse; each of its listeners
  // can be split and clashes with none of the process's own addresses; no two
  // listeners clash; and networks of different agents share no address.
  ghost predicate Cleared(cfg: Config)
    requires forall a :: a in cfg.agents ==> WellTyped(cfg.agents[a])
  {
    && (forall a :: a in cfg.agents ==> SettingsOk(a, cfg.agents[a].settings))
    && (forall a, k :: a in cfg.agents && 0 <= k < |cfg.agents[a].sourceCidrs| ==> cfg.agents[a].sourceCidrs[k].Some?)
    && (forall a, i :: a in cfg.agents && 0 <= i < |cfg.agents[a].listeners| ==>
          var x := cfg.agents[a].listeners[i];
          && x.Addr?
          && !BindConflict(Canonicalize(x), Canonicalize(cfg.fetchListen))
          && (cfg.metricsListen.Some? ==> !BindConflict(Canonicalize(x), Canonicalize(cfg.metricsListen.value)))
          && (cfg.killSwitchListen.Some? ==> !BindConflict(Canonicalize(x), Canonicalize(cfg.killSwitchListen.value))))
    && (forall a, i, b, j :: a in cfg.agents && b in cfg.agents && 0 <= i < |cfg.agents[a].listeners|
                             && 0 <= j < |cfg.agents[b].listeners| && (a != b || i != j) ==>
          !BindConflict(Canonicalize(cfg.agents[a].listeners[i]), Canonicalize(cfg.agents[b].listeners[j])))
    && (forall a, b :: a in cfg.agents && b in cfg.agents && a != b ==>
          forall m, n :: Some(m) in cfg.agents[a].sourceCidrs && Some(n) in cfg.agents[b].sourceCidrs ==>
            IsNetwork(m) && IsNetwork(n) && forall ip :: !(Contains(m, ip) && Contains(n, ip)))
  }

  lemma AcceptanceExactly(cfg: Config)
    requires forall a :: a in cfg.agents ==> WellTyped(cfg.agents[a])
    ensures Acceptable(cfg, cfg.agents.Keys) <==> Cleared(cfg)
  {
    hide Disjoint, SettingsOk, Canonicalize, BindConflict;
    if Acceptable(cfg, cfg.agents.Keys) {
      AcceptableIsCleared(cfg);
    }
    if Cleared(cfg) {
      ClearedIsAcceptable(cfg);
    }
  }

  lemma AcceptableIsCleared(cfg: Config)
    requires forall a :: a in cfg.agents ==> WellTyped(cfg.agents[a])
    requires Acceptable(cfg, cfg.agents.Keys)
    ensures Cleared(cfg)
  {
    hide Disjoint, SettingsOk, Canonicalize, BindConflict;
    ConflictIsSymmetric();
    forall a, i | a in cfg.agents && 0 <= i < |cfg.agents[a].listeners|
      ensures var x := cfg.agents[a].listeners[i];
              && x.Addr?
              && !BindConflict(Canonicalize(x), Canonicalize(cfg.fetchListen))
              && (cfg.metricsListen.Some? ==> !BindConflict(Canonicalize(x), Canonicalize(cfg.metricsListen.value)))
              && (cfg.killSwitchListen.Some? ==> !BindConflict(Canonicalize(x), Canonicalize(cfg.killSwitchListen.value)))
    {
      assert ListenersFree(Reserved(cfg), cfg.agents[a].listeners);
      assert Canonicalize(cfg.fetchListen) in Reserved(cfg);
    }
    forall a, i, b, j | a in cfg.agents && b in cfg.agents && 0 <= i < |cfg.agents[a].listeners|
                        && 0 <= j < |cfg.agents[b].listeners| && (a != b || i != j)
      ensures !BindConflict(Canonicalize(cfg.agents[a].listeners[i]), Canonicalize(cfg.agents[b].listeners[j]))
    {
      if a != b {
        assert Separate(cfg.agents[a], cfg.agents[b]);
      } else {
        assert ListenersFree(Reserved(cfg), cfg.agents[a].listeners);
      }
    }
    forall a, b, m, n | a in cfg.agents && b in cfg.agents && a != b
                        && Some(m) in cfg.agents[a].sourceCidrs && Some(n) in cfg.agents[b].sourceCidrs
      ensures IsNetwork(m) && IsNetwork(n) && forall ip :: !(Contains(m, ip) && Contains(n, ip))
    {
      assert Separate(cfg.agents[a], cfg.agents[b]);
      ApartNetworks(cfg.agents[a], cfg.agents[b], m, n);
    }
    forall a, k | a in cfg.agents && 0 <= k < |cfg.agents[a].sourceCidrs| ensures cfg.agents[a].sourceCidrs[k].Some? {
      assert Parsable(cfg.agents[a]);
    }
  }

  lemma ClearedIsAcceptable(cfg: Config)
    requires forall a :: a in cfg.agents ==> WellTyped(cfg.agents[a])
    requires Cleared(cfg)
    ensures Acceptable(cfg, cfg.agents.Keys)
  {
    hide Disjoint, SettingsOk, Canonicalize, BindConflict;
    forall a | a in cfg.agents ensures ListenersFree(Reserved(cfg), cfg.agents[a].listeners) {
      var ls := cfg.agents[a].listeners;
      forall i, y | 0 <= i < |ls| && y in Reserved(cfg) ensures !BindConflict(Canonicalize(ls[i]), y) {
        assert ls[i].Addr?;
      }
    }
    forall a, b | a in cfg.agents && b in cfg.agents && a != b ensures Separate(cfg.agents[a], cfg.agents[b]) {
      var p, q := cfg.agents[a], cfg.agents[b];
      assert ListenersApart(p, q);
      forall i, j | 0 <= i < |p.sourceCidrs| && 0 <= j < |q.sourceCidrs| && p.sourceCidrs[i].Some? && q.sourceCidrs[j].Some?
        ensures Disjoint(p.sourceCidrs[i].value, q.sourceCidrs[j].value)
      {
        var m, n := p.sourceCidrs[i].value, q.sourceCidrs[j].value;
        assert Some(m) in p.sourceCidrs && Some(n) in q.sourceCidrs;
        DisjointMeans(m, n);
      }
    }
  }

  lemma DisjointMeans(m: Network, n: Network)
    requires IsNetwork(m) && IsNetwork(n)
    ensures Disjoint(m, n) <==> forall ip :: !(Contains(m, ip) && Contains(n, ip))
  {
  }

  lemma ApartNetworks(p: Profile, q: Profile, m: Network, n: Network)
    requires WellTyped(p) && WellTyped(q) && NetworksApart(p, q) && Some(m) in p.sourceCidrs && Some(n) in q.sourceCidrs
    ensures IsNetwork(m) && IsNetwork(n) && forall ip :: !(Contains(m, ip) && Contains(n, ip))
  {
    hide Contains;
    var i :| 0 <= i < |p.sourceCidrs| && p.sourceCidrs[i] == Some(m);
    var j :| 0 <= j < |q.sourceCidrs| && q.sourceCidrs[j] == Some(n);
    assert Disjoint(p.sourceCidrs[i].value, q.sourceCidrs[j].value);
  }

  // ---- Validation --------------------------------------------------------

  method ValidateSettings(name: string, s: Settings) returns (ok: bool)
    ensures ok <==> SettingsOk(name, s)
  {
    if name != PROFILE_DEFAULT && !s.nameOk { return false; }
    if s.mode != "" {
      if s.mode != "strict" && s.mode != "balanced" && s.mode != "audit" { return false; }
    }
    for i := 0 to |s.patterns|
      invariant forall k :: 0 <= k < i ==> s.patterns[k].name != "" && s.patterns[k].regex != "" && s.patterns[k].compiles
    {
      if s.patterns[i].name == "" || s.patterns[i].regex == "" || !s.patterns[i].compiles { return false; }
    }
    if s.maxRequests < 0 || s.maxBytes < 0 || s.maxDomains < 0 || s.windowMinutes < 0 { return false; }
    if s.rateLimit.Some? {
      if s.rateLimit.value.0 < 0 || s.rateLimit.value.1 < 0 { return false; }
    }
    if !s.trustedDomainsOk { return false; }
    for i := 0 to |s.readPaths|
      invariant "" !in s.readPaths[..i]
    {
      if s.readPaths[i] == "" { return false; }
    }
    assert s.readPaths[..|s.readPaths|] == s.readPaths;
    for i := 0 to |s.writePaths|
      invariant "" !in s.writePaths[..i]
    {
      if s.writePaths[i] == "" { return false; }
    }
    assert s.writePaths[..|s.writePaths|] == s.writePaths;
    return true;
  }

  // One agent's listeners against everything reserved so far.
  method ValidateListeners(addrs: seq<Addr>, taken: set<Canon>) returns (ok: bool, reserved: set<Canon>)
    ensures ok <==> ListenersFree(taken, addrs)
    ensures ok ==> reserved == taken + set i | 0 <= i < |addrs| :: Canonicalize(addrs[i])
  {
    reserved := taken;
    for n := 0 to |addrs|
      invariant reserved == taken + set i | 0 <= i < n :: Canonicalize(addrs[i])
      invariant ListenersFree(taken, addrs[..n])
    {
      var addr := addrs[n];
      if addr.Unsplittable? { return false, reserved; }
      var canon := Canonicalize(addr);
      var wildcard := WildcardPortConflict(canon, reserved);
      FreeMeansNoConflict(canon, reserved);
      ListenersFreeSnoc(taken, addrs, n, reserved);
      if canon in reserved || wildcard { return false, reserved; }
      reserved := reserved + {canon};
    }
    assert addrs[..|addrs|] == addrs;
    return true, reserved;
  }

  lemma ListenersFreeSnoc(taken: set<Canon>, addrs: seq<Addr>, n: nat, reserved: set<Canon>)
    requires n < |addrs| && reserved == taken + set i | 0 <= i < n :: Canonicalize(addrs[i])
    requires ListenersFree(taken, addrs[..n]) && addrs[n].Addr?
    ensures ListenersFree(taken, addrs[..n + 1]) <==>
            forall y :: y in reserved ==> !BindConflict(Canonicalize(addrs[n]), y)
    ensures ListenersFree(taken, addrs) ==> ListenersFree(taken, addrs[..n + 1])
  {
    var some, more, c := addrs[..n], addrs[..n + 1], Canonicalize(addrs[n]);
    assert forall i :: 0 <= i < n ==> some[i] == addrs[i] && more[i] == addrs[i];
    assert more[n] == addrs[n];
    if ListenersFree(taken, more) {
      forall y | y in reserved ensures !BindConflict(c, y) {
        if y !in taken {
          var i :| 0 <= i < n && y == Canonicalize(addrs[i]);
          assert !BindConflict(Canonicalize(more[n]), Canonicalize(more[i]));
        } else {
          assert !BindConflict(Canonicalize(more[n]), y);
        }
      }
    }
    if forall y :: y in reserved ==> !BindConflict(c, y) {
      forall i | 0 <= i < n ensures !BindConflict(c, Canonicalize(more[i])) {
        assert Canonicalize(addrs[i]) in reserved;
      }
      forall i, j | 0 <= i < j < |more| ensures !BindConflict(Canonicalize(more[j]), Canonicalize(more[i])) {
        if j < n {
          assert !BindConflict(Canonicalize(some[j]), Canonicalize(some[i]));
        }
      }
      forall i, y | 0 <= i < |more| && y in taken ensures !BindConflict(Canonicalize(more[i]), y) {
        if i < n {
          assert !BindConflict(Canonicalize(some[i]), y);
        } else {
          assert y in reserved;
        }
      }
    }
  }

  // One agent's networks against those of the other agents so far.
  method ValidateCidrs(name: string, cidrs: seq<Option<Network>>, prev: seq<Owned>) returns (ok: bool, nets: seq<Owned>)
    requires forall i :: 0 <= i < |cidrs| && cidrs[i].Some? ==> IsNetwork(cidrs[i].value)
    requires forall i :: 0 <= i < |prev| ==> IsNetwork(prev[i].network) && prev[i].agent != name
    ensures ok <==> forall k :: 0 <= k < |cidrs| ==>
                      cidrs[k].Some? && forall i :: 0 <= i < |prev| ==> Disjoint(prev[i].network, cidrs[k].value)
    ensures ok ==> nets == prev + OwnedBy(name, cidrs)
  {
    nets := prev;
    for k := 0 to |cidrs|
      invariant forall l :: 0 <= l < k ==>
        cidrs[l].Some? && forall i :: 0 <= i < |prev| ==> Disjoint(prev[i].network, cidrs[l].value)
      invariant nets == prev + OwnedBy(name, cidrs[..k])
    {
      if cidrs[k].None? { return false, nets; }
      var network := cidrs[k].value;
      for i := 0 to |nets|
        invariant forall l :: 0 <= l < i && l < |prev| ==> Disjoint(prev[l].network, network)
      {
        if nets[i].agent != name {
          assert i < |prev|;
          BaseTestIsExact(nets[i].network, network);
          if Contains(nets[i].network, network.base) || Contains(network, nets[i].network.base) {
            return false, nets;
          }
        }
      }
      nets := nets + [Owned(network, name)];
      assert OwnedBy(name, cidrs[..k + 1]) == OwnedBy(name, cidrs[..k]) + [Owned(network, name)];
    }
    assert cidrs[..|cidrs|] == cidrs;
    return true, nets;
  }

  // The networks seen so far are exactly those of the agents done.
  ghost predicate Seen(cfg: Config, done: set<string>, nets: seq<Owned>)
    requires done <= cfg.agents.Keys
  {
    && (forall k :: 0 <= k < |nets| ==> nets[k].agent in done && Some(nets[k].network) in cfg.agents[nets[k].agent].sourceCidrs)
    && (forall a, i :: a in done && 0 <= i < |cfg.agents[a].sourceCidrs| && cfg.agents[a].sourceCidrs[i].Some? ==>
          Owned(cfg.agents[a].sourceCidrs[i].value, a) in nets)
  }

  ghost predicate Taken(cfg: Config, done: set<string>, reserved: set<Canon>)
    requires done <= cfg.agents.Keys
  {
    forall y :: y in reserved <==> y in Reserved(cfg) || exists a :: a in done && ListenedBy(cfg.agents[a], y)
  }

  ghost predicate ListenedBy(p: Profile, y: Canon) {
    exists i :: 0 <= i < |p.listeners| && y == Canonicalize(p.listeners[i])
  }

  // names: the agents, each once, in the order they are visited (the source
  // sorts them).  The verdict is the order-free condition above.
  method ValidateAgents(cfg: Config, names: seq<string>) returns (ok: bool)
    requires forall a :: a in cfg.agents ==> WellTyped(cfg.agents[a])
    requires forall a :: a in cfg.agents <==> a in names
    requires forall i, j :: 0 <= i < j < |names| ==> names[i] != names[j]
    ensures ok <==> Cleared(cfg)
    ensures ok <==> Acceptable(cfg, cfg.agents.Keys)
  {
    hide Disjoint, BindConflict, ListenersFree, Separate, Reserved, SettingsOk, Cleared;
    AcceptanceExactly(cfg);
    var reserved := Reserved(cfg);
    var nets: seq<Owned> := [];
    ghost var done: set<string> := {};
    for n := 0 to |names|
      invariant done == set i | 0 <= i < n :: names[i]
      invariant done <= cfg.agents.Keys
      invariant Acceptable(cfg, done) && Taken(cfg, done, reserved) && Seen(cfg, done, nets)
    {
      var name := names[n];
      var profile := cfg.agents[name];
      assert name !in done;
      OneMoreAgent(cfg, done, name, reserved, nets);
      var free, reserved' := ValidateListeners(profile.listeners, reserved);
      if !free { return false; }
      assert forall i :: 0 <= i < |nets| ==> IsNetwork(nets[i].network) && nets[i].agent != name;
      var apart, nets' := ValidateCidrs(name, profile.sourceCidrs, nets);
      if !apart { return false; }
      var fine := ValidateSettings(name, profile.settings);
      if !fine { return false; }
      TakenStep(cfg, done, name, reserved, reserved');
      SeenStep(cfg, done, name, nets, nets');
      done, reserved, nets := done + {name}, reserved', nets';
    }
    assert done == cfg.agents.Keys;
    return true;
  }

  lemma TakenStep(cfg: Config, done: set<string>, name: string, reserved: set<Canon>, reserved': set<Canon>)
    requires done <= cfg.agents.Keys && name in cfg.agents && Taken(cfg, done, reserved)
    requires reserved' == reserved + set i | 0 <= i < |cfg.agents[name].listeners| :: Canonicalize(cfg.agents[name].listeners[i])
    ensures Taken(cfg, done + {name}, reserved')
  {
    hide Reserved;
    forall y ensures y in reserved' <==> y in Reserved(cfg) || exists a :: a in done + {name} && ListenedBy(cfg.agents[a], y) {
      assert y in reserved' <==> y in reserved || ListenedBy(cfg.agents[name], y);
    }
  }

  lemma SeenStep(cfg: Config, done: set<string>, name: string, nets: seq<Owned>, nets': seq<Owned>)
    requires done <= cfg.agents.Keys && name in cfg.agents && Parsable(cfg.agents[name]) && Seen(cfg, done, nets)
    requires nets' == nets + OwnedBy(name, cfg.agents[name].sourceCidrs)
    ensures Seen(cfg, done + {name}, nets')
  {
    var own := OwnedBy(name, cfg.agents[name].sourceCidrs);
    forall i | 0 <= i < |cfg.agents[name].sourceCidrs| ensures Owned(cfg.agents[name].sourceCidrs[i].value, name) in nets' {
      assert nets'[|nets| + i] == own[i];
    }
  }

  // Checking one agent against what was collected is checking it against every
  // agent done.
  lemma OneMoreAgent(cfg: Config, done: set<string>, name: string, reserved: set<Canon>, nets: seq<Owned>)
    requires done <= cfg.agents.Keys && name in cfg.agents && name !in done
    requires forall a :: a in cfg.agents ==> WellTyped(cfg.agents[a])
    requires Acceptable(cfg, done) && Taken(cfg, done, reserved) && Seen(cfg, done, nets)
    ensures forall i :: 0 <= i < |nets| ==> IsNetwork(nets[i].network) && nets[i].agent != name
    ensures var p := cfg.agents[name];
            Acceptable(cfg, done + {name}) <==>
            && SettingsOk(name, p.settings) && ListenersFree(reserved, p.listeners)
            && forall k :: 0 <= k < |p.sourceCidrs| ==>
                 p.sourceCidrs[k].Some? && forall i :: 0 <= i < |nets| ==> Disjoint(nets[i].network, p.sourceCidrs[k].value)
    ensures Acceptable(cfg, cfg.agents.Keys) ==> Acceptable(cfg, done + {name})
  {
    hide Disjoint, BindConflict, Reserved, Canonicalize, SettingsOk;
    var p := cfg.agents[name];
    SeparateIsSymmetric(cfg, done, name);
    ListenersAgainst(cfg, done, name, reserved);
    NetworksAgainst(cfg, done, name, nets);
    assert Acceptable(cfg, done + {name}) <==>
           SettingsOk(name, p.settings) && Parsable(p) && ListenersFree(Reserved(cfg), p.listeners)
           && forall a :: a in done ==> Separate(cfg.agents[a], p);
  }

  lemma SeparateIsSymmetric(cfg: Config, done: set<string>, name: string)
    requires done <= cfg.agents.Keys && name in cfg.agents && forall a :: a in cfg.agents ==> WellTyped(cfg.agents[a])
    ensures forall a :: a in done ==> (Separate(cfg.agents[a], cfg.agents[name]) <==> Separate(cfg.agents[name], cfg.agents[a]))
  {
    forall a | a in done ensures Separate(cfg.agents[a], cfg.agents[name]) <==> Separate(cfg.agents[name], cfg.agents[a]) {
      Mirror(cfg.agents[a], cfg.agents[name]);
      Mirror(cfg.agents[name], cfg.agents[a]);
    }
  }

  lemma Mirror(p: Profile, q: Profile)
    requires WellTyped(p) && WellTyped(q)
    ensures Separate(p, q) ==> Separate(q, p)
  {
    if !Separate(p, q) { return; }
    forall i, j | 0 <= i < |q.listeners| && 0 <= j < |p.listeners|
      ensures !BindConflict(Canonicalize(q.listeners[i]), Canonicalize(p.listeners[j]))
    {
      assert !BindConflict(Canonicalize(p.listeners[j]), Canonicalize(q.listeners[i]));
    }
    forall i, j | 0 <= i < |q.sourceCidrs| && 0 <= j < |p.sourceCidrs| && q.sourceCidrs[i].Some? && p.sourceCidrs[j].Some?
      ensures Disjoint(q.sourceCidrs[i].value, p.sourceCidrs[j].value)
    {
      assert Disjoint(p.sourceCidrs[j].value, q.sourceCidrs[i].value);
    }
  }

  lemma ListenersAgainst(cfg: Config, done: set<string>, name: string, reserved: set<Canon>)
    requires done <= cfg.agents.Keys && name in cfg.agents && Taken(cfg, done, reserved)
    ensures var p := cfg.agents[name];
            ListenersFree(reserved, p.listeners) <==>
            ListenersFree(Reserved(cfg), p.listeners) && forall a :: a in done ==> ListenersApart(cfg.agents[a], p)
  {
    hide BindConflict, Reserved, Canonicalize;
    ConflictIsSymmetric();
    var p := cfg.agents[name];
    if ListenersFree(reserved, p.listeners) {
      forall a, i, j | a in done && 0 <= i < |cfg.agents[a].listeners| && 0 <= j < |p.listeners|
        ensures !BindConflict(Canonicalize(cfg.agents[a].listeners[i]), Canonicalize(p.listeners[j]))
      {
        assert ListenedBy(cfg.agents[a], Canonicalize(cfg.agents[a].listeners[i]));
        assert Canonicalize(cfg.agents[a].listeners[i]) in reserved;
      }
    }
    if ListenersFree(Reserved(cfg), p.listeners) && forall a :: a in done ==> ListenersApart(cfg.agents[a], p) {
      forall i, y | 0 <= i < |p.listeners| && y in reserved ensures !BindConflict(Canonicalize(p.listeners[i]), y) {
        if y !in Reserved(cfg) {
          var a :| a in done && ListenedBy(cfg.agents[a], y);
          var k :| 0 <= k < |cfg.agents[a].listeners| && y == Canonicalize(cfg.agents[a].listeners[k]);
        }
      }
    }
  }

  lemma ConflictIsSymmetric()
    ensures forall x: Canon, y: Canon :: BindConflict(x, y) == BindConflict(y, x)
  {
  }

  lemma NetworksAgainst(cfg: Config, done: set<string>, name: string, nets: seq<Owned>)
    requires done <= cfg.agents.Keys && name in cfg.agents && name !in done && Seen(cfg, done, nets)
    requires WellTyped(cfg.agents[name]) && forall a :: a in cfg.agents ==> WellTyped(cfg.agents[a])
    ensures forall i :: 0 <= i < |nets| ==> IsNetwork(nets[i].network) && nets[i].agent != name
    ensures var p := cfg.agents[name];
            (forall k :: 0 <= k < |p.sourceCidrs| ==>
               p.sourceCidrs[k].Some? && forall i :: 0 <= i < |nets| ==> Disjoint(nets[i].network, p.sourceCidrs[k].value))
            <==> Parsable(p) && forall a :: a in done ==> NetworksApart(cfg.agents[a], p)
  {
    hide Disjoint;
    var p := cfg.agents[name];
    forall i | 0 <= i < |nets| ensures IsNetwork(nets[i].network) {
      var l :| 0 <= l < |cfg.agents[nets[i].agent].sourceCidrs| && cfg.agents[nets[i].agent].sourceCidrs[l] == Some(nets[i].network);
    }
    if forall k :: 0 <= k < |p.sourceCidrs| ==>
         p.sourceCidrs[k].Some? && forall i :: 0 <= i < |nets| ==> Disjoint(nets[i].network, p.sourceCidrs[k].value)
    {
      forall a, i, j | a in done && 0 <= i < |cfg.agents[a].sourceCidrs| && 0 <= j < |p.sourceCidrs|
                       && cfg.agents[a].sourceCidrs[i].Some? && p.sourceCidrs[j].Some?
        ensures Disjoint(cfg.agents[a].sourceCidrs[i].value, p.sourceCidrs[j].value)
      {
        var o := Owned(cfg.agents[a].sourceCidrs[i].value, a);
        assert o in nets;
        var m :| 0 <= m < |nets| && nets[m] == o;
      }
    }
    if Parsable(p) && forall a :: a in done ==> NetworksApart(cfg.agents[a], p) {
      forall k, i | 0 <= k < |p.sourceCidrs| && 0 <= i < |nets| ensures Disjoint(nets[i].network, p.sourceCidrs[k].value) {
        var a := nets[i].agent;
        var l :| 0 <= l < |cfg.agents[a].sourceCidrs| && cfg.agents[a].sourceCidrs[l] == Some(nets[i].network);
        assert NetworksApart(cfg.agents[a], p);
      }
    }
  }

  // ---- The registry ------------------------------------------------------

  // The owners' networks in the order NewAgentRegistry appends them, which is
  // the order in which it happens to visit the agents.
  function Networks(agents: map<string, Profile>, names: seq<string>): seq<Owned>
    requires forall i :: 0 <= i < |names| ==> names[i] in agents && Parsable(agents[names[i]])
  {
    if names == [] then []
    else
      var last := names[|names| - 1];
      assert Parsable(agents[last]);
      Networks(agents, names[..|names| - 1]) + OwnedBy(last, agents[last].sourceCidrs)
  }

  // MatchCIDR: the owner of the first network that contains the address.
  method MatchCidr(cidrs: seq<Owned>, ip: Bits) returns (profile: Option<string>)
    requires forall k :: 0 <= k < |cidrs| ==> IsNetwork(cidrs[k].network)
    ensures profile == FirstMatch(cidrs, ip)
  {
    for k := 0 to |cidrs|
      invariant FirstMatch(cidrs, ip) == FirstMatch(cidrs[k..], ip)
    {
      if Contains(cidrs[k].network, ip) { return Some(cidrs[k].agent); }
      assert cidrs[k..][1..] == cidrs[k + 1..];
    }
    return None;
  }

  function FirstMatch(cidrs: seq<Owned>, ip: Bits): Option<string>
    requires forall k :: 0 <= k < |cidrs| ==> IsNetwork(cidrs[k].network)
  {
    if cidrs == [] then None
    else if Contains(cidrs[0].network, ip) then Some(cidrs[0].agent)
    else FirstMatch(cidrs[1..], ip)
  }

  ghost predicate Covers(p: Profile, ip: Bits)
    requires WellTyped(p)
  {
    exists i :: 0 <= i < |p.sourceCidrs| && p.sourceCidrs[i].Some? && Contains(p.sourceCidrs[i].value, ip)
  }

  ghost predicate Ready(agents: map<string, Profile>, names: seq<string>) {
    && (forall a :: a in agents ==> WellTyped(agents[a]) && Parsable(agents[a]))
    && (forall i :: 0 <= i < |names| ==> names[i] in agents)
  }

  lemma {:induction false} NetworksAreOwned(agents: map<string, Profile>, names: seq<string>)
    requires Ready(agents, names)
    ensures forall k :: 0 <= k < |Networks(agents, names)| ==>
              var o := Networks(agents, names)[k];
              IsNetwork(o.network) && o.agent in names && Some(o.network) in agents[o.agent].sourceCidrs
    ensures forall a, i :: a in names && 0 <= i < |agents[a].sourceCidrs| ==>
              Owned(agents[a].sourceCidrs[i].value, a) in Networks(agents, names)
  {
    if names != [] {
      var init, last := names[..|names| - 1], names[|names| - 1];
      NetworksAreOwned(agents, init);
      var own := OwnedBy(last, agents[last].sourceCidrs);
      var all := Networks(agents, names);
      assert names == init + [last];
      forall a, i | a in names && 0 <= i < |agents[a].sourceCidrs|
        ensures Owned(agents[a].sourceCidrs[i].value, a) in all
      {
        if a == last {
          assert own[i] in all;
        }
      }
    }
  }

  lemma {:induction false} FirstMatchFinds(cidrs: seq<Owned>, ip: Bits)
    requires forall k :: 0 <= k < |cidrs| ==> IsNetwork(cidrs[k].network)
    ensures FirstMatch(cidrs, ip).None? <==> forall k :: 0 <= k < |cidrs| ==> !Contains(cidrs[k].network, ip)
    ensures FirstMatch(cidrs, ip).Some? ==>
              exists k :: 0 <= k < |cidrs| && cidrs[k].agent == FirstMatch(cidrs, ip).value && Contains(cidrs[k].network, ip)
  {
    hide Contains;
    if cidrs != [] {
      FirstMatchFinds(cidrs[1..], ip);
      assert forall k :: 1 <= k < |cidrs| ==> cidrs[k] == cidrs[1..][k - 1];
      if FirstMatch(cidrs, ip).Some? && !Contains(cidrs[0].network, ip) {
        var k :| 0 <= k < |cidrs[1..]| && cidrs[1..][k].agent == FirstMatch(cidrs, ip).value && Contains(cidrs[1..][k].network, ip);
        assert cidrs[k + 1].agent == FirstMatch(cidrs, ip).value;
      }
    }
  }

  // In an accepted configuration the first match is the only agent whose
  // networks contain the address ...
  lemma MatchIsTheOwner(cfg: Config, names: seq<string>, ip: Bits)
    requires forall a :: a in cfg.agents ==> WellTyped(cfg.agents[a])
    requires Acceptable(cfg, cfg.agents.Keys) && (set a | a in names) == cfg.agents.Keys
    ensures Ready(cfg.agents, names)
    ensures forall k :: 0 <= k < |Networks(cfg.agents, names)| ==> IsNetwork(Networks(cfg.agents, names)[k].network)
    ensures var m := FirstMatch(Networks(cfg.agents, names), ip);
            && (forall a :: a in cfg.agents ==> (m == Some(a) <==> Covers(cfg.agents[a], ip)))
            && (m.Some? ==> m.value in cfg.agents)
  {
    hide Contains, FirstMatch, Networks, ListenersFree, ListenersApart, SettingsOk;
    assert forall i :: 0 <= i < |names| ==> names[i] in (set a | a in names);
    NetworksAreOwned(cfg.agents, names);
    var nets := Networks(cfg.agents, names);
    FirstMatchFinds(nets, ip);
    var m := FirstMatch(nets, ip);
    if m.Some? {
      var k :| 0 <= k < |nets| && nets[k].agent == m.value && Contains(nets[k].network, ip);
      assert nets[k].agent in names;
      var i :| 0 <= i < |cfg.agents[m.value].sourceCidrs| && cfg.agents[m.value].sourceCidrs[i] == Some(nets[k].network);
      assert Covers(cfg.agents[m.value], ip);
    }
    forall a | a in cfg.agents ensures m == Some(a) <==> Covers(cfg.agents[a], ip) {
      if m.Some? && m.value != a {
        OnlyOneCovers(cfg.agents[a], cfg.agents[m.value], ip);
      }
      if Covers(cfg.agents[a], ip) {
        var i :| 0 <= i < |cfg.agents[a].sourceCidrs| && cfg.agents[a].sourceCidrs[i].Some? && Contains(cfg.agents[a].sourceCidrs[i].value, ip);
        assert a in (set x | x in names);
        assert Owned(cfg.agents[a].sourceCidrs[i].value, a) in nets;
        assert m.Some?;
      }
    }
  }

  lemma OnlyOneCovers(p: Profile, q: Profile, ip: Bits)
    requires WellTyped(p) && WellTyped(q) && Separate(p, q)
    ensures !(Covers(p, ip) && Covers(q, ip))
  {
    hide Contains, ListenersApart;
  }

  // ... so routing by source address does not depend on the order in which the
  // registry visited the agents.
  lemma RoutingIsOrderIndependent(cfg: Config, names1: seq<string>, names2: seq<string>, ip: Bits)
    requires forall a :: a in cfg.agents ==> WellTyped(cfg.agents[a])
    requires Acceptable(cfg, cfg.agents.Keys)
    requires (set a | a in names1) == cfg.agents.Keys && (set a | a in names2) == cfg.agents.Keys
    ensures Ready(cfg.agents, names1) && Ready(cfg.agents, names2)
    ensures forall k :: 0 <= k < |Networks(cfg.agents, names1)| ==> IsNetwork(Networks(cfg.agents, names1)[k].network)
    ensures forall k :: 0 <= k < |Networks(cfg.agents, names2)| ==> IsNetwork(Networks(cfg.agents, names2)[k].network)
    ensures FirstMatch(Networks(cfg.agents, names1), ip) == FirstMatch(Networks(cfg.agents, names2), ip)
  {
    hide Contains, FirstMatch, Networks, Acceptable;
    MatchIsTheOwner(cfg, names1, ip);
    MatchIsTheOwner(cfg, names2, ip);
  }

  // The registry's own duplicate-listener error cannot occur after validation:
  // no two listeners of accepted agents are even spelled the same way.
  lemma AcceptedListenersAreDistinct(cfg: Config, a: string, i: nat, b: string, j: nat)
    requires forall x :: x in cfg.agents ==> WellTyped(cfg.agents[x])
    requires Acceptable(cfg, cfg.agents.Keys) && a in cfg.agents && b in cfg.agents
    requires i < |cfg.agents[a].listeners| && j < |cfg.agents[b].listeners| && (a != b || i != j)
    ensures !BindConflict(Canonicalize(cfg.agents[a].listeners[i]), Canonicalize(cfg.agents[b].listeners[j]))
    ensures cfg.agents[a].listeners[i] != cfg.agents[b].listeners[j]
  {
    hide Disjoint, Reserved, NetworksApart;
    ConflictIsSymmetric();
    assert ListenersFree(Reserved(cfg), cfg.agents[a].listeners);
    assert cfg.agents[a].listeners[i].Addr?;
    if a != b {
      assert Separate(cfg.agents[a], cfg.agents[b]);
    }
  }
}
