/** The installer cache: a generated installer is reused while its metadata file matches the arguments. */
module Installer {
  import opened Common
  import opened Text

  datatype Config = Config(serverIp: string, serverKey: string, apiUrl: string)

  /** The arguments of build, with the two things it reads from its surroundings: the AGENT_ENABLED switch and the
      build number, which stands for the sources that are compiled. */
  datatype Args = Args(
    config: Config, tenant: Tenant, password: string, installCode: string, agentOn: bool, build: string)

  /** The metadata file: the configuration and five more fields. */
  datatype Metadata = Metadata(
    config: Config, rustdeskPassword: string, build: string, tenant: Tenant, installCode: string, agent: bool)

  datatype Flag =
    | Flag(name: string, value: string)
    | TenantFlag(name: string, tenant: Tenant)
    | BoolFlag(name: string, on: bool)

  /** A compiled program: its sources, its linker flags, and the file it embeds. */
  datatype Binary =
    | AgentExe(sources: string, flags: seq<Flag>)
    | InstallerExe(sources: string, flags: seq<Flag>, embedded: Option<Binary>)

  /** The files in the generated directory. */
  datatype Files = Files(
    installers: map<Tenant, Binary>,
    agents: map<Tenant, Binary>,
    metadata: map<Tenant, Metadata>)

  /** Where a build stops: before it leaves anything behind, between the agent's copy and the rename, or at the
      metadata write. */
  datatype Stage = Preparing | Linking | WritingMetadata

  datatype BuildError = NotConfigured | FailedAt(stage: Stage)

  function MetadataOf(a: Args): Metadata {
    Metadata(a.config, a.password, a.build, a.tenant, a.installCode, a.agentOn)
  }

  function AgentFlags(a: Args): seq<Flag> {
    [Flag("main.apiURL", a.config.apiUrl), TenantFlag("main.tenantID", a.tenant),
     Flag("main.installCode", a.installCode), Flag("main.agentVersion", a.build)]
  }

  function InstallerFlags(a: Args): seq<Flag> {
    [Flag("main.serverIP", a.config.serverIp), Flag("main.serverKey", a.config.serverKey),
     Flag("main.apiURL", a.config.apiUrl), Flag("main.unattendedPassword", a.password),
     TenantFlag("main.tenantID", a.tenant), Flag("main.installCode", a.installCode),
     BoolFlag("main.agentEnabled", a.agentOn)]
  }

  function FreshAgent(a: Args): Binary {
    AgentExe(a.build, AgentFlags(a))
  }

  /** What a build from scratch makes of the arguments. */
  function FreshInstaller(a: Args): Binary {
    InstallerExe(a.build, InstallerFlags(a), if a.agentOn then Some(FreshAgent(a)) else None)
  }

  /** The linker flags of the agent, by name: each is set once, to its own argument. */
  lemma AgentFlagsExactly(a: Args)
    ensures var flags := FreshAgent(a).flags;
      && FreshAgent(a).sources == a.build && |flags| == 4
      && (forall v :: Flag("main.apiURL", v) in flags <==> v == a.config.apiUrl)
      && (forall t :: TenantFlag("main.tenantID", t) in flags <==> t == a.tenant)
      && (forall v :: Flag("main.installCode", v) in flags <==> v == a.installCode)
      && (forall v :: Flag("main.agentVersion", v) in flags <==> v == a.build)
  {
    var flags := AgentFlags(a);
    assert flags[0] in flags && flags[1] in flags && flags[2] in flags && flags[3] in flags;
  }

  /** The linker flags of the installer that name its server: each is set once, to its own argument. */
  lemma ServerFlagsExactly(a: Args)
    ensures var flags := InstallerFlags(a);
      && (forall v :: Flag("main.serverIP", v) in flags <==> v == a.config.serverIp)
      && (forall v :: Flag("main.serverKey", v) in flags <==> v == a.config.serverKey)
      && (forall v :: Flag("main.apiURL", v) in flags <==> v == a.config.apiUrl)
  {
    var flags := InstallerFlags(a);
    assert flags[0] in flags && flags[1] in flags && flags[2] in flags;
  }

  /** The linker flags of the installer that identify the tenant. */
  lemma TenantFlagsExactly(a: Args)
    ensures var flags := InstallerFlags(a);
      && (forall v :: Flag("main.unattendedPassword", v) in flags <==> v == a.password)
      && (forall t :: TenantFlag("main.tenantID", t) in flags <==> t == a.tenant)
      && (forall v :: Flag("main.installCode", v) in flags <==> v == a.installCode)
      && (forall b :: BoolFlag("main.agentEnabled", b) in flags <==> b == a.agentOn)
  {
    var flags := InstallerFlags(a);
    assert flags[3] in flags && flags[4] in flags && flags[5] in flags && flags[6] in flags;
  }

  /** The linker flags of the installer, by name, and the agent it embeds, if any. */
  lemma InstallerFlagsExactly(a: Args)
    ensures var installer := FreshInstaller(a);
      && installer.InstallerExe? && installer.sources == a.build && |installer.flags| == 7
      && (forall v :: Flag("main.serverIP", v) in installer.flags <==> v == a.config.serverIp)
      && (forall v :: Flag("main.serverKey", v) in installer.flags <==> v == a.config.serverKey)
      && (forall v :: Flag("main.apiURL", v) in installer.flags <==> v == a.config.apiUrl)
      && (forall v :: Flag("main.unattendedPassword", v) in installer.flags <==> v == a.password)
      && (forall t :: TenantFlag("main.tenantID", t) in installer.flags <==> t == a.tenant)
      && (forall v :: Flag("main.installCode", v) in installer.flags <==> v == a.installCode)
      && (forall b :: BoolFlag("main.agentEnabled", b) in installer.flags <==> b == a.agentOn)
      && installer.embedded == if a.agentOn then Some(FreshAgent(a)) else None
  {
    assert |InstallerFlags(a)| == 7;
    hide InstallerFlags, AgentFlags;
    ServerFlagsExactly(a);
    TenantFlagsExactly(a);
  }

  predicate Configured(c: Config) {
    !IsBlank(c.serverIp) && !IsBlank(c.serverKey) && !IsBlank(c.apiUrl)
  }

  predicate CacheHit(f: Files, a: Args) {
    && a.tenant in f.installers
    && (!a.agentOn || a.tenant in f.agents)
    && a.tenant in f.metadata && f.metadata[a.tenant] == MetadataOf(a)
  }

  /** The files after a build that fails at the given stage, if any. */
  function Built(f: Files, a: Args, fails: Option<Stage>): Files {
    if !Configured(a.config) || CacheHit(f, a) || fails == Some(Preparing) then f
    else
      var f1 := f.(agents := if a.agentOn then f.agents[a.tenant := FreshAgent(a)] else f.agents - {a.tenant});
      if fails == Some(Linking) then f1
      else
        var f2 := f1.(installers := f1.installers[a.tenant := FreshInstaller(a)]);
        if fails == Some(WritingMetadata) then f2
        else f2.(metadata := f2.metadata[a.tenant := MetadataOf(a)])
  }

  predicate Succeeds(f: Files, a: Args, fails: Option<Stage>) {
    Configured(a.config) && (CacheHit(f, a) || fails.None?)
  }

  /** The agents after a build has copied or removed its own. */
  function WithAgent(agents: map<Tenant, Binary>, a: Args): map<Tenant, Binary> {
    if a.agentOn then agents[a.tenant := FreshAgent(a)] else agents - {a.tenant}
  }

  /** What a build finds when it has nothing to do: an installer, the agent if it is switched on, and metadata that
      record exactly the arguments. */
  predicate Cached(f: Files, a: Args) {
    && a.tenant in f.installers && a.tenant in f.metadata
    && (a.agentOn ==> a.tenant in f.agents)
    && f.metadata[a.tenant] == Metadata(a.config, a.password, a.build, a.tenant, a.installCode, a.agentOn)
  }

  class Generator {
    var installers: map<Tenant, Binary>
    var agents: map<Tenant, Binary>
    var metadata: map<Tenant, Metadata>

    function View(): Files
      reads this
    {
      Files(installers, agents, metadata)
    }

    /** build, under the lock that its callers hold. */
    method Build(a: Args, fails: Option<Stage>) returns (r: Result<(), BuildError>)
      modifies this
      ensures View() == Built(old(View()), a, fails)
      ensures r.Ok? <==> Succeeds(old(View()), a, fails)
      ensures r.Ok? ==> a.tenant in installers
      ensures r == Err(NotConfigured) <==>
              IsBlank(a.config.serverIp) || IsBlank(a.config.serverKey) || IsBlank(a.config.apiUrl)
      ensures r.Err? && Configured(a.config) ==> fails.Some? && r == Err(FailedAt(fails.value))
      ensures r == Err(NotConfigured) || r == Err(FailedAt(Preparing)) ==> View() == old(View())
      ensures r == Err(FailedAt(Linking)) ==>
        installers == old(installers) && metadata == old(metadata) && agents == WithAgent(old(agents), a)
      ensures r == Err(FailedAt(WritingMetadata)) ==>
        && installers == old(installers)[a.tenant := FreshInstaller(a)]
        && metadata == old(metadata) && agents == WithAgent(old(agents), a)
      ensures r.Ok? ==>
        && a.tenant in metadata
        && metadata[a.tenant] ==
             Metadata(a.config, a.password, a.build, a.tenant, a.installCode, a.agentOn)
        && if Cached(old(View()), a) then View() == old(View())
           else
             && installers == old(installers)[a.tenant := FreshInstaller(a)]
             && metadata == old(metadata)[a.tenant := metadata[a.tenant]] && agents == WithAgent(old(agents), a)
    {
      StageCases(fails);
      if IsBlank(a.config.serverIp) || IsBlank(a.config.serverKey) || IsBlank(a.config.apiUrl) {
        return Err(NotConfigured);
      }
      var expected := MetadataOf(a);
      if a.tenant in installers && (!a.agentOn || a.tenant in agents) && a.tenant in metadata &&
         metadata[a.tenant] == expected {
        return Ok(());
      }
      if fails == Some(Preparing) {
        return Err(FailedAt(Preparing));
      }
      var embedded: Option<Binary> := None;
      if a.agentOn {
        var agent := AgentExe(a.build, AgentFlags(a));
        agents := agents[a.tenant := agent];
        embedded := Some(agent);
      } else {
        agents := agents - {a.tenant};
      }
      if fails == Some(Linking) {
        return Err(FailedAt(Linking));
      }
      installers := installers[a.tenant := InstallerExe(a.build, InstallerFlags(a), embedded)];
      if fails == Some(WritingMetadata) {
        return Err(FailedAt(WritingMetadata));
      }
      metadata := metadata[a.tenant := expected];
      return Ok(());
    }

    /** invalidate_tenant_installer: each removal may fail on its own, and failures are ignored. */
    method Invalidate(tenant: Tenant, removesInstaller: bool, removesMetadata: bool)
      modifies this
      ensures View() == Invalidated(old(View()), tenant, removesInstaller, removesMetadata)
      ensures agents == old(agents)
      ensures forall t :: t in installers <==> t in old(installers) && !(t == tenant && removesInstaller)
      ensures forall t :: t in installers ==> installers[t] == old(installers)[t]
      ensures forall t :: t in metadata <==> t in old(metadata) && !(t == tenant && removesMetadata)
      ensures forall t :: t in metadata ==> metadata[t] == old(metadata)[t]
    {
      if removesInstaller {
        installers := installers - {tenant};
      }
      if removesMetadata {
        metadata := metadata - {tenant};
      }
    }
  }

  lemma StageCases(fails: Option<Stage>)
    ensures fails == None || fails == Some(Preparing) || fails == Some(Linking) || fails == Some(WritingMetadata)
  {
    match fails {
      case None =>
      case Some(stage) =>
        match stage {
          case Preparing =>
          case Linking =>
          case WritingMetadata =>
        }
    }
  }

  function Invalidated(f: Files, tenant: Tenant, removesInstaller: bool, removesMetadata: bool): Files {
    f.(installers := if removesInstaller then f.installers - {tenant} else f.installers,
       metadata := if removesMetadata then f.metadata - {tenant} else f.metadata)
  }

  // ---------------------------------------------------------------------------------------------
  // Coherence

  /** The arguments that a metadata file records. */
  function ArgsOf(m: Metadata): Args {
    Args(m.config, m.tenant, m.rustdeskPassword, m.installCode, m.agent, m.build)
  }

  /** The metadata determines every input of a build, so every linker flag. */
  lemma MetadataDetermines(a: Args, b: Args)
    requires MetadataOf(a) == MetadataOf(b)
    ensures a == b && FreshInstaller(a) == FreshInstaller(b)
  {
    assert a == ArgsOf(MetadataOf(a)) && b == ArgsOf(MetadataOf(b));
  }

  predicate CoherentAt(f: Files, tenant: Tenant) {
    tenant in f.installers && tenant in f.metadata ==>
      f.metadata[tenant].tenant == tenant && f.installers[tenant] == FreshInstaller(ArgsOf(f.metadata[tenant]))
  }

  /** Wherever an installer has metadata, it is what its metadata builds. */
  ghost predicate Coherent(f: Files) {
    forall t :: CoherentAt(f, t)
  }

  lemma BuildKeepsCoherent(f: Files, a: Args, fails: Option<Stage>)
    requires Coherent(f) && fails != Some(WritingMetadata)
    ensures Coherent(Built(f, a, fails))
  {
    forall t ensures CoherentAt(Built(f, a, fails), t) {
      assert CoherentAt(f, t);
      assert ArgsOf(MetadataOf(a)) == a;
    }
  }

  lemma InvalidateKeepsCoherent(f: Files, tenant: Tenant, removesInstaller: bool, removesMetadata: bool)
    requires Coherent(f)
    ensures Coherent(Invalidated(f, tenant, removesInstaller, removesMetadata))
  {
    forall t ensures CoherentAt(Invalidated(f, tenant, removesInstaller, removesMetadata), t) {
      assert CoherentAt(f, t);
    }
  }

  /** The failure that matters: a rebuild whose metadata write fails leaves the cache coherent exactly when no metadata
      was there, or the metadata that was there builds the same installer. */
  lemma LostMetadataExactly(f: Files, a: Args)
    requires Coherent(f) && Configured(a.config) && !CacheHit(f, a)
    ensures Coherent(Built(f, a, Some(WritingMetadata))) <==>
      (a.tenant in f.metadata ==>
         f.metadata[a.tenant].tenant == a.tenant && FreshInstaller(a) == FreshInstaller(ArgsOf(f.metadata[a.tenant])))
  {
    var f' := Built(f, a, Some(WritingMetadata));
    if a.tenant in f.metadata ==>
         f.metadata[a.tenant].tenant == a.tenant && FreshInstaller(a) == FreshInstaller(ArgsOf(f.metadata[a.tenant])) {
      forall t ensures CoherentAt(f', t) {
        assert CoherentAt(f, t);
      }
    } else {
      assert !CoherentAt(f', a.tenant);
    }
  }

  // ---------------------------------------------------------------------------------------------
  // Runs

  datatype Action =
    | BuildAction(args: Args, fails: Option<Stage>)
    | InvalidateAction(tenant: Tenant, removesInstaller: bool, removesMetadata: bool)

  function Run(actions: seq<Action>): Files {
    if actions == [] then Files(map[], map[], map[])
    else
      var before := Run(actions[..|actions| - 1]);
      match actions[|actions| - 1]
      case BuildAction(a, fails) => Built(before, a, fails)
      case InvalidateAction(t, i, m) => Invalidated(before, t, i, m)
  }

  predicate KeepsMetadata(actions: seq<Action>) {
    forall i :: 0 <= i < |actions| && actions[i].BuildAction? ==> actions[i].fails != Some(WritingMetadata)
  }

  lemma {:induction false} RunIsCoherent(actions: seq<Action>)
    requires KeepsMetadata(actions)
    ensures Coherent(Run(actions))
  {
    if actions != [] {
      hide Built, Invalidated, Coherent;
      RunIsCoherent(actions[..|actions| - 1]);
      var before := Run(actions[..|actions| - 1]);
      match actions[|actions| - 1]
      case BuildAction(a, fails) => BuildKeepsCoherent(before, a, fails);
      case InvalidateAction(t, i, m) => InvalidateKeepsCoherent(before, t, i, m);
    } else {
      EmptyIsCoherent();
    }
  }

  lemma EmptyIsCoherent()
    ensures Coherent(Files(map[], map[], map[]))
  {
  }

  /** After any run of builds, failed builds and invalidations, an installer that build returns is what a build from
      scratch would make of the current arguments. */
  lemma ReturnedInstallerIsFresh(actions: seq<Action>, a: Args, fails: Option<Stage>)
    requires KeepsMetadata(actions) && Succeeds(Run(actions), a, fails)
    ensures var f := Built(Run(actions), a, fails);
      a.tenant in f.installers && f.installers[a.tenant] == FreshInstaller(a)
  {
    RunIsCoherent(actions);
    var f := Run(actions);
    if CacheHit(f, a) {
      assert CoherentAt(f, a.tenant);
      MetadataDetermines(a, ArgsOf(f.metadata[a.tenant]));
    }
  }

  // ---------------------------------------------------------------------------------------------
  // The agent binary kept for auto-update

  /** The build goes to work for tenant t and gets as far as the agent's copy. */
  predicate Tries(f: Files, action: Action, t: Tenant) {
    && action.BuildAction? && action.args.tenant == t
    && Configured(action.args.config) && !CacheHit(f, action.args) && action.fails != Some(Preparing)
  }

  /** The arguments of the last such build of a run. */
  function LastTry(actions: seq<Action>, t: Tenant): Option<Args> {
    if actions == [] then None
    else
      var init, last := actions[..|actions| - 1], actions[|actions| - 1];
      if Tries(Run(init), last, t) then Some(last.args) else LastTry(init, t)
  }

  /** After any run, also with lost metadata writes: an agent is kept exactly when the last try had the agent switched
      on, and it is that try's agent. */
  lemma {:induction false} KeptAgentIsLastTried(actions: seq<Action>, t: Tenant)
    ensures t in Run(actions).agents <==> LastTry(actions, t).Some? && LastTry(actions, t).value.agentOn
    ensures t in Run(actions).agents ==> Run(actions).agents[t] == FreshAgent(LastTry(actions, t).value)
  {
    hide CacheHit, Configured, FreshAgent;
    if actions != [] {
      KeptAgentIsLastTried(actions[..|actions| - 1], t);
    }
  }

  /** Two builds of a tenant link the same agent exactly when they agree on the sources, the API URL and the install
      code. */
  lemma SameAgentExactly(a: Args, b: Args)
    requires a.tenant == b.tenant
    ensures FreshAgent(a) == FreshAgent(b) <==>
            a.build == b.build && a.config.apiUrl == b.config.apiUrl && a.installCode == b.installCode
  {
    var flagsA, flagsB := AgentFlags(a), AgentFlags(b);
    if flagsA == flagsB {
      assert flagsA[0] == flagsB[0] && flagsA[2] == flagsB[2];
    }
  }

  lemma {:induction false} LastTryIsOfTenant(actions: seq<Action>, t: Tenant)
    ensures LastTry(actions, t).Some? ==> LastTry(actions, t).value.tenant == t
  {
    if actions != [] {
      LastTryIsOfTenant(actions[..|actions| - 1], t);
    }
  }

  /** After a successful build with the agent on, the kept agent is the current one exactly when the build was not
      answered from the cache, or the last try had the same sources, API URL and install code. */
  lemma KeptAgentExactly(actions: seq<Action>, a: Args, fails: Option<Stage>)
    requires Succeeds(Run(actions), a, fails) && a.agentOn
    ensures var f := Built(Run(actions), a, fails);
      a.tenant in f.agents &&
      (f.agents[a.tenant] == FreshAgent(a) <==>
         CacheHit(Run(actions), a) ==>
           exists b :: LastTry(actions, a.tenant) == Some(b) &&
             b.build == a.build && b.config.apiUrl == a.config.apiUrl && b.installCode == a.installCode)
  {
    hide FreshAgent;
    KeptAgentIsLastTried(actions, a.tenant);
    LastTryIsOfTenant(actions, a.tenant);
    if CacheHit(Run(actions), a) {
      var b := LastTry(actions, a.tenant).value;
      SameAgentExactly(b, a);
    }
  }

  /** No build stops between the agent's copy and the installer's rename. */
  predicate KeepsLinks(actions: seq<Action>) {
    forall i :: 0 <= i < |actions| && actions[i].BuildAction? ==> actions[i].fails != Some(Linking)
  }

  /** Then the metadata on file is that of the last try. */
  lemma {:induction false} MetadataIsLastTried(actions: seq<Action>, t: Tenant)
    requires KeepsMetadata(actions) && KeepsLinks(actions)
    ensures t in Run(actions).metadata ==>
            LastTry(actions, t).Some? && Run(actions).metadata[t] == MetadataOf(LastTry(actions, t).value)
  {
    hide CacheHit, Configured, FreshAgent, FreshInstaller, MetadataOf;
    if actions != [] {
      MetadataIsLastTried(actions[..|actions| - 1], t);
    }
  }

  /** So only an interrupted link can leave a stale agent: without one, every successful build is followed by the
      current agent. */
  lemma StaleOnlyAfterInterruptedLink(actions: seq<Action>, a: Args, fails: Option<Stage>)
    requires KeepsMetadata(actions) && KeepsLinks(actions) && Succeeds(Run(actions), a, fails) && a.agentOn
    ensures var f := Built(Run(actions), a, fails); a.tenant in f.agents && f.agents[a.tenant] == FreshAgent(a)
  {
    KeptAgentIsLastTried(actions, a.tenant);
    if CacheHit(Run(actions), a) {
      MetadataIsLastTried(actions, a.tenant);
      MetadataDetermines(a, LastTry(actions, a.tenant).value);
    }
  }

  /** How the kept agent goes stale: build a, then fail to link b, then build a again from the cache. */
  lemma StaleAgent(a: Args, b: Args)
    requires Configured(a.config) && Configured(b.config) && a.tenant == b.tenant && a.agentOn && b.agentOn
    requires FreshAgent(a) != FreshAgent(b)
    ensures var f := Run([BuildAction(a, None), BuildAction(b, Some(Linking)), BuildAction(a, None)]);
      a.tenant in f.installers && f.installers[a.tenant] == FreshInstaller(a)
      && a.tenant in f.agents && f.agents[a.tenant] == FreshAgent(b)
  {
    var actions := [BuildAction(a, None), BuildAction(b, Some(Linking)), BuildAction(a, None)];
    assert actions[..2][..1] == actions[..1] && actions[..1][..0] == [];
    var f1 := Built(Files(map[], map[], map[]), a, None);
    assert Run(actions[..1]) == f1;
    var f2 := Built(f1, b, Some(Linking));
    assert Run(actions[..2]) == f2;
    assert FreshAgent(a) == FreshAgent(b) || MetadataOf(a) != MetadataOf(b);
    assert !CacheHit(f1, b) && CacheHit(f2, a);
    assert Run(actions) == Built(f2, a, None);
  }
}
