/**
 Expanding a fleet into servers with their GPUs and ports, launching it under a quorum rule, and
 aggregating the fleets of several hosts.
 */
module Fleet {
  import opened Common
  import opened Decimal
  import opened Division
  import opened Groups
  import opened Polling

  datatype FleetSpec = FleetSpec(host: string, basePort: nat, replicas: int, tp: int, pp: int, dp: int, gpus: seq<nat>, minHealthy: real)

  datatype ServerSpec = ServerSpec(host: string, port: nat, tp: int, pp: int, dp: int, gpus: seq<nat>)

  function GpusPerReplica(tp: int, pp: int, dp: int): int {
    tp * pp * dp
  }

  // ---- GPUs and ports ----

  /** One block of GPUs per replica, in order; a count that does not fit raises. */
  function PartitionGpus(gpus: seq<nat>, replicas: int, each: int): (r: Result<seq<seq<nat>>>)
    ensures r.Ok? <==> replicas >= 1 && each >= 1 && |gpus| == Times(replicas, each)
    ensures r.Ok? ==> |r.value| == replicas && Uniform(r.value, each) && Flatten(r.value) == gpus
  {
    if replicas < 1 || each < 1 || |gpus| != Times(replicas, each) then Raised
    else
      FlattenView(gpus, replicas, each);
      Ok(View(gpus, replicas, each))
  }

  /**
   The GPUs a fleet may use: an explicit list as it is, or the first of those that were discovered. A
   fleet without replicas or without GPUs each, which the partition refuses, raises here already.
   */
  function ChosenGpus(f: FleetSpec, discovered: seq<nat>): Result<seq<nat>> {
    if f.gpus != [] then Ok(f.gpus)
    else if f.replicas < 1 || GpusPerReplica(f.tp, f.pp, f.dp) < 1 then Raised
    else
      var needed := Times(f.replicas, GpusPerReplica(f.tp, f.pp, f.dp));
      if discovered == [] || |discovered| < needed then Raised else Ok(discovered[..needed])
  }

  function SpecOf(f: FleetSpec, index: nat, block: seq<nat>): ServerSpec {
    ServerSpec(f.host, f.basePort + index, f.tp, f.pp, f.dp, block)
  }

  /** One server per replica. */
  function BuildSpecs(f: FleetSpec, discovered: seq<nat>): Result<seq<ServerSpec>> {
    match ChosenGpus(f, discovered)
    case Raised => Raised
    case Ok(gpus) =>
      match PartitionGpus(gpus, f.replicas, GpusPerReplica(f.tp, f.pp, f.dp))
      case Raised => Raised
      case Ok(blocks) => Ok(seq(|blocks|, i requires 0 <= i < |blocks| => SpecOf(f, i, blocks[i])))
  }

  function Blocks(specs: seq<ServerSpec>): seq<seq<nat>> {
    seq(|specs|, i requires 0 <= i < |specs| => specs[i].gpus)
  }

  /** The check every server makes of its own spec before it starts. */
  predicate Validates(s: ServerSpec) {
    && s.tp >= 1 && s.pp >= 1 && s.dp >= 1 && s.port >= 1
    && (s.gpus == [] || |s.gpus| == GpusPerReplica(s.tp, s.pp, s.dp))
  }

  /** Parallel sizes and the first port are positive. */
  predicate Positive(f: FleetSpec) {
    f.tp >= 1 && f.pp >= 1 && f.dp >= 1 && f.basePort >= 1
  }

  /**
   The blocks of a successful expansion use exactly the chosen GPUs and have ports of their own. The
   servers pass their own check, all of them, when sizes and first port are positive; otherwise the first fails it.
   */
  lemma SpecsFit(f: FleetSpec, discovered: seq<nat>)
    requires BuildSpecs(f, discovered).Ok?
    ensures var specs := BuildSpecs(f, discovered).value; var gpus := ChosenGpus(f, discovered).value;
      && |specs| == f.replicas >= 1 && GpusPerReplica(f.tp, f.pp, f.dp) >= 1
      && Flatten(Blocks(specs)) == gpus && |gpus| == Times(f.replicas, GpusPerReplica(f.tp, f.pp, f.dp))
      && (Positive(f) ==> forall i :: 0 <= i < |specs| ==> Validates(specs[i]))
      && (!Positive(f) ==> !Validates(specs[0]))
      && (forall i, j :: 0 <= i < j < |specs| ==> specs[i].port != specs[j].port)
  {
    var specs := BuildSpecs(f, discovered).value;
    var blocks := PartitionGpus(ChosenGpus(f, discovered).value, f.replicas, GpusPerReplica(f.tp, f.pp, f.dp)).value;
    assert Blocks(specs) == blocks;
  }

  /** Blocks of distinct GPUs share none. */
  lemma BlocksDisjoint(f: FleetSpec, discovered: seq<nat>, i: nat, j: nat, x: nat)
    requires BuildSpecs(f, discovered).Ok? && Distinct(ChosenGpus(f, discovered).value)
    requires i < j < |BuildSpecs(f, discovered).value| && x in BuildSpecs(f, discovered).value[i].gpus
    ensures x !in BuildSpecs(f, discovered).value[j].gpus
  {
    var specs := BuildSpecs(f, discovered).value;
    var blocks, w := Blocks(specs), GpusPerReplica(f.tp, f.pp, f.dp);
    SpecsFit(f, discovered);
    var o :| 0 <= o < |specs[i].gpus| && specs[i].gpus[o] == x;
    forall p | 0 <= p < |specs[j].gpus| ensures specs[j].gpus[p] != x {
      FlattenIndex(blocks, w, i, o);
      FlattenIndex(blocks, w, j, p);
      InRange(i, j, o, w);
    }
  }

  // ---- Addresses ----

  const ANY_HOST := "0.0.0.0"
  const LOOPBACK := "127.0.0.1"

  datatype Url = Url(host: string, port: nat)

  /** The address of a server, as a client writes it. */
  function UrlOf(s: ServerSpec): Url {
    Url(if s.host == ANY_HOST then LOOPBACK else s.host, s.port)
  }

  function Render(u: Url): string {
    "http://" + (u.host + ":" + Print(u.port)) + "/v1"
  }

  function Rehost(u: Url, host: string): Url {
    u.(host := host)
  }

  lemma SamePortLength(h: string, p: string, h': string, p': string)
    requires Digits(p) && Digits(p') && h + ":" + p == h' + ":" + p' && |p| <= |p'|
    ensures |p| == |p'|
  {
    assert (h + ":" + p)[|h|] == ':' == (h' + ":" + p')[|h|];
  }

  /** Different servers have different addresses. */
  lemma RenderInjective(u: Url, v: Url)
    requires Render(u) == Render(v)
    ensures u == v
  {
    var a, b := u.host + ":" + Print(u.port), v.host + ":" + Print(v.port);
    assert |a| == |b|;
    assert a == Render(u)[7..7 + |a|] && b == Render(v)[7..7 + |b|];
    var p, q := Print(u.port), Print(v.port);
    if |p| <= |q| {
      SamePortLength(u.host, p, v.host, q);
    } else {
      SamePortLength(v.host, q, u.host, p);
    }
    assert p == a[|a| - |p|..] && q == b[|b| - |q|..];
    assert u.host == a[..|a| - |p| - 1] && v.host == b[..|b| - |q| - 1];
    PrintInjective(u.port, v.port);
  }

  // ---- Launching ----

  datatype Endpoint = Endpoint(url: Url, gpus: seq<nat>, healthy: bool)

  function Healthy(endpoints: seq<Endpoint>): seq<Endpoint> {
    if endpoints == [] then []
    else
      var last := endpoints[|endpoints| - 1];
      var init := Healthy(endpoints[..|endpoints| - 1]);
      if last.healthy then init + [last] else init
  }

  function Urls(endpoints: seq<Endpoint>): seq<Url> {
    seq(|endpoints|, i requires 0 <= i < |endpoints| => endpoints[i].url)
  }

  /** The recorded endpoints: only the healthy ones. */
  datatype EndpointsFile = EndpointsFile(name: string, entries: seq<Endpoint>)

  function WriteEndpoints(name: string, endpoints: seq<Endpoint>): EndpointsFile {
    EndpointsFile(name, Healthy(endpoints))
  }

  function ReadEndpoints(f: EndpointsFile): (string, seq<Url>) {
    (f.name, Urls(f.entries))
  }

  datatype Launch = Launch(endpoints: seq<Endpoint>, file: EndpointsFile)

  /** One endpoint per server, in order, with the verdict the world brings about. */
  function EndpointsOf(w: World, specs: seq<ServerSpec>, rounds: nat): seq<Endpoint> {
    seq(|specs|, i requires 0 <= i < |specs| => Endpoint(UrlOf(specs[i]), specs[i].gpus, Verdict(w, i, rounds) == Some(true)))
  }

  /** The file a launch writes once its servers are started and waited for. */
  function FileOf(f: FleetSpec, discovered: seq<nat>, w: World, rounds: nat, name: string): Option<EndpointsFile> {
    if BuildSpecs(f, discovered).Raised? || !Positive(f) then None
    else Some(WriteEndpoints(name, EndpointsOf(w, BuildSpecs(f, discovered).value, rounds)))
  }

  predicate Quorum(minHealthy: real, healthy: nat, expected: nat) {
    healthy as real >= minHealthy * (expected as real)
  }

  /** Wait for the started servers and report each. */
  method Await(w: World, specs: seq<ServerSpec>, rounds: nat) returns (endpoints: seq<Endpoint>)
    ensures endpoints == EndpointsOf(w, specs, rounds)
  {
    var handles := seq(|specs|, i requires 0 <= i < |specs| => i);
    var healthy, _ := WaitReady(w, handles, rounds);
    endpoints := seq(|specs|, i requires 0 <= i < |specs| => Endpoint(UrlOf(specs[i]), specs[i].gpus, healthy[i]));
  }

  method StopAll(n: nat) returns (stopped: set<nat>)
    ensures stopped == Range(0, n)
  {
    stopped := {};
    for k := 0 to n
      invariant stopped == Range(0, k)
    {
      stopped := stopped + {k};
    }
  }

  /** Start all servers, wait for them, record the healthy ones; below the quorum stop everything and raise. */
  method LaunchFleet(f: FleetSpec, discovered: seq<nat>, w: World, rounds: nat, name: string)
    returns (r: Result<Launch>, stopped: set<nat>)
    ensures BuildSpecs(f, discovered).Raised? || !Positive(f) ==> r.Raised? && stopped == {}
    ensures BuildSpecs(f, discovered).Ok? && Positive(f) ==>
      var endpoints := EndpointsOf(w, BuildSpecs(f, discovered).value, rounds);
      if Quorum(f.minHealthy, |Healthy(endpoints)|, |endpoints|) then
        && r.Ok? && r.value.endpoints == endpoints && stopped == {}
        && r.value.file == FileOf(f, discovered, w, rounds, name).value
        && ReadEndpoints(r.value.file) == (name, Urls(Healthy(endpoints)))
      else r.Raised? && stopped == Range(0, |endpoints|)
  {
    stopped := {};
    match BuildSpecs(f, discovered) {
      case Raised =>
        return Raised, stopped;
      case Ok(specs) =>
        SpecsFit(f, discovered);
        if !Validates(specs[0]) {
          return Raised, stopped;
        }
        var endpoints := Await(w, specs, rounds);
        var file := WriteEndpoints(name, endpoints);
        if !Quorum(f.minHealthy, |Healthy(endpoints)|, |endpoints|) {
          stopped := StopAll(|endpoints|);
          return Raised, stopped;
        }
        r := Ok(Launch(endpoints, file));
    }
  }

  // ---- Several hosts ----

  /** What a host reports: its healthy endpoints, or an error and nothing. */
  function Readdressed(host: string, endpoints: seq<Endpoint>): seq<Endpoint> {
    seq(|endpoints|, i requires 0 <= i < |endpoints| => endpoints[i].(url := Rehost(endpoints[i].url, host)))
  }

  /** The endpoints of one host, as its file records them; a host without any has failed. */
  function HostEndpoints(host: string, report: Option<EndpointsFile>): seq<Endpoint> {
    if report.None? then [] else Healthy(Readdressed(host, report.value.entries))
  }

  /** Collect the hosts in order; too few endpoints raise, and nothing is stopped. */
  method LaunchMultinode(hosts: seq<string>, reports: seq<Option<EndpointsFile>>, replicas: nat, minHealthy: real)
    returns (r: Result<seq<Endpoint>>, failed: seq<string>)
    requires |reports| == |hosts|
    ensures var all := Flatten(seq(|hosts|, i requires 0 <= i < |hosts| => HostEndpoints(hosts[i], reports[i])));
      r == if Quorum(minHealthy, |all|, |hosts| * replicas) then Ok(all) else Raised
    ensures forall h :: h in failed <==> exists i :: 0 <= i < |hosts| && hosts[i] == h && HostEndpoints(h, reports[i]) == []
  {
    var endpoints: seq<Endpoint>;
    endpoints, failed := [], [];
    ghost var parts := seq(|hosts|, i requires 0 <= i < |hosts| => HostEndpoints(hosts[i], reports[i]));
    for k := 0 to |hosts|
      invariant endpoints == Flatten(parts[..k])
      invariant forall h :: h in failed <==> exists i :: 0 <= i < k && hosts[i] == h && HostEndpoints(h, reports[i]) == []
    {
      var found := HostEndpoints(hosts[k], reports[k]);
      if found == [] {
        failed := failed + [hosts[k]];
      }
      endpoints := endpoints + found;
      assert parts[..k + 1][..k] == parts[..k];
    }
    assert parts[..|hosts|] == parts;
    r := if Quorum(minHealthy, |endpoints|, |hosts| * replicas) then Ok(endpoints) else Raised;
  }

  ghost predicate PortsDistinct(endpoints: seq<Endpoint>) {
    forall i, j :: 0 <= i < j < |endpoints| ==> endpoints[i].url.port != endpoints[j].url.port
  }

  lemma {:induction false} HealthySubset(endpoints: seq<Endpoint>)
    ensures forall e :: e in Healthy(endpoints) ==> e in endpoints
    ensures PortsDistinct(endpoints) ==> PortsDistinct(Healthy(endpoints))
  {
    if endpoints != [] {
      var init, last := endpoints[..|endpoints| - 1], endpoints[|endpoints| - 1];
      HealthySubset(init);
      assert endpoints == init + [last];
      if PortsDistinct(endpoints) {
        forall e | e in Healthy(init) ensures e.url.port != last.url.port {
          assert e in init;
        }
      }
    }
  }

  /** A host's endpoints carry the host's name and distinct ports. */
  lemma HostAddresses(host: string, report: Option<EndpointsFile>)
    requires report.Some? ==> PortsDistinct(report.value.entries)
    ensures PortsDistinct(HostEndpoints(host, report))
    ensures forall e :: e in HostEndpoints(host, report) ==> e.url.host == host
  {
    if report.Some? {
      HealthySubset(Readdressed(host, report.value.entries));
    }
  }

  ghost predicate UrlsDistinct(endpoints: seq<Endpoint>) {
    forall i, j :: 0 <= i < j < |endpoints| ==> Render(endpoints[i].url) != Render(endpoints[j].url)
  }

  /** What is launched on one host. */
  datatype HostLaunch = HostLaunch(fleet: FleetSpec, discovered: seq<nat>, world: World, rounds: nat, name: string)

  /** A launch that got through: servers were started, and enough of them are healthy. */
  predicate Launches(l: HostLaunch) {
    && BuildSpecs(l.fleet, l.discovered).Ok? && Positive(l.fleet)
    && var endpoints := EndpointsOf(l.world, BuildSpecs(l.fleet, l.discovered).value, l.rounds);
       Quorum(l.fleet.minHealthy, |Healthy(endpoints)|, |endpoints|)
  }

  /** The file a host reports: that of its launch, or none if the host was not reached or the launch failed. */
  function ReportOf(launch: Option<HostLaunch>): Option<EndpointsFile> {
    if launch.None? || !Launches(launch.value) then None
    else
      var l := launch.value;
      FileOf(l.fleet, l.discovered, l.world, l.rounds, l.name)
  }

  /** A launch records servers with ports of their own. */
  lemma LaunchedPorts(launch: Option<HostLaunch>)
    ensures ReportOf(launch).Some? ==> PortsDistinct(ReportOf(launch).value.entries)
  {
    if ReportOf(launch).Some? {
      var l := launch.value;
      SpecsFit(l.fleet, l.discovered);
      HealthySubset(EndpointsOf(l.world, BuildSpecs(l.fleet, l.discovered).value, l.rounds));
    }
  }

  ghost function Aggregated(hosts: seq<string>, launches: seq<Option<HostLaunch>>): seq<Endpoint>
    requires |launches| == |hosts|
  {
    Flatten(seq(|hosts|, i requires 0 <= i < |hosts| => HostEndpoints(hosts[i], ReportOf(launches[i]))))
  }

  /** Whatever is launched on distinct hosts, all aggregated addresses are distinct. */
  lemma {:induction false} AggregatedUrlsDistinct(hosts: seq<string>, launches: seq<Option<HostLaunch>>)
    requires |launches| == |hosts| && Distinct(hosts)
    ensures UrlsDistinct(Aggregated(hosts, launches))
    ensures forall e :: e in Aggregated(hosts, launches) ==> e.url.host in hosts
  {
    if hosts != [] {
      var n := |hosts| - 1;
      var parts := seq(|hosts|, i requires 0 <= i < |hosts| => HostEndpoints(hosts[i], ReportOf(launches[i])));
      AggregatedUrlsDistinct(hosts[..n], launches[..n]);
      assert parts[..n] == seq(n, i requires 0 <= i < n => HostEndpoints(hosts[..n][i], ReportOf(launches[..n][i])));
      LaunchedPorts(launches[n]);
      HostAddresses(hosts[n], ReportOf(launches[n]));
      JoinDistinct(Flatten(parts[..n]), parts[n], hosts[n]);
    }
  }

  lemma JoinDistinct(a: seq<Endpoint>, b: seq<Endpoint>, host: string)
    requires UrlsDistinct(a) && PortsDistinct(b)
    requires (forall e :: e in a ==> e.url.host != host) && forall e :: e in b ==> e.url.host == host
    ensures UrlsDistinct(a + b)
  {
    var all := a + b;
    forall i, j | 0 <= i < j < |all| ensures Render(all[i].url) != Render(all[j].url) {
      if Render(all[i].url) == Render(all[j].url) {
        RenderInjective(all[i].url, all[j].url);
      }
    }
  }
}
