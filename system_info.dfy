/**
 * The remaining readers of the system-information module and the aggregator
 * `get_all_info`, which puts every section into one dictionary and adds the
 * request section only when a request is supplied. Every host fact (clock,
 * hostname, platform strings, environment, psutil readings, socket answers)
 * is an input gathered in `HostFacts`.
 */
module SystemInfo {
  import opened Values
  import Kubernetes
  import Network

  // ---------------------------------------------------------------- resources

  /**
   * What psutil reported, each number already rendered as the reader renders
   * it: `cpuPercent` and the two `...Percent` fields as Python's `str` of the
   * float, the `...GiB` fields as the byte count divided by 1024**3 with two
   * decimals. `cpuCount` is `None` when psutil cannot tell.
   */
  datatype ResourceReadings = ResourceReadings(
    cpuPercent: string,
    cpuCount: Option<int>,
    memoryTotalGiB: string,
    memoryUsedGiB: string,
    memoryPercent: string,
    diskTotalGiB: string,
    diskUsedGiB: string,
    diskPercent: string)

  const ResourceKeys: set<string> :=
    {"CPU Usage", "CPU Count", "Memory Total", "Memory Used", "Memory Percent",
     "Disk Total", "Disk Used", "Disk Percent"}

  /**
   * The resource reader (`get_system_resources`). `readings` is `Failed` with
   * the exception's text when any psutil call raised.
   */
  function SystemResources(readings: Result<ResourceReadings>): (r: map<string, Value>)
    ensures "Error" in r <==> readings.Failed?
    ensures readings.Failed? ==> r == map["Error" := Str(readings.message)]
    ensures readings.Ok? ==> r.Keys == ResourceKeys
    ensures readings.Ok? ==> r["CPU Count"] == (match readings.value.cpuCount
                                                case Some(n) => Int(n)
                                                case None => Null)
    ensures readings.Ok? ==>
              && r["CPU Usage"] == Str(readings.value.cpuPercent + "%")
              && r["Memory Total"] == Str(readings.value.memoryTotalGiB + " GB")
              && r["Memory Used"] == Str(readings.value.memoryUsedGiB + " GB")
              && r["Memory Percent"] == Str(readings.value.memoryPercent + "%")
              && r["Disk Total"] == Str(readings.value.diskTotalGiB + " GB")
              && r["Disk Used"] == Str(readings.value.diskUsedGiB + " GB")
              && r["Disk Percent"] == Str(readings.value.diskPercent + "%")
  {
    match readings
    case Failed(message) => map["Error" := Str(message)]
    case Ok(x) =>
      map[
        "CPU Usage" := Str(x.cpuPercent + "%"),
        "CPU Count" := (match x.cpuCount case Some(n) => Int(n) case None => Null),
        "Memory Total" := Str(x.memoryTotalGiB + " GB"),
        "Memory Used" := Str(x.memoryUsedGiB + " GB"),
        "Memory Percent" := Str(x.memoryPercent + "%"),
        "Disk Total" := Str(x.diskTotalGiB + " GB"),
        "Disk Used" := Str(x.diskUsedGiB + " GB"),
        "Disk Percent" := Str(x.diskPercent + "%")
      ]
  }

  // ----------------------------------------------------------------- platform

  /** The strings the `platform` module reports. */
  datatype PlatformFacts = PlatformFacts(
    platform: string,
    system: string,
    release: string,
    version: string,
    machine: string,
    processor: string,
    pythonVersion: string)

  const PlatformKeys: set<string> :=
    {"Platform", "System", "Release", "Version", "Machine", "Processor", "Python Version"}

  /** The platform reader (`get_platform_info`): an empty processor string reads "N/A". */
  function PlatformInfo(p: PlatformFacts): (r: map<string, string>)
    ensures r.Keys == PlatformKeys
    ensures r["Processor"] != ""
    ensures r["Processor"] == (if p.processor == "" then "N/A" else p.processor)
    ensures && r["Platform"] == p.platform && r["System"] == p.system
            && r["Release"] == p.release && r["Version"] == p.version
            && r["Machine"] == p.machine && r["Python Version"] == p.pythonVersion
  {
    map[
      "Platform" := p.platform,
      "System" := p.system,
      "Release" := p.release,
      "Version" := p.version,
      "Machine" := p.machine,
      "Processor" := if p.processor != "" then p.processor else "N/A",
      "Python Version" := p.pythonVersion
    ]
  }

  // ------------------------------------------------------------------ request

  /**
   * The parts of an inbound request the reader looks at. Header names are as
   * the web framework presents them (canonical capitalisation, one value each).
   */
  datatype Request = Request(
    httpMethod: string,
    path: string,
    remoteAddr: Option<string>,
    headers: map<string, string>)

  const RequestKeys: set<string> := {"Method", "Path", "Remote Address", "User Agent", "Headers"}

  /** The request reader (`get_request_info`). */
  function RequestInfo(req: Request): (r: map<string, Value>)
    ensures r.Keys == RequestKeys
    ensures r["User Agent"] == Str(if "User-Agent" in req.headers then req.headers["User-Agent"] else "N/A")
    ensures AsStringMap(r["Headers"]) == Some(req.headers)
    ensures r["Method"] == Str(req.httpMethod) && r["Path"] == Str(req.path)
    ensures r["Remote Address"] == (match req.remoteAddr case Some(a) => Str(a) case None => Null)
  {
    StringMapRoundTrip(req.headers);
    map[
      "Method" := Str(req.httpMethod),
      "Path" := Str(req.path),
      "Remote Address" := (match req.remoteAddr case Some(a) => Str(a) case None => Null),
      "User Agent" := Str(if "User-Agent" in req.headers then req.headers["User-Agent"] else "N/A"),
      "Headers" := StringMapValue(req.headers)
    ]
  }

  // --------------------------------------------------------------- aggregator

  /** Everything the module reads from the host, as values. */
  datatype HostFacts = HostFacts(
    utcNow: string,                               // datetime.utcnow().isoformat()
    hostname: string,                             // socket.gethostname(), read by get_hostname
    platform: PlatformFacts,
    environment: map<string, string>,             // os.environ
    secretsMounted: bool,                         // os.path.exists(Kubernetes.SecretsPath)
    resources: Result<ResourceReadings>,
    networkHostname: string,                      // socket.gethostname(), read again by get_network_info
    resolved: Result<string>,                     // socket.gethostbyname(networkHostname)
    fqdn: string,                                 // socket.getfqdn()
    interfaces: Result<seq<Network.Interface>>)   // psutil.net_if_addrs()

  function Queries(host: HostFacts): Network.NetworkQueries
  {
    Network.NetworkQueries(host.networkHostname, host.resolved, host.fqdn, host.interfaces)
  }

  const SnapshotKeys: set<string> :=
    {"timestamp", "hostname", "platform", "environment", "kubernetes", "resources", "network"}

  lemma SnapshotKeysDistinct()
    ensures "request" !in SnapshotKeys
    ensures "timestamp" != "hostname" && "timestamp" != "platform" && "timestamp" != "environment"
    ensures "timestamp" != "kubernetes" && "timestamp" != "resources" && "timestamp" != "network"
    ensures "hostname" != "platform" && "hostname" != "environment" && "hostname" != "kubernetes"
    ensures "hostname" != "resources" && "hostname" != "network"
    ensures "platform" != "environment" && "platform" != "kubernetes" && "platform" != "resources"
    ensures "platform" != "network"
    ensures "environment" != "kubernetes" && "environment" != "resources" && "environment" != "network"
    ensures "kubernetes" != "resources" && "kubernetes" != "network" && "resources" != "network"
  {
    assert "request"[0] == 'r' && "resources"[2] == 's';
    assert "network"[0] == 'n';
  }

  /**
   * The seven sections every snapshot has, each the output of its reader
   * (the dictionary literal of `get_all_info`).
   */
  function Snapshot(host: HostFacts): (s: map<string, Value>)
    ensures s.Keys == SnapshotKeys
  {
    map[
      "timestamp" := Str(host.utcNow + "Z"),
      "hostname" := Str(host.hostname),
      "platform" := StringMapValue(PlatformInfo(host.platform)),
      "environment" := StringMapValue(host.environment),
      "kubernetes" := StringMapValue(Kubernetes.KubernetesFacts(host.environment, host.secretsMounted)),
      "resources" := Obj(SystemResources(host.resources)),
      "network" := StringMapValue(Network.NetworkMap(Queries(host)))
    ]
  }

  /** The snapshot with the request section added when a request is supplied. */
  function WithRequest(sections: map<string, Value>, request: Option<Request>): map<string, Value>
  {
    match request
    case Some(req) => sections["request" := Obj(RequestInfo(req))]
    case None => sections
  }

  /**
   * The aggregator (`get_all_info`): it calls the readers, builds the seven
   * sections, then adds "request" when a request is supplied.
   */
  method AllInfo(host: HostFacts, request: Option<Request>) returns (info: map<string, Value>)
    ensures info == WithRequest(Snapshot(host), request)
  {
    var kubernetes := Kubernetes.KubernetesMetadata(host.environment, host.secretsMounted);
    var network := Network.NetworkInfo(Queries(host));
    info := map[
      "timestamp" := Str(host.utcNow + "Z"),
      "hostname" := Str(host.hostname),
      "platform" := StringMapValue(PlatformInfo(host.platform)),
      "environment" := StringMapValue(host.environment),
      "kubernetes" := if kubernetes.Some? then StringMapValue(kubernetes.value) else Null,
      "resources" := Obj(SystemResources(host.resources)),
      "network" := StringMapValue(network)
    ];
    if request.Some? {
      info := info["request" := Obj(RequestInfo(request.value))];
    }
  }

  /**
   * A snapshot always has the seven sections, and "request" exactly when a
   * request is supplied; adding it leaves the seven sections as they were.
   */
  lemma WithRequestKeys(sections: map<string, Value>, request: Option<Request>)
    requires sections.Keys == SnapshotKeys
    ensures var info := WithRequest(sections, request);
            && info.Keys == SnapshotKeys + (if request.Some? then {"request"} else {})
            && ("request" in info <==> request.Some?)
            && (forall k :: k in SnapshotKeys ==> info[k] == sections[k])
            && (request.Some? ==> info["request"] == Obj(RequestInfo(request.value)))
  {
    SnapshotKeysDistinct();
  }

  /** The entries of the dictionary literal, each the output of its reader. */
  lemma SnapshotEntries(host: HostFacts)
    ensures var s := Snapshot(host);
            && s["timestamp"] == Str(host.utcNow + "Z")
            && s["hostname"] == Str(host.hostname)
            && s["platform"] == StringMapValue(PlatformInfo(host.platform))
            && s["environment"] == StringMapValue(host.environment)
            && s["kubernetes"] == StringMapValue(Kubernetes.KubernetesFacts(host.environment, host.secretsMounted))
            && s["resources"] == Obj(SystemResources(host.resources))
            && s["network"] == StringMapValue(Network.NetworkMap(Queries(host)))
  {
    SnapshotKeysDistinct();
  }

  /**
   * What each section of a snapshot holds: the string sections read back as
   * exactly their readers' dictionaries, and the environment verbatim.
   */
  lemma SnapshotSections(host: HostFacts)
    ensures var s := Snapshot(host);
            && s["timestamp"] == Str(host.utcNow + "Z")
            && s["hostname"] == Str(host.hostname)
            && AsStringMap(s["platform"]) == Some(PlatformInfo(host.platform))
            && AsStringMap(s["environment"]) == Some(host.environment)
            && AsStringMap(s["kubernetes"]) == Some(Kubernetes.KubernetesFacts(host.environment, host.secretsMounted))
            && s["resources"] == Obj(SystemResources(host.resources))
            && AsStringMap(s["network"]) == Some(Network.NetworkMap(Queries(host)))
  {
    SnapshotEntries(host);
    StringMapRoundTrip(PlatformInfo(host.platform));
    StringMapRoundTrip(host.environment);
    StringMapRoundTrip(Kubernetes.KubernetesFacts(host.environment, host.secretsMounted));
    StringMapRoundTrip(Network.NetworkMap(Queries(host)));
  }

  /**
   * The host name is read twice, once for the top-level "hostname" and once
   * inside the network reader. When the network reader succeeds, its "Hostname"
   * entry is its own reading, so it agrees with the top-level "hostname" exactly
   * when the two readings are equal; nothing forces them to be.
   */
  lemma HostnameAgrees(host: HostFacts)
    requires Network.FirstFailure(Queries(host)).None?
    ensures var network := StringMapValue(Network.NetworkMap(Queries(host)));
            && "Hostname" in network.fields
            && network.fields["Hostname"] == Str(host.networkHostname)
            && (network.fields["Hostname"] == Snapshot(host)["hostname"] <==> host.networkHostname == host.hostname)
  {
    Network.BaseEntriesKept(Queries(host));
    SnapshotEntries(host);
  }
}
