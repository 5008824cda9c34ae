# System-information snapshot, modelled in Dafny

This project models the system-information module of a small diagnostic
dashboard (`app/system_info.py`). The module collects facts about the host
or container it runs in and returns them as one dictionary, which the web
layer serves as JSON. The facts are the platform strings, the environment,
Kubernetes metadata, CPU/memory/disk usage, network interfaces and, when
there is one, the inbound request.

Every operating-system, `socket`, `platform` and `psutil` query becomes an
input value (`SystemInfo.HostFacts`, `Network.NetworkQueries`). A query that
can raise is a `Values.Result`: either its value or the text of the exception.
What remains is deterministic dictionary building, and that is what is proved.

- `values.dfy` (`Values`): `Option`, `Result`, and `Value`, the JSON-shaped
  values that the dictionaries hold (string, integer, `None`, nested
  dictionary). It also proves that a string dictionary stored as a nested
  value reads back unchanged.
- `kubernetes.dfy` (`Kubernetes`): `get_kubernetes_metadata`. The loop over the
  eight-entry allowlist is a method proved against the fold `Collect`. The
  reader's full contract is the predicate `Describes`, proved of the fold's
  result and shown to determine the dictionary uniquely.
- `network.dfy` (`Network`): `get_network_info`. The nested loop over
  interfaces and their addresses is a method proved against the fold
  `StoreInterfaces`. Lemmas relate that fold to `IPv4sOf`, the in-order list of
  IPv4 addresses of the interfaces with a given name. They also prove the error
  shape and that the base entries are never overwritten.
- `system_info.dfy` (`SystemInfo`): `get_system_resources`,
  `get_platform_info` and `get_request_info` as functions, and `get_all_info`
  as a method. `get_all_info` calls the two looping readers and then adds the
  request section. `get_hostname` and `get_environment_variables` are the
  `hostname` and `environment` inputs, copied verbatim into the snapshot.

Facts about the code that the model keeps:
- "FQDN" is the answer of `socket.getfqdn()` (app/system_info.py:79).
- "IP Address" is `socket.gethostbyname(hostname)` (app/system_info.py:74).
- "Remote Address" is `request.remote_addr`, which may be `None`
  (app/system_info.py:112).
- "CPU Count" is `psutil.cpu_count()`, an integer or `None`
  (app/system_info.py:58).
- The host name is read twice: by `get_hostname` for the top-level "hostname"
  (app/system_info.py:12, 122) and again inside the network reader
  (app/system_info.py:73). The model has one input for each reading.
- The readers run one after another, in the order of the dictionary literal
  (app/system_info.py:120-128).
- The Kubernetes reader returns `None` when its dictionary is empty
  (app/system_info.py:46). The model keeps that branch and proves it
  unreachable.

## Model

| member | source | states |
|---|---|---|
| `Values.StringMapRoundTrip` | app/system_info.py:114 | a string dictionary nested inside a result (such as `dict(request.headers)`) reads back as exactly the same keys and values |
| `Kubernetes.LabelsDistinct` | app/system_info.py:25-34 | the eight allowlist labels are pairwise distinct and none is "In Kubernetes", so no insertion overwrites another |
| `Kubernetes.KubernetesMetadata` | app/system_info.py:20-46 | the reader's loop builds the allowlist fold plus the presence field, and the result is never `None` |
| `Kubernetes.CollectAt` | app/system_info.py:36-39 | with distinct labels, an allowlist entry's label is collected exactly when its variable is set and non-empty, and it holds the variable's value |
| `Kubernetes.CollectKeys` | app/system_info.py:36-39 | the loop only ever adds allowlist labels |
| `Kubernetes.KubernetesFactsDescribed` | app/system_info.py:22-44 | "In Kubernetes" is always present and is "Yes" exactly when the secrets path exists, otherwise "No"; each of the eight labels is present exactly when its variable is set and non-empty, and then maps to its value; there are no other keys |
| `Kubernetes.KubernetesFactsNeverEmpty` | app/system_info.py:46 | the metadata dictionary always has at least one entry, so the `None` branch is unreachable |
| `Kubernetes.DescribesUnique` | app/system_info.py:22-44 | the reader's contract determines the dictionary: two dictionaries meeting it for the same environment are equal |
| `Kubernetes.PodOnlyScenario` | app/system_info.py:25-44 | with only POD_NAME=worker-1 and POD_NAMESPACE=default set and no secrets directory, the metadata is exactly {"Pod Name": "worker-1", "Pod Namespace": "default", "In Kubernetes": "No"} |
| `Network.NetworkInfo` | app/system_info.py:70-91 | the reader's nested loop over interfaces and addresses computes the fold `NetworkMap`: the base entries plus interface entries, or the one-key error dictionary |
| `Network.StoreAddressesAt` | app/system_info.py:85-87 | the inner loop stores the last IPv4 address of the list under "Interface <name>" and leaves every other key unchanged |
| `Network.StoreInterfacesAt` | app/system_info.py:83-87 | after the outer loop, an interface key holds the last IPv4 address, in list order, among interfaces of that name; every other key is as it was before the loop |
| `Network.IPv4AddressListed` | app/system_info.py:85-87 | every IPv4 address of an interface is among that interface's IPv4 addresses |
| `Network.EveryIPv4Listed` | app/system_info.py:84-87 | every IPv4 address in the interface list is among the IPv4 addresses of its interface's name |
| `Network.BaseKeysAreNotInterfaceKeys` | app/system_info.py:76-87 | "Hostname", "IP Address", "FQDN" and "Error" never start with "Interface " |
| `Network.ErrorShape` | app/system_info.py:72-91 | the result has an "Error" key exactly when a query raised, and then it is exactly {"Error": message}, with no other key surviving |
| `Network.BaseEntriesKept` | app/system_info.py:76-87 | on success, "Hostname", "IP Address" and "FQDN" hold the host name, the resolved address and the FQDN; interface entries never overwrite them |
| `Network.InterfaceEntry` | app/system_info.py:83-87 | on success, "Interface <name>" is present exactly when an interface of that name has an IPv4 address, and then holds the last one in list order |
| `Network.OnlyKnownKeys` | app/system_info.py:76-87 | on success, every key is a base key or the key of an interface that has an IPv4 address; other address families add no keys |
| `Network.IPv4YieldsEntry` | app/system_info.py:86-87 | on success, every IPv4 address in the interface list yields its interface's key |
| `SystemInfo.SystemResources` | app/system_info.py:49-67 | all or nothing: "Error" is present exactly when a reading failed, and then it is the only key; otherwise the keys are exactly the eight resource keys, each value the reading with its "%" or " GB" suffix, and the CPU count an integer or `None` |
| `SystemInfo.PlatformInfo` | app/system_info.py:94-104 | exactly the seven platform keys; "Processor" is never empty: it is the processor string, or "N/A" when that is empty; the other values are the platform strings unchanged |
| `SystemInfo.RequestInfo` | app/system_info.py:107-115 | exactly the five request keys; "User Agent" is the User-Agent header or "N/A" when it is absent; "Headers" reads back as the full header map; "Remote Address" is the client address or `None` |
| `SystemInfo.Snapshot` | app/system_info.py:120-128 | the snapshot always has exactly the seven keys timestamp, hostname, platform, environment, kubernetes, resources and network |
| `SystemInfo.AllInfo` | app/system_info.py:118-133 | the aggregator's dictionary is the seven-section snapshot, with the request section added when a request is supplied |
| `SystemInfo.WithRequestKeys` | app/system_info.py:130-133 | the result has the seven keys plus "request" exactly when a request is supplied; adding it leaves the seven sections unchanged |
| `SystemInfo.SnapshotSections` | app/system_info.py:120-128 | the platform, environment, Kubernetes and network sections read back as exactly their readers' dictionaries, with the environment copied verbatim |
| `SystemInfo.HostnameAgrees` | app/system_info.py:73-77 | when the network reader succeeds, its "Hostname" entry is its own `gethostname()` reading, and it equals the top-level "hostname" (app/system_info.py:12) exactly when the two readings are equal |

## Left out

- psutil readings (app/system_info.py:52-64): CPU load, core count, memory and disk figures are inputs. They arrive already rendered as the code renders them: `str` of the float for percentages, and bytes divided by 1024**3 with two decimals for sizes. Floating-point arithmetic and formatting are not modelled; the model adds the "%" and " GB" suffixes. Any psutil exception is a `Failed` reading carrying its message.
- Host queries are inputs. These are `socket.gethostname`, `socket.gethostbyname`, `socket.getfqdn`, `platform.*`, `os.environ` and `os.path.exists` on the Kubernetes secrets path.
- `gethostname` and `getfqdn` are treated as never raising. `get_all_info` calls `gethostname` outside any handler, and Python's `getfqdn` catches lookup errors itself. So only `gethostbyname` and `net_if_addrs` can put the network reader on its error path.
- The timestamp: `datetime.utcnow().isoformat()` is an input string. The model appends the "Z".
- Dictionary order: Dafny maps are unordered, so the order of JSON keys is not modelled. The iteration order of the allowlist and of the interface list is modelled, as sequences.
- Header lookup: the web framework's lookup is case-insensitive. The model assumes canonical header names and looks up "User-Agent" exactly.
- Unguarded exceptions: an exception escaping a reader that the code does not guard (platform, environment, hostname) is not modelled, because those queries are inputs.
- `app/main.py`: HTTP routing, template rendering, logging, configuration reads and the static health and readiness responses are not part of this model.
