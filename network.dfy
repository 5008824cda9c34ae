/**
 * The network reader (`get_network_info`): three base entries from socket
 * queries, then one "Interface <name>" entry per IPv4 address psutil reports,
 * visiting interfaces and their addresses in order. Any query that raises
 * collapses the whole result to the one-key dictionary {"Error": message}.
 * The socket and psutil answers are inputs.
 */
module Network {
  import opened Values

  /** Address families psutil reports for an interface; only `Inet` (AF_INET) is IPv4. */
  datatype Family = Inet | Inet6 | Link

  datatype Address = Address(family: Family, address: string)

  /** One entry of `psutil.net_if_addrs()`: an interface name and its addresses, in order. */
  datatype Interface = Interface(name: string, addresses: seq<Address>)

  /** What the reader's host queries answer, in the order it makes them. */
  datatype NetworkQueries = NetworkQueries(
    hostname: string,                     // socket.gethostname()
    resolved: Result<string>,             // socket.gethostbyname(hostname)
    fqdn: string,                         // socket.getfqdn()
    interfaces: Result<seq<Interface>>)   // psutil.net_if_addrs(), in its iteration order

  const InterfacePrefix: string := "Interface "

  function InterfaceKey(name: string): string
  {
    InterfacePrefix + name
  }

  predicate IsInterfaceKey(k: string)
  {
    |InterfacePrefix| <= |k| && k[..|InterfacePrefix|] == InterfacePrefix
  }

  /** The interface name an interface key was made from. */
  function InterfaceName(k: string): string
    requires IsInterfaceKey(k)
  {
    k[|InterfacePrefix|..]
  }

  const BaseKeys: set<string> := {"Hostname", "IP Address", "FQDN"}

  function BaseEntries(hostname: string, ip: string, fqdn: string): map<string, string>
  {
    map["Hostname" := hostname, "IP Address" := ip, "FQDN" := fqdn]
  }

  /** The dictionary after the inner loop has visited `addrs` of interface `name`. */
  function StoreAddresses(m: map<string, string>, name: string, addrs: seq<Address>): map<string, string>
    decreases |addrs|
  {
    if addrs == [] then m
    else
      var before := StoreAddresses(m, name, addrs[..|addrs| - 1]);
      var a := addrs[|addrs| - 1];
      if a.family == Inet then before[InterfaceKey(name) := a.address] else before
  }

  /** The dictionary after the outer loop has visited `ifaces`. */
  function StoreInterfaces(m: map<string, string>, ifaces: seq<Interface>): map<string, string>
    decreases |ifaces|
  {
    if ifaces == [] then m
    else
      var last := ifaces[|ifaces| - 1];
      StoreAddresses(StoreInterfaces(m, ifaces[..|ifaces| - 1]), last.name, last.addresses)
  }

  /** The message of the first query that raises, if any does. */
  function FirstFailure(q: NetworkQueries): Option<string>
  {
    if q.resolved.Failed? then Some(q.resolved.message)
    else if q.interfaces.Failed? then Some(q.interfaces.message)
    else None
  }

  /** The dictionary the reader returns. */
  function NetworkMap(q: NetworkQueries): map<string, string>
  {
    match FirstFailure(q)
    case Some(message) => map["Error" := message]
    case None => StoreInterfaces(BaseEntries(q.hostname, q.resolved.value, q.fqdn), q.interfaces.value)
  }

  /** The reader, with its two nested loops over interfaces and their addresses. */
  method NetworkInfo(q: NetworkQueries) returns (info: map<string, string>)
    ensures info == NetworkMap(q)
  {
    if q.resolved.Failed? {
      return map["Error" := q.resolved.message];
    }
    var base := BaseEntries(q.hostname, q.resolved.value, q.fqdn);
    info := base;
    if q.interfaces.Failed? {
      return map["Error" := q.interfaces.message];
    }
    var ifaces := q.interfaces.value;
    for i := 0 to |ifaces|
      invariant info == StoreInterfaces(base, ifaces[..i])
    {
      var iface := ifaces[i];
      ghost var before := info;
      for j := 0 to |iface.addresses|
        invariant info == StoreAddresses(before, iface.name, iface.addresses[..j])
      {
        var addr := iface.addresses[j];
        if addr.family == Inet {
          info := info[InterfaceKey(iface.name) := addr.address];
        }
        assert iface.addresses[..j + 1][..j] == iface.addresses[..j];
      }
      assert iface.addresses[..|iface.addresses|] == iface.addresses;
      assert ifaces[..i + 1][..i] == ifaces[..i];
    }
    assert ifaces[..|ifaces|] == ifaces;
  }

  // A declarative account of which addresses end up in the dictionary.

  /** The IPv4 addresses among `addrs`, in order. */
  function IPv4Addresses(addrs: seq<Address>): seq<string>
    decreases |addrs|
  {
    if addrs == [] then []
    else
      var a := addrs[|addrs| - 1];
      IPv4Addresses(addrs[..|addrs| - 1]) + if a.family == Inet then [a.address] else []
  }

  /** The IPv4 addresses of every interface called `name`, in list order. */
  function IPv4sOf(ifaces: seq<Interface>, name: string): seq<string>
    decreases |ifaces|
  {
    if ifaces == [] then []
    else
      var last := ifaces[|ifaces| - 1];
      IPv4sOf(ifaces[..|ifaces| - 1], name) + if last.name == name then IPv4Addresses(last.addresses) else []
  }

  lemma InterfaceKeyParts(name: string)
    ensures IsInterfaceKey(InterfaceKey(name)) && InterfaceName(InterfaceKey(name)) == name
  {
    assert InterfaceKey(name)[..|InterfacePrefix|] == InterfacePrefix;
  }

  lemma InterfaceKeyOfName(k: string)
    requires IsInterfaceKey(k)
    ensures InterfaceKey(InterfaceName(k)) == k
  {
    assert k == k[..|InterfacePrefix|] + k[|InterfacePrefix|..];
  }

  /** The inner loop stores the last IPv4 address of `addrs` under the interface's key and touches nothing else. */
  lemma {:induction false} StoreAddressesAt(m: map<string, string>, name: string, addrs: seq<Address>, k: string)
    ensures var r := StoreAddresses(m, name, addrs);
            var ips := IPv4Addresses(addrs);
            if k == InterfaceKey(name) && ips != [] then k in r && r[k] == ips[|ips| - 1]
            else (k in r <==> k in m) && (k in m ==> r[k] == m[k])
    decreases |addrs|
  {
    if addrs != [] {
      StoreAddressesAt(m, name, addrs[..|addrs| - 1], k);
    }
  }

  /**
   * After the outer loop, an interface key holds the last IPv4 address of the
   * interfaces of that name, in list order; every other key is as it was.
   */
  lemma {:induction false} StoreInterfacesAt(m: map<string, string>, ifaces: seq<Interface>, k: string)
    ensures var r := StoreInterfaces(m, ifaces);
            if IsInterfaceKey(k) && IPv4sOf(ifaces, InterfaceName(k)) != [] then
              var ips := IPv4sOf(ifaces, InterfaceName(k));
              k in r && r[k] == ips[|ips| - 1]
            else (k in r <==> k in m) && (k in m ==> r[k] == m[k])
    decreases |ifaces|
  {
    if ifaces != [] {
      var pre := ifaces[..|ifaces| - 1];
      var last := ifaces[|ifaces| - 1];
      StoreInterfacesAt(m, pre, k);
      StoreAddressesAt(StoreInterfaces(m, pre), last.name, last.addresses, k);
      InterfaceKeyParts(last.name);
      if IsInterfaceKey(k) {
        InterfaceKeyOfName(k);
      }
    }
  }

  /** Every IPv4 address the interface list reports is among the addresses of its interface's name. */
  lemma {:induction false} EveryIPv4Listed(ifaces: seq<Interface>, i: nat, j: nat)
    requires i < |ifaces| && j < |ifaces[i].addresses|
    requires ifaces[i].addresses[j].family == Inet
    ensures ifaces[i].addresses[j].address in IPv4sOf(ifaces, ifaces[i].name)
    decreases |ifaces|
  {
    var pre := ifaces[..|ifaces| - 1];
    if i < |ifaces| - 1 {
      assert pre[i] == ifaces[i];
      EveryIPv4Listed(pre, i, j);
    } else {
      IPv4AddressListed(ifaces[i].addresses, j);
    }
  }

  lemma {:induction false} IPv4AddressListed(addrs: seq<Address>, j: nat)
    requires j < |addrs| && addrs[j].family == Inet
    ensures addrs[j].address in IPv4Addresses(addrs)
    decreases |addrs|
  {
    if j < |addrs| - 1 {
      assert addrs[..|addrs| - 1][j] == addrs[j];
      IPv4AddressListed(addrs[..|addrs| - 1], j);
    }
  }

  lemma BaseKeysAreNotInterfaceKeys()
    ensures forall k :: k in BaseKeys ==> !IsInterfaceKey(k)
    ensures !IsInterfaceKey("Error")
  {
    assert "IP Address"[..|InterfacePrefix|][1] != InterfacePrefix[1];
  }

  /**
   * The error shape: the dictionary has an "Error" key exactly when a query
   * raised, and then that is its only key.
   */
  lemma ErrorShape(q: NetworkQueries)
    ensures "Error" in NetworkMap(q) <==> FirstFailure(q).Some?
    ensures FirstFailure(q).Some? ==> NetworkMap(q) == map["Error" := FirstFailure(q).value]
  {
    if FirstFailure(q).None? {
      BaseKeysAreNotInterfaceKeys();
      StoreInterfacesAt(BaseEntries(q.hostname, q.resolved.value, q.fqdn), q.interfaces.value, "Error");
    }
  }

  /** Interface entries never overwrite the three base entries. */
  lemma BaseEntriesKept(q: NetworkQueries)
    requires FirstFailure(q).None?
    ensures var r := NetworkMap(q);
            && "Hostname" in r && r["Hostname"] == q.hostname
            && "IP Address" in r && r["IP Address"] == q.resolved.value
            && "FQDN" in r && r["FQDN"] == q.fqdn
  {
    var base := BaseEntries(q.hostname, q.resolved.value, q.fqdn);
    BaseKeysAreNotInterfaceKeys();
    StoreInterfacesAt(base, q.interfaces.value, "Hostname");
    StoreInterfacesAt(base, q.interfaces.value, "IP Address");
    StoreInterfacesAt(base, q.interfaces.value, "FQDN");
  }

  /**
   * "Interface <name>" is present exactly when some interface of that name has
   * an IPv4 address, and then it holds the last such address in list order.
   */
  lemma InterfaceEntry(q: NetworkQueries, name: string)
    requires FirstFailure(q).None?
    ensures var r := NetworkMap(q);
            var ips := IPv4sOf(q.interfaces.value, name);
            && (InterfaceKey(name) in r <==> ips != [])
            && (ips != [] ==> r[InterfaceKey(name)] == ips[|ips| - 1])
  {
    var base := BaseEntries(q.hostname, q.resolved.value, q.fqdn);
    InterfaceKeyParts(name);
    BaseKeysAreNotInterfaceKeys();
    StoreInterfacesAt(base, q.interfaces.value, InterfaceKey(name));
  }

  /** Apart from the base entries, every key names an interface that has an IPv4 address. */
  lemma OnlyKnownKeys(q: NetworkQueries)
    requires FirstFailure(q).None?
    ensures forall k :: k in NetworkMap(q) ==>
              k in BaseKeys || (IsInterfaceKey(k) && IPv4sOf(q.interfaces.value, InterfaceName(k)) != [])
  {
    var base := BaseEntries(q.hostname, q.resolved.value, q.fqdn);
    forall k | k in NetworkMap(q)
      ensures k in BaseKeys || (IsInterfaceKey(k) && IPv4sOf(q.interfaces.value, InterfaceName(k)) != [])
    {
      StoreInterfacesAt(base, q.interfaces.value, k);
    }
  }

  /** Every IPv4 address an interface reports yields that interface's key. */
  lemma IPv4YieldsEntry(q: NetworkQueries, i: nat, j: nat)
    requires FirstFailure(q).None?
    requires i < |q.interfaces.value| && j < |q.interfaces.value[i].addresses|
    requires q.interfaces.value[i].addresses[j].family == Inet
    ensures InterfaceKey(q.interfaces.value[i].name) in NetworkMap(q)
  {
    EveryIPv4Listed(q.interfaces.value, i, j);
    InterfaceEntry(q, q.interfaces.value[i].name);
  }
}
