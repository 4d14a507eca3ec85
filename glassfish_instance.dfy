/**
 * One GlassFish server instance: its name, the node it runs on and its eight
 * ports, which start as a contiguous block above a base port and are then
 * re-resolved against what is free on the node. The instance renders itself
 * in three text layouts: the cluster property lines, a port list and the
 * colon-separated record some ant scripts read.
 */
module GlassFishInstance {
  import opened Wrappers
  import opened JavaText
  import opened Nodes

  /** The eight ports of an instance, in the order the instance declares them. */
  datatype PortSet = PortSet(
    http: int, httpSsl: int, iiop: int, iiopSsl: int,
    iiopSslMutualauth: int, jmxSystemConnector: int, jmsProvider: int, asadmin: int)
  {
    function ToSeq(): (r: seq<int>)
      ensures |r| == 8
    {
      [http, httpSsl, iiop, iiopSsl, iiopSslMutualauth, jmxSystemConnector, jmsProvider, asadmin]
    }

    predicate AllInt32() {
      forall k :: 0 <= k < 8 ==> IsInt32(ToSeq()[k])
    }
  }

  /** The port names as they appear in the written files, in declared order. */
  const PortKeys: seq<string> := [
    "HTTP_LISTENER_PORT", "HTTP_SSL_LISTENER_PORT", "IIOP_LISTENER_PORT", "IIOP_SSL_LISTENER_PORT",
    "IIOP_SSL_MUTUALAUTH_PORT", "JMX_SYSTEM_CONNECTOR_PORT", "JMS_PROVIDER_PORT", "ASADMIN_LISTENER_PORT"]

  /** The port field names, as they appear in the port-probe diagnostics, in declared order. */
  const PortFields: seq<string> := [
    "http_listener_port", "http_ssl_listener_port", "iiop_listener_port", "iiop_ssl_listener_port",
    "iiop_ssl_mutualauth_port", "jmx_system_connector_port", "jms_provider_port", "asadmin_listener_port"]

  /** Number of ports in one instance's block. */
  const BlockSize: nat := 8

  /**
   * Everything an instance holds, as a value: the abstract state of an Instance.
   * clusterNode and s1asHome are None until the instance is placed on a node (Java null).
   */
  datatype InstanceVal = InstanceVal(
    name: string, nodeName: string, basePort: int, ports: PortSet,
    clusterNode: Option<ClusterNode>, s1asHome: Option<string>)

  /** The eight consecutive ports starting at base, in declared order. */
  function Block(base: int): (p: PortSet)
    ensures forall k :: 0 <= k < BlockSize ==> p.ToSeq()[k] == base + k
  {
    PortSet(base, base + 1, base + 2, base + 3, base + 4, base + 5, base + 6, base + 7)
  }

  /** The state the three-argument constructor leaves: not yet placed, ports a block at base. */
  function Fresh(name: string, base: int): InstanceVal {
    InstanceVal(name, "", base, Block(base), None, None)
  }

  /** The diagnostic label the k-th port's probe carries: "<name> <node>:<field>". */
  function ProbeLabel(v: InstanceVal, k: nat): string
    requires k < BlockSize
  {
    v.name + " " + v.nodeName + ":" + PortFields[k]
  }

  /**
   * The state after port resolution: each port replaced by what the probe oracle of
   * the instance's node answers for that port; nothing else changes.
   */
  function Probed(v: InstanceVal, probe: (Node, int, string) -> int): (r: InstanceVal)
    requires v.clusterNode.Some?
    ensures r.name == v.name && r.nodeName == v.nodeName && r.basePort == v.basePort
    ensures r.clusterNode == v.clusterNode && r.s1asHome == v.s1asHome
    ensures forall k :: 0 <= k < BlockSize ==>
      r.ports.ToSeq()[k] == probe(v.clusterNode.value.node, v.ports.ToSeq()[k], ProbeLabel(v, k))
  {
    var n := v.clusterNode.value.node;
    var p := v.ports;
    v.(ports := PortSet(
      probe(n, p.http, ProbeLabel(v, 0)),
      probe(n, p.httpSsl, ProbeLabel(v, 1)),
      probe(n, p.iiop, ProbeLabel(v, 2)),
      probe(n, p.iiopSsl, ProbeLabel(v, 3)),
      probe(n, p.iiopSslMutualauth, ProbeLabel(v, 4)),
      probe(n, p.jmxSystemConnector, ProbeLabel(v, 5)),
      probe(n, p.jmsProvider, ProbeLabel(v, 6)),
      probe(n, p.asadmin, ProbeLabel(v, 7))))
  }

  /** A GlassFish instance; the cluster updates its placement fields in place. */
  class Instance {
    var instanceName: string
    var nodeName: string
    var basePort: int
    var httpListenerPort: int
    var httpSslListenerPort: int
    var iiopListenerPort: int
    var iiopSslListenerPort: int
    var iiopSslMutualauthPort: int
    var jmxSystemConnectorPort: int
    var jmsProviderPort: int
    var asadminListenerPort: int
    var clusterNode: Option<ClusterNode>
    var s1asHome: Option<string>

    function Ports(): PortSet
      reads this
    {
      PortSet(httpListenerPort, httpSslListenerPort, iiopListenerPort, iiopSslListenerPort,
              iiopSslMutualauthPort, jmxSystemConnectorPort, jmsProviderPort, asadminListenerPort)
    }

    function Value(): InstanceVal
      reads this
    {
      InstanceVal(instanceName, nodeName, basePort, Ports(), clusterNode, s1asHome)
    }

    /** Allocates the eight ports upwards from basePort, one after the other. */
    constructor (instanceName: string, basePort: int)
      ensures Value() == Fresh(instanceName, basePort)
    {
      this.instanceName := instanceName;
      this.nodeName := "";
      this.basePort := basePort;
      var port := basePort;
      httpListenerPort := port;
      port := port + 1;
      httpSslListenerPort := port;
      port := port + 1;
      iiopListenerPort := port;
      port := port + 1;
      iiopSslListenerPort := port;
      port := port + 1;
      iiopSslMutualauthPort := port;
      port := port + 1;
      jmxSystemConnectorPort := port;
      port := port + 1;
      jmsProviderPort := port;
      port := port + 1;
      asadminListenerPort := port;
      clusterNode := None;
      s1asHome := None;
    }

    /** An instance read back from a cluster property file: everything taken as given. */
    constructor Restore(instanceName: string, nodeName: string, home: string, ports: PortSet)
      ensures Value() == InstanceVal(instanceName, nodeName, 0, ports, None, Some(home))
    {
      this.instanceName := instanceName;
      this.nodeName := nodeName;
      this.basePort := 0;
      httpListenerPort := ports.http;
      httpSslListenerPort := ports.httpSsl;
      iiopListenerPort := ports.iiop;
      iiopSslListenerPort := ports.iiopSsl;
      iiopSslMutualauthPort := ports.iiopSslMutualauth;
      jmxSystemConnectorPort := ports.jmxSystemConnector;
      jmsProviderPort := ports.jmsProvider;
      asadminListenerPort := ports.asadmin;
      clusterNode := None;
      s1asHome := Some(home);
    }

    /** Replaces each port, in declared order, by the port the node's probe reports as available. */
    method UpdatePerPortAvailability(probe: (Node, int, string) -> int)
      requires clusterNode.Some?
      modifies this
      ensures Value() == Probed(old(Value()), probe)
    {
      var n := clusterNode.value.node;
      var portName := instanceName + " " + nodeName + ":" + "http_listener_port";
      httpListenerPort := probe(n, httpListenerPort, portName);
      portName := instanceName + " " + nodeName + ":" + "http_ssl_listener_port";
      httpSslListenerPort := probe(n, httpSslListenerPort, portName);
      portName := instanceName + " " + nodeName + ":" + "iiop_listener_port";
      iiopListenerPort := probe(n, iiopListenerPort, portName);
      portName := instanceName + " " + nodeName + ":" + "iiop_ssl_listener_port";
      iiopSslListenerPort := probe(n, iiopSslListenerPort, portName);
      portName := instanceName + " " + nodeName + ":" + "iiop_ssl_mutualauth_port";
      iiopSslMutualauthPort := probe(n, iiopSslMutualauthPort, portName);
      portName := instanceName + " " + nodeName + ":" + "jmx_system_connector_port";
      jmxSystemConnectorPort := probe(n, jmxSystemConnectorPort, portName);
      portName := instanceName + " " + nodeName + ":" + "jms_provider_port";
      jmsProviderPort := probe(n, jmsProviderPort, portName);
      portName := instanceName + " " + nodeName + ":" + "asadmin_listener_port";
      asadminListenerPort := probe(n, asadminListenerPort, portName);
    }
  }

  /* ------------------------------------------------------------ renderers */

  /** "NAME=value" for each port, in declared order. */
  function PortEntries(v: InstanceVal): (r: seq<string>)
    ensures |r| == BlockSize
  {
    seq(BlockSize, k requires 0 <= k < BlockSize => KeyValue(PortKeys[k], IntToString(v.ports.ToSeq()[k])))
  }

  /** getPortList: the port entries joined by ':' and followed by one space. */
  function PortList(v: InstanceVal): string {
    Join(PortEntries(v), ':') + " "
  }

  /** A position in a port block. */
  type PortIndex = k: nat | k < 8

  /** The order in which the ant record lists the ports, as indexes into the declared order. */
  const AntSPortOrder: seq<PortIndex> := [0, 1, 3, 2, 5, 4, 6, 7]

  /** The fields of the ant record: node, the eight ports (iiop pairs and jmx/mutualauth swapped), name. */
  function AntSFields(v: InstanceVal): (r: seq<string>)
    ensures |r| == 10
  {
    var p := v.ports.ToSeq();
    [v.nodeName] + seq(BlockSize, k requires 0 <= k < BlockSize => IntToString(p[AntSPortOrder[k]])) + [v.name]
  }

  /** getPropsForAntS: the ant record's fields joined by ':'. */
  function PropsForAntS(v: InstanceVal): string {
    Join(AntSFields(v), ':')
  }

  /** The key suffixes of an instance's property lines, in written order. */
  const PropSuffixes: seq<string> := ["name", "node", "s1as.home"] + PortKeys

  /** "instance<id>." */
  function InstanceKeyPrefix(id: int): string {
    "instance" + IntToString(id) + "."
  }

  /** The eleven key/value pairs getProps writes for an instance numbered id. */
  function InstancePairs(v: InstanceVal, id: int): (r: seq<(string, string)>)
    requires v.clusterNode.Some?
    ensures |r| == |PropSuffixes|
  {
    var pre := InstanceKeyPrefix(id);
    [(pre + "name", v.name), (pre + "node", v.nodeName), (pre + "s1as.home", v.clusterNode.value.home)]
    + seq(BlockSize, k requires 0 <= k < BlockSize => (pre + PortKeys[k], IntToString(v.ports.ToSeq()[k])))
  }

  /** getProps: one newline-terminated "key=value" line per instance pair. */
  function Props(v: InstanceVal, id: int): string
    requires v.clusterNode.Some?
  {
    PropsText(InstancePairs(v, id))
  }

  /** toStr: "<name> on <node>", followed by ": " and the port list when verbose. */
  function ToStr(v: InstanceVal, verbose: bool): (r: string)
    ensures |r| >= |v.name| + 4 + |v.nodeName| && r[..|v.name| + 4] == v.name + " on "
    ensures !verbose ==> r[|v.name| + 4..] == v.nodeName
  {
    if verbose then v.name + " on " + v.nodeName + ": " + PortList(v)
    else v.name + " on " + v.nodeName
  }

  /* --------------------------------------------------------------- lemmas */

  /** The three-argument constructor yields the ports base, base+1, ..., base+7 and keeps base. */
  lemma FreshBlock(name: string, base: int)
    ensures Fresh(name, base).basePort == base && Fresh(name, base).name == name
    ensures forall k :: 0 <= k < BlockSize ==> Fresh(name, base).ports.ToSeq()[k] == base + k
  {
  }

  /** The verbose form extends the short one with ": " and the port list. */
  lemma ToStrVerboseExtends(v: InstanceVal)
    ensures ToStr(v, true) == ToStr(v, false) + ": " + PortList(v)
  {
  }

  lemma NoSepInIntToString(i: int, c: char)
    requires c != '-' && !IsDigit(c)
    ensures c !in IntToString(i)
  {
  }

  /** Upper-case letters and underscores only. */
  predicate KeyChars(s: string) {
    forall i :: 0 <= i < |s| ==> 'A' <= s[i] <= 'Z' || s[i] == '_'
  }

  lemma KeyCharsPlain(s: string, c: char)
    requires KeyChars(s) && !('A' <= c <= 'Z') && c != '_'
    ensures c !in s
  {
  }

  lemma PortKeysUpperLow()
    ensures KeyChars("HTTP_LISTENER_PORT") && KeyChars("HTTP_SSL_LISTENER_PORT")
    ensures KeyChars("IIOP_LISTENER_PORT") && KeyChars("IIOP_SSL_LISTENER_PORT")
  {
  }

  lemma PortKeysUpperHigh()
    ensures KeyChars("IIOP_SSL_MUTUALAUTH_PORT") && KeyChars("JMX_SYSTEM_CONNECTOR_PORT")
    ensures KeyChars("JMS_PROVIDER_PORT") && KeyChars("ASADMIN_LISTENER_PORT")
  {
  }

  lemma PortKeysUpper()
    ensures forall k :: 0 <= k < BlockSize ==> KeyChars(PortKeys[k])
  {
    PortKeysUpperLow();
    PortKeysUpperHigh();
  }

  lemma PortKeysPlain()
    ensures forall k :: 0 <= k < BlockSize ==>
      ':' !in PortKeys[k] && '=' !in PortKeys[k] && '\n' !in PortKeys[k]
  {
    PortKeysUpper();
    forall k | 0 <= k < BlockSize
      ensures ':' !in PortKeys[k] && '=' !in PortKeys[k] && '\n' !in PortKeys[k]
    {
      KeyCharsPlain(PortKeys[k], ':');
      KeyCharsPlain(PortKeys[k], '=');
      KeyCharsPlain(PortKeys[k], '\n');
    }
  }

  /** The port list reads back, field by field, as the eight NAME=value entries in declared order. */
  lemma PortListDecodes(v: InstanceVal)
    ensures var r := PortList(v);
      && |r| > 0 && r[|r| - 1] == ' '
      && var fields := Split(r[..|r| - 1], ':');
      && |fields| == BlockSize
      && forall k :: 0 <= k < BlockSize ==>
           SplitKeyValue(fields[k]) == (PortKeys[k], IntToString(v.ports.ToSeq()[k]))
  {
    var es := PortEntries(v);
    PortKeysPlain();
    forall k | 0 <= k < BlockSize ensures ':' !in es[k] && SplitKeyValue(es[k]) == (PortKeys[k], IntToString(v.ports.ToSeq()[k])) {
      NoSepInIntToString(v.ports.ToSeq()[k], ':');
      SplitKeyValueOfKeyValue(PortKeys[k], IntToString(v.ports.ToSeq()[k]));
    }
    var r := PortList(v);
    assert r[..|r| - 1] == Join(es, ':');
    SplitJoin(es, ':');
  }

  /**
   * The ant record has ten ':'-separated fields: the node, the ports in AntSPortOrder
   * (declared order with iiop/iiop_ssl and jmx/mutualauth swapped), and the name.
   */
  lemma PropsForAntSFields(v: InstanceVal)
    requires ':' !in v.nodeName && ':' !in v.name
    ensures var fields := Split(PropsForAntS(v), ':');
      && |fields| == 10
      && fields[0] == v.nodeName && fields[9] == v.name
      && forall k :: 0 <= k < BlockSize ==> fields[k + 1] == IntToString(v.ports.ToSeq()[AntSPortOrder[k]])
  {
    var parts := AntSFields(v);
    AntSFieldsAt(v);
    AntSFieldsFree(v, ':');
    SplitJoin(parts, ':');
  }

  /** Where each field of the ant record comes from. */
  lemma AntSFieldsAt(v: InstanceVal)
    ensures AntSFields(v)[0] == v.nodeName && AntSFields(v)[9] == v.name
    ensures forall k :: 0 <= k < BlockSize ==> AntSFields(v)[k + 1] == IntToString(v.ports.ToSeq()[AntSPortOrder[k]])
  {
  }

  /** A char that is no digit, no '-' and in neither name is in no field of the ant record. */
  lemma AntSFieldsFree(v: InstanceVal, c: char)
    requires c != '-' && !IsDigit(c) && c !in v.name && c !in v.nodeName
    ensures NoneContains(AntSFields(v), c)
  {
    var parts := AntSFields(v);
    var ports := v.ports.ToSeq();
    AntSFieldsAt(v);
    forall k | 0 <= k < |parts| ensures c !in parts[k] {
      if 0 < k < 9 {
        NoSepInIntToString(ports[AntSPortOrder[k - 1]], c);
      }
    }
  }

  /** The ant record's port order is the declared order with two adjacent pairs swapped. */
  lemma AntSPortOrderSwapsPairs()
    ensures forall k :: 0 <= k < BlockSize && k !in {2, 3, 4, 5} ==> AntSPortOrder[k] == k
    ensures AntSPortOrder[2] == 3 && AntSPortOrder[3] == 2 && AntSPortOrder[4] == 5 && AntSPortOrder[5] == 4
  {
  }

  /** What makes an instance's pairs survive writing and reading back. */
  predicate PlainText(v: InstanceVal) {
    && v.clusterNode.Some?
    && '\n' !in v.name && '\n' !in v.nodeName && '\n' !in v.clusterNode.value.home
  }

  /** Pair k of an instance is keyed by the prefix and suffix k, and holds the matching field. */
  lemma InstancePairsAt(v: InstanceVal, id: int)
    requires v.clusterNode.Some?
    ensures var r := InstancePairs(v, id);
      && (forall k :: 0 <= k < |PropSuffixes| ==> r[k].0 == InstanceKeyPrefix(id) + PropSuffixes[k])
      && r[0].1 == v.name && r[1].1 == v.nodeName && r[2].1 == v.clusterNode.value.home
      && forall k :: 0 <= k < BlockSize ==> r[k + 3].1 == IntToString(v.ports.ToSeq()[k])
  {
    var r := InstancePairs(v, id);
    var pre := InstanceKeyPrefix(id);
    forall k | 0 <= k < |PropSuffixes| ensures r[k].0 == pre + PropSuffixes[k] {
      if k >= 3 {
        assert PropSuffixes[k] == PortKeys[k - 3];
      }
    }
  }

  lemma InstancePairsWritable(v: InstanceVal, id: int)
    requires PlainText(v)
    ensures Writable(InstancePairs(v, id))
  {
    var r := InstancePairs(v, id);
    var pre := InstanceKeyPrefix(id);
    NoSepInIntToString(id, '=');
    NoSepInIntToString(id, '\n');
    PortKeysPlain();
    InstancePairsAt(v, id);
    forall k | 0 <= k < |r| ensures '=' !in r[k].0 && '\n' !in r[k].0 && '\n' !in r[k].1 {
      if k >= 3 {
        NoSepInIntToString(v.ports.ToSeq()[k - 3], '\n');
      }
    }
  }

  /**
   * getProps writes exactly eleven newline-terminated lines, keyed instance<id>.name,
   * .node, .s1as.home and then the eight port keys in declared order, with the
   * instance's name, node, home directory and ports as values.
   */
  lemma PropsDecodes(v: InstanceVal, id: int)
    requires PlainText(v)
    ensures var pairs := ParseProps(Props(v, id));
      && |pairs| == 11
      && (forall k :: 0 <= k < 11 ==> pairs[k].0 == InstanceKeyPrefix(id) + PropSuffixes[k])
      && pairs[0].1 == v.name && pairs[1].1 == v.nodeName && pairs[2].1 == v.clusterNode.value.home
      && forall k :: 0 <= k < BlockSize ==> pairs[k + 3].1 == IntToString(v.ports.ToSeq()[k])
  {
    InstancePairsWritable(v, id);
    ParsePropsText(InstancePairs(v, id));
    InstancePairsAt(v, id);
  }
}
