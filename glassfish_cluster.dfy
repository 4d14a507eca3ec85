/**
 * A GlassFish cluster plan: the map from instance names to instances, the
 * nodes the instances run on (the DAS node first), and the text forms the plan
 * is written in and read back from.
 *
 * The Java HashMap's iteration order is a parameter `order` that lists the map's
 * keys once each; nothing is assumed about which order it is. The randomness of
 * the node shuffle is the `draws` parameter, the installers' home directories
 * the `homeOf` oracle and the port probe the `probe` oracle.
 */
module GlassFishCluster {
  import opened Wrappers
  import opened JavaText
  import opened Nodes
  import opened GlassFishInstance
  import opened NodeSelection

  /** The DAS administration port, written into the plan as das_port. */
  const DasAdminPort: int := 4848

  /** The base ports of consecutive auto-assigned instances are this far apart. */
  const PortStride: int := 0x100

  /* ---------------------------------------------------------- map helpers */

  /** order lists every key of keys exactly once: one HashMap iteration order. */
  predicate Enumerates(order: seq<string>, keys: set<string>) {
    && (forall i, j :: 0 <= i < j < |order| ==> order[i] != order[j])
    && (forall k :: k in order ==> k in keys)
    && (forall k :: k in keys ==> k in order)
  }

  /** Where x first occurs in s. */
  function Position(s: seq<string>, x: string): (i: nat)
    requires x in s
    ensures i < |s| && s[i] == x && x !in s[..i]
  {
    if s[0] == x then 0 else 1 + Position(s[1..], x)
  }

  lemma PositionOfDistinct(s: seq<string>, j: nat)
    requires j < |s| && forall a, b :: 0 <= a < b < |s| ==> s[a] != s[b]
    ensures Position(s, s[j]) == j
  {
  }

  /** The smaller of a and b. */
  function Min(a: int, b: int): (r: int)
    ensures r <= a && r <= b && (r == a || r == b)
  {
    if a <= b then a else b
  }

  /** Java's rendering of a possibly-null string in a concatenation. */
  function NullText(s: Option<string>): string {
    if s.None? then "null" else s.value
  }

  /* ------------------------------------------------------------- auto map */

  /** The name of the i-th auto-assigned instance: the prefix followed by i. */
  function AutoName(prefix: string, i: int): string {
    prefix + IntToString(i)
  }

  /** The instances createAutoAssignedClusterMap puts, 1..n, each a fresh block PortStride above the last. */
  function AutoMap(prefix: string, base: int, n: int): map<string, InstanceVal>
    decreases n
  {
    if n <= 0 then map[]
    else AutoMap(prefix, base, n - 1)[AutoName(prefix, n) := Fresh(AutoName(prefix, n), base + (n - 1) * PortStride)]
  }

  lemma AutoNameInjective(prefix: string, i: int, j: int)
    requires AutoName(prefix, i) == AutoName(prefix, j)
    ensures i == j
  {
    assert IntToString(i) == AutoName(prefix, i)[|prefix|..];
    assert IntToString(j) == AutoName(prefix, j)[|prefix|..];
    IntToStringInjective(i, j);
  }

  /** Every key of the auto map is prefix<i> for some 1 <= i <= n. */
  lemma {:induction false} AutoMapKeys(prefix: string, base: int, n: int)
    ensures forall k :: k in AutoMap(prefix, base, n) ==> exists i :: 1 <= i <= n && k == AutoName(prefix, i)
  {
    if n > 0 {
      AutoMapKeys(prefix, base, n - 1);
    }
  }

  /** The n-th auto name is not among the first n-1. */
  lemma AutoNameFresh(prefix: string, base: int, n: int)
    requires n > 0
    ensures AutoName(prefix, n) !in AutoMap(prefix, base, n - 1)
  {
    AutoMapKeys(prefix, base, n - 1);
    if AutoName(prefix, n) in AutoMap(prefix, base, n - 1) {
      var i :| 1 <= i <= n - 1 && AutoName(prefix, n) == AutoName(prefix, i);
      AutoNameInjective(prefix, i, n);
    }
  }

  /** Instance prefix<i>, for 1 <= i <= n, is fresh with base port base + (i-1)*0x100. */
  lemma {:induction false} AutoMapValues(prefix: string, base: int, n: int)
    ensures forall i :: 1 <= i <= n ==>
      AutoName(prefix, i) in AutoMap(prefix, base, n)
      && AutoMap(prefix, base, n)[AutoName(prefix, i)] == Fresh(AutoName(prefix, i), base + (i - 1) * PortStride)
  {
    if n > 0 {
      AutoMapValues(prefix, base, n - 1);
      forall i | 1 <= i < n ensures AutoName(prefix, i) != AutoName(prefix, n) {
        if AutoName(prefix, i) == AutoName(prefix, n) {
          AutoNameInjective(prefix, i, n);
        }
      }
    }
  }

  /** The auto map has n entries (none when n <= 0). */
  lemma {:induction false} AutoMapSize(prefix: string, base: int, n: int)
    ensures |AutoMap(prefix, base, n)| == if n <= 0 then 0 else n
  {
    if n > 0 {
      AutoMapSize(prefix, base, n - 1);
      AutoNameFresh(prefix, base, n);
    }
  }

  /** Putting the i-th auto-assigned instance into a map that holds the first i-1 on top of m. */
  lemma AutoMapStep(now: map<string, InstanceVal>, before: map<string, InstanceVal>, m: map<string, InstanceVal>,
                    prefix: string, base: int, i: int, key: string, port: int)
    requires i >= 1 && key == AutoName(prefix, i) && port == base + (i - 1) * PortStride
    requires before == m + AutoMap(prefix, base, i - 1)
    requires now == before[key := Fresh(key, port)]
    ensures now == m + AutoMap(prefix, base, i)
  {
  }

  /* ----------------------------------------------------------- overrides */

  /** Every custom entry's value is an integer. */
  predicate AllParse(custom: map<string, string>) {
    forall k :: k in custom ==> ParseInt(custom[k]).Some?
  }

  /** The instances the custom entries define: one fresh block per entry whose value is an integer. */
  function Overrides(custom: map<string, string>): map<string, InstanceVal> {
    map k | k in custom && ParseInt(custom[k]).Some? :: Fresh(k, ParseInt(custom[k]).value)
  }

  /** The custom entries whose key is among ks. */
  function Restrict(custom: map<string, string>, ks: seq<string>): (r: map<string, string>)
    ensures forall k :: k in r <==> k in custom && k in ks
    ensures forall k :: k in r ==> r[k] == custom[k]
  {
    map k | k in custom && k in ks :: custom[k]
  }

  /**
   * Merging overrides: each key with an integer value maps to a fresh block at that
   * value, every other key keeps its instance, and merging the same entries again
   * changes nothing.
   */
  lemma MergeOverrides(m: map<string, InstanceVal>, custom: map<string, string>)
    ensures forall k :: k in custom && ParseInt(custom[k]).Some? ==>
      k in m + Overrides(custom) && (m + Overrides(custom))[k] == Fresh(k, ParseInt(custom[k]).value)
    ensures forall k :: k in m && (k !in custom || ParseInt(custom[k]).None?) ==>
      k in m + Overrides(custom) && (m + Overrides(custom))[k] == m[k]
    ensures (m + Overrides(custom)).Keys == m.Keys + (set k | k in custom && ParseInt(custom[k]).Some?)
    ensures (m + Overrides(custom)) + Overrides(custom) == m + Overrides(custom)
  {
  }

  lemma RestrictAll(custom: map<string, string>, order: seq<string>)
    requires Enumerates(order, custom.Keys)
    ensures Restrict(custom, order) == custom
  {
  }

  /** The entries restricted to order[..j+1] are those of order[..j] plus entry order[j], which is new. */
  lemma RestrictSnoc(custom: map<string, string>, order: seq<string>, j: nat)
    requires Enumerates(order, custom.Keys) && j < |order|
    ensures order[j] !in Restrict(custom, order[..j])
    ensures Restrict(custom, order[..j + 1]) == Restrict(custom, order[..j])[order[j] := custom[order[j]]]
  {
    assert order[..j + 1] == order[..j] + [order[j]];
    assert forall t :: 0 <= t < j ==> order[..j][t] != order[j];
  }

  /** Adding one entry adds its instance to the overrides when its value is an integer, and nothing otherwise. */
  lemma OverridesPut(a: map<string, string>, k: string, v: string)
    requires k !in a
    ensures ParseInt(v).Some? ==> Overrides(a[k := v]) == Overrides(a)[k := Fresh(k, ParseInt(v).value)]
    ensures ParseInt(v).None? ==> Overrides(a[k := v]) == Overrides(a)
  {
  }

  lemma AllParsePut(a: map<string, string>, k: string, v: string)
    ensures AllParse(a[k := v]) <==> AllParse(a - {k}) && ParseInt(v).Some?
  {
    if AllParse(a - {k}) && ParseInt(v).Some? {
      var b := a[k := v];
      forall x | x in b ensures ParseInt(b[x]).Some? {
        if x != k {
          assert x in a - {k};
        }
      }
    }
    if AllParse(a[k := v]) {
      assert a[k := v][k] == v;
      forall x | x in a - {k} ensures ParseInt((a - {k})[x]).Some? {
        assert x in a[k := v];
      }
    }
  }

  lemma UnionPut(m: map<string, InstanceVal>, x: map<string, InstanceVal>, k: string, v: InstanceVal)
    ensures m + x[k := v] == (m + x)[k := v]
  {
  }

  /** Taking the entry order[j] into the overrides applied so far. */
  lemma OverridesStep(now: map<string, InstanceVal>, before: map<string, InstanceVal>, m: map<string, InstanceVal>,
                      custom: map<string, string>, order: seq<string>, j: nat)
    requires Enumerates(order, custom.Keys) && j < |order|
    requires before == m + Overrides(Restrict(custom, order[..j]))
    requires ParseInt(custom[order[j]]).Some? ==>
      now == before[order[j] := Fresh(order[j], ParseInt(custom[order[j]]).value)]
    requires ParseInt(custom[order[j]]).None? ==> now == before
    ensures now == m + Overrides(Restrict(custom, order[..j + 1]))
    ensures AllParse(Restrict(custom, order[..j + 1])) <==>
      AllParse(Restrict(custom, order[..j])) && ParseInt(custom[order[j]]).Some?
  {
    var k := order[j];
    var v := custom[k];
    var a := Restrict(custom, order[..j]);
    RestrictSnoc(custom, order, j);
    OverridesPut(a, k, v);
    AllParsePut(a, k, v);
    assert a - {k} == a;
    if ParseInt(v).Some? {
      UnionPut(m, Overrides(a), k, Fresh(k, ParseInt(v).value));
    }
  }

  /* ------------------------------------------------------------ placement */

  /** An instance placed on cn: runs on its node, with its installation's home directory. */
  function PlacedOn(v: InstanceVal, cn: ClusterNode): (r: InstanceVal)
    ensures r.name == v.name && r.basePort == v.basePort && r.ports == v.ports
    ensures r.clusterNode == Some(cn) && r.nodeName == cn.node.name && r.s1asHome == Some(cn.home)
  {
    v.(clusterNode := Some(cn), nodeName := cn.node.name, s1asHome := Some(cn.home))
  }

  /** Round-robin placement: the j-th instance in order goes to nodes[j mod numNodes]. */
  function Placement(view: map<string, InstanceVal>, order: seq<string>, nodes: seq<ClusterNode>, numNodes: int)
    : (r: map<string, InstanceVal>)
    requires Enumerates(order, view.Keys)
    requires |view| == 0 || (1 <= numNodes <= |nodes|)
    ensures r.Keys == view.Keys
  {
    map k | k in view :: PlacedOn(view[k], nodes[Position(order, k) % numNodes])
  }

  lemma PlacementAt(view: map<string, InstanceVal>, order: seq<string>, nodes: seq<ClusterNode>, numNodes: int, j: nat)
    requires Enumerates(order, view.Keys)
    requires 1 <= numNodes <= |nodes|
    requires j < |order|
    ensures Placement(view, order, nodes, numNodes)[order[j]] == PlacedOn(view[order[j]], nodes[j % numNodes])
  {
    PositionOfDistinct(order, j);
  }

  lemma ModSmall(h: int, m: int)
    requires 0 <= h < m
    ensures h % m == h
  {
  }

  /** The j-th instance of the iteration order lands on node j mod numNodes, keeping its name and ports. */
  lemma PlacementRoundRobin(view: map<string, InstanceVal>, order: seq<string>, nodes: seq<ClusterNode>, numNodes: int)
    requires Enumerates(order, view.Keys)
    requires 1 <= numNodes <= |nodes|
    ensures forall j :: 0 <= j < |order| ==>
      Placement(view, order, nodes, numNodes)[order[j]] == PlacedOn(view[order[j]], nodes[j % numNodes])
  {
    forall j | 0 <= j < |order|
      ensures Placement(view, order, nodes, numNodes)[order[j]] == PlacedOn(view[order[j]], nodes[j % numNodes])
    {
      PlacementAt(view, order, nodes, numNodes, j);
    }
  }

  /** The first instance of the iteration order lands on the first node, the DAS node. */
  lemma PlacementFirstOnDas(view: map<string, InstanceVal>, order: seq<string>, nodes: seq<ClusterNode>, numNodes: int)
    requires Enumerates(order, view.Keys)
    requires 1 <= numNodes <= |nodes|
    ensures |order| > 0 ==> Placement(view, order, nodes, numNodes)[order[0]].clusterNode == Some(nodes[0])
  {
    if |order| > 0 {
      PlacementAt(view, order, nodes, numNodes, 0);
    }
  }

  /** With at least numNodes instances, each of the numNodes reserved nodes receives one. */
  lemma PlacementUsesEveryNode(view: map<string, InstanceVal>, order: seq<string>, nodes: seq<ClusterNode>, numNodes: int)
    requires Enumerates(order, view.Keys)
    requires 1 <= numNodes <= |nodes|
    ensures numNodes <= |order| ==> forall h :: 0 <= h < numNodes ==>
      Placement(view, order, nodes, numNodes)[order[h]].clusterNode == Some(nodes[h])
  {
    forall h | 0 <= h < numNodes && h < |order|
      ensures Placement(view, order, nodes, numNodes)[order[h]].clusterNode == Some(nodes[h])
    {
      PlacementAt(view, order, nodes, numNodes, h);
      ModSmall(h, numNodes);
    }
  }

  /** The placement after the first j instances of the iteration order are placed. */
  function PlacedPrefix(view: map<string, InstanceVal>, order: seq<string>, nodes: seq<ClusterNode>, numNodes: int, j: nat)
    : (r: map<string, InstanceVal>)
    requires Enumerates(order, view.Keys)
    requires 1 <= numNodes <= |nodes|
    ensures r.Keys == view.Keys
  {
    map k | k in view :: if Position(order, k) < j then PlacedOn(view[k], nodes[Position(order, k) % numNodes]) else view[k]
  }

  lemma PlacedPrefixNone(view: map<string, InstanceVal>, order: seq<string>, nodes: seq<ClusterNode>, numNodes: int)
    requires Enumerates(order, view.Keys)
    requires 1 <= numNodes <= |nodes|
    ensures PlacedPrefix(view, order, nodes, numNodes, 0) == view
  {
  }

  lemma PlacedPrefixAll(view: map<string, InstanceVal>, order: seq<string>, nodes: seq<ClusterNode>, numNodes: int)
    requires Enumerates(order, view.Keys)
    requires 1 <= numNodes <= |nodes|
    ensures PlacedPrefix(view, order, nodes, numNodes, |order|) == Placement(view, order, nodes, numNodes)
  {
  }

  /** Placing instance order[j] on node j mod numNodes extends the placed prefix by one. */
  lemma PlacedPrefixStep(now: map<string, InstanceVal>, before: map<string, InstanceVal>, view: map<string, InstanceVal>,
                         order: seq<string>, nodes: seq<ClusterNode>, numNodes: int, j: nat, key: string, cn: ClusterNode)
    requires Enumerates(order, view.Keys)
    requires 1 <= numNodes <= |nodes|
    requires j < |order| && key == order[j] && cn == nodes[j % numNodes]
    requires before == PlacedPrefix(view, order, nodes, numNodes, j)
    requires now == before[key := PlacedOn(before[key], cn)]
    ensures now == PlacedPrefix(view, order, nodes, numNodes, j + 1)
  {
    var next := PlacedPrefix(view, order, nodes, numNodes, j + 1);
    forall k | k in now ensures now[k] == next[k] {
      PlacedPrefixAt(view, order, nodes, numNodes, j, k);
    }
    assert now.Keys == next.Keys;
  }

  /** Between prefixes j and j+1 only the instance order[j] changes: it is placed on nodes[j mod numNodes]. */
  lemma PlacedPrefixAt(view: map<string, InstanceVal>, order: seq<string>, nodes: seq<ClusterNode>, numNodes: int,
                       j: nat, k: string)
    requires Enumerates(order, view.Keys)
    requires 1 <= numNodes <= |nodes|
    requires j < |order| && k in view
    ensures PlacedPrefix(view, order, nodes, numNodes, j + 1)[k]
         == if k == order[j] then PlacedOn(PlacedPrefix(view, order, nodes, numNodes, j)[k], nodes[j % numNodes])
            else PlacedPrefix(view, order, nodes, numNodes, j)[k]
  {
    var p := Position(order, k);
    if k == order[j] {
      PositionOfDistinct(order, j);
    } else {
      assert p != j;
    }
  }

  lemma MulAtLeast(k: int, n: int)
    requires n >= 1
    ensures k >= 1 ==> k * n >= n
    ensures k <= -1 ==> k * n <= -n
  {
  }

  /** a % n is the remainder of any division of a by n. */
  lemma ModUnique(a: int, n: int, q: int, r: int)
    requires n >= 1 && 0 <= r < n && a == q * n + r
    ensures a % n == r
  {
    var q' := a / n;
    assert (q' - q) * n == r - a % n;
    MulAtLeast(q' - q, n);
  }

  lemma ModNext(j: nat, n: int)
    requires n >= 1
    ensures (j % n + 1) % n == (j + 1) % n
  {
    var q := j / n;
    var r := j % n;
    assert j == q * n + r;
    if r + 1 < n {
      ModUnique(j + 1, n, q, r + 1);
      ModUnique(r + 1, n, 0, r + 1);
    } else {
      ModUnique(j + 1, n, q + 1, 0);
      ModUnique(r + 1, n, 1, 0);
    }
  }

  /** The cluster nodes that the selected slaves become. */
  function Hosts(selected: seq<Node>, homeOf: Node -> string): (r: seq<ClusterNode>)
    ensures |r| == |selected|
    ensures forall i :: 0 <= i < |r| ==> r[i] == ClusterNode(selected[i], homeOf(selected[i]))
  {
    seq(|selected|, i requires 0 <= i < |selected| => ClusterNode(selected[i], homeOf(selected[i])))
  }

  /** The hosts reserved for a selection never include the node that runs the build. */
  lemma HostsAvoidCurrent(random: seq<Node>, current: Node, numNodes: int, homeOf: Node -> string)
    ensures forall h :: h in Hosts(Selection(random, current, numNodes), homeOf) ==> h.node != current
  {
    var sel := Selection(random, current, numNodes);
    SelectionOf(random, current, numNodes);
    forall h | h in Hosts(sel, homeOf) ensures h.node != current {
      var i :| 0 <= i < |sel| && Hosts(sel, homeOf)[i] == h;
      assert sel[i] in sel;
    }
  }

  /* ----------------------------------------------------------- port probe */

  predicate AllPlaced(view: map<string, InstanceVal>) {
    forall k :: k in view ==> view[k].clusterNode.Some?
  }

  /** Every instance's ports re-resolved by the probe. */
  function ProbedAll(view: map<string, InstanceVal>, probe: (Node, int, string) -> int): (r: map<string, InstanceVal>)
    requires AllPlaced(view)
    ensures r.Keys == view.Keys
  {
    map k | k in view :: Probed(view[k], probe)
  }

  /** Two maps over the keys order lists that agree at every position of order are equal. */
  lemma AgreeOnOrder(a: map<string, InstanceVal>, b: map<string, InstanceVal>, order: seq<string>)
    requires Enumerates(order, a.Keys) && a.Keys == b.Keys
    requires forall t :: 0 <= t < |order| ==> a[order[t]] == b[order[t]]
    ensures a == b
  {
    forall k | k in a ensures a[k] == b[k] {
      var t := Position(order, k);
    }
  }

  /** A map that agrees with the probed map on every key is the probed map. */
  lemma ProbedPointwise(now: map<string, InstanceVal>, view: map<string, InstanceVal>, order: seq<string>,
                        probe: (Node, int, string) -> int)
    requires AllPlaced(view) && Enumerates(order, view.Keys) && now.Keys == view.Keys
    requires forall t :: 0 <= t < |order| ==> now[order[t]] == Probed(view[order[t]], probe)
    ensures now == ProbedAll(view, probe)
  {
    var all := ProbedAll(view, probe);
    forall t | 0 <= t < |order| ensures now[order[t]] == all[order[t]] {
    }
    AgreeOnOrder(now, all, order);
  }

  /** Probing instance j of the order extends the probed prefix by one. */
  lemma ProbedPrefixStep(now: map<string, InstanceVal>, before: map<string, InstanceVal>, view: map<string, InstanceVal>,
                         order: seq<string>, j: int, probe: (Node, int, string) -> int)
    requires AllPlaced(view) && Enumerates(order, view.Keys) && before.Keys == view.Keys && 0 <= j < |order|
    requires forall t :: 0 <= t < |order| ==>
      before[order[t]] == if t < j then Probed(view[order[t]], probe) else view[order[t]]
    requires now == before[order[j] := Probed(view[order[j]], probe)]
    ensures now.Keys == view.Keys
    ensures forall t :: 0 <= t < |order| ==>
      now[order[t]] == if t < j + 1 then Probed(view[order[t]], probe) else view[order[t]]
  {
    forall t | 0 <= t < |order|
      ensures now[order[t]] == if t < j + 1 then Probed(view[order[t]], probe) else view[order[t]]
    {
      if t != j {
        assert order[t] != order[j];
      }
    }
  }

  /** Port resolution keeps every instance's name, node, home directory and placement. */
  lemma ProbedAllKeepsPlacement(view: map<string, InstanceVal>, probe: (Node, int, string) -> int)
    requires AllPlaced(view)
    ensures AllPlaced(ProbedAll(view, probe))
    ensures forall k :: k in view ==>
      var r := ProbedAll(view, probe)[k];
      && r.name == view[k].name && r.nodeName == view[k].nodeName
      && r.clusterNode == view[k].clusterNode && r.s1asHome == view[k].s1asHome
  {
  }

  /* ------------------------------------------------------ the plan files */

  /** order lists as many keys as there are. */
  lemma {:induction false} EnumeratesSize(order: seq<string>, keys: set<string>)
    requires Enumerates(order, keys)
    ensures |order| == |keys|
  {
    if |order| == 0 {
      assert forall k :: k !in keys;
      assert keys == {};
    } else {
      var rest := keys - {order[0]};
      forall k | k in order[1..] ensures k in rest {
        var t :| 1 <= t < |order| && order[t] == k;
      }
      EnumeratesSize(order[1..], rest);
    }
  }

  /** The five header pairs of the cluster property file. */
  function HeaderPairs(clusterName: Option<string>, numNodes: int, numInstances: int, dasNodeName: string)
    : (r: seq<(string, string)>)
    ensures |r| == 5
  {
    [("cluster_name", NullText(clusterName)), ("cluster_numNodes", IntToString(numNodes)),
     ("cluster_numInstances", IntToString(numInstances)), ("das_node", dasNodeName),
     ("das_port", IntToString(DasAdminPort))]
  }

  /** The instances' property pairs in iteration order, the j-th (from 0) numbered j+1. */
  function ClusterPairs(view: map<string, InstanceVal>, order: seq<string>): (r: seq<(string, string)>)
    requires (forall k :: k in order ==> k in view) && AllPlaced(view)
    ensures |r| == 11 * |order|
    decreases |order|
  {
    if |order| == 0 then []
    else
      assert |PropSuffixes| == 11;
      ClusterPairs(view, order[..|order| - 1]) + InstancePairs(view[order[|order| - 1]], |order|)
  }

  /** The text of the cluster property file: the header, then each instance's pairs. */
  function PlanText(clusterName: Option<string>, numNodes: int, dasNodeName: string,
                    view: map<string, InstanceVal>, order: seq<string>): string
    requires (forall k :: k in order ==> k in view) && AllPlaced(view)
  {
    PropsText(HeaderPairs(clusterName, numNodes, |view|, dasNodeName) + ClusterPairs(view, order))
  }

  /** The j-th instance of the order owns the eleven pairs starting at 11*j, numbered j+1. */
  lemma {:induction false} ClusterPairsAt(view: map<string, InstanceVal>, order: seq<string>)
    requires (forall k :: k in order ==> k in view) && AllPlaced(view)
    ensures forall j :: 0 <= j < |order| ==>
      ClusterPairs(view, order)[11 * j..11 * j + 11] == InstancePairs(view[order[j]], j + 1)
  {
    if |order| > 0 {
      var n := |order|;
      var init := order[..n - 1];
      ClusterPairsAt(view, init);
      var a := ClusterPairs(view, init);
      var r := ClusterPairs(view, order);
      assert r == a + InstancePairs(view[order[n - 1]], n);
      forall j | 0 <= j < n ensures r[11 * j..11 * j + 11] == InstancePairs(view[order[j]], j + 1) {
        if j < n - 1 {
          assert init[j] == order[j];
          assert r[11 * j..11 * j + 11] == a[11 * j..11 * j + 11];
        }
      }
    }
  }

  lemma WritableAppend(a: seq<(string, string)>, b: seq<(string, string)>)
    requires Writable(a) && Writable(b)
    ensures Writable(a + b)
  {
    forall k | 0 <= k < |a + b| ensures '=' !in (a + b)[k].0 && '\n' !in (a + b)[k].0 && '\n' !in (a + b)[k].1 {
      if k >= |a| {
        assert (a + b)[k] == b[k - |a|];
      }
    }
  }

  /** Every instance is free of newlines in its name, node and home directory. */
  predicate PlainPlan(view: map<string, InstanceVal>) {
    forall k :: k in view ==> PlainText(view[k])
  }

  lemma {:induction false} ClusterPairsWritable(view: map<string, InstanceVal>, order: seq<string>)
    requires (forall k :: k in order ==> k in view) && AllPlaced(view) && PlainPlan(view)
    ensures Writable(ClusterPairs(view, order))
  {
    if |order| > 0 {
      var n := |order|;
      ClusterPairsWritable(view, order[..n - 1]);
      InstancePairsWritable(view[order[n - 1]], n);
      WritableAppend(ClusterPairs(view, order[..n - 1]), InstancePairs(view[order[n - 1]], n));
    }
  }

  /** Letters and '_' only, as in the header keys. */
  predicate LowerKey(s: string) {
    forall i :: 0 <= i < |s| ==> 'a' <= s[i] <= 'z' || 'A' <= s[i] <= 'Z' || s[i] == '_'
  }

  lemma LowerKeyPlain(s: string)
    requires LowerKey(s)
    ensures '=' !in s && '\n' !in s
  {
  }

  lemma HeaderKeysLower()
    ensures LowerKey("cluster_name") && LowerKey("cluster_numNodes") && LowerKey("cluster_numInstances")
    ensures LowerKey("das_node") && LowerKey("das_port")
  {
  }

  lemma HeaderWritable(clusterName: Option<string>, numNodes: int, numInstances: int, dasNodeName: string)
    requires '\n' !in NullText(clusterName) && '\n' !in dasNodeName
    ensures Writable(HeaderPairs(clusterName, numNodes, numInstances, dasNodeName))
  {
    NoSepInIntToString(numNodes, '\n');
    NoSepInIntToString(numInstances, '\n');
    NoSepInIntToString(DasAdminPort, '\n');
    var h := HeaderPairs(clusterName, numNodes, numInstances, dasNodeName);
    HeaderKeysLower();
    forall k | 0 <= k < |h| ensures '=' !in h[k].0 && '\n' !in h[k].0 && '\n' !in h[k].1 {
      LowerKeyPlain(h[k].0);
    }
  }

  /** One more pair adds its "key=value" line at the end. */
  lemma PropsTextSnoc(pairs: seq<(string, string)>, key: string, value: string)
    ensures PropsText(pairs + [(key, value)]) == PropsText(pairs) + key + "=" + value + "\n"
  {
    PropsTextAppend(pairs, [(key, value)]);
    var one := seq(1, k requires 0 <= k < 1 => KeyValue([(key, value)][k].0, [(key, value)][k].1));
    assert one == [key + "=" + value];
    assert one[1..] == [];
    assert Lines(one) == key + "=" + value + "\n" + Lines([]);
    assert PropsText([(key, value)]) == key + "=" + value + "\n";
  }

  /** The separators of the first three header lines, split at the key. */
  lemma HeaderLeadsFront()
    ensures "cluster_name=" == "cluster_name" + "="
    ensures "\ncluster_numNodes=" == "\n" + "cluster_numNodes" + "="
    ensures "\ncluster_numInstances=" == "\n" + "cluster_numInstances" + "="
  {
  }

  /** The separators of the last two header lines, split at the key. */
  lemma HeaderLeadsBack()
    ensures "\ndas_node=" == "\n" + "das_node" + "="
    ensures "\ndas_port=" == "\n" + "das_port" + "="
  {
  }

  /** A text ending one line, followed by key=value written as lead + value, is that line added. */
  lemma HeaderStep(pairs: seq<(string, string)>, before: string, lead: string, key: string, value: string)
    requires PropsText(pairs) == before + "\n" && lead == "\n" + key + "="
    ensures PropsText(pairs + [(key, value)]) == before + lead + value + "\n"
  {
    PropsTextSnoc(pairs, key, value);
  }

  /**
   * The header createClusterPropsFiles writes, built by concatenation as the source
   * builds it: the property text of the five header pairs.
   */
  function HeaderString(clusterName: Option<string>, numNodes: int, numInstances: int, dasNodeName: string)
    : (r: string)
    ensures r == PropsText(HeaderPairs(clusterName, numNodes, numInstances, dasNodeName))
  {
    HeaderText(clusterName, numNodes, numInstances, dasNodeName);
    "cluster_name=" + NullText(clusterName)
    + "\ncluster_numNodes=" + IntToString(numNodes)
    + "\ncluster_numInstances=" + IntToString(numInstances)
    + "\ndas_node=" + dasNodeName
    + "\ndas_port=" + IntToString(DasAdminPort)
    + "\n"
  }

  lemma HeaderText(clusterName: Option<string>, numNodes: int, numInstances: int, dasNodeName: string)
    ensures "cluster_name=" + NullText(clusterName)
      + "\ncluster_numNodes=" + IntToString(numNodes)
      + "\ncluster_numInstances=" + IntToString(numInstances)
      + "\ndas_node=" + dasNodeName
      + "\ndas_port=" + IntToString(DasAdminPort) + "\n"
      == PropsText(HeaderPairs(clusterName, numNodes, numInstances, dasNodeName))
  {
    var x, y, z, w := NullText(clusterName), IntToString(numNodes), IntToString(numInstances), IntToString(DasAdminPort);
    var a1 := [("cluster_name", x)];
    var a2 := a1 + [("cluster_numNodes", y)];
    var a3 := a2 + [("cluster_numInstances", z)];
    var a4 := a3 + [("das_node", dasNodeName)];
    var a5 := a4 + [("das_port", w)];
    var j1 := "cluster_name=" + x;
    var j2 := j1 + "\ncluster_numNodes=" + y;
    var j3 := j2 + "\ncluster_numInstances=" + z;
    var j4 := j3 + "\ndas_node=" + dasNodeName;
    HeaderLeadsFront();
    HeaderLeadsBack();
    PropsTextSnoc([], "cluster_name", x);
    assert [] + a1 == a1;
    HeaderStep(a1, j1, "\ncluster_numNodes=", "cluster_numNodes", y);
    HeaderStep(a2, j2, "\ncluster_numInstances=", "cluster_numInstances", z);
    HeaderStep(a3, j3, "\ndas_node=", "das_node", dasNodeName);
    HeaderStep(a4, j4, "\ndas_port=", "das_port", w);
    assert a5 == HeaderPairs(clusterName, numNodes, numInstances, dasNodeName);
  }

  /** Reading the cluster property file back line by line gives the pairs written. */
  lemma PlanTextParses(clusterName: Option<string>, numNodes: int, dasNodeName: string,
                       view: map<string, InstanceVal>, order: seq<string>)
    requires (forall k :: k in order ==> k in view) && AllPlaced(view) && PlainPlan(view)
    requires '\n' !in NullText(clusterName) && '\n' !in dasNodeName
    ensures ParseProps(PlanText(clusterName, numNodes, dasNodeName, view, order))
         == HeaderPairs(clusterName, numNodes, |view|, dasNodeName) + ClusterPairs(view, order)
  {
    var h := HeaderPairs(clusterName, numNodes, |view|, dasNodeName);
    var c := ClusterPairs(view, order);
    HeaderWritable(clusterName, numNodes, |view|, dasNodeName);
    ClusterPairsWritable(view, order);
    WritableAppend(h, c);
    ParsePropsText(h + c);
  }

  /** A slice of a + b that lies past a is a slice of b. */
  lemma SliceAfter<T>(a: seq<T>, b: seq<T>, i: int, j: int)
    requires |a| <= i <= j <= |a| + |b|
    ensures (a + b)[i..j] == b[i - |a|..j - |a|]
  {
  }

  /**
   * Reading the cluster property file back gives the five header pairs, with
   * cluster_numInstances the number of instances, and then, for the j-th instance
   * of the iteration order, its eleven pairs numbered j+1.
   */
  lemma PlanTextDecodes(clusterName: Option<string>, numNodes: int, dasNodeName: string,
                        view: map<string, InstanceVal>, order: seq<string>)
    requires Enumerates(order, view.Keys) && AllPlaced(view) && PlainPlan(view)
    requires '\n' !in NullText(clusterName) && '\n' !in dasNodeName
    ensures var pairs := ParseProps(PlanText(clusterName, numNodes, dasNodeName, view, order));
      && |pairs| == 5 + 11 * |order|
      && pairs[..5] == HeaderPairs(clusterName, numNodes, |order|, dasNodeName)
      && forall j :: 0 <= j < |order| ==> pairs[5 + 11 * j..5 + 11 * j + 11] == InstancePairs(view[order[j]], j + 1)
  {
    EnumeratesSize(order, view.Keys);
    PlanTextParses(clusterName, numNodes, dasNodeName, view, order);
    var h := HeaderPairs(clusterName, numNodes, |view|, dasNodeName);
    var c := ClusterPairs(view, order);
    ClusterPairsAt(view, order);
    assert (h + c)[..5] == h;
    forall j | 0 <= j < |order| ensures (h + c)[5 + 11 * j..5 + 11 * j + 11] == InstancePairs(view[order[j]], j + 1) {
      SliceAfter(h, c, 5 + 11 * j, 5 + 11 * j + 11);
    }
  }

  /** The ant records of the instances, in iteration order. */
  function AntSRecords(view: map<string, InstanceVal>, order: seq<string>): (r: seq<string>)
    requires forall k :: k in order ==> k in view
  {
    seq(|order|, j requires 0 <= j < |order| => PropsForAntS(view[order[j]]))
  }

  /** The ant property text: the DAS home, the cluster name and, when there are instances, their list. */
  function AntSText(dasHome: string, clusterName: Option<string>, records: seq<string>): string {
    "s1as.home=" + dasHome + "\n" + "cluster.name=" + NullText(clusterName) + "\n"
    + AntSList(records)
  }

  lemma AntSRecordFree(v: InstanceVal, c: char)
    requires c != ':' && c != '-' && !IsDigit(c) && c !in v.name && c !in v.nodeName
    ensures c !in PropsForAntS(v)
  {
    AntSFieldsFree(v, c);
    JoinFree(AntSFields(v), ':', c);
  }

  lemma AntSRecordsFree(view: map<string, InstanceVal>, order: seq<string>, c: char)
    requires forall k :: k in order ==> k in view
    requires forall k :: k in view ==> c !in view[k].name && c !in view[k].nodeName
    requires c != ':' && c != '-' && !IsDigit(c)
    ensures NoneContains(AntSRecords(view, order), c)
  {
    var recs := AntSRecords(view, order);
    forall j | 0 <= j < |recs| ensures c !in recs[j] {
      AntSRecordFree(view[order[j]], c);
    }
  }

  /** The instance list, when there is one. */
  function AntSList(records: seq<string>): string {
    if |records| == 0 then "" else "instancelist=" + Join(records, ',')
  }

  /**
   * The ant property text has three lines: the DAS home, the cluster name and the
   * instance list (empty without instances).
   */
  lemma AntSTextLines(dasHome: string, clusterName: Option<string>, view: map<string, InstanceVal>, order: seq<string>)
    requires forall k :: k in order ==> k in view
    requires forall k :: k in view ==> '\n' !in view[k].name && '\n' !in view[k].nodeName
    requires '\n' !in dasHome && '\n' !in NullText(clusterName)
    ensures var recs := AntSRecords(view, order);
      Split(AntSText(dasHome, clusterName, recs), '\n')
        == ["s1as.home=" + dasHome, "cluster.name=" + NullText(clusterName), AntSList(recs)]
  {
    var recs := AntSRecords(view, order);
    AntSRecordsFree(view, order, '\n');
    AntSListPlain(recs);
    AntSTextShape(dasHome, clusterName, recs);
    ThreeLines("s1as.home=" + dasHome, "cluster.name=" + NullText(clusterName), AntSList(recs));
  }

  lemma AntSListPlain(recs: seq<string>)
    requires NoneContains(recs, '\n')
    ensures '\n' !in AntSList(recs)
  {
    var list := AntSList(recs);
    if |recs| > 0 {
      JoinFree(recs, ',', '\n');
      assert forall i :: 0 <= i < |list| ==> list[i] == (if i < 13 then "instancelist="[i] else Join(recs, ',')[i - 13]);
    }
  }

  lemma AntSTextShape(dasHome: string, clusterName: Option<string>, recs: seq<string>)
    ensures AntSText(dasHome, clusterName, recs)
         == ("s1as.home=" + dasHome) + "\n" + ("cluster.name=" + NullText(clusterName)) + "\n" + AntSList(recs)
  {
    var front := "s1as.home=" + dasHome + "\n";
    assert front + "cluster.name=" + NullText(clusterName) == front + ("cluster.name=" + NullText(clusterName));
  }

  /** Three newline-free lines joined by newlines split back into those three lines. */
  lemma ThreeLines(a: string, b: string, c: string)
    requires '\n' !in a && '\n' !in b && '\n' !in c
    ensures Split(a + "\n" + b + "\n" + c, '\n') == [a, b, c]
  {
    var last := [c];
    var two := [b, c];
    var lines := [a, b, c];
    assert Join(last, '\n') == c;
    assert two[1..] == last;
    assert Join(two, '\n') == b + ['\n'] + c;
    assert lines[1..] == two;
    assert Join(lines, '\n') == a + ['\n'] + (b + ['\n'] + c);
    assert a + ['\n'] + (b + ['\n'] + c) == a + "\n" + b + "\n" + c;
    SplitJoin(lines, '\n');
  }

  /** The instance list splits at its commas into one ant record per instance, in iteration order. */
  lemma AntSListSplits(view: map<string, InstanceVal>, order: seq<string>)
    requires |order| > 0 && forall k :: k in order ==> k in view
    requires forall k :: k in view ==> ',' !in view[k].name && ',' !in view[k].nodeName
    ensures var recs := AntSRecords(view, order);
      AntSList(recs) == "instancelist=" + Join(recs, ',') && Split(AntSList(recs)[13..], ',') == recs
  {
    var recs := AntSRecords(view, order);
    AntSRecordsFree(view, order, ',');
    SplitJoin(recs, ',');
    assert AntSList(recs)[13..] == Join(recs, ',');
  }

  /* -------------------------------------------------------- loading a plan */

  /** getStrProperty: the trimmed value, None (null) when the key is absent. */
  function GetStrProperty(props: map<string, string>, propName: string): (r: Option<string>)
    ensures r.Some? <==> propName in props
    ensures r.Some? ==> r.value == Trim(r.value) && r.value == Trim(props[propName])
  {
    if propName in props then (TrimIdempotent(props[propName]); Some(Trim(props[propName]))) else None
  }

  /** The key is present, its value an integer at least minValue. */
  predicate IntPropertyOk(props: map<string, string>, propName: string, minValue: int) {
    propName in props && ParseInt(props[propName]).Some? && ParseInt(props[propName]).value >= minValue
  }

  /** getIntProperty: the integer value, -1 when absent, not an integer or below minValue. */
  function GetIntProperty(props: map<string, string>, propName: string, minValue: int): (r: int)
    ensures IntPropertyOk(props, propName, minValue) ==> r == ParseInt(props[propName]).value
    ensures !IntPropertyOk(props, propName, minValue) ==> r == -1
  {
    if propName !in props then -1
    else match ParseInt(props[propName])
      case None => -1
      case Some(v) => if v < minValue then -1 else v
  }

  /** With a non-negative minimum, -1 is returned exactly when the property is bad. */
  lemma IntPropertyFailsIff(props: map<string, string>, propName: string, minValue: int)
    requires minValue >= 0
    ensures GetIntProperty(props, propName, minValue) == -1 <==> !IntPropertyOk(props, propName, minValue)
  {
  }

  /** The key the loader reads for a field of instance i: "instance<i>_<field>". */
  function LoadKey(i: int, field: string): string {
    "instance" + IntToString(i) + "_" + field
  }

  /** The eight port keys of instance i hold integers of at least 1. */
  predicate PortsOk(props: map<string, string>, i: int) {
    forall k :: 0 <= k < BlockSize ==> IntPropertyOk(props, LoadKey(i, PortKeys[k]), 1)
  }

  /** The eight ports of instance i, in declared order; None when any of them is bad. */
  function LoadPorts(props: map<string, string>, i: int): (r: Option<PortSet>)
    ensures r.Some? <==> PortsOk(props, i)
  {
    var ports := seq(BlockSize, k requires 0 <= k < BlockSize => GetIntProperty(props, LoadKey(i, PortKeys[k]), 1));
    assert forall k :: 0 <= k < BlockSize ==> (ports[k] == -1 <==> !IntPropertyOk(props, LoadKey(i, PortKeys[k]), 1));
    if exists k :: 0 <= k < BlockSize && ports[k] == -1 then None
    else Some(PortSet(ports[0], ports[1], ports[2], ports[3], ports[4], ports[5], ports[6], ports[7]))
  }

  /** Each loaded port is the integer its key holds. */
  lemma LoadPortsValues(props: map<string, string>, i: int)
    requires PortsOk(props, i)
    ensures forall k :: 0 <= k < BlockSize ==>
      ParseInt(props[LoadKey(i, PortKeys[k])]) == Some(LoadPorts(props, i).value.ToSeq()[k])
  {
  }

  /** Every key of instance i is present, its ports and its GMS port integers of at least 1. */
  predicate EntryOk(props: map<string, string>, i: int) {
    && LoadKey(i, "name") in props && LoadKey(i, "node") in props && LoadKey(i, "s1as_home") in props
    && PortsOk(props, i) && IntPropertyOk(props, LoadKey(i, "GMS_LISTENER_PORT"), 1)
  }

  /** The instance loadClusterPropertiesFile reads as number i; None when any of its keys is bad. */
  function LoadEntry(props: map<string, string>, i: int): (r: Option<InstanceVal>)
    ensures r.Some? <==> EntryOk(props, i)
  {
    var name := GetStrProperty(props, LoadKey(i, "name"));
    var node := GetStrProperty(props, LoadKey(i, "node"));
    var home := GetStrProperty(props, LoadKey(i, "s1as_home"));
    var ports := LoadPorts(props, i);
    var gms := GetIntProperty(props, LoadKey(i, "GMS_LISTENER_PORT"), 1);
    if name.None? || node.None? || home.None? || ports.None? || gms == -1 then None
    else Some(InstanceVal(name.value, node.value, 0, ports.value, None, Some(home.value)))
  }

  /**
   * A good instance i is read as: the trimmed name, node and home directory, the
   * eight ports, no base port and no cluster node yet; the GMS port is not kept.
   */
  lemma LoadEntryReads(props: map<string, string>, i: int)
    requires EntryOk(props, i)
    ensures var v := LoadEntry(props, i).value;
      && v.name == Trim(props[LoadKey(i, "name")]) && v.nodeName == Trim(props[LoadKey(i, "node")])
      && v.s1asHome == Some(Trim(props[LoadKey(i, "s1as_home")]))
      && v.basePort == 0 && v.clusterNode.None?
      && forall k :: 0 <= k < BlockSize ==> ParseInt(props[LoadKey(i, PortKeys[k])]) == Some(v.ports.ToSeq()[k])
  {
    LoadPortsValues(props, i);
  }

  /** The loader's reading of each instance number, as one function. */
  function EntryReader(props: map<string, string>): int -> Option<InstanceVal> {
    i => LoadEntry(props, i)
  }

  lemma EntryReaderAt(props: map<string, string>, i: int)
    ensures EntryReader(props)(i) == LoadEntry(props, i)
    ensures EntryReader(props)(i).Some? <==> EntryOk(props, i)
  {
  }

  /**
   * Instances 1..n read by entry and filed in turn under their names, stopping at the
   * first that does not read: the instances filed and whether all n were.
   */
  function LoadedBy(entry: int -> Option<InstanceVal>, n: int): (map<string, InstanceVal>, bool)
    decreases n
  {
    if n <= 0 then (map[], true)
    else
      var prev := LoadedBy(entry, n - 1);
      if !prev.1 then prev
      else match entry(n)
        case None => (prev.0, false)
        case Some(v) => (prev.0[v.name := v], true)
  }

  /** The instances loadClusterPropertiesFile loads as numbers 1..n, and whether all n loaded. */
  function Loaded(props: map<string, string>, n: int): (map<string, InstanceVal>, bool) {
    LoadedBy(EntryReader(props), n)
  }

  /** Each of instances 1..n has good keys. */
  predicate AllEntriesOk(props: map<string, string>, n: int) {
    forall i :: 1 <= i <= n ==> EntryOk(props, i)
  }

  lemma AllEntriesOkStep(props: map<string, string>, n: int)
    requires n >= 1
    ensures AllEntriesOk(props, n) <==> AllEntriesOk(props, n - 1) && EntryOk(props, n)
  {
  }

  lemma {:induction false} LoadedByOkIff(entry: int -> Option<InstanceVal>, n: int)
    ensures LoadedBy(entry, n).1 <==> forall i :: 1 <= i <= n ==> entry(i).Some?
  {
    if n > 0 {
      LoadedByOkIff(entry, n - 1);
    }
  }

  /** All of instances 1..n load exactly when each of them has good keys. */
  lemma LoadedOkIff(props: map<string, string>, n: int)
    ensures Loaded(props, n).1 <==> AllEntriesOk(props, n)
  {
    var entry := EntryReader(props);
    LoadedByOkIff(entry, n);
    forall i | 1 <= i <= n ensures entry(i).Some? <==> EntryOk(props, i) {
      EntryReaderAt(props, i);
    }
  }

  /** Once entry n does not read, the load of 1..n has failed and keeps what 1..n-1 filed. */
  lemma LoadedByFails(entry: int -> Option<InstanceVal>, n: int)
    requires n >= 1 && !(LoadedBy(entry, n - 1).1 && entry(n).Some?)
    ensures LoadedBy(entry, n) == (LoadedBy(entry, n - 1).0, false)
  {
  }

  lemma {:induction false} LoadedByStopsAt(entry: int -> Option<InstanceVal>, n: int, p: int)
    requires 1 <= p <= n
    requires LoadedBy(entry, p - 1).1 && entry(p).None?
    ensures LoadedBy(entry, n) == (LoadedBy(entry, p - 1).0, false)
  {
    if n > p {
      LoadedByStopsAt(entry, n - 1, p);
      LoadedByFails(entry, n);
    } else {
      LoadedByFails(entry, p);
    }
  }

  /**
   * A bad instance p stops the load: when instances 1..p-1 loaded (by LoadedOkIff, when
   * all of them are good), instances 1..p-1 stay loaded and nothing after p is read.
   */
  lemma LoadedStopsAt(props: map<string, string>, n: int, p: int)
    requires 1 <= p <= n
    requires Loaded(props, p - 1).1 && LoadEntry(props, p).None?
    ensures Loaded(props, n) == (Loaded(props, p - 1).0, false)
  {
    EntryReaderAt(props, p);
    LoadedByStopsAt(EntryReader(props), n, p);
  }

  lemma {:induction false} LoadedByEntries(entry: int -> Option<InstanceVal>, n: int)
    ensures forall k :: k in LoadedBy(entry, n).0 ==>
      LoadedBy(entry, n).0[k].name == k && exists i :: 1 <= i <= n && entry(i) == Some(LoadedBy(entry, n).0[k])
  {
    if n > 0 {
      LoadedByEntries(entry, n - 1);
      var prev := LoadedBy(entry, n - 1);
      var now := LoadedBy(entry, n).0;
      if prev.1 && entry(n).Some? {
        var v := entry(n).value;
        assert now == prev.0[v.name := v];
        forall k | k in now
          ensures now[k].name == k && exists i :: 1 <= i <= n && entry(i) == Some(now[k])
        {
          if k == v.name {
            assert entry(n) == Some(now[k]);
          } else {
            assert now[k] == prev.0[k];
          }
        }
      } else {
        assert now == prev.0;
      }
    }
  }

  /** Every loaded instance is filed under its own name and is what the loader read for some number 1..n. */
  lemma LoadedEntries(props: map<string, string>, n: int)
    ensures forall k :: k in Loaded(props, n).0 ==>
      Loaded(props, n).0[k].name == k && exists i :: 1 <= i <= n && LoadEntry(props, i) == Some(Loaded(props, n).0[k])
  {
    var entry := EntryReader(props);
    LoadedByEntries(entry, n);
    forall i ensures entry(i) == LoadEntry(props, i) {
      EntryReaderAt(props, i);
    }
  }

  lemma LoadedByStep(entry: int -> Option<InstanceVal>, i: int, v: InstanceVal)
    requires i >= 1 && LoadedBy(entry, i - 1).1 && entry(i) == Some(v)
    ensures LoadedBy(entry, i) == (LoadedBy(entry, i - 1).0[v.name := v], true)
  {
  }

  /** Loading instance i on top of the first i-1. */
  lemma LoadedStep(now: map<string, InstanceVal>, before: map<string, InstanceVal>, m: map<string, InstanceVal>,
                   props: map<string, string>, i: int, v: InstanceVal)
    requires i >= 1 && Loaded(props, i - 1).1 && LoadEntry(props, i) == Some(v)
    requires before == m + Loaded(props, i - 1).0
    requires now == before[v.name := v]
    ensures now == m + Loaded(props, i).0 && Loaded(props, i).1
  {
    EntryReaderAt(props, i);
    LoadedByStep(EntryReader(props), i, v);
    UnionPut(m, Loaded(props, i - 1).0, v.name, v);
  }

  /** The keys of a cluster property file as createClusterPropsFiles writes it. */
  function PlanKeys(clusterName: Option<string>, numNodes: int, dasNodeName: string,
                    view: map<string, InstanceVal>, order: seq<string>): set<string>
    requires (forall k :: k in order ==> k in view) && AllPlaced(view)
  {
    set q | q in HeaderPairs(clusterName, numNodes, |view|, dasNodeName) + ClusterPairs(view, order) :: q.0
  }

  lemma {:induction false} ClusterKeysDotted(view: map<string, InstanceVal>, order: seq<string>)
    requires (forall k :: k in order ==> k in view) && AllPlaced(view)
    ensures forall q :: q in ClusterPairs(view, order) ==> '.' in q.0
  {
    if |order| > 0 {
      var n := |order|;
      ClusterKeysDotted(view, order[..n - 1]);
      var r := InstancePairs(view[order[n - 1]], n);
      var pre := InstanceKeyPrefix(n);
      assert pre[|pre| - 1] == '.';
      InstancePairsAt(view[order[n - 1]], n);
      forall k | 0 <= k < |r| ensures '.' in r[k].0 {
        assert r[k].0[|pre| - 1] == '.';
      }
    }
  }

  /** "instance<i>_GMS_LISTENER_PORT" starts with 'i' and has no '.'. */
  lemma GmsKeyShape(i: int)
    ensures var key := LoadKey(i, "GMS_LISTENER_PORT"); |key| > 0 && key[0] == 'i' && '.' !in key
  {
    var a, d, b := "instance", IntToString(i), "_GMS_LISTENER_PORT";
    NoSepInIntToString(i, '.');
    assert '.' !in a && '.' !in b;
    assert LoadKey(i, "GMS_LISTENER_PORT") == a + (d + b);
    assert (a + (d + b))[0] == a[0];
  }

  /** The loader's GMS port key of any instance is not among the keys a plan file holds. */
  lemma GmsKeyNotWritten(clusterName: Option<string>, numNodes: int, dasNodeName: string,
                         view: map<string, InstanceVal>, order: seq<string>, i: int)
    requires (forall k :: k in order ==> k in view) && AllPlaced(view)
    ensures LoadKey(i, "GMS_LISTENER_PORT") !in PlanKeys(clusterName, numNodes, dasNodeName, view, order)
  {
    var key := LoadKey(i, "GMS_LISTENER_PORT");
    var h := HeaderPairs(clusterName, numNodes, |view|, dasNodeName);
    var c := ClusterPairs(view, order);
    GmsKeyShape(i);
    ClusterKeysDotted(view, order);
    HeaderKeysStart(clusterName, numNodes, |view|, dasNodeName);
    forall q: (string, string) | q in h + c ensures q.0 != key {
      assert q in h || q in c;
    }
  }

  /** Every header key starts with 'c' or 'd'. */
  lemma HeaderKeysStart(clusterName: Option<string>, numNodes: int, numInstances: int, dasNodeName: string)
    ensures forall q :: q in HeaderPairs(clusterName, numNodes, numInstances, dasNodeName) ==> |q.0| > 0 && q.0[0] in "cd"
  {
    var h := HeaderPairs(clusterName, numNodes, numInstances, dasNodeName);
    forall q | q in h ensures |q.0| > 0 && q.0[0] in "cd" {
      var k :| 0 <= k < 5 && h[k] == q;
    }
  }

  /**
   * A cluster property file as createClusterPropsFiles writes it never loads: the
   * loader reads "instance<i>_..." keys, including a GMS port, and the writer writes
   * "instance<i>.<key>" keys and no GMS port, so no instance has good keys.
   */
  lemma WrittenPlanNeverLoads(props: map<string, string>, clusterName: Option<string>, numNodes: int, dasNodeName: string,
                              view: map<string, InstanceVal>, order: seq<string>, n: int)
    requires (forall k :: k in order ==> k in view) && AllPlaced(view)
    requires props.Keys <= PlanKeys(clusterName, numNodes, dasNodeName, view, order)
    ensures forall i :: LoadEntry(props, i).None?
    ensures n >= 1 ==> !Loaded(props, n).1
  {
    forall i ensures LoadEntry(props, i).None? {
      GmsKeyNotWritten(clusterName, numNodes, dasNodeName, view, order, i);
    }
    LoadedOkIff(props, n);
  }

  /* ------------------------------------------------------------ the class */

  /** The settings of a cluster other than its map and nodes. */
  datatype Settings = Settings(basePort: int, numNodes: int, dasNodeName: string, clusterName: Option<string>, nodeSelectionLabel: string)

  lemma AntSRecordsSnoc(view: map<string, InstanceVal>, order: seq<string>, j: nat)
    requires (forall k :: k in order ==> k in view) && j < |order|
    ensures AntSRecords(view, order[..j + 1]) == AntSRecords(view, order[..j]) + [PropsForAntS(view[order[j]])]
  {
  }

  /** The instance list after one more record: "instancelist=" first, a comma before any later one. */
  lemma AntSListSnoc(records: seq<string>, rec: string)
    ensures AntSList(records + [rec]) == (if |records| == 0 then "instancelist=" else AntSList(records) + ",") + rec
  {
    if |records| > 0 {
      JoinSnoc(records, rec, ',');
    } else {
      assert records + [rec] == [rec];
    }
  }

  lemma PlanTextStart(header: seq<(string, string)>, view: map<string, InstanceVal>, order: seq<string>)
    requires (forall k :: k in order ==> k in view) && AllPlaced(view)
    ensures PropsText(header + ClusterPairs(view, order[..0])) == PropsText(header)
  {
    assert header + ClusterPairs(view, order[..0]) == header;
  }

  /** Appending the properties of instance i+1 extends the plan text by one instance. */
  lemma PlanTextStep(header: seq<(string, string)>, view: map<string, InstanceVal>, order: seq<string>, i: nat)
    requires (forall k :: k in order ==> k in view) && AllPlaced(view) && i < |order|
    ensures PropsText(header + ClusterPairs(view, order[..i + 1]))
         == PropsText(header + ClusterPairs(view, order[..i])) + Props(view[order[i]], i + 1)
  {
    var done := header + ClusterPairs(view, order[..i]);
    var more := InstancePairs(view[order[i]], i + 1);
    assert order[..i + 1][..i] == order[..i];
    assert ClusterPairs(view, order[..i + 1]) == ClusterPairs(view, order[..i]) + more;
    assert header + ClusterPairs(view, order[..i + 1]) == done + more;
    PropsTextAppend(done, more);
  }

  /** The header text followed by the property lines of the first i instances of order, numbered from 1. */
  function PlanTextUpTo(header: seq<(string, string)>, view: map<string, InstanceVal>, order: seq<string>, i: nat)
    : string
    requires (forall k :: k in order ==> k in view) && AllPlaced(view) && i <= |order|
  {
    if i == 0 then PropsText(header) else PlanTextUpTo(header, view, order, i - 1) + Props(view[order[i - 1]], i)
  }

  /** Adding the instances one after another gives the property text of the header and all their pairs. */
  lemma {:induction false} PlanTextUpToPairs(header: seq<(string, string)>, view: map<string, InstanceVal>,
                                              order: seq<string>, i: nat)
    requires (forall k :: k in order ==> k in view) && AllPlaced(view) && i <= |order|
    ensures PlanTextUpTo(header, view, order, i) == PropsText(header + ClusterPairs(view, order[..i]))
  {
    if i == 0 {
      PlanTextStart(header, view, order);
    } else {
      PlanTextUpToPairs(header, view, order, i - 1);
      PlanTextStep(header, view, order, i - 1);
    }
  }

  lemma PlanTextUpToAll(header: seq<(string, string)>, view: map<string, InstanceVal>, order: seq<string>)
    requires (forall k :: k in order ==> k in view) && AllPlaced(view)
    ensures PlanTextUpTo(header, view, order, |order|) == PropsText(header + ClusterPairs(view, order))
  {
    PlanTextUpToPairs(header, view, order, |order|);
    assert order[..|order|] == order;
  }

  /** The instance list after the first j instances of order, built record by record. */
  function AntSListUpTo(view: map<string, InstanceVal>, order: seq<string>, j: nat): (r: string)
    requires (forall k :: k in order ==> k in view) && j <= |order|
    ensures |r| > 0 <==> j > 0
  {
    if j == 0 then ""
    else (if j == 1 then "instancelist=" else AntSListUpTo(view, order, j - 1) + ",") + PropsForAntS(view[order[j - 1]])
  }

  /** Built record by record, the instance list is "instancelist=" and the records joined by commas. */
  lemma {:induction false} AntSListUpToRecords(view: map<string, InstanceVal>, order: seq<string>, j: nat)
    requires (forall k :: k in order ==> k in view) && j <= |order|
    ensures AntSListUpTo(view, order, j) == AntSList(AntSRecords(view, order[..j]))
  {
    if j > 0 {
      AntSListUpToRecords(view, order, j - 1);
      var records := AntSRecords(view, order[..j - 1]);
      var rec := PropsForAntS(view[order[j - 1]]);
      AntSRecordsSnoc(view, order, j - 1);
      AntSListSnoc(records, rec);
    }
  }

  lemma AntSListUpToAll(view: map<string, InstanceVal>, order: seq<string>)
    requires forall k :: k in order ==> k in view
    ensures AntSListUpTo(view, order, |order|) == AntSList(AntSRecords(view, order))
  {
    AntSListUpToRecords(view, order, |order|);
    assert order[..|order|] == order;
  }

  class Cluster {
    var basePort: int
    var numNodes: int
    var dasNodeName: string
    var clusterNodes: seq<ClusterNode>
    var clusterName: Option<string>
    var clusterMap: map<string, Instance>
    var nodeSelectionLabel: string

    /**
     * Every instance is filed under its own name (so distinct keys hold distinct
     * instances), and the first cluster node is the DAS node.
     */
    predicate Valid()
      reads this, clusterMap.Values
    {
      && (forall k :: k in clusterMap ==> clusterMap[k].instanceName == k)
      && |clusterNodes| >= 1 && clusterNodes[0].node.name == dasNodeName
    }

    function Config(): Settings
      reads this
    {
      Settings(basePort, numNodes, dasNodeName, clusterName, nodeSelectionLabel)
    }

    /** The cluster map as values. */
    function View(): (r: map<string, InstanceVal>)
      reads this`clusterMap, clusterMap.Values
      ensures r.Keys == clusterMap.Keys
    {
      map k | k in clusterMap :: clusterMap[k].Value()
    }

    /** A cluster on the node that runs the build, which becomes the DAS node and the first cluster node. */
    constructor (numNodes: int, basePort: int, clusterName: Option<string>, nodeSelectionLabel: string,
                 current: Node, homeOf: Node -> string)
      ensures Valid()
      ensures Config() == Settings(basePort, numNodes, current.name, clusterName, nodeSelectionLabel)
      ensures clusterNodes == [ClusterNode(current, homeOf(current))] && View() == map[]
    {
      this.numNodes := numNodes;
      this.basePort := basePort;
      this.clusterName := clusterName;
      this.nodeSelectionLabel := nodeSelectionLabel;
      this.dasNodeName := current.name;
      clusterNodes := [ClusterNode(current, homeOf(current))];
      clusterMap := map[];
    }

    /** The DAS node: the first cluster node, None (null) when there is none. */
    function GetDasClusterNode(): (r: Option<ClusterNode>)
      reads this
      ensures r.Some? <==> |clusterNodes| > 0
      ensures r.Some? ==> r.value == clusterNodes[0]
    {
      if |clusterNodes| == 0 then None else Some(clusterNodes[0])
    }

    /**
     * Host number h (1-based): None (null) unless 1 <= h <= numNodes and there are
     * cluster nodes; the list lookup itself is unchecked, so h must then be in range.
     */
    function GetClusterNode(hostNum: int): (r: Option<ClusterNode>)
      reads this
      requires hostNum <= 0 || hostNum > numNodes || |clusterNodes| == 0 || hostNum <= |clusterNodes|
      ensures r.Some? <==> |clusterNodes| > 0 && 1 <= hostNum <= numNodes
      ensures r.Some? ==> r.value == clusterNodes[hostNum - 1]
    {
      if |clusterNodes| == 0 || hostNum > numNodes || hostNum <= 0 then None
      else Some(clusterNodes[hostNum - 1])
    }

    /** One user preference: a fresh instance at the given base port when the value parses. */
    method ApplyPreference(key: string, value: string) returns (parsed: bool)
      requires Valid()
      modifies this`clusterMap
      ensures Valid()
      ensures parsed <==> ParseInt(value).Some?
      ensures parsed ==> View() == old(View())[key := Fresh(key, ParseInt(value).value)]
      ensures !parsed ==> View() == old(View())
    {
      var base_port := ParseInt(value);
      parsed := base_port.Some?;
      if parsed {
        PutFresh(key, base_port.value);
      }
    }

    /** clusterMap.put(key, new GlassFishInstance(key, base)): a fresh instance filed under its name. */
    method PutFresh(key: string, base: int)
      requires Valid()
      modifies this`clusterMap
      ensures Valid()
      ensures View() == old(View())[key := Fresh(key, base)]
    {
      ghost var before := View();
      ghost var oldMap := clusterMap;
      var gfi := new Instance(key, base);
      assert View() == before;
      clusterMap := clusterMap[key := gfi];
      forall k | k in clusterMap ensures k in before[key := Fresh(key, base)] && View()[k] == before[key := Fresh(key, base)][k] {
        if k != key {
          assert clusterMap[k] == oldMap[k];
        }
      }
    }

    /** Puts prefix1 .. prefixN, each on a fresh port block, 0x100 above the previous one. */
    method CreateAutoAssignedClusterMap(instanceNamePrefix: string, numInstances: int)
      requires Valid()
      modifies this`clusterMap
      ensures Valid()
      ensures View() == old(View()) + AutoMap(instanceNamePrefix, basePort, numInstances)
    {
      ghost var initial := View();
      var base_port := basePort;
      var i := 1;
      while i <= numInstances
        invariant 1 <= i <= (if numInstances >= 1 then numInstances + 1 else 1)
        invariant base_port == basePort + (i - 1) * PortStride
        invariant Valid()
        invariant View() == initial + AutoMap(instanceNamePrefix, basePort, i - 1)
      {
        var instanceName := instanceNamePrefix + IntToString(i);
        ghost var before := View();
        PutFresh(instanceName, base_port);
        AutoMapStep(View(), before, initial, instanceNamePrefix, basePort, i, instanceName, base_port);
        base_port := base_port + PortStride;
        i := i + 1;
      }
      if numInstances <= 0 {
        assert AutoMap(instanceNamePrefix, basePort, numInstances) == AutoMap(instanceNamePrefix, basePort, i - 1);
      }
    }

    /** Applies entry order[j] on top of the entries before it. */
    method ApplyEntry(custom: map<string, string>, order: seq<string>, j: nat, ghost initial: map<string, InstanceVal>)
      returns (parsed: bool)
      requires Valid() && Enumerates(order, custom.Keys) && j < |order|
      requires View() == initial + Overrides(Restrict(custom, order[..j]))
      modifies this`clusterMap
      ensures Valid() && View() == initial + Overrides(Restrict(custom, order[..j + 1]))
      ensures AllParse(Restrict(custom, order[..j + 1])) <==> AllParse(Restrict(custom, order[..j])) && parsed
    {
      ghost var before := View();
      var key := order[j];
      parsed := ApplyPreference(key, custom[key]);
      OverridesStep(View(), before, initial, custom, order, j);
    }

    /**
     * Merges the user's name=port entries: each entry with an integer value files a
     * fresh instance on that base port under its name; the others are skipped and
     * make the result false.
     */
    method UpdateClusterMapPerUserPrefs(custom: map<string, string>, order: seq<string>) returns (retVal: bool)
      requires Valid() && Enumerates(order, custom.Keys)
      modifies this`clusterMap
      ensures Valid()
      ensures retVal <==> AllParse(custom)
      ensures View() == old(View()) + Overrides(custom)
    {
      retVal := true;
      ghost var initial := View();
      var j := 0;
      while j < |order|
        invariant 0 <= j <= |order|
        invariant Valid()
        invariant View() == initial + Overrides(Restrict(custom, order[..j]))
        invariant retVal <==> AllParse(Restrict(custom, order[..j]))
      {
        var parsed := ApplyEntry(custom, order, j, initial);
        retVal := retVal && parsed;
        j := j + 1;
      }
      assert order[..j] == order;
      RestrictAll(custom, order);
    }

    /**
     * Builds the plan's instance map: the auto-assigned instances, then the user's
     * entries; on success numNodes is lowered to the number of instances.
     */
    method InitClusterMap(instanceNamePrefix: string, numInstances: int, custom: map<string, string>, order: seq<string>)
      returns (ok: bool)
      requires Valid() && Enumerates(order, custom.Keys)
      modifies this`clusterMap, this`numNodes
      ensures Valid()
      ensures View() == old(View()) + AutoMap(instanceNamePrefix, basePort, numInstances) + Overrides(custom)
      ensures ok <==> AllParse(custom)
      ensures ok ==> numNodes == Min(old(numNodes), |View()|)
      ensures !ok ==> numNodes == old(numNodes)
    {
      ghost var v0 := View();
      CreateAutoAssignedClusterMap(instanceNamePrefix, numInstances);
      ghost var v1 := View();
      ok := UpdateClusterMapPerUserPrefs(custom, order);
      ghost var v2 := View();
      assert v2 == v0 + AutoMap(instanceNamePrefix, basePort, numInstances) + Overrides(custom);
      if !ok {
        return;
      }
      assert |v2| == |clusterMap|;
      LimitNumNodes(|clusterMap|);
    }

    /** More nodes than instances would leave nodes idle: numNodes is lowered to n. */
    method LimitNumNodes(n: int)
      modifies this`numNodes
      ensures numNodes == Min(old(numNodes), n) && View() == old(View())
    {
      if numNodes > n {
        numNodes := n;
      }
    }

    /**
     * Reserves the selected slaves as cluster nodes after the DAS node and places the
     * instances on the first numNodes cluster nodes round-robin; fails, changing
     * nothing, when fewer than numNodes nodes are available.
     */
    method AssignClusterNodesToInstances(pool: seq<Node>, current: Node, draws: seq<nat>, order: seq<string>,
                                         homeOf: Node -> string)
      returns (ok: bool)
      requires Valid() && Enumerates(order, clusterMap.Keys)
      requires numNodes >= 1 || clusterMap == map[]
      requires current == clusterNodes[0].node
      modifies this, clusterMap.Values
      ensures Valid() && Config() == old(Config()) && clusterMap == old(clusterMap)
      ensures var selected := Selection(Shuffle(Candidates(pool, nodeSelectionLabel), draws), current, numNodes);
        && (ok <==> |selected| + 1 >= numNodes)
        && (!ok ==> clusterNodes == old(clusterNodes) && View() == old(View()))
        && (ok ==> clusterNodes == old(clusterNodes) + Hosts(selected, homeOf)
                   && (forall h :: h in Hosts(selected, homeOf) ==> h.node != clusterNodes[0].node)
                   && View() == Placement(old(View()), order, clusterNodes, numNodes))
    {
      HostsAvoidCurrent(Shuffle(Candidates(pool, nodeSelectionLabel), draws), current, numNodes, homeOf);
      var slaveNodes := SelectSlaveNodesForInstanceDeployment(numNodes, nodeSelectionLabel, pool, current, draws);
      if |slaveNodes| + 1 < numNodes {
        return false;
      }
      ReserveNodes(slaveNodes, homeOf);
      assert |order| > 0 ==> order[0] in clusterMap;
      PlaceRoundRobin(order);
      ok := true;
    }

    /** The loop over the instances: the j-th in iteration order goes to host (j mod numNodes) + 1. */
    method PlaceRoundRobin(order: seq<string>)
      requires Valid() && Enumerates(order, clusterMap.Keys)
      requires |order| == 0 || 1 <= numNodes <= |clusterNodes|
      modifies clusterMap.Values
      ensures Valid()
      ensures View() == Placement(old(View()), order, clusterNodes, numNodes)
    {
      var node_num := 0;
      ghost var initial := View();
      if |order| > 0 {
        PlacedPrefixNone(initial, order, clusterNodes, numNodes);
        ModSmall(0, numNodes);
      }
      var j := 0;
      while j < |order|
        invariant 0 <= j <= |order|
        invariant Valid()
        invariant |order| > 0 ==> node_num == j % numNodes
        invariant |order| > 0 ==> View() == PlacedPrefix(initial, order, clusterNodes, numNodes, j)
      {
        ghost var before := View();
        assert order[j] in order;
        node_num := node_num + 1;
        var cn := GetClusterNode(node_num);
        assert cn == Some(clusterNodes[j % numNodes]);
        PlaceInstance(order[j], cn);
        PlacedPrefixStep(View(), before, initial, order, clusterNodes, numNodes, j, order[j], cn.value);
        ModNext(j, numNodes);
        node_num := node_num % numNodes;
        j := j + 1;
      }
      if |order| > 0 {
        PlacedPrefixAll(initial, order, clusterNodes, numNodes);
      }
    }

    /** Appends a cluster node for each selected slave, on the home directory its installer uses. */
    method ReserveNodes(slaveNodes: seq<Node>, homeOf: Node -> string)
      requires Valid()
      modifies this`clusterNodes
      ensures Valid() && clusterNodes == old(clusterNodes) + Hosts(slaveNodes, homeOf) && View() == old(View())
    {
      var s := 0;
      while s < |slaveNodes|
        invariant 0 <= s <= |slaveNodes|
        invariant clusterNodes == old(clusterNodes) + Hosts(slaveNodes[..s], homeOf)
      {
        var node := slaveNodes[s];
        clusterNodes := clusterNodes + [ClusterNode(node, homeOf(node))];
        s := s + 1;
        assert Hosts(slaveNodes[..s], homeOf) == Hosts(slaveNodes[..s - 1], homeOf) + [ClusterNode(node, homeOf(node))];
      }
      assert slaveNodes[..s] == slaveNodes;
    }

    /** Places the instance filed under key on cn: its cluster node, node name and home directory. */
    method PlaceInstance(key: string, cn: Option<ClusterNode>)
      requires Valid() && key in clusterMap && cn.Some?
      modifies clusterMap[key]
      ensures Valid() && numNodes == old(numNodes) && clusterNodes == old(clusterNodes)
      ensures View() == old(View())[key := PlacedOn(old(View())[key], cn.value)]
    {
      var inst := clusterMap[key];
      ghost var before := View();
      inst.clusterNode := cn;
      inst.nodeName := inst.clusterNode.value.node.name;
      inst.s1asHome := Some(inst.clusterNode.value.home);
      forall k | k in clusterMap ensures View()[k] == before[key := PlacedOn(before[key], cn.value)][k] {
        if k != key {
          assert clusterMap[k].instanceName != inst.instanceName;
        }
      }
    }

    /** Re-resolves every instance's ports against what the probe reports free on its node. */
    method UpdateClusterMapPerPortAvailability(order: seq<string>, probe: (Node, int, string) -> int)
      requires Valid() && Enumerates(order, clusterMap.Keys) && AllPlaced(View())
      modifies clusterMap.Values
      ensures Valid() && View() == ProbedAll(old(View()), probe)
    {
      var j := 0;
      while j < |order|
        invariant 0 <= j <= |order|
        invariant Valid() && clusterMap == old(clusterMap) && View().Keys == old(View()).Keys
        invariant forall t :: 0 <= t < |order| ==>
          View()[order[t]] == if t < j then Probed(old(View())[order[t]], probe) else old(View())[order[t]]
      {
        ghost var before := View();
        ProbeAt(order[j], probe);
        ProbedPrefixStep(View(), before, old(View()), order, j, probe);
        j := j + 1;
      }
      ProbedPointwise(View(), old(View()), order, probe);
    }

    /** Re-resolves the ports of the instance filed under key; the others are untouched. */
    method ProbeAt(key: string, probe: (Node, int, string) -> int)
      requires Valid() && key in clusterMap && clusterMap[key].clusterNode.Some?
      modifies clusterMap.Values
      ensures Valid() && clusterMap == old(clusterMap)
      ensures View() == old(View())[key := Probed(old(View())[key], probe)]
    {
      var inst := clusterMap[key];
      forall k | k in clusterMap && k != key ensures clusterMap[k] != inst {
        assert clusterMap[k].instanceName == k;
      }
      inst.UpdatePerPortAvailability(probe);
    }

    /** clusterMap.put(name, gfi) for an instance restored from a property file. */
    method PutRestored(v: InstanceVal)
      requires Valid() && v.s1asHome.Some?
      requires v.basePort == 0 && v.clusterNode.None?
      modifies this
      ensures Valid() && Config() == old(Config()) && clusterNodes == old(clusterNodes)
      ensures View() == old(View())[v.name := v]
    {
      ghost var before := View();
      ghost var oldMap := clusterMap;
      var gfi := new Instance.Restore(v.name, v.nodeName, v.s1asHome.value, v.ports);
      assert View() == before;
      clusterMap := clusterMap[v.name := gfi];
      forall k | k in clusterMap ensures k in before[v.name := v] && View()[k] == before[v.name := v][k] {
        if k != v.name {
          assert clusterMap[k] == oldMap[k];
        }
      }
    }

    /**
     * createPropsFileForAntS: the DAS home and cluster name lines, then the instance
     * list with one ant record per instance in iteration order, written to
     * ant/cluster.properties; the result is whether the write succeeded (written).
     */
    method CreatePropsFileForAntS(order: seq<string>, written: bool) returns (ok: bool, text: string)
      requires Valid() && Enumerates(order, clusterMap.Keys)
      ensures ok == written
      ensures text == AntSText(clusterNodes[0].home, clusterName, AntSRecords(View(), order))
    {
      var clusterStr := "s1as.home=" + clusterNodes[0].home + "\n" + "cluster.name=" + NullText(clusterName) + "\n";
      var instanceStr := AntSInstanceList(order);
      AntSListUpToAll(View(), order);
      text := clusterStr + instanceStr;
      ok := written;
    }

    /** The loop of createPropsFileForAntS: "instancelist=" before the first record, a comma before each later one. */
    method AntSInstanceList(order: seq<string>) returns (instanceStr: string)
      requires Valid() && Enumerates(order, clusterMap.Keys)
      ensures instanceStr == AntSListUpTo(View(), order, |order|)
    {
      ghost var view := View();
      instanceStr := "";
      var j := 0;
      while j < |order|
        invariant 0 <= j <= |order|
        invariant instanceStr == AntSListUpTo(view, order, j)
      {
        var inst := clusterMap[order[j]];
        assert inst.Value() == view[order[j]];
        if |instanceStr| > 0 {
          instanceStr := instanceStr + ",";
        } else {
          instanceStr := "instancelist=";
        }
        instanceStr := instanceStr + PropsForAntS(inst.Value());
        j := j + 1;
      }
    }

    /**
     * createClusterPropsFiles: the cluster property text, five header lines and then
     * the property lines of each instance numbered from 1 in iteration order. It is
     * written to cluster.props (written says whether that succeeded); only then are
     * the ant properties written (antWritten), and the result is whether both were.
     */
    method CreateClusterPropsFiles(order: seq<string>, written: bool, antWritten: bool)
      returns (ok: bool, clusterStr: string)
      requires Valid() && Enumerates(order, clusterMap.Keys) && AllPlaced(View())
      ensures ok <==> written && antWritten
      ensures clusterStr == PlanText(clusterName, numNodes, dasNodeName, View(), order)
    {
      // Building the ant text changes nothing, so the cluster text is built after it here.
      ok := false;
      if written {
        var antText;
        ok, antText := CreatePropsFileForAntS(order, antWritten);
      }
      clusterStr := ClusterPropsText(order);
    }

    /** The text of cluster.props, built as createClusterPropsFiles builds it. */
    method ClusterPropsText(order: seq<string>) returns (clusterStr: string)
      requires Valid() && Enumerates(order, clusterMap.Keys) && AllPlaced(View())
      ensures clusterStr == PlanText(clusterName, numNodes, dasNodeName, View(), order)
    {
      assert |clusterMap| == |View()| by {
        assert clusterMap.Keys == View().Keys;
      }
      ghost var header := HeaderPairs(clusterName, numNodes, |View()|, dasNodeName);
      clusterStr := HeaderString(clusterName, numNodes, |clusterMap|, dasNodeName);
      clusterStr := AppendInstanceProps(clusterStr, header, order);
      PlanTextUpToAll(header, View(), order);
    }

    /** The loop of createClusterPropsFiles: the properties of each instance, numbered from 1, appended in turn. */
    method AppendInstanceProps(start: string, ghost header: seq<(string, string)>, order: seq<string>)
      returns (clusterStr: string)
      requires Valid() && Enumerates(order, clusterMap.Keys) && AllPlaced(View())
      requires start == PropsText(header)
      ensures clusterStr == PlanTextUpTo(header, View(), order, |order|)
    {
      ghost var view := View();
      clusterStr := start;
      var i := 0;
      while i < |order|
        invariant 0 <= i <= |order|
        invariant clusterStr == PlanTextUpTo(header, view, order, i)
      {
        var inst := clusterMap[order[i]];
        assert inst.Value() == view[order[i]];
        clusterStr := clusterStr + Props(inst.Value(), i + 1);
        i := i + 1;
      }
    }

    /**
     * loadClusterPropertiesFile: reads the cluster name, the node count and the instance
     * count, then instances 1..n in turn, each filed under its name, stopping at the
     * first bad one; the name and node count are stored even when the header is bad.
     */
    method LoadClusterPropertiesFile(props: map<string, string>) returns (success: bool)
      requires Valid()
      modifies this
      ensures Valid()
      ensures clusterName == GetStrProperty(props, "cluster_name")
      ensures numNodes == GetIntProperty(props, "cluster_numNodes", 1)
      ensures basePort == old(basePort) && dasNodeName == old(dasNodeName)
      ensures nodeSelectionLabel == old(nodeSelectionLabel) && clusterNodes == old(clusterNodes)
      ensures var n := GetIntProperty(props, "cluster_numInstances", 1);
        var headerOk := clusterName.Some? && numNodes != -1 && n != -1;
        && (success <==> headerOk && Loaded(props, n).1)
        && View() == old(View()) + (if headerOk then Loaded(props, n).0 else map[])
    {
      ghost var initial := View();
      var cn := GetStrProperty(props, "cluster_name");
      var nn := GetIntProperty(props, "cluster_numNodes", 1);
      SetHeader(cn, nn);
      var numInstances := GetIntProperty(props, "cluster_numInstances", 1);
      if cn.None? || nn == -1 || numInstances == -1 {
        assert initial + map[] == initial;
        return false;
      }
      success := LoadInstances(props, numInstances);
    }

    /** The loop of loadClusterPropertiesFile over instances 1..n. */
    method LoadInstances(props: map<string, string>, n: int) returns (success: bool)
      requires Valid() && n >= 0
      modifies this
      ensures Valid() && Config() == old(Config()) && clusterNodes == old(clusterNodes)
      ensures success == Loaded(props, n).1
      ensures View() == old(View()) + Loaded(props, n).0
    {
      ghost var initial := View();
      var i := 1;
      assert Loaded(props, 0) == (map[], true);
      assert initial + map[] == initial;
      while i <= n
        invariant 1 <= i <= n + 1
        invariant Valid() && Config() == old(Config()) && clusterNodes == old(clusterNodes)
        invariant Loaded(props, i - 1).1 && View() == initial + Loaded(props, i - 1).0
      {
        var entry := LoadEntry(props, i);
        if entry.None? {
          LoadedStopsAt(props, n, i);
          return false;
        }
        LoadEntryReads(props, i);
        ghost var before := View();
        PutRestored(entry.value);
        LoadedStep(View(), before, initial, props, i, entry.value);
        i := i + 1;
      }
      success := true;
    }

    /** Stores the cluster name and node count read from a property file. */
    method SetHeader(cn: Option<string>, nn: int)
      requires Valid()
      modifies this`clusterName, this`numNodes
      ensures Valid() && View() == old(View())
      ensures clusterName == cn && numNodes == nn
    {
      clusterName := cn;
      numNodes := nn;
    }
  }
}
