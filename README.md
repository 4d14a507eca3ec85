# GlassFish cluster planning, modelled in Dafny

The Jenkins GlassFish plugin builds a GlassFish cluster on a set of Jenkins nodes.
Before installing anything it makes a plan. The plan has these parts:

- It fills a map from instance names to instances. The map starts with the
  auto-named instances `prefix1..prefixN`, each with a block of eight ports spaced
  0x100 apart. The user's `name=basePort` entries are then merged in.
- It lowers the node count to the number of instances.
- It picks slave nodes: online nodes, with executors, whose label matches
  ignoring case. They are taken in shuffled order, skipping the build's own node.
- It places the instances round-robin on the DAS node and then the slaves.
- It re-resolves every port through the node's port probe.
- It writes the plan as `cluster.props` text and as a property string for ant
  scripts.

The plugin can also rebuild the map from a property table. Its build step carries
form checks for the cluster size, cluster name and instance-name prefix.

The model has seven modules:

- `GlassFishInstance` (`glassfish_instance.dfy`): the class `Instance`, whose
  fields the cluster updates in place; its value `InstanceVal`; and its three
  text renderings.
- `GlassFishCluster` (`glassfish_cluster.dfy`): the class `Cluster`, with the
  instance map as a `map<string, Instance>` field, the cluster nodes as a `seq`,
  and the node count. Its methods are proved against specification functions
  (`AutoMap`, `Overrides`, `Placement`, `ProbedAll`, `PlanText`, `AntSText`,
  `Loaded`), and those functions have lemmas of their own.
- `NodeSelection` (`node_selection.dfy`): the node filter, the shuffle and the
  selection of slaves.
- `GlassFishBuilder` (`glassfish_builder.dfy`): the build step's trimmed settings,
  `numInstances` and the form checks, all pure.
- `JavaText` (`java_text.dfy`): the Java library behaviour the core relies on:
  `String.trim`, `Integer.parseInt`, `Integer.toString`, `equalsIgnoreCase`,
  joining and splitting, and `key=value` lines.
- `Nodes` and `Wrappers`: the node records and `Option`.

Things outside the program are parameters:

- The HashMap iteration order is a sequence `order` that lists each key once.
  Nothing else is assumed about it.
- `Collections.shuffle` is `Shuffle(s, draws)`. The draws are the random numbers,
  and every result is a permutation.
- `GlassFishClusterNode.getAvailablePort` is an oracle `probe(node, port, label)`.
- A node's GlassFish home directory is an oracle `homeOf(node)`.
- A property file is an already-parsed `map<string, string>`.
- Writing a file is a flag (`written`, `antWritten`) that says whether the write succeeded.

Where the code and its comments disagree, the model follows the code:

- The comment on `selectSlaveNodesForInstanceDeployment` says the build's node is
  the first element of the list. The code leaves that line commented out: it
  selects up to `num_nodes` other nodes, and the caller puts the DAS node in front
  (`GlassFishCluster.java:435-457`).
- The loader reads keys such as `instance1_name` and `instance1_GMS_LISTENER_PORT`.
  The writer writes `instance1.name` and never writes a GMS port. A written plan
  therefore never loads; `WrittenPlanNeverLoads` proves this rather than a round
  trip.

## Model

| member | source | states |
|---|---|---|
| GlassFishInstance.Instance.constructor | glassfish/src/main/java/hudson/plugins/glassfish/GlassFishInstance.java:60-71 | the eight ports are basePort..basePort+7 in declared order, basePort keeps its value, node name empty, not yet placed |
| GlassFishInstance.FreshBlock | glassfish/src/main/java/hudson/plugins/glassfish/GlassFishInstance.java:60-71 | a fresh instance keeps its name and base port, and port k is base + k |
| GlassFishInstance.Instance.UpdatePerPortAvailability | glassfish/src/main/java/hudson/plugins/glassfish/GlassFishInstance.java:75-99 | the new state is `Probed` of the old one: each port replaced by the node's probe answer for it, labelled "<name> <node>:<field>" |
| GlassFishInstance.Probed | glassfish/src/main/java/hudson/plugins/glassfish/GlassFishInstance.java:75-99 | name, node name, base port, cluster node and home are unchanged; port k becomes probe(node, old port k, label k) |
| GlassFishInstance.PortListDecodes | glassfish/src/main/java/hudson/plugins/glassfish/GlassFishInstance.java:104-116 | the port list ends in one space; before it, splitting at ':' gives exactly eight NAME=value fields, the port keys in declared order with the ports as values |
| GlassFishInstance.PropsForAntSFields | glassfish/src/main/java/hudson/plugins/glassfish/GlassFishInstance.java:120-131 | the ant record splits at ':' into exactly ten fields: node, the ports in AntSPortOrder, then name |
| GlassFishInstance.AntSPortOrderSwapsPairs | glassfish/src/main/java/hudson/plugins/glassfish/GlassFishInstance.java:120-131 | the ant port order is declared order except that iiop/iiop_ssl and mutualauth/jmx are swapped |
| GlassFishInstance.AntSFieldsAt | glassfish/src/main/java/hudson/plugins/glassfish/GlassFishInstance.java:120-131 | field 0 is the node name, field 9 the instance name, field k+1 the port at AntSPortOrder[k] |
| GlassFishInstance.PropsDecodes | glassfish/src/main/java/hudson/plugins/glassfish/GlassFishInstance.java:134-152 | getProps(i) reads back as exactly eleven lines keyed instance<i>.name, .node, .s1as.home and the eight port keys in declared order, holding name, node, home and ports |
| GlassFishInstance.InstancePairsAt | glassfish/src/main/java/hudson/plugins/glassfish/GlassFishInstance.java:134-152 | pair k is keyed by the instance prefix plus suffix k and holds the matching field |
| GlassFishInstance.InstancePairsWritable | glassfish/src/main/java/hudson/plugins/glassfish/GlassFishInstance.java:134-152 | for names, nodes and homes without newlines, no key holds '=' or a newline and no value holds a newline, so each pair is one line |
| GlassFishInstance.ToStr | glassfish/src/main/java/hudson/plugins/glassfish/GlassFishInstance.java:154-160 | the text starts with "<name> on " and, when not verbose, the rest is the node name |
| GlassFishInstance.ToStrVerboseExtends | glassfish/src/main/java/hudson/plugins/glassfish/GlassFishInstance.java:154-160 | the verbose text is the short text followed by ": " and the port list |
| GlassFishCluster.Cluster.constructor | glassfish/src/main/java/hudson/plugins/glassfish/GlassFishCluster.java:83-105 | the settings are stored, the build's node becomes the DAS node and the only cluster node, and the map is empty |
| GlassFishCluster.Cluster.GetDasClusterNode | glassfish/src/main/java/hudson/plugins/glassfish/GlassFishCluster.java:131-138 | null exactly when there are no cluster nodes, otherwise the first one |
| GlassFishCluster.Cluster.GetClusterNode | glassfish/src/main/java/hudson/plugins/glassfish/GlassFishCluster.java:140-147 | a node exactly when the list is non-empty and 1 <= hostNum <= numNodes, and then node hostNum-1 |
| GlassFishCluster.Cluster.CreateAutoAssignedClusterMap | glassfish/src/main/java/hudson/plugins/glassfish/GlassFishCluster.java:150-158 | the new map is the old one plus AutoMap(prefix, basePort, n); everything else is unchanged |
| GlassFishCluster.Cluster.PutFresh | glassfish/src/main/java/hudson/plugins/glassfish/GlassFishCluster.java:153-155 | the map gains or replaces one key with a fresh instance of that name and base port |
| GlassFishCluster.AutoMapKeys | glassfish/src/main/java/hudson/plugins/glassfish/GlassFishCluster.java:150-158 | every key of the auto map is prefix + i for some 1 <= i <= n |
| GlassFishCluster.AutoMapValues | glassfish/src/main/java/hudson/plugins/glassfish/GlassFishCluster.java:150-158 | for each 1 <= i <= n, key prefix + i holds a fresh instance with base port basePort + (i-1)*0x100 |
| GlassFishCluster.AutoMapSize | glassfish/src/main/java/hudson/plugins/glassfish/GlassFishCluster.java:150-158 | the auto map has n entries, none when n <= 0 |
| GlassFishCluster.AutoNameInjective | glassfish/src/main/java/hudson/plugins/glassfish/GlassFishCluster.java:153 | different numbers give different instance names |
| GlassFishCluster.AutoNameFresh | glassfish/src/main/java/hudson/plugins/glassfish/GlassFishCluster.java:152-156 | the loop never overwrites a name it put earlier |
| GlassFishCluster.Cluster.ApplyPreference | glassfish/src/main/java/hudson/plugins/glassfish/GlassFishCluster.java:186-204 | parsed exactly when the value is an int; then the key is added or replaced by a fresh block, otherwise the map is unchanged |
| GlassFishCluster.Cluster.ApplyEntry | glassfish/src/main/java/hudson/plugins/glassfish/GlassFishCluster.java:184-205 | one pass of the entry loop: the map gains the overrides of entries up to j, and all of them parse exactly when the earlier ones did and entry j parsed |
| GlassFishCluster.Cluster.UpdateClusterMapPerUserPrefs | glassfish/src/main/java/hudson/plugins/glassfish/GlassFishCluster.java:169-207 | the result is true exactly when every entry parses, and the new map is the old one overridden by every entry that parses, whatever the iteration order |
| GlassFishCluster.MergeOverrides | glassfish/src/main/java/hudson/plugins/glassfish/GlassFishCluster.java:184-206 | each parsing entry gets a fresh block under its name; keys without a parsing entry keep their instance; the key set grows by exactly the parsing entries; merging twice equals merging once |
| GlassFishCluster.OverridesPut | glassfish/src/main/java/hudson/plugins/glassfish/GlassFishCluster.java:184-206 | adding an entry adds its fresh block when it parses and changes nothing when it does not |
| GlassFishCluster.AllParsePut | glassfish/src/main/java/hudson/plugins/glassfish/GlassFishCluster.java:184-206 | the flag stays true after an entry exactly when it was true before and the entry parses |
| GlassFishCluster.Cluster.InitClusterMap | glassfish/src/main/java/hudson/plugins/glassfish/GlassFishCluster.java:325-343 | the map is auto map plus overrides; false exactly when an entry fails, with numNodes unchanged; on success numNodes becomes min(numNodes, map size) |
| GlassFishCluster.Cluster.LimitNumNodes | glassfish/src/main/java/hudson/plugins/glassfish/GlassFishCluster.java:338-340 | numNodes becomes min(numNodes, n) and the map is unchanged |
| NodeSelection.CandidatesExactly | glassfish/src/main/java/hudson/plugins/glassfish/GlassFishCluster.java:388-418 | a node is a candidate exactly when it is in the pool, online, has executors and carries the label ignoring case; candidates keep the pool's order |
| NodeSelection.FilterMembers | glassfish/src/main/java/hudson/plugins/glassfish/GlassFishCluster.java:388-418 | the filter keeps exactly the members that pass the test |
| NodeSelection.FilterSubseq | glassfish/src/main/java/hudson/plugins/glassfish/GlassFishCluster.java:388-418 | the filter keeps the order of the list it filters |
| NodeSelection.Shuffle | glassfish/src/main/java/hudson/plugins/glassfish/GlassFishCluster.java:419 | the shuffled list is a permutation of its input |
| NodeSelection.AvailableSlaveNodes | glassfish/src/main/java/hudson/plugins/glassfish/GlassFishCluster.java:382-421 | the result is the shuffled candidates, a permutation of the candidates |
| NodeSelection.SelectSlaveNodesForInstanceDeployment | glassfish/src/main/java/hudson/plugins/glassfish/GlassFishCluster.java:435-457 | the loop's result is `Selection` of the shuffled candidates |
| NodeSelection.SelectionProperties | glassfish/src/main/java/hudson/plugins/glassfish/GlassFishCluster.java:382-457 | at most numNodes nodes, never the current node, only candidates, in shuffled order; short of numNodes only when every other candidate was taken |
| NodeSelection.SelectionOf | glassfish/src/main/java/hudson/plugins/glassfish/GlassFishCluster.java:443-456 | from any list: a bounded, order-keeping prefix of the list without the current node |
| NodeSelection.SelectionLengthIndependentOfShuffle | glassfish/src/main/java/hudson/plugins/glassfish/GlassFishCluster.java:419-457 | how many nodes are selected does not depend on the shuffle |
| NodeSelection.WithoutLength | glassfish/src/main/java/hudson/plugins/glassfish/GlassFishCluster.java:449-452 | skipping the current node removes exactly its occurrences |
| JavaText.EqualsIgnoreCaseIsLowerEquality | glassfish/src/main/java/hudson/plugins/glassfish/GlassFishCluster.java:404 | the label comparison is equality after lowering ASCII letters |
| GlassFishCluster.Cluster.AssignClusterNodesToInstances | glassfish/src/main/java/hudson/plugins/glassfish/GlassFishCluster.java:212-237 | fails exactly when selected + 1 < numNodes, changing nothing; otherwise the cluster nodes gain the selection in order, none of the added hosts is the DAS node, and the map becomes `Placement` |
| GlassFishCluster.Cluster.ReserveNodes | glassfish/src/main/java/hudson/plugins/glassfish/GlassFishCluster.java:224-226 | the cluster nodes gain one node per selected slave, in order; the map is unchanged |
| GlassFishCluster.Cluster.PlaceRoundRobin | glassfish/src/main/java/hudson/plugins/glassfish/GlassFishCluster.java:228-234 | the new map is `Placement` of the old one |
| GlassFishCluster.HostsAvoidCurrent | glassfish/src/main/java/hudson/plugins/glassfish/GlassFishCluster.java:441-454 | no host built from a selection is the node the build runs on |
| GlassFishCluster.Cluster.PlaceInstance | glassfish/src/main/java/hudson/plugins/glassfish/GlassFishCluster.java:229-231 | one instance gets the cluster node, its node name and its home; nothing else changes |
| GlassFishCluster.PlacedOn | glassfish/src/main/java/hudson/plugins/glassfish/GlassFishCluster.java:229-231 | the placed instance keeps its name and ports and takes the node, node name and home of the cluster node |
| GlassFishCluster.PlacementRoundRobin | glassfish/src/main/java/hudson/plugins/glassfish/GlassFishCluster.java:228-234 | the j-th instance in iteration order is placed on cluster node j mod numNodes |
| GlassFishCluster.PlacementFirstOnDas | glassfish/src/main/java/hudson/plugins/glassfish/GlassFishCluster.java:228-234 | the first instance in iteration order lands on the DAS node |
| GlassFishCluster.PlacementUsesEveryNode | glassfish/src/main/java/hudson/plugins/glassfish/GlassFishCluster.java:228-234 | with at least numNodes instances, each of the first numNodes cluster nodes gets an instance |
| GlassFishCluster.Hosts | glassfish/src/main/java/hudson/plugins/glassfish/GlassFishCluster.java:224-226 | one cluster node per selected node, in order, with that node's home |
| GlassFishCluster.Cluster.UpdateClusterMapPerPortAvailability | glassfish/src/main/java/hudson/plugins/glassfish/GlassFishCluster.java:314-318 | the new map is `ProbedAll` of the old one: every instance re-probed, whatever the iteration order |
| GlassFishCluster.Cluster.ProbeAt | glassfish/src/main/java/hudson/plugins/glassfish/GlassFishCluster.java:316 | one instance is re-probed and nothing else changes |
| GlassFishCluster.ProbedAllKeepsPlacement | glassfish/src/main/java/hudson/plugins/glassfish/GlassFishCluster.java:314-318 | re-probing keeps every instance's name, node and home |
| GlassFishCluster.Cluster.CreateClusterPropsFiles | glassfish/src/main/java/hudson/plugins/glassfish/GlassFishCluster.java:543-570 | the text is `PlanText` of the map in iteration order; the result is true exactly when cluster.props and then the ant properties were both written |
| GlassFishCluster.Cluster.ClusterPropsText | glassfish/src/main/java/hudson/plugins/glassfish/GlassFishCluster.java:545-556 | the text built by the header and the loop is `PlanText` |
| GlassFishCluster.Cluster.AppendInstanceProps | glassfish/src/main/java/hudson/plugins/glassfish/GlassFishCluster.java:553-556 | the loop appends getProps(1..n) in iteration order |
| GlassFishCluster.HeaderString | glassfish/src/main/java/hudson/plugins/glassfish/GlassFishCluster.java:545-551 | the header text is the five header pairs as key=value lines |
| GlassFishCluster.HeaderText | glassfish/src/main/java/hudson/plugins/glassfish/GlassFishCluster.java:545-551 | the header is cluster_name, cluster_numNodes, cluster_numInstances, das_node and das_port=4848 lines |
| GlassFishCluster.PlanTextDecodes | glassfish/src/main/java/hudson/plugins/glassfish/GlassFishCluster.java:543-556 | the plan reads back as the five header pairs, with cluster_numInstances the map size, then the eleven pairs of the j-th instance numbered j+1 |
| GlassFishCluster.PlanTextParses | glassfish/src/main/java/hudson/plugins/glassfish/GlassFishCluster.java:543-556 | the plan reads back as exactly the header pairs followed by the instance pairs |
| GlassFishCluster.ClusterPairsAt | glassfish/src/main/java/hudson/plugins/glassfish/GlassFishCluster.java:553-556 | the instance pairs are getProps(j+1) of the j-th instance, in iteration order |
| GlassFishCluster.Cluster.CreatePropsFileForAntS | glassfish/src/main/java/hudson/plugins/glassfish/GlassFishCluster.java:461-482 | the text written is `AntSText` of the DAS home, the cluster name and the instance records in iteration order; the result is whether the write succeeded |
| GlassFishCluster.Cluster.AntSInstanceList | glassfish/src/main/java/hudson/plugins/glassfish/GlassFishCluster.java:467-479 | the loop builds "instancelist=" followed by the comma-joined records, or nothing when the map is empty |
| GlassFishCluster.AntSListUpTo | glassfish/src/main/java/hudson/plugins/glassfish/GlassFishCluster.java:467-479 | the list is non-empty exactly when some instance has been visited |
| GlassFishCluster.AntSTextLines | glassfish/src/main/java/hudson/plugins/glassfish/GlassFishCluster.java:463-479 | the ant text has three lines: s1as.home=<DAS home>, cluster.name=<name> and the instance list, which is empty without instances |
| GlassFishCluster.AntSListSplits | glassfish/src/main/java/hudson/plugins/glassfish/GlassFishCluster.java:467-479 | with instances, the list is "instancelist=" followed by the records, and splitting at ',' gives back one record per instance in order |
| GlassFishCluster.GetStrProperty | glassfish/src/main/java/hudson/plugins/glassfish/GlassFishCluster.java:704-711 | null exactly when the key is absent, otherwise the trimmed value |
| GlassFishCluster.GetIntProperty | glassfish/src/main/java/hudson/plugins/glassfish/GlassFishCluster.java:714-734 | the parsed value when the key is present, the value is an int and it is at least minValue; -1 otherwise |
| GlassFishCluster.IntPropertyFailsIff | glassfish/src/main/java/hudson/plugins/glassfish/GlassFishCluster.java:714-734 | for minValue >= 0, -1 means exactly that the property is missing, not an int or too small |
| GlassFishCluster.LoadPorts | glassfish/src/main/java/hudson/plugins/glassfish/GlassFishCluster.java:634-658 | the ports of instance i are read exactly when all eight declared port keys hold ints of at least 1 (the GMS listener key is checked by `LoadEntry`) |
| GlassFishCluster.LoadEntry | glassfish/src/main/java/hudson/plugins/glassfish/GlassFishCluster.java:609-676 | instance i is read exactly when all of its twelve keys are good |
| GlassFishCluster.LoadEntryReads | glassfish/src/main/java/hudson/plugins/glassfish/GlassFishCluster.java:609-676 | a read instance has the trimmed name, node and home and the eight ports in declared order |
| GlassFishCluster.Cluster.LoadClusterPropertiesFile | glassfish/src/main/java/hudson/plugins/glassfish/GlassFishCluster.java:580-701 | the cluster name and node count are stored; it fails on a bad header and changes no instance; otherwise it adds `Loaded` instances 1..n and succeeds exactly when they all load |
| GlassFishCluster.Cluster.LoadInstances | glassfish/src/main/java/hudson/plugins/glassfish/GlassFishCluster.java:608-677 | the map gains `Loaded(props, n)`, and the result is whether every instance loaded |
| GlassFishCluster.LoadedOkIff | glassfish/src/main/java/hudson/plugins/glassfish/GlassFishCluster.java:608-677 | loading succeeds exactly when every instance 1..n is good |
| GlassFishCluster.LoadedStopsAt | glassfish/src/main/java/hudson/plugins/glassfish/GlassFishCluster.java:608-677 | when instances 1..p-1 loaded and instance p is bad, the load fails and keeps exactly instances 1..p-1 |
| GlassFishCluster.LoadedEntries | glassfish/src/main/java/hudson/plugins/glassfish/GlassFishCluster.java:608-677 | every loaded instance is filed under its own name and is the entry of some 1 <= i <= n |
| GlassFishCluster.WrittenPlanNeverLoads | glassfish/src/main/java/hudson/plugins/glassfish/GlassFishCluster.java:611-658 | a table holding only keys the writer writes never yields an instance, so loading n >= 1 instances from it fails |
| GlassFishCluster.GmsKeyNotWritten | glassfish/src/main/java/hudson/plugins/glassfish/GlassFishCluster.java:655 | the GMS port key the loader demands is never among the written keys |
| GlassFishBuilder.NewBuilder | glassfish/src/main/java/hudson/plugins/glassfish/GlassFishBuilder.java:71-86 | the flags are kept and each of the four text fields is stored as its argument trimmed |
| GlassFishBuilder.NewBuilderIdempotent | glassfish/src/main/java/hudson/plugins/glassfish/GlassFishBuilder.java:80-84 | building the step again from its stored settings changes nothing |
| GlassFishBuilder.NumInstances | glassfish/src/main/java/hudson/plugins/glassfish/GlassFishBuilder.java:117-124 | the result is parseInt's value of the stored size when it parses and -1 when it does not, so a non-negative count is always a parsed 32-bit int; `NumInstancesOfInt` and `ClusterSizeCheckMatchesNumInstances` relate it to the typed size and the size check |
| GlassFishBuilder.NumInstancesOfInt | glassfish/src/main/java/hudson/plugins/glassfish/GlassFishBuilder.java:117-124 | a 32-bit cluster size typed with spaces around it is read back as that number |
| GlassFishBuilder.DoCheckClusterName | glassfish/src/main/java/hudson/plugins/glassfish/GlassFishBuilder.java:206-217 | error exactly when the trimmed name is empty, warning exactly when it is over 99 chars, each with its message |
| GlassFishBuilder.DoCheckInstanceNamePrefix | glassfish/src/main/java/hudson/plugins/glassfish/GlassFishBuilder.java:219-230 | error exactly when the trimmed prefix is empty, warning exactly when it is over 99 chars, each with its message |
| GlassFishBuilder.NameChecksErrorIff | glassfish/src/main/java/hudson/plugins/glassfish/GlassFishBuilder.java:206-230 | a name check fails exactly on text made only of space chars |
| GlassFishBuilder.NameChecksAgreeOnStored | glassfish/src/main/java/hudson/plugins/glassfish/GlassFishBuilder.java:206-230 | the stored, trimmed name gets the same verdict as the typed text |
| GlassFishBuilder.DoCheckClusterSize | glassfish/src/main/java/hudson/plugins/glassfish/GlassFishBuilder.java:232-254 | an empty text is an error "Please set the Cluster Size"; any warning is "Are you sure ?"; any other error is "Invalid Cluster Size!" |
| GlassFishBuilder.ClusterSizeCheckMatchesNumInstances | glassfish/src/main/java/hudson/plugins/glassfish/GlassFishBuilder.java:117-124 | the size check is ok exactly when the step plans 1..99 instances, a warning when more, an error when fewer or unparseable |
| JavaText.Trim | glassfish/src/main/java/hudson/plugins/glassfish/GlassFishCluster.java:710 | the result is the input with space chars removed from both ends |
| JavaText.TrimIdempotent | glassfish/src/main/java/hudson/plugins/glassfish/GlassFishBuilder.java:80-84 | trimming twice equals trimming once |
| JavaText.TrimEmptyIff | glassfish/src/main/java/hudson/plugins/glassfish/GlassFishBuilder.java:208-210 | trimming gives empty text exactly when the text is made only of space chars |
| JavaText.ParseInt | glassfish/src/main/java/hudson/plugins/glassfish/GlassFishCluster.java:722 | the text parses exactly when it is an optional '-' or '+' followed by at least one digit whose signed value fits in 32 bits, and the result is that signed value |
| JavaText.ParseIntSamples | glassfish/src/main/java/hudson/plugins/glassfish/GlassFishCluster.java:722 | a '+' sign and leading zeros are accepted; the empty text, a lone sign, a leading space and letters are refused |
| JavaText.ParseIntToString | glassfish/src/main/java/hudson/plugins/glassfish/GlassFishCluster.java:722 | every 32-bit int written in decimal parses back to itself |
| JavaText.ParsePropsText | glassfish/src/main/java/hudson/plugins/glassfish/GlassFishCluster.java:543-556 | key=value lines without '=' in keys or newlines anywhere read back as the same pairs |

## Left out

- Installing, copying and deleting GlassFish and copying logs are left out. They are remote file I/O (`GlassFishCluster.java:240-312, 489-541`).
- `createFile` is left out. It writes through Jenkins' remote file API, so the writers take whether each write succeeded as a flag (`written`, `antWritten`).
- `Properties.load` escaping, line continuations and its `IOException` path are left out. Property texts are already-parsed maps (the user's overrides and the loaded file), and an unreadable file is not modelled.
- `Cluster.UpdateClusterMapPerUserPrefs` does not model the `IOException` return of `Properties.load` (`GlassFishCluster.java:176-182`), for the same reason.
- `verifyDasPortAvailability` and `GlassFishClusterNode.getAvailablePort` are not part of this model. The port probe is an oracle parameter, and nothing is assumed about what it returns.
- The `GlassFishCluster` constructor's Jenkins lookups are left out. `Computer.currentComputer()` and building `GlassFishClusterNode` objects become the `current` node and the `homeOf` oracle.
- `Cluster.LoadClusterPropertiesFile` does not rebuild `clusterNodes` after a successful load (`GlassFishCluster.java:693-699`). That step looks each node up in the running Jenkins instance, which is outside the model, so the contract states the cluster nodes unchanged.
- `Cluster.LoadClusterPropertiesFile` reads the GMS port but does not keep it. The instance model has only the eight declared ports, and the 14-argument constructor it calls is not in `GlassFishInstance.java`. A loaded instance is built by `Instance.Restore`, which has base port 0 and no cluster node.
- `GlassFishInstance.java` as it stands has no `s1as_home` field and no 4-argument constructor, although `GlassFishCluster.java` uses both. The model gives `Instance` an optional home that placement sets, and a 2-argument constructor matching the 3-argument one (the cluster back-reference is dropped).
- `Cluster.GetClusterNode` requires host numbers that pass the guard to lie within the node list. Beyond it Java's `ArrayList.get` would throw `IndexOutOfBoundsException`, which the model does not represent.
- `Cluster.PlaceInstance` models `getClusterNode(++node_num)` only when that call returns a node, which holds when `numNodes >= 1`. The `null` it gives otherwise is the crash described for `Cluster.AssignClusterNodesToInstances`.
- Cluster.AssignClusterNodesToInstances: requires `numNodes >= 1` or an empty cluster map. With `numNodes <= 0` and at least one instance, Java passes the size check at `GlassFishCluster.java:218`, then `getClusterNode(1)` returns `null` and line 230 throws `NullPointerException` (and `% numNodes` at line 233 would divide by zero). The model does not represent that crash.
- Cluster.AssignClusterNodesToInstances: requires `current` to be the DAS node. Java takes both from `Computer.currentComputer()` in the same build.
- Cluster.constructor: takes the node count as an `int`. `Integer.parseInt(numNodes)` at `GlassFishCluster.java:97` throws `NumberFormatException` on text that is not an integer, and that failure is not modelled.
- JavaText.ParseInt: accepts only the ASCII digits '0'..'9'. Java's `Character.digit` also accepts other Unicode decimal digits (Arabic-Indic digits, for example), which the model refuses.
- `NodeSelection.SelectSlaveNodesForInstanceDeployment` returns an empty selection for a negative node count. Java's `new ArrayList(num_nodes)` would throw there.
- Java `int` overflow in `basePort + (i-1)*0x100` and in the eight-port block is not modelled; ports are unbounded integers. The parsers (`ParseInt`) do keep Java's 32-bit range.
- GlassFishBuilder.DoCheckClusterName, GlassFishBuilder.DoCheckInstanceNamePrefix: the 99-character limit counts Unicode scalar values (Dafny chars). Java's `value.length()` (`GlassFishBuilder.java:212, 225`) counts UTF-16 code units, so a name with characters outside the Basic Multilingual Plane (emoji, for example) can pass here and get Java's warning.
- `String.trim` and `equalsIgnoreCase` are modelled on chars: trim removes chars up to U+0020, and case is folded for ASCII letters only, not for the rest of Unicode.
- `listInstances`, `println` and all logging are left out. They only print.
- `updateClusterMap` and `createClusterProperties` are left out. They call `AssignClusterNodesToInstances`, `UpdateClusterMapPerPortAvailability` and `CreateClusterPropsFiles` in order and stop at the first failure.
- `GlassFishBuilder.perform` and `doCheckZipBundleURL` are left out. They are build orchestration and URL/file parsing. `numInstances`, whose negative result makes `perform` abort, is modelled.
- The getters of `GlassFishBuilder` are left out. They are the fields of `GlassFishBuilder.Builder`.
