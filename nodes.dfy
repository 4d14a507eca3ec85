/**
 * The nodes of the build farm, as the cluster planner sees them. The hosting
 * runtime (Jenkins) owns them; the planner only reads their liveness, executor
 * count and labels, and keeps them by value.
 */
module Nodes {

  /** A build node: its name, whether it is online, its executor count and its labels. */
  datatype Node = Node(name: string, online: bool, numExecutors: int, labels: seq<string>)

  /** A node chosen for the cluster, with the GlassFish home directory its installer uses there. */
  datatype ClusterNode = ClusterNode(node: Node, home: string)

}
