/**
 * The parts of a decoded compose file the checks look at. YAML decoding itself is not modelled:
 * a workspace supplies, for every compose file that decodes, its `services` mapping.
 */
module Compose {
  import opened Options

  /** The kinds of a yaml.v3 node; `ZeroKind` is the kind of a node the document did not set. */
  datatype NodeKind = ZeroKind | DocumentNode | SequenceNode | MappingNode | ScalarNode | AliasNode

  /** A yaml.v3 node: a mapping's `content` alternates keys and values. */
  datatype Node = Node(kind: NodeKind, value: string, content: seq<Node>)

  /** The node of an absent `depends_on` field. */
  const AbsentNode := Node(ZeroKind, "", [])

  /**
   * The `build` field decoded into an empty interface: absent or null, a string, a mapping
   * (`context` and `dockerfile` present only when their values are strings) or any other value.
   */
  datatype BuildSpec =
    | NoBuild
    | BuildString(path: string)
    | BuildObject(context: Option<string>, dockerfile: Option<string>)
    | BuildOther

  datatype Service = Service(dependsOn: Node, build: BuildSpec)
}
