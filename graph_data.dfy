/**
 * The graph snapshot records exchanged between the editor and the text codec:
 * nodes, ported connections, whole graphs, parsed fragments and the result of
 * decoding one fragment. They are plain values without behaviour.
 */
module GraphModel {
  import opened Wrappers

  /** A boxed value stored in a node's custom data (`object` in the source). */
  datatype Value = IntVal(i: int) | RealVal(r: real) | TextVal(s: string) | BoolVal(b: bool)

  /** `Dictionary<string, object>`: node-type specific payload. */
  type CustomData = map<string, Value>

  /** A 2D coordinate; the float arithmetic on it is not part of this model. */
  datatype Vector2 = Vector2(x: real, y: real)

  /** One node of a graph snapshot. An absent position means "needs layout". */
  datatype NodeData = NodeData(
    nodeId: string,
    nodeType: string,
    position: Option<Vector2>,
    customData: Option<CustomData>)

  /** One directed edge from an output port to an input port. */
  datatype ConnectionData = ConnectionData(
    outputNodeId: string,
    outputPort: int,
    inputNodeId: string,
    inputPort: int)

  /** A graph snapshot; it also serves as the serialization context. */
  datatype GraphData = GraphData(nodes: seq<NodeData>, connections: seq<ConnectionData>)

  /** A fragment recognised by the text parser: header plus opaque body. */
  datatype ParsedNodeFragment = ParsedNodeFragment(nodeId: string, nodeType: string, text: string)

  /** What a node serializer decodes from one fragment body. */
  datatype NodeDeserializeResult = NodeDeserializeResult(
    customData: Option<CustomData>,
    positionHint: Option<Vector2>)
}
