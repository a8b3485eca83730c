/**
 * The vocabulary of editor nodes (IGraphNode.cs): node classes with their
 * widget state, the engine's port helpers, neighbour-name filters and the
 * answer of a CanConnectWhen... query.
 */
module GraphNodes {
  import opened Wrappers
  import opened GraphModel

  /**
   * The node classes of this plugin, with the widget state their CustomData
   * reads and writes: TestNode ("dialogue") holds a spin box and a text
   * edit, TestNode2 ("choice") a spin box, TestNode3 ("test_3") a stored
   * custom-data dictionary and a spin box.
   */
  datatype NodeClass =
    | Dialogue(idSpin: int, text: string)
    | Choice(idSpin: int)
    | Test3(data: Option<CustomData>, spin: real)

  /**
   * The engine's port helpers for one node: the port index of slot 0 on
   * each side (GetInputPortBySlot(0), GetOutputPortBySlot(0); None is a
   * null int?) and GetInputPortType. They are not part of this model, so
   * they are given per node.
   */
  datatype PortSlots = PortSlots(inputSlot0: Option<int>, outputSlot0: Option<int>, inputPortType: int -> int)

  /** A node on the canvas: its engine Name, its class and state, its port helpers and its position. */
  datatype GraphNode = GraphNode(name: string, kind: NodeClass, slots: PortSlots, position: Vector2)

  /**
   * The set returned by GetValid...NodeNamesForPort: null (AnyNode) accepts
   * any neighbour, a set accepts exactly its names, the empty set none.
   */
  datatype NameFilter = AnyNode | Only(names: set<string>)

  /** Whether a filter accepts a neighbour of the given node type. */
  predicate Admits(f: NameFilter, nodeType: string) {
    f.AnyNode? || nodeType in f.names
  }

  /** The bool result and the out port of CanConnectWhenIsOutput / CanConnectWhenIsInput. */
  datatype PortAnswer = PortAnswer(ok: bool, port: int)

  /** The refusal every sample returns: false with the out port set to -1. */
  const Refused := PortAnswer(false, -1)

  /** The first node of the list with the given name (FirstOrDefault by Name), as an index. */
  function FindIndex(nodes: seq<GraphNode>, name: string): (r: Option<nat>)
    ensures r.Some? ==> r.value < |nodes| && nodes[r.value].name == name &&
                        forall j :: 0 <= j < r.value ==> nodes[j].name != name
    ensures r.None? ==> forall j :: 0 <= j < |nodes| ==> nodes[j].name != name
  {
    if nodes == [] then None
    else if nodes[0].name == name then Some(0)
    else match FindIndex(nodes[1..], name)
      case None => None
      case Some(i) => Some(i + 1)
  }

  /** The first node with the given name, or null. */
  function FindNode(nodes: seq<GraphNode>, name: string): (r: Option<GraphNode>)
    ensures r.Some? <==> exists j :: 0 <= j < |nodes| && nodes[j].name == name
    ensures r.Some? ==> r.value.name == name
  {
    match FindIndex(nodes, name)
    case None => None
    case Some(i) => Some(nodes[i])
  }
}
