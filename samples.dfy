/**
 * The three sample node classes (TestNode, TestNode2, TestNode3) and the
 * IGraphNode members dispatched over them: node types, port capacities,
 * valid-neighbour name sets, connection predicates, custom data and the
 * metadata listener of TestNode3.
 */
module Samples {
  import opened Wrappers
  import opened GraphModel
  import opened GraphNodes

  const DialogueName: string := "dialogue"
  const ChoiceName: string := "choice"
  const Test3Name: string := "test_3"

  /** The NodeType of a node, which is the static NodeName its class registers its factory under. */
  function NodeType(k: NodeClass): (r: string)
    ensures r in {DialogueName, ChoiceName, Test3Name}
    ensures k.Dialogue? <==> r == DialogueName
    ensures k.Choice? <==> r == ChoiceName
    ensures k.Test3? <==> r == Test3Name
  {
    match k
    case Dialogue(_, _) => DialogueName
    case Choice(_) => ChoiceName
    case Test3(_, _) => Test3Name
  }

  /** Node types tell the classes apart. */
  lemma NodeTypeIdentifiesClass(a: NodeClass, b: NodeClass)
    ensures NodeType(a) == NodeType(b) <==>
      (a.Dialogue? && b.Dialogue?) || (a.Choice? && b.Choice?) || (a.Test3? && b.Test3?)
  {
  }

  // ------------------------------------------------------------- capacities

  /** Maximum connections on an output port; -1 means unlimited. */
  function GetMaxOutputConnections(k: NodeClass, outputPort: int): (r: int)
    ensures r >= -1
    ensures r == -1 <==> k.Choice?
  {
    match k
    case Dialogue(_, _) => 1
    case Choice(_) => -1
    case Test3(_, _) => 1
  }

  /** Maximum connections on an input port; -1 means unlimited. */
  function GetMaxInputConnections(k: NodeClass, inputPort: int): (r: int)
    ensures r >= -1
    ensures r == -1 <==> k.Choice?
  {
    match k
    case Dialogue(_, _) => 3
    case Choice(_) => -1
    case Test3(_, _) => 1
  }

  /** The capacity table: the same limit on every port of a class. */
  lemma CapacitiesArePerClass(k: NodeClass, p: int, q: int)
    ensures GetMaxOutputConnections(k, p) == GetMaxOutputConnections(k, q)
    ensures GetMaxInputConnections(k, p) == GetMaxInputConnections(k, q)
    ensures k.Dialogue? ==> GetMaxInputConnections(k, p) == 3 && GetMaxOutputConnections(k, p) == 1
    ensures k.Test3? ==> GetMaxInputConnections(k, p) == 1 && GetMaxOutputConnections(k, p) == 1
  {
  }

  // ------------------------------------------------------- neighbour filters

  /** Who may output to the given input port of this node. */
  function GetValidFromNodeNamesForPort(n: GraphNode, inputPort: int): (r: NameFilter)
    ensures r.Only?
    ensures n.kind.Test3? ==> r.names == {Test3Name}
    ensures !n.kind.Test3? && n.slots.inputSlot0 != Some(inputPort) ==> r.names == {}
    ensures n.kind.Dialogue? && n.slots.inputSlot0 == Some(inputPort) ==> r.names == {DialogueName, ChoiceName}
    ensures n.kind.Choice? && n.slots.inputSlot0 == Some(inputPort) ==> r.names == {DialogueName}
  {
    match n.kind
    case Dialogue(_, _) => if n.slots.inputSlot0 == Some(inputPort) then Only({"dialogue", "choice"}) else Only({})
    case Choice(_) => if n.slots.inputSlot0 == Some(inputPort) then Only({"dialogue"}) else Only({})
    case Test3(_, _) => Only({"test_3"})
  }

  /** Whom the given output port of this node may output to. */
  function GetValidToNodeNamesForPort(n: GraphNode, outputPort: int): (r: NameFilter)
    ensures r.Only?
    ensures n.kind.Test3? ==> r.names == {Test3Name}
    ensures !n.kind.Test3? && n.slots.outputSlot0 != Some(outputPort) ==> r.names == {}
    ensures n.kind.Dialogue? && n.slots.outputSlot0 == Some(outputPort) ==> r.names == {DialogueName, ChoiceName}
    ensures n.kind.Choice? && n.slots.outputSlot0 == Some(outputPort) ==> r.names == {DialogueName}
  {
    match n.kind
    case Dialogue(_, _) => if n.slots.outputSlot0 == Some(outputPort) then Only({"dialogue", "choice"}) else Only({})
    case Choice(_) => if n.slots.outputSlot0 == Some(outputPort) then Only({"dialogue"}) else Only({})
    case Test3(_, _) => Only({"test_3"})
  }

  /** Every name a sample admits is the node type of a sample class; test_3 nodes and the others never admit each other. */
  lemma FiltersNameNodeTypes(n: GraphNode, port: int, name: string)
    ensures Admits(GetValidFromNodeNamesForPort(n, port), name) ==>
      exists k: NodeClass :: NodeType(k) == name && (k.Test3? <==> n.kind.Test3?)
    ensures Admits(GetValidToNodeNamesForPort(n, port), name) ==>
      exists k: NodeClass :: NodeType(k) == name && (k.Test3? <==> n.kind.Test3?)
  {
    if name == DialogueName {
      assert NodeType(Dialogue(0, "")) == name;
    } else if name == ChoiceName {
      assert NodeType(Choice(0)) == name;
    } else if name == Test3Name {
      assert NodeType(Test3(None, 0.0)) == name;
    }
  }

  // ---------------------------------------------------- connection predicates

  /**
   * The rule TestNode and TestNode2 share: refuse unless the peer is a node,
   * the peer's valid-from set for the peer port holds this class's name, the
   * peer is a dialogue or choice node and the peer's port type is 0; then
   * answer with the given port of this node.
   */
  function SlotPolicy(ownName: string, peer: Option<GraphNode>, peerPort: int, answerPort: int): (r: PortAnswer)
    ensures !r.ok ==> r == Refused
    ensures r.ok <==> peer.Some? && Admits(GetValidFromNodeNamesForPort(peer.value, peerPort), ownName) &&
                      (peer.value.kind.Dialogue? || peer.value.kind.Choice?) &&
                      peer.value.slots.inputPortType(peerPort) == 0
    ensures r.ok ==> r.port == answerPort
  {
    if peer.None? then Refused
    else if !Admits(GetValidFromNodeNamesForPort(peer.value, peerPort), ownName) then Refused
    else if peer.value.kind.Dialogue? || peer.value.kind.Choice? then
      if peer.value.slots.inputPortType(peerPort) == 0 then PortAnswer(true, answerPort) else Refused
    else Refused
  }

  /** This node as output: may it feed `inputPort` of `input`, and from which of its own ports? */
  function CanConnectWhenIsOutput(self: GraphNode, input: Option<GraphNode>, inputPort: int): (r: PortAnswer)
    ensures !r.ok ==> r == Refused
    ensures r.ok ==> input.Some?
    ensures self.kind.Test3? ==> (r.ok <==> input.Some? && input.value.kind.Test3?) && (r.ok ==> r.port == 0)
    ensures !self.kind.Test3? ==> r == SlotPolicy(NodeType(self.kind), input, inputPort, self.slots.inputSlot0.GetOr(0))
  {
    match self.kind
    case Dialogue(_, _) => SlotPolicy(DialogueName, input, inputPort, self.slots.inputSlot0.GetOr(0))
    case Choice(_) => SlotPolicy(ChoiceName, input, inputPort, self.slots.inputSlot0.GetOr(0))
    case Test3(_, _) => if input.Some? && input.value.kind.Test3? then PortAnswer(true, 0) else Refused
  }

  /** This node as input: may `output` feed it from `outputPort`, and into which of its own ports? */
  function CanConnectWhenIsInput(self: GraphNode, output: Option<GraphNode>, outputPort: int): (r: PortAnswer)
    ensures !r.ok ==> r == Refused
    ensures r.ok ==> output.Some?
    ensures self.kind.Test3? ==> (r.ok <==> output.Some? && output.value.kind.Test3?) && (r.ok ==> r.port == 0)
    ensures !self.kind.Test3? ==> r == SlotPolicy(NodeType(self.kind), output, outputPort, self.slots.outputSlot0.GetOr(0))
  {
    match self.kind
    case Dialogue(_, _) => SlotPolicy(DialogueName, output, outputPort, self.slots.outputSlot0.GetOr(0))
    case Choice(_) => SlotPolicy(ChoiceName, output, outputPort, self.slots.outputSlot0.GetOr(0))
    case Test3(_, _) => if output.Some? && output.value.kind.Test3? then PortAnswer(true, 0) else Refused
  }

  /** test_3 nodes connect only to each other, both ways, always on port 0. */
  lemma Test3ConnectsOnlyToTest3(self: GraphNode, peer: GraphNode, port: int)
    requires self.kind.Test3? || peer.kind.Test3?
    ensures CanConnectWhenIsOutput(self, Some(peer), port).ok ==> self.kind.Test3? && peer.kind.Test3?
    ensures CanConnectWhenIsInput(self, Some(peer), port).ok ==> self.kind.Test3? && peer.kind.Test3?
    ensures self.kind.Test3? && peer.kind.Test3? ==>
      CanConnectWhenIsOutput(self, Some(peer), port) == PortAnswer(true, 0) &&
      CanConnectWhenIsInput(self, Some(peer), port) == PortAnswer(true, 0)
  {
  }

  /** A choice node never accepts a choice node on either side. */
  lemma ChoiceRefusesChoice(self: GraphNode, peer: GraphNode, port: int)
    requires self.kind.Choice? && peer.kind.Choice?
    ensures !CanConnectWhenIsOutput(self, Some(peer), port).ok
    ensures !CanConnectWhenIsInput(self, Some(peer), port).ok
  {
  }

  // -------------------------------------------------------------- custom data

  /** The CustomData getter. */
  function CustomDataOf(k: NodeClass): (r: Option<CustomData>)
    ensures k.Dialogue? ==> r.Some? && r.value.Keys == {"id", "text"}
    ensures k.Choice? ==> r.Some? && r.value.Keys == {"id"}
    ensures k.Test3? ==> r == k.data
  {
    match k
    case Dialogue(idSpin, text) => Some(map["id" := IntVal(idSpin), "text" := TextVal(text)])
    case Choice(idSpin) => Some(map["id" := IntVal(idSpin)])
    case Test3(data, _) => data
  }

  /** The widget state after a CustomData assignment, and the exception it threw, if any. */
  datatype Assigned = Assigned(kind: NodeClass, fault: Option<Exception>)

  /** A dictionary entry unboxed with a cast: missing key, wrong boxed type, or the value. */
  function Unbox(value: CustomData, key: string, isRequestedType: Value -> bool): (r: Outcome<Value>)
    ensures r.Ok? <==> key in value && isRequestedType(value[key])
    ensures r.Ok? ==> r.value == value[key]
    ensures r.Throws? ==> r.error == (if key in value then InvalidCast else KeyNotFound)
  {
    if key !in value then Throws(KeyNotFound)
    else if !isRequestedType(value[key]) then Throws(InvalidCast)
    else Ok(value[key])
  }

  /**
   * The CustomData setter. TestNode and TestNode2 read "id" as an int into
   * the spin box, TestNode then "text" as a string into the text edit;
   * the spin box is already written when reading "text" fails. TestNode3
   * stores the dictionary as given.
   */
  function AssignCustomData(k: NodeClass, value: Option<CustomData>): (r: Assigned)
    ensures r.kind.Dialogue? == k.Dialogue? && r.kind.Choice? == k.Choice? && r.kind.Test3? == k.Test3?
    ensures k.Test3? ==> r == Assigned(k.(data := value), None)
    ensures !k.Test3? && value.None? ==> r == Assigned(k, Some(NullReference))
    ensures !k.Test3? ==> (r.fault.None? <==>
      value.Some? && "id" in value.value && value.value["id"].IntVal? &&
      (k.Dialogue? ==> "text" in value.value && value.value["text"].TextVal?))
    ensures !k.Test3? && r.fault.None? ==> r.kind.idSpin == value.value["id"].i
    ensures k.Dialogue? && r.fault.None? ==> r.kind.text == value.value["text"].s
  {
    match k
    case Test3(_, spin) => Assigned(Test3(value, spin), None)
    case Choice(_) =>
      if value.None? then Assigned(k, Some(NullReference))
      else (match Unbox(value.value, "id", (v: Value) => v.IntVal?)
        case Throws(e) => Assigned(k, Some(e))
        case Ok(id) => Assigned(Choice(id.i), None))
    case Dialogue(_, oldText) =>
      if value.None? then Assigned(k, Some(NullReference))
      else match Unbox(value.value, "id", (v: Value) => v.IntVal?)
        case Throws(e) => Assigned(k, Some(e))
        case Ok(id) =>
          match Unbox(value.value, "text", (v: Value) => v.TextVal?)
          case Throws(e) => Assigned(Dialogue(id.i, oldText), Some(e))
          case Ok(text) => Assigned(Dialogue(id.i, text.s), None)
  }

  /** Writing back what the getter read succeeds and changes nothing. */
  lemma CustomDataRoundTrip(k: NodeClass)
    ensures AssignCustomData(k, CustomDataOf(k)) == Assigned(k, None)
  {
  }

  /** After a successful assignment the getter reads back the assigned entries the class keeps. */
  lemma AssignedCustomDataReadsBack(k: NodeClass, value: Option<CustomData>)
    requires AssignCustomData(k, value).fault.None?
    ensures var data := CustomDataOf(AssignCustomData(k, value).kind);
      && (k.Test3? ==> data == value)
      && (k.Choice? ==> data == Some(map["id" := value.value["id"]]))
      && (k.Dialogue? ==> data == Some(map["id" := value.value["id"], "text" := value.value["text"]]))
  {
  }

  // ------------------------------------------------------ metadata listening

  /** Only TestNode3 implements IGraphNodeMetadataListener. */
  predicate IsMetadataListener(k: NodeClass) {
    k.Test3?
  }

  /** The metadata TestNode3 raises when its spin box changes to `value`. */
  function SpinChangedMetadata(value: real): (r: CustomData)
    ensures r.Keys == {"spin_box"} && r["spin_box"] == RealVal(value)
  {
    map["spin_box" := RealVal(value)]
  }

  /**
   * TestNode3.OnConnectionNodeMetadataChanged: metadata from a TestNode3
   * sets the spin box to the neighbour's "spin_box" value plus one when the
   * neighbour is on the output side, minus one otherwise; from any other
   * source nothing changes.
   */
  function MetadataEffect(listener: NodeClass, source: NodeClass, meta: CustomData,
                          isOutput: bool, port: int): (r: Outcome<NodeClass>)
    requires IsMetadataListener(listener)
    ensures !source.Test3? ==> r == Ok(listener)
    ensures r.Ok? ==> r.value.Test3? && r.value.data == listener.data
    ensures source.Test3? ==> (r.Ok? <==> "spin_box" in meta && meta["spin_box"].RealVal?)
    ensures source.Test3? && r.Ok? ==> r.value.spin == meta["spin_box"].r + (if isOutput then 1.0 else -1.0)
  {
    if !source.Test3? then Ok(listener)
    else match Unbox(meta, "spin_box", (v: Value) => v.RealVal?)
      case Throws(e) => Throws(e)
      case Ok(v) => Ok(listener.(spin := v.r + (if isOutput then 1.0 else -1.0)))
  }

  /** A linked TestNode3 follows a TestNode3 neighbour's spin box, one step above or below it. */
  lemma NeighbourFollowsSpin(listener: NodeClass, source: NodeClass, value: real, isOutput: bool, port: int)
    requires IsMetadataListener(listener) && source.Test3?
    ensures MetadataEffect(listener, source, SpinChangedMetadata(value), isOutput, port) ==
      Ok(listener.(spin := if isOutput then value + 1.0 else value - 1.0))
  {
  }

  // ------------------------------------------------------ a sample node object

  /** One sample node object, whose setter and listener update its widgets in place. */
  class SampleNode {
    var kind: NodeClass

    constructor (k: NodeClass)
      ensures kind == k
    {
      kind := k;
    }

    function GetCustomData(): Option<CustomData>
      reads this
    {
      CustomDataOf(kind)
    }

    /** The CustomData setter: widgets are written one at a time, so an exception can leave the first one written. */
    method SetCustomData(value: Option<CustomData>) returns (fault: Option<Exception>)
      modifies this
      ensures Assigned(kind, fault) == AssignCustomData(old(kind), value)
    {
      if kind.Test3? {
        kind := kind.(data := value);
        return None;
      }
      if value.None? {
        return Some(NullReference);
      }
      var id := Unbox(value.value, "id", (v: Value) => v.IntVal?);
      if id.Throws? {
        return Some(id.error);
      }
      kind := kind.(idSpin := id.value.i);
      if kind.Dialogue? {
        var text := Unbox(value.value, "text", (v: Value) => v.TextVal?);
        if text.Throws? {
          return Some(text.error);
        }
        kind := kind.(text := text.value.s);
      }
      fault := None;
    }

    method OnConnectionNodeMetadataChanged(source: NodeClass, meta: CustomData, isOutput: bool, port: int)
      returns (fault: Option<Exception>)
      requires IsMetadataListener(kind)
      modifies this
      ensures var r := MetadataEffect(old(kind), source, meta, isOutput, port);
        if r.Ok? then kind == r.value && fault.None? else kind == old(kind) && fault == Some(r.error)
    {
      fault := None;
      if source.Test3? {
        var v := Unbox(meta, "spin_box", (v: Value) => v.RealVal?);
        if v.Throws? {
          return Some(v.error);
        }
        kind := kind.(spin := v.value.r + (if isOutput then 1.0 else -1.0));
      }
    }
  }
}
