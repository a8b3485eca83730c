/**
 * The per-type serializer capability (NodeSerializer.cs) and its placeholder
 * variant for configured types without a text format (NullNodeSerializer.cs).
 * A concrete serializer is given by its functions; an override of a guard is
 * optional, and an absent override is the base class default, which accepts.
 */
module NodeSerializers {
  import opened Wrappers
  import opened GraphModel

  /** A concrete serializer subclass: its NodeType, optional guard overrides and codec. */
  datatype SerializerImpl = SerializerImpl(
    nodeType: string,
    canSerialize: Option<(NodeData, GraphData) -> bool>,
    canDeserialize: Option<ParsedNodeFragment -> bool>,
    serialize: (NodeData, GraphData) -> string,
    deserialize: string -> NodeDeserializeResult)

  /** A NodeSerializer instance: a concrete subclass or a NullNodeSerializer. */
  datatype NodeSerializer = Custom(impl: SerializerImpl) | NullNodeSerializer(name: string)

  /** The node type the serializer is registered under. */
  function NodeType(s: NodeSerializer): (r: string)
    ensures s.NullNodeSerializer? ==> r == s.name
    ensures s.Custom? ==> r == s.impl.nodeType
  {
    match s
    case Custom(impl) => impl.nodeType
    case NullNodeSerializer(name) => name
  }

  /** Guard checked before Serialize; the base default accepts every node. */
  function CanSerialize(s: NodeSerializer, node: NodeData, context: GraphData): (r: bool)
    ensures s.NullNodeSerializer? ==> !r
    ensures s.Custom? && s.impl.canSerialize.None? ==> r
  {
    match s
    case NullNodeSerializer(_) => false
    case Custom(impl) =>
      match impl.canSerialize
      case None => true
      case Some(guard) => guard(node, context)
  }

  /** Guard checked before Deserialize; the base default accepts every fragment. */
  function CanDeserialize(s: NodeSerializer, fragment: ParsedNodeFragment): (r: bool)
    ensures s.NullNodeSerializer? ==> !r
    ensures s.Custom? && s.impl.canDeserialize.None? ==> r
  {
    match s
    case NullNodeSerializer(_) => false
    case Custom(impl) =>
      match impl.canDeserialize
      case None => true
      case Some(guard) => guard(fragment)
  }

  /** One node to text; the placeholder throws NotSupportedException. */
  function Serialize(s: NodeSerializer, node: NodeData, context: GraphData): (r: Outcome<string>)
    ensures r.Throws? <==> s.NullNodeSerializer?
    ensures r.Throws? ==> r.error == NotSupported
  {
    match s
    case NullNodeSerializer(_) => Throws(NotSupported)
    case Custom(impl) => Ok(impl.serialize(node, context))
  }

  /** One fragment body to custom data and a position hint; the placeholder throws. */
  function Deserialize(s: NodeSerializer, text: string): (r: Outcome<NodeDeserializeResult>)
    ensures r.Throws? <==> s.NullNodeSerializer?
    ensures r.Throws? ==> r.error == NotSupported
  {
    match s
    case NullNodeSerializer(_) => Throws(NotSupported)
    case Custom(impl) => Ok(impl.deserialize(text))
  }

  /** A caller that checks CanSerialize first never reaches a throwing Serialize. */
  lemma GuardedSerializeNeverThrows(s: NodeSerializer, node: NodeData, context: GraphData)
    requires CanSerialize(s, node, context)
    ensures Serialize(s, node, context).Ok?
  {
  }

  /** A caller that checks CanDeserialize first never reaches a throwing Deserialize. */
  lemma GuardedDeserializeNeverThrows(s: NodeSerializer, fragment: ParsedNodeFragment)
    requires CanDeserialize(s, fragment)
    ensures Deserialize(s, fragment.text).Ok?
  {
  }

  /** No two serializers of the list share a NodeType. */
  ghost predicate DistinctNodeTypes(list: seq<NodeSerializer>) {
    forall i, j :: 0 <= i < j < |list| ==> NodeType(list[i]) != NodeType(list[j])
  }

  /**
   * `list.ToDictionary(x => x.NodeType, x => x)`: keys every serializer by its
   * NodeType, in list order, and throws on the first repeated key.
   */
  function KeyedByNodeType(list: seq<NodeSerializer>): (r: Outcome<map<string, NodeSerializer>>)
    ensures r.Throws? ==> r.error == DuplicateKey
    decreases |list|
  {
    if list == [] then Ok(map[])
    else
      var s := list[|list| - 1];
      match KeyedByNodeType(list[..|list| - 1])
      case Throws(e) => Throws(e)
      case Ok(m) =>
        if NodeType(s) in m then Throws(DuplicateKey) else Ok(m[NodeType(s) := s])
  }

  /** Keying succeeds exactly when the NodeTypes are distinct; then every key is some serializer's NodeType. */
  lemma {:induction false} KeyedByNodeTypeKeys(list: seq<NodeSerializer>)
    ensures KeyedByNodeType(list).Ok? <==> DistinctNodeTypes(list)
    ensures KeyedByNodeType(list).Ok? ==>
      forall k :: k in KeyedByNodeType(list).value <==> exists i :: 0 <= i < |list| && NodeType(list[i]) == k
    decreases |list|
  {
    if list != [] {
      var init := list[..|list| - 1];
      KeyedByNodeTypeKeys(init);
      assert forall i :: 0 <= i < |init| ==> init[i] == list[i];
      var r := KeyedByNodeType(init);
      if r.Ok? && NodeType(list[|list| - 1]) in r.value {
        var i :| 0 <= i < |init| && NodeType(init[i]) == NodeType(list[|list| - 1]);
        assert NodeType(list[i]) == NodeType(list[|list| - 1]);
      }
    }
  }

  /** Every entry of the keyed map is a serializer of the list registered under its own NodeType. */
  lemma {:induction false} KeyedByNodeTypeValues(list: seq<NodeSerializer>)
    ensures KeyedByNodeType(list).Ok? ==>
      forall k :: k in KeyedByNodeType(list).value ==>
        NodeType(KeyedByNodeType(list).value[k]) == k && KeyedByNodeType(list).value[k] in list
    decreases |list|
  {
    if list != [] {
      var init := list[..|list| - 1];
      KeyedByNodeTypeValues(init);
      assert forall x :: x in init ==> x in list;
    }
  }
}
