/**
 * The graph text codec orchestrator (TextGraphSerializer.cs). It looks up a
 * serializer per node type, applies the guard before the codec, hands the
 * per-node texts to the ordering step and frames the result for the writer;
 * in the other direction it decodes parsed fragments and hands them to the
 * restoration step. The ordering/restoration engine and the text parser are
 * not part of this model: they are opaque functions held by the orchestrator,
 * and the fragment writer is observed as the sequence of calls it receives.
 */
module TextGraphSerialization {
  import opened Wrappers
  import opened GraphModel
  import opened NodeSerializers

  /** The connection ordering / restoration engine, opaque. */
  datatype ConnectionParser = ConnectionParser(
    order: (GraphData, map<string, string>) -> seq<string>,
    restore: (seq<ParsedNodeFragment>, seq<NodeData>) -> seq<ConnectionData>)

  /** The fragment parser, opaque: a document's text to its fragments. */
  datatype TextParser = TextParser(parse: string -> seq<ParsedNodeFragment>)

  /** One call the orchestrator makes on the FragmentWriter. */
  datatype WriterCall = Begin | WriteFragment(fragment: string, isLast: bool) | End

  /** The node has a registered serializer whose CanSerialize guard passes. */
  predicate Emits(serializers: map<string, NodeSerializer>, node: NodeData, graph: GraphData) {
    node.nodeType in serializers && CanSerialize(serializers[node.nodeType], node, graph)
  }

  /** The text the node's serializer produces; the guard rules out the throwing path. */
  function NodeText(serializers: map<string, NodeSerializer>, node: NodeData, graph: GraphData): string
    requires Emits(serializers, node, graph)
  {
    NodeSerializers.Serialize(serializers[node.nodeType], node, graph).value
  }

  /** The `nodeFragments` dictionary after the foreach loop has visited `nodes`. */
  function FragmentMap(serializers: map<string, NodeSerializer>, nodes: seq<NodeData>, graph: GraphData): map<string, string>
    decreases |nodes|
  {
    if nodes == [] then map[]
    else
      var m := FragmentMap(serializers, nodes[..|nodes| - 1], graph);
      var node := nodes[|nodes| - 1];
      if Emits(serializers, node, graph) then m[node.nodeId := NodeText(serializers, node, graph)] else m
  }

  /** An id is a key exactly when some node with that id has a serializer whose guard passes. */
  lemma {:induction false} FragmentMapKeys(serializers: map<string, NodeSerializer>, nodes: seq<NodeData>, graph: GraphData)
    ensures forall id :: id in FragmentMap(serializers, nodes, graph) <==>
      exists i :: 0 <= i < |nodes| && nodes[i].nodeId == id && Emits(serializers, nodes[i], graph)
    decreases |nodes|
  {
    if nodes != [] {
      var init := nodes[..|nodes| - 1];
      FragmentMapKeys(serializers, init, graph);
      assert forall i :: 0 <= i < |init| ==> init[i] == nodes[i];
    }
  }

  /** With repeated ids the text of the last emitted node with that id is kept. */
  lemma {:induction false} FragmentMapLastWins(serializers: map<string, NodeSerializer>, nodes: seq<NodeData>, graph: GraphData, id: string)
    requires id in FragmentMap(serializers, nodes, graph)
    ensures exists i ::
              && 0 <= i < |nodes| && nodes[i].nodeId == id && Emits(serializers, nodes[i], graph)
              && FragmentMap(serializers, nodes, graph)[id] == NodeText(serializers, nodes[i], graph)
              && forall j :: i < j < |nodes| && nodes[j].nodeId == id ==> !Emits(serializers, nodes[j], graph)
    decreases |nodes|
  {
    var init := nodes[..|nodes| - 1];
    var node := nodes[|nodes| - 1];
    assert forall i :: 0 <= i < |init| ==> init[i] == nodes[i];
    if !(Emits(serializers, node, graph) && node.nodeId == id) {
      FragmentMapLastWins(serializers, init, graph, id);
      var i :| 0 <= i < |init| && init[i].nodeId == id && Emits(serializers, init[i], graph) &&
        FragmentMap(serializers, init, graph)[id] == NodeText(serializers, init[i], graph) &&
        forall j :: i < j < |init| && init[j].nodeId == id ==> !Emits(serializers, init[j], graph);
      assert nodes[i] == init[i];
    }
  }

  /** The fragment has a registered serializer whose CanDeserialize guard passes. */
  predicate Decodes(serializers: map<string, NodeSerializer>, fragment: ParsedNodeFragment) {
    fragment.nodeType in serializers && CanDeserialize(serializers[fragment.nodeType], fragment)
  }

  /** The node built from a decodable fragment: id and type from the fragment, the rest from the serializer. */
  function NodeOf(serializers: map<string, NodeSerializer>, fragment: ParsedNodeFragment): (n: NodeData)
    requires Decodes(serializers, fragment)
    ensures n.nodeId == fragment.nodeId && n.nodeType == fragment.nodeType
    ensures var result := NodeSerializers.Deserialize(serializers[fragment.nodeType], fragment.text);
      result.Ok? && n.position == result.value.positionHint && n.customData == result.value.customData
  {
    var result := NodeSerializers.Deserialize(serializers[fragment.nodeType], fragment.text).value;
    NodeData(fragment.nodeId, fragment.nodeType, result.positionHint, result.customData)
  }

  /** The `nodes` list after the foreach loop of Deserialize has visited `fragments`. */
  function DecodedNodes(serializers: map<string, NodeSerializer>, fragments: seq<ParsedNodeFragment>): seq<NodeData>
    decreases |fragments|
  {
    if fragments == [] then []
    else
      var init := DecodedNodes(serializers, fragments[..|fragments| - 1]);
      var fragment := fragments[|fragments| - 1];
      if Decodes(serializers, fragment) then init + [NodeOf(serializers, fragment)] else init
  }

  /** Decoding follows fragment order: a document split in two decodes to the two parts' nodes, in order. */
  lemma {:induction false} DecodedNodesAppend(serializers: map<string, NodeSerializer>, a: seq<ParsedNodeFragment>, b: seq<ParsedNodeFragment>)
    ensures DecodedNodes(serializers, a + b) == DecodedNodes(serializers, a) + DecodedNodes(serializers, b)
    decreases |b|
  {
    if b != [] {
      var b' := b[..|b| - 1];
      assert (a + b)[..|a + b| - 1] == a + b';
      assert (a + b)[|a + b| - 1] == b[|b| - 1];
      DecodedNodesAppend(serializers, a, b');
    } else {
      assert a + b == a;
    }
  }

  /** At most one node per fragment, and a node exactly for each decodable fragment. */
  lemma {:induction false} DecodedNodesMembers(serializers: map<string, NodeSerializer>, fragments: seq<ParsedNodeFragment>)
    ensures |DecodedNodes(serializers, fragments)| <= |fragments|
    ensures forall n :: n in DecodedNodes(serializers, fragments) <==>
      exists i :: 0 <= i < |fragments| && Decodes(serializers, fragments[i]) && NodeOf(serializers, fragments[i]) == n
    decreases |fragments|
  {
    if fragments != [] {
      var init := fragments[..|fragments| - 1];
      DecodedNodesMembers(serializers, init);
      assert forall i :: 0 <= i < |init| ==> init[i] == fragments[i];
    }
  }

  /** Fragments without a serializer, or whose guard fails, contribute nothing. */
  lemma {:induction false} UndecodableContributesNothing(serializers: map<string, NodeSerializer>, fragments: seq<ParsedNodeFragment>)
    requires forall i :: 0 <= i < |fragments| ==> !Decodes(serializers, fragments[i])
    ensures DecodedNodes(serializers, fragments) == []
    decreases |fragments|
  {
    if fragments != [] {
      var init := fragments[..|fragments| - 1];
      assert forall i :: 0 <= i < |init| ==> init[i] == fragments[i];
      UndecodableContributesNothing(serializers, init);
    }
  }

  class TextGraphSerializer {
    /** Node type to serializer. */
    const nodeSerializers: map<string, NodeSerializer>
    const connectionParser: ConnectionParser
    const textParser: TextParser

    /** The dictionary constructor: the map is used as given. */
    constructor (nodeSerializers: map<string, NodeSerializer>, connectionParser: ConnectionParser, textParser: TextParser)
      ensures this.nodeSerializers == nodeSerializers
      ensures this.connectionParser == connectionParser && this.textParser == textParser
    {
      this.nodeSerializers := nodeSerializers;
      this.connectionParser := connectionParser;
      this.textParser := textParser;
    }

    /** The enumerable constructor: serializers keyed by NodeType; a repeated NodeType makes it throw. */
    static method FromSerializers(serializers: seq<NodeSerializer>, connectionParser: ConnectionParser, textParser: TextParser)
      returns (r: Outcome<TextGraphSerializer>)
      ensures KeyedByNodeType(serializers).Throws? ==> r == Throws(DuplicateKey)
      ensures KeyedByNodeType(serializers).Ok? ==>
        r.Ok? && fresh(r.value) && r.value.nodeSerializers == KeyedByNodeType(serializers).value &&
        r.value.connectionParser == connectionParser && r.value.textParser == textParser
    {
      var keyed := KeyedByNodeType(serializers);
      if keyed.Throws? {
        return Throws(keyed.error);
      }
      var s := new TextGraphSerializer(keyed.value, connectionParser, textParser);
      return Ok(s);
    }

    /**
     * Writes the graph: only emitted nodes are serialized, into an id-to-text
     * map handed to the ordering step; the writer receives Begin, one
     * WriteFragment per ordered fragment with isLast on the final one, then End.
     */
    method Serialize(graph: GraphData) returns (calls: seq<WriterCall>)
      ensures var ordered := connectionParser.order(graph, FragmentMap(nodeSerializers, graph.nodes, graph));
        && |calls| == |ordered| + 2
        && calls[0] == Begin
        && calls[|calls| - 1] == End
        && forall k :: 0 <= k < |ordered| ==> calls[k + 1] == WriteFragment(ordered[k], k == |ordered| - 1)
    {
      var nodeFragments: map<string, string> := map[];
      var i := 0;
      while i < |graph.nodes|
        invariant 0 <= i <= |graph.nodes|
        invariant nodeFragments == FragmentMap(nodeSerializers, graph.nodes[..i], graph)
      {
        var node := graph.nodes[i];
        assert graph.nodes[..i + 1][..i] == graph.nodes[..i];
        if node.nodeType in nodeSerializers {
          var serializer := nodeSerializers[node.nodeType];
          if CanSerialize(serializer, node, graph) {
            // the guard has passed, so this is never the NotSupported path
            var text := NodeSerializers.Serialize(serializer, node, graph);
            nodeFragments := nodeFragments[node.nodeId := text.value];
          }
        }
        i := i + 1;
      }
      assert graph.nodes[..i] == graph.nodes;
      var ordered := connectionParser.order(graph, nodeFragments);
      calls := [Begin];
      for k := 0 to |ordered|
        invariant |calls| == k + 1 && calls[0] == Begin
        invariant forall j :: 0 <= j < k ==> calls[j + 1] == WriteFragment(ordered[j], j == |ordered| - 1)
      {
        calls := calls + [WriteFragment(ordered[k], k == |ordered| - 1)];
      }
      calls := calls + [End];
    }

    /**
     * Reads a graph: decodable fragments become nodes in fragment order, and
     * the restoration step receives every parsed fragment with those nodes.
     */
    method Deserialize(text: string) returns (graph: GraphData)
      ensures graph.nodes == DecodedNodes(nodeSerializers, textParser.parse(text))
      ensures graph.connections == connectionParser.restore(textParser.parse(text), graph.nodes)
    {
      var fragments := textParser.parse(text);
      var nodes: seq<NodeData> := [];
      for i := 0 to |fragments|
        invariant nodes == DecodedNodes(nodeSerializers, fragments[..i])
      {
        var fragment := fragments[i];
        assert fragments[..i + 1][..i] == fragments[..i];
        if fragment.nodeType in nodeSerializers {
          var serializer := nodeSerializers[fragment.nodeType];
          if CanDeserialize(serializer, fragment) {
            var result := NodeSerializers.Deserialize(serializer, fragment.text);
            nodes := nodes + [NodeData(fragment.nodeId, fragment.nodeType, result.value.positionHint, result.value.customData)];
          }
        }
      }
      assert fragments[..|fragments|] == fragments;
      var connections := connectionParser.restore(fragments, nodes);
      graph := GraphData(nodes, connections);
    }
  }
}
