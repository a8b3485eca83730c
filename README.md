# TextualGraph core, modelled in Dafny

TextualGraph is a Godot editor plugin. It lets a user build a node graph (dialogue, choice and test nodes joined port-to-port) and stores that graph as text. This project models the sequential core of the plugin and proves properties about it.

The core has four parts:

- **The text codec orchestrator** (`TextGraphSerializer`). It has per-type serializers (`NodeSerializer`) and a placeholder serializer for configured types that have no text format (`NullNodeSerializer`).
  - Serializing applies each serializer's guard before its codec, and builds an id-to-text map. It hands that map to an ordering step, then frames the ordered fragments for a writer.
  - Deserializing decodes parsed fragments into nodes, then hands them to a restoration step.
- **The node-type registry** (`GraphNodeFactory`). It is a static class over three nullable maps: the type catalog, the constructor factories and the serializers. It has scanning, reconciliation against the configured node names, node creation and clearing.
- **The graph editor** (`GraphEditor`). It keeps the engine's connection list. It handles:
  - connection requests, which are checked by both nodes, with the capacity of each port enforced;
  - the selection;
  - the pending state of a drag into empty space;
  - routing of node metadata changes to listening neighbours;
  - export of a graph snapshot and restore from one.
- **The node capability contract** (`IGraphNode`) and the three sample node classes:
  - `TestNode` ("dialogue");
  - `TestNode2` ("choice");
  - `TestNode3` ("test_3"), which also listens for metadata changes.

## How the model is built

**Modules, one per source file or concern:**

| module | models |
|---|---|
| `Wrappers` | C# null as `Option`, exceptions as `Outcome.Throws` |
| `GraphModel` | snapshot records |
| `NodeSerializers` | NodeSerializer.cs and NullNodeSerializer.cs |
| `TextGraphSerialization` | TextGraphSerializer.cs |
| `NodeRegistry` | GraphNodeFactory.cs |
| `GraphNodes` | IGraphNode.cs vocabulary |
| `Samples` | TestNode.cs, TestNode2.cs, TestNode3.cs |
| `Editor` | GraphEditor.cs |

**Code that changes state step by step is written as class methods.**
- Each method's postcondition ties the new state to a specification function of the old state. The properties are then proved about those functions as lemmas.
- Examples: `GraphNodeFactory.UpdateRegistration` against `Reconcile`, `GraphEditor.OnConnectionRequest` against `ConnectionRequest`, `GraphEditor.Restore` against `RestoredNodes`/`RestoredConnections`.
- Loops keep their source's order and carry invariants of the form "state == spec of the prefix visited".

**Unseen collaborators are parameters.**
- `ConnectionParser.Order`/`Restore` and `TextParser.Parse` are opaque functions held by the serializer. The fragment writer is observed as the sequence of calls it receives.
- Reflection over the assembly is an explicit list of the assembly's types.
- The registry's `Create` as the editor uses it is a parameter `create: string -> Option<GraphNode>`.
- The engine's port helpers (`GetInputPortBySlot(0)`, `GetOutputPortBySlot(0)`, `GetInputPortType`) are given per node in `PortSlots`.

**Engine connections.**
- `ConnectNode` appends a tuple and `DisconnectNode` removes the first equal tuple. No duplicate handling is assumed.
- `GetConnectionList()` is the list in order.

**Exceptions are values.**
- A throwing path ends the operation. Where the source had already changed some state before the throw, that partial state is kept: `Effect(state, fault)`, `RestoreProgress.fault`, the spin box of `TestNode` written before reading `"text"` fails.

**Behaviour modelled as written.**
- `TestNode`/`TestNode2.CanConnectWhenIsOutput` answer with their own slot-0 *input* port, and `CanConnectWhenIsInput` with their slot-0 *output* port.
- Both of these query the peer's `GetValidFromNodeNamesForPort` and `GetInputPortType` even when the peer is the output side.
- So, for an accepted request between dialogue/choice nodes, the requested output port is the output node's slot-0 input port, and the requested input port is the input node's slot-0 output port (`SlotRequestAccepted`).
- `Restore` does not reset the last selected node.

## Model

| member | source | states |
|---|---|---|
| NodeSerializers.NodeType | addons/TextualGraph/Serialization/NullNodeSerializer.cs:14-19 | a placeholder reports exactly the name it was built with; a concrete serializer reports its declared node type |
| NodeSerializers.CanSerialize | addons/TextualGraph/Serialization/NodeSerializer.cs:23-24 | without an override the guard accepts every node and context; the placeholder's guard rejects every input |
| NodeSerializers.CanDeserialize | addons/TextualGraph/Serialization/NodeSerializer.cs:31-32 | without an override the guard accepts every fragment; the placeholder's guard rejects every fragment |
| NodeSerializers.Serialize | addons/TextualGraph/Serialization/NullNodeSerializer.cs:27-28 | throws exactly for the placeholder, and then NotSupported |
| NodeSerializers.Deserialize | addons/TextualGraph/Serialization/NullNodeSerializer.cs:30-31 | throws exactly for the placeholder, and then NotSupported |
| NodeSerializers.GuardedSerializeNeverThrows | addons/TextualGraph/Serialization/TextGraphSerializer.cs:78-82 | a passing CanSerialize guard rules out the placeholder, the only serializer whose Serialize throws in this model |
| NodeSerializers.GuardedDeserializeNeverThrows | addons/TextualGraph/Serialization/TextGraphSerializer.cs:116-119 | a passing CanDeserialize guard rules out the placeholder, the only serializer whose Deserialize throws in this model |
| NodeSerializers.KeyedByNodeType | addons/TextualGraph/Serialization/TextGraphSerializer.cs:42 | keying serializers by NodeType fails only with a duplicate-key error |
| NodeSerializers.KeyedByNodeTypeKeys | addons/TextualGraph/Serialization/TextGraphSerializer.cs:42 | keying succeeds if and only if the NodeTypes are pairwise distinct; the keys are exactly the serializers' NodeTypes |
| NodeSerializers.KeyedByNodeTypeValues | addons/TextualGraph/Serialization/TextGraphSerializer.cs:42 | every entry is a serializer of the list, registered under its own NodeType |
| TextGraphSerialization.Emits | addons/TextualGraph/Serialization/TextGraphSerializer.cs:75-79 | a node is written when a serializer is registered for its type and that serializer's CanSerialize passes |
| TextGraphSerialization.NodeText | addons/TextualGraph/Serialization/TextGraphSerializer.cs:82 | the text the node's serializer returns, defined only for emitted nodes |
| TextGraphSerialization.FragmentMap | addons/TextualGraph/Serialization/TextGraphSerializer.cs:71-83 | the id-to-text dictionary after the loop: each emitted node's text stored under its id, a later node with the same id overwriting |
| TextGraphSerialization.FragmentMapKeys | addons/TextualGraph/Serialization/TextGraphSerializer.cs:73-83 | an id is in the fragment map if and only if some node with that id has a registered serializer whose CanSerialize passed |
| TextGraphSerialization.FragmentMapLastWins | addons/TextualGraph/Serialization/TextGraphSerializer.cs:82 | with repeated ids the map holds the text of the last emitted node with that id |
| TextGraphSerialization.Decodes | addons/TextualGraph/Serialization/TextGraphSerializer.cs:113-117 | a fragment is decoded when a serializer is registered for its type and that serializer's CanDeserialize passes |
| TextGraphSerialization.NodeOf | addons/TextualGraph/Serialization/TextGraphSerializer.cs:119-126 | a decoded node takes id and type from its fragment, and position and custom data from the serializer's result |
| TextGraphSerialization.DecodedNodes | addons/TextualGraph/Serialization/TextGraphSerializer.cs:110-127 | the node list after the loop: one node per decodable fragment, in fragment order |
| TextGraphSerialization.DecodedNodesAppend | addons/TextualGraph/Serialization/TextGraphSerializer.cs:111-127 | decoding follows fragment order: decoding a + b gives the nodes of a, then those of b |
| TextGraphSerialization.DecodedNodesMembers | addons/TextualGraph/Serialization/TextGraphSerializer.cs:111-127 | at most one node per fragment; a node is decoded if and only if it comes from a decodable fragment |
| TextGraphSerialization.UndecodableContributesNothing | addons/TextualGraph/Serialization/TextGraphSerializer.cs:113-117 | fragments without a serializer, or whose CanDeserialize fails, yield no nodes |
| TextGraphSerialization.TextGraphSerializer.constructor | addons/TextualGraph/Serialization/TextGraphSerializer.cs:55-61 | the dictionary constructor keeps the map and collaborators as given |
| TextGraphSerialization.TextGraphSerializer.FromSerializers | addons/TextualGraph/Serialization/TextGraphSerializer.cs:40-46 | the enumerable constructor keys serializers by NodeType, and fails with a duplicate-key error when two share one |
| TextGraphSerialization.TextGraphSerializer.Serialize | addons/TextualGraph/Serialization/TextGraphSerializer.cs:68-99 | the ordering step receives the fragment map of the emitted nodes; the writer receives Begin, one WriteFragment per ordered fragment in order with isLast only on the final one, then End (just Begin, End when nothing is ordered) |
| TextGraphSerialization.TextGraphSerializer.Deserialize | addons/TextualGraph/Serialization/TextGraphSerializer.cs:106-132 | the nodes are the decoded fragments in order; connection restoration receives the full unfiltered fragment list together with those nodes |
| NodeRegistry.CatalogNodeTypes | addons/TextualGraph/Editor/EditorNode/GraphNodeFactory.cs:171-178 | the catalog holds exactly the non-abstract node classes that implement the factory interface |
| NodeRegistry.CatalogSerializers | addons/TextualGraph/Editor/EditorNode/GraphNodeFactory.cs:180-182 | a scan instantiates only concrete serializers, never the placeholder |
| NodeRegistry.Scan | addons/TextualGraph/Editor/EditorNode/GraphNodeFactory.cs:163-184 | scanning never touches the factory map |
| NodeRegistry.ScanReplacesSerializers | addons/TextualGraph/Editor/EditorNode/GraphNodeFactory.cs:180-183 | a performed scan replaces the catalog, and on success the serializer map wholesale; every entry is concrete and keyed by its own NodeType; a duplicate NodeType leaves the old serializer map |
| NodeRegistry.ScanIdempotent | addons/TextualGraph/Editor/EditorNode/GraphNodeFactory.cs:165-166 | a second unforced scan changes nothing |
| NodeRegistry.FirstNamed | addons/TextualGraph/Editor/EditorNode/GraphNodeFactory.cs:121-123 | the catalog type found carries the requested NodeName; none is found if and only if no type has that name |
| NodeRegistry.Resolvable | addons/TextualGraph/Editor/EditorNode/GraphNodeFactory.cs:121-145 | a configured name gets a factory when its first catalog type exists and has a Create method, its own or the interface default |
| NodeRegistry.WithPlaceholders | addons/TextualGraph/Editor/EditorNode/GraphNodeFactory.cs:88-95 | the serializer map after the placeholder loop over the configured names |
| NodeRegistry.StaleKeys | addons/TextualGraph/Editor/EditorNode/GraphNodeFactory.cs:100-107 | the factory keys that are not configured or that no catalog type names |
| NodeRegistry.RemovedKeys | addons/TextualGraph/Editor/EditorNode/GraphNodeFactory.cs:98-114 | the keys removed from both maps: the stale keys when both maps are non-empty, otherwise none |
| NodeRegistry.WithFactories | addons/TextualGraph/Editor/EditorNode/GraphNodeFactory.cs:116-150 | the factory map after the registration loop over the configured names |
| NodeRegistry.Reconciled | addons/TextualGraph/Editor/EditorNode/GraphNodeFactory.cs:86-150 | placeholders, then stale-key removal from both maps, then factory registration, on a scanned state |
| NodeRegistry.Reconcile | addons/TextualGraph/Editor/EditorNode/GraphNodeFactory.cs:75-151 | UpdateRegistration as a function: nothing for an empty configuration, a rescan when needed, then Reconciled |
| NodeRegistry.Rescanned | addons/TextualGraph/Editor/EditorNode/GraphNodeFactory.cs:81-82 | after a successful rescan step the catalog is set |
| NodeRegistry.EmptyConfigurationIsNoop | addons/TextualGraph/Editor/EditorNode/GraphNodeFactory.cs:77-79 | an empty configuration leaves all registry state unchanged |
| NodeRegistry.ReconciledFactoryKeys | addons/TextualGraph/Editor/EditorNode/GraphNodeFactory.cs:98-150 | after a non-empty reconcile every factory key is a configured name equal to some catalog type's NodeName |
| NodeRegistry.ReconciledSerializers | addons/TextualGraph/Editor/EditorNode/GraphNodeFactory.cs:88-113 | existing serializers keep their value; new entries are placeholders for configured names, carrying that name; a serializer disappears only together with a stale factory key |
| NodeRegistry.ReconciledFactories | addons/TextualGraph/Editor/EditorNode/GraphNodeFactory.cs:116-150 | a registered factory is not re-registered; a new one belongs to a configured, resolvable name and builds the first catalog type of that name; every resolvable configured name ends up registered |
| NodeRegistry.UnresolvableGetsNoFactory | addons/TextualGraph/Editor/EditorNode/GraphNodeFactory.cs:121-145 | a configured name without a matching type or without a Create method gets no new factory |
| NodeRegistry.Create | addons/TextualGraph/Editor/EditorNode/GraphNodeFactory.cs:63-69 | returns null exactly when no factory is registered under the name; otherwise a node of the factory's class; throws while the map is unset |
| NodeRegistry.CreateAs | addons/TextualGraph/Editor/EditorNode/GraphNodeFactory.cs:38-45 | null also when the product is not a T; otherwise what Create returns |
| NodeRegistry.CreateDirect | addons/TextualGraph/Editor/EditorNode/GraphNodeFactory.cs:26-30 | builds a node of class T |
| NodeRegistry.RegisteredFactoryCreatesItsClass | addons/TextualGraph/Editor/EditorNode/GraphNodeFactory.cs:63-69 | Create through a registered factory agrees with the direct Create of the factory's class |
| NodeRegistry.GetNodeNames | addons/TextualGraph/Editor/EditorNode/GraphNodeFactory.cs:51 | empty while the factory map is unset; otherwise exactly the names Create builds a node for |
| NodeRegistry.NodeSerializerMap | addons/TextualGraph/Editor/EditorNode/GraphNodeFactory.cs:56 | a copy of the serializer map; ToDictionary on the unset map throws ArgumentNull |
| NodeRegistry.ClearedRegistryHasNoNames | addons/TextualGraph/Editor/EditorNode/GraphNodeFactory.cs:156-161 | after Clearup no names are reported and Create throws |
| NodeRegistry.GraphNodeFactory.constructor | addons/TextualGraph/Editor/EditorNode/GraphNodeFactory.cs:17-19 | the static fields start out null |
| NodeRegistry.GraphNodeFactory.ScanNodeTypes | addons/TextualGraph/Editor/EditorNode/GraphNodeFactory.cs:163-184 | the new state and the success flag are those of Scan on the old state |
| NodeRegistry.GraphNodeFactory.UpdateRegistration | addons/TextualGraph/Editor/EditorNode/GraphNodeFactory.cs:75-151 | the new state is Reconcile of the old state; the properties above follow |
| NodeRegistry.GraphNodeFactory.AddPlaceholders | addons/TextualGraph/Editor/EditorNode/GraphNodeFactory.cs:88-95 | configured names without a serializer get a placeholder carrying that name; nothing else changes |
| NodeRegistry.WithPlaceholdersEntries | addons/TextualGraph/Editor/EditorNode/GraphNodeFactory.cs:88-95 | after the placeholder loop the serializer keys are the old keys plus the configured names; an old serializer is kept, and a new key holds the placeholder for that name |
| NodeRegistry.WithFactoriesEntries | addons/TextualGraph/Editor/EditorNode/GraphNodeFactory.cs:116-150 | after the registration loop the factory keys are the old keys plus the configured, resolvable names; an old factory is kept, and a new key builds the first catalog type of that name |
| NodeRegistry.DropKeys | addons/TextualGraph/Editor/EditorNode/GraphNodeFactory.cs:109-113 | removing the listed keys one at a time leaves each map without exactly those keys |
| NodeRegistry.GraphNodeFactory.RemoveStaleKeys | addons/TextualGraph/Editor/EditorNode/GraphNodeFactory.cs:98-114 | when both maps are non-empty, exactly the stale factory keys (unconfigured, or not named by any catalog type) leave both maps |
| NodeRegistry.GraphNodeFactory.RegisterFactories | addons/TextualGraph/Editor/EditorNode/GraphNodeFactory.cs:116-150 | every configured, unregistered name whose first catalog type has Create gets that type's factory |
| NodeRegistry.GraphNodeFactory.Clearup | addons/TextualGraph/Editor/EditorNode/GraphNodeFactory.cs:156-161 | all three fields become null |
| GraphNodes.FindIndex | addons/TextualGraph/Editor/GraphEditor.cs:134 | the first node with the given name, or none if no node has it |
| GraphNodes.FindNode | addons/TextualGraph/Editor/GraphEditor.cs:134-135 | a node is found if and only if one has that name, and it carries that name |
| Samples.NodeType | addons/TextualGraph/Samples/TestNode.cs:12-15 | a node's type is its class's NodeName: "dialogue" exactly for TestNode, "choice" exactly for TestNode2, "test_3" exactly for TestNode3 |
| Samples.NodeTypeIdentifiesClass | addons/TextualGraph/Editor/EditorNode/IGraphNode.cs:30-33 | two nodes have the same type if and only if they are of the same class |
| Samples.GetMaxOutputConnections | addons/TextualGraph/Editor/EditorNode/IGraphNode.cs:40-45 | a limit of at least -1, and -1 (unlimited) exactly for choice nodes |
| Samples.GetMaxInputConnections | addons/TextualGraph/Editor/EditorNode/IGraphNode.cs:47-52 | a limit of at least -1, and -1 (unlimited) exactly for choice nodes |
| Samples.CapacitiesArePerClass | addons/TextualGraph/Samples/TestNode.cs:82-90 | the limit does not depend on the port: dialogue 3 in and 1 out, test_3 1 and 1 |
| Samples.GetValidFromNodeNamesForPort | addons/TextualGraph/Samples/TestNode.cs:92-99 | dialogue takes {dialogue, choice} and choice takes {dialogue} on the slot-0 input port, and nothing on other ports; test_3 takes {test_3} everywhere |
| Samples.GetValidToNodeNamesForPort | addons/TextualGraph/Samples/TestNode.cs:101-108 | dialogue feeds {dialogue, choice} and choice feeds {dialogue} on the slot-0 output port, and nothing on other ports; test_3 feeds {test_3} everywhere |
| Samples.FiltersNameNodeTypes | addons/TextualGraph/Editor/EditorNode/IGraphNode.cs:54-66 | every admitted name is the type of a sample class, and test_3 and the other classes never admit each other |
| Samples.IsMetadataListener | addons/TextualGraph/Samples/TestNode3.cs:7 | only TestNode3 implements the metadata listener interface |
| Samples.SlotPolicy | addons/TextualGraph/Samples/TestNode2.cs:33-75 | refuses with -1 unless the peer exists, its valid-from set for the port holds this type, it is dialogue or choice, and its port type is 0; then answers the given port |
| Samples.CanConnectWhenIsOutput | addons/TextualGraph/Samples/TestNode.cs:60-80 | refusal is false with -1; test_3 accepts exactly a test_3 peer on port 0; the others apply the slot rule and answer their slot-0 input port, defaulting to 0 |
| Samples.CanConnectWhenIsInput | addons/TextualGraph/Samples/TestNode.cs:38-58 | refusal is false with -1; test_3 accepts exactly a test_3 peer on port 0; the others apply the slot rule and answer their slot-0 output port, defaulting to 0 |
| Samples.Test3ConnectsOnlyToTest3 | addons/TextualGraph/Samples/TestNode3.cs:40-61 | when either side is test_3, a connection is accepted only between two test_3 nodes, and then always on port 0 |
| Samples.ChoiceRefusesChoice | addons/TextualGraph/Samples/TestNode2.cs:33-75 | a choice node never accepts a choice peer on either side |
| Samples.CustomDataOf | addons/TextualGraph/Samples/TestNode.cs:24-30 | dialogue exposes exactly the keys id and text, choice exactly id, and test_3 what it stores |
| Samples.Unbox | addons/TextualGraph/Samples/TestNode.cs:33-34 | a missing key throws KeyNotFound, a wrongly typed value InvalidCast; otherwise the stored value |
| Samples.AssignCustomData | addons/TextualGraph/Samples/TestNode.cs:31-35 | test_3 stores the dictionary as given; the others throw on null, on a missing key or on a wrong type, and otherwise take id (and text) from it |
| Samples.CustomDataRoundTrip | addons/TextualGraph/Samples/TestNode2.cs:21-31 | assigning what the getter returned succeeds and changes nothing |
| Samples.AssignedCustomDataReadsBack | addons/TextualGraph/Samples/TestNode3.cs:25 | after a successful assignment the getter returns the assigned entries the class keeps, and for test_3 exactly what was assigned |
| Samples.SpinChangedMetadata | addons/TextualGraph/Samples/TestNode3.cs:27-36 | a spin change raises metadata with the single key spin_box holding the new value |
| Samples.MetadataEffect | addons/TextualGraph/Samples/TestNode3.cs:87-94 | metadata from a non-test_3 source changes nothing; from a test_3 source the spin box becomes spin_box + 1 (output side) or - 1, or the read throws |
| Samples.NeighbourFollowsSpin | addons/TextualGraph/Samples/TestNode3.cs:87-94 | a test_3 listener follows a test_3 neighbour's spin change, one above or one below it |
| Samples.SampleNode.constructor | addons/TextualGraph/Samples/TestNode.cs:10 | a sample node object holds the widget state it is given |
| Samples.SampleNode.GetCustomData | addons/TextualGraph/Samples/TestNode.cs:24-30 | the CustomData getter reads the widgets as CustomDataOf states |
| Samples.SampleNode.SetCustomData | addons/TextualGraph/Samples/TestNode.cs:31-35 | the widgets and the exception are those of AssignCustomData, including the spin box already written when reading text fails |
| Samples.SampleNode.OnConnectionNodeMetadataChanged | addons/TextualGraph/Samples/TestNode3.cs:87-94 | the listener's new state is MetadataEffect, or unchanged with the exception |
| Editor.IsNodeHoverValid | addons/TextualGraph/Editor/GraphEditor.cs:61-65 | hovering is valid when the two node names differ |
| Editor.HoverRejectsExactlySelfConnections | addons/TextualGraph/Editor/GraphEditor.cs:61-65 | hovering rejects exactly the connections whose output node is the input node, whatever the ports |
| Editor.Matching | addons/TextualGraph/Editor/GraphEditor.cs:89-92 | the connections at one port end: no more than the list holds, and exactly those that touch it (MatchingLast states which one is last) |
| Editor.MatchingLast | addons/TextualGraph/Editor/GraphEditor.cs:94-96 | when index `j` holds the list's final connection at a port end, the matched list is non-empty and its last element (the one Last() returns) is that connection |
| Editor.MatchingConcat | addons/TextualGraph/Editor/GraphEditor.cs:89-92 | filtering a concatenation is the concatenation of the filtered parts, so the matched connections keep list order |
| Editor.NoneMatching | addons/TextualGraph/Editor/GraphEditor.cs:89-92 | a list with no connection at a port end matches nothing there |
| Editor.RemoveFirst | addons/TextualGraph/Editor/GraphEditor.cs:97-102 | disconnecting removes one copy of a present connection and nothing else, and does nothing for an absent one (RemoveFirstSplits states that it is the first copy and that order is kept) |
| Editor.RemoveFirstSplits | addons/TextualGraph/Editor/GraphEditor.cs:97-102 | given the first index of a connection, disconnecting leaves the connections before and after it in order |
| Editor.RemoveFirstCount | addons/TextualGraph/Editor/GraphEditor.cs:97-102 | a disconnect lowers the count at a port end by one exactly when the connection was present and touches it |
| Editor.AppendCount | addons/TextualGraph/Editor/GraphEditor.cs:167 | a connect raises the count of exactly the port ends the connection touches, by one |
| Editor.EnsureCapacity | addons/TextualGraph/Editor/GraphEditor.cs:87-104 | below the limit nothing changes; at or above it exactly the last matching connection is removed; with no matches and a limit of 0 or less, Last() throws |
| Editor.EnsureCapacityOnlyRemoves | addons/TextualGraph/Editor/GraphEditor.cs:87-123 | enforcing capacity removes at most one connection and raises no port end's count |
| Editor.Accepts | addons/TextualGraph/Editor/GraphEditor.cs:132-153 | throws exactly when the output node is missing; accepts if and only if both CanConnect predicates succeed and return the requested ports |
| Editor.EnforceAndConnect | addons/TextualGraph/Editor/GraphEditor.cs:155-167 | without an exception the new connection is appended to what remains of the old list after at most two removals (a sub-multiset of it); a request below both limits, or with unlimited (negative) ones, removes nothing and only appends; an exception needs a limit of 0 and leaves a sub-multiset of the old list |
| Editor.ConnectionRequest | addons/TextualGraph/Editor/GraphEditor.cs:132-168 | a request the check refuses leaves the list unchanged (and throws only on a missing output node); an accepted request ends with the connection appended to a sub-multiset of the old list, at most two shorter; an exception leaves a sub-multiset of the old list |
| Editor.SampleRequestsFailOnlyOnMissingOutput | addons/TextualGraph/Editor/GraphEditor.cs:134-141 | with sample nodes a request throws exactly when the output node is missing |
| Editor.EnforceKeepsCapacity | addons/TextualGraph/Editor/GraphEditor.cs:155-167 | each port end with a non-negative limit that was within it before the request is still within it after the connect |
| Editor.RequestKeepsCapacity | addons/TextualGraph/Editor/GraphEditor.cs:132-168 | an accepted request keeps both port ends within their nodes' limits |
| Editor.AcceptedPairs | addons/TextualGraph/Editor/GraphEditor.cs:141-152 | only dialogue-dialogue, dialogue-choice, choice-dialogue and test_3-test_3 requests are accepted, and test_3 pairs exactly from port 0 to port 0 |
| Editor.SlotRequestAccepted | addons/TextualGraph/Editor/GraphEditor.cs:141-152 | between dialogue and choice nodes, acceptance holds exactly under the slot-0 and port-type-0 conditions stated as written |
| Editor.DragStarted | addons/TextualGraph/Editor/GraphEditor.cs:67-85 | a missing node changes nothing; for a present node the result is the dragged port end's EnsureCapacity under that node's limit for the port, and nothing changes for an unlimited (negative) one; at most one connection is removed, or Last() throws |
| Editor.DragMakesRoom | addons/TextualGraph/Editor/GraphEditor.cs:67-85 | after a drag from a port end that was within its non-negative limit, the end has room for one more connection |
| Editor.ConnectionsOf | addons/TextualGraph/Editor/GraphEditor.cs:368 | exactly the connections with the node at either end |
| Editor.Eligible | addons/TextualGraph/Editor/GraphEditor.cs:376-392 | one end of a connection is called when its name is non-empty, differs from the source's and the node of that name listens |
| Editor.NotesOf | addons/TextualGraph/Editor/GraphEditor.cs:371-392 | one connection causes at most two calls, its output end before its input end |
| Editor.Notifications | addons/TextualGraph/Editor/GraphEditor.cs:369-393 | the calls of the connections in order, at most two per connection |
| Editor.Routing | addons/TextualGraph/Editor/GraphEditor.cs:362-394 | a metadata change routes nothing without connections, otherwise at most two calls per connection of the node |
| Editor.IsNodeHasConnection | addons/TextualGraph/Editor/GraphEditor.cs:396-397 | true if and only if some connection is at the node |
| Editor.UnconnectedNotifiesNobody | addons/TextualGraph/Editor/GraphEditor.cs:364-365 | a source without connections notifies nobody |
| Editor.NotificationsSound | addons/TextualGraph/Editor/GraphEditor.cs:369-393 | every call goes to a listening node with a non-empty name other than the source's: the output-side neighbour with isOutput false and the input port, the input-side neighbour with isOutput true and the output port |
| Editor.NotificationsComplete | addons/TextualGraph/Editor/GraphEditor.cs:369-393 | every listening far end of the source's connections is called, with that side and port |
| Editor.Deliver | addons/TextualGraph/Editor/GraphEditor.cs:378-382 | a call to a node that does not listen changes nothing; a call changes no name and no listener status |
| Editor.DeliverAll | addons/TextualGraph/Editor/GraphEditor.cs:369-393 | the calls in order change no name and no listener status |
| Editor.DeliverAllAppend | addons/TextualGraph/Editor/GraphEditor.cs:369-393 | delivering a + b delivers a, then b from there, unless a threw |
| Editor.NotificationsSuffix | addons/TextualGraph/Editor/GraphEditor.cs:369-393 | once a listener has thrown, the remaining connections change nothing |
| Editor.RestoredName | addons/TextualGraph/Editor/GraphEditor.cs:455 | a restored node is named its type, an underscore, then its id |
| Editor.RestoreNode | addons/TextualGraph/Editor/GraphEditor.cs:451-469 | one snapshot node: skipped without a factory, otherwise named type_id, mapped, placed or marked, given its custom data, and kept unless the setter throws |
| Editor.RestoredNodes | addons/TextualGraph/Editor/GraphEditor.cs:449-470 | the first loop over the snapshot nodes, stopping at the first exception; it creates no more nodes than the snapshot holds |
| Editor.RestoredNodesAsExpected | addons/TextualGraph/Editor/GraphEditor.cs:449-470 | without an exception, exactly the constructible snapshot nodes are created, in order and named type_id, and exactly those without a position are marked |
| Editor.RestoredIdsSound | addons/TextualGraph/Editor/GraphEditor.cs:455-457 | every mapped id belongs to a constructible snapshot node and maps to its type_id name |
| Editor.RestoredIdsComplete | addons/TextualGraph/Editor/GraphEditor.cs:449-457 | without an exception every constructible snapshot node's id is mapped |
| Editor.RestoreFaultSticks | addons/TextualGraph/Editor/GraphEditor.cs:467 | once a custom data setter has thrown, the later snapshot nodes change nothing |
| Editor.RestoreConnection | addons/TextualGraph/Editor/GraphEditor.cs:474-477 | a snapshot connection is made between the names of its two ids, ports kept, and skipped when either id has no name |
| Editor.RestoredConnections | addons/TextualGraph/Editor/GraphEditor.cs:472-478 | the restored list is no longer than the snapshot's connection list |
| Editor.RestoredConnectionsMembers | addons/TextualGraph/Editor/GraphEditor.cs:472-478 | a connection is restored if and only if it comes from a snapshot connection whose two ids were created, renamed with both ports kept; none is dropped when every id was created |
| Editor.RestoreNodeShape | addons/TextualGraph/Editor/GraphEditor.cs:449-470 | a snapshot node without a factory changes nothing; otherwise, unless its setter throws, exactly one node named type_id is appended and the node is marked exactly when it has no position |
| Editor.NodeDataOf | addons/TextualGraph/Editor/GraphEditor.cs:408-413 | a node's record carries its name as id, its type, its position and its custom data |
| Editor.ConnectionDataOf | addons/TextualGraph/Editor/GraphEditor.cs:417-422 | the record of a connection restores to that connection under an id map that keeps its two names |
| Editor.ExportNodes | addons/TextualGraph/Editor/GraphEditor.cs:406-414 | one record per node, in order |
| Editor.ExportConnections | addons/TextualGraph/Editor/GraphEditor.cs:416-423 | one record per connection, in order |
| Editor.GetGraphData | addons/TextualGraph/Editor/GraphEditor.cs:404-426 | the snapshot holds the node records and the connection records |
| Editor.ExportedConnectionsRestore | addons/TextualGraph/Editor/GraphEditor.cs:472-478 | exported connections restore to themselves under an id map that keeps their node names |
| Editor.RestoredNodesExportRenamed | addons/TextualGraph/Editor/GraphEditor.cs:455-457 | re-exporting a restored graph reports each node under its type_id name, not its snapshot id |
| Editor.Without | addons/TextualGraph/Editor/GraphEditor.cs:253 | removing a name from the selection keeps exactly the other names |
| Editor.WithoutAll | addons/TextualGraph/Editor/GraphEditor.cs:179 | keeps exactly the selected names that are not deleted |
| Editor.NodesNotNamed | addons/TextualGraph/Editor/GraphEditor.cs:180-189 | no kept node has a deleted name, and a node is kept exactly when it is one of the old nodes, unchanged, whose name was not deleted |
| Editor.NodesNotNamedNames | addons/TextualGraph/Editor/GraphEditor.cs:177-191 | the node list and the selection are filtered by the same names |
| Editor.WithoutKeepsNoDuplicates | addons/TextualGraph/Editor/GraphEditor.cs:253 | deselecting keeps the selection a set |
| Editor.WithoutAllKeepsNoDuplicates | addons/TextualGraph/Editor/GraphEditor.cs:179 | deleting keeps the selection a set |
| Editor.LastOrNone | addons/TextualGraph/Editor/GraphEditor.cs:254 | null exactly for an empty selection, otherwise one of its names |
| Editor.AutoConnect | addons/TextualGraph/Editor/GraphEditor.cs:274-305 | nothing is connected without a pending node that exists; with one, the result is the connection request for the new node's answer (new node on the output side when the drag came from an input port, on the input side otherwise, at the port it answered) when the answer is yes, and the old list when it is no; a changed list ends with that connection, appended to a sub-multiset of the old list |
| Editor.AutoConnectConnects | addons/TextualGraph/Editor/GraphEditor.cs:274-305 | when the new node says yes and the request check accepts the pair, the list ends with the connection between the new node and the pending node |
| Editor.GraphEditor.constructor | addons/TextualGraph/Editor/GraphEditor.cs:23-31 | empty lists, no selection, nothing pending |
| Editor.GraphEditor.EnsureOutputCapacity | addons/TextualGraph/Editor/GraphEditor.cs:87-104 | the connection list becomes EnsureCapacity at the output end, or stays with the exception; nothing else changes |
| Editor.GraphEditor.EnsureInputCapacity | addons/TextualGraph/Editor/GraphEditor.cs:106-123 | the same at the input end |
| Editor.GraphEditor.OnConnectionDragStarted | addons/TextualGraph/Editor/GraphEditor.cs:67-85 | the connection list becomes DragStarted of the old list |
| Editor.GraphEditor.OnDisconnectionRequest | addons/TextualGraph/Editor/GraphEditor.cs:127-130 | the requested connection is removed once; nothing else changes |
| Editor.GraphEditor.OnConnectionRequest | addons/TextualGraph/Editor/GraphEditor.cs:132-168 | the connection list and the exception are ConnectionRequest of the old list |
| Editor.GraphEditor.EnforceCapacityAndConnect | addons/TextualGraph/Editor/GraphEditor.cs:155-167 | the connection list and the exception are EnforceAndConnect of the old list; nothing else changes |
| Editor.GraphEditor.OnNodeSelected | addons/TextualGraph/Editor/GraphEditor.cs:245-249 | in any state whose selection is a set: the node becomes last selected and joins the selection once; afterwards the selection is a set holding the last selected node |
| Editor.GraphEditor.OnNodeDeselected | addons/TextualGraph/Editor/GraphEditor.cs:251-255 | in any state whose selection is a set: the node leaves the selection, and the last selected becomes the last remaining one or null |
| Editor.GraphEditor.OnDeleteNodesRequest | addons/TextualGraph/Editor/GraphEditor.cs:177-191 | in any state whose selection is a set: the named nodes leave the node list and the selection, and the last selected becomes null |
| Editor.GraphEditor.OnConnectionFromEmpty | addons/TextualGraph/Editor/GraphEditor.cs:193-206 | records a pending drag from an input port; the menu offers the node's valid-from names; a missing node throws after the record |
| Editor.GraphEditor.OnConnectionToEmpty | addons/TextualGraph/Editor/GraphEditor.cs:207-220 | records a pending drag from an output port; the menu offers the node's valid-to names; a missing node throws after the record |
| Editor.GraphEditor.OnNodeSelectedFromMenu | addons/TextualGraph/Editor/GraphEditor.cs:257-311 | nothing changes when the factory yields null; otherwise the node is added, the pending pair is auto-connected, and the pending state is reset |
| Editor.GraphEditor.NotifyEnd | addons/TextualGraph/Editor/GraphEditor.cs:376-392 | one end of a connection is notified exactly when eligible |
| Editor.GraphEditor.NotifyConnectionEnds | addons/TextualGraph/Editor/GraphEditor.cs:371-392 | both ends of one connection are notified, output end first |
| Editor.GraphEditor.NotifyConnections | addons/TextualGraph/Editor/GraphEditor.cs:369-393 | the loop delivers the notifications of the given connections in order and stops at the first exception; nothing but the nodes changes |
| Editor.GraphEditor.OnNodeMetadataChanged | addons/TextualGraph/Editor/GraphEditor.cs:362-394 | the nodes and the exception are the in-order delivery of Routing; the connections, selection and pending state do not change |
| Editor.GraphEditor.Restore | addons/TextualGraph/Editor/GraphEditor.cs:432-482 | the selection is emptied and stays a set while the last selected name is kept; the nodes and the marked names are RestoredNodes of the snapshot; without an exception the connections gain RestoredConnections under the id map |
| Editor.GraphEditor.CreateNodes | addons/TextualGraph/Editor/GraphEditor.cs:449-470 | the first loop computes RestoredNodes: nodes, id map, marked names and exception |
| Editor.GraphEditor.ConnectRestored | addons/TextualGraph/Editor/GraphEditor.cs:472-478 | the second loop appends RestoredConnections |

## Left out

- The FragmentWriter's own output: it is the calls it receives (`WriterCall`). The TextWriter/TextReader streams are not modelled. The framing format, the connection ordering and restoration, and the text parser are opaque functions.
- `ConfigReader.DeserializeNodeConfig`: its result is the `configs` parameter of `UpdateRegistration`.
- Reflection (`GetTypes`, `GetProperty("NodeName")`, `GetMethod("Create")`, `Activator.CreateInstance`, `method.Invoke`). It is replaced by a list of `AssemblyType`. A class that has Create, either directly or through the interface default, is a flag. A factory is the class it builds.
- NodeRegistry.CreateAs: "is a T" is taken as "is of class T", without subclassing.
- The `_nodeSerializers ??= []` line in `UpdateRegistration`. After the rescan the map is always set, so the line cannot fire and has no counterpart.
- Godot's ConnectNode/DisconnectNode internals: they are append and remove-first. `AddChild`/`RemoveChild`/`QueueFree` and the scene tree are left out. The children of the editor are taken to be its node list (`GetGraphData` exports `nodes`), and engine name uniqueness is not modelled.
- Editor.GraphEditor.Restore and Editor.GraphEditor.OnDeleteNodesRequest: they leave the connection list as it was apart from what they add. Whether the engine drops the connections of removed children is engine behaviour outside this model.
- Editor.GraphEditor.Restore: the nodes it marks are returned instead of being selected. Setting `Selected = true` acts through engine signals. `ArrangeNodes` is left out.
- Editor.GraphEditor.OnNodeSelectedFromMenu:
  - The node is positioned from the click position, `ScrollOffset`, `Zoom` and `Size`; this float layout is left out.
  - The `MetadataChanged` subscription is left out.
  - An exception inside the emitted connection request stays in the signal handler and is not propagated.
- The UI and popup code: `OnPopupRequest`, `ShowNodeSelectWindow`, `ShowNodeMouseRightWindow`, `SetPopPosition`, `OnPopupHide`, `OnRightActionPressed`. Also `_EnterTree`/`_Ready`/`_ExitTree` event wiring and the hot-reload `OnAfterDeserialize`. These are engine lifecycle and user interface.
- SpinBox numerics:
  - TestNode and TestNode2 keep their spin boxes as integers. The `(int)` double casts, the widget's clamping and its step rounding are not modelled.
  - TestNode3's spin box is a real number without the widget's range.
  - The `long` to `int` port casts are taken as exact.
- TestNode3 `_Ready`: the ValueChanged subscription. Only the metadata it raises is modelled (`SpinChangedMetadata`).
- `_selectedNodes` is a HashSet. It is modelled as a duplicate-free sequence in insertion order, so `LastOrDefault` is the last inserted name.
- `IGraphNodeMetadataListener` is a signature only; its implementation in TestNode3 is modelled. The `DialogueEditorNode` script template has no behaviour.
- `Vector2` float arithmetic: positions are pairs of reals and are only copied.
- Collaborators cannot throw in this model. The custom serializers' guards and codecs are total functions. The ordering, restoration and parsing steps are total too. A custom serializer whose Serialize or Deserialize throws would stop TextGraphSerializer.Serialize before `Begin`, or stop Deserialize; that path is not modelled.
- Editor.GraphEditor.Restore, Editor.GraphEditor.OnNodeSelectedFromMenu: node creation is the parameter `create`, which yields a node or null and cannot throw. The registry's Create (NodeRegistry.Create) throws NullReference while its factory map is unset; that exception is not propagated here. `create` is also not tied to NodeRegistry.Create, so the model does not promise that a created node's type is the type that was asked for.
- Editor.GraphEditor.Restore: it keeps `_lastSelectedNode`, so afterwards the last selected name may be missing from the emptied selection. The selection handlers only require the selection to be a set, so they accept this state, as the source does.
- Positions: GetGraphData exports `IGraphNode.Position`, which is `Control.Position`. Restore writes `PositionOffset`. The model has one `position` field. In the engine, Position depends on the editor's zoom and scroll, so a graph exported while zoomed or scrolled can come back moved; this engine geometry is not modelled.
- Editor.GraphEditor.Restore does not subscribe the nodes it creates to `MetadataChanged`, unlike OnNodeSelected(string). Subscriptions are not modelled, so the model does not show that restored nodes never route metadata.
- Samples.SampleNode.OnConnectionNodeMetadataChanged: TestNode3's spin-box write raises `MetadataChanged` again through ValueChanged, which re-enters the routing loop. Engine signals are not modelled, so one routing pass is modelled without the nested ones.
- `Value` has no null and does not tell `int` from `long`. `(int)value["id"]` throws NullReference on a null entry and InvalidCast on a boxed `long`; the model has only the missing-key and wrong-variant cases.
- TextGraphSerialization.TextGraphSerializer.Serialize: the `nodeFragments` Dictionary is handed to `Order` as a Dafny map, so its insertion order is lost. The model does not promise anything that depends on that order.
