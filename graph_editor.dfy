/**
 * The graph editor (GraphEditor.cs): bookkeeping of the engine's connection
 * list, connection requests with capacity enforcement, selection, the
 * pending state of a drag to empty space, routing of metadata changes to
 * listening neighbours, and export/restore of a graph snapshot. The
 * engine's ConnectNode appends a connection and DisconnectNode removes the
 * first equal one.
 */
module Editor {
  import opened Wrappers
  import opened GraphModel
  import opened GraphNodes
  import opened Samples

  /** One entry of the engine's connection list: from = output, to = input. */
  datatype Connection = Connection(fromNode: string, fromPort: int, toNode: string, toPort: int)

  /** The state an operation reached and the exception that interrupted it, if any. */
  datatype Effect<T> = Effect(state: T, fault: Option<Exception>)

  /** _IsNodeHoverValid: a node may not be connected to itself. */
  predicate IsNodeHoverValid(outputNode: string, outputPort: int, toNode: string, toPort: int) {
    outputNode != toNode
  }

  /** Hovering rejects exactly the self-connections, whatever the ports. */
  lemma HoverRejectsExactlySelfConnections(a: string, p: int, b: string, q: int)
    ensures !IsNodeHoverValid(a, p, b, q) <==> a == b
  {
  }

  // ------------------------------------------------------- connection lists

  /** One end of a connection: a node's output port or a node's input port. */
  datatype PortEnd = OutputEnd(node: string, port: int) | InputEnd(node: string, port: int)

  /** Whether a connection ends at the given port end. */
  predicate Touches(c: Connection, e: PortEnd) {
    match e
    case OutputEnd(node, port) => c.fromNode == node && c.fromPort == port
    case InputEnd(node, port) => c.toNode == node && c.toPort == port
  }

  /** The connections at one port end, in list order (GetConnectionList().Where(...)). */
  function Matching(conns: seq<Connection>, e: PortEnd): (r: seq<Connection>)
    ensures |r| <= |conns|
    ensures forall c :: c in r <==> c in conns && Touches(c, e)
  {
    if conns == [] then []
    else (if Touches(conns[0], e) then [conns[0]] else []) + Matching(conns[1..], e)
  }

  /** DisconnectNode: the first connection equal to `c` is removed, if there is one. */
  function RemoveFirst(conns: seq<Connection>, c: Connection): (r: seq<Connection>)
    ensures c in conns ==> multiset(r) == multiset(conns) - multiset{c}
    ensures c !in conns ==> r == conns
  {
    if conns == [] then []
    else
      assert conns == [conns[0]] + conns[1..];
      if conns[0] == c then conns[1..]
      else [conns[0]] + RemoveFirst(conns[1..], c)
  }

  /** The last connection at a port end (Last()) is the list's final connection at that end, at index `j`. */
  lemma MatchingLast(conns: seq<Connection>, e: PortEnd, j: nat)
    requires j < |conns| && Touches(conns[j], e)
    requires forall k :: j < k < |conns| ==> !Touches(conns[k], e)
    ensures var m := Matching(conns, e);
      m != [] && m[|m| - 1] == conns[j]
  {
    var after := conns[j + 1..];
    forall k | 0 <= k < |after|
      ensures !Touches(after[k], e)
    {
      assert after[k] == conns[j + 1 + k];
    }
    NoneMatching(after, e);
    assert conns == (conns[..j] + [conns[j]]) + after;
    MatchingConcat(conns[..j] + [conns[j]], after, e);
    MatchingConcat(conns[..j], [conns[j]], e);
    assert Matching([conns[j]], e) == [conns[j]] by {
      assert [conns[j]][1..] == [];
    }
  }

  /** Matching distributes over concatenation, so it keeps list order. */
  lemma {:induction false} MatchingConcat(a: seq<Connection>, b: seq<Connection>, e: PortEnd)
    ensures Matching(a + b, e) == Matching(a, e) + Matching(b, e)
  {
    if a == [] {
      assert a + b == b;
    } else {
      calc {
        Matching(a + b, e);
      == { assert (a + b)[0] == a[0]; assert (a + b)[1..] == a[1..] + b; }
        (if Touches(a[0], e) then [a[0]] else []) + Matching(a[1..] + b, e);
      == { MatchingConcat(a[1..], b, e); }
        (if Touches(a[0], e) then [a[0]] else []) + (Matching(a[1..], e) + Matching(b, e));
      ==
        ((if Touches(a[0], e) then [a[0]] else []) + Matching(a[1..], e)) + Matching(b, e);
      ==
        Matching(a, e) + Matching(b, e);
      }
    }
  }

  /** A list with no connection at a port end has nothing to match there. */
  lemma {:induction false} NoneMatching(conns: seq<Connection>, e: PortEnd)
    requires forall k :: 0 <= k < |conns| ==> !Touches(conns[k], e)
    ensures Matching(conns, e) == []
  {
    if conns != [] {
      var tail := conns[1..];
      forall k | 0 <= k < |tail|
        ensures !Touches(tail[k], e)
      {
        assert tail[k] == conns[k + 1];
      }
      NoneMatching(tail, e);
    }
  }

  /** DisconnectNode removes the first copy of a connection, at its first index `i`, and keeps the others in order. */
  lemma RemoveFirstSplits(conns: seq<Connection>, c: Connection, i: nat)
    requires i < |conns| && conns[i] == c && c !in conns[..i]
    ensures RemoveFirst(conns, c) == conns[..i] + conns[i + 1..]
  {
    var rest := conns[i + 1..];
    assert conns == conns[..i] + ([c] + rest);
    RemoveFirstSkips(conns[..i], [c] + rest, c);
    assert ([c] + rest)[1..] == rest;
  }

  /** Connections before the first copy are kept as they are. */
  lemma {:induction false} RemoveFirstSkips(a: seq<Connection>, b: seq<Connection>, c: Connection)
    requires c !in a
    ensures RemoveFirst(a + b, c) == a + RemoveFirst(b, c)
  {
    if a == [] {
      assert a + b == b && a + RemoveFirst(b, c) == RemoveFirst(b, c);
    } else {
      calc {
        RemoveFirst(a + b, c);
      == { assert (a + b)[0] == a[0] && a[0] in a; assert (a + b)[1..] == a[1..] + b; }
        [a[0]] + RemoveFirst(a[1..] + b, c);
      == { assert c !in a[1..]; RemoveFirstSkips(a[1..], b, c); }
        [a[0]] + (a[1..] + RemoveFirst(b, c));
      == { assert [a[0]] + a[1..] == a; }
        a + RemoveFirst(b, c);
      }
    }
  }

  /** Removing one connection lowers the count at a port end by one if it was there and touches it, and otherwise keeps it. */
  lemma {:induction false} RemoveFirstCount(conns: seq<Connection>, c: Connection, e: PortEnd)
    ensures |Matching(RemoveFirst(conns, c), e)| ==
      |Matching(conns, e)| - (if c in conns && Touches(c, e) then 1 else 0)
  {
    if conns != [] && conns[0] != c {
      RemoveFirstCount(conns[1..], c, e);
      assert ([conns[0]] + RemoveFirst(conns[1..], c))[1..] == RemoveFirst(conns[1..], c);
    }
  }

  /** Appending a connection adds one to the count of exactly the port ends it touches. */
  lemma {:induction false} AppendCount(conns: seq<Connection>, c: Connection, e: PortEnd)
    ensures |Matching(conns + [c], e)| == |Matching(conns, e)| + (if Touches(c, e) then 1 else 0)
  {
    if conns != [] {
      assert (conns + [c])[1..] == conns[1..] + [c];
      AppendCount(conns[1..], c, e);
    }
  }

  /**
   * EnsureOutputCapacity / EnsureInputCapacity: when the port end already has
   * `max` or more connections, its last connection is disconnected. Last() on
   * no connections at all (max <= 0) throws.
   */
  function EnsureCapacity(conns: seq<Connection>, e: PortEnd, max: int): (r: Outcome<seq<Connection>>)
    ensures r.Throws? <==> |Matching(conns, e)| == 0 && max <= 0
    ensures r.Throws? ==> r.error == InvalidOperation
    ensures |Matching(conns, e)| < max ==> r == Ok(conns)
    ensures r.Ok? && |Matching(conns, e)| >= max ==>
      var m := Matching(conns, e);
      && multiset(r.value) == multiset(conns) - multiset{m[|m| - 1]}
      && |Matching(r.value, e)| == |m| - 1
  {
    var m := Matching(conns, e);
    if |m| >= max then
      if |m| == 0 then Throws(InvalidOperation)
      else
        RemoveFirstCount(conns, m[|m| - 1], e);
        Ok(RemoveFirst(conns, m[|m| - 1]))
    else Ok(conns)
  }

  /** Enforcing capacity removes at most one connection and never raises the count at any port end. */
  lemma EnsureCapacityOnlyRemoves(conns: seq<Connection>, e: PortEnd, max: int, other: PortEnd)
    requires EnsureCapacity(conns, e, max).Ok?
    ensures var r := EnsureCapacity(conns, e, max).value;
      && |Matching(r, other)| <= |Matching(conns, other)| && |conns| - 1 <= |r| <= |conns|
      && multiset(r) <= multiset(conns)
  {
    var m := Matching(conns, e);
    if |m| >= max {
      RemoveFirstCount(conns, m[|m| - 1], other);
      var r := RemoveFirst(conns, m[|m| - 1]);
      assert |multiset(r)| == |multiset(conns)| - 1;
    }
  }

  // ---------------------------------------------------- connection requests

  /**
   * The semantic check of OnConnectionRequest, in the source's order: the
   * output node's CanConnectWhenIsOutput must succeed with the requested
   * output port, then the input node's CanConnectWhenIsInput with the
   * requested input port. A missing output node is dereferenced and throws;
   * a missing input node is refused by every sample before it is used.
   */
  function Accepts(nodes: seq<GraphNode>, outputName: string, outputPort: int, inputName: string, inputPort: int): (r: Outcome<bool>)
    ensures r.Throws? <==> FindNode(nodes, outputName).None?
    ensures r.Throws? ==> r.error == NullReference
    ensures r == Ok(true) <==>
      && FindNode(nodes, outputName).Some? && FindNode(nodes, inputName).Some?
      && CanConnectWhenIsOutput(FindNode(nodes, outputName).value, FindNode(nodes, inputName), inputPort) == PortAnswer(true, outputPort)
      && CanConnectWhenIsInput(FindNode(nodes, inputName).value, FindNode(nodes, outputName), outputPort) == PortAnswer(true, inputPort)
  {
    var outputNode := FindNode(nodes, outputName);
    var inputNode := FindNode(nodes, inputName);
    if outputNode.None? then Throws(NullReference)
    else
      var acceptOutput := CanConnectWhenIsOutput(outputNode.value, inputNode, inputPort);
      if !acceptOutput.ok || acceptOutput.port != outputPort then Ok(false)
      else
        var acceptInput := CanConnectWhenIsInput(inputNode.value, outputNode, outputPort);
        Ok(acceptInput.ok && acceptInput.port == inputPort)
  }

  /**
   * The part of OnConnectionRequest after the semantic check: the output
   * port end's capacity is enforced, then the input port end's (each only
   * for a non-negative limit), then the connection is appended.
   */
  function EnforceAndConnect(conns: seq<Connection>, c: Connection, outputMax: int, inputMax: int): (r: Effect<seq<Connection>>)
    ensures r.fault.None? ==>
      && |r.state| > 0 && r.state[|r.state| - 1] == c
      && |conns| - 2 <= |r.state| - 1 <= |conns|
      && multiset(r.state[..|r.state| - 1]) <= multiset(conns)
    ensures r.fault.Some? ==>
      && r.fault == Some(InvalidOperation) && (outputMax == 0 || inputMax == 0)
      && multiset(r.state) <= multiset(conns)
    ensures |conns| - 2 <= |r.state| <= |conns| + 1
    ensures ((outputMax < 0 || |Matching(conns, OutputEnd(c.fromNode, c.fromPort))| < outputMax) &&
             (inputMax < 0 || |Matching(conns, InputEnd(c.toNode, c.toPort))| < inputMax))
      ==> r == Effect(conns + [c], None)
  {
    var outEnd, inEnd := OutputEnd(c.fromNode, c.fromPort), InputEnd(c.toNode, c.toPort);
    var afterOutput := if outputMax >= 0 then EnsureCapacity(conns, outEnd, outputMax) else Ok(conns);
    if afterOutput.Throws? then Effect(conns, Some(afterOutput.error))
    else
      var conns1 := afterOutput.value;
      assert |conns1| >= |conns| - 1 by {
        if outputMax >= 0 { EnsureCapacityOnlyRemoves(conns, outEnd, outputMax, outEnd); }
      }
      var afterInput := if inputMax >= 0 then EnsureCapacity(conns1, inEnd, inputMax) else Ok(conns1);
      if afterInput.Throws? then
        assert |conns1| <= |conns| && multiset(conns1) <= multiset(conns) by {
          if outputMax >= 0 { EnsureCapacityOnlyRemoves(conns, outEnd, outputMax, outEnd); }
        }
        Effect(conns1, Some(afterInput.error))
      else
        var conns2 := afterInput.value;
        assert |conns1| - 1 <= |conns2| <= |conns1| <= |conns| && multiset(conns2) <= multiset(conns) by {
          if outputMax >= 0 { EnsureCapacityOnlyRemoves(conns, outEnd, outputMax, outEnd); }
          if inputMax >= 0 { EnsureCapacityOnlyRemoves(conns1, inEnd, inputMax, inEnd); }
        }
        assert (conns2 + [c])[..|conns2|] == conns2;
        Effect(conns2 + [c], None)
  }

  /** OnConnectionRequest: nothing changes unless the semantic check accepts the request. */
  function ConnectionRequest(conns: seq<Connection>, nodes: seq<GraphNode>,
                             outputName: string, outputPort: int, inputName: string, inputPort: int): (r: Effect<seq<Connection>>)
    ensures Accepts(nodes, outputName, outputPort, inputName, inputPort) != Ok(true) ==>
      r.state == conns && (r.fault.Some? <==> FindNode(nodes, outputName).None?)
    ensures Accepts(nodes, outputName, outputPort, inputName, inputPort) == Ok(true) && r.fault.None? ==>
      && |r.state| > 0
      && r.state[|r.state| - 1] == Connection(outputName, outputPort, inputName, inputPort)
      && |conns| - 2 <= |r.state| - 1 <= |conns|
      && multiset(r.state[..|r.state| - 1]) <= multiset(conns)
    ensures r.fault.Some? ==> multiset(r.state) <= multiset(conns)
    ensures |conns| - 2 <= |r.state| <= |conns| + 1
  {
    match Accepts(nodes, outputName, outputPort, inputName, inputPort)
    case Throws(e) => Effect(conns, Some(e))
    case Ok(accepted) =>
      if !accepted then Effect(conns, None)
      else
        EnforceAndConnect(conns, Connection(outputName, outputPort, inputName, inputPort),
                          GetMaxOutputConnections(FindNode(nodes, outputName).value.kind, outputPort),
                          GetMaxInputConnections(FindNode(nodes, inputName).value.kind, inputPort))
  }

  /** With sample nodes a request never throws once its output node exists: no sample reports a capacity of 0. */
  lemma SampleRequestsFailOnlyOnMissingOutput(conns: seq<Connection>, nodes: seq<GraphNode>,
                                              outputName: string, outputPort: int, inputName: string, inputPort: int)
    ensures ConnectionRequest(conns, nodes, outputName, outputPort, inputName, inputPort).fault.Some? <==>
      FindNode(nodes, outputName).None?
  {
  }

  /** Enforcing capacity before appending keeps each of the two port ends within its limit if it was within it before. */
  lemma {:induction false} EnforceKeepsCapacity(conns: seq<Connection>, c: Connection, outputMax: int, inputMax: int)
    requires outputMax >= 0 ==> |Matching(conns, OutputEnd(c.fromNode, c.fromPort))| <= outputMax
    requires inputMax >= 0 ==> |Matching(conns, InputEnd(c.toNode, c.toPort))| <= inputMax
    ensures var r := EnforceAndConnect(conns, c, outputMax, inputMax).state;
      && (outputMax >= 0 ==> |Matching(r, OutputEnd(c.fromNode, c.fromPort))| <= outputMax)
      && (inputMax >= 0 ==> |Matching(r, InputEnd(c.toNode, c.toPort))| <= inputMax)
  {
    var outEnd, inEnd := OutputEnd(c.fromNode, c.fromPort), InputEnd(c.toNode, c.toPort);
    var afterOutput := if outputMax >= 0 then EnsureCapacity(conns, outEnd, outputMax) else Ok(conns);
    if afterOutput.Ok? {
      var conns1 := afterOutput.value;
      if outputMax >= 0 {
        EnsureCapacityOnlyRemoves(conns, outEnd, outputMax, inEnd);
      }
      var afterInput := if inputMax >= 0 then EnsureCapacity(conns1, inEnd, inputMax) else Ok(conns1);
      if afterInput.Ok? {
        var conns2 := afterInput.value;
        if inputMax >= 0 {
          EnsureCapacityOnlyRemoves(conns1, inEnd, inputMax, outEnd);
        }
        AppendCount(conns2, c, outEnd);
        AppendCount(conns2, c, inEnd);
      } else if outputMax >= 0 {
        EnsureCapacityOnlyRemoves(conns, outEnd, outputMax, outEnd);
      }
    }
  }

  /** An accepted request keeps each of its two port ends within its node's limit if it was within it before. */
  lemma RequestKeepsCapacity(conns: seq<Connection>, nodes: seq<GraphNode>,
                             outputName: string, outputPort: int, inputName: string, inputPort: int)
    requires Accepts(nodes, outputName, outputPort, inputName, inputPort) == Ok(true)
    requires var outputMax := GetMaxOutputConnections(FindNode(nodes, outputName).value.kind, outputPort);
      outputMax >= 0 ==> |Matching(conns, OutputEnd(outputName, outputPort))| <= outputMax
    requires var inputMax := GetMaxInputConnections(FindNode(nodes, inputName).value.kind, inputPort);
      inputMax >= 0 ==> |Matching(conns, InputEnd(inputName, inputPort))| <= inputMax
    ensures var r := ConnectionRequest(conns, nodes, outputName, outputPort, inputName, inputPort);
      var outputMax := GetMaxOutputConnections(FindNode(nodes, outputName).value.kind, outputPort);
      var inputMax := GetMaxInputConnections(FindNode(nodes, inputName).value.kind, inputPort);
      && (outputMax >= 0 ==> |Matching(r.state, OutputEnd(outputName, outputPort))| <= outputMax)
      && (inputMax >= 0 ==> |Matching(r.state, InputEnd(inputName, inputPort))| <= inputMax)
  {
    EnforceKeepsCapacity(conns, Connection(outputName, outputPort, inputName, inputPort),
                         GetMaxOutputConnections(FindNode(nodes, outputName).value.kind, outputPort),
                         GetMaxInputConnections(FindNode(nodes, inputName).value.kind, inputPort));
  }

  /**
   * The compatibility table of the samples: a request is accepted only
   * between dialogue and dialogue, dialogue and choice (either way), or two
   * test_3 nodes; test_3 pairs connect exactly port 0 to port 0.
   */
  lemma {:induction false} AcceptedPairs(nodes: seq<GraphNode>, outputName: string, outputPort: int, inputName: string, inputPort: int)
    requires FindNode(nodes, outputName).Some? && FindNode(nodes, inputName).Some?
    ensures var o := FindNode(nodes, outputName).value.kind;
      var i := FindNode(nodes, inputName).value.kind;
      && (Accepts(nodes, outputName, outputPort, inputName, inputPort) == Ok(true) ==>
            (o.Dialogue? && i.Dialogue?) || (o.Dialogue? && i.Choice?) || (o.Choice? && i.Dialogue?) || (o.Test3? && i.Test3?))
      && (o.Test3? && i.Test3? ==>
            (Accepts(nodes, outputName, outputPort, inputName, inputPort) == Ok(true) <==> outputPort == 0 && inputPort == 0))
  {
    var o := FindNode(nodes, outputName).value;
    var i := FindNode(nodes, inputName).value;
    if o.kind.Choice? && i.kind.Choice? {
      ChoiceRefusesChoice(o, i, inputPort);
    }
  }

  /**
   * Between dialogue and choice nodes a request is accepted exactly when
   * both requested ports are the slot-0 input ports of their nodes, both
   * have port type 0, and the requested input port is also the input node's
   * slot-0 output port (or 0 when it has none).
   */
  lemma {:induction false} SlotRequestAccepted(nodes: seq<GraphNode>, outputName: string, outputPort: int, inputName: string, inputPort: int)
    requires FindNode(nodes, outputName).Some? && FindNode(nodes, inputName).Some?
    requires var o := FindNode(nodes, outputName).value.kind;
      var i := FindNode(nodes, inputName).value.kind;
      (o.Dialogue? || o.Choice?) && (i.Dialogue? || i.Choice?) && !(o.Choice? && i.Choice?)
    ensures var o := FindNode(nodes, outputName).value;
      var i := FindNode(nodes, inputName).value;
      Accepts(nodes, outputName, outputPort, inputName, inputPort) == Ok(true) <==>
        && i.slots.inputSlot0 == Some(inputPort) && i.slots.inputPortType(inputPort) == 0
        && o.slots.inputSlot0 == Some(outputPort) && o.slots.inputPortType(outputPort) == 0
        && i.slots.outputSlot0.GetOr(0) == inputPort
  {
  }

  /** OnConnectionDragStarted: the dragged port end's capacity is enforced for a non-negative limit. */
  function DragStarted(conns: seq<Connection>, nodes: seq<GraphNode>, nodeName: string, port: int, isOutput: bool): (r: Outcome<seq<Connection>>)
    ensures FindNode(nodes, nodeName).None? || FindNode(nodes, nodeName).value.kind.Choice? ==> r == Ok(conns)
    ensures r.Throws? ==> r.error == InvalidOperation
    ensures r.Ok? ==> multiset(r.value) <= multiset(conns) && |r.value| >= |conns| - 1
    ensures FindNode(nodes, nodeName).Some? ==>
      var kind := FindNode(nodes, nodeName).value.kind;
      var e := if isOutput then OutputEnd(nodeName, port) else InputEnd(nodeName, port);
      var max := if isOutput then GetMaxOutputConnections(kind, port) else GetMaxInputConnections(kind, port);
      r == if max < 0 then Ok(conns) else EnsureCapacity(conns, e, max)
  {
    match FindNode(nodes, nodeName)
    case None => Ok(conns)
    case Some(node) =>
      var e := if isOutput then OutputEnd(nodeName, port) else InputEnd(nodeName, port);
      var max := if isOutput then GetMaxOutputConnections(node.kind, port) else GetMaxInputConnections(node.kind, port);
      if max < 0 then Ok(conns)
      else
        var r := EnsureCapacity(conns, e, max);
        if r.Ok? then
          EnsureCapacityOnlyRemoves(conns, e, max, e);
          r
        else r
  }

  /** A drag at a port end that was within its limit leaves room there for one more connection. */
  lemma DragMakesRoom(conns: seq<Connection>, nodes: seq<GraphNode>, nodeName: string, port: int, isOutput: bool)
    requires FindNode(nodes, nodeName).Some?
    requires DragStarted(conns, nodes, nodeName, port, isOutput).Ok?
    ensures var kind := FindNode(nodes, nodeName).value.kind;
      var e := if isOutput then OutputEnd(nodeName, port) else InputEnd(nodeName, port);
      var max := if isOutput then GetMaxOutputConnections(kind, port) else GetMaxInputConnections(kind, port);
      max >= 0 && |Matching(conns, e)| <= max ==>
        |Matching(DragStarted(conns, nodes, nodeName, port, isOutput).value, e)| < max
  {
  }

  // ---------------------------------------------------------------- routing

  /** Whether a connection has the node at either end (GetConnectionListFromNode). */
  predicate AtNode(c: Connection, name: string) {
    c.fromNode == name || c.toNode == name
  }

  /** The connections at a node, in list order. */
  function ConnectionsOf(conns: seq<Connection>, name: string): (r: seq<Connection>)
    ensures forall c :: c in r <==> c in conns && AtNode(c, name)
  {
    if conns == [] then []
    else (if AtNode(conns[0], name) then [conns[0]] else []) + ConnectionsOf(conns[1..], name)
  }

  /** IsNodeHasConnection: some connection starts or ends at the node. */
  function IsNodeHasConnection(conns: seq<Connection>, name: string): (r: bool)
    ensures r <==> ConnectionsOf(conns, name) != []
  {
    var touching := ConnectionsOf(conns, name);
    assert touching != [] ==> touching[0] in touching;
    exists c :: c in conns && AtNode(c, name)
  }

  /** One OnConnectionNodeMetadataChanged call: the listener node, which side the changed node is on, and the listener's port. */
  datatype Notification = Notification(target: string, isOutput: bool, port: int)

  /** Whether the first node of that name implements IGraphNodeMetadataListener. */
  predicate Listens(nodes: seq<GraphNode>, name: string) {
    FindIndex(nodes, name).Some? && IsMetadataListener(nodes[FindIndex(nodes, name).value].kind)
  }

  /** The call to one end of a connection: made when the end is a non-empty name other than the source's and listens. */
  function Eligible(target: string, isOutput: bool, port: int, nodes: seq<GraphNode>, source: string): seq<Notification> {
    if target != "" && target != source && Listens(nodes, target) then [Notification(target, isOutput, port)] else []
  }

  /** The calls one connection of the changed node `source` causes: its output end, then its input end. */
  function NotesOf(c: Connection, nodes: seq<GraphNode>, source: string): (r: seq<Notification>)
    ensures |r| <= 2
  {
    Eligible(c.fromNode, false, c.toPort, nodes, source) + Eligible(c.toNode, true, c.fromPort, nodes, source)
  }

  /** The calls a sequence of connections causes, in order. */
  function Notifications(touching: seq<Connection>, nodes: seq<GraphNode>, source: string): (r: seq<Notification>)
    ensures |r| <= 2 * |touching|
  {
    if touching == [] then []
    else Notifications(touching[..|touching| - 1], nodes, source) + NotesOf(touching[|touching| - 1], nodes, source)
  }

  /** OnNodeMetadataChanged: the listener calls a metadata change of `source` makes. */
  function Routing(conns: seq<Connection>, nodes: seq<GraphNode>, source: string): (r: seq<Notification>)
    ensures |r| <= 2 * |ConnectionsOf(conns, source)|
  {
    if !IsNodeHasConnection(conns, source) then [] else Notifications(ConnectionsOf(conns, source), nodes, source)
  }

  /** A node without connections notifies nobody. */
  lemma UnconnectedNotifiesNobody(conns: seq<Connection>, nodes: seq<GraphNode>, source: string)
    requires forall c :: c in conns ==> !AtNode(c, source)
    ensures Routing(conns, nodes, source) == []
  {
  }

  /** A call that connection `c` accounts for: to its output end about the input port, or to its input end about the output port. */
  predicate SentFor(n: Notification, c: Connection) {
    (!n.isOutput && c.fromNode == n.target && n.port == c.toPort) ||
    (n.isOutput && c.toNode == n.target && n.port == c.fromPort)
  }

  /**
   * Every call goes to a listening node other than the source, named at the
   * other end of one of the source's connections: an output-side neighbour
   * hears isOutput = false with the connection's input port, an input-side
   * neighbour isOutput = true with its output port.
   */
  lemma {:induction false} NotificationsSound(touching: seq<Connection>, nodes: seq<GraphNode>, source: string)
    ensures forall n :: n in Notifications(touching, nodes, source) ==>
      && n.target != "" && n.target != source && Listens(nodes, n.target)
      && exists c :: c in touching && SentFor(n, c)
  {
    if touching != [] {
      var prefix := touching[..|touching| - 1];
      NotificationsSound(prefix, nodes, source);
      forall n | n in Notifications(touching, nodes, source)
        ensures exists c :: c in touching && SentFor(n, c)
      {
        if n in Notifications(prefix, nodes, source) {
          var c :| c in prefix && SentFor(n, c);
          assert c in touching;
        } else {
          assert touching[|touching| - 1] in touching;
        }
      }
    }
  }

  /** Every listening other end of a connection of the source is called, with the side and port stated above. */
  lemma {:induction false} NotificationsComplete(touching: seq<Connection>, nodes: seq<GraphNode>, source: string)
    ensures forall c :: c in touching && c.fromNode != "" && c.fromNode != source && Listens(nodes, c.fromNode) ==>
      Notification(c.fromNode, false, c.toPort) in Notifications(touching, nodes, source)
    ensures forall c :: c in touching && c.toNode != "" && c.toNode != source && Listens(nodes, c.toNode) ==>
      Notification(c.toNode, true, c.fromPort) in Notifications(touching, nodes, source)
  {
    if touching != [] {
      var prefix := touching[..|touching| - 1];
      NotificationsComplete(prefix, nodes, source);
      assert forall c :: c in touching ==> c in prefix || c == touching[|touching| - 1];
    }
  }

  /** Whether two node lists agree on every name and on which nodes listen. */
  ghost predicate SameShape(a: seq<GraphNode>, b: seq<GraphNode>) {
    |a| == |b| && forall i :: 0 <= i < |a| ==> a[i].name == b[i].name && IsMetadataListener(a[i].kind) == IsMetadataListener(b[i].kind)
  }

  /** Lookup by name sees only the shape. */
  lemma {:induction false} SameShapeFindIndex(a: seq<GraphNode>, b: seq<GraphNode>, name: string)
    requires SameShape(a, b)
    ensures FindIndex(a, name) == FindIndex(b, name)
    ensures Listens(a, name) == Listens(b, name)
  {
    if a != [] && a[0].name != name {
      assert SameShape(a[1..], b[1..]);
      SameShapeFindIndex(a[1..], b[1..], name);
    }
  }

  /** One listener call: the named node, if it listens, reacts to the metadata of `source`. */
  function Deliver(nodes: seq<GraphNode>, source: GraphNode, meta: CustomData, n: Notification): (r: Outcome<seq<GraphNode>>)
    ensures r.Ok? ==> SameShape(nodes, r.value)
    ensures !Listens(nodes, n.target) ==> r == Ok(nodes)
  {
    match FindIndex(nodes, n.target)
    case None => Ok(nodes)
    case Some(j) =>
      if !IsMetadataListener(nodes[j].kind) then Ok(nodes)
      else match MetadataEffect(nodes[j].kind, source.kind, meta, n.isOutput, n.port)
        case Throws(e) => Throws(e)
        case Ok(k) => Ok(nodes[j := nodes[j].(kind := k)])
  }

  /** The calls made one after another; the first exception stops the rest. */
  function DeliverAll(nodes: seq<GraphNode>, source: GraphNode, meta: CustomData, notes: seq<Notification>): (r: Effect<seq<GraphNode>>)
    ensures SameShape(nodes, r.state)
  {
    if notes == [] then Effect(nodes, None)
    else
      var prev := DeliverAll(nodes, source, meta, notes[..|notes| - 1]);
      if prev.fault.Some? then prev
      else match Deliver(prev.state, source, meta, notes[|notes| - 1])
        case Throws(e) => Effect(prev.state, Some(e))
        case Ok(next) => Effect(next, None)
  }

  /** Delivering a + b is delivering a, then b from where a left off unless it threw. */
  lemma {:induction false} DeliverAllAppend(nodes: seq<GraphNode>, source: GraphNode, meta: CustomData, a: seq<Notification>, b: seq<Notification>)
    ensures DeliverAll(nodes, source, meta, a + b) ==
      var first := DeliverAll(nodes, source, meta, a);
      if first.fault.Some? then first else DeliverAll(first.state, source, meta, b)
  {
    if b == [] {
      assert a + b == a;
    } else {
      var b' := b[..|b| - 1];
      assert (a + b)[..|a + b| - 1] == a + b';
      assert (a + b)[|a + b| - 1] == b[|b| - 1];
      DeliverAllAppend(nodes, source, meta, a, b');
    }
  }

  /** Routing only looks at names and at which nodes listen, so two node lists of the same shape route the same way. */
  lemma SameShapeEligible(target: string, isOutput: bool, port: int, a: seq<GraphNode>, b: seq<GraphNode>, source: string)
    requires SameShape(a, b)
    ensures Eligible(target, isOutput, port, a, source) == Eligible(target, isOutput, port, b, source)
  {
    SameShapeFindIndex(a, b, target);
  }

  /** The same holds for both ends of a connection. */
  lemma SameShapeNotes(c: Connection, a: seq<GraphNode>, b: seq<GraphNode>, source: string)
    requires SameShape(a, b)
    ensures NotesOf(c, a, source) == NotesOf(c, b, source)
  {
    SameShapeEligible(c.fromNode, false, c.toPort, a, b, source);
    SameShapeEligible(c.toNode, true, c.fromPort, a, b, source);
  }

  // ------------------------------------------------------------- restoring

  /** The name Restore gives the node restored from a snapshot node. */
  function RestoredName(d: NodeData): (r: string)
    ensures |r| == |d.nodeType| + 1 + |d.nodeId|
    ensures r[..|d.nodeType|] == d.nodeType && r[|d.nodeType|] == '_' && r[|d.nodeType| + 1..] == d.nodeId
  {
    d.nodeType + "_" + d.nodeId
  }

  /** The first loop of Restore so far: created nodes, id-to-name map, nodes marked for arrangement, and an exception. */
  datatype RestoreProgress = RestoreProgress(
    nodes: seq<GraphNode>, idToName: map<string, string>, marked: seq<string>, fault: Option<Exception>)

  /**
   * One snapshot node: skipped when its type has no factory; otherwise
   * named type_id, recorded in the id map, placed or marked for
   * arrangement, and given its custom data; a throwing CustomData setter
   * stops Restore before the node is kept.
   */
  function RestoreNode(p: RestoreProgress, d: NodeData, create: string -> Option<GraphNode>): RestoreProgress {
    match create(d.nodeType)
    case None => p
    case Some(made) =>
      var name := RestoredName(d);
      var idToName := p.idToName[d.nodeId := name];
      var placed := if d.position.Some? then made.(name := name, position := d.position.value) else made.(name := name);
      var marked := if d.position.Some? then p.marked else p.marked + [name];
      var written := AssignCustomData(placed.kind, d.customData);
      if written.fault.Some? then RestoreProgress(p.nodes, idToName, marked, written.fault)
      else RestoreProgress(p.nodes + [placed.(kind := written.kind)], idToName, marked, None)
  }

  /** The first loop of Restore over a list of snapshot nodes. */
  function RestoredNodes(ds: seq<NodeData>, create: string -> Option<GraphNode>): (r: RestoreProgress)
    ensures |r.nodes| <= |ds|
  {
    if ds == [] then RestoreProgress([], map[], [], None)
    else
      var prev := RestoredNodes(ds[..|ds| - 1], create);
      if prev.fault.Some? then prev else RestoreNode(prev, ds[|ds| - 1], create)
  }

  /** The names Restore gives, in snapshot order, to the nodes whose type has a factory. */
  function ExpectedNames(ds: seq<NodeData>, create: string -> Option<GraphNode>): seq<string> {
    if ds == [] then []
    else ExpectedNames(ds[..|ds| - 1], create) + (if create(ds[|ds| - 1].nodeType).Some? then [RestoredName(ds[|ds| - 1])] else [])
  }

  /** The names of the constructible snapshot nodes without a position, in snapshot order. */
  function ExpectedMarked(ds: seq<NodeData>, create: string -> Option<GraphNode>): seq<string> {
    if ds == [] then []
    else
      var d := ds[|ds| - 1];
      ExpectedMarked(ds[..|ds| - 1], create) + (if create(d.nodeType).Some? && d.position.None? then [RestoredName(d)] else [])
  }

  /** The names of a node list, in order. */
  function Names(nodes: seq<GraphNode>): (r: seq<string>)
    ensures |r| == |nodes| && forall i :: 0 <= i < |nodes| ==> r[i] == nodes[i].name
  {
    if nodes == [] then [] else Names(nodes[..|nodes| - 1]) + [nodes[|nodes| - 1].name]
  }

  /** One snapshot node without an exception: skipped without a factory, else appended under its type_id name and marked without a position. */
  lemma RestoreNodeShape(p: RestoreProgress, d: NodeData, create: string -> Option<GraphNode>)
    requires RestoreNode(p, d, create).fault.None?
    ensures var q := RestoreNode(p, d, create);
      && (create(d.nodeType).None? ==> q == p)
      && (create(d.nodeType).Some? ==>
            && |q.nodes| == |p.nodes| + 1 && q.nodes[..|p.nodes|] == p.nodes && q.nodes[|p.nodes|].name == RestoredName(d)
            && q.marked == p.marked + (if d.position.None? then [RestoredName(d)] else []))
  {
  }

  /**
   * Without an exception, Restore creates exactly the constructible
   * snapshot nodes, in order, named type_id, and marks exactly those of
   * them without a position.
   */
  lemma {:induction false} RestoredNodesAsExpected(ds: seq<NodeData>, create: string -> Option<GraphNode>)
    requires RestoredNodes(ds, create).fault.None?
    ensures Names(RestoredNodes(ds, create).nodes) == ExpectedNames(ds, create)
    ensures RestoredNodes(ds, create).marked == ExpectedMarked(ds, create)
  {
    if ds != [] {
      var prefix := ds[..|ds| - 1];
      var d := ds[|ds| - 1];
      var prev := RestoredNodes(prefix, create);
      RestoredNodesAsExpected(prefix, create);
      var p := RestoredNodes(ds, create);
      assert p == RestoreNode(prev, d, create);
      RestoreNodeShape(prev, d, create);
      if create(d.nodeType).Some? {
        assert p.nodes == prev.nodes + [p.nodes[|p.nodes| - 1]];
        NamesAppend(prev.nodes, p.nodes[|p.nodes| - 1]);
      }
    }
  }

  /** Names distributes over appending one node. */
  lemma NamesAppend(nodes: seq<GraphNode>, n: GraphNode)
    ensures Names(nodes + [n]) == Names(nodes) + [n.name]
  {
    assert (nodes + [n])[..|nodes|] == nodes;
  }

  /** Every id Restore maps names a constructible snapshot node with that id, under its type_id name. */
  lemma {:induction false} RestoredIdsSound(ds: seq<NodeData>, create: string -> Option<GraphNode>)
    ensures var m := RestoredNodes(ds, create).idToName;
      forall id :: id in m ==> exists d :: d in ds && d.nodeId == id && create(d.nodeType).Some? && m[id] == RestoredName(d)
  {
    if ds != [] {
      var prefix := ds[..|ds| - 1];
      var d := ds[|ds| - 1];
      RestoredIdsSound(prefix, create);
      var prev := RestoredNodes(prefix, create);
      var m := RestoredNodes(ds, create).idToName;
      assert var m0 := RestoredNodes(prefix, create).idToName;
        forall id :: id in m0 ==> exists d :: d in prefix && d.nodeId == id && create(d.nodeType).Some? && m0[id] == RestoredName(d);
      if prev.fault.None? {
        RestoreNodeIds(prev, d, create);
      }
      assert m == if prev.fault.None? && create(d.nodeType).Some? then prev.idToName[d.nodeId := RestoredName(d)] else prev.idToName;
      forall id | id in m
        ensures exists x :: x in ds && x.nodeId == id && create(x.nodeType).Some? && m[id] == RestoredName(x)
      {
        if prev.fault.None? && create(d.nodeType).Some? && id == d.nodeId {
          assert d in ds;
        } else {
          var x :| x in prefix && x.nodeId == id && create(x.nodeType).Some? && prev.idToName[id] == RestoredName(x);
          assert x in ds;
        }
      }
    }
  }

  /** A snapshot node adds its id, under its type_id name, exactly when its type has a factory. */
  lemma RestoreNodeIds(p: RestoreProgress, d: NodeData, create: string -> Option<GraphNode>)
    ensures RestoreNode(p, d, create).idToName == if create(d.nodeType).Some? then p.idToName[d.nodeId := RestoredName(d)] else p.idToName
  {
  }

  /** Without an exception, every constructible snapshot node's id is mapped. */
  lemma {:induction false} RestoredIdsComplete(ds: seq<NodeData>, create: string -> Option<GraphNode>)
    requires RestoredNodes(ds, create).fault.None?
    ensures forall d :: d in ds && create(d.nodeType).Some? ==> d.nodeId in RestoredNodes(ds, create).idToName
  {
    if ds != [] {
      var prefix := ds[..|ds| - 1];
      RestoredIdsComplete(prefix, create);
      assert forall x :: x in ds ==> x in prefix || x == ds[|ds| - 1];
    }
  }

  /** Once a snapshot node has thrown, the rest of the snapshot is not looked at. */
  lemma {:induction false} RestoreFaultSticks(ds: seq<NodeData>, create: string -> Option<GraphNode>, j: nat)
    requires j <= |ds| && RestoredNodes(ds[..j], create).fault.Some?
    ensures RestoredNodes(ds, create) == RestoredNodes(ds[..j], create)
    decreases |ds| - j
  {
    if j < |ds| {
      assert ds[..j + 1][..j] == ds[..j];
      RestoreFaultSticks(ds, create, j + 1);
    } else {
      assert ds[..j] == ds;
    }
  }

  /** The connection the second loop of Restore makes from a snapshot connection, if both ends were created. */
  function RestoreConnection(c: ConnectionData, idToName: map<string, string>): Option<Connection> {
    if c.outputNodeId in idToName && c.inputNodeId in idToName
    then Some(Connection(idToName[c.outputNodeId], c.outputPort, idToName[c.inputNodeId], c.inputPort))
    else None
  }

  /** The second loop of Restore: dangling snapshot connections are dropped, the others renamed with ports kept. */
  function RestoredConnections(cs: seq<ConnectionData>, idToName: map<string, string>): (r: seq<Connection>)
    ensures |r| <= |cs|
  {
    if cs == [] then []
    else
      var rest := RestoredConnections(cs[..|cs| - 1], idToName);
      match RestoreConnection(cs[|cs| - 1], idToName)
      case None => rest
      case Some(c) => rest + [c]
  }

  /** A connection is restored exactly from a snapshot connection whose two ends were created; none is lost when all were. */
  lemma {:induction false} RestoredConnectionsMembers(cs: seq<ConnectionData>, idToName: map<string, string>)
    ensures forall c :: c in RestoredConnections(cs, idToName) <==> exists d :: d in cs && RestoreConnection(d, idToName) == Some(c)
    ensures (forall d :: d in cs ==> d.outputNodeId in idToName && d.inputNodeId in idToName) ==>
      |RestoredConnections(cs, idToName)| == |cs|
  {
    if cs != [] {
      var prefix := cs[..|cs| - 1];
      RestoredConnectionsMembers(prefix, idToName);
      assert forall d :: d in cs <==> d in prefix || d == cs[|cs| - 1];
    }
  }

  // --------------------------------------------------------------- exporting

  /** The snapshot record of one node. */
  function NodeDataOf(n: GraphNode): (r: NodeData)
    ensures r.nodeId == n.name && r.nodeType == NodeType(n.kind) && r.position == Some(n.position)
    ensures r.customData == CustomDataOf(n.kind)
  {
    NodeData(n.name, NodeType(n.kind), Some(n.position), CustomDataOf(n.kind))
  }

  /** The snapshot record of one connection. */
  function ConnectionDataOf(c: Connection): (r: ConnectionData)
    ensures RestoreConnection(r, map[c.fromNode := c.fromNode, c.toNode := c.toNode]) == Some(c)
  {
    ConnectionData(c.fromNode, c.fromPort, c.toNode, c.toPort)
  }

  /** The snapshot records of a node list, in order. */
  function ExportNodes(nodes: seq<GraphNode>): (r: seq<NodeData>)
    ensures |r| == |nodes| && forall i :: 0 <= i < |nodes| ==> r[i] == NodeDataOf(nodes[i])
  {
    if nodes == [] then [] else ExportNodes(nodes[..|nodes| - 1]) + [NodeDataOf(nodes[|nodes| - 1])]
  }

  /** The snapshot records of a connection list, in order. */
  function ExportConnections(conns: seq<Connection>): (r: seq<ConnectionData>)
    ensures |r| == |conns| && forall i :: 0 <= i < |conns| ==> r[i] == ConnectionDataOf(conns[i])
  {
    if conns == [] then [] else ExportConnections(conns[..|conns| - 1]) + [ConnectionDataOf(conns[|conns| - 1])]
  }

  /** GetGraphData: one record per node and per connection, in order. */
  function GetGraphData(nodes: seq<GraphNode>, conns: seq<Connection>): (r: GraphData)
    ensures r.nodes == ExportNodes(nodes) && r.connections == ExportConnections(conns)
  {
    GraphData(ExportNodes(nodes), ExportConnections(conns))
  }

  /** Restoring exported connections under an id map that keeps every endpoint's name gives back the connections. */
  lemma {:induction false} ExportedConnectionsRestore(conns: seq<Connection>, idToName: map<string, string>)
    requires forall c :: c in conns ==> c.fromNode in idToName && idToName[c.fromNode] == c.fromNode &&
                                        c.toNode in idToName && idToName[c.toNode] == c.toNode
    ensures RestoredConnections(ExportConnections(conns), idToName) == conns
  {
    if conns != [] {
      var prefix := conns[..|conns| - 1];
      var last := conns[|conns| - 1];
      assert conns == prefix + [last];
      assert last in conns;
      ExportedConnectionsRestore(prefix, idToName);
      var exported := ExportConnections(conns);
      assert exported == ExportConnections(prefix) + [ConnectionDataOf(last)];
      assert exported[..|exported| - 1] == ExportConnections(prefix);
      assert RestoreConnection(exported[|exported| - 1], idToName) == Some(last);
    }
  }

  /** Re-exporting a restored graph reports each restored node under its new type_id name, not its snapshot id. */
  lemma RestoredNodesExportRenamed(ds: seq<NodeData>, create: string -> Option<GraphNode>, conns: seq<Connection>)
    requires RestoredNodes(ds, create).fault.None?
    ensures var exported := GetGraphData(RestoredNodes(ds, create).nodes, conns);
      |exported.nodes| == |ExpectedNames(ds, create)| &&
      forall i :: 0 <= i < |exported.nodes| ==> exported.nodes[i].nodeId == ExpectedNames(ds, create)[i]
  {
    RestoredNodesAsExpected(ds, create);
  }

  // ------------------------------------------------------------------ lists

  /** `s` without any occurrence of `x`, order kept (HashSet.Remove on an insertion-ordered set). */
  function Without(s: seq<string>, x: string): (r: seq<string>)
    ensures forall y :: y in r <==> y in s && y != x
    ensures |r| <= |s|
  {
    if s == [] then [] else (if s[0] == x then [] else [s[0]]) + Without(s[1..], x)
  }

  /** `s` without the names in `names`, order kept. */
  function WithoutAll(s: seq<string>, names: seq<string>): (r: seq<string>)
    ensures forall y :: y in r <==> y in s && y !in names
  {
    if s == [] then [] else WithoutAll(s[..|s| - 1], names) + (if s[|s| - 1] in names then [] else [s[|s| - 1]])
  }

  /** The nodes whose names are not in `names`, order kept (_nodes.RemoveAll). */
  function NodesNotNamed(nodes: seq<GraphNode>, names: seq<string>): (r: seq<GraphNode>)
    ensures |r| <= |nodes|
    ensures forall i :: 0 <= i < |r| ==> r[i].name !in names
    ensures forall n :: n in r <==> n in nodes && n.name !in names
  {
    if nodes == [] then []
    else
      var prefix := nodes[..|nodes| - 1];
      var rest := NodesNotNamed(prefix, names);
      var last := nodes[|nodes| - 1];
      assert forall n :: n in nodes <==> n in prefix || n == last by {
        assert nodes == prefix + [last];
      }
      if last.name in names then rest else rest + [last]
  }

  /** Deleting from the node list and from the selection filters by the same names. */
  lemma {:induction false} NodesNotNamedNames(nodes: seq<GraphNode>, names: seq<string>)
    ensures Names(NodesNotNamed(nodes, names)) == WithoutAll(Names(nodes), names)
  {
    if nodes != [] {
      var prefix := nodes[..|nodes| - 1];
      var last := nodes[|nodes| - 1];
      NodesNotNamedNames(prefix, names);
      var n := Names(nodes);
      assert n == Names(prefix) + [last.name];
      assert n[..|n| - 1] == Names(prefix);
      assert WithoutAll(n, names) == WithoutAll(Names(prefix), names) + (if last.name in names then [] else [last.name]);
      if last.name !in names {
        NamesAppend(NodesNotNamed(prefix, names), last);
      }
    }
  }

  /** The selection is a HashSet: no name twice. */
  predicate NoDuplicates(s: seq<string>) {
    forall i, j :: 0 <= i < j < |s| ==> s[i] != s[j]
  }

  /** Deselecting keeps the selection a set. */
  lemma {:induction false} WithoutKeepsNoDuplicates(s: seq<string>, x: string)
    requires NoDuplicates(s)
    ensures NoDuplicates(Without(s, x))
  {
    if s != [] {
      WithoutKeepsNoDuplicates(s[1..], x);
      var rest := Without(s[1..], x);
      assert s[0] !in s[1..];
      assert s[0] !in rest;
    }
  }

  /** Deleting keeps the selection a set. */
  lemma {:induction false} WithoutAllKeepsNoDuplicates(s: seq<string>, names: seq<string>)
    requires NoDuplicates(s)
    ensures NoDuplicates(WithoutAll(s, names))
  {
    if s != [] {
      var prefix := s[..|s| - 1];
      assert NoDuplicates(prefix);
      WithoutAllKeepsNoDuplicates(prefix, names);
      assert s[|s| - 1] !in prefix;
    }
  }

  /** LastOrDefault: the last element, or null for none. */
  function LastOrNone(s: seq<string>): (r: Option<string>)
    ensures r.None? <==> s == []
    ensures r.Some? ==> r.value in s
  {
    if s == [] then None else Some(s[|s| - 1])
  }

  // -------------------------------------------------------------- the editor

  class GraphEditor {
    /** The engine's connection list. */
    var connections: seq<Connection>
    /** _nodes. */
    var nodes: seq<GraphNode>
    /** _selectedNodes, by name, in insertion order. */
    var selected: seq<string>
    /** _lastSelectedNode, by name. */
    var lastSelected: Option<string>
    /** The pending drag to empty space: the node it started from, its port, and whether it came from an input. */
    var pendingNodeName: Option<string>
    var pendingPort: int
    var pendingIsFrom: bool

    /** The selection is a set, and the last selected node is one of it. */
    ghost predicate SelectionValid()
      reads this
    {
      NoDuplicates(selected) && (lastSelected.Some? ==> lastSelected.value in selected)
    }

    constructor ()
      ensures connections == [] && nodes == [] && selected == [] && lastSelected.None?
      ensures pendingNodeName.None? && pendingPort == 0 && !pendingIsFrom
      ensures SelectionValid()
    {
      connections, nodes, selected, lastSelected := [], [], [], None;
      pendingNodeName, pendingPort, pendingIsFrom := None, 0, false;
    }

    method EnsureOutputCapacity(outputNodeName: string, outputPort: int, maxConnections: int) returns (fault: Option<Exception>)
      modifies this
      ensures var r := EnsureCapacity(old(connections), OutputEnd(outputNodeName, outputPort), maxConnections);
        if r.Ok? then connections == r.value && fault.None? else connections == old(connections) && fault == Some(r.error)
      ensures nodes == old(nodes) && selected == old(selected) && lastSelected == old(lastSelected)
      ensures pendingNodeName == old(pendingNodeName) && pendingPort == old(pendingPort) && pendingIsFrom == old(pendingIsFrom)
    {
      var matching := Matching(connections, OutputEnd(outputNodeName, outputPort));
      fault := None;
      if |matching| >= maxConnections {
        if |matching| == 0 {
          return Some(InvalidOperation);
        }
        var last := matching[|matching| - 1];
        connections := RemoveFirst(connections, last);
      }
    }

    method EnsureInputCapacity(inputNodeName: string, inputPort: int, maxConnections: int) returns (fault: Option<Exception>)
      modifies this
      ensures var r := EnsureCapacity(old(connections), InputEnd(inputNodeName, inputPort), maxConnections);
        if r.Ok? then connections == r.value && fault.None? else connections == old(connections) && fault == Some(r.error)
      ensures nodes == old(nodes) && selected == old(selected) && lastSelected == old(lastSelected)
      ensures pendingNodeName == old(pendingNodeName) && pendingPort == old(pendingPort) && pendingIsFrom == old(pendingIsFrom)
    {
      var matching := Matching(connections, InputEnd(inputNodeName, inputPort));
      fault := None;
      if |matching| >= maxConnections {
        if |matching| == 0 {
          return Some(InvalidOperation);
        }
        var last := matching[|matching| - 1];
        connections := RemoveFirst(connections, last);
      }
    }

    method OnConnectionDragStarted(nodeName: string, port: int, isOutput: bool) returns (fault: Option<Exception>)
      modifies this
      ensures var r := DragStarted(old(connections), nodes, nodeName, port, isOutput);
        if r.Ok? then connections == r.value && fault.None? else connections == old(connections) && fault == Some(r.error)
      ensures nodes == old(nodes) && selected == old(selected) && lastSelected == old(lastSelected)
      ensures pendingNodeName == old(pendingNodeName) && pendingPort == old(pendingPort) && pendingIsFrom == old(pendingIsFrom)
    {
      fault := None;
      var node := FindNode(nodes, nodeName);
      if node.None? {
        return;
      }
      if isOutput {
        var max := GetMaxOutputConnections(node.value.kind, port);
        if max >= 0 {
          fault := EnsureOutputCapacity(nodeName, port, max);
        }
      } else {
        var max := GetMaxInputConnections(node.value.kind, port);
        if max >= 0 {
          fault := EnsureInputCapacity(nodeName, port, max);
        }
      }
    }

    method OnDisconnectionRequest(outputNodeName: string, outputPort: int, inputNodeName: string, inputPort: int)
      modifies this
      ensures connections == RemoveFirst(old(connections), Connection(outputNodeName, outputPort, inputNodeName, inputPort))
      ensures nodes == old(nodes) && selected == old(selected) && lastSelected == old(lastSelected)
      ensures pendingNodeName == old(pendingNodeName) && pendingPort == old(pendingPort) && pendingIsFrom == old(pendingIsFrom)
    {
      connections := RemoveFirst(connections, Connection(outputNodeName, outputPort, inputNodeName, inputPort));
    }

    method OnConnectionRequest(outputNodeName: string, outputPort: int, inputNodeName: string, inputPort: int)
      returns (fault: Option<Exception>)
      modifies this
      ensures Effect(connections, fault) ==
        ConnectionRequest(old(connections), nodes, outputNodeName, outputPort, inputNodeName, inputPort)
      ensures nodes == old(nodes) && selected == old(selected) && lastSelected == old(lastSelected)
      ensures pendingNodeName == old(pendingNodeName) && pendingPort == old(pendingPort) && pendingIsFrom == old(pendingIsFrom)
    {
      var outputNode := FindNode(nodes, outputNodeName);
      var inputNode := FindNode(nodes, inputNodeName);
      if outputNode.None? {
        return Some(NullReference);
      }
      var acceptOutput := CanConnectWhenIsOutput(outputNode.value, inputNode, inputPort);
      if !acceptOutput.ok || acceptOutput.port != outputPort {
        return None;
      }
      var acceptInput := CanConnectWhenIsInput(inputNode.value, outputNode, outputPort);
      if !acceptInput.ok || acceptInput.port != inputPort {
        return None;
      }
      var outputMax := GetMaxOutputConnections(outputNode.value.kind, outputPort);
      var inputMax := GetMaxInputConnections(inputNode.value.kind, inputPort);
      fault := EnforceCapacityAndConnect(Connection(outputNodeName, outputPort, inputNodeName, inputPort), outputMax, inputMax);
    }

    /** The end of OnConnectionRequest: both capacities are enforced, then the connection is made. */
    method EnforceCapacityAndConnect(c: Connection, outputMax: int, inputMax: int) returns (fault: Option<Exception>)
      modifies this
      ensures Effect(connections, fault) == EnforceAndConnect(old(connections), c, outputMax, inputMax)
      ensures nodes == old(nodes) && selected == old(selected) && lastSelected == old(lastSelected)
      ensures pendingNodeName == old(pendingNodeName) && pendingPort == old(pendingPort) && pendingIsFrom == old(pendingIsFrom)
    {
      if outputMax >= 0 {
        fault := EnsureOutputCapacity(c.fromNode, c.fromPort, outputMax);
        if fault.Some? {
          return;
        }
      }
      if inputMax >= 0 {
        fault := EnsureInputCapacity(c.toNode, c.toPort, inputMax);
        if fault.Some? {
          return;
        }
      }
      connections := connections + [c];
      fault := None;
    }

    method OnNodeSelected(nodeName: string)
      requires NoDuplicates(selected)
      modifies this
      ensures SelectionValid()
      ensures lastSelected == Some(nodeName)
      ensures selected == if nodeName in old(selected) then old(selected) else old(selected) + [nodeName]
      ensures connections == old(connections) && nodes == old(nodes)
      ensures pendingNodeName == old(pendingNodeName) && pendingPort == old(pendingPort) && pendingIsFrom == old(pendingIsFrom)
    {
      lastSelected := Some(nodeName);
      if nodeName !in selected {
        selected := selected + [nodeName];
      }
    }

    method OnNodeDeselected(nodeName: string)
      requires NoDuplicates(selected)
      modifies this
      ensures SelectionValid()
      ensures selected == Without(old(selected), nodeName)
      ensures lastSelected == LastOrNone(selected)
      ensures connections == old(connections) && nodes == old(nodes)
      ensures pendingNodeName == old(pendingNodeName) && pendingPort == old(pendingPort) && pendingIsFrom == old(pendingIsFrom)
    {
      WithoutKeepsNoDuplicates(selected, nodeName);
      selected := Without(selected, nodeName);
      lastSelected := LastOrNone(selected);
    }

    method OnDeleteNodesRequest(nodeNames: seq<string>)
      requires NoDuplicates(selected)
      modifies this
      ensures SelectionValid()
      ensures selected == WithoutAll(old(selected), nodeNames)
      ensures nodes == NodesNotNamed(old(nodes), nodeNames)
      ensures lastSelected.None?
      ensures connections == old(connections)
      ensures pendingNodeName == old(pendingNodeName) && pendingPort == old(pendingPort) && pendingIsFrom == old(pendingIsFrom)
    {
      var kept := WithoutAll(selected, nodeNames);
      WithoutAllKeepsNoDuplicates(selected, nodeNames);
      assert NoDuplicates(kept);
      selected, nodes, lastSelected := kept, NodesNotNamed(nodes, nodeNames), None;
    }

    /** Records the pending drag from an input port and returns the names the node menu offers; a missing node throws. */
    method OnConnectionFromEmpty(inputNodeName: string, inputPort: int) returns (menu: Outcome<NameFilter>)
      modifies this
      ensures pendingIsFrom && pendingNodeName == Some(inputNodeName) && pendingPort == inputPort
      ensures menu == match FindNode(nodes, inputNodeName)
        case None => Throws(NullReference)
        case Some(n) => Ok(GetValidFromNodeNamesForPort(n, inputPort))
      ensures connections == old(connections) && nodes == old(nodes) && selected == old(selected) && lastSelected == old(lastSelected)
    {
      pendingIsFrom := true;
      pendingNodeName := Some(inputNodeName);
      pendingPort := inputPort;
      var inputNode := FindNode(nodes, inputNodeName);
      if inputNode.None? {
        return Throws(NullReference);
      }
      menu := Ok(GetValidFromNodeNamesForPort(inputNode.value, inputPort));
    }

    /** Records the pending drag from an output port and returns the names the node menu offers; a missing node throws. */
    method OnConnectionToEmpty(outputNodeName: string, outputPort: int) returns (menu: Outcome<NameFilter>)
      modifies this
      ensures !pendingIsFrom && pendingNodeName == Some(outputNodeName) && pendingPort == outputPort
      ensures menu == match FindNode(nodes, outputNodeName)
        case None => Throws(NullReference)
        case Some(n) => Ok(GetValidToNodeNamesForPort(n, outputPort))
      ensures connections == old(connections) && nodes == old(nodes) && selected == old(selected) && lastSelected == old(lastSelected)
    {
      pendingIsFrom := false;
      pendingNodeName := Some(outputNodeName);
      pendingPort := outputPort;
      var outputNode := FindNode(nodes, outputNodeName);
      if outputNode.None? {
        return Throws(NullReference);
      }
      menu := Ok(GetValidToNodeNamesForPort(outputNode.value, outputPort));
    }

    /**
     * OnNodeSelected(string): a node chosen from the menu is created through
     * `create` (the registry); nothing happens when that yields null.
     * Otherwise the node is added and, if a drag to empty space is pending
     * and its node exists, a connection between the two is requested; the
     * request's own exception stays inside the signal handler. The pending
     * state is reset in every case.
     */
    method OnNodeSelectedFromMenu(nodeName: string, create: string -> Option<GraphNode>)
      modifies this
      ensures create(nodeName).None? ==>
        connections == old(connections) && nodes == old(nodes) &&
        pendingNodeName == old(pendingNodeName) && pendingPort == old(pendingPort) && pendingIsFrom == old(pendingIsFrom)
      ensures create(nodeName).Some? ==>
        && nodes == old(nodes) + [create(nodeName).value]
        && pendingNodeName.None? && pendingPort == 0 && !pendingIsFrom
        && connections == AutoConnect(old(connections), nodes, create(nodeName).value,
                                      old(pendingNodeName), old(pendingPort), old(pendingIsFrom))
      ensures selected == old(selected) && lastSelected == old(lastSelected)
    {
      var node := create(nodeName);
      if node.None? {
        return;
      }
      nodes := nodes + [node.value];
      if pendingNodeName.Some? {
        var pendingNode := FindNode(nodes, pendingNodeName.value);
        if pendingNode.Some? {
          if pendingIsFrom {
            var answer := CanConnectWhenIsOutput(node.value, pendingNode, pendingPort);
            if answer.ok {
              var ignored := OnConnectionRequest(node.value.name, answer.port, pendingNode.value.name, pendingPort);
            }
          } else {
            var answer := CanConnectWhenIsInput(node.value, pendingNode, pendingPort);
            if answer.ok {
              var ignored := OnConnectionRequest(pendingNode.value.name, pendingPort, node.value.name, answer.port);
            }
          }
        }
      }
      pendingIsFrom := false;
      pendingNodeName := None;
      pendingPort := 0;
    }

    /** One listener call for one end of a connection of `source` (the body of the loop below, once per end). */
    method NotifyEnd(target: string, isOutput: bool, port: int, source: GraphNode, meta: CustomData) returns (fault: Option<Exception>)
      modifies this
      ensures Effect(nodes, fault) == DeliverAll(old(nodes), source, meta, Eligible(target, isOutput, port, old(nodes), source.name))
      ensures connections == old(connections) && selected == old(selected) && lastSelected == old(lastSelected)
      ensures pendingNodeName == old(pendingNodeName) && pendingPort == old(pendingPort) && pendingIsFrom == old(pendingIsFrom)
    {
      fault := None;
      if target != "" && target != source.name {
        var j := FindIndex(nodes, target);
        if j.Some? && IsMetadataListener(nodes[j.value].kind) {
          ghost var call := [Notification(target, isOutput, port)];
          assert call[..0] == [];
          var r := MetadataEffect(nodes[j.value].kind, source.kind, meta, isOutput, port);
          if r.Throws? {
            return Some(r.error);
          }
          nodes := nodes[j.value := nodes[j.value].(kind := r.value)];
        }
      }
    }

    /** The calls for one connection of `source`: its output end, then its input end. */
    method NotifyConnectionEnds(c: Connection, source: GraphNode, meta: CustomData) returns (fault: Option<Exception>)
      modifies this
      ensures Effect(nodes, fault) == DeliverAll(old(nodes), source, meta, NotesOf(c, old(nodes), source.name))
      ensures connections == old(connections) && selected == old(selected) && lastSelected == old(lastSelected)
      ensures pendingNodeName == old(pendingNodeName) && pendingPort == old(pendingPort) && pendingIsFrom == old(pendingIsFrom)
    {
      ghost var fromOutput := Eligible(c.fromNode, false, c.toPort, nodes, source.name);
      ghost var fromInput := Eligible(c.toNode, true, c.fromPort, nodes, source.name);
      DeliverAllAppend(nodes, source, meta, fromOutput, fromInput);
      fault := NotifyEnd(c.fromNode, false, c.toPort, source, meta);
      if fault.Some? {
        return;
      }
      SameShapeEligible(c.toNode, true, c.fromPort, old(nodes), nodes, source.name);
      fault := NotifyEnd(c.toNode, true, c.fromPort, source, meta);
    }

    /**
     * OnNodeMetadataChanged: for each connection of the changed node, the
     * listening node at its output end and then the one at its input end are
     * told, in connection order; an exception from a listener stops the rest.
     */
    method OnNodeMetadataChanged(source: GraphNode, meta: CustomData) returns (fault: Option<Exception>)
      modifies this
      ensures Effect(nodes, fault) == DeliverAll(old(nodes), source, meta, Routing(connections, old(nodes), source.name))
      ensures connections == old(connections) && selected == old(selected) && lastSelected == old(lastSelected)
      ensures pendingNodeName == old(pendingNodeName) && pendingPort == old(pendingPort) && pendingIsFrom == old(pendingIsFrom)
    {
      fault := None;
      if !IsNodeHasConnection(connections, source.name) {
        return;
      }
      fault := NotifyConnections(ConnectionsOf(connections, source.name), source, meta);
    }

    /** The loop of OnNodeMetadataChanged over the connections touching the changed node. */
    method NotifyConnections(touching: seq<Connection>, source: GraphNode, meta: CustomData) returns (fault: Option<Exception>)
      modifies this
      ensures Effect(nodes, fault) == DeliverAll(old(nodes), source, meta, Notifications(touching, old(nodes), source.name))
      ensures connections == old(connections) && selected == old(selected) && lastSelected == old(lastSelected)
      ensures pendingNodeName == old(pendingNodeName) && pendingPort == old(pendingPort) && pendingIsFrom == old(pendingIsFrom)
    {
      fault := None;
      ghost var nodes0 := nodes;
      for i := 0 to |touching|
        invariant SameShape(nodes0, nodes) && fault == None
        invariant Effect(nodes, None) == DeliverAll(nodes0, source, meta, Notifications(touching[..i], nodes0, source.name))
        invariant connections == old(connections) && selected == old(selected) && lastSelected == old(lastSelected)
        invariant pendingNodeName == old(pendingNodeName) && pendingPort == old(pendingPort) && pendingIsFrom == old(pendingIsFrom)
      {
        RoutingStep(nodes0, nodes, source, meta, touching, i);
        fault := NotifyConnectionEnds(touching[i], source, meta);
        if fault.Some? {
          NotificationsSuffix(touching, nodes0, source, meta, i + 1);
          return;
        }
      }
      assert touching[..|touching|] == touching;
    }

    /**
     * Restore: the node list and the selection are emptied; each snapshot
     * node whose type has a factory is created, renamed type_id, placed at
     * its position or marked for arrangement, and given its custom data;
     * then each snapshot connection whose two ends were created is made.
     * An exception from a node's custom data setter ends Restore there.
     * The marked names are returned (the source selects those nodes).
     */
    method Restore(data: GraphData, create: string -> Option<GraphNode>) returns (fault: Option<Exception>, marked: seq<string>)
      modifies this
      ensures var p := RestoredNodes(data.nodes, create);
        && nodes == p.nodes && marked == p.marked && fault == p.fault
        && connections == (if p.fault.Some? then old(connections) else old(connections) + RestoredConnections(data.connections, p.idToName))
      ensures selected == [] && NoDuplicates(selected) && lastSelected == old(lastSelected)
      ensures pendingNodeName == old(pendingNodeName) && pendingPort == old(pendingPort) && pendingIsFrom == old(pendingIsFrom)
    {
      nodes, selected := [], [];
      var idToName;
      fault, marked, idToName := CreateNodes(data.nodes, create);
      if fault.None? {
        ConnectRestored(data.connections, idToName);
      }
    }

    /** The first loop of Restore, appending the created nodes to the (emptied) node list. */
    method CreateNodes(ds: seq<NodeData>, create: string -> Option<GraphNode>)
      returns (fault: Option<Exception>, marked: seq<string>, idToName: map<string, string>)
      requires nodes == []
      modifies this
      ensures RestoredNodes(ds, create) == RestoreProgress(nodes, idToName, marked, fault)
      ensures connections == old(connections) && selected == old(selected) && lastSelected == old(lastSelected)
      ensures pendingNodeName == old(pendingNodeName) && pendingPort == old(pendingPort) && pendingIsFrom == old(pendingIsFrom)
    {
      idToName, marked, fault := map[], [], None;
      for i := 0 to |ds|
        invariant RestoredNodes(ds[..i], create) == RestoreProgress(nodes, idToName, marked, None)
        invariant connections == old(connections) && selected == old(selected) && lastSelected == old(lastSelected)
        invariant pendingNodeName == old(pendingNodeName) && pendingPort == old(pendingPort) && pendingIsFrom == old(pendingIsFrom)
      {
        var d := ds[i];
        assert ds[..i + 1][..i] == ds[..i];
        var made := create(d.nodeType);
        if made.None? {
          continue;
        }
        var name := RestoredName(d);
        idToName := idToName[d.nodeId := name];
        var placed := made.value.(name := name);
        if d.position.Some? {
          placed := placed.(position := d.position.value);
        } else {
          marked := marked + [name];
        }
        var written := AssignCustomData(placed.kind, d.customData);
        if written.fault.Some? {
          fault := written.fault;
          RestoreFaultSticks(ds, create, i + 1);
          return;
        }
        nodes := nodes + [placed.(kind := written.kind)];
      }
      assert ds[..|ds|] == ds;
    }

    /** The second loop of Restore, making each snapshot connection whose ends were both created. */
    method ConnectRestored(cs: seq<ConnectionData>, idToName: map<string, string>)
      modifies this
      ensures connections == old(connections) + RestoredConnections(cs, idToName)
      ensures nodes == old(nodes) && selected == old(selected) && lastSelected == old(lastSelected)
      ensures pendingNodeName == old(pendingNodeName) && pendingPort == old(pendingPort) && pendingIsFrom == old(pendingIsFrom)
    {
      for j := 0 to |cs|
        invariant connections == old(connections) + RestoredConnections(cs[..j], idToName)
        invariant nodes == old(nodes) && selected == old(selected) && lastSelected == old(lastSelected)
        invariant pendingNodeName == old(pendingNodeName) && pendingPort == old(pendingPort) && pendingIsFrom == old(pendingIsFrom)
      {
        var c := cs[j];
        assert cs[..j + 1][..j] == cs[..j];
        assert RestoredConnections(cs[..j + 1], idToName) ==
          RestoredConnections(cs[..j], idToName) + (if RestoreConnection(c, idToName).Some? then [RestoreConnection(c, idToName).value] else []);
        if c.outputNodeId in idToName && c.inputNodeId in idToName {
          connections := connections + [Connection(idToName[c.outputNodeId], c.outputPort, idToName[c.inputNodeId], c.inputPort)];
        }
      }
      assert cs[..|cs|] == cs;
    }
  }

  /** The calls for connection i continue from where the calls for the earlier connections left the nodes. */
  lemma RoutingStep(nodes0: seq<GraphNode>, nodes: seq<GraphNode>, source: GraphNode, meta: CustomData, touching: seq<Connection>, i: nat)
    requires i < |touching| && SameShape(nodes0, nodes)
    requires Effect(nodes, None) == DeliverAll(nodes0, source, meta, Notifications(touching[..i], nodes0, source.name))
    ensures DeliverAll(nodes0, source, meta, Notifications(touching[..i + 1], nodes0, source.name)) ==
            DeliverAll(nodes, source, meta, NotesOf(touching[i], nodes, source.name))
  {
    var done := Notifications(touching[..i], nodes0, source.name);
    assert touching[..i + 1][..i] == touching[..i];
    assert Notifications(touching[..i + 1], nodes0, source.name) == done + NotesOf(touching[i], nodes0, source.name);
    SameShapeNotes(touching[i], nodes0, nodes, source.name);
    DeliverAllAppend(nodes0, source, meta, done, NotesOf(touching[i], nodes0, source.name));
  }

  /** After a listener threw while handling the connections touching[..i], the remaining connections change nothing. */
  lemma NotificationsSuffix(touching: seq<Connection>, nodes0: seq<GraphNode>, source: GraphNode, meta: CustomData, i: nat)
    requires i <= |touching|
    requires DeliverAll(nodes0, source, meta, Notifications(touching[..i], nodes0, source.name)).fault.Some?
    ensures DeliverAll(nodes0, source, meta, Notifications(touching, nodes0, source.name)) ==
            DeliverAll(nodes0, source, meta, Notifications(touching[..i], nodes0, source.name))
    decreases |touching| - i
  {
    if i < |touching| {
      assert touching[..i + 1][..i] == touching[..i];
      DeliverAllAppend(nodes0, source, meta, Notifications(touching[..i], nodes0, source.name), NotesOf(touching[i], nodes0, source.name));
      NotificationsSuffix(touching, nodes0, source, meta, i + 1);
    } else {
      assert touching[..i] == touching;
    }
  }

  /** The connection list after a node created from the menu is connected to the pending node, if it can be. */
  function AutoConnect(conns: seq<Connection>, nodes: seq<GraphNode>, created: GraphNode,
                       pendingNodeName: Option<string>, pendingPort: int, pendingIsFrom: bool): (r: seq<Connection>)
    ensures pendingNodeName.None? || FindNode(nodes, pendingNodeName.value).None? ==> r == conns
    ensures r != conns ==>
      && pendingNodeName.Some? && FindNode(nodes, pendingNodeName.value).Some?
      && var pending := FindNode(nodes, pendingNodeName.value);
      && |r| > 0 && multiset(r[..|r| - 1]) <= multiset(conns)
      && if pendingIsFrom then
           var answer := CanConnectWhenIsOutput(created, pending, pendingPort);
           answer.ok && r[|r| - 1] == Connection(created.name, answer.port, pendingNodeName.value, pendingPort)
         else
           var answer := CanConnectWhenIsInput(created, pending, pendingPort);
           answer.ok && r[|r| - 1] == Connection(pendingNodeName.value, pendingPort, created.name, answer.port)
    ensures |conns| - 2 <= |r| <= |conns| + 1
    ensures pendingNodeName.Some? && FindNode(nodes, pendingNodeName.value).Some? ==>
      var pending := FindNode(nodes, pendingNodeName.value);
      if pendingIsFrom then
        var answer := CanConnectWhenIsOutput(created, pending, pendingPort);
        r == if answer.ok then ConnectionRequest(conns, nodes, created.name, answer.port, pendingNodeName.value, pendingPort).state else conns
      else
        var answer := CanConnectWhenIsInput(created, pending, pendingPort);
        r == if answer.ok then ConnectionRequest(conns, nodes, pendingNodeName.value, pendingPort, created.name, answer.port).state else conns
  {
    if pendingNodeName.None? then conns
    else match FindNode(nodes, pendingNodeName.value)
      case None => conns
      case Some(pendingNode) =>
        if pendingIsFrom then
          var answer := CanConnectWhenIsOutput(created, Some(pendingNode), pendingPort);
          if answer.ok then
            SampleRequestsFailOnlyOnMissingOutput(conns, nodes, created.name, answer.port, pendingNode.name, pendingPort);
            ConnectionRequest(conns, nodes, created.name, answer.port, pendingNode.name, pendingPort).state
          else conns
        else
          var answer := CanConnectWhenIsInput(created, Some(pendingNode), pendingPort);
          if answer.ok then
            SampleRequestsFailOnlyOnMissingOutput(conns, nodes, pendingNode.name, pendingPort, created.name, answer.port);
            ConnectionRequest(conns, nodes, pendingNode.name, pendingPort, created.name, answer.port).state
          else conns
  }
  /** An answer that the request check accepts is connected: the list then ends with the new connection. */
  lemma AutoConnectConnects(conns: seq<Connection>, nodes: seq<GraphNode>, created: GraphNode,
                            pendingNodeName: Option<string>, pendingPort: int, pendingIsFrom: bool)
    requires pendingNodeName.Some? && FindNode(nodes, pendingNodeName.value).Some?
    ensures var r := AutoConnect(conns, nodes, created, pendingNodeName, pendingPort, pendingIsFrom);
      var pending := FindNode(nodes, pendingNodeName.value);
      if pendingIsFrom then
        var answer := CanConnectWhenIsOutput(created, pending, pendingPort);
        answer.ok && Accepts(nodes, created.name, answer.port, pendingNodeName.value, pendingPort) == Ok(true) ==>
          |r| > 0 && r[|r| - 1] == Connection(created.name, answer.port, pendingNodeName.value, pendingPort)
      else
        var answer := CanConnectWhenIsInput(created, pending, pendingPort);
        answer.ok && Accepts(nodes, pendingNodeName.value, pendingPort, created.name, answer.port) == Ok(true) ==>
          |r| > 0 && r[|r| - 1] == Connection(pendingNodeName.value, pendingPort, created.name, answer.port)
  {
    var pending := FindNode(nodes, pendingNodeName.value);
    if pendingIsFrom {
      var answer := CanConnectWhenIsOutput(created, pending, pendingPort);
      SampleRequestsFailOnlyOnMissingOutput(conns, nodes, created.name, answer.port, pendingNodeName.value, pendingPort);
    } else {
      var answer := CanConnectWhenIsInput(created, pending, pendingPort);
      SampleRequestsFailOnlyOnMissingOutput(conns, nodes, pendingNodeName.value, pendingPort, created.name, answer.port);
    }
  }

}
