/**
 * The node-type registry (GraphNodeFactory.cs): a type catalog, constructor
 * factories by node name and serializers by node name, each of which may be
 * unset (null). Reflection over the assembly is replaced by an explicit list
 * of the assembly's types; a factory is the class it constructs.
 */
module NodeRegistry {
  import opened Wrappers
  import opened NodeSerializers

  /** A node class of the catalog: its static NodeName (if it has one) and whether a Create method is found. */
  datatype NodeTypeInfo = NodeTypeInfo(className: string, nodeName: Option<string>, hasCreate: bool)

  /** A class of the scanned assembly, as far as the scan looks at it. */
  datatype AssemblyType =
    | GraphNodeClass(isAbstract: bool, implementsFactory: bool, info: NodeTypeInfo)
    | SerializerClass(isAbstract: bool, instance: SerializerImpl)  // instance: what Activator.CreateInstance yields
    | NullSerializerClass

  /** A registered constructor delegate; invoking it yields a fresh node of that class. */
  datatype Factory = Factory(className: string)

  /** A node produced by a factory. */
  datatype NodeInstance = NodeInstance(className: string)

  /** The three static fields; None is null. */
  datatype RegistryState = RegistryState(
    allNodeTypes: Option<seq<NodeTypeInfo>>,
    factories: Option<map<string, Factory>>,
    nodeSerializers: Option<map<string, NodeSerializer>>)

  /** The outcome of a mutating registry operation: false when it threw, and the state it left. */
  datatype Step = Step(ok: bool, state: RegistryState)

  // ---------------------------------------------------------------- scanning

  /** The assembly's non-abstract GraphNode classes implementing IGraphNodeFactory<T>, in assembly order. */
  function CatalogNodeTypes(assembly: seq<AssemblyType>): (r: seq<NodeTypeInfo>)
    ensures forall t :: t in r <==>
      exists i :: 0 <= i < |assembly| && assembly[i].GraphNodeClass? &&
                  !assembly[i].isAbstract && assembly[i].implementsFactory && assembly[i].info == t
  {
    if assembly == [] then []
    else
      var rest := CatalogNodeTypes(assembly[1..]);
      assert forall i :: 1 <= i < |assembly| ==> assembly[1..][i - 1] == assembly[i];
      var a := assembly[0];
      if a.GraphNodeClass? && !a.isAbstract && a.implementsFactory then [a.info] + rest else rest
  }

  /** One instance of every non-abstract serializer class other than NullNodeSerializer, in assembly order. */
  function CatalogSerializers(assembly: seq<AssemblyType>): (r: seq<NodeSerializer>)
    ensures forall s :: s in r ==> s.Custom?
  {
    if assembly == [] then []
    else
      var rest := CatalogSerializers(assembly[1..]);
      var a := assembly[0];
      if a.SerializerClass? && !a.isAbstract then [Custom(a.instance)] + rest else rest
  }

  /**
   * ScanNodeTypes: nothing to do when both catalog and serializers are set
   * and no refresh is forced; otherwise the catalog is replaced, then the
   * serializer map; keying the serializers throws on a repeated NodeType,
   * after the catalog was already replaced.
   */
  function Scan(s: RegistryState, assembly: seq<AssemblyType>, forceRefresh: bool): (r: Step)
    ensures r.state.factories == s.factories
  {
    if s.allNodeTypes.Some? && s.nodeSerializers.Some? && !forceRefresh then Step(true, s)
    else
      var types := CatalogNodeTypes(assembly);
      match KeyedByNodeType(CatalogSerializers(assembly))
      case Ok(m) => Step(true, s.(allNodeTypes := Some(types), nodeSerializers := Some(m)))
      case Throws(_) => Step(false, s.(allNodeTypes := Some(types)))
  }

  /** A performed scan replaces the serializer map wholesale; it never holds a NullNodeSerializer. */
  lemma ScanReplacesSerializers(s: RegistryState, assembly: seq<AssemblyType>, forceRefresh: bool)
    requires !(s.allNodeTypes.Some? && s.nodeSerializers.Some? && !forceRefresh)
    ensures var r := Scan(s, assembly, forceRefresh);
      && r.state.allNodeTypes == Some(CatalogNodeTypes(assembly))
      && (r.ok ==> r.state.nodeSerializers.Some?)
      && (r.ok ==> forall k :: k in r.state.nodeSerializers.value ==>
            r.state.nodeSerializers.value[k].Custom? && NodeType(r.state.nodeSerializers.value[k]) == k)
      && (!r.ok ==> r.state.nodeSerializers == s.nodeSerializers)
  {
    KeyedByNodeTypeValues(CatalogSerializers(assembly));
  }

  /** Scanning twice without forcing leaves the state the first scan left. */
  lemma ScanIdempotent(s: RegistryState, assembly: seq<AssemblyType>)
    ensures Scan(Scan(s, assembly, false).state, assembly, false).state == Scan(s, assembly, false).state
  {
  }

  // ---------------------------------------------------------- reconciliation

  /** The first catalog type whose NodeName is `name` (FirstOrDefault). */
  function FirstNamed(types: seq<NodeTypeInfo>, name: string): (r: Option<NodeTypeInfo>)
    ensures r.Some? ==> r.value in types && r.value.nodeName == Some(name)
    ensures r.None? <==> forall t :: t in types ==> t.nodeName != Some(name)
  {
    if types == [] then None
    else if types[0].nodeName == Some(name) then Some(types[0])
    else
      assert forall t :: t in types ==> t == types[0] || t in types[1..];
      FirstNamed(types[1..], name)
  }

  /** A configured name for which a factory can be built: a catalog type of that name with a Create method. */
  predicate Resolvable(types: seq<NodeTypeInfo>, name: string) {
    FirstNamed(types, name).Some? && FirstNamed(types, name).value.hasCreate
  }

  /** The serializer map after the placeholder loop has visited `configs`. */
  function WithPlaceholders(serializers: map<string, NodeSerializer>, configs: seq<string>): map<string, NodeSerializer>
    decreases |configs|
  {
    if configs == [] then serializers
    else
      var w := WithPlaceholders(serializers, configs[..|configs| - 1]);
      var c := configs[|configs| - 1];
      if c in w then w else w[c := NullNodeSerializer(c)]
  }

  /** Existing serializers are kept, and exactly the configured names without one get a placeholder of their own name. */
  lemma {:induction false} WithPlaceholdersEntries(serializers: map<string, NodeSerializer>, configs: seq<string>)
    ensures var w := WithPlaceholders(serializers, configs);
      && (forall k :: k in w <==> k in serializers || k in configs)
      && (forall k :: k in w ==> w[k] == if k in serializers then serializers[k] else NullNodeSerializer(k))
    decreases |configs|
  {
    if configs != [] {
      var prefix := configs[..|configs| - 1];
      WithPlaceholdersEntries(serializers, prefix);
      assert forall k :: k in configs <==> k in prefix || k == configs[|configs| - 1];
    }
  }

  /** Factory keys that are no longer configured, or that no catalog type is named after. */
  function StaleKeys(factories: map<string, Factory>, configs: seq<string>, types: seq<NodeTypeInfo>): set<string> {
    set k | k in factories && (k !in configs || forall t :: t in types ==> t.nodeName != Some(k))
  }

  /** The keys removed from both maps: the stale keys, when both maps are non-empty. */
  function RemovedKeys(factories: map<string, Factory>, serializers: map<string, NodeSerializer>,
                       configs: seq<string>, types: seq<NodeTypeInfo>): set<string> {
    if |factories| > 0 && |serializers| > 0 then StaleKeys(factories, configs, types) else {}
  }

  /** The factory map after the registration loop has visited `configs`. */
  function WithFactories(factories: map<string, Factory>, configs: seq<string>, types: seq<NodeTypeInfo>): map<string, Factory>
    decreases |configs|
  {
    if configs == [] then factories
    else
      var w := WithFactories(factories, configs[..|configs| - 1], types);
      var c := configs[|configs| - 1];
      if c in w || !Resolvable(types, c) then w else w[c := Factory(FirstNamed(types, c).value.className)]
  }

  /**
   * Registration keeps every existing factory, adds exactly the configured
   * resolvable names, and gives each added name the factory of the first
   * catalog type of that name.
   */
  lemma {:induction false} WithFactoriesEntries(factories: map<string, Factory>, configs: seq<string>, types: seq<NodeTypeInfo>)
    ensures var w := WithFactories(factories, configs, types);
      && (forall k :: k in w <==> k in factories || (k in configs && Resolvable(types, k)))
      && (forall k :: k in w ==> w[k] == if k in factories then factories[k] else Factory(FirstNamed(types, k).value.className))
    decreases |configs|
  {
    if configs != [] {
      var prefix := configs[..|configs| - 1];
      WithFactoriesEntries(factories, prefix, types);
      assert forall k :: k in configs <==> k in prefix || k == configs[|configs| - 1];
    }
  }

  /** Removing keys one at a time removes their union. */
  lemma RemoveOneMore<V>(m: map<string, V>, removed: set<string>, k: string)
    ensures (m - removed) - {k} == m - (removed + {k})
  {
  }

  /** Removes `keys` from both maps, one key at a time. */
  method DropKeys(factories: map<string, Factory>, serializers: map<string, NodeSerializer>, keys: set<string>)
    returns (fs: map<string, Factory>, ss: map<string, NodeSerializer>)
    ensures fs == factories - keys && ss == serializers - keys
  {
    fs, ss := factories, serializers;
    var toRemove, removed := keys, {};
    while toRemove != {}
      invariant toRemove <= keys && removed == keys - toRemove
      invariant fs == factories - removed && ss == serializers - removed
      decreases toRemove
    {
      var k :| k in toRemove;
      RemoveOneMore(factories, removed, k);
      RemoveOneMore(serializers, removed, k);
      fs, ss := fs - {k}, ss - {k};
      toRemove := toRemove - {k};
      removed := removed + {k};
    }
  }

  /** The state UpdateRegistration works on: rescanned when anything is unset or the types changed. */
  function Rescanned(s: RegistryState, assembly: seq<AssemblyType>, typeChanged: bool): (r: Step)
    ensures r.ok ==> r.state.allNodeTypes.Some?
  {
    if s.allNodeTypes.None? || s.nodeSerializers.None? || typeChanged then Scan(s, assembly, true) else Step(true, s)
  }

  /** Placeholders, then removal of stale keys from both maps, then factory registration. */
  function Reconciled(s: RegistryState, configs: seq<string>): RegistryState
    requires s.allNodeTypes.Some?
  {
    var types := s.allNodeTypes.value;
    var factories := s.factories.GetOr(map[]);
    var serializers := WithPlaceholders(s.nodeSerializers.GetOr(map[]), configs);
    var removed := RemovedKeys(factories, serializers, configs, types);
    RegistryState(Some(types), Some(WithFactories(factories - removed, configs, types)), Some(serializers - removed))
  }

  /** UpdateRegistration as a function of the old state, the configured names and the assembly. */
  function Reconcile(s: RegistryState, configs: seq<string>, assembly: seq<AssemblyType>, typeChanged: bool): Step {
    if |configs| == 0 then Step(true, s)
    else
      var r := Rescanned(s, assembly, typeChanged);
      if !r.ok then r else Step(true, Reconciled(r.state, configs))
  }

  /** An empty configuration leaves every part of the registry as it was. */
  lemma EmptyConfigurationIsNoop(s: RegistryState, assembly: seq<AssemblyType>, typeChanged: bool)
    ensures Reconcile(s, [], assembly, typeChanged) == Step(true, s)
  {
  }

  /** After reconciling a non-empty configuration, every factory key is configured and names a catalog type. */
  lemma {:induction false} ReconciledFactoryKeys(s: RegistryState, configs: seq<string>)
    requires s.allNodeTypes.Some? && |configs| > 0
    ensures var r := Reconciled(s, configs);
      forall k :: k in r.factories.value ==>
        k in configs && exists t :: t in s.allNodeTypes.value && t.nodeName == Some(k)
  {
    var types := s.allNodeTypes.value;
    var factories := s.factories.GetOr(map[]);
    var serializers := WithPlaceholders(s.nodeSerializers.GetOr(map[]), configs);
    WithPlaceholdersEntries(s.nodeSerializers.GetOr(map[]), configs);
    WithFactoriesEntries(factories - RemovedKeys(factories, serializers, configs, types), configs, types);
    assert configs[0] in serializers;
    assert |serializers| > 0 by {
      assert serializers.Keys != {};
    }
    var r := Reconciled(s, configs);
    forall k | k in r.factories.value
      ensures k in configs && exists t :: t in types && t.nodeName == Some(k)
    {
      if k !in factories - RemovedKeys(factories, serializers, configs, types) {
        assert Resolvable(types, k);
        assert FirstNamed(types, k).value in types;
      } else {
        assert k !in StaleKeys(factories, configs, types);
      }
    }
  }

  /**
   * Serializers are never overwritten: an entry keeps its serializer, a new
   * entry is the placeholder for its own name, and an entry disappears only
   * together with a stale factory key.
   */
  lemma ReconciledSerializers(s: RegistryState, configs: seq<string>)
    requires s.allNodeTypes.Some?
    ensures var before := s.nodeSerializers.GetOr(map[]);
      var after := Reconciled(s, configs).nodeSerializers.value;
      var factories := s.factories.GetOr(map[]);
      && (forall k :: k in after ==> k in before || k in configs)
      && (forall k :: k in after ==> after[k] == if k in before then before[k] else NullNodeSerializer(k))
      && (forall k :: (k in before || k in configs) && k !in after ==>
            k in factories && k in StaleKeys(factories, configs, s.allNodeTypes.value))
  {
    WithPlaceholdersEntries(s.nodeSerializers.GetOr(map[]), configs);
  }

  /**
   * Factories: a kept key keeps its factory (no re-registration), a new key
   * is a configured resolvable name with the factory of the first catalog
   * type of that name, and a resolvable configured name always ends up
   * registered.
   */
  lemma ReconciledFactories(s: RegistryState, configs: seq<string>)
    requires s.allNodeTypes.Some?
    ensures var types := s.allNodeTypes.value;
      var before := s.factories.GetOr(map[]);
      var after := Reconciled(s, configs).factories.value;
      && (forall k :: k in before && k in after ==> after[k] == before[k])
      && (forall k :: k in after && k !in before ==>
            k in configs && Resolvable(types, k) && after[k] == Factory(FirstNamed(types, k).value.className))
      && (forall c :: c in configs && Resolvable(types, c) ==> c in after)
  {
    var factories := s.factories.GetOr(map[]);
    var serializers := WithPlaceholders(s.nodeSerializers.GetOr(map[]), configs);
    WithFactoriesEntries(factories - RemovedKeys(factories, serializers, configs, s.allNodeTypes.value), configs, s.allNodeTypes.value);
  }

  /** A configured name without a resolvable catalog type gets no factory unless it already had one. */
  lemma UnresolvableGetsNoFactory(s: RegistryState, configs: seq<string>, name: string)
    requires s.allNodeTypes.Some? && name in configs && !Resolvable(s.allNodeTypes.value, name)
    ensures name in Reconciled(s, configs).factories.value ==>
      name in s.factories.GetOr(map[]) && Reconciled(s, configs).factories.value[name] == s.factories.GetOr(map[])[name]
  {
    ReconciledFactories(s, configs);
  }

  // ----------------------------------------------------------------- queries

  /** Create(nodeName): null when no factory is registered; throws when the factory map is unset. */
  function Create(s: RegistryState, nodeName: string): (r: Outcome<Option<NodeInstance>>)
    ensures r.Throws? <==> s.factories.None?
    ensures r.Throws? ==> r.error == NullReference
    ensures r.Ok? ==> (r.value.None? <==> nodeName !in s.factories.value)
    ensures r.Ok? && r.value.Some? ==> r.value.value.className == s.factories.value[nodeName].className
  {
    match s.factories
    case None => Throws(NullReference)
    case Some(factories) =>
      if nodeName in factories then Ok(Some(NodeInstance(factories[nodeName].className))) else Ok(None)
  }

  /** Create<T>(nodeName): also null when the factory's product is not of class T. */
  function CreateAs(s: RegistryState, nodeName: string, classT: string): (r: Outcome<Option<NodeInstance>>)
    ensures r.Throws? <==> s.factories.None?
    ensures r.Ok? ==> (r.value.Some? <==> nodeName in s.factories.value && s.factories.value[nodeName].className == classT)
    ensures r.Ok? && r.value.Some? ==> r.value == Create(s, nodeName).value
  {
    match Create(s, nodeName)
    case Throws(e) => Throws(e)
    case Ok(node) => if node.Some? && node.value.className == classT then Ok(node) else Ok(None)
  }

  /** Create<T>(): T's own static Create, bypassing the registry. */
  function CreateDirect(classT: string): (r: NodeInstance)
    ensures r.className == classT
  {
    NodeInstance(classT)
  }

  /** A registered factory builds what a direct Create of its class builds. */
  lemma RegisteredFactoryCreatesItsClass(s: RegistryState, nodeName: string)
    requires s.factories.Some? && nodeName in s.factories.value
    ensures Create(s, nodeName) == Ok(Some(CreateDirect(s.factories.value[nodeName].className)))
  {
  }

  /** GetNodeNames: the registered factory names, empty while the map is unset. */
  function GetNodeNames(s: RegistryState): (r: set<string>)
    ensures s.factories.None? ==> r == {}
    ensures s.factories.Some? ==> forall n :: n in r <==> Create(s, n).Ok? && Create(s, n).value.Some?
  {
    match s.factories
    case None => {}
    case Some(factories) => factories.Keys
  }

  /** The NodeSerializers property: a copy of the map; ToDictionary on the unset map throws ArgumentNull. */
  function NodeSerializerMap(s: RegistryState): (r: Outcome<map<string, NodeSerializer>>)
    ensures r.Throws? <==> s.nodeSerializers.None?
    ensures r.Throws? ==> r.error == ArgumentNull
    ensures r.Ok? ==> r.value == s.nodeSerializers.value
  {
    match s.nodeSerializers
    case None => Throws(ArgumentNull)
    case Some(m) => Ok(m)
  }

  /** After Clearup every part is unset and no node names are reported. */
  lemma ClearedRegistryHasNoNames()
    ensures GetNodeNames(RegistryState(None, None, None)) == {}
    ensures Create(RegistryState(None, None, None), "").Throws?
  {
  }

  // -------------------------------------------------------- the static class

  /** The static class GraphNodeFactory: its three static fields. */
  class GraphNodeFactory {
    var allNodeTypes: Option<seq<NodeTypeInfo>>
    var factories: Option<map<string, Factory>>
    var nodeSerializers: Option<map<string, NodeSerializer>>

    function State(): RegistryState
      reads this
    {
      RegistryState(allNodeTypes, factories, nodeSerializers)
    }

    /** Static fields start out null. */
    constructor ()
      ensures State() == RegistryState(None, None, None)
    {
      allNodeTypes, factories, nodeSerializers := None, None, None;
    }

    method ScanNodeTypes(assembly: seq<AssemblyType>, forceRefresh: bool) returns (ok: bool)
      modifies this
      ensures Step(ok, State()) == Scan(old(State()), assembly, forceRefresh)
    {
      if allNodeTypes.Some? && nodeSerializers.Some? && !forceRefresh {
        return true;
      }
      allNodeTypes := Some(CatalogNodeTypes(assembly));
      var keyed := KeyedByNodeType(CatalogSerializers(assembly));
      if keyed.Throws? {
        return false;
      }
      nodeSerializers := Some(keyed.value);
      ok := true;
    }

    /** UpdateRegistration(typeChanged) with the configured node names read from configuration. */
    method UpdateRegistration(configs: seq<string>, assembly: seq<AssemblyType>, typeChanged: bool) returns (ok: bool)
      modifies this
      ensures Step(ok, State()) == Reconcile(old(State()), configs, assembly, typeChanged)
    {
      if |configs| == 0 {
        return true;
      }
      if allNodeTypes.None? || nodeSerializers.None? || typeChanged {
        ok := ScanNodeTypes(assembly, true);
        if !ok {
          return;
        }
      }
      ghost var scanned := State();
      assert Rescanned(old(State()), assembly, typeChanged) == Step(true, scanned);
      if factories.None? {
        factories := Some(map[]);
      }
      AddPlaceholders(configs);
      var removed := RemoveStaleKeys(configs);
      RegisterFactories(configs);
      ok := true;
    }

    /** Every configured name without a serializer gets a NullNodeSerializer of that name. */
    method AddPlaceholders(configs: seq<string>)
      requires nodeSerializers.Some?
      modifies this
      ensures allNodeTypes == old(allNodeTypes) && factories == old(factories)
      ensures nodeSerializers == Some(WithPlaceholders(old(nodeSerializers.value), configs))
    {
      assert WithPlaceholders(nodeSerializers.value, configs[..0]) == nodeSerializers.value;
      for i := 0 to |configs|
        invariant allNodeTypes == old(allNodeTypes) && factories == old(factories)
        invariant nodeSerializers == Some(WithPlaceholders(old(nodeSerializers.value), configs[..i]))
      {
        var name := configs[i];
        assert configs[..i + 1][..i] == configs[..i];
        if name !in nodeSerializers.value {
          nodeSerializers := Some(nodeSerializers.value[name := NullNodeSerializer(name)]);
        }
      }
      assert configs[..|configs|] == configs;
    }

    /** When both maps are non-empty, the stale factory keys go from both maps. */
    method RemoveStaleKeys(configs: seq<string>) returns (removed: set<string>)
      requires allNodeTypes.Some? && factories.Some? && nodeSerializers.Some?
      modifies this
      ensures allNodeTypes == old(allNodeTypes)
      ensures removed == RemovedKeys(old(factories.value), old(nodeSerializers.value), configs, allNodeTypes.value)
      ensures factories == Some(old(factories.value) - removed)
      ensures nodeSerializers == Some(old(nodeSerializers.value) - removed)
    {
      var fs, ss, types := factories.value, nodeSerializers.value, allNodeTypes.value;
      removed := RemovedKeys(fs, ss, configs, types);
      if |fs| > 0 && |ss| > 0 {
        var toRemove := StaleKeys(fs, configs, types);
        fs, ss := DropKeys(fs, ss, toRemove);
      } else {
        assert fs - removed == fs && ss - removed == ss;
      }
      factories, nodeSerializers := Some(fs), Some(ss);
    }

    /** Every configured, unregistered name whose first catalog type has a Create method gets its factory. */
    method RegisterFactories(configs: seq<string>)
      requires allNodeTypes.Some? && factories.Some?
      modifies this
      ensures allNodeTypes == old(allNodeTypes) && nodeSerializers == old(nodeSerializers)
      ensures factories == Some(WithFactories(old(factories.value), configs, allNodeTypes.value))
    {
      var types := allNodeTypes.value;
      assert WithFactories(factories.value, configs[..0], types) == factories.value;
      for i := 0 to |configs|
        invariant allNodeTypes == Some(types) && nodeSerializers == old(nodeSerializers)
        invariant factories == Some(WithFactories(old(factories.value), configs[..i], types))
      {
        var name := configs[i];
        assert configs[..i + 1][..i] == configs[..i];
        if name in factories.value {
          continue;
        }
        var t := FirstNamed(types, name);
        if t.None? || !t.value.hasCreate {
          continue;
        }
        factories := Some(factories.value[name := Factory(t.value.className)]);
      }
      assert configs[..|configs|] == configs;
    }

    /** Clearup: all three fields back to null. */
    method Clearup()
      modifies this
      ensures State() == RegistryState(None, None, None)
    {
      factories := None;
      nodeSerializers := None;
      allNodeTypes := None;
    }
  }
}
