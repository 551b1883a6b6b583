/**
 * The pure parts of the descriptor-writing command: giving every attribute
 * of a descriptor tree its identifier, Java path and REST path; attaching
 * the implementations of object attributes; and choosing the algorithms
 * whose descriptors are written.
 */
module WriteDescriptors {
  import opened Wrappers
  import opened DescriptorModel
  import StringOrder

  /** The Java path every algorithm's attributes hang off. */
  const RootPathJava: string := "algorithmInstance"

  /* ---------------------------------------------------------------------- */
  /* Path expansion                                                          */
  /* ---------------------------------------------------------------------- */

  /** Gives every attribute of ci, and of every implementation below it, its id and paths. */
  function ExpandPaths(ci: ClassInfo, id: string, pathJava: string, pathRest: string): (r: ClassInfo)
    ensures r.name == ci.name && r.typeName == ci.typeName
    ensures |r.attributes| == |ci.attributes|
    ensures forall i :: 0 <= i < |ci.attributes| ==>
      r.attributes[i] == ExpandAttrPaths(ci.attributes[i], id, pathJava, pathRest)
    decreases ci
  {
    ci.(attributes := ExpandAttributePaths(ci.attributes, id, pathJava, pathRest))
  }

  /** Every attribute of a class is expanded on its own, against the same parent id and paths. */
  function ExpandAttributePaths(entries: seq<AttrEntry>, id: string, pathJava: string, pathRest: string): (r: seq<AttrEntry>)
    ensures |r| == |entries|
    ensures forall i :: 0 <= i < |entries| ==> r[i] == ExpandAttrPaths(entries[i], id, pathJava, pathRest)
    decreases entries
  {
    if |entries| == 0 then []
    else [ExpandAttrPaths(entries[0], id, pathJava, pathRest)] + ExpandAttributePaths(entries[1..], id, pathJava, pathRest)
  }

  /**
   * One attribute: its id and REST path extend the parent's with a dot
   * (or are the bare key at the root), its Java path always does; then each
   * of its implementations is expanded below it.
   */
  function ExpandAttrPaths(entry: AttrEntry, id: string, pathJava: string, pathRest: string): (r: AttrEntry)
    ensures r.key == entry.key
    ensures r.info.id == Some(if id == "" then entry.key else id + "." + entry.key)
    ensures r.info.pathJava == Some(pathJava + "." + entry.key)
    ensures r.info.pathRest == Some(if pathRest == "" then entry.key else pathRest + "." + entry.key)
    ensures r.info.(id := entry.info.id, pathJava := entry.info.pathJava, pathRest := entry.info.pathRest,
                    implementations := entry.info.implementations) == entry.info
    ensures r.info.implementations.Unset? <==> entry.info.implementations.Unset?
    ensures entry.info.implementations.ImplementationMap? ==>
      r.info.implementations.entries == ExpandImplementationPaths(
        entry.info.implementations.entries, entry.info.typeName,
        r.info.id.value, r.info.pathJava.value, r.info.pathRest.value)
    decreases entry
  {
    var key := entry.key;
    var attr := entry.info;
    var attrId := if |id| == 0 then key else id + "." + key;
    var attrPathJava := pathJava + "." + key;
    var attrPathRest := if |pathRest| == 0 then key else pathRest + "." + key;
    var implementations :=
      match attr.implementations
      case Unset => Unset
      case ImplementationMap(impls) =>
        ImplementationMap(ExpandImplementationPaths(impls, attr.typeName, attrId, attrPathJava, attrPathRest));
    AttrEntry(key, attr.(id := Some(attrId), pathJava := Some(attrPathJava), pathRest := Some(attrPathRest),
                         implementations := implementations))
  }

  /** The implementations of an attribute, each expanded on its own. */
  function ExpandImplementationPaths(impls: seq<Implementation>, attrType: string, attrId: string,
                                     attrPathJava: string, attrPathRest: string): (r: seq<Implementation>)
    ensures |r| == |impls|
    ensures forall k :: 0 <= k < |impls| ==>
      r[k] == ExpandImplementationPath(impls[k], attrType, attrId, attrPathJava, attrPathRest)
    decreases impls
  {
    if |impls| == 0 then []
    else
      [ExpandImplementationPath(impls[0], attrType, attrId, attrPathJava, attrPathRest)]
      + ExpandImplementationPaths(impls[1..], attrType, attrId, attrPathJava, attrPathRest)
  }

  /**
   * One implementation: when its type differs from the attribute's declared
   * type, the nested id gains "::" and the implementation's name, and the
   * nested Java path becomes a cast of the attribute's path; otherwise both
   * are passed on unchanged. The nested REST path is always the attribute's.
   */
  function ExpandImplementationPath(impl: Implementation, attrType: string, attrId: string,
                                    attrPathJava: string, attrPathRest: string): (r: Implementation)
    ensures r.alias == impl.alias
    ensures impl.info.typeName != attrType ==>
      r.info == ExpandPaths(impl.info, attrId + "::" + impl.info.name,
                            "((" + impl.info.typeName + ") " + attrPathJava + ")", attrPathRest)
    ensures impl.info.typeName == attrType ==>
      r.info == ExpandPaths(impl.info, attrId, attrPathJava, attrPathRest)
    decreases impl
  {
    var (newId, pathJavaWithCast) :=
      if impl.info.typeName != attrType then
        (attrId + "::" + impl.info.name, "((" + impl.info.typeName + ") " + attrPathJava + ")")
      else
        (attrId, attrPathJava);
    Implementation(impl.alias, ExpandPaths(impl.info, newId, pathJavaWithCast, attrPathRest))
  }

  /** The path expansion the command starts at every algorithm's class descriptor. */
  function ExpandRootPaths(ci: ClassInfo): (r: ClassInfo)
    ensures |r.attributes| == |ci.attributes|
    ensures forall i :: 0 <= i < |ci.attributes| ==>
      && r.attributes[i].info.id == Some(ci.attributes[i].key)
      && r.attributes[i].info.pathJava == Some(RootPathJava + "." + ci.attributes[i].key)
      && r.attributes[i].info.pathRest == Some(ci.attributes[i].key)
  {
    ExpandPaths(ci, "", RootPathJava, "")
  }

  /* Properties of whole trees ------------------------------------------- */

  /** P holds of every attribute entry of ci and of every implementation nested below it. */
  ghost predicate EveryAttr(ci: ClassInfo, P: AttrEntry -> bool)
    decreases ci
  {
    forall i :: 0 <= i < |ci.attributes| ==> EveryAttrBelow(ci.attributes[i], P)
  }

  ghost predicate EveryAttrBelow(entry: AttrEntry, P: AttrEntry -> bool)
    decreases entry
  {
    && P(entry)
    && (entry.info.implementations.ImplementationMap? ==>
          forall k :: 0 <= k < |entry.info.implementations.entries| ==>
            EveryAttr(entry.info.implementations.entries[k].info, P))
  }

  /** A string with none of the characters a cast or an implementation suffix introduces. */
  predicate CastFree(s: string) {
    ':' !in s && '(' !in s && ')' !in s && ' ' !in s
  }

  predicate KeyCastFree(entry: AttrEntry) {
    CastFree(entry.key)
  }

  predicate RestPathCastFree(entry: AttrEntry) {
    entry.info.pathRest.Some? && CastFree(entry.info.pathRest.value)
  }

  predicate HasPaths(entry: AttrEntry) {
    entry.info.id.Some? && entry.info.pathJava.Some? && entry.info.pathRest.Some?
  }

  /**
   * REST paths never hold casts or "::": when no key does and the starting
   * REST path does not, no REST path anywhere in the expanded tree does.
   */
  lemma {:induction false} RestPathsAreCastFree(ci: ClassInfo, id: string, pathJava: string, pathRest: string)
    requires EveryAttr(ci, KeyCastFree) && CastFree(pathRest)
    ensures EveryAttr(ExpandPaths(ci, id, pathJava, pathRest), RestPathCastFree)
    decreases ci
  {
    var r := ExpandPaths(ci, id, pathJava, pathRest);
    forall i | 0 <= i < |ci.attributes|
      ensures EveryAttrBelow(r.attributes[i], RestPathCastFree)
    {
      assert EveryAttrBelow(ci.attributes[i], KeyCastFree);
      RestPathsAreCastFreeBelow(ci.attributes[i], id, pathJava, pathRest);
    }
  }

  lemma {:induction false} RestPathsAreCastFreeBelow(entry: AttrEntry, id: string, pathJava: string, pathRest: string)
    requires EveryAttrBelow(entry, KeyCastFree) && CastFree(pathRest)
    ensures EveryAttrBelow(ExpandAttrPaths(entry, id, pathJava, pathRest), RestPathCastFree)
    decreases entry
  {
    var r := ExpandAttrPaths(entry, id, pathJava, pathRest);
    var rest := r.info.pathRest.value;
    assert rest == entry.key || rest == pathRest + "." + entry.key;
    assert CastFree(rest);
    if entry.info.implementations.ImplementationMap? {
      var impls := entry.info.implementations.entries;
      forall k | 0 <= k < |impls|
        ensures EveryAttr(r.info.implementations.entries[k].info, RestPathCastFree)
      {
        assert EveryAttr(impls[k].info, KeyCastFree);
        var impl := impls[k];
        if impl.info.typeName != entry.info.typeName {
          RestPathsAreCastFree(impl.info, r.info.id.value + "::" + impl.info.name,
                               "((" + impl.info.typeName + ") " + r.info.pathJava.value + ")", rest);
        } else {
          RestPathsAreCastFree(impl.info, r.info.id.value, r.info.pathJava.value, rest);
        }
      }
    }
  }

  /** After expansion every attribute of the tree, nested ones included, has an id and both paths. */
  lemma {:induction false} ExpandPathsCoversTree(ci: ClassInfo, id: string, pathJava: string, pathRest: string)
    ensures EveryAttr(ExpandPaths(ci, id, pathJava, pathRest), HasPaths)
    decreases ci
  {
    var r := ExpandPaths(ci, id, pathJava, pathRest);
    forall i | 0 <= i < |ci.attributes|
      ensures EveryAttrBelow(r.attributes[i], HasPaths)
    {
      ExpandPathsCoversTreeBelow(ci.attributes[i], id, pathJava, pathRest);
    }
  }

  lemma {:induction false} ExpandPathsCoversTreeBelow(entry: AttrEntry, id: string, pathJava: string, pathRest: string)
    ensures EveryAttrBelow(ExpandAttrPaths(entry, id, pathJava, pathRest), HasPaths)
    decreases entry
  {
    var r := ExpandAttrPaths(entry, id, pathJava, pathRest);
    if entry.info.implementations.ImplementationMap? {
      var impls := entry.info.implementations.entries;
      forall k | 0 <= k < |impls|
        ensures EveryAttr(r.info.implementations.entries[k].info, HasPaths)
      {
        var impl := impls[k];
        if impl.info.typeName != entry.info.typeName {
          ExpandPathsCoversTree(impl.info, r.info.id.value + "::" + impl.info.name,
                                "((" + impl.info.typeName + ") " + r.info.pathJava.value + ")", r.info.pathRest.value);
        } else {
          ExpandPathsCoversTree(impl.info, r.info.id.value, r.info.pathJava.value, r.info.pathRest.value);
        }
      }
    }
  }

  /* Structure is preserved ----------------------------------------------- */

  /** The tree with every id and path cleared. */
  function EraseClass(ci: ClassInfo): ClassInfo
    decreases ci
  {
    ci.(attributes := EraseEntries(ci.attributes))
  }

  function EraseEntries(entries: seq<AttrEntry>): (r: seq<AttrEntry>)
    ensures |r| == |entries| && forall i :: 0 <= i < |entries| ==> r[i] == EraseEntry(entries[i])
    decreases entries
  {
    if |entries| == 0 then [] else [EraseEntry(entries[0])] + EraseEntries(entries[1..])
  }

  function EraseEntry(entry: AttrEntry): AttrEntry
    decreases entry
  {
    var implementations :=
      match entry.info.implementations
      case Unset => Unset
      case ImplementationMap(impls) => ImplementationMap(EraseImplementations(impls));
    entry.(info := entry.info.(id := None, pathJava := None, pathRest := None, implementations := implementations))
  }

  function EraseImplementations(impls: seq<Implementation>): (r: seq<Implementation>)
    ensures |r| == |impls| && forall k :: 0 <= k < |impls| ==> r[k] == impls[k].(info := EraseClass(impls[k].info))
    decreases impls
  {
    if |impls| == 0 then []
    else [impls[0].(info := EraseClass(impls[0].info))] + EraseImplementations(impls[1..])
  }

  /** Path expansion changes nothing but ids and paths: keys, types, order and nesting are kept. */
  lemma {:induction false} ExpandPathsKeepsStructure(ci: ClassInfo, id: string, pathJava: string, pathRest: string)
    ensures EraseClass(ExpandPaths(ci, id, pathJava, pathRest)) == EraseClass(ci)
    decreases ci
  {
    var r := ExpandPaths(ci, id, pathJava, pathRest);
    forall i | 0 <= i < |ci.attributes|
      ensures EraseEntry(r.attributes[i]) == EraseEntry(ci.attributes[i])
    {
      ExpandPathsKeepsStructureBelow(ci.attributes[i], id, pathJava, pathRest);
    }
    assert EraseEntries(r.attributes) == EraseEntries(ci.attributes);
  }

  lemma {:induction false} ExpandPathsKeepsStructureBelow(entry: AttrEntry, id: string, pathJava: string, pathRest: string)
    ensures EraseEntry(ExpandAttrPaths(entry, id, pathJava, pathRest)) == EraseEntry(entry)
    decreases entry
  {
    var r := ExpandAttrPaths(entry, id, pathJava, pathRest);
    if entry.info.implementations.ImplementationMap? {
      var impls := entry.info.implementations.entries;
      var expanded := r.info.implementations.entries;
      forall k | 0 <= k < |impls|
        ensures EraseClass(expanded[k].info) == EraseClass(impls[k].info)
      {
        var impl := impls[k];
        if impl.info.typeName != entry.info.typeName {
          ExpandPathsKeepsStructure(impl.info, r.info.id.value + "::" + impl.info.name,
                                    "((" + impl.info.typeName + ") " + r.info.pathJava.value + ")", r.info.pathRest.value);
        } else {
          ExpandPathsKeepsStructure(impl.info, r.info.id.value, r.info.pathJava.value, r.info.pathRest.value);
        }
      }
      assert EraseImplementations(expanded) == EraseImplementations(impls);
    }
  }

  /* ---------------------------------------------------------------------- */
  /* Implementations of object attributes                                   */
  /* ---------------------------------------------------------------------- */

  /** An aliased type: an alias and the instance it names, in the alias map's key order. */
  datatype AliasedType<T> = AliasedType(alias: string, value: T)

  /** The exception raised when an object attribute has no implementation. */
  datatype ImplementationError = NoImplementationsFor(attrType: string)

  /**
   * The aliased types whose instances are assignable to iface, in order,
   * each with the class descriptor collected from its instance.
   */
  function MatchingImplementations<T>(aliased: seq<AliasedType<T>>, iface: string,
                                      isInstance: (string, T) -> bool, collect: T -> ClassInfo): (r: seq<Implementation>)
    ensures |r| <= |aliased|
    ensures forall m :: m in r <==>
      exists j :: 0 <= j < |aliased| && isInstance(iface, aliased[j].value)
        && m == Implementation(aliased[j].alias, collect(aliased[j].value))
    ensures |r| == 0 <==> forall j :: 0 <= j < |aliased| ==> !isInstance(iface, aliased[j].value)
    ensures StringOrder.Sorted(Aliases(aliased)) ==> StringOrder.Sorted(ImplementationAliases(r))
  {
    if |aliased| == 0 then []
    else
      var a := aliased[0];
      var tail := MatchingImplementations(aliased[1..], iface, isInstance, collect);
      assert forall j :: 0 < j < |aliased| ==> aliased[j] == aliased[1..][j - 1];
      if isInstance(iface, a.value) then
        var m := Implementation(a.alias, collect(a.value));
        assert StringOrder.Sorted(Aliases(aliased)) ==> StringOrder.Sorted(ImplementationAliases([m] + tail)) by {
          if StringOrder.Sorted(Aliases(aliased)) {
            assert Aliases(aliased[1..]) == Aliases(aliased)[1..];
            forall k | 0 <= k < |tail| ensures StringOrder.Less(a.alias, tail[k].alias) {
              assert tail[k] in tail;
              var j :| 0 <= j < |aliased[1..]| && isInstance(iface, aliased[1..][j].value)
                && tail[k] == Implementation(aliased[1..][j].alias, collect(aliased[1..][j].value));
              assert Aliases(aliased)[0] == a.alias && Aliases(aliased)[j + 1] == tail[k].alias;
            }
            var rs := ImplementationAliases([m] + tail);
            assert rs[1..] == ImplementationAliases(tail);
          }
        }
        [m] + tail
      else
        assert StringOrder.Sorted(Aliases(aliased)) ==> StringOrder.Sorted(Aliases(aliased[1..])) by {
          assert Aliases(aliased[1..]) == Aliases(aliased)[1..];
        }
        tail
  }

  /** The aliases of an alias map's entries, in order. */
  function Aliases<T>(aliased: seq<AliasedType<T>>): (r: seq<string>)
    ensures |r| == |aliased| && forall j :: 0 <= j < |aliased| ==> r[j] == aliased[j].alias
  {
    seq(|aliased|, j requires 0 <= j < |aliased| => aliased[j].alias)
  }

  /** The aliases of an implementation map's entries, in order. */
  function ImplementationAliases(impls: seq<Implementation>): (r: seq<string>)
    ensures |r| == |impls| && forall k :: 0 <= k < |impls| ==> r[k] == impls[k].alias
  {
    seq(|impls|, k requires 0 <= k < |impls| => impls[k].alias)
  }

  /** The attribute needs implementations: it is an object attribute. */
  predicate NeedsImplementations(entry: AttrEntry) {
    entry.info.kind.ObjectAttr?
  }

  /** An object attribute none of whose aliased types is assignable to its interface. */
  predicate Unimplementable<T>(entry: AttrEntry, aliased: seq<AliasedType<T>>, isInstance: (string, T) -> bool) {
    && NeedsImplementations(entry)
    && forall j :: 0 <= j < |aliased| ==> !isInstance(entry.info.kind.interfaceClass, aliased[j].value)
  }

  /**
   * Attaches the implementations of every object attribute of ci, in
   * attribute order, failing at the first object attribute that has none.
   * Other attributes are left as they are.
   */
  function ExpandImplementations<T>(entries: seq<AttrEntry>, aliased: seq<AliasedType<T>>,
                                    isInstance: (string, T) -> bool, collect: T -> ClassInfo): (r: Result<seq<AttrEntry>, ImplementationError>)
    ensures r.Failure? <==> exists i :: 0 <= i < |entries| && Unimplementable(entries[i], aliased, isInstance)
    ensures r.Failure? ==>
      exists i :: 0 <= i < |entries| && Unimplementable(entries[i], aliased, isInstance)
        && r.error == NoImplementationsFor(entries[i].info.typeName)
        && forall j :: 0 <= j < i ==> !Unimplementable(entries[j], aliased, isInstance)
    ensures r.Success? ==> |r.value| == |entries| && forall i :: 0 <= i < |entries| ==>
      && r.value[i].key == entries[i].key
      && (NeedsImplementations(entries[i]) ==>
            && r.value[i].info == entries[i].info.(implementations := ImplementationMap(
                 MatchingImplementations(aliased, entries[i].info.kind.interfaceClass, isInstance, collect)))
            && |r.value[i].info.implementations.entries| > 0)
      && (!NeedsImplementations(entries[i]) ==> r.value[i] == entries[i])
  {
    if |entries| == 0 then Success([])
    else
      var entry := entries[0];
      var head :- ExpandImplementationsOf(entry, aliased, isInstance, collect);
      var tail :- ExpandImplementations(entries[1..], aliased, isInstance, collect);
      assert forall i :: 0 < i < |entries| ==> entries[i] == entries[1..][i - 1];
      Success([head] + tail)
  }

  /** One attribute of expandImplementations. */
  function ExpandImplementationsOf<T>(entry: AttrEntry, aliased: seq<AliasedType<T>>,
                                      isInstance: (string, T) -> bool, collect: T -> ClassInfo): (r: Result<AttrEntry, ImplementationError>)
    ensures r.Failure? <==> Unimplementable(entry, aliased, isInstance)
    ensures r.Failure? ==> r.error == NoImplementationsFor(entry.info.typeName)
    ensures r.Success? && NeedsImplementations(entry) ==>
      && r.value == entry.(info := entry.info.(implementations := ImplementationMap(
           MatchingImplementations(aliased, entry.info.kind.interfaceClass, isInstance, collect))))
      && |r.value.info.implementations.entries| > 0
    ensures r.Success? && !NeedsImplementations(entry) ==> r.value == entry
  {
    if NeedsImplementations(entry) then
      var impls := MatchingImplementations(aliased, entry.info.kind.interfaceClass, isInstance, collect);
      if |impls| == 0 then Failure(NoImplementationsFor(entry.info.typeName))
      else Success(entry.(info := entry.info.(implementations := ImplementationMap(impls))))
    else Success(entry)
  }

  /* ---------------------------------------------------------------------- */
  /* Algorithm selection                                                     */
  /* ---------------------------------------------------------------------- */

  /** A service-loaded algorithm provider: its name and the algorithm it supplies. */
  datatype Provider<A> = Provider(name: string, algorithm: A)

  /** Reasons the command stops; both are reported as invalid arguments. */
  datatype CommandError = AlgorithmNotInSpiList(name: string) | NoAlgorithmSelected

  ghost predicate IsProviderName<A>(providers: seq<Provider<A>>, name: string) {
    exists i :: 0 <= i < |providers| && providers[i].name == name
  }

  /** a is the algorithm of the last provider named name. */
  ghost predicate LastProvided<A>(providers: seq<Provider<A>>, name: string, a: A) {
    exists i :: 0 <= i < |providers| && providers[i].name == name && providers[i].algorithm == a
      && forall j :: i < j < |providers| ==> providers[j].name != name
  }

  /** The provider map: every provider put under its name in load order, so the last one wins. */
  function Registry<A>(providers: seq<Provider<A>>): (m: map<string, A>)
    ensures |providers| > 0 ==> providers[|providers| - 1].name in m
    decreases |providers|
  {
    if |providers| == 0 then map[]
    else
      var last := providers[|providers| - 1];
      Registry(providers[..|providers| - 1])[last.name := last.algorithm]
  }

  /** The provider map holds exactly the providers' names. */
  lemma {:induction false} RegistryKeys<A>(providers: seq<Provider<A>>)
    ensures forall n :: n in Registry(providers) <==> IsProviderName(providers, n)
    decreases |providers|
  {
    if |providers| > 0 {
      var init := providers[..|providers| - 1];
      RegistryKeys(init);
      forall n ensures IsProviderName(providers, n) <==> IsProviderName(init, n) || n == providers[|providers| - 1].name {
        if IsProviderName(providers, n) {
          var i :| 0 <= i < |providers| && providers[i].name == n;
          if i < |init| {
            assert init[i] == providers[i];
          }
        }
        if IsProviderName(init, n) {
          var i :| 0 <= i < |init| && init[i].name == n;
          assert providers[i] == init[i];
        }
      }
    }
  }

  /** Under every name the provider map holds the algorithm of the last provider of that name. */
  lemma {:induction false} RegistryLastWins<A>(providers: seq<Provider<A>>, n: string)
    requires n in Registry(providers)
    ensures LastProvided(providers, n, Registry(providers)[n])
    decreases |providers|
  {
    var init := providers[..|providers| - 1];
    var last := providers[|providers| - 1];
    var m := Registry(providers);
    if n == last.name {
      assert providers[|providers| - 1] == last;
    } else {
      RegistryLastWins(init, n);
      var i :| 0 <= i < |init| && init[i].name == n && init[i].algorithm == m[n]
        && forall j :: i < j < |init| ==> init[j].name != n;
      assert providers[i] == init[i];
      forall j | i < j < |providers| ensures providers[j].name != n {
        if j < |init| {
          assert init[j] == providers[j];
        }
      }
    }
  }

  /** The names of the selected algorithms: all providers' when none are requested, else the requested ones. */
  ghost predicate Selected<A>(providers: seq<Provider<A>>, types: seq<string>, name: string) {
    IsProviderName(providers, name) && (|types| == 0 || name in types)
  }

  /** Checks the requested names in order and reports the first one the map lacks. */
  method FirstUnknown<A>(algorithms: map<string, A>, types: seq<string>) returns (missing: Option<string>)
    ensures missing.None? <==> forall k :: 0 <= k < |types| ==> types[k] in algorithms
    ensures missing.Some? ==>
      exists k :: 0 <= k < |types| && types[k] == missing.value && types[k] !in algorithms
        && forall j :: 0 <= j < k ==> types[j] in algorithms
  {
    var k := 0;
    while k < |types|
      invariant 0 <= k <= |types|
      invariant forall j :: 0 <= j < k ==> types[j] in algorithms
    {
      if types[k] !in algorithms {
        return Some(types[k]);
      }
      k := k + 1;
    }
    return None;
  }

  /** The entries of the map under the given names, in name order, as a TreeMap yields its values. */
  method InNameOrder<A>(algorithms: map<string, A>, names: set<string>) returns (r: seq<Provider<A>>)
    requires names <= algorithms.Keys
    ensures StringOrder.Sorted(seq(|r|, i requires 0 <= i < |r| => r[i].name))
    ensures forall n :: (exists i :: 0 <= i < |r| && r[i].name == n) <==> n in names
    ensures forall i :: 0 <= i < |r| ==> r[i].name in algorithms && r[i].algorithm == algorithms[r[i].name]
  {
    var sorted := StringOrder.SortedElements(names);
    r := seq(|sorted|, i requires 0 <= i < |sorted| => Provider(sorted[i], algorithms[sorted[i]]));
    assert seq(|r|, i requires 0 <= i < |r| => r[i].name) == sorted;
    forall n | n in sorted ensures exists i :: 0 <= i < |r| && r[i].name == n {
      var i :| 0 <= i < |sorted| && sorted[i] == n;
      assert r[i].name == n;
    }
  }

  /**
   * The algorithms whose descriptors are written, ordered by name. Fails on
   * the first requested name no provider has, and when nothing is selected.
   */
  method CollectAlgorithms<A>(providers: seq<Provider<A>>, types: seq<string>)
    returns (r: Result<seq<Provider<A>>, CommandError>)
    ensures (r.Failure? && r.error.AlgorithmNotInSpiList?) <==>
      exists k :: 0 <= k < |types| && !IsProviderName(providers, types[k])
    ensures r.Failure? && r.error.AlgorithmNotInSpiList? ==>
      exists k :: 0 <= k < |types| && types[k] == r.error.name && !IsProviderName(providers, types[k])
        && forall j :: 0 <= j < k ==> IsProviderName(providers, types[j])
    ensures r == Failure(NoAlgorithmSelected) <==> |types| == 0 && |providers| == 0
    ensures r.Success? ==>
      && StringOrder.Sorted(seq(|r.value|, i requires 0 <= i < |r.value| => r.value[i].name))
      && (forall n :: (exists i :: 0 <= i < |r.value| && r.value[i].name == n) <==> Selected(providers, types, n))
      && (forall i :: 0 <= i < |r.value| ==> LastProvided(providers, r.value[i].name, r.value[i].algorithm))
  {
    var algorithms := Registry(providers);
    RegistryKeys(providers);
    var missing := FirstUnknown(algorithms, types);
    if missing.Some? {
      return Failure(AlgorithmNotInSpiList(missing.value));
    }
    var names := if |types| == 0 then algorithms.Keys else algorithms.Keys * (set t | t in types);
    assert |types| > 0 ==> types[0] in names;
    assert |types| == 0 && |providers| > 0 ==> providers[|providers| - 1].name in names;
    if names == {} {
      return Failure(NoAlgorithmSelected);
    }
    assert |providers| > 0;
    assert forall n :: n in names <==> Selected(providers, types, n);
    var selected := InNameOrder(algorithms, names);
    forall i | 0 <= i < |selected| ensures LastProvided(providers, selected[i].name, selected[i].algorithm) {
      RegistryLastWins(providers, selected[i].name);
    }
    r := Success(selected);
  }
}
