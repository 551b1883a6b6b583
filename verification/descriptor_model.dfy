/**
 * The descriptor tree the documentation tool builds for a clustering
 * algorithm: one class descriptor per attribute-holding class, one
 * attribute descriptor per attribute, and, for object-typed attributes, one
 * nested class descriptor per implementation that may be plugged in.
 *
 * A Java class appears here as its name (what Class.getName returns).
 */
module DescriptorModel {
  import opened Wrappers
  import StringOrder

  /** The kind of an attribute, with the class it refers to for enum and object kinds. */
  datatype AttrKind =
    | BooleanAttr
    | IntegerAttr
    | DoubleAttr
    | StringAttr
    | EnumAttr(enumClass: string)
    | StringArrayAttr
    | ObjectAttr(interfaceClass: string)
    | ObjectArrayAttr(interfaceClass: string)

  /**
   * Descriptor of one attribute. Of the attribute object itself only its kind
   * is kept; `None` stands for a field that is still null.
   */
  datatype AttrInfo = AttrInfo(
    kind: AttrKind,
    description: Option<string>,
    typeName: string,
    constraints: Option<seq<string>>,
    value: Option<string>,
    id: Option<string>,
    pathJava: Option<string>,
    pathRest: Option<string>,
    implementations: Implementations
  )

  /**
   * The implementations of an object attribute as the entries of a map
   * keyed by alias, in the map's iteration order; `Unset` while still null.
   */
  datatype Implementations = Unset | ImplementationMap(entries: seq<Implementation>)

  /** An implementation of an object attribute: its alias and its class descriptor. */
  datatype Implementation = Implementation(alias: string, info: ClassInfo)

  /** An attribute descriptor under the attribute's key. */
  datatype AttrEntry = AttrEntry(key: string, info: AttrInfo)

  /**
   * Descriptor of an attribute-holding class: its name, its type and its
   * attributes, the entries of a map keyed by attribute key.
   */
  datatype ClassInfo = ClassInfo(name: string, typeName: string, attributes: seq<AttrEntry>)

  /** An attribute descriptor as the collector first creates it: no paths, no implementations. */
  function NewAttrInfo(kind: AttrKind, description: Option<string>, typeName: string,
                       constraints: Option<seq<string>>, value: Option<string>): (info: AttrInfo)
    ensures info.id.None? && info.pathJava.None? && info.pathRest.None? && info.implementations.Unset?
  {
    AttrInfo(kind, description, typeName, constraints, value, None, None, None, Unset)
  }

  /** No two entries share a key, as in the entries of a map. */
  predicate UniqueKeys(entries: seq<AttrEntry>) {
    forall i, j :: 0 <= i < j < |entries| ==> entries[i].key != entries[j].key
  }

  /** The entry under key, if any. */
  function Lookup(entries: seq<AttrEntry>, key: string): (r: Option<AttrInfo>)
    ensures r.None? <==> forall i :: 0 <= i < |entries| ==> entries[i].key != key
    ensures r.Some? ==> exists i :: 0 <= i < |entries| && entries[i] == AttrEntry(key, r.value)
  {
    if |entries| == 0 then None
    else if entries[0].key == key then Some(entries[0].info)
    else
      var r := Lookup(entries[1..], key);
      assert forall i :: 0 < i < |entries| ==> entries[i] == entries[1..][i - 1];
      r
  }

  /** The keys of entries, in order. */
  function Keys(entries: seq<AttrEntry>): (r: seq<string>)
    ensures |r| == |entries| && forall i :: 0 <= i < |entries| ==> r[i] == entries[i].key
  {
    seq(|entries|, i requires 0 <= i < |entries| => entries[i].key)
  }

  /**
   * The collected attributes map as a class descriptor's entries, one per
   * key, in increasing key order.
   */
  method EntriesOf(attrs: map<string, AttrInfo>) returns (entries: seq<AttrEntry>)
    ensures UniqueKeys(entries)
    ensures StringOrder.Sorted(Keys(entries))
    ensures |entries| == |attrs|
    ensures forall key :: key in attrs <==> key in Keys(entries)
    ensures forall i :: 0 <= i < |entries| ==> entries[i].key in attrs && entries[i].info == attrs[entries[i].key]
  {
    var keys := StringOrder.SortedElements(attrs.Keys);
    entries := seq(|keys|, i requires 0 <= i < |keys| => AttrEntry(keys[i], attrs[keys[i]]));
    assert Keys(entries) == keys;
    StringOrder.SortedDistinct(keys);
  }

  /**
   * Entries with unique keys behave as the map they list: looking up a key
   * finds its entry's descriptor, and only listed keys are found.
   */
  lemma {:induction false} LookupMatchesEntries(entries: seq<AttrEntry>)
    requires UniqueKeys(entries)
    ensures forall i :: 0 <= i < |entries| ==> Lookup(entries, entries[i].key) == Some(entries[i].info)
    ensures forall key :: key !in Keys(entries) ==> Lookup(entries, key).None?
  {
    forall i | 0 <= i < |entries| ensures Lookup(entries, entries[i].key) == Some(entries[i].info) {
      LookupUnique(entries, i);
    }
  }

  /** In entries with unique keys, the entry at i is the one found under its key. */
  lemma {:induction false} LookupUnique(entries: seq<AttrEntry>, i: nat)
    requires UniqueKeys(entries) && i < |entries|
    ensures Lookup(entries, entries[i].key) == Some(entries[i].info)
  {
    if i > 0 {
      assert entries[1..][i - 1] == entries[i];
      LookupUnique(entries[1..], i - 1);
    }
  }
}
