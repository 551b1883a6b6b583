/**
 * The attribute visitor that turns each attribute of a clustering algorithm
 * into an attribute descriptor and stores it under the attribute's key.
 *
 * The attribute classes' own operations (a constraint's description, the
 * alias mapper, a value's toString, emptiness of an object-array value) are
 * not part of this model; they are supplied as the functions of `Foreign`.
 */
module AttrInfoCollector {
  import opened Wrappers
  import opened DescriptorModel

  /** An attribute: its kind, description, constraints and current value (`None` for null). */
  datatype Attr<V, C> = Attr(kind: AttrKind, description: Option<string>, constraints: seq<C>, value: Option<V>)

  /** Operations of classes outside this model. */
  datatype Foreign<!V, !C> = Foreign(
    describe: C -> string,     // Constraint::description
    toAliasName: V -> Option<string>,  // the alias mapper's toName; None for null
    toString: V -> Option<string>,     // Objects::toString; None for null
    isEmpty: V -> bool         // List.isEmpty on an object-array value
  )

  /** The type name each visit overload supplies. */
  function TypeName(kind: AttrKind): (r: string)
    ensures kind == BooleanAttr ==> r == "Boolean"
    ensures kind == IntegerAttr ==> r == "Integer"
    ensures kind == DoubleAttr ==> r == "Double"
    ensures kind == StringAttr ==> r == "String"
    ensures kind == StringArrayAttr ==> r == "String[]"
    ensures kind.EnumAttr? ==> r == kind.enumClass
    ensures kind.ObjectAttr? ==> r == kind.interfaceClass
    ensures kind.ObjectArrayAttr? ==> r == kind.interfaceClass + "[]"
  {
    match kind
    case BooleanAttr => "Boolean"
    case IntegerAttr => "Integer"
    case DoubleAttr => "Double"
    case StringAttr => "String"
    case EnumAttr(enumClass) => enumClass
    case StringArrayAttr => "String[]"
    case ObjectAttr(interfaceClass) => interfaceClass
    case ObjectArrayAttr(interfaceClass) => interfaceClass + "[]"
  }

  /** s ends with the two characters "[]". */
  predicate EndsWithBrackets(s: string) {
    |s| >= 2 && s[|s| - 2..] == "[]"
  }

  /** A Java class name of an enum or interface never contains '['. */
  predicate PlainClassName(s: string) {
    '[' !in s
  }

  predicate ReferencesPlainClasses(kind: AttrKind) {
    match kind
    case EnumAttr(c) => PlainClassName(c)
    case ObjectAttr(c) => PlainClassName(c)
    case ObjectArrayAttr(c) => PlainClassName(c)
    case _ => true
  }

  /** A type name ends with "[]" exactly for the two array kinds. */
  lemma ArrayTypeNames(kind: AttrKind)
    requires ReferencesPlainClasses(kind)
    ensures EndsWithBrackets(TypeName(kind)) <==> kind == StringArrayAttr || kind.ObjectArrayAttr?
  {
    var r := TypeName(kind);
    if kind.ObjectArrayAttr? {
      assert r[|r| - 2..] == "[]";
    } else if kind.EnumAttr? || kind.ObjectAttr? {
      if |r| >= 2 {
        assert r[|r| - 2..][0] == r[|r| - 2] && r[|r| - 2] in r;
      }
    }
  }

  /** The constraint descriptions in order, or null when there are no constraints. */
  function ConstraintDescriptions<C>(constraints: seq<C>, describe: C -> string): (r: Option<seq<string>>)
    ensures r.None? <==> |constraints| == 0
    ensures r.Some? ==>
      && |r.value| == |constraints|
      && forall i :: 0 <= i < |constraints| ==> r.value[i] == describe(constraints[i])
  {
    if |constraints| == 0 then None
    else Some(seq(|constraints|, i requires 0 <= i < |constraints| => describe(constraints[i])))
  }

  /**
   * The displayed value: null stays null, object values go through the alias
   * mapper, others through toString; a mapper that yields null makes it null too.
   */
  function DisplayValue<V, C>(attr: Attr<V, C>, foreign: Foreign<V, C>): (r: Option<string>)
    ensures r.None? <==>
              (|| attr.value.None?
               || (attr.kind.ObjectAttr? && foreign.toAliasName(attr.value.value).None?)
               || (!attr.kind.ObjectAttr? && foreign.toString(attr.value.value).None?))
    ensures attr.value.Some? && attr.kind.ObjectAttr? ==> r == foreign.toAliasName(attr.value.value)
    ensures attr.value.Some? && !attr.kind.ObjectAttr? ==> r == foreign.toString(attr.value.value)
  {
    match attr.value
    case None => None
    case Some(v) => if attr.kind.ObjectAttr? then foreign.toAliasName(v) else foreign.toString(v)
  }

  /** The descriptor attrInfo builds for an attribute. */
  function AttrInfoOf<V, C>(attr: Attr<V, C>, foreign: Foreign<V, C>): (info: AttrInfo)
    ensures info.kind == attr.kind && info.description == attr.description
    ensures info.typeName == TypeName(attr.kind)
    ensures info.constraints == ConstraintDescriptions(attr.constraints, foreign.describe)
    ensures info.value == DisplayValue(attr, foreign)
    ensures info.id.None? && info.pathJava.None? && info.pathRest.None? && info.implementations.Unset?
  {
    NewAttrInfo(attr.kind, attr.description, TypeName(attr.kind),
                ConstraintDescriptions(attr.constraints, foreign.describe), DisplayValue(attr, foreign))
  }

  /** The exception a visit raises. */
  datatype VisitError = NonEmptyArrayValue(key: string)

  /** The collector's map after a visit, and the exception the visit raised, if any. */
  datatype VisitOutcome = VisitOutcome(attrs: map<string, AttrInfo>, error: Option<VisitError>)

  /**
   * One visit: stores the attribute's descriptor under key, replacing any
   * earlier one, and then fails for an object-array attribute whose value is
   * a non-empty list. The descriptor is stored even when the visit fails.
   */
  function Visit<V, C>(attrs: map<string, AttrInfo>, key: string, attr: Attr<V, C>, foreign: Foreign<V, C>): (r: VisitOutcome)
    ensures key in r.attrs && r.attrs[key] == AttrInfoOf(attr, foreign)
    ensures r.attrs.Keys == attrs.Keys + {key}
    ensures forall k :: k in attrs && k != key ==> k in r.attrs && r.attrs[k] == attrs[k]
    ensures r.error.Some? <==>
      attr.kind.ObjectArrayAttr? && attr.value.Some? && !foreign.isEmpty(attr.value.value)
    ensures r.error.Some? ==> r.error.value == NonEmptyArrayValue(key)
  {
    var updated := attrs[key := AttrInfoOf(attr, foreign)];
    if attr.kind.ObjectArrayAttr? && attr.value.Some? && !foreign.isEmpty(attr.value.value) then
      VisitOutcome(updated, Some(NonEmptyArrayValue(key)))
    else
      VisitOutcome(updated, None)
  }
}
