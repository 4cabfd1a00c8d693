/**
 * A plain-value stand-in for the parts of the code-model library that the
 * site generator uses: a code model is a map from fully qualified class name
 * to the class defined under that name; a defined class has modifiers, a kind,
 * a base type and an insertion-ordered list of fields; a field may carry
 * locator annotations copied from an element of the program being processed.
 */
module CodeModel {

  datatype Option<+T> = None | Some(value: T)

  /** Java access and class modifiers (the `JMod` flags) as a set instead of a bit mask. */
  datatype Modifier = Public | Abstract

  /** The `ClassType` argument of class creation. */
  datatype ClassKind = Class

  /**
   * A `@FindBy` locator annotation, kept as its list of member-value pairs.
   * How the pairs are read off an element and written back is not part of
   * this model; only that the copy carries the same values.
   */
  datatype FindBy = FindBy(members: seq<(string, string)>)

  /** A `@FindBys` annotation: an ordered list of `@FindBy` locators. */
  datatype FindBys = FindBys(value: seq<FindBy>)

  /** An annotation attached to a generated field. */
  datatype Annotation = FindByAnnotation(findBy: FindBy) | FindBysAnnotation(findBys: FindBys)

  /** A field of a defined class: modifiers, the referenced type's name, its name and its annotations in the order they were attached. */
  datatype Field = Field(mods: set<Modifier>, typeName: string, name: string, annotations: seq<Annotation>)

  /** A class defined in the code model. */
  datatype DefinedClass = DefinedClass(
    name: string,
    mods: set<Modifier>,
    kind: ClassKind,
    superclass: string,
    fields: seq<Field>)

  /** The base class of a newly defined class until another one is set. */
  const ObjectName := "java.lang.Object"

  /** The code model: every class defined so far, by fully qualified name. */
  type Model = map<string, DefinedClass>

  /** The first `@FindBy` among the annotations, if any. */
  function FindByOf(anns: seq<Annotation>): (r: Option<FindBy>)
    ensures r.Some? <==> exists i :: 0 <= i < |anns| && anns[i].FindByAnnotation?
  {
    if anns == [] then None
    else if anns[0].FindByAnnotation? then Some(anns[0].findBy)
    else
      var r := FindByOf(anns[1..]);
      assert forall i :: 1 <= i < |anns| ==> anns[i] == anns[1..][i - 1];
      r
  }

  /** The first `@FindBys` among the annotations, if any. */
  function FindBysOf(anns: seq<Annotation>): (r: Option<FindBys>)
    ensures r.Some? <==> exists i :: 0 <= i < |anns| && anns[i].FindBysAnnotation?
  {
    if anns == [] then None
    else if anns[0].FindBysAnnotation? then Some(anns[0].findBys)
    else
      var r := FindBysOf(anns[1..]);
      assert forall i :: 1 <= i < |anns| ==> anns[i] == anns[1..][i - 1];
      r
  }

  /** The names of a list of fields, in order. */
  function FieldNames(fs: seq<Field>): (r: seq<string>)
    ensures |r| == |fs|
    ensures forall i :: 0 <= i < |fs| ==> r[i] == fs[i].name
  {
    if fs == [] then [] else FieldNames(fs[..|fs| - 1]) + [fs[|fs| - 1].name]
  }

  /** No name occurs twice. */
  predicate Distinct(names: seq<string>)
  {
    forall i, j :: 0 <= i < j < |names| ==> names[i] != names[j]
  }
}
