/**
 * The build-time generator of `GeneratedWebSite`: one public abstract class,
 * extending `WebSite`, with one public field per web page, web repository and
 * other element handed to it, where only the fields of the other elements get
 * the element's `@FindBys` and `@FindBy` locators copied onto them.
 */
module Generator {
  import opened CodeModel

  /** Fully qualified name of the class the builder defines. */
  const GeneratedWebSiteName := "com.github.webdriverextensions.generator.GeneratedWebSite"

  /** Fully qualified name of the base class it extends. */
  const WebSiteName := "com.github.webdriverextensions.WebSite"

  /**
   * An element of the processed program. `fieldName` is the name the
   * generator derives for it; `findBy` and `findBys` are the locator
   * annotations found on it, `None` when it has none. How the name is derived
   * and how annotations are read is outside this model.
   */
  datatype Element = Element(
    qualifiedName: string,
    fieldName: string,
    findBy: Option<FindBy>,
    findBys: Option<FindBys>)

  /** The checked exceptions `build` catches. */
  datatype Failure = ClassAlreadyExists | IOFailure

  datatype Outcome = Pass | Fail(failure: Failure)

  /** The derived field names of a list of elements, in order. */
  function ElementNames(es: seq<Element>): (r: seq<string>)
    ensures |r| == |es|
    ensures forall i :: 0 <= i < |es| ==> r[i] == es[i].fieldName
  {
    if es == [] then [] else ElementNames(es[..|es| - 1]) + [es[|es| - 1].fieldName]
  }

  /** The class as `createClass` defines it, holding the given fields. */
  function GeneratedWebSite(fields: seq<Field>): DefinedClass
  {
    DefinedClass(GeneratedWebSiteName, {Public, Abstract}, Class, WebSiteName, fields)
  }

  /** The shape fixed at class creation: name, modifiers, kind and base class. */
  predicate IsGeneratedWebSite(c: DefinedClass)
  {
    c.name == GeneratedWebSiteName && c.mods == {Public, Abstract} &&
    c.kind == Class && c.superclass == WebSiteName
  }

  /**
   * The annotations an other element's field receives, in the order they are
   * attached: its `@FindBys` first, then its `@FindBy`.
   */
  function CopiedAnnotations(e: Element): (r: seq<Annotation>)
    ensures FindBysOf(r) == e.findBys
    ensures FindByOf(r) == e.findBy
    ensures |r| == (if e.findBys.Some? then 1 else 0) + (if e.findBy.Some? then 1 else 0)
    ensures e.findBys.Some? ==> r[0].FindBysAnnotation?
  {
    (if e.findBys.Some? then [FindBysAnnotation(e.findBys.value)] else []) +
    (if e.findBy.Some? then [FindByAnnotation(e.findBy.value)] else [])
  }

  /**
   * The field declared for one element: public, typed by the element's
   * qualified name, named by its derived name; locators are copied only when
   * `copyLocators` holds, that is, for other elements.
   */
  function FieldFor(e: Element, copyLocators: bool): Field
  {
    Field({Public}, e.qualifiedName, e.fieldName, if copyLocators then CopiedAnnotations(e) else [])
  }

  /**
   * Whichever group an element is in, its field is public, typed by the
   * element's qualified name and named by its derived name; it carries
   * `@FindBys` and `@FindBy` exactly when locators are copied and the
   * element has them, with the element's own values.
   */
  lemma FieldForShape(e: Element, copyLocators: bool)
    ensures var f := FieldFor(e, copyLocators);
      f.mods == {Public} && f.typeName == e.qualifiedName && f.name == e.fieldName &&
      FindBysOf(f.annotations) == (if copyLocators then e.findBys else None) &&
      FindByOf(f.annotations) == (if copyLocators then e.findBy else None)
  {
  }

  /** The fields declared for a group of elements, one per element, in order. */
  function FieldsFor(es: seq<Element>, copyLocators: bool): (r: seq<Field>)
    ensures |r| == |es|
  {
    if es == [] then []
    else FieldsFor(es[..|es| - 1], copyLocators) + [FieldFor(es[|es| - 1], copyLocators)]
  }

  /** Declaring the fields of one more element of a group appends that element's field. */
  lemma FieldsForSnoc(es: seq<Element>, i: nat, copyLocators: bool)
    requires i < |es|
    ensures FieldsFor(es[..i + 1], copyLocators) == FieldsFor(es[..i], copyLocators) + [FieldFor(es[i], copyLocators)]
  {
    assert es[..i + 1][..i] == es[..i];
  }

  /** The field at position `i` of a group's fields is the field of the group's element `i`. */
  lemma {:induction false} FieldsForAt(es: seq<Element>, copyLocators: bool, i: nat)
    requires i < |es|
    ensures FieldsFor(es, copyLocators)[i] == FieldFor(es[i], copyLocators)
  {
    if i < |es| - 1 {
      FieldsForAt(es[..|es| - 1], copyLocators, i);
    }
  }

  /**
   * All fields `createFields` declares: the page fields, then the repository
   * fields, then the other fields.
   */
  function GeneratedFields(pages: seq<Element>, repositories: seq<Element>, others: seq<Element>): (r: seq<Field>)
    ensures |r| == |pages| + |repositories| + |others|
  {
    FieldsFor(pages, false) + FieldsFor(repositories, false) + FieldsFor(others, true)
  }

  /** The names of fields declared after existing ones are the existing names followed by the elements' derived names. */
  lemma FieldNamesAfterDeclaring(fs: seq<Field>, es: seq<Element>, copyLocators: bool)
    ensures FieldNames(fs + FieldsFor(es, copyLocators)) == FieldNames(fs) + ElementNames(es)
  {
    var all := fs + FieldsFor(es, copyLocators);
    forall i | |fs| <= i < |all|
      ensures FieldNames(all)[i] == (FieldNames(fs) + ElementNames(es))[i]
    {
      FieldsForAt(es, copyLocators, i - |fs|);
    }
  }

  /** Derived names of concatenated groups are the concatenated derived names. */
  lemma ElementNamesAppend(a: seq<Element>, b: seq<Element>)
    ensures ElementNames(a + b) == ElementNames(a) + ElementNames(b)
  {
  }

  /** A prefix of a list without repeated names has no repeated names either. */
  lemma DistinctPrefix(s: seq<string>, t: seq<string>)
    requires Distinct(s + t)
    ensures Distinct(s)
  {
    forall i, j | 0 <= i < j < |s|
      ensures s[i] != s[j]
    {
      assert (s + t)[i] == s[i] && (s + t)[j] == s[j];
    }
  }

  /**
   * When the existing names and all derived names are distinct, each group
   * in turn meets that condition against the fields declared before it.
   */
  lemma GroupNamesAreNew(fs: seq<Field>, pages: seq<Element>, repositories: seq<Element>, others: seq<Element>)
    requires Distinct(FieldNames(fs) + ElementNames(pages + repositories + others))
    ensures Distinct(FieldNames(fs) + ElementNames(pages))
    ensures Distinct(FieldNames(fs + FieldsFor(pages, false)) + ElementNames(repositories))
    ensures Distinct(FieldNames(fs + FieldsFor(pages, false) + FieldsFor(repositories, false)) + ElementNames(others))
  {
    var existing := FieldNames(fs);
    var pageNames := ElementNames(pages);
    var repositoryNames := ElementNames(repositories);
    ElementNamesAppend(pages, repositories);
    ElementNamesAppend(pages + repositories, others);
    assert existing + ElementNames(pages + repositories + others)
        == existing + pageNames + repositoryNames + ElementNames(others);
    DistinctPrefix(existing + pageNames + repositoryNames, ElementNames(others));
    DistinctPrefix(existing + pageNames, repositoryNames);
    FieldNamesAfterDeclaring(fs, pages, false);
    FieldNamesAfterDeclaring(fs + FieldsFor(pages, false), repositories, false);
  }

  /**
   * When the existing names and a group's derived names are all distinct,
   * each element's name is new when its field is declared: it differs from
   * the existing fields and from the fields of the elements before it.
   */
  lemma NameIsNew(fs: seq<Field>, es: seq<Element>, copyLocators: bool, i: nat)
    requires i < |es|
    requires Distinct(FieldNames(fs) + ElementNames(es))
    ensures es[i].fieldName !in FieldNames(fs + FieldsFor(es[..i], copyLocators))
  {
    var names := FieldNames(fs) + ElementNames(es);
    FieldNamesAfterDeclaring(fs, es[..i], copyLocators);
    var before := FieldNames(fs + FieldsFor(es[..i], copyLocators));
    assert names[|fs| + i] == es[i].fieldName;
    forall j | 0 <= j < |before|
      ensures before[j] != es[i].fieldName
    {
      assert before[j] == names[j];
    }
  }

  /**
   * Field `i` of the generated class comes from page `i` when there are more
   * than `i` pages, else from the next repository, else from the next other
   * element; only the last kind copies locators.
   */
  lemma GeneratedFieldAt(pages: seq<Element>, repositories: seq<Element>, others: seq<Element>, i: nat)
    requires i < |pages| + |repositories| + |others|
    ensures GeneratedFields(pages, repositories, others)[i] ==
      if i < |pages| then FieldFor(pages[i], false)
      else if i < |pages| + |repositories| then FieldFor(repositories[i - |pages|], false)
      else FieldFor(others[i - |pages| - |repositories|], true)
  {
    if i < |pages| {
      FieldsForAt(pages, false, i);
    } else if i < |pages| + |repositories| {
      FieldsForAt(repositories, false, i - |pages|);
    } else {
      FieldsForAt(others, true, i - |pages| - |repositories|);
    }
  }

  /**
   * Locator policy: no page or repository field carries a locator; each other
   * field carries `@FindBys` exactly when its element has one and `@FindBy`
   * exactly when its element has one, with the element's own values.
   */
  lemma LocatorPolicy(pages: seq<Element>, repositories: seq<Element>, others: seq<Element>)
    ensures var fs := GeneratedFields(pages, repositories, others);
      forall i :: 0 <= i < |pages| + |repositories| ==>
        FindBysOf(fs[i].annotations) == None && FindByOf(fs[i].annotations) == None
    ensures var fs := GeneratedFields(pages, repositories, others);
      forall i :: 0 <= i < |others| ==>
        FindBysOf(fs[|pages| + |repositories| + i].annotations) == others[i].findBys &&
        FindByOf(fs[|pages| + |repositories| + i].annotations) == others[i].findBy
  {
    var fs := GeneratedFields(pages, repositories, others);
    forall i | 0 <= i < |pages| + |repositories|
      ensures FindBysOf(fs[i].annotations) == None && FindByOf(fs[i].annotations) == None
    {
      GeneratedFieldAt(pages, repositories, others, i);
    }
    forall i | 0 <= i < |others|
      ensures FindBysOf(fs[|pages| + |repositories| + i].annotations) == others[i].findBys
      ensures FindByOf(fs[|pages| + |repositories| + i].annotations) == others[i].findBy
    {
      GeneratedFieldAt(pages, repositories, others, |pages| + |repositories| + i);
      FieldForShape(others[i], true);
    }
  }

  /**
   * The generated fields are named, in order, by the derived names of the
   * pages, then the repositories, then the other elements, and typed by
   * their qualified names.
   */
  lemma GeneratedFieldNames(pages: seq<Element>, repositories: seq<Element>, others: seq<Element>)
    ensures FieldNames(GeneratedFields(pages, repositories, others)) == ElementNames(pages + repositories + others)
    ensures var fs := GeneratedFields(pages, repositories, others);
      var es := pages + repositories + others;
      forall i :: 0 <= i < |es| ==> fs[i].typeName == es[i].qualifiedName && fs[i].mods == {Public}
  {
    var fs := GeneratedFields(pages, repositories, others);
    var es := pages + repositories + others;
    forall i | 0 <= i < |es|
      ensures FieldNames(fs)[i] == ElementNames(es)[i]
      ensures fs[i].typeName == es[i].qualifiedName && fs[i].mods == {Public}
    {
      GeneratedFieldAt(pages, repositories, others, i);
    }
  }

  /**
   * No generated field shadows another exactly when no two input elements
   * derive the same field name.
   */
  lemma NoFieldShadowed(pages: seq<Element>, repositories: seq<Element>, others: seq<Element>)
    ensures Distinct(FieldNames(GeneratedFields(pages, repositories, others)))
        <==> Distinct(ElementNames(pages + repositories + others))
  {
    GeneratedFieldNames(pages, repositories, others);
  }

  /**
   * The builder. The three element groups are fixed at construction;
   * `codeModel` holds the classes defined so far and `generatedWebSiteClass`
   * the name under which `createClass` defined the generated class. `emitted`
   * records every code model handed to the code writer, and
   * `failureReported` whether a failure has been reported to the processing
   * environment.
   */
  class WebSiteBuilder {
    const webPageElements: seq<Element>
    const webRepositoryElements: seq<Element>
    const otherElements: seq<Element>
    var codeModel: Model
    var generatedWebSiteClass: Option<string>
    var emitted: seq<Model>
    var failureReported: bool

    /** The generated class is in the code model exactly when `createClass` has defined it, and keeps its shape. */
    ghost predicate Valid()
      reads this
    {
      (GeneratedWebSiteName in codeModel <==> generatedWebSiteClass == Some(GeneratedWebSiteName)) &&
      (generatedWebSiteClass.Some? ==> generatedWebSiteClass == Some(GeneratedWebSiteName)) &&
      (GeneratedWebSiteName in codeModel ==> IsGeneratedWebSite(codeModel[GeneratedWebSiteName]))
    }

    /** All derived field names of the builder's elements, pages first. */
    function AllElementNames(): (r: seq<string>)
      reads this
      ensures |r| == |webPageElements| + |webRepositoryElements| + |otherElements|
    {
      ElementNames(webPageElements + webRepositoryElements + otherElements)
    }

    constructor (pages: seq<Element>, repositories: seq<Element>, others: seq<Element>)
      ensures Valid()
      ensures webPageElements == pages && webRepositoryElements == repositories && otherElements == others
      ensures codeModel == map[] && generatedWebSiteClass == None
      ensures emitted == [] && !failureReported
    {
      webPageElements := pages;
      webRepositoryElements := repositories;
      otherElements := others;
      codeModel := map[];
      generatedWebSiteClass := None;
      emitted := [];
      failureReported := false;
    }

    /**
     * Defines the public abstract class `GeneratedWebSite` extending
     * `WebSite`; fails with `ClassAlreadyExists`, changing nothing, when the
     * code model already holds a class of that name.
     */
    method CreateClass() returns (r: Outcome)
      requires Valid()
      modifies this
      ensures Valid()
      ensures r == (if GeneratedWebSiteName in old(codeModel) then Fail(ClassAlreadyExists) else Pass)
      ensures r.Pass? ==>
        codeModel == old(codeModel)[GeneratedWebSiteName := GeneratedWebSite([])] &&
        generatedWebSiteClass == Some(GeneratedWebSiteName)
      ensures r.Fail? ==> codeModel == old(codeModel) && generatedWebSiteClass == old(generatedWebSiteClass)
      ensures emitted == old(emitted) && failureReported == old(failureReported)
    {
      if GeneratedWebSiteName in codeModel {
        return Fail(ClassAlreadyExists);
      }
      codeModel := codeModel[GeneratedWebSiteName := DefinedClass(GeneratedWebSiteName, {Public, Abstract}, Class, ObjectName, [])];
      generatedWebSiteClass := Some(GeneratedWebSiteName);
      var c := codeModel[GeneratedWebSiteName];
      codeModel := codeModel[GeneratedWebSiteName := c.(superclass := WebSiteName)];
      r := Pass;
    }

    /**
     * Appends a public field without annotations to the generated class and
     * returns its position. The code model does not take a second field of an
     * existing name, so the name must be new.
     */
    method AddField(typeName: string, name: string) returns (index: nat)
      requires Valid() && generatedWebSiteClass == Some(GeneratedWebSiteName)
      requires name !in FieldNames(codeModel[GeneratedWebSiteName].fields)
      modifies this
      ensures Valid() && generatedWebSiteClass == old(generatedWebSiteClass)
      ensures var c := old(codeModel)[GeneratedWebSiteName];
        codeModel == old(codeModel)[GeneratedWebSiteName := c.(fields := c.fields + [Field({Public}, typeName, name, [])])]
      ensures index == |old(codeModel)[GeneratedWebSiteName].fields|
      ensures emitted == old(emitted) && failureReported == old(failureReported)
    {
      var c := codeModel[GeneratedWebSiteName];
      index := |c.fields|;
      codeModel := codeModel[GeneratedWebSiteName := c.(fields := c.fields + [Field({Public}, typeName, name, [])])];
    }

    /** Attaches an annotation, after those already there, to the field at `index` of the generated class. */
    method Annotate(index: nat, a: Annotation)
      requires Valid() && generatedWebSiteClass == Some(GeneratedWebSiteName)
      requires index < |codeModel[GeneratedWebSiteName].fields|
      modifies this
      ensures Valid() && generatedWebSiteClass == old(generatedWebSiteClass)
      ensures var c := old(codeModel)[GeneratedWebSiteName];
        var f := c.fields[index];
        codeModel == old(codeModel)[GeneratedWebSiteName :=
          c.(fields := c.fields[index := f.(annotations := f.annotations + [a])])]
      ensures emitted == old(emitted) && failureReported == old(failureReported)
    {
      var c := codeModel[GeneratedWebSiteName];
      var f := c.fields[index];
      codeModel := codeModel[GeneratedWebSiteName := c.(fields := c.fields[index := f.(annotations := f.annotations + [a])])];
    }

    /**
     * Declares the field of one other element and copies the element's
     * `@FindBys`, then its `@FindBy`, onto it.
     */
    method DeclareOtherField(e: Element)
      requires Valid() && generatedWebSiteClass == Some(GeneratedWebSiteName)
      requires e.fieldName !in FieldNames(codeModel[GeneratedWebSiteName].fields)
      modifies this
      ensures Valid() && generatedWebSiteClass == old(generatedWebSiteClass)
      ensures var c := old(codeModel)[GeneratedWebSiteName];
        codeModel == old(codeModel)[GeneratedWebSiteName := c.(fields := c.fields + [FieldFor(e, true)])]
      ensures emitted == old(emitted) && failureReported == old(failureReported)
    {
      ghost var c := codeModel[GeneratedWebSiteName];
      var field := AddField(e.qualifiedName, e.fieldName);
      ghost var anns: seq<Annotation> := [];
      if e.findBys.Some? {
        Annotate(field, FindBysAnnotation(e.findBys.value));
        anns := anns + [FindBysAnnotation(e.findBys.value)];
        assert codeModel[GeneratedWebSiteName].fields == c.fields + [Field({Public}, e.qualifiedName, e.fieldName, anns)];
      }
      if e.findBy.Some? {
        Annotate(field, FindByAnnotation(e.findBy.value));
        anns := anns + [FindByAnnotation(e.findBy.value)];
        assert codeModel[GeneratedWebSiteName].fields == c.fields + [Field({Public}, e.qualifiedName, e.fieldName, anns)];
      }
      assert anns == CopiedAnnotations(e);
    }

    /**
     * Declares one public field per element of a page or repository group, in
     * order, with no annotation.
     */
    method DeclareFields(es: seq<Element>)
      requires Valid() && generatedWebSiteClass == Some(GeneratedWebSiteName)
      requires Distinct(FieldNames(codeModel[GeneratedWebSiteName].fields) + ElementNames(es))
      modifies this
      ensures Valid() && generatedWebSiteClass == old(generatedWebSiteClass)
      ensures var c := old(codeModel)[GeneratedWebSiteName];
        codeModel == old(codeModel)[GeneratedWebSiteName := c.(fields := c.fields + FieldsFor(es, false))]
      ensures emitted == old(emitted) && failureReported == old(failureReported)
    {
      ghost var c := codeModel[GeneratedWebSiteName];
      ghost var base := codeModel;
      assert c.(fields := c.fields + FieldsFor(es[..0], false)) == c;
      for i := 0 to |es|
        invariant generatedWebSiteClass == Some(GeneratedWebSiteName)
        invariant codeModel == base[GeneratedWebSiteName := c.(fields := c.fields + FieldsFor(es[..i], false))]
        invariant emitted == old(emitted) && failureReported == old(failureReported)
      {
        var e := es[i];
        NameIsNew(c.fields, es, false, i);
        var _ := AddField(e.qualifiedName, e.fieldName);
        FieldsForSnoc(es, i, false);
        assert FieldFor(e, false) == Field({Public}, e.qualifiedName, e.fieldName, []);
        assert c.fields + FieldsFor(es[..i + 1], false) == c.fields + FieldsFor(es[..i], false) + [FieldFor(e, false)];
      }
      assert es[..|es|] == es;
    }

    /**
     * Declares one public field per other element, in order, copying each
     * element's `@FindBys` and `@FindBy` onto its field.
     */
    method DeclareAnnotatedFields(es: seq<Element>)
      requires Valid() && generatedWebSiteClass == Some(GeneratedWebSiteName)
      requires Distinct(FieldNames(codeModel[GeneratedWebSiteName].fields) + ElementNames(es))
      modifies this
      ensures Valid() && generatedWebSiteClass == old(generatedWebSiteClass)
      ensures var c := old(codeModel)[GeneratedWebSiteName];
        codeModel == old(codeModel)[GeneratedWebSiteName := c.(fields := c.fields + FieldsFor(es, true))]
      ensures emitted == old(emitted) && failureReported == old(failureReported)
    {
      ghost var c := codeModel[GeneratedWebSiteName];
      ghost var base := codeModel;
      assert c.(fields := c.fields + FieldsFor(es[..0], true)) == c;
      for i := 0 to |es|
        invariant generatedWebSiteClass == Some(GeneratedWebSiteName)
        invariant codeModel == base[GeneratedWebSiteName := c.(fields := c.fields + FieldsFor(es[..i], true))]
        invariant emitted == old(emitted) && failureReported == old(failureReported)
      {
        var e := es[i];
        NameIsNew(c.fields, es, true, i);
        DeclareOtherField(e);
        FieldsForSnoc(es, i, true);
        assert c.fields + FieldsFor(es[..i + 1], true) == c.fields + FieldsFor(es[..i], true) + [FieldFor(e, true)];
      }
      assert es[..|es|] == es;
    }

    /**
     * Declares one public field per page, then per repository, then per other
     * element, copying only the other elements' locators; nothing else about
     * the class changes. The code model does not take two fields of one
     * name, so the derived names must be new and distinct.
     */
    method CreateFields()
      requires Valid() && generatedWebSiteClass == Some(GeneratedWebSiteName)
      requires Distinct(FieldNames(codeModel[GeneratedWebSiteName].fields) + AllElementNames())
      modifies this
      ensures Valid() && generatedWebSiteClass == old(generatedWebSiteClass)
      ensures var c := old(codeModel)[GeneratedWebSiteName];
        codeModel == old(codeModel)[GeneratedWebSiteName := c.(fields := c.fields +
          GeneratedFields(webPageElements, webRepositoryElements, otherElements))]
      ensures emitted == old(emitted) && failureReported == old(failureReported)
    {
      ghost var c := codeModel[GeneratedWebSiteName];
      GroupNamesAreNew(c.fields, webPageElements, webRepositoryElements, otherElements);
      DeclareFields(webPageElements);
      DeclareFields(webRepositoryElements);
      DeclareAnnotatedFields(otherElements);
      assert c.fields + FieldsFor(webPageElements, false) + FieldsFor(webRepositoryElements, false) + FieldsFor(otherElements, true)
          == c.fields + GeneratedFields(webPageElements, webRepositoryElements, otherElements);
    }

    /**
     * Hands the code model to the code writer; `emit` says whether writing
     * completes or fails with an I/O error.
     */
    method Generate(emit: Model -> bool) returns (r: Outcome)
      modifies this
      ensures r == (if emit(codeModel) then Pass else Fail(IOFailure))
      ensures emitted == old(emitted) + [codeModel]
      ensures codeModel == old(codeModel) && generatedWebSiteClass == old(generatedWebSiteClass)
      ensures failureReported == old(failureReported)
    {
      emitted := emitted + [codeModel];
      r := if emit(codeModel) then Pass else Fail(IOFailure);
    }

    /**
     * Creates the class, declares its fields and emits it, in that order;
     * a class conflict or an I/O failure is reported and yields false, and a
     * class conflict stops the run before any field is declared or anything
     * is emitted.
     */
    method Build(emit: Model -> bool) returns (ok: bool)
      requires Valid()
      requires GeneratedWebSiteName !in codeModel ==> Distinct(AllElementNames())
      modifies this
      ensures Valid()
      ensures ok <==> GeneratedWebSiteName !in old(codeModel) && emit(codeModel)
      ensures GeneratedWebSiteName in old(codeModel) ==>
        codeModel == old(codeModel) && generatedWebSiteClass == old(generatedWebSiteClass) && emitted == old(emitted)
      ensures GeneratedWebSiteName !in old(codeModel) ==>
        codeModel == old(codeModel)[GeneratedWebSiteName :=
          GeneratedWebSite(GeneratedFields(webPageElements, webRepositoryElements, otherElements))] &&
        generatedWebSiteClass == Some(GeneratedWebSiteName) &&
        emitted == old(emitted) + [codeModel]
      ensures failureReported == (old(failureReported) || !ok)
    {
      var r := CreateClass();
      if r.Pass? {
        assert FieldNames([]) == [];
        assert FieldNames(codeModel[GeneratedWebSiteName].fields) + AllElementNames() == AllElementNames();
        CreateFields();
        assert [] + GeneratedFields(webPageElements, webRepositoryElements, otherElements)
            == GeneratedFields(webPageElements, webRepositoryElements, otherElements);
        r := Generate(emit);
      }
      ok := r.Pass?;
      if !ok {
        failureReported := true;
      }
    }
  }

  /**
   * One generation run as the annotation processor performs it: a new builder
   * over the three element groups, then `build`. A new builder's code model
   * is empty, so the run cannot meet a class conflict; it succeeds exactly
   * when emission succeeds, and the code model then holds the generated
   * class alone.
   */
  method GenerateWebSite(pages: seq<Element>, repositories: seq<Element>, others: seq<Element>, emit: Model -> bool)
    returns (ok: bool, model: Model)
    requires Distinct(ElementNames(pages + repositories + others))
    ensures model == map[GeneratedWebSiteName := GeneratedWebSite(GeneratedFields(pages, repositories, others))]
    ensures ok == emit(model)
  {
    var builder := new WebSiteBuilder(pages, repositories, others);
    ok := builder.Build(emit);
    model := builder.codeModel;
  }
}
