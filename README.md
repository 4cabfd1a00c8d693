# GeneratedWebSite builder — a Dafny model

This project models `WebSiteBuilder`, the build-time source generator of
webdriverextensions. Given the web page elements, the web repository elements
and the other elements that the annotation processor found, `build()`:

1. defines one class, `com.github.webdriverextensions.generator.GeneratedWebSite`,
   that is public, abstract and extends `com.github.webdriverextensions.WebSite`;
2. declares one public field per element: the page fields first, then the
   repository fields, then the other fields; each is typed by the element's
   qualified name and named by the element's derived field name, and only the
   fields of the other elements get the element's `@FindBys` and `@FindBy`
   annotations copied onto them (`@FindBys` first);
3. hands the code model to the code writer;

and it returns `false`, after reporting the failure, when step 1 meets a class
of the same name or step 3 fails with an I/O error.

Two modules:

- `CodeModel` (`code_model.dfy`) replaces the code-model library with values: a
  code model is a `map` from fully qualified class name to a `DefinedClass`
  (name, modifiers, kind, base class, insertion-ordered fields); a `Field`
  carries its annotations in the order they were attached. `FindByOf` and
  `FindBysOf` read a field's first `@FindBy` / `@FindBys` back.
- `Generator` (`web_site_builder.dfy`) holds the class `WebSiteBuilder`. Its
  fields are the three element groups, the code model, `generatedWebSiteClass`
  (the name under which the generated class sits in the code model, so every
  update goes through the map as the library's in-place update would),
  `emitted` (each code model handed to the writer) and `failureReported`.
  `Valid()` is its invariant: the generated class is in the code model exactly
  when `createClass` has defined it, and it keeps the shape `createClass` gave
  it. The specification functions `FieldFor`, `FieldsFor` and
  `GeneratedFields` say which fields a run declares; the methods are proved
  against them and the lemmas state what those fields are.

The element descriptor `Element` carries what the helper functions of
`GeneratorUtils` report about an element: its derived field name and its
`@FindBy` / `@FindBys` annotations (or `None`). `GeneratorUtils` is not part of
this model, so how a name is derived and how annotations are read and written
are left open; only equality of the copied values is stated. The code writer is
the parameter `emit`: a function from the finished code model to whether
writing it completes.

`createFields` is one method with three loops in the source; here
`CreateFields` calls `DeclareFields` for the page group and for the repository
group (the source's first two loops have the same body) and
`DeclareAnnotatedFields` for the other group, each with one loop.

## Model

| member | source | states |
|---|---|---|
| `Generator.WebSiteBuilder.constructor` | src/main/java/com/github/webdriverextensions/internal/generator/WebSiteBuilder.java:38-45 | keeps the three element groups and starts from an empty code model, with no generated class, nothing emitted and no failure reported |
| `Generator.WebSiteBuilder.CreateClass` | src/main/java/com/github/webdriverextensions/internal/generator/WebSiteBuilder.java:62-65 | fails with `ClassAlreadyExists` and changes nothing exactly when the code model already holds `GeneratedWebSite`; otherwise adds exactly that one class, public and abstract, extending `WebSite`, with no fields, and records it as the generated class |
| `Generator.WebSiteBuilder.AddField` | src/main/java/com/github/webdriverextensions/internal/generator/WebSiteBuilder.java:70-71 | given a name the class does not have yet, appends one public field of the given type and name, without annotations, to the generated class and returns its position; no other class changes |
| `Generator.WebSiteBuilder.Annotate` | src/main/java/com/github/webdriverextensions/internal/generator/WebSiteBuilder.java:84-89 | attaches one annotation, after the existing ones, to the given field of the generated class and changes nothing else |
| `Generator.WebSiteBuilder.DeclareFields` | src/main/java/com/github/webdriverextensions/internal/generator/WebSiteBuilder.java:68-78 | given derived names that are distinct and new to the class, appends `FieldsFor(es, false)`: one annotation-free public field per page (or repository) element, in order |
| `Generator.WebSiteBuilder.DeclareOtherField` | src/main/java/com/github/webdriverextensions/internal/generator/WebSiteBuilder.java:82-89 | given a derived name new to the class, appends the field of one other element carrying its `@FindBys` then its `@FindBy`, each only when present |
| `Generator.WebSiteBuilder.DeclareAnnotatedFields` | src/main/java/com/github/webdriverextensions/internal/generator/WebSiteBuilder.java:80-90 | given derived names that are distinct and new to the class, appends `FieldsFor(es, true)`: one public field per other element, in order, with its locators copied |
| `Generator.WebSiteBuilder.CreateFields` | src/main/java/com/github/webdriverextensions/internal/generator/WebSiteBuilder.java:67-91 | the generated class's fields become its old fields followed by `GeneratedFields(pages, repositories, others)`; its name, modifiers and base class, and every other class, stay as they were |
| `Generator.WebSiteBuilder.Generate` | src/main/java/com/github/webdriverextensions/internal/generator/WebSiteBuilder.java:93-96 | hands the current code model to the writer (recorded in `emitted`) and fails with `IOFailure` exactly when the writer does; the code model is unchanged |
| `Generator.WebSiteBuilder.Build` | src/main/java/com/github/webdriverextensions/internal/generator/WebSiteBuilder.java:47-60 | returns true iff no `GeneratedWebSite` existed and emission succeeded; on a class conflict nothing is declared or emitted; otherwise the code model gains exactly the generated class with all generated fields and that model is emitted once; a failure is reported when the result is false, otherwise the failure flag is unchanged |
| `Generator.GenerateWebSite` | src/main/java/com/github/webdriverextensions/internal/generator/WebSiteBuilder.java:38-59 | a run on a new builder cannot meet a class conflict: the code model ends holding the generated class alone, and the run succeeds exactly when the writer does |
| `Generator.CopiedAnnotations` | src/main/java/com/github/webdriverextensions/internal/generator/WebSiteBuilder.java:84-89 | the copied annotations hold `@FindBys` iff the element has it and `@FindBy` iff the element has it, with the element's values, nothing else, `@FindBys` first |
| `Generator.FieldForShape` | src/main/java/com/github/webdriverextensions/internal/generator/WebSiteBuilder.java:69-90 | whatever its group, an element's field is public, typed by its qualified name and named by its derived name; it carries locators only when they are copied, and then exactly the element's |
| `Generator.FieldsFor` | src/main/java/com/github/webdriverextensions/internal/generator/WebSiteBuilder.java:69-90 | a group yields exactly one field per element |
| `Generator.FieldsForAt` | src/main/java/com/github/webdriverextensions/internal/generator/WebSiteBuilder.java:69-90 | the group's field at position `i` is the field of its element `i` (order kept) |
| `Generator.GeneratedFields` | src/main/java/com/github/webdriverextensions/internal/generator/WebSiteBuilder.java:67-91 | the number of fields declared is the number of pages plus repositories plus other elements |
| `Generator.GeneratedFieldAt` | src/main/java/com/github/webdriverextensions/internal/generator/WebSiteBuilder.java:67-91 | all page fields come first, then all repository fields, then all other fields, each group in its own order |
| `Generator.LocatorPolicy` | src/main/java/com/github/webdriverextensions/internal/generator/WebSiteBuilder.java:69-90 | no page or repository field carries `@FindBy` or `@FindBys`; each other field carries `@FindBys` iff its element has one and `@FindBy` iff its element has one, with equal values |
| `Generator.GeneratedFieldNames` | src/main/java/com/github/webdriverextensions/internal/generator/WebSiteBuilder.java:69-83 | the field names are the elements' derived names in page, repository, other order, and each field is public and typed by its element's qualified name |
| `Generator.NoFieldShadowed` | src/main/java/com/github/webdriverextensions/internal/generator/WebSiteBuilder.java:67-91 | the generated class has no two fields of one name iff no two elements derive the same field name |

## Left out

- The three element groups are Java `Set`s whose iteration order is unspecified; the model takes each as a sequence, that is, one iteration order, and its results hold for every order.
- Duplicate derived field names: what the code-model library does when a class gets a second field of an existing name is library behaviour not part of this model. `AddField` and `DeclareOtherField` therefore require the new name to be absent from the class, and `DeclareFields`, `DeclareAnnotatedFields`, `CreateFields` and `GenerateWebSite` require the derived names to be distinct and new to the class; `Build` requires this only when the class can be created, since a class conflict ends the run before any field is declared. The source does not detect such a collision itself, so the model reports no error for it either.
- `generate()` renders the code model to source files through `ProcessingEnvironmentCodeWriter`; the rendering and the filer are not part of this model. Emission is the parameter `emit`, which only decides success or I/O failure; a writer that fails part-way may already have written some files, which the model does not track.
- `error(...)` and the stack-trace text written to the processing environment are reduced to the flag `failureReported`; messages are not modelled.
- `GeneratorUtils` (field-name derivation, reading annotations off an element, writing them onto a field) is not part of this model; its results are the fields of `Element`, and annotation values are opaque records compared for equality.
- `codeModel.ref(...)` is modelled by the referenced type's name only; the library's cache of referenced classes is not modelled.
- Unchecked exceptions (for example a null element) are not caught by `build` and are not modelled.
