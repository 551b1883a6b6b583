# Carrot2: stop-word label filter, front-end selection and error views, descriptor tooling

This project models, in Dafny, five self-contained pieces of the Carrot2
clustering system and proves properties of them:

- **Stop-word label filter** (`StopWordLabelFilter`): a candidate label
  phrase is accepted iff neither its first nor its last word is a common
  (stop) word; a single word is accepted iff it is not common. The filter
  reads the phrase word-index array and the word type array of the
  preprocessing context; whether a type mask means "common" is a parameter.
- **Selection stores of the search front end** (`Selection`): cluster and
  document selection sets with toggle, replace, clear and membership; the
  document visibility set ("empty means everything is visible"); the visible
  set derived from the selected clusters' subtrees and selected documents;
  and the reset of the cluster selection when a new cluster list arrives.
- **Error views of the search front end** (`ErrorMessage`): the
  precedence-ordered choice of the view that reports a clustering failure
  (429, then 413, then a stack trace, then a message, then the generic view),
  the zero-width spaces (U+200B) inserted after `&`, `/` and `?` of a status
  text, the first line of a stack trace, and when the generic view is shown.
- **Attribute descriptor collection** (`AttrInfoCollector`, over the
  descriptor tree of `DescriptorModel`): the type name, constraint
  descriptions, displayed value and map insertion for each attribute kind.
- **Descriptor command** (`WriteDescriptors`): ids, Java paths and REST
  paths of every attribute of a descriptor tree; attaching implementations
  to object attributes, with the error for an attribute that has none; and
  choosing the algorithms to describe, ordered by name (`StringOrder` is
  Java's `String.compareTo` order, the key order of a `TreeMap`).

Every mutating operation of the original is a function or method that
returns the next state. Operations the original delegates to code not
modelled here are parameters: `isCommon` (the token type classification),
the reflective `isInstance` check and the class-info `collect`or of the
descriptor command, and the alias mapper, `toString`, constraint
`description` and list emptiness of the collector (`Foreign`). A Java class
is represented by its name, as `Class.getName` returns it; a Java `null`
field is `None` (or `Unset` for an implementations map).

## Model

| member | source | states |
|---|---|---|
| StopWordLabelFilter.AcceptPhrase | carrot2-core/src/main/java/org/carrot2/text/preprocessing/filter/StopWordLabelFilter.java:35-41 | on a non-empty phrase whose first and last word indices are valid, the phrase is accepted iff every word at one of its two ends is not common, i.e. iff both its first and its last word are accepted words |
| StopWordLabelFilter.AcceptWord | carrot2-core/src/main/java/org/carrot2/text/preprocessing/filter/StopWordLabelFilter.java:44-46 | a valid word index is accepted iff the word's type is not common |
| StopWordLabelFilter.InteriorWordTypeIrrelevant | carrot2-core/src/main/java/org/carrot2/text/preprocessing/filter/StopWordLabelFilter.java:36-40 | changing the type of a word that occurs strictly inside the phrase and at neither end leaves acceptPhrase unchanged |
| StopWordLabelFilter.InteriorWordIrrelevant | carrot2-core/src/main/java/org/carrot2/text/preprocessing/filter/StopWordLabelFilter.java:36-40 | replacing any interior word index of the phrase, even by an invalid one, leaves the phrase valid and acceptPhrase unchanged |
| StopWordLabelFilter.BoundaryTypesDetermineAcceptance | carrot2-core/src/main/java/org/carrot2/text/preprocessing/filter/StopWordLabelFilter.java:35-41 | two phrases, in any two contexts, whose first words and last words have equal types are accepted alike |
| StopWordLabelFilter.SingleWordPhrase | carrot2-core/src/main/java/org/carrot2/text/preprocessing/filter/StopWordLabelFilter.java:39-46 | for a one-word phrase acceptPhrase equals acceptWord of that word |
| StopWordLabelFilter.DefaultFilter | carrot2-core/src/main/java/org/carrot2/text/preprocessing/filter/StopWordLabelFilter.java:29-32 | a new filter is enabled: `enabled` defaults to true |
| StopWordLabelFilter.IsEnabledReportsAttribute | carrot2-core/src/main/java/org/carrot2/text/preprocessing/filter/StopWordLabelFilter.java:48-50 | isEnabled returns the current value of the `enabled` attribute |
| Selection.IsSelected | dcs/contexts/frontend/src/carrot2/search-app/store/selection.js:42-44 | an item is selected iff it is in the selection set |
| Selection.Clear | dcs/contexts/frontend/src/carrot2/search-app/store/selection.js:45-57 | after clearing, member by member, the selection is empty |
| Selection.SingletonIsOnlyMember | dcs/contexts/frontend/src/carrot2/search-app/store/selection.js:13 | a selection of size one that contains the item is exactly the set holding that item |
| Selection.ToggleSelection | dcs/contexts/frontend/src/carrot2/search-app/store/selection.js:9-28 | without keepSelection: a selection that is exactly {item} becomes empty and any other becomes exactly {item}; with keepSelection: the item's membership flips and every other item's membership is unchanged |
| Selection.RetainAll | dcs/contexts/frontend/src/carrot2/search-app/store/selection.js:33-37 | deleting every member not among the items leaves exactly the members that are among them |
| Selection.AddEach | dcs/contexts/frontend/src/carrot2/search-app/store/selection.js:38-40 | adding the items in order yields exactly the old members plus the items |
| Selection.ReplaceSelection | dcs/contexts/frontend/src/carrot2/search-app/store/selection.js:29-41 | afterwards the selection is exactly the set of elements of the item list, duplicates collapsed, whatever it was before |
| Selection.IsVisible | dcs/contexts/frontend/src/carrot2/search-app/store/selection.js:67-73 | every document is visible while the visible set is empty; otherwise a document is visible iff its id is in the set |
| Selection.ReplaceVisible | dcs/contexts/frontend/src/carrot2/search-app/store/selection.js:74-90 | after deleting the ids not in the new set and adding the new ones, the visible set equals the new set exactly |
| Selection.AddDocumentsFromClusters | dcs/contexts/frontend/src/carrot2/search-app/store/selection.js:101-110 | the recursive collection over a cluster list never loses an id already collected; which ids it adds is stated by Selection.AddDocumentsFromClustersCollectsTree |
| Selection.AddDocumentsFromCluster | dcs/contexts/frontend/src/carrot2/search-app/store/selection.js:102-107 | the recursive collection for one cluster never loses an id already collected; which ids it adds is stated by Selection.AddDocumentsFromClusterCollectsTree |
| Selection.AddDocumentsFromClustersCollectsTree | dcs/contexts/frontend/src/carrot2/search-app/store/selection.js:101-110 | an id is in the result iff it was already collected or some cluster of the list, or a cluster nested in one at any depth, holds it |
| Selection.AddDocumentsFromClusterCollectsTree | dcs/contexts/frontend/src/carrot2/search-app/store/selection.js:102-107 | an id is in the result iff it was already collected or the cluster or one of its nested clusters, at any depth, holds it |
| Selection.DerivedVisibleDocuments | dcs/contexts/frontend/src/carrot2/search-app/store/selection.js:93-111 | the derived set holds exactly the ids held by the subtree of some selected cluster and the ids of the selected documents |
| Selection.OnSelectionChange | dcs/contexts/frontend/src/carrot2/search-app/store/selection.js:93-111 | after a selection change the visible set is exactly that derived set; both selections are unchanged |
| Selection.OnClustersChange | dcs/contexts/frontend/src/carrot2/search-app/store/selection.js:113-119 | a cluster list other than the last one seen empties the cluster selection and is remembered; the same list changes nothing; the document selection and visible set are never touched |
| ErrorMessage.InsertBreaks | dcs/contexts/frontend/src/carrot2/search-app/ui/ErrorMessage.js:15 | the displayed status text is as long as the original plus the number of `&`, `/` and `?` characters in it |
| ErrorMessage.RemoveInsertedBreaksInverts | dcs/contexts/frontend/src/carrot2/search-app/ui/ErrorMessage.js:15 | deleting the zero-width space that follows each break character gives back the original status text, for every text |
| ErrorMessage.BreakCharsAreFollowedBySpace | dcs/contexts/frontend/src/carrot2/search-app/ui/ErrorMessage.js:15 | in the displayed text every `&`, `/` and `?` is immediately followed by U+200B |
| ErrorMessage.Lines | dcs/contexts/frontend/src/carrot2/search-app/ui/ErrorMessage.js:74 | splitting at `\n` yields at least one piece, no piece contains `\n`, and the first piece is the prefix before the first `\n` |
| ErrorMessage.JoinLinesInvertsLines | dcs/contexts/frontend/src/carrot2/search-app/ui/ErrorMessage.js:74 | joining the pieces with `\n` gives back the text |
| ErrorMessage.FirstLine | dcs/contexts/frontend/src/carrot2/search-app/ui/ErrorMessage.js:73-86 | the shown line is a prefix of the stack trace without `\n`, and it stops only at a `\n` or at the end of the text |
| ErrorMessage.ClusteringEngineErrorMessage | dcs/contexts/frontend/src/carrot2/search-app/ui/ErrorMessage.js:111-135 | status 429 selects the rate-limit view iff it is the status; 413 the size-limit view; otherwise a truthy stack trace the exception view (showing its first line), otherwise a truthy message the message view (showing it), and every remaining case, undefined and null errors included, the generic view of that error |
| ErrorMessage.ErrorMessageVisible | dcs/contexts/frontend/src/carrot2/search-app/ui/ErrorMessage.js:13 | the generic view is shown iff its error is not undefined, so a null error is shown |
| ErrorMessage.ErrorMessageText | dcs/contexts/frontend/src/carrot2/search-app/ui/ErrorMessage.js:15 | there is a preformatted text iff there is a request error; removing the inserted breaks from it gives the status text, and its length is the status text's plus the number of break characters |
| ErrorMessage.RateLimitIgnoresBody | dcs/contexts/frontend/src/carrot2/search-app/ui/ErrorMessage.js:113-115 | with status 429 the rate-limit view is chosen whatever the parsed body is |
| ErrorMessage.GenericViewShownIffErrorDefined | dcs/contexts/frontend/src/carrot2/search-app/ui/ErrorMessage.js:129-134 | when the dispatch falls through to the generic view, that view is shown iff the store's error is not undefined |
| DescriptorModel.EntriesOf | infra/docattrs/src/main/java/org/carrot2/infra/docattrs/AttrInfoCollector.java:35-39 | the key-to-descriptor map the collector fills, as a class descriptor's attribute entries: one entry per map key and none other, no key twice, in increasing key order, each holding exactly its key's map value |
| DescriptorModel.LookupMatchesEntries | infra/docattrs/src/main/java/org/carrot2/infra/docattrs/AttrInfoCollector.java:35-39 | entries without a repeated key answer lookups as the map they list: each listed key finds its own descriptor, an unlisted key finds nothing |
| DescriptorModel.NewAttrInfo | infra/docattrs/src/main/java/org/carrot2/infra/docattrs/AttrInfoCollector.java:87-90 | a new attribute descriptor has no id, no paths and no implementations yet |
| AttrInfoCollector.TypeName | infra/docattrs/src/main/java/org/carrot2/infra/docattrs/AttrInfoCollector.java:42-84 | "Boolean", "Integer", "Double", "String", "String[]" for those kinds; the enum class name for enums; the interface name for objects; the interface name plus "[]" for object arrays |
| AttrInfoCollector.ArrayTypeNames | infra/docattrs/src/main/java/org/carrot2/infra/docattrs/AttrInfoCollector.java:42-84 | when the referenced class names contain no `[`, a type name ends with "[]" iff the attribute is a string array or an object array |
| AttrInfoCollector.ConstraintDescriptions | infra/docattrs/src/main/java/org/carrot2/infra/docattrs/AttrInfoCollector.java:92-96 | null iff the attribute has no constraints; otherwise the descriptions of the constraints, same length, same order |
| AttrInfoCollector.DisplayValue | infra/docattrs/src/main/java/org/carrot2/infra/docattrs/AttrInfoCollector.java:98-104 | null iff the attribute's value is null or the mapper applied to it yields null (Optional.map); an object attribute's value goes through the alias mapper, any other through toString |
| AttrInfoCollector.AttrInfoOf | infra/docattrs/src/main/java/org/carrot2/infra/docattrs/AttrInfoCollector.java:86-108 | the descriptor keeps the attribute's kind and description, takes the type name, constraints and value above, and has no id, paths or implementations |
| AttrInfoCollector.Visit | infra/docattrs/src/main/java/org/carrot2/infra/docattrs/AttrInfoCollector.java:42-108 | the key is mapped to the new descriptor, replacing any earlier one, all other keys are unchanged; the visit fails iff the attribute is an object array with a non-null non-empty value, and the descriptor is stored even then |
| WriteDescriptors.ExpandPaths | infra/docattrs/src/main/java/org/carrot2/infra/docattrs/WriteDescriptorsCommand.java:192-215 | a class descriptor keeps its name and type, and each attribute is expanded on its own against the same parent id and paths |
| WriteDescriptors.ExpandAttributePaths | infra/docattrs/src/main/java/org/carrot2/infra/docattrs/WriteDescriptorsCommand.java:193-214 | the attribute list keeps its length and order, each entry expanded against the same parents |
| WriteDescriptors.ExpandAttrPaths | infra/docattrs/src/main/java/org/carrot2/infra/docattrs/WriteDescriptorsCommand.java:195-213 | id is the key at the root and parent id + "." + key below; pathJava is always parent path + "." + key; pathRest is the key at the root and parent REST path + "." + key below; nothing else of the descriptor changes, and the implementations are expanded against the attribute's new id and paths |
| WriteDescriptors.ExpandImplementationPaths | infra/docattrs/src/main/java/org/carrot2/infra/docattrs/WriteDescriptorsCommand.java:198-213 | every implementation is expanded on its own, in order |
| WriteDescriptors.ExpandImplementationPath | infra/docattrs/src/main/java/org/carrot2/infra/docattrs/WriteDescriptorsCommand.java:200-212 | when the implementation's type differs from the attribute's, the nested id is attribute id + "::" + name and the nested Java path is "((type) path)"; otherwise both pass through; the nested REST path is always the attribute's |
| WriteDescriptors.ExpandRootPaths | infra/docattrs/src/main/java/org/carrot2/infra/docattrs/WriteDescriptorsCommand.java:103 | at the root each attribute's id and REST path are its key and its Java path is "algorithmInstance." + key |
| WriteDescriptors.RestPathsAreCastFree | infra/docattrs/src/main/java/org/carrot2/infra/docattrs/WriteDescriptorsCommand.java:192-215 | when no key of the tree and not the starting REST path contains `:`, `(`, `)` or a space, no REST path anywhere in the expanded tree does: REST paths hold no casts or "::" |
| WriteDescriptors.RestPathsAreCastFreeBelow | infra/docattrs/src/main/java/org/carrot2/infra/docattrs/WriteDescriptorsCommand.java:195-211 | the same for one attribute and everything nested below it |
| WriteDescriptors.ExpandPathsCoversTree | infra/docattrs/src/main/java/org/carrot2/infra/docattrs/WriteDescriptorsCommand.java:192-215 | after expansion every attribute of the tree, nested implementations included, has an id, a Java path and a REST path |
| WriteDescriptors.ExpandPathsCoversTreeBelow | infra/docattrs/src/main/java/org/carrot2/infra/docattrs/WriteDescriptorsCommand.java:195-212 | the same for one attribute and everything nested below it |
| WriteDescriptors.ExpandPathsKeepsStructure | infra/docattrs/src/main/java/org/carrot2/infra/docattrs/WriteDescriptorsCommand.java:192-215 | with ids and paths erased, the expanded tree equals the original: keys, types, order and nesting are unchanged |
| WriteDescriptors.ExpandPathsKeepsStructureBelow | infra/docattrs/src/main/java/org/carrot2/infra/docattrs/WriteDescriptorsCommand.java:195-212 | the same for one attribute and everything nested below it |
| WriteDescriptors.MatchingImplementations | infra/docattrs/src/main/java/org/carrot2/infra/docattrs/WriteDescriptorsCommand.java:220-230 | the implementations are exactly the aliased types assignable to the interface, each with the descriptor collected from its instance; there are none iff no aliased type is assignable; when the aliased types come in increasing alias order (the TreeMap of line 84), so do the implementations, each alias once (the TreeMap of line 220) |
| WriteDescriptors.ExpandImplementationsOf | infra/docattrs/src/main/java/org/carrot2/infra/docattrs/WriteDescriptorsCommand.java:219-235 | an object attribute gets its non-empty implementation map, and fails with its type name iff it has no implementation; other attributes are unchanged |
| WriteDescriptors.ExpandImplementations | infra/docattrs/src/main/java/org/carrot2/infra/docattrs/WriteDescriptorsCommand.java:217-236 | fails iff some object attribute has no implementation, naming the type of the first such attribute; otherwise every object attribute carries its non-empty implementations and every other attribute is unchanged |
| WriteDescriptors.Registry | infra/docattrs/src/main/java/org/carrot2/infra/docattrs/WriteDescriptorsCommand.java:247-249 | the last loaded provider's name is always in the provider map; its keys and values are stated by WriteDescriptors.RegistryKeys and WriteDescriptors.RegistryLastWins |
| WriteDescriptors.RegistryKeys | infra/docattrs/src/main/java/org/carrot2/infra/docattrs/WriteDescriptorsCommand.java:247-249 | the provider map's keys are exactly the providers' names |
| WriteDescriptors.RegistryLastWins | infra/docattrs/src/main/java/org/carrot2/infra/docattrs/WriteDescriptorsCommand.java:247-249 | under each name the map holds the algorithm of the last provider with that name |
| WriteDescriptors.FirstUnknown | infra/docattrs/src/main/java/org/carrot2/infra/docattrs/WriteDescriptorsCommand.java:251-258 | nothing is reported iff every requested name is a key; otherwise the first requested name that is not |
| WriteDescriptors.InNameOrder | infra/docattrs/src/main/java/org/carrot2/infra/docattrs/WriteDescriptorsCommand.java:260-268 | the retained entries come out strictly ordered by name, exactly the retained names, each with its map value |
| WriteDescriptors.CollectAlgorithms | infra/docattrs/src/main/java/org/carrot2/infra/docattrs/WriteDescriptorsCommand.java:246-269 | fails with the first requested name that no provider has iff there is one; fails for an empty selection iff nothing is requested and there are no providers; otherwise returns exactly the requested algorithms (all when none are requested), strictly ordered by name, each the last provider of its name |
| StringOrder.LessIsStrictTotalOrder | infra/docattrs/src/main/java/org/carrot2/infra/docattrs/WriteDescriptorsCommand.java:247 | the order of the TreeMap's String keys is irreflexive, asymmetric, transitive and total on distinct strings |
| StringOrder.SortedElements | infra/docattrs/src/main/java/org/carrot2/infra/docattrs/WriteDescriptorsCommand.java:247 | the keys of the name-keyed TreeMap in strictly increasing String.compareTo order, each exactly once |

## Left out

- Suffix tree construction, base-cluster scoring, merging, ranking and label
  assignment: that code (beyond `STCProvider`, which only names "STC" and
  builds an instance) is not part of this model.
- `TokenTypeUtils.isCommon` and the bit layout of token types: not part of
  this model; the classification is the parameter `isCommon`. The building of
  the preprocessing context is not part of this model either.
- `SingleLabelFilterBase` and the label filter chain that consults
  `isEnabled`: not part of this model.
- The read-only nature of acceptPhrase and acceptWord is given by the model
  being pure functions; it needs no separate statement.
- `WriteDescriptorsCommand.run`'s service-loader discovery, the reflective
  `isAssignableFrom`/`getSuperclass` calls, Jackson reading and writing,
  `getOutputConsumer`, `expandJavaDocs`, `scanForAttrField` and `main`: I/O,
  reflection and command-line plumbing.
- WriteDescriptors.ExpandImplementations: models one level of
  `expandImplementations`; the recursive application to the nested class
  descriptors is left out because those descriptors are built by
  `ClassInfoCollector`, which is not part of this model (it is the `collect`
  parameter), and nothing bounds the depth of that recursion.
- WriteDescriptors.CollectAlgorithms: returns each algorithm with its
  provider name, which the original keeps only as the map key; the Java
  exception is the `CommandError` value, both reported with the invalid
  arguments exit code, whose number is not part of this model.
- StringOrder.SortedElements: compares Unicode scalar values, whereas Java
  compares UTF-16 code units; the two orders differ only between
  supplementary characters and characters U+E000 to U+FFFF.
- AttrInfoCollector.DisplayValue: treats `AttrObjectArray` as not an
  `AttrObject` (the attribute class hierarchy is not part of this model), so
  an object-array value goes through toString.
- DescriptorModel.EntriesOf: lists the attributes in increasing key order; the
  map class behind `ClassInfo.attributes` is not part of this model, so its
  iteration order is an assumption. Only the order of the entries depends on it.
- The alias mapper, `Constraint.description`, `Class.getName`, `toString` and
  list emptiness are foreign: parameters of `Foreign`, or class names given as
  strings.
- React rendering, JSX, CSS and the reactivity machinery (`react-easy-state`,
  `observe`, the element-wise deletion that limits re-rendering): only the
  resulting set states are modelled. JavaScript `Set`s of objects compare by
  identity, the model's sets by value; a cluster list's identity is a number
  the cluster store is given with each new list.
- Selection.Cluster: a cluster whose `clusters` property is missing is
  modelled as having no nested clusters, which the original's `if (clusters)`
  treats the same way.
- ErrorMessage.Body: a stack trace or message that is present is taken to be
  a string; JavaScript truthiness of it is "present and non-empty".
- The language component test fixtures (`TestsLanguageComponentsFactoryVariant1`,
  `EstonianLanguageComponentsTest`): provider registrations and constant
  data without logic of their own.
