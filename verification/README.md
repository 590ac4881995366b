# The generators and the config loader of the Go SDK, in Dafny

The repository keeps a Go SDK in step with a reference SDK by generating code from OpenAPI documents and by
scanning its own sources into two inventories: a surface (which names exist) and signatures (what types they
have). This project models the parts where that can go wrong and proves what they do for every input.

| files | subject |
|---|---|
| `GoTypes`, `Translator`, `Brackets`, `Compiler`, `TypeRoundTrip`, `TypeNames` | Go types are printed to text and re-read by a hand-written scanner; the scanner is shown to compute a structural compilation of the type |
| `ConfigTree`, `ConfigMerge` | configuration as a tree: substitution, lookups, and the merge with the environment as a function |
| `ConfigHeap`, `ConfigPaths`, `ConfigLoader`, `ConfigAliasing` | the same on the heap: nested maps changed in place, what is shared with the loaded configuration, and when that shows |
| `Schema`, `SchemaRefs`, `SchemaStrict`, `SchemaFields`, `FieldTypes` | the required set and the field list of a schema with references and combinators; the types of optional fields |
| `Letters`, `Names`, `NamesKept`, `Fresh`, `FieldNames` | wire keys as Go field names, and Go names folded back |
| `UrlCode`, `UrlPaths`, `UrlText`, `UrlMeaning`, `UrlTheorem` | the Go expression emitted for a request path, and an evaluator for it |
| `Promotion`, `PromotionRule` | the search for promoted methods over embedded structs, and Go's own rule |
| `Sorting`, `Inventory`, `SurfaceBuild`, `SurfaceMeaning`, `SurfaceEnrich` | building the surface from Go maps walked in arbitrary order |
| `RouteJoin`, `RouteRows` | the join of captured routes with spec operations |
| `Bases`, `Embeds`, `TypeDedup` | flattening of resource bases, choice of the embedded struct, one declaration per type name |
| `Construction`, `ConstructionSources`, `ParamOrder` | the merge of construction parameters, and the place of request_options |
| `Text` | the string functions used, with their laws |

Loops, closures with captured variables and objects with fields are methods, with loops and classes, proved
against functions; what the repository promises is proved about those functions. A loop over a Go map picks its
next key with `:|`, so its contract holds for every order.

A Go error return is a `Result`, a nil or a default an `Option`. The tables of the enumerators (aliases, closed
sets, classes, renames, skill contracts), the environment, the type of a schema's Go field, and the reading of one
configuration string are parameters.

Where the code and its documentation differ, the code is modelled and the difference is a lemma:

- The comment on MergeWithEnv says that config-file values take precedence. A longer variable name replaces a
  configured value by a map (`ConfigMerge.ConfiguredValueWins`, `ConfigMerge.LongerNameReplacesValue`).
- The merged tree is used as if it were a copy. Maps at nesting level 10 and below are the loaded ones, and the
  environment can change them (`ConfigLoader.ConfigLoader.MergeWithEnv`, `ConfigAliasing.UntouchedExactly`).
- The naming comment says that Go field names fold back to the identical wire key. Boundaries around initialisms,
  digits and one-letter segments are lost in some keys (`Names.RoundTripExactly`, `Names.BoundaryLost`).
- The scanner has no case for fixed-length arrays: it searches their text for a name, so that an array is never
  read as the list of its element (`TypeRoundTrip.FixedArrayIsNotAList`). The same goes for nodes the printer has no
  case for, such as an anonymous struct, which becomes a class named by its text.
- A request path that ends in a slash right behind the collection or the server path is sent without it
  (`UrlTheorem.MeansExactly`, `UrlTheorem.SlashIsLost`).
- The promoted method found is the first in depth-first order, while Go promotes the only one at the least depth,
  if there is only one. Without cyclic embeddings both are the same declaration exactly under the condition of
  `PromotionRule.AgreesWithGoExactly`, on whatever path (`PromotionRule.SameDeclarationByAnotherWay`); where one path
  leads to each declaration it can be read off step by step (`PromotionRule.AgreesStepByStep`). They differ in
  `Promotion.DeeperDeclarationWins` and `PromotionRule.AmbiguousIsFound`.
- The loop that builds an absolute path does not end on a path with an unclosed brace (`UrlPaths.EndsExactly`).
- An x-sdk-enum mark on a schema without values takes its type name for good (`TypeDedup.ListlessEnumBlocks`).
- An options struct none of whose fields sets anything keeps its class from falling back to the struct literal
  (`Construction.LiteralLostExactly`, `Construction.MechanismHidesLiteral`).
- A CrudResource or FabricResource that declares paginate declares a method it inherits, because the skip table of
  extraMethods lacks it; a ReadResource that declares list, get or paginate gets that method twice
  (`Embeds.DeclaredTwiceExactly`, `Embeds.PaginateTwice`).
- JSON Schema draft 2020-12 (Core, section 10.2.1.3) reads oneOf as exactly one; the required set reads it as at
  least one. It is sound under the stricter reading (`SchemaStrict.RequiredIsForced`). It is exact if the choices of
  the schema fit it (`SchemaStrict.SeparateIsExact`), and where no variant has a oneOf of its own exactly when the
  choices that fit force nothing more (`SchemaStrict.ExactForOneOfExactly`), which can fail
  (`SchemaStrict.TwinsForceTheThird`). For any schema, `SchemaStrict.ExactExactly` makes it a question about the
  finitely many names that the schema mentions. Keywords beside a `$ref` are ignored by the code, as in OpenAPI 3.0.

## Model

| member | source | states |
|---|---|---|
| TypeRoundTrip.Refines | cmd/enumerate-signatures/main.go:956-1151 | for every Go type expression, scanning the printed text gives what a structural compilation of the tree gives, failure text included; map keys, function parameters and generic arguments of any depth |
| TypeRoundTrip.RefinesReturns | cmd/enumerate-signatures/main.go:705-732 | the return text of a signature is scanned back to a tuple of all its values, or to the first one when there is one value or the last is an error |
| GoTypes.OneTypeEach | cmd/enumerate-signatures/main.go:777-803 | a parameter or result list prints one type for each value it stands for: as many as an entry has names, and one for an entry without |
| GoTypes.GroupPrints | cmd/enumerate-signatures/main.go:777-803 | wherever an entry of n names stands in a list, it prints as n copies of its type, as one without a name, and leaves the other entries as they are |
| GoTypes.AtomTexts | cmd/enumerate-signatures/main.go:753-775 | the texts of interfaces and of nodes without a printer case |
| GoTypes.FormsOfTypes | cmd/enumerate-signatures/main.go:737-775 | the types that the theorems are about are closed under every form the printer knows |
| GoTypes.OtherForms | cmd/enumerate-signatures/main.go:763-775 | so are array lengths of letters and digits, and nodes without a printer case such as a struct |
| TypeRoundTrip.ReturnsEachValue | cmd/enumerate-signatures/main.go:705-732 | several values, the last not an error, come back as a tuple with one part for each value |
| TypeRoundTrip.GroupedReturn | cmd/enumerate-signatures/main.go:711-732 | n results of one type under one list of names, the type not error, come back as a tuple of n copies of what the type means |
| TypeRoundTrip.GroupedParams | cmd/enumerate-signatures/main.go:777-803 | n parameters of one type under one list of names give a callable with n copies of what the type means |
| TypeNames.PlainName | cmd/enumerate-signatures/main.go:1064-1150 | a plain name is an alias, or a generated type if it is lower-case; of a capitalised one the SDK class comes before the generated type, and with neither it is a class of that name; any other name fails |
| TypeNames.QualifiedName | cmd/enumerate-signatures/main.go:1064-1150 | the same for a qualified name, whole spelling before last part, with the two names that have a fixed meaning |
| TypeNames.Unclosed | cmd/enumerate-signatures/main.go:1035-1174 | a map or function type whose bracket is never closed fails, and the failure names the text |
| TypeNames.LeadingDot | cmd/enumerate-signatures/main.go:1109-1150 | a text that begins with a dot is no qualified name, and fails |
| TypeRoundTrip.FailsExactly | cmd/enumerate-signatures/main.go:1031-1150 | translation fails exactly when a position it looks at holds a channel, or a name or text that no table knows and no capital letter excuses; for arrays and unprinted nodes that is told from what stands behind the last dot of the text |
| TypeRoundTrip.FixedArrayIsNotAList | cmd/enumerate-signatures/main.go:1104-1150 | whatever its length and element, an array without a table entry is misread: it fails exactly when nothing known stands behind the last dot of its text, else it is an alias or a class and, with no list among the aliases, never a list |
| TypeRoundTrip.ArraysOfNames | cmd/enumerate-signatures/main.go:1104-1150 | an array of a plain name fails; an array of pointers to an exported foreign type passes for a class of that spelling |
| Translator.SplitTopLevelCommas | cmd/enumerate-signatures/main.go:1207-1229 | the comma loop computes the depth-0 split |
| Translator.MapKeyEnd | cmd/enumerate-signatures/main.go:1035-1053 | the bracket loop of the map case finds the bracket that closes the key, 0 when none does |
| Translator.FuncArgsEnd | cmd/enumerate-signatures/main.go:1158-1174 | the paren loop finds where the parameter list of a function type closes, if it does |
| Brackets.PrintQuiet | cmd/enumerate-signatures/main.go:737-804 | the text printed for any type is balanced for each of the three scanners, which therefore pass over it without stopping |
| Brackets.ClosingFound | cmd/enumerate-signatures/main.go:1035-1053 | behind balanced text the scanner stops at the bracket that closes it |
| Brackets.SplitUndoesJoin | cmd/enumerate-signatures/main.go:1207-1229 | splitting undoes the printer's comma join on balanced, non-empty parts |
| ConfigHeap.SubstituteVars | pkg/agent/config_loader.go:94-137 | on the heap: the copy has the substituted value, and all its maps are new but those at the depth bound and below, counted through maps and slices, which are the original ones |
| ConfigHeap.SubstituteMap | pkg/agent/config_loader.go:122-127 | the map case, entry by entry in any order, under the same contract |
| ConfigHeap.SubstituteList | pkg/agent/config_loader.go:128-133 | the slice case, under the same contract |
| ConfigHeap.DeepNodesExactly | pkg/agent/config_loader.go:95-97 | there are maps at the depth bound or below, on the heap, exactly when the value has some there |
| ConfigTree.Subst | pkg/agent/config_loader.go:94-137 | substitution keeps the shape: the keys of maps, the length of slices, and which values are maps or slices |
| ConfigTree.SubstAt | pkg/agent/config_loader.go:94-137 | at every place of a value, through maps and slices: a string above the depth bound becomes what it resolves to, every other leaf stays, maps keep their keys and slices their length |
| ConfigTree.GetResolves | pkg/agent/config_loader.go:153-170 | a lookup gives what stands at the path with its strings resolved less than ten levels below it, and nothing else changed |
| ConfigTree.SectionResolves | pkg/agent/config_loader.go:174-186 | the same for a section, and an empty map for what is not one |
| ConfigTree.WalkReaches | pkg/agent/config_loader.go:157-167 | a chain of keys leads where its keys lead one by one, map by map |
| ConfigTree.AtReaches | pkg/agent/config_loader.go:219-236 | a key path is present exactly when its keys lead somewhere, map by map |
| ConfigTree.DepthMatters | pkg/agent/config_loader.go:95-97 | two depth bounds give the same result exactly when every string between them resolves to itself |
| ConfigTree.WalkSubst | pkg/agent/config_loader.go:94-137 | looking up a chain of keys in a substituted tree is substituting what is looked up, with that many levels less |
| ConfigTree.SectionAgreesWithGet | pkg/agent/config_loader.go:153-187 | a section followed by a lookup agrees with the dotted lookup exactly when no string of the value lies in the levels that the section path has used up |
| ConfigLoader.ConfigLoader.Get | pkg/agent/config_loader.go:153-170 | the lookup loop returns the substituted value at the dotted path, or the default when a step is missing or not a map |
| ConfigLoader.ConfigLoader.GetSection | pkg/agent/config_loader.go:174-186 | a substituted section, or an empty map when it is absent or not a map |
| ConfigLoader.ConfigLoader.HasNestedKey | pkg/agent/config_loader.go:219-236 | the loop finds a key path exactly when it is present in the tree |
| ConfigPaths.SetNestedKey | pkg/agent/config_loader.go:238-250 | the in-place walk stores the value under the path, replacing what is not a map on the way, and changes only the maps on its way and new ones |
| ConfigLoader.ConfigLoader.FoldEnv | pkg/agent/config_loader.go:202-215 | the loop over the environment merges each prefixed key that is absent, and changes only the maps of the tree it is given and new ones |
| ConfigLoader.ConfigLoader.MergeWithEnv | pkg/agent/config_loader.go:192-217 | the in-place merge computes the merged tree; the result shares no map with the loaded configuration but those at level 10 and below, only such maps may change in it, and with none there all maps of the result are new and the loaded configuration is unchanged |
| ConfigMerge.MergeIsExpected | pkg/agent/config_loader.go:202-215 | the merged tree equals a description without any order: a path below which a setting goes is a map, any other keeps its configured value, else has its first setting |
| ConfigMerge.ConfluentExactly | pkg/agent/config_loader.go:202-215 | the merge is independent of the order of the environment exactly when no two of its settings give one free path different values |
| ConfigMerge.DistinctKeysConfluent | pkg/agent/config_loader.go:192-217 | hence environments whose lower-cased prefixed keys are pairwise different merge to the same tree in any order |
| ConfigMerge.MergeKeeps | pkg/agent/config_loader.go:202-215 | after the merge every prefixed path exists, present paths stay present, and a value that no setting goes below keeps what it was |
| ConfigMerge.MergeResolves | pkg/agent/config_loader.go:192-217 | a configured value that no setting goes below comes out of the merge with its strings resolved, as far as they stand less than ten levels below the root |
| ConfigMerge.ConfiguredValueWins | pkg/agent/config_loader.go:188-191 | a configured value survives, as the documentation promises, exactly when no longer variable name exists |
| ConfigMerge.LongerNameReplacesValue | pkg/agent/config_loader.go:238-249 | SWML_LOG_LEVEL turns the configured value of log into a map |
| ConfigAliasing.UntouchedExactly | pkg/agent/config_loader.go:192-217 | no environment and no prefix change the loaded configuration, exactly when no map at level 10 sits behind keys that a variable name can spell |
| ConfigAliasing.ReachableIsChanged | pkg/agent/config_loader.go:192-217 | for any such map there is an environment that changes the loaded configuration |
| Schema.ResolveSchema | cmd/generate-rest/main.go:1437-1452 | the reference loop ends on every cycle and computes the resolved schema |
| Schema.ResolveTwice | cmd/generate-rest/main.go:1437-1452 | resolving a resolved schema changes nothing, cycles included |
| SchemaRefs.RefLeafIs | cmd/generate-rest/main.go:1428-1433 | a reference names what stands behind its last slash, or itself if it has none |
| SchemaRefs.ReferenceResolves | cmd/generate-rest/main.go:1437-1452 | a reference to a defined schema that has no reference of its own resolves to that schema |
| SchemaRefs.ResolvesAlong | cmd/generate-rest/main.go:1437-1452 | where the references lead to a schema without one, it is the result; where they lead to an undefined name, there is none |
| SchemaRefs.DanglingExactly | cmd/generate-rest/main.go:1437-1452 | there is no result exactly when the references lead to a name that is not defined |
| SchemaRefs.ResultIsReached | cmd/generate-rest/main.go:1437-1452 | any result is a schema the references lead to, and has no reference unless that leads back to a name already followed |
| Schema.GroundedAbove | cmd/generate-rest/types.go:537-580 | a schema whose combinators bottom out within a height does so within one more |
| Schema.GroundedAtOnce | cmd/generate-rest/types.go:537-545 | a dangling reference, or a schema without combinators, bottoms out at once |
| SchemaFields.TypeWalk.Walk | cmd/generate-rest/types.go:537-600 | one walk of the closure returns the required set of the schema and records the type of every property not seen before |
| SchemaFields.SchemaFieldTypes | cmd/generate-rest/types.go:537-600 | the type map and the required set of a schema |
| Schema.RequiredIsExact | cmd/generate-rest/types.go:537-600 | a field is in the required set exactly when every finite set of keys the schema accepts contains it, oneOf read as at least one |
| Schema.RequiredIsSound | cmd/generate-rest/types.go:537-600 | no accepted key set lacks a required field |
| Schema.OptionalCanBeMissing | cmd/generate-rest/types.go:537-600 | a field outside the required set is missing from an accepted object, namely from any that has the other names mentioned |
| Schema.RequiredAtAnyHeight | cmd/generate-rest/types.go:537-600 | the required set does not depend on the bound under which the combinators bottom out |
| Schema.AcceptsAtAnyHeight | cmd/generate-rest/types.go:537-600 | nor does what the schema accepts |
| SchemaStrict.RequiredIsForced | cmd/generate-rest/types.go:550-576 | with oneOf read as exactly one, too, every accepted set of keys has the required fields |
| SchemaStrict.SeparateIsExact | cmd/generate-rest/types.go:550-576 | under that reading the required set is exact if no choice of variants asks for names that fit two variants of a oneOf |
| SchemaStrict.ExactExactly | cmd/generate-rest/types.go:550-576 | for every schema, the required set is exact under that reading exactly when no other field is in all the accepted sets of names that the schema mentions |
| SchemaStrict.ForcedExactly | cmd/generate-rest/types.go:550-576 | where no variant of a oneOf has a oneOf of its own, that reading forces exactly the fields of all choices it accepts |
| SchemaStrict.ExactForOneOfExactly | cmd/generate-rest/types.go:550-576 | there the required set is exact under that reading exactly when no other field is in all the choices it accepts |
| SchemaStrict.TwinsForceTheThird | cmd/generate-rest/types.go:550-576 | a oneOf with one variant twice and a third one forces the required fields of the third, which the generator leaves optional |
| SchemaStrict.ExactlyOneForcesMore | cmd/generate-rest/types.go:550-576 | for instance with the variants a, b and b |
| SchemaFields.OrderWalk.Walk | cmd/generate-rest/main.go:1475-1497 | the second walk lists the property names in the order first seen, each once |
| SchemaFields.SchemaFields | cmd/generate-rest/main.go:1459-1510 | the field list: required names, then the others |
| SchemaFields.KeepWanted | cmd/generate-rest/main.go:1498-1509 | one of its two passes |
| SchemaFields.ResolvedFirst | cmd/generate-rest/main.go:1459-1470 | starting from the resolved node, as schemaFields does, gives the fields of the node itself |
| SchemaFields.FieldsAgree | cmd/generate-rest/main.go:1459-1510 | the list has exactly the fields of the type map, each once, required ones first, each half in the order of first occurrence; a field's type is that of its first occurrence |
| SchemaFields.FieldsExactly | cmd/generate-rest/main.go:1459-1512 | the field list has exactly the fields that the schema has itself or through its references and combinators |
| SchemaFields.PartsInOrder | cmd/generate-rest/main.go:1472-1498 | the fields of allOf come before those of anyOf, these before those of oneOf, and the schema's own come last |
| SchemaFields.PropertiesAtAnyHeight | cmd/generate-rest/types.go:537-600 | the properties met do not depend on the bound under which the combinators bottom out |
| Names.GoNameToSnake | internal/surface/names.go:23-36 | the folding loop computes the snake form |
| Names.StructFieldName | cmd/generate-rest/main.go:1646-1660 | the casing loop computes the Go field name |
| Names.SnakeOfCased | internal/surface/names.go:23-36 | the snake form of a cased name has an underscore at the visible segment boundaries and nowhere else |
| Names.RoundTripExactly | cmd/generate-rest/main.go:1617-1660 | folding a key's Go name gives the key back exactly when every segment boundary is visible |
| Names.FieldNamesDiffer | cmd/generate-rest/main.go:1646-1660 | keys that make the round trip have different Go names |
| Names.BoundaryLost | cmd/generate-rest/main.go:1606-1616 | an initialism behind an initialism or behind a digit is not folded back, for instance ip_id and line2_id |
| NamesKept.OnlyCaseChanges | cmd/generate-rest/main.go:1627-1660 | for every key: its name has the characters of the key without the underscores, in their order, and differs only in case; with none left it is Field |
| NamesKept.NameKept | cmd/generate-rest/main.go:1627-1634 | a key of one segment that is no acronym keeps all its characters, with a capital in front |
| NamesKept.NamesKeptApart | cmd/generate-rest/main.go:1627-1634 | two such keys have one name exactly if they agree behind the first character and in its capital |
| NamesKept.Acronyms | cmd/generate-rest/main.go:1617-1634 | of the lower-case keys of one segment the sixteen acronyms are written in capitals, and no other |
| NamesKept.MixedCaseKept | cmd/generate-rest/main.go:1627-1635 | for instance numberedBullets and SWML, which become NumberedBullets and SWML |
| NamesKept.CapitalsLost | internal/surface/names.go:23-36 | a key with a capital never folds back from its Go name |
| NamesKept.KeysAre | cmd/generate-rest/main.go:1646-1660 | keys made of lower-case segments with digits, each with a letter in front, are keys of the kind that the round trip is about |
| NamesKept.EscapedExactly | cmd/generate-rest/main.go:634-648 | the escape appends an underscore to the 25 keywords of Go, after which none is left, and leaves every other name alone |
| Fresh.Lengthen | cmd/generate-rest/main.go:753-757 | the loop that appends a character until a name is free ends and computes the free name |
| Fresh.FreeIsFree | cmd/generate-rest/main.go:753-757 | the name it settles on is free, extends the original by that character only, and is the original when that was free |
| FieldNames.NameFields | cmd/generate-rest/main.go:750-765 | the naming loop of the params structs |
| FieldNames.NamesDiffer | cmd/generate-rest/types.go:267-281 | whatever the keys, the field names of a struct are pairwise different, extend the cased names, and avoid reserved ones |
| FieldNames.OnlyExtrasRenamed | cmd/generate-rest/main.go:750-757 | among different keys that make the round trip, only extras is renamed |
| FieldTypes.NilableExactly | cmd/generate-rest/types.go:616-622 | telling a nilable type by the first characters of its text is telling it by the type: pointers, slices, maps and any |
| FieldTypes.TypeKept | cmd/generate-rest/types.go:602-614 | a field without a type is any, and a required one keeps its type |
| FieldTypes.GuardedExactly | cmd/generate-rest/main.go:761-762 | a body field is guarded against nil exactly when it is optional or its type is nilable |
| FieldTypes.OptionalMeans | cmd/generate-rest/types.go:301-311 | the signature enumerator reads an optional field as a pointer to its type, or as its type where that is nilable already |
| UrlPaths.AbsolutePath | cmd/generate-rest/main.go:887-912 | the builder loop writes the quoted concatenation, without a trailing empty literal, when every opening brace is closed |
| UrlPaths.EndsExactly | cmd/generate-rest/main.go:887-907 | the builder loop reaches the end of the path exactly when every opening brace in it is closed, whatever the arguments are |
| UrlPaths.StaysAtBrace | cmd/generate-rest/main.go:894-903 | at an unclosed brace the index stays where it is for any number of rounds, and each round writes more quotes |
| UrlPaths.EmitPath | cmd/generate-rest/main.go:667-684 | the loop over the segments and the choice of form compute the arguments and the path expression |
| UrlText.FormOf | cmd/generate-rest/main.go:571-591 | an operation below the collection's path is a call of Path with an operand for each segment behind it, one on the collection is the base, any other is spelled out in full |
| UrlText.JoinedText | cmd/generate-rest/main.go:560-565 | two paths are joined with one slash, however many the first ends with and the second begins with |
| UrlText.ArgumentNames | cmd/generate-rest/main.go:606-630 | the argument names of the parameters, queueID for queue_id for instance, and id where there is no entry |
| UrlText.SecondArgument | cmd/generate-rest/main.go:673-681 | a second parameter of one name is told apart by a 2 |
| UrlText.QuoteDenotes | cmd/generate-rest/main.go:681-683 | a quoted segment denotes the segment, quotes and backslashes included |
| UrlText.PathText | pkg/rest/namespaces/common.go:42-47 | Path puts each part behind the base and a slash, and is the base without parts |
| UrlText.PlainExactly | cmd/generate-rest/main.go:681-683 | the texts that need no escape are printable ASCII but the quote and the backslash |
| UrlText.IdentExactly | cmd/generate-rest/main.go:606-630 | the argument names that can be read back are the non-empty texts of letters and digits |
| UrlMeaning.PathsAreWhole | cmd/generate-rest/main.go:667-684 | the paths that the theorems are about are those whose segments have no braces or are a name in braces |
| UrlMeaning.BracedIsParam | cmd/generate-rest/main.go:673-674 | a segment that is a name in braces is a parameter of that name, and a segment without braces is none |
| UrlMeaning.ParamsAreBraces | cmd/generate-rest/main.go:667-684 | a template has as many parameters as opening braces |
| UrlMeaning.InstParam | cmd/generate-rest/main.go:887-903 | a parameter in front of a template takes the first value, and a text without braces stands for itself |
| UrlCode.ReadPrinted | cmd/generate-rest/main.go:790-798 | reading a printed operand list gives the operands back |
| UrlMeaning.ArgNamesDiffer | cmd/generate-rest/main.go:670-680 | the arguments of a method are as many as its path parameters, pairwise different, and identifiers |
| UrlMeaning.InstSegments | cmd/generate-rest/main.go:586-591 | replacing parameters in a template is filling its segments |
| UrlTheorem.ServerPathExactly | cmd/generate-rest/main.go:266-269 | a server path is not empty, and a slash ends it only if it is one |
| UrlTheorem.RelativeMeans | pkg/rest/namespaces/common.go:41-47 | the call of Path with the emitted operands evaluates to the instantiated template under the collection |
| UrlTheorem.AbsoluteMeans | cmd/generate-rest/main.go:887-912 | the quoted concatenation evaluates to the instantiated template, for every template whose braces close |
| UrlTheorem.Means | cmd/generate-rest/main.go:571-584 | for every collection, server path, operation path and arguments the emitted expression is readable, and its value is the instantiated template or lacks just its last slash |
| UrlTheorem.MeansExactly | cmd/generate-rest/main.go:788-798 | the value is the instantiated template exactly when the operation path does not end in a slash right behind the collection or the server path |
| UrlTheorem.SlashIsLost | cmd/generate-rest/main.go:571-584 | the operation /a/ of the collection /a is sent to the collection without the slash |
| Promotion.Walk.Search | cmd/enumerate-signatures/main.go:849-873 | the recursive search with its visited set computes the depth-first result and ends on cyclic embeddings |
| Promotion.ResolvePromoted | cmd/enumerate-signatures/main.go:849-873 | the search from an empty visited set |
| Promotion.FoundExactly | cmd/enumerate-signatures/main.go:849-873 | a declaration is found exactly when some struct reachable over one or more embeddings declares the method |
| Promotion.FoundIsReachable | cmd/enumerate-signatures/main.go:849-873 | what is found is the declaration at the end of such a path |
| Promotion.EnumeratorsAgree | cmd/enumerate-surface/main.go:664-688 | on the same embeddings and declared names, the surface has a promoted method exactly when the signatures resolve one |
| Promotion.DeeperDeclarationWins | cmd/enumerate-signatures/main.go:842-848 | for instance, the search returns a deeper declaration than the one Go promotes when its branch comes first |
| PromotionRule.FirstWayIsFound | cmd/enumerate-signatures/main.go:849-873 | on every graph, where the first way ends the search has found its declaration: at each struct that way takes the first embedding from which a declaration can be reached |
| PromotionRule.FoundOnFirstWay | cmd/enumerate-signatures/main.go:849-873 | without cyclic embeddings, whatever is found is found at the end of the first way |
| PromotionRule.SameWayExactly | cmd/enumerate-signatures/main.go:842-873 | without cyclic embeddings, the search ends on the path that Go's rule picks exactly when at each step the first embedding that reaches a declaration reaches one nearer than every other embedding |
| PromotionRule.NearestAre | cmd/enumerate-signatures/main.go:842-848 | on every graph, a breadth-first search no deeper than the number of structs ends with exactly the least paths to a declaration |
| PromotionRule.PromotesFromExactly | cmd/enumerate-signatures/main.go:842-848 | on every graph, Go promotes the method from a struct exactly when that search ends with one path, and it ends there |
| PromotionRule.AgreesWithGoExactly | cmd/enumerate-signatures/main.go:842-873 | without cyclic embeddings, the search returns the declaration that Go promotes, by whatever path, exactly when the breadth-first search ends with one path and it ends where the first way ends |
| PromotionRule.AgreesStepByStep | cmd/enumerate-signatures/main.go:842-873 | where one path leads to each declaring struct, that is so exactly when at each step of the first way its embedding reaches a declaration nearer than every other embedding |
| PromotionRule.SameDeclarationByAnotherWay | cmd/enumerate-signatures/main.go:849-873 | for instance, with the embeddings A and C, and C in A, the search goes through A and returns the declaration of C that Go takes directly |
| PromotionRule.NearestIsPromoted | cmd/enumerate-signatures/main.go:842-873 | on every graph, a first way that is nearest at each step is found and is what Go promotes |
| PromotionRule.AmbiguousIsFound | cmd/enumerate-signatures/main.go:842-873 | where two paths tie for the least depth Go promotes nothing, and the search returns a declaration all the same |
| PromotionRule.OnlyDeclarationIsFound | cmd/enumerate-signatures/main.go:842-873 | where one struct only declares the method, among all that can be reached, it is the one found |
| Inventory.Surface.AddMethod | cmd/enumerate-surface/main.go:708-720 | adds one member, and its class, to what the inventory holds; no list gets a repeated entry |
| Inventory.Surface.AddClass | cmd/enumerate-surface/main.go:721-727 | adds one class and nothing else |
| Inventory.Surface.AddFunction | cmd/enumerate-surface/main.go:728-737 | adds one function and nothing else |
| Inventory.Surface.Normalise | cmd/enumerate-surface/main.go:896-904 | sorts every list and keeps what the inventory holds |
| Inventory.Determined | cmd/enumerate-surface/main.go:896-906 | a sorted inventory without repeats is determined by what it holds |
| SurfaceBuild.IsPresent | cmd/enumerate-surface/main.go:754-774 | a mapped Go method counts when it is a known factory, declared, or promoted |
| SurfaceBuild.ProjectMethods | cmd/enumerate-surface/main.go:753-774 | adds exactly the mapped methods that are present |
| SurfaceBuild.ProjectOracle | cmd/enumerate-surface/main.go:788-824 | adds exactly the fields, and the readers no method is mapped to, that the reference lists for the class |
| SurfaceBuild.ProjectSkill | cmd/enumerate-surface/main.go:861-884 | projects a skill's contract, or stops exactly when its struct or one of its methods is missing |
| SurfaceBuild.Build | cmd/enumerate-surface/main.go:692-906 | the build stops exactly on an unsound skill, and otherwise yields the sorted inventory of exactly the declared, promoted, synthetic, oracle-gated, factory, skill and generated facts |
| SurfaceMeaning.MembersExactly | cmd/enumerate-surface/main.go:739-884 | a member is on the surface exactly when a table class has it (a mapped method that its struct declares or inherits over embeddings, a synthetic one, or one of the reference's own that a field spells, or a reader no method is mapped to), a known factory makes the class, or a skill lists it |
| SurfaceMeaning.ClassesExactly | cmd/enumerate-surface/main.go:739-895 | a class is on it exactly for a scanned struct or a known factory with a table entry, for a skill, or as a generated type |
| SurfaceMeaning.FunctionsExactly | cmd/enumerate-surface/main.go:843-848 | a function is on it exactly if the table names it for a scanned one |
| SurfaceMeaning.StopsExactly | cmd/enumerate-surface/main.go:850-884 | the enumerator stops exactly if a skill's struct is missing or a method of its contract is neither declared nor provided by the skill base |
| SurfaceBuild.OrderIsIrrelevant | cmd/enumerate-surface/main.go:739-906 | two builds from the same inputs give the same surface, in whatever order the maps are walked |
| SurfaceEnrich.Enrich | cmd/enumerate-surface/main.go:1187-1251 | adds exactly the self-only members returning an SDK class, removes nothing, and keeps the lists sorted |
| SurfaceEnrich.AddedExactly | cmd/enumerate-surface/main.go:1165-1252 | what is added are the methods recorded with nothing but self that return an SDK class outside a union, under names that Python allows, and their classes |
| Sorting.LessExactly | cmd/enumerate-surface/main.go:896-903 | the order of the lists: a proper prefix comes first, else the smaller character where two names first differ |
| SurfaceEnrich.Idempotent | cmd/enumerate-surface/main.go:1187-1251 | enriching twice is enriching once, in whatever orders the two runs walk the maps |
| RouteJoin.ReplaceBracesLoop | cmd/generate-rest-tests/main.go:133-151 | the loop replaces every closed run and stops at an unclosed brace |
| RouteJoin.WireKeyOfNorm | cmd/generate-rest-tests/main.go:119-130 | for every text, the wire key of the normalised text is the wire key of the text |
| RouteJoin.NormTwice | cmd/generate-rest-tests/main.go:119-124 | normalising twice is normalising once |
| RouteJoin.RunsReplaced | cmd/generate-rest-tests/main.go:119-152 | each run of braces becomes {id} in the normal form and X in the wire key; what has no opening brace, or stands behind one never closed, stays |
| RouteJoin.Tabulate | cmd/generate-rest-tests/main.go:174-218 | the three nested scan loops build the two tables from the operations in scan order |
| RouteRows.WinnerOf | cmd/generate-rest-tests/main.go:212-215 | a wire entry holds the first operation among those with the longest template for the key |
| RouteRows.Join | cmd/generate-rest-tests/main.go:220-244 | the loop over the routes emits the row of each route that has one, and never slices a route id without a dot |
| RouteRows.RowExactly | cmd/generate-rest-tests/main.go:220-244 | a route with a via has a row exactly when some operation has its method and normalised path; the row names the first longest operation with its method and wire key, filed under that operation's directory up to its first dot |
| RouteRows.OpsExactly | cmd/generate-rest-tests/main.go:174-216 | the operations are those that stand in a path item of a spec under get, post, put, patch or delete, with an operation id |
| RouteRows.OpsInOrder | cmd/generate-rest-tests/main.go:177-216 | they are met spec by spec and, in one path, in that order of the methods, on which the tie between templates of one length depends |
| RouteRows.PathOpsConcat | cmd/generate-rest-tests/main.go:194-216 | the operations of the paths of one spec follow each other in the order of the paths |
| RouteRows.RowsInOrder | cmd/generate-rest-tests/main.go:220-244 | rows come in the order of the routes, none lost |
| Bases.ResolveBase | cmd/generate-rest/main.go:209-229 | the recursive flattening with its seen set |
| Bases.ResolvesExactly | cmd/generate-rest/main.go:209-229 | a base resolves exactly when its chain of parents is defined and ends, and then to the lists of that chain, root first, each once |
| Bases.FailsAt | cmd/generate-rest/main.go:209-218 | a failure names the base that following extends meets a second time, or the one that is not defined |
| Bases.ChainAcyclic | cmd/generate-rest/main.go:209-212 | a chain that ends meets no base twice |
| Bases.LoadBases | cmd/generate-rest/main.go:230-240 | the two map loops succeed, in any order, exactly when every chain is defined and ends, and store each base's own flattened list |
| TypeDedup.BuildTypeGoName | cmd/generate-rest/types.go:44-74 | the builder loop and the repairs compute the Go type name |
| TypeDedup.NameIsExported | cmd/generate-rest/types.go:44-74 | every emitted type name is a valid exported identifier |
| TypeDedup.NameText | cmd/generate-rest/types.go:44-74 | the name of every key: what stands before its first letter or digit is dropped, that letter is made a capital or the digit put behind Schema_, and what Go does not allow becomes an underscore |
| TypeDedup.NameKept | cmd/generate-rest/types.go:44-74 | naming leaves exactly the exported identifiers as they are; naming twice changes nothing |
| TypeDedup.Package.EmitTypesFile | cmd/generate-rest/types.go:410-454 | one file declares the free names of its spec and takes all of them |
| TypeDedup.Package.EmitAll | cmd/generate-rest/types.go:376-408 | so do all specs one after the other |
| TypeDedup.DeclaredOnce | cmd/generate-rest/types.go:376-408 | no type name is declared twice in the package, and none that is taken by hand |
| TypeDedup.DeclaredExactly | cmd/generate-rest/types.go:430-449 | a declaration is made exactly by the first occasion with its name, if the name is free and there is something to declare |
| TypeDedup.DeclaredByFirst | cmd/generate-rest/types.go:430-449 | over all specs, a name not taken by hand is declared in the first spec that has an occasion for it if that occasion has something to declare, and never otherwise |
| TypeDedup.HandWrittenExactly | cmd/generate-rest/types.go:392-398 | PhoneCallHandler is never declared, and of one schema alone any other name is |
| TypeDedup.EveryNameDeclared | cmd/generate-rest/types.go:430-449 | over all specs, with a value list behind every enum mark, the name of each schema not taken by hand is declared, in the first spec that has an occasion for it |
| TypeDedup.ListlessEnumBlocks | cmd/generate-rest/types.go:433-441 | for instance, a marked enum without values takes its name and a schema of that name in a later spec is lost |
| Embeds.HasSiblingAddressOverride | cmd/generate-rest/main.go:939-951 | the loop finds a list_addresses on a path outside the collection |
| Embeds.ExtraMethods | cmd/generate-rest/main.go:997-1027 | the loop collects the methods to emit |
| Embeds.ConstructorFits | cmd/generate-rest/main.go:953-985 | the constructor makes the struct that is embedded, and its Update sends PUT exactly if the markup says so |
| Embeds.EmbedsExactly | cmd/generate-rest/main.go:953-985 | there is no embed exactly for an unknown base and for a CrudResource without update_method |
| Embeds.ExtrasExactly | cmd/generate-rest/main.go:998-1030 | with any embed, a declared method is emitted exactly if it is none of the embed's CRUD methods, or list_addresses outside the collection |
| Embeds.NeverShadows | cmd/generate-rest/main.go:1010-1024 | with the embed chosen for the resource the shadowing branch never fires: extraMethods emits just the methods outside its skip table, in their order |
| Embeds.SkippedIsSupplied | pkg/rest/namespaces/common.go:50-146 | the methods of the embedded structs, promoted ones included, are those of the skip table and paginate |
| Embeds.InheritedOrEmitted | cmd/generate-rest/main.go:953-1027 | for every markup a declared method is supplied by the embedded struct or emitted, and both exactly when it is the paginate of a CRUD base |
| Embeds.DeclaredTwiceExactly | cmd/generate-rest/main.go:1029-1075 | a resource has a method twice exactly when it is a CrudResource or FabricResource that declares paginate, or a ReadResource that declares one of the methods written out for it |
| Embeds.PaginateTwice | pkg/rest/namespaces/common.go:94-96 | for instance a CrudResource that declares paginate, which CrudResource has already |
| Embeds.AddressesOnce | cmd/generate-rest/main.go:966-980 | a Fabric resource inherits list_addresses exactly when it declares no list_addresses on a path outside its collection, and otherwise emits its own |
| Construction.Factories | cmd/enumerate-signatures/main.go:2316-2344 | the factory parameters of each class, in any order of the classes |
| Construction.UnfoldStruct | cmd/enumerate-signatures/main.go:2364-2400 | one options struct: mechanism fields skipped, pairs folded into one parameter, renames applied |
| Construction.BuildConstruction | cmd/enumerate-signatures/main.go:2305-2454 | the whole merge: a class is kept exactly when it has parameters, and then with the merged ones |
| ConstructionSources.SuppliedExactly | cmd/enumerate-signatures/main.go:2305-2432 | the literal of a class is passed over exactly if an options struct is bound to it, or a factory parameter or option names something for it |
| ConstructionSources.MergedNames | cmd/enumerate-signatures/main.go:2305-2432 | such a class has exactly the names that its structs, its factory and its options give |
| ConstructionSources.FactoryExactly | cmd/enumerate-signatures/main.go:2326-2343 | a factory gives its parameters that are neither private nor mechanisms, renamed for the class; the last of a name decides its type, any if it has none, and that it is required unless it says not |
| ConstructionSources.UnfoldedExactly | cmd/enumerate-signatures/main.go:2357-2400 | options structs give their fields but the mechanisms and the second ones of pairs, under the names of pairs and renames; the last struct and its last field decide, and none is required |
| ConstructionSources.OfferedExactly | cmd/enumerate-signatures/main.go:2409-2432 | options give the names of the functions WithX of an option type bound to the class; the first decides, and none is required |
| Construction.Precedence | cmd/enumerate-signatures/main.go:2281-2299 | options-struct fields win over the factory, the factory over functional options; struct-literal fields count only where no other source names the class |
| Construction.RequiredExactly | cmd/enumerate-signatures/main.go:2300-2304 | a parameter is required exactly when the factory requires it and no options-struct field replaces it |
| Construction.LiteralLostExactly | cmd/enumerate-signatures/main.go:2352-2453 | a class with a struct literal is dropped all the same exactly when an options struct is bound to it, no field of such a struct sets anything, no factory parameter configures it, and it has no option |
| Construction.MechanismHidesLiteral | cmd/enumerate-signatures/main.go:2190-2196 | for instance by an options struct with agent_options as its only field |
| ParamOrder.Reorder | cmd/enumerate-signatures/main.go:1652-1674 | no keyword bag is left before request_options, which is all that moves, and it moves only if there was one |

## Left out

- Text is a sequence of characters; the byte lengths and byte offsets of non-ASCII UTF-8 text are not modelled.
- Letter case is changed for ASCII letters only; Go's full Unicode case mappings are not modelled.
- TypeRoundTrip.Refines: type and package names are made of identifier characters, and array lengths are names or numbers, or nodes the printer has no case for; the lookup of a class by its short name is a map, because short names are taken to be unique.
- ConfigHeap.SubstituteVars: the scalar step, that is the ${VAR|default} pattern and the reading of booleans and numbers, is one function of the string.
- ConfigLoader.ConfigLoader.MergeWithEnv: the loaded configuration is a tree, as a parsed file is; a configuration with shared or cyclic maps is not covered.
- Reading configuration files, the search for them, and the YAML and JSON parsers.
- PromotionRule.AgreesWithGoExactly: Go's rule is applied to embeddings and methods; fields, which can shadow a method in Go, are not in the graph of the enumerators.
- Schema.RequiredIsExact: combinators bottom out, which is what the generator's recursion needs to end; `$ref` cycles without a combinator are covered.
- SchemaFields.SchemaFieldTypes: the Go type of a property is a parameter; how nested objects, arrays and formats are typed is not modelled.
- Names.RoundTripExactly: keys are lower-case letters and digits, each segment starting with a letter. The specs also have keys with capitals, such as numberedBullets and SWML; NamesKept tells what their names keep, and that they never fold back.
- UrlPaths.AbsolutePath: every opening brace is closed; otherwise, by EndsExactly, the loop of the source does not end.
- UrlTheorem.Means: paths are printable ASCII without quotes and backslashes, braces stand around whole segments, and the server path has no slash at its end, which the loader enforces; the HTTP verbs, bodies and return types of the emitted methods are not modelled.
- UrlCode.Quote: escapes quotes and backslashes only; control and non-ASCII characters are not escaped.
- RouteRows.RowExactly: the HTTP method of a route has no spaces.
- SurfaceBuild.Build: the translation tables, the oracle and the scanned structs are inputs; the walk over the sources is not modelled.
- SurfaceEnrich.Enrich: the parsed signature file is an input; its absence, which leaves the surface alone, is not modelled.
- Construction.BuildConstruction: which parameters are mechanisms of construction, the derived names of fields and options, and their translated types are inputs.
- TypeDedup.Package.EmitTypesFile: declarations are names; the text of the structs, enums and aliases is not modelled.
- Embeds.EmbedFor: command-dispatch resources, which embed nothing, are not modelled.
- Generated test calls, set_methods, container structs, constructors of resources and the client tree: text assembled from parts modelled here.
- The RELAY client, the HTTP client, the paginator, agents, prefabs and contexts are not part of this model; only calls to them are visible in the modelled files.
- Dump commands, mock servers, file output, formatting of the generated code and command lines.
