# AppMantenimiento core, modelled in Dafny

AppMantenimiento is an Android troubleshooting app. A technician scans a machine's QR code. The app then loads that machine's diagnostic template, a decision tree of QUESTION and END nodes, and walks the tree one YES/NO answer at a time. The walk keeps an undo path, and the technician can go back or restart. A contacts directory lists technicians and providers. Its cards offer call, WhatsApp and e-mail chips.

This project models the parts of the app that decide something:

- **DiagnosticModels** (`diagnostic_models.dfy`): the domain tree and its nodes, parts and enums.
- **DiagnosticRepository** (`diagnostic_repository.dfy`): the template loader `getTreeForMachine`. It has three steps:
  - It looks the machine up in the machines index.
  - It indexes the parts catalog by id.
  - It maps every raw node to a domain node, parsing the type exactly and the mode and result after upper-casing.

  Each step is a function returning a `Result`. The first unknown value fails the whole load.
- **DiagnosticTraversal** (`diagnostic_traversal.dfy`): the `DiagnosticViewModel` as a class. Its fields are the tree, the `nodesById` table, the current id, the path (a `seq<string>` undo stack) and the published UI state. It has methods for the load, `goTo`, `answerYes`, `answerNo`, `restart` and `goBack`. Its `Valid()` invariant holds from the start: before a load nothing is set; after one, the path is non-empty and starts at the root.
- **TemplateConsistency** (`template_consistency.dfy`): the unit test that validates every template. It checks four things, in this order:
  - the node ids are unique;
  - the root is a node;
  - every non-END reference names a node;
  - the recursive depth-first `visit` reaches every node.

  `Visit` is a recursive method with a termination measure. `CheckTemplate` passes exactly when the template is `Consistent`, which is stated with paths on the yes/no graph.
- **ValidatedTemplates** (`validated_templates.dfy`) links the test to the running app:
  - The loader keeps exactly the parts of a template the test reads.
  - On a tree that passes the test, every action the diagnostic screen offers keeps the traversal on real nodes, so the error state is never published.
- **ContactsRepository** (`contacts_repository.dfy`): `getContacts`. It picks the technicians or providers list and maps each entry, with the type chosen by a case-insensitive match on "technician". It then sorts with `sortedWith`: emergency contacts first, then favourites, then by lower-cased name. The sort is modelled as the stable insertion sort it is equivalent to. It is proved to be a permutation, ordered and stable.
- **ContactsScreen** (`contacts_screen.dfy`): the tab clamp and tab state, the empty-state choice, the WhatsApp number filter, the three URIs and the chip visibility rules.
- **ScannerScreen** (`scanner_screen.dfy`): both QR scanner screens, in one model. The two differ only in their id pattern:
  - `Lenient` is `^[A-Za-z0-9._-]{3,}$` (presentation scanner);
  - `Strict` is `^[A-Z0-9_]{3,}$` (ui scanner).

  The module covers the first-barcode trim-and-match acceptance, the once-only `handled` latch, the torch and the permission tri-state.
- **KotlinText**, **Collections** and **Wrappers** hold the Kotlin library behaviour the core relies on: `isWhitespace`, `trim`, `uppercase`/`lowercase`, `equals(ignoreCase)`, `compareTo`, `associateBy`, `toSet`, and the `Option`/`Result`/`Outcome` types.

Four behaviours of the code shape what the model promises:

- Each template id is read from one path. There is no per-locale fallback.
- The catalog's `nodeRefs` are parsed but never merged into node parts. `ToDetailDropsOnlyNodeRefs` shows they are the one field a part's detail loses.
- A node's parts are not deduplicated: each reference is resolved in order, repeats included.
- The loader checks neither the root nor the yes/no targets; only the unit test does. `LoadDoesNotCheckRoot` and `LoadDoesNotCheckTargets` show that changing either never changes whether a load succeeds. `RootlessTemplateLoads` loads a template with no nodes at all.

Source paths below are relative to the repository root. `P` and `U` in the text stand for the presentation and ui `ScannerScreen.kt` files.

## Model

| member | source | states |
|---|---|---|
| KotlinText.IsWhitespace | app/src/main/java/com/emagioda/myapp/presentation/screen/scanner/ScannerScreen.kt:163 | the characters `trim()` strips: what `Trim` keeps has none of them at either end, and padding made only of them is removed entirely (`Trim`, `TrimRemovesPadding`) |
| KotlinText.IsBlank | app/src/main/java/com/emagioda/myapp/presentation/screen/contacts/ContactsScreen.kt:198 | the strings `Trim` empties, and only those (`Trim`) |
| KotlinText.IsNullOrBlank | app/src/main/java/com/emagioda/myapp/presentation/screen/contacts/ContactsScreen.kt:198-205 | absent or blank: each contact chip is shown exactly when its value is neither (`ContactsScreen.ChipsFor`) |
| KotlinText.IsDigit | app/src/main/java/com/emagioda/myapp/presentation/screen/contacts/ContactsScreen.kt:102 | the ASCII digits: with '+', exactly the characters the WhatsApp filter keeps (`ContactsScreen.CleanWhatsAppCounts`) |
| KotlinText.Trim | app/src/main/java/com/emagioda/myapp/presentation/screen/scanner/ScannerScreen.kt:163 | `trim()` leaves no whitespace at either end, never lengthens, and yields the empty string exactly when the input is blank |
| KotlinText.TrimIsInfix | app/src/main/java/com/emagioda/myapp/presentation/screen/scanner/ScannerScreen.kt:163 | the trimmed value is the infix of the input that starts at its first non-whitespace character, with only whitespace before and after it |
| KotlinText.TrimRemovesPadding | app/src/main/java/com/emagioda/myapp/ui/scanner/ScannerScreen.kt:123 | trimming a value that has non-white ends, padded with blanks on both sides, gives the value back |
| KotlinText.Upper | app/src/main/java/com/emagioda/myapp/data/repository/DiagnosticRepositoryImpl.kt:33 | `uppercase()` keeps the length and maps every character by the upper-case mapping |
| KotlinText.Lower | app/src/main/java/com/emagioda/myapp/data/repository/ContactsRepositoryImpl.kt:39 | `lowercase()` keeps the length and maps every character by the lower-case mapping |
| KotlinText.UpperChar | app/src/main/java/com/emagioda/myapp/data/repository/DiagnosticRepositoryImpl.kt:33 | maps each lower-case ASCII letter to the upper-case letter 32 code points below it and leaves every other character as it is |
| KotlinText.LowerChar | app/src/main/java/com/emagioda/myapp/data/repository/ContactsRepositoryImpl.kt:39 | maps each upper-case ASCII letter to the lower-case letter 32 code points above it and leaves every other character as it is |
| KotlinText.CaseRoundTrip | app/src/main/java/com/emagioda/myapp/data/repository/ContactsRepositoryImpl.kt:20 | lower-casing undoes upper-casing on lower-case letters and the other way round, and each mapping is idempotent |
| KotlinText.EqualsIgnoreCase | app/src/main/java/com/emagioda/myapp/data/repository/ContactsRepositoryImpl.kt:20 | same length and the same characters after upper-casing, which is the same as equal upper-cased strings (`EqualsIgnoreCaseIsUpperEquality`) |
| KotlinText.EqualsIgnoreCaseIsUpperEquality | app/src/main/java/com/emagioda/myapp/data/repository/ContactsRepositoryImpl.kt:20 | `equals(ignoreCase = true)` holds exactly when the upper-cased strings are equal |
| KotlinText.StrLess | app/src/main/java/com/emagioda/myapp/data/repository/ContactsRepositoryImpl.kt:39 | lexicographic order with a proper prefix first: a strict total order (`StrLessIrreflexive`, `StrLessTransitive`, `StrLessTotal`), and exactly the negative sign of `compareTo` (`StrCompare`) |
| KotlinText.StrCompare | app/src/main/java/com/emagioda/myapp/data/repository/ContactsRepositoryImpl.kt:39 | `compareTo`: negative exactly when the first string sorts first, zero exactly when they are equal, positive exactly when the second sorts first |
| KotlinText.StrLessIrreflexive | app/src/main/java/com/emagioda/myapp/data/repository/ContactsRepositoryImpl.kt:39 | `compareTo` never puts a name strictly before itself |
| KotlinText.StrLessTransitive | app/src/main/java/com/emagioda/myapp/data/repository/ContactsRepositoryImpl.kt:39 | the name order of `thenBy` is transitive |
| KotlinText.StrLessTotal | app/src/main/java/com/emagioda/myapp/data/repository/ContactsRepositoryImpl.kt:39 | any two names are equal or ordered one way or the other |
| Collections.IndexBy | app/src/main/java/com/emagioda/myapp/data/repository/DiagnosticRepositoryImpl.kt:22 | `associateBy`: every element's key is in the map, each key maps to an element with that key, and an element not followed by another with its key is the one stored (the last wins) |
| Collections.IndexByKeys | app/src/main/java/com/emagioda/myapp/data/repository/DiagnosticRepositoryImpl.kt:22 | every key of an `associateBy` map is the key of some element |
| Collections.ElemSet | app/src/test/java/com/emagioda/myapp/DiagnosticJsonTest.kt:38 | `toSet()` holds exactly the list's elements |
| Collections.DistinctIffSetSize | app/src/test/java/com/emagioda/myapp/DiagnosticJsonTest.kt:37-44 | the test's size comparison is exact: the id list has no duplicates if and only if its set is as large as the list |
| DiagnosticRepository.MapBareNode | app/src/main/java/com/emagioda/myapp/domain/model/DiagnosticModels.kt:33-44 | a raw node giving only id, type name and title loads as the node the constructor builds with its defaults: no description, targets, shortcut, result or parts, and mode YES_NO |
| DiagnosticModels.EnumNamesAreDistinct | app/src/main/java/com/emagioda/myapp/domain/model/DiagnosticModels.kt:46-50 | the enum constants' names are pairwise distinct, so each name identifies one constant |
| DiagnosticRepository.FindMachine | app/src/main/java/com/emagioda/myapp/data/repository/DiagnosticRepositoryImpl.kt:14-16 | none exactly when no index entry has the id; otherwise the first entry with that id |
| DiagnosticRepository.ParseNodeType | app/src/main/java/com/emagioda/myapp/data/repository/DiagnosticRepositoryImpl.kt:27-31 | succeeds exactly on "QUESTION" and "END", case-sensitively, with the type of that name; any other string fails with that string |
| DiagnosticRepository.ParseNodeTypeName | app/src/main/java/com/emagioda/myapp/data/repository/DiagnosticRepositoryImpl.kt:27-31 | parsing a type's own name gives the type back |
| DiagnosticRepository.ParseQuestionMode | app/src/main/java/com/emagioda/myapp/data/repository/DiagnosticRepositoryImpl.kt:33-37 | an absent mode is YES_NO; a present one succeeds exactly when its upper case is CONTINUE_ONLY or YES_NO, as that mode; anything else fails naming the raw mode |
| DiagnosticRepository.ParseQuestionModeAnyCase | app/src/main/java/com/emagioda/myapp/data/repository/DiagnosticRepositoryImpl.kt:33-37 | a string parses to a mode if and only if its upper case is that mode's name |
| DiagnosticRepository.ParseEndResult | app/src/main/java/com/emagioda/myapp/data/repository/DiagnosticRepositoryImpl.kt:65-71 | an absent result stays absent; a present one succeeds exactly when its upper case is RESOLVED, NO_ISSUE or COMPONENT_FAULT; anything else fails naming the raw result |
| DiagnosticRepository.ParseEndResultAnyCase | app/src/main/java/com/emagioda/myapp/data/repository/DiagnosticRepositoryImpl.kt:65-71 | a string parses to a result if and only if its upper case is that result's name |
| DiagnosticRepository.CatalogIndex | app/src/main/java/com/emagioda/myapp/data/repository/DiagnosticRepositoryImpl.kt:22 | the catalog keyed by id: every part id is a key, keys map to parts carrying them, and with duplicate ids the later entry wins |
| DiagnosticRepository.CatalogIndexKeys | app/src/main/java/com/emagioda/myapp/data/repository/DiagnosticRepositoryImpl.kt:22 | only ids of catalog entries are keys |
| DiagnosticRepository.ToDetail | app/src/main/java/com/emagioda/myapp/data/repository/DiagnosticRepositoryImpl.kt:44-52 | a part's detail copies id, product, code, features, supplier, technical contacts and image name from its catalog entry |
| DiagnosticRepository.ToDetailDropsOnlyNodeRefs | app/src/main/java/com/emagioda/myapp/data/repository/DiagnosticRepositoryImpl.kt:44-52 | two catalog entries give the same detail exactly when they differ at most in `nodeRefs`, so nothing else is lost and `nodeRefs` never reaches a node |
| DiagnosticRepository.ResolveParts | app/src/main/java/com/emagioda/myapp/data/repository/DiagnosticRepositoryImpl.kt:39-55 | succeeds exactly when every reference is in the catalog, giving, in order, each reference's catalog detail with its qty; otherwise fails naming the first missing id |
| DiagnosticRepository.MapNode | app/src/main/java/com/emagioda/myapp/data/repository/DiagnosticRepositoryImpl.kt:25-74 | succeeds exactly when type, mode, parts and result are all known; the first failing check in source order names the error, and a parts failure carries exactly the parts resolution's error (the first id missing from the catalog); on success id, title, description, yes, no and providersShortcut are copied and type, mode, result and parts are the parsed ones |
| DiagnosticRepository.MapNodes | app/src/main/java/com/emagioda/myapp/data/repository/DiagnosticRepositoryImpl.kt:25-75 | succeeds exactly when every node maps, with the same length and order; otherwise fails with the error of the first node that fails |
| DiagnosticRepository.GetTreeForMachine | app/src/main/java/com/emagioda/myapp/data/repository/DiagnosticRepositoryImpl.kt:11-84 | succeeds exactly when the index is readable, maps the machine, its template and the catalog are readable and every raw node maps; otherwise fails at the first step that fails, in the code's order: unreadable index, unmapped machine, unreadable template, unreadable catalog, then the error of the first node that does not map with all before it mapping; a success comes from the first index entry for the machine, copies templateId, version, locale and root, and maps every raw node in order |
| DiagnosticRepository.LoadCopiesIdsAndTargets | app/src/main/java/com/emagioda/myapp/data/repository/DiagnosticRepositoryImpl.kt:57-83 | a loaded tree has the raw root and, node by node, the raw ids and yes/no targets |
| DiagnosticRepository.LoadDoesNotCheckRoot | app/src/main/java/com/emagioda/myapp/data/repository/DiagnosticRepositoryImpl.kt:57-83 | setting any template's root to any string never changes whether a load succeeds, and a load that succeeds gives the same nodes |
| DiagnosticRepository.LoadDoesNotCheckTargets | app/src/main/java/com/emagioda/myapp/data/repository/DiagnosticRepositoryImpl.kt:57-64 | setting any node's yes and no targets to anything never changes whether a load succeeds |
| DiagnosticRepository.RootlessTemplateLoads | app/src/main/java/com/emagioda/myapp/data/repository/DiagnosticRepositoryImpl.kt:77-83 | a template with no nodes, whose root therefore names nothing, loads |
| DiagnosticTraversal.NodesById | app/src/main/java/com/emagioda/myapp/presentation/viewmodel/DiagnosticViewModel.kt:49 | every node's id is a key, each key maps to a node with that id, and a node with a unique id is the one stored |
| DiagnosticTraversal.SynthEndNodeIsLoadedEnd | app/src/main/java/com/emagioda/myapp/presentation/viewmodel/DiagnosticViewModel.kt:151-159 | the synthesized END node is exactly what the loader makes of a raw END node with id `__END__`, the end title and description and nothing else, so its mode is YES_NO and it has no targets, shortcut, result or parts |
| DiagnosticTraversal.DiagnosticViewModel.LookupFindsTreeNodes | app/src/main/java/com/emagioda/myapp/presentation/viewmodel/DiagnosticViewModel.kt:126-129 | with a tree loaded, `nodesById[id]` is present exactly when some node of the tree has that id, and is then a node of the tree with that id |
| DiagnosticTraversal.DiagnosticViewModel.CurrentQuestionIsTreeQuestion | app/src/main/java/com/emagioda/myapp/presentation/viewmodel/DiagnosticViewModel.kt:78-80 | the node an answer acts on is a QUESTION node of the loaded tree whose id is the current id; with no tree there is none |
| DiagnosticTraversal.DiagnosticViewModel.CanGoBack | app/src/main/java/com/emagioda/myapp/presentation/viewmodel/DiagnosticViewModel.kt:120 | true exactly when the path has more than one entry; on a valid traversal that is exactly when a tree is loaded and the path is more than the root alone, and false means the path is empty or just the root |
| DiagnosticTraversal.Published | app/src/main/java/com/emagioda/myapp/presentation/viewmodel/DiagnosticViewModel.kt:141-149 | the published state shows the given node and the path, keeps the machine id, tree and loading flag, and carries the error exactly when the node is absent |
| DiagnosticTraversal.PublishedLastWins | app/src/main/java/com/emagioda/myapp/presentation/viewmodel/DiagnosticViewModel.kt:141-149 | a second publish overrides the first completely, and publishing the same node and path again changes nothing |
| DiagnosticTraversal.DropEndMarker | app/src/main/java/com/emagioda/myapp/presentation/viewmodel/DiagnosticViewModel.kt:102-104 | the path with a trailing END removed: putting back the END it removed, if any, gives the original path |
| DiagnosticTraversal.DiagnosticViewModel.constructor | app/src/main/java/com/emagioda/myapp/presentation/viewmodel/DiagnosticViewModel.kt:32-43 | nothing is loaded: no tree, an empty table and path, and a loading UI state |
| DiagnosticTraversal.DiagnosticViewModel.Load | app/src/main/java/com/emagioda/myapp/presentation/viewmodel/DiagnosticViewModel.kt:45-75 | on success the current id is the root, the path is [root] and the UI shows the root's lookup (absent if no node has the root id), with no error; on failure only the loading flag and the error change |
| DiagnosticTraversal.DiagnosticViewModel.GoTo | app/src/main/java/com/emagioda/myapp/presentation/viewmodel/DiagnosticViewModel.kt:122-149 | a null or blank target, or no tree, changes nothing; END is pushed, publishing the synthesized node, with the current id kept; any other id becomes current, is pushed only if a node carries it, and an absent node publishes the error |
| DiagnosticTraversal.DiagnosticViewModel.AnswerYes | app/src/main/java/com/emagioda/myapp/presentation/viewmodel/DiagnosticViewModel.kt:77-82 | changes nothing unless the current id names a QUESTION node, and then has exactly `goTo(yes)`'s effect |
| DiagnosticTraversal.DiagnosticViewModel.AnswerNo | app/src/main/java/com/emagioda/myapp/presentation/viewmodel/DiagnosticViewModel.kt:84-89 | changes nothing unless the current id names a QUESTION node, and then has exactly `goTo(no)`'s effect |
| DiagnosticTraversal.DiagnosticViewModel.Restart | app/src/main/java/com/emagioda/myapp/presentation/viewmodel/DiagnosticViewModel.kt:91-97 | with a tree, from any depth: path [root], current root, root's lookup published; without a tree nothing changes |
| DiagnosticTraversal.DiagnosticViewModel.GoBack | app/src/main/java/com/emagioda/myapp/presentation/viewmodel/DiagnosticViewModel.kt:99-118 | with one entry or fewer nothing changes; otherwise a trailing END is dropped, then either the root alone remains and becomes current, or one more entry is dropped and the new last entry becomes current; the path always shrinks and keeps the root first |
| DiagnosticTraversal.LoadedThreeNodeWalk | app/src/main/java/com/emagioda/myapp/presentation/viewmodel/DiagnosticViewModel.kt:49-64 | loading a three-node template gives path [q1], current q1, no way back, and the table of its three nodes |
| DiagnosticTraversal.WalkToEnd1 | app/src/main/java/com/emagioda/myapp/presentation/viewmodel/DiagnosticViewModel.kt:77-82 | two YES answers walk q1, q2, end1 and show end1 |
| TemplateConsistency.Ids | app/src/test/java/com/emagioda/myapp/DiagnosticJsonTest.kt:37-44 | one id per node in node order, and the ids are distinct exactly when no two nodes share an id |
| TemplateConsistency.NodeMap | app/src/test/java/com/emagioda/myapp/DiagnosticJsonTest.kt:46 | every node's id is a key, and each key maps to a node with that id |
| TemplateConsistency.NodeMapKeys | app/src/test/java/com/emagioda/myapp/DiagnosticJsonTest.kt:46-49 | an id is a key of the node map if and only if it is in the id list |
| TemplateConsistency.Refs | app/src/test/java/com/emagioda/myapp/DiagnosticJsonTest.kt:53 | `listOf(yes, no).filterNotNull()` holds exactly the node's present targets |
| TemplateConsistency.ClosedSetHoldsReachable | app/src/test/java/com/emagioda/myapp/DiagnosticJsonTest.kt:74-80 | a set holding the start and closed under non-END edges holds every id reachable from the start |
| TemplateConsistency.Visit | app/src/test/java/com/emagioda/myapp/DiagnosticJsonTest.kt:63-72 | `visit(id)` marks the id and terminates even on cyclic templates (a revisit or an unknown id ends the branch); all it newly marks is reachable from the id, and every newly marked id has all its non-END targets marked |
| TemplateConsistency.FirstDanglingRef | app/src/test/java/com/emagioda/myapp/DiagnosticJsonTest.kt:52-61 | none exactly when every non-END reference names a node; otherwise a reference of some node that is neither END nor an id, and the first such in the test's order (node by node, yes before no), every reference before it resolving |
| TemplateConsistency.UnmarkedAreUnreachable | app/src/test/java/com/emagioda/myapp/DiagnosticJsonTest.kt:74-76 | after the search from the root, the unmarked ids are exactly the node ids not reachable from the root |
| TemplateConsistency.NoneUnmarkedIffAllReachable | app/src/test/java/com/emagioda/myapp/DiagnosticJsonTest.kt:76-80 | the unreachable set is empty if and only if every node is reachable from the root |
| TemplateConsistency.CheckTemplate | app/src/test/java/com/emagioda/myapp/DiagnosticJsonTest.kt:35-81 | passes if and only if ids are distinct, the root is a node, references resolve and every node is reachable; fails in the test's order: duplicate ids, then a missing root, then the first dangling reference, then exactly the set of unreachable ids |
| TemplateConsistency.CheckTemplates | app/src/test/java/com/emagioda/myapp/DiagnosticJsonTest.kt:22-82 | fails on a missing directory or an empty one; passes if and only if there is a template and every template is consistent; otherwise names the first inconsistent one |
| ValidatedTemplates.LoadKeepsTestView | app/src/main/java/com/emagioda/myapp/data/repository/DiagnosticRepositoryImpl.kt:57-83 | the test reads the same root, ids and targets in a loaded tree as in its asset, so the two pass or fail the test together |
| ValidatedTemplates.ConsistentTreeResolves | app/src/test/java/com/emagioda/myapp/DiagnosticJsonTest.kt:37-61 | on a tree that passes the test, the view model's table holds the root, maps each node's id to that node, and holds every non-END target |
| ValidatedTemplates.AnswerStaysOnTrack | app/src/main/java/com/emagioda/myapp/presentation/viewmodel/DiagnosticViewModel.kt:122-148 | on a passing tree, `goTo` on a shown question's answer keeps the traversal on real nodes with no error |
| ValidatedTemplates.BackStaysOnTrack | app/src/main/java/com/emagioda/myapp/presentation/viewmodel/DiagnosticViewModel.kt:99-118 | on a passing tree, `goBack` keeps the traversal on real nodes with no error |
| ValidatedTemplates.LoadValidated | app/src/main/java/com/emagioda/myapp/presentation/viewmodel/DiagnosticViewModel.kt:49-64 | loading a passing tree puts the traversal on track at the root |
| ValidatedTemplates.TapYes | app/src/main/java/com/emagioda/myapp/presentation/viewmodel/DiagnosticViewModel.kt:77-82 | YES on a shown question stays on track |
| ValidatedTemplates.TapNo | app/src/main/java/com/emagioda/myapp/presentation/viewmodel/DiagnosticViewModel.kt:84-89 | NO on a shown question stays on track |
| ValidatedTemplates.TapBack | app/src/main/java/com/emagioda/myapp/presentation/viewmodel/DiagnosticViewModel.kt:99-118 | back, from anywhere on track, stays on track |
| ValidatedTemplates.TapRestart | app/src/main/java/com/emagioda/myapp/presentation/viewmodel/DiagnosticViewModel.kt:91-97 | restart, from anywhere on track, stays on track with path [root] |
| ContactsRepository.MapContact | app/src/main/java/com/emagioda/myapp/data/repository/ContactsRepositoryImpl.kt:18-33 | the type is TECHNICIAN exactly when the raw type equals "technician" ignoring case, that is when its upper case is "TECHNICIAN", and PROVIDER otherwise; every other field is copied |
| ContactsRepository.Precedes | app/src/main/java/com/emagioda/myapp/data/repository/ContactsRepositoryImpl.kt:36-40 | emergency first, then favourite, then ascending lower-cased name: exactly the negative sign of the comparator (`Compare`), and a strict order (`Trichotomy`, `PrecedesTransitive`) |
| ContactsRepository.Tied | app/src/main/java/com/emagioda/myapp/data/repository/ContactsRepositoryImpl.kt:36-40 | same flags and the same lower-cased name: exactly the contacts the comparator finds equal (`Compare`), ordered neither way (`Trichotomy`) |
| ContactsRepository.Compare | app/src/main/java/com/emagioda/myapp/data/repository/ContactsRepositoryImpl.kt:36-40 | `compareByDescending { isEmergency }.thenByDescending { isFavorite }.thenBy { name.lowercase() }`: negative exactly when the first contact precedes, zero exactly when tied, positive exactly when the second precedes |
| ContactsRepository.Trichotomy | app/src/main/java/com/emagioda/myapp/data/repository/ContactsRepositoryImpl.kt:36-40 | the comparator orders any two contacts one way, the other, or finds them tied, and exactly one of these |
| ContactsRepository.PrecedesTransitive | app/src/main/java/com/emagioda/myapp/data/repository/ContactsRepositoryImpl.kt:36-40 | the comparator's strict order is transitive |
| ContactsRepository.Insert | app/src/main/java/com/emagioda/myapp/data/repository/ContactsRepositoryImpl.kt:36 | inserting adds exactly the one contact to the multiset |
| ContactsRepository.InsertSorted | app/src/main/java/com/emagioda/myapp/data/repository/ContactsRepositoryImpl.kt:36-40 | inserting into an ordered list keeps it ordered |
| ContactsRepository.InsertTieClass | app/src/main/java/com/emagioda/myapp/data/repository/ContactsRepositoryImpl.kt:36-40 | the inserted contact goes ahead of the contacts it is tied with, and every tie class is otherwise unchanged |
| ContactsRepository.SortContacts | app/src/main/java/com/emagioda/myapp/data/repository/ContactsRepositoryImpl.kt:36-40 | the sort is a permutation: same multiset, same length |
| ContactsRepository.SortContactsSorted | app/src/main/java/com/emagioda/myapp/data/repository/ContactsRepositoryImpl.kt:36-40 | no contact follows one it should precede: emergency first, then favourite, then ascending lower-cased name |
| ContactsRepository.SortContactsStable | app/src/main/java/com/emagioda/myapp/data/repository/ContactsRepositoryImpl.kt:36-40 | contacts tied on all three keys keep their source order |
| ContactsRepository.GetContacts | app/src/main/java/com/emagioda/myapp/data/repository/ContactsRepositoryImpl.kt:12-41 | the result has one entry per entry of the list the type selects (technicians for TECHNICIAN, providers for PROVIDER) and is a permutation of that list with each entry mapped |
| ContactsRepository.GetContactsSpec | app/src/main/java/com/emagioda/myapp/data/repository/ContactsRepositoryImpl.kt:12-41 | the result is a permutation of the mapped list, ordered by the comparator, with contacts the comparator ties in their asset order |
| ContactsScreen.ClampTab | app/src/main/java/com/emagioda/myapp/presentation/screen/contacts/ContactsScreen.kt:41 | `coerceIn(0, 1)`: in range, unchanged when in range, 0 below and 1 above |
| ContactsScreen.ContactsTabs.constructor | app/src/main/java/com/emagioda/myapp/presentation/screen/contacts/ContactsScreen.kt:41-46 | the tab starts at the clamped initial tab, so the screen lists technicians for an initial tab of 0 or less and providers otherwise |
| ContactsScreen.ContactsTabs.OnTabClick | app/src/main/java/com/emagioda/myapp/presentation/screen/contacts/ContactsScreen.kt:79 | clicking a tab selects it, the tab stays in range, and the screen then lists technicians for tab 0 and providers for tab 1 |
| ContactsScreen.ShownContent | app/src/main/java/com/emagioda/myapp/presentation/screen/contacts/ContactsScreen.kt:92-95 | the list for a contact type shows the empty state exactly when its asset list is empty; otherwise one card per entry, the mapped entries ordered by the comparator |
| ContactsScreen.KeptInWhatsApp | app/src/main/java/com/emagioda/myapp/presentation/screen/contacts/ContactsScreen.kt:102 | digits and '+': exactly the characters the filter keeps, each as often as it occurs (`CleanWhatsAppCounts`), and a number made only of them is left as it is (`CleanWhatsAppFixedPoints`) |
| ContactsScreen.CleanWhatsApp | app/src/main/java/com/emagioda/myapp/presentation/screen/contacts/ContactsScreen.kt:102 | the cleaned number holds only digits and '+' and is no longer than the number |
| ContactsScreen.CleanWhatsAppCounts | app/src/main/java/com/emagioda/myapp/presentation/screen/contacts/ContactsScreen.kt:102 | each digit and '+' occurs as often as in the number, and every other character is gone |
| ContactsScreen.CleanWhatsAppKeepsOrder | app/src/main/java/com/emagioda/myapp/presentation/screen/contacts/ContactsScreen.kt:102 | the kept characters stay in their original order |
| ContactsScreen.CleanWhatsAppAppend | app/src/main/java/com/emagioda/myapp/presentation/screen/contacts/ContactsScreen.kt:102 | cleaning a concatenation cleans each part |
| ContactsScreen.CleanWhatsAppFixedPoints | app/src/main/java/com/emagioda/myapp/presentation/screen/contacts/ContactsScreen.kt:102 | a number is unchanged if and only if it holds only digits and '+' |
| ContactsScreen.CleanWhatsAppIdempotent | app/src/main/java/com/emagioda/myapp/presentation/screen/contacts/ContactsScreen.kt:102 | cleaning twice is cleaning once |
| ContactsScreen.SchemePayload | app/src/main/java/com/emagioda/myapp/presentation/screen/contacts/ContactsScreen.kt:99-106 | what a URI carries after a scheme: present exactly when the URI starts with the scheme, and then the URI is the scheme followed by it |
| ContactsScreen.DialUri | app/src/main/java/com/emagioda/myapp/presentation/screen/contacts/ContactsScreen.kt:99 | `tel:` followed by exactly the phone: reading the dial scheme back gives the phone, and neither the WhatsApp base nor `mailto:` matches |
| ContactsScreen.WhatsAppUri | app/src/main/java/com/emagioda/myapp/presentation/screen/contacts/ContactsScreen.kt:103 | `https://wa.me/` followed by exactly the cleaned number, so only digits and '+' after the base; reading the base back gives the cleaned number, and neither other scheme matches |
| ContactsScreen.MailUri | app/src/main/java/com/emagioda/myapp/presentation/screen/contacts/ContactsScreen.kt:106 | `mailto:` followed by exactly the address: reading the scheme back gives the address, and neither other scheme matches |
| ContactsScreen.UrisAreDistinctAndInjective | app/src/main/java/com/emagioda/myapp/presentation/screen/contacts/ContactsScreen.kt:99-106 | no dial, WhatsApp and mail URI coincide; equal dial or mail URIs carry equal values; WhatsApp URIs are equal if and only if the cleaned numbers are |
| ContactsScreen.ChipsFor | app/src/main/java/com/emagioda/myapp/presentation/screen/contacts/ContactsScreen.kt:194-206 | the call chip shows exactly when the list of phones is present, non-empty and its first phone not blank, the WhatsApp chip when the WhatsApp value is present and not blank, the email chip like the call chip on the emails; each opens its URI, which carries exactly the first phone, the cleaned number or the first email |
| ContactsScreen.ChipsUseFirstValuesOnly | app/src/main/java/com/emagioda/myapp/presentation/screen/contacts/ContactsScreen.kt:194-196 | two contacts with the same first phone, first email and WhatsApp value get the same chips: the other phones and emails never matter |
| ContactsScreen.WhatsAppChipWithoutDigits | app/src/main/java/com/emagioda/myapp/presentation/screen/contacts/ContactsScreen.kt:201-202 | a non-blank WhatsApp value with no digit or '+' ("n/a") still shows the chip, which opens the bare wa.me base |
| ScannerScreen.Matches | app/src/main/java/com/emagioda/myapp/presentation/screen/scanner/ScannerScreen.kt:119 | a whole-string match: three or more characters, all in the class; every U match is a P match (`StrictImpliesLenient`) but not conversely (`LenientDoesNotImplyStrict`), and no match holds whitespace (`MatchHasNoWhitespace`) |
| ScannerScreen.InClass | app/src/main/java/com/emagioda/myapp/ui/scanner/ScannerScreen.kt:81 | the two character classes: `[A-Za-z0-9._-]` for P and `[A-Z0-9_]` for U, neither holding whitespace (`ClassHasNoWhitespace`) |
| ScannerScreen.StrictImpliesLenient | app/src/main/java/com/emagioda/myapp/ui/scanner/ScannerScreen.kt:81 | every id the U pattern accepts, the P pattern accepts |
| ScannerScreen.LenientDoesNotImplyStrict | app/src/main/java/com/emagioda/myapp/presentation/screen/scanner/ScannerScreen.kt:119 | the converse fails: "ab.c" passes P's pattern but not U's |
| ScannerScreen.Candidate | app/src/main/java/com/emagioda/myapp/presentation/screen/scanner/ScannerScreen.kt:163 | present exactly when there is a first barcode with a raw value, and then that value trimmed: no longer than the raw value, empty exactly when it is blank, and otherwise without whitespace at either end |
| ScannerScreen.AcceptedId | app/src/main/java/com/emagioda/myapp/presentation/screen/scanner/ScannerScreen.kt:163-165 | an id is accepted exactly when the trimmed first raw value matches the pattern (three or more characters of its class); it is that trimmed value and holds no whitespace anywhere |
| ScannerScreen.MatchHasNoWhitespace | app/src/main/java/com/emagioda/myapp/ui/scanner/ScannerScreen.kt:123-125 | a string matching either pattern holds no whitespace anywhere |
| ScannerScreen.AcceptedIdIgnoresLaterBarcodes | app/src/main/java/com/emagioda/myapp/ui/scanner/ScannerScreen.kt:123 | only the first barcode decides; the ones after it never change the outcome |
| ScannerScreen.PaddedIdAccepted | app/src/main/java/com/emagioda/myapp/presentation/screen/scanner/ScannerScreen.kt:163-165 | a matching id padded with blanks is accepted as the bare id |
| ScannerScreen.CameraPreview.constructor | app/src/main/java/com/emagioda/myapp/presentation/screen/scanner/ScannerScreen.kt:118-124 | the latch and the torch start off, no camera is bound and nothing is scanned |
| ScannerScreen.CameraPreview.Analyze | app/src/main/java/com/emagioda/myapp/presentation/screen/scanner/ScannerScreen.kt:153-169 | with the latch set a frame changes nothing; an accepted id sets the latch and is passed on alone; every other frame changes nothing; at most one id is ever passed on (as in U:113-129) |
| ScannerScreen.CameraPreview.BindCamera | app/src/main/java/com/emagioda/myapp/presentation/screen/scanner/ScannerScreen.kt:185-191 | a successful bind sets the camera's torch to the button's state; a failed one changes nothing |
| ScannerScreen.CameraPreview.ToggleTorch | app/src/main/java/com/emagioda/myapp/presentation/screen/scanner/ScannerScreen.kt:214-216 | the button negates the torch flag and, with a bound camera, sends the new state to it (as in U:164-166) |
| ScannerScreen.SecondIdIsDropped | app/src/main/java/com/emagioda/myapp/presentation/screen/scanner/ScannerScreen.kt:154 | after two accepted frames only the first id has been passed on |
| ScannerScreen.CameraPermission.constructor | app/src/main/java/com/emagioda/myapp/presentation/screen/scanner/ScannerScreen.kt:52 | the permission starts unknown, with no request made, and the screen shows nothing |
| ScannerScreen.CameraPermission.InitialCheck | app/src/main/java/com/emagioda/myapp/ui/scanner/ScannerScreen.kt:47-59 | the first check sets the permission from the system's answer and requests it once only when it is missing; the screen then shows the preview or the rationale |
| ScannerScreen.CameraPermission.OnRequestClicked | app/src/main/java/com/emagioda/myapp/presentation/screen/scanner/ScannerScreen.kt:68-70 | the rationale's button makes one more request and leaves the state |
| ScannerScreen.CameraPermission.OnPermissionResult | app/src/main/java/com/emagioda/myapp/presentation/screen/scanner/ScannerScreen.kt:53-72 | the answer to a request sets the permission to granted or denied, and the screen shows the preview or the rationale accordingly |

## Left out

- The coroutine load of `DiagnosticViewModel` (the IO dispatcher and the switch back to the main thread) is modelled as one sequential `Load` call. The tree or the failure is its parameter.
- Asset reads and Gson parsing are not modelled; only their results are, as datatypes. A file that cannot be read is an absent field of `Assets`, and a failed template load is a `LoadError`. A missing or malformed contacts asset throws in the app and is not modelled: `ContactsSource` holds already-parsed lists.
- The order of `listFiles` in the template test is not modelled; `CheckTemplates` takes the templates in a given order. Gson's reading of a template file is not modelled either.
- `Visit` passes the visited set in and returns the updated set. It does not mutate one shared set; the order of marking is the same.
- Answering while the END node is shown is not covered by the on-track lemmas. `DiagnosticScreen.kt` shows the answer buttons only for QUESTION nodes (line 133). The model's view-model methods still handle that call exactly as the code does.
- Camera binding, ML Kit decoding, the frame executor and `imageProxy.close()` are not modelled. `CameraPreview.Analyze` treats a frame's decoding and its success listener as one step. The app gets the same effect because a frame is closed only when its processing completes, and the analyzer receives the next frame only after that.
- `remember` versus `rememberSaveable` (state surviving recreation) and all Compose rendering are not modelled. This includes the overlays, the zoom/pan clamp, the theme and navigation.
- `toUri()` and `Uri.encode` are not modelled: the URIs are the strings handed to them.
- KotlinText.Upper: the model maps only ASCII letters. The app's `uppercase()` uses the full Unicode mapping, including characters that change length.
- KotlinText.Lower: the model maps only ASCII letters, whereas `lowercase()` maps all of Unicode.
- ContactsRepository.MapContact: `equals(ignoreCase = true)` is the ASCII comparison. Java's per-character upper/lower comparison of other letters is not modelled.
- ContactsScreen.CleanWhatsApp: `isDigit()` is the ASCII digits. Kotlin also keeps other Unicode decimal digits.
- KotlinText.StrLessTotal: `compareTo` is modelled on Unicode scalar values. Kotlin compares UTF-16 code units, which orders supplementary characters differently from those above U+E000.
- ScannerScreen.CameraPermission.InitialCheck: the permission launcher and the system dialog are not modelled. A request is a counter, and its answer is the `OnPermissionResult` call.
- The machines list behind `MachineRepositoryImpl`, the use cases and the repository interfaces only forward to the modelled operations, and are not modelled.
