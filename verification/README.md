# sqlx-v2, modelled in Dafny

The repository maps SQL rows to Go structs and named parameters to driver placeholders.
This project models its three hard parts and proves what they promise.

**The placeholder compiler** (`internal/bind/bind.go`). `NamedQuery.dfy` holds the one-pass
byte machine and its two-stage meaning: `Lex` reads a query into tokens without knowing the
dialect, `Render` prints tokens in one. `NamedQueryLaws.dfy` proves that reading is a
bijection between the accepted queries and the well-formed token lists, which says exactly
what is accepted and why anything else is refused; `NameReading.dfy` says byte by byte what happens
at a colon. `Rebind.dfy`, `Dialects.dfy`, `InExpand.dfy`, `InArguments.dfy`, `SliceBind.dfy` and
`SliceDialects.dfy` treat renumbering, its agreement with the compiler, slice arguments and
slice binding. `CompileCache.dfy` models the shared cache with
real arrays, so that callers can write into what they were given; `CompileRaces.dfy` is the same
cache under any interleaving of callers.

**Flattening and addressing** (`internal/reflectx/reflectx.go`). `Types.dfy` is a family of
types with layouts and the meaning of index paths; `Flatten.dfy` is the recursive walk and
`FlattenLaws.dfy` what it yields, `TagLaws.dfy` the same told by the fields' tags, flags and
types. `Memory.dfy` has the traversal and the two reflective walks
over a heap with nil pointer slots, `MemoryLaws.dfy` their agreement and memory safety.
`Disjoint.dfy` shows exactly when two columns are read into the same byte, pointers included,
and `BufferGrowth.dfy` that it never happens in the rows of a growing result buffer.
`TypeMapProtocol.dfy` is the concurrent type cache as a state machine.

**The scan engine** (`engine.go`, `generics.go`, `helpers.go`, `rows.go`). `ScanMeta.dfy` has
the metadata, the in-place sort and the two filling loops. `LazyOrder.dfy` shows that lazy
allocation does not depend on its order: each run is a stateless reading of the starting heap
under a renaming of fresh objects. `ScanLaws.dfy` concludes that the fast path refines the
plain one, and `BindScan.dfy` that binding a name reads what scanning its column filled.
`MetaCache.dfy`, `RowsScan.dfy`, `RowLoops.dfy` and `ScanPool.dfy` cover the
metadata cache, the per-result-set cache, the row loops and the buffer pool.

Text is `string`, one `char` for one byte; the code only compares bytes and hashes them, so
every result holds for byte strings in particular. Lengths, counters and object identities
are unbounded; the column hash is the 64-bit wrapping one. What the outside world decides is
a parameter: the rows a source delivers and its errors, what a consumer or callback answers,
which entry the pool hands out, in which order goroutines move.

## Where the code does not meet the property one would expect

Each comes with its exact condition and an input that fails.

- Compiling to `?` and rebinding equals compiling to a counting dialect if and only if the
  query has no `?` of its own (`Dialects.DialectsCommute`, input `Dialects.LiteralMarkDiffers`).
  The same condition decides whether a slice binding has as many marks as arguments
  (`SliceBind.SliceValuesAligned`) and whether one row bound as a slice gives what it gives as a
  struct (`SliceBind.OneRowIsAStruct`); `SliceBind.LiteralMarkMisaligns` is an input for both.
  For the named dialect the one row also needs names `arg1`, `arg2`, and so on
  (`SliceDialects.OneRowNamed`, input `SliceDialects.NamedRowDiffers`).
- A name that ends the query loses its last byte if and only if that is `_` or `.`
  (`NameReading.LastNameIsRead`, input `NameReading.LastUnderscoreIsCut`).
- In every renumbering dialect, some other query rebinds to the same text as a given one if and
  only if the given one has a `?` or the dialect's first placeholder occurs in it
  (`Rebind.CollidesExactly`, input `Rebind.PrefixCharacterCollides`).
- `SelectIter` calls its consumer again after the consumer stopped if and only if the loop
  starts, the consumer stops at some decoded row, and closing the rows fails
  (`RowLoops.StoppedConsumer`, input `RowLoops.StoppedConsumerIsCalledAgain`).
- `getScan` and `GetG` differ exactly when there is no row, no error after the rows, and a
  close error (`RowLoops.GetsAgree`, input `RowLoops.GetsDiffer`).
- Two mappers used with one type share metadata entries. After a first call that succeeds, the
  second gets a right answer if and only if the two name tables give every column the same
  metadata and, in safe mode, the second knows every column
  (`MetaCache.TwoMappersShareEntries`, input `MetaCache.TwoMappersDisagree`).
- A pointer to a slice passes the test for slices in `In` (bind.go:118-124), and its length is
  then asked for without following it (bind.go:168), which panics. That happens if and only if
  some argument is such a pointer and all before it can be used (`InExpand.PanicsExactly`, input
  `InExpand.OneSlicePointerPanics`).
- A column can be scanned whose name cannot be bound: flattening lists embedded fields of
  unexported type, scanning writes through their address, and binding asks for their value,
  which the reflection library refuses with a panic (bind.go:277-297, 319-326, 376-382). Binding
  a struct panics if and only if the query compiles, some name resolves to an unexported field,
  and every name before it to an exported one (`BindScan.StructBindingReads`; for slices
  `BindScan.SliceBindingReads`, which also says when a nil element panics; input
  `BindScan.EmbeddedValuePanics`).
- The reflective walk sets nil pointers and maps (reflectx.go:364-370), which panics below an
  unexported field; following steps does not. The walk panics if and only if some field of the
  path is unexported and a nil pointer or map, or a pointer or map behind a nil pointer
  (`BindScan.EntryTraversal`, for arbitrary paths `MemoryLaws.TraversalIsByIndexes`; input
  `BindScan.EmbeddedPointerPanics`). Otherwise walk and steps agree.
- Two columns can be read into the same bytes. That happens if and only if their fields overlap
  in the starting heap, nil pointers leading to objects of their own
  (`Disjoint.DestinationsShareExactly`, input `Disjoint.AliasedPointersOverlap`: two pointers of
  the caller's that meet). Where no pointer followed below the parting of the two fields was set
  they do not overlap (`Disjoint.PlacesApart`), and a new row has none set, whatever the rows
  before it in the same buffer hold and however often the buffer grew
  (`Disjoint.DestinationsApart`, `BufferGrowth.EveryRowOfRunIsNew`).

## Model

| member | source | states |
|---|---|---|
| NamedQuery.CompileNamedQuery | internal/bind/bind.go:446-507 | the byte loop returns exactly the rendering and names of the query's tokens in every dialect, or the position of the offending colon with the names read before it |
| NamedQuery.RenderConcat | internal/bind/bind.go:477-495 | placeholders of later text are numbered on from the parameters of earlier text |
| NamedQueryLaws.ReadingLosesNothing | internal/bind/bind.go:453-504 | the tokens of an accepted query print back to that query; a refused query is refused at a colon that follows a non-empty name |
| NamedQueryLaws.PrintedIsRead | internal/bind/bind.go:453-504 | every well-formed token list is what reading its own text gives |
| NamedQueryLaws.AcceptedExactly | internal/bind/bind.go:453-507 | a query compiles if and only if it is the text of a well-formed token list, and then to that list's rendering and names; the last-byte rule for `_` and `.` and the dropped last colon are part of well-formedness |
| NamedQueryLaws.TemplateRoundTrip | internal/bind/bind.go:453-507 | writing a template with doubled colons and compiling it gives its names in order and its text with the dialect's placeholders |
| NamedQueryLaws.DoublingUndone | internal/bind/bind.go:454-457 | without parameters compiling undoes colon doubling, for every text |
| NameReading.NameIsRead | internal/bind/bind.go:453-504 | after a colon, a word of letters, digits, `_` and `.` up to any byte that is none of these nor a colon is the name exactly; text before it is kept and reading goes on at that byte |
| NameReading.LastNameIsRead | internal/bind/bind.go:469-500 | a word that ends the query is the name, without its last byte if that is `_` or `.`, which stays as text |
| NameReading.LastUnderscoreIsCut | internal/bind/bind.go:469-500 | `:a_` is read as the name `a` and an underscore |
| NameReading.NameCutShort | internal/bind/bind.go:459-462 | a colon inside a name is an error at that colon |
| NameReading.ColonIsKept | internal/bind/bind.go:454-468 | `::` becomes one colon and `:=` is kept |
| NameReading.EmptyNameIsRead | internal/bind/bind.go:471-500 | before any other byte the name is empty and a placeholder is written |
| NameReading.PlainIsKept | internal/bind/bind.go:501-504 | text without colons is kept, a lone colon at the end dropped |
| NameReading.OneName | internal/bind/bind.go:477-495 | what is written for one name in each dialect |
| NameReading.Styles | internal/bind/bind.go:88-110 | what each dialect writes for a name, and for a mark when rebinding, unknown dialects included |
| Text.DecimalDenotes | internal/bind/bind.go:485-487 | the digits written for a placeholder denote its number, without leading zero |
| Rebind.RebindQuery | internal/bind/bind.go:81-111 | the re-slicing loop numbers the marks from 1 and keeps all other text |
| Rebind.NumberedConcat | internal/bind/bind.go:90-110 | numbering a text is numbering its parts, the second from the marks of the first on |
| Rebind.NumberedLength | internal/bind/bind.go:88-110 | the output is as long as the input, each mark traded for the exact length of its placeholder |
| Rebind.StrippedUndoes | internal/bind/bind.go:92-110 | on queries without the prefix character an inverse recovers the query, even where digits follow a mark |
| Rebind.ReboundInjective | internal/bind/bind.go:81-111 | rebinding is injective on such queries |
| Rebind.CollidesExactly | internal/bind/bind.go:88-110 | some other query rebinds to the same text if and only if this one has a mark or the dialect's first placeholder occurs in it |
| Rebind.PrefixCharacterCollides | internal/bind/bind.go:95-105 | a query with a mark and the query with `$1` in its place rebind to one text |
| Rebind.NoMarksLeft | internal/bind/bind.go:92-110 | no mark survives numbering |
| Dialects.DialectsCommute | internal/bind/bind.go:477-495 | rebinding the `?` compilation equals compiling to the counting dialect if and only if the query has no `?` of its own |
| Dialects.LiteralMarkDiffers | internal/bind/bind.go:477-495 | a lone `?`, compiled both ways to different texts |
| Dialects.NamedKeepsQuery | internal/bind/bind.go:478-480 | the named dialect leaves a query as it is if and only if it has no doubled colon and no lone colon at its end |
| Dialects.RenderedMarks | internal/bind/bind.go:481-482 | a `?` compilation has one mark per parameter and one per literal `?` |
| Dialects.NamesIgnoreDialect | internal/bind/bind.go:476 | acceptance, error and names do not depend on the dialect |
| InExpand.In | internal/bind/bind.go:137-239 | the moving-window loop replaces each mark by its argument's block; with scalars only, and then alone, query and arguments come back as they are, whatever the number of marks; otherwise the first unusable argument, or which of marks and arguments are more, decides the error |
| InExpand.ReadArgs | internal/bind/bind.go:158-181 | arguments are read in order and the first unusable one decides the error: a failing `Value()`, an empty slice, or a pointer to a slice, whose length cannot be taken |
| InExpand.PanicsExactly | internal/bind/bind.go:113-175 | it panics if and only if some argument is a pointer to a slice and every argument before it can be used |
| InExpand.OneSlicePointerPanics | internal/bind/bind.go:113-175 | a pointer to a slice as the only argument |
| InExpand.MarksMatchArgs | internal/bind/bind.go:196-232 | as many marks come out as flattened arguments |
| InExpand.BlocksNumberedInOrder | internal/bind/bind.go:217-224 | after rebinding each argument's block is numbered on from the earlier lengths |
| InExpand.BlockStarts | internal/bind/bind.go:217-224 | the numbered text splits at mark `i` into what stands before it, the block of argument `i` starting after all earlier places, and the rest numbered on |
| InExpand.ExpandedLinesUp | internal/bind/bind.go:189-238 | as many marks as flattened arguments; after rebinding, the block in place of mark `i` is numbered from one more than the places of the arguments before it, and those places hold argument `i`'s elements in order |
| InExpand.InByCases | internal/bind/bind.go:158-236 | the branches of the call, told by the arguments and the number of marks |
| InArguments.ArgumentInPlace | internal/bind/bind.go:196-238 | between what becomes of the query and the arguments before and after mark `i` stand the values argument `i` brings along, a slice's elements in order, and as many marks separated by a comma and a space |
| SliceBind.BindStruct | internal/bind/bind.go:313-340 | query and values of a struct binding, or what is wrong first: the query, a nil pointer (panic), a missing name, or a name of an unexported field (panic) |
| SliceBind.BindRows | internal/bind/bind.go:368-387 | values are collected row after row, name after name, up to the first nil row, missing name or unexported field |
| SliceBind.CloneGroup | internal/bind/bind.go:393-420 | the group that opens at the last `(` before the first mark and closes at the first `)` after the last is written once per row with `, ` between, everything else kept; refused if and only if there is no such group |
| SliceBind.ClonedAtSplit | internal/bind/bind.go:393-420 | a text has a group to clone if and only if it splits into a text without marks, a group in parentheses and a text without marks, the group having no `(` before its first mark and no `)` after its last; and which text cloning gives |
| SliceBind.JoinedAt | internal/bind/bind.go:408-412 | copy `r` of the group stands after `r` copies and separators |
| SliceBind.BindArray | internal/bind/bind.go:347-426 | the whole slice binding, check by check in the order the code makes them, down to the text that is renumbered |
| SliceBind.ParametersLeaveMarks | internal/bind/bind.go:364-420 | a query with a parameter has a mark, so the branch without one is never taken |
| SliceBind.GroupHoldsMarks | internal/bind/bind.go:398-405 | the cloned group holds every mark |
| SliceBind.ClonedNumbered | internal/bind/bind.go:404-423 | cloning and numbering touch only the group |
| SliceBind.SliceTextAligned | internal/bind/bind.go:389-423 | clone `r` is numbered from the marks of the clones before it, text outside the group stays |
| SliceDialects.SliceTextIsRendered | internal/bind/bind.go:389-423 | without a `?` of the author's and in a counting dialect, the text is the query's own tokens in that dialect, those of the group once per row, row `r` numbered from `r * p + 1`; all parameters are in the group |
| SliceDialects.NamePlace | internal/bind/bind.go:477-495 | in a rendering from `k`, the placeholder with number `k + j` stands where name `j` stood |
| SliceBind.SliceValuesAligned | internal/bind/bind.go:368-425 | argument `r * p + j` is row `r`'s value under name `j`; marks and arguments match in number if and only if the author wrote no `?` |
| SliceBind.OneRowIsAStruct | internal/bind/bind.go:330-340 | a one-row slice gives what the struct binding gives; for counting dialects if and only if the query has no `?` |
| SliceDialects.OneRowNamed | internal/bind/bind.go:330-340 | for the named dialect a one-row slice gives what the struct binding gives if and only if the query has no `?` and its names are `arg1`, `arg2`, and so on |
| SliceDialects.NamedRowDiffers | internal/bind/bind.go:330-340 | one row bound to `(:a)` in the named dialect, both ways |
| SliceBind.LiteralMarkMisaligns | internal/bind/bind.go:347-426 | one row bound to a query with a `?` of its own: two marks for one argument, and another text than the struct binding |
| CompileCache.Cache.CompileShared | internal/bind/bind.go:437-508 | the internal compiler answers as a fresh compilation, shares the stored array, stores no error |
| CompileCache.Cache.CompileCopied | internal/bind/bind.go:569-577 | the public compiler never lets a cached array with an element escape |
| CompileCache.Cache.Run | internal/bind/bind.go:566-577 | in any run of calls mixed with writes by callers into the arrays they hold, every answer is the fresh one |
| CompileCache.SharingIsUnsafe | internal/bind/bind.go:441-443 | whatever a valid cache holds, overwriting a name in the array the internal compiler hands out breaks the cache, for every query with a parameter |
| CompileRaces.MoveKeepsInv | internal/bind/bind.go:437-508 | each load, compilation, store or copied element keeps the cache and what callers hold fresh |
| CompileRaces.AnswersAreFresh | internal/bind/bind.go:437-577 | in every interleaving of internal and public callers, racing stores and outside writes included, every answer is the fresh one, entries stay right, and no two public callers share an array with an element |
| CompileRaces.NobodyBlocks | internal/bind/bind.go:437-577 | in every reachable state a caller that is not finished can take its next step |
| Types.DisjointFields | internal/reflectx/reflectx.go:242-247 | two fields reached without pointers, neither inside the other, share no byte; pointers are the matter of `Disjoint` |
| Types.InsideParent | internal/reflectx/reflectx.go:242-247 | a field lies inside every field it is reached through |
| Flatten.StructMap.FlattenFields | internal/reflectx/reflectx.go:208-343 | the walk ends on cyclic types, adds its entries to both tables in order, and restores the set of visited types |
| Flatten.StructMap.FlattenField | internal/reflectx/reflectx.go:217-340 | one field: skipped, dissolved by embedding, or entered after what is nested in it |
| Flatten.MapType | internal/reflectx/reflectx.go:191-205 | the tables of a type; anything but a struct has none |
| FlattenLaws.EntriesPlaced | internal/reflectx/reflectx.go:230-258 | every entry's steps, flat offset, target and pointer flag are those of its index path |
| FlattenLaws.EntriesCalled | internal/reflectx/reflectx.go:262-338 | every entry's path is the own names of the fields along its index path joined by dots, those dissolved by embedding left out, and its name is its last field's own |
| FlattenLaws.FoundByItsName | internal/reflectx/reflectx.go:334-338 | whatever a lookup finds is a listed field whose dotted path or own name was asked for |
| TagLaws.ListedExactly | internal/reflectx/reflectx.go:208-343 | a field has an entry if and only if every field on its path is exported or embedded and not tagged `-`, everything above it is or points to a struct that is no scanner, no type is met twice above it, and it is not an untagged embedded struct itself |
| TagLaws.TablesAreTold | internal/reflectx/reflectx.go:261-338 | every name of the tables is the dotted path or own name of such a field, and every such field's are in them; a field is named by its tag, or the tag mapping's image of it, and otherwise by the naming function |
| TagLaws.MembersAreTold | internal/reflectx/reflectx.go:217-340 | the list of direct fields holds the shown ones, each once, in order |
| TagLaws.MapTypeTold | internal/reflectx/reflectx.go:191-205 | the tables and the list that the walk builds are these |
| FlattenLaws.EntriesDisjoint | internal/reflectx/reflectx.go:242-258 | entries off pointer paths, neither containing the other, have disjoint flat offsets inside the struct; for all entries see `Disjoint.FieldsApart` |
| FlattenLaws.EntriesListed | internal/reflectx/reflectx.go:208-223 | a field has an entry if and only if every struct above it is flattened without meeting a type twice and it is neither skipped nor embedded; siblings of one type are both flattened |
| FlattenLaws.EntriesInOrder | internal/reflectx/reflectx.go:330-339 | children are inserted before their parent, no path twice |
| FlattenLaws.NamesResolve | internal/reflectx/reflectx.go:334-338 | a name resolves to the last entry with that path, otherwise to the first with that own name |
| FlattenLaws.NamesResolveOnly | internal/reflectx/reflectx.go:334-338 | nothing else is found |
| FlattenLaws.PathsAgree | internal/reflectx/reflectx.go:334-335 | the table by path agrees with the table by name on all of its keys |
| Memory.Memory.AddrByTraversal | internal/reflectx/reflectx.go:388-406 | the loop leaves the heap and reaches the address that the steps mean |
| Memory.Memory.FieldByIndexes | internal/reflectx/reflectx.go:360-373 | likewise for the reflective walk, pointer or map at the end included, and its panic when a read-only field would have to be set |
| Memory.Memory.FieldByIndexesReadOnly | internal/reflectx/reflectx.go:438-446 | likewise for the walk that writes nothing |
| MemoryLaws.TraversalIsByIndexes | internal/reflectx/reflectx.go:360-406 | the reflective walk panics if and only if some field of its path is read-only and a nil pointer or map, or behind a nil pointer; otherwise steps and index path leave the same heap, but for a map at the end, and meet at the same location, one dereference apart for a pointer field |
| MemoryLaws.RestrictedExactly | internal/reflectx/reflectx.go:360-373 | a value is read-only if and only if its field is unexported or it lies below an unexported field that is not embedded |
| MemoryLaws.ReadOnlyAgrees | internal/reflectx/reflectx.go:438-446 | the read-only walk finds the slot of a path exactly when its object exists already, otherwise a zero value |
| MemoryLaws.TraversalExtends | internal/reflectx/reflectx.go:392-401 | set pointers stay, nil ones get fresh objects, one each |
| MemoryLaws.AddressesStayValid | internal/reflectx/reflectx.go:390-404 | repeated now or in any later heap, a traversal reaches the same address and changes nothing |
| MemoryLaws.SharedPrefix | internal/reflectx/reflectx.go:236-240 | fields with a shared prefix continue from the same place |
| MemoryLaws.StraightTraversal | engine.go:70-74 | off pointer paths the traversal is the base plus the flat offset |
| MemoryLaws.FilledWellTyped | internal/reflectx/reflectx.go:394-401 | filling a nil slot keeps memory well typed |
| MemoryLaws.TraversalWellTyped | internal/reflectx/reflectx.go:388-406 | a traversal keeps memory well typed and ends at a value of the field's type that fits in its object |
| LazyOrder.FilledIsNamed | internal/reflectx/reflectx.go:392-401 | a slot filled earlier in a run was filled for the same imagined object |
| LazyOrder.TraversalRuns | internal/reflectx/reflectx.go:388-406 | whatever was filled before, a traversal reaches the stateless place of its path and creates exactly the objects on the way |
| TypeMapProtocol.MoveKeepsInv | internal/reflectx/reflectx.go:164-186 | every step keeps the protocol's invariant |
| TypeMapProtocol.OneMapPerType | internal/reflectx/reflectx.go:159-187 | in every interleaving no type is mapped twice, every finished caller holds the map of the type it asked for, and all callers that asked for one type hold the same map |
| TypeMapProtocol.AskedIsAnswered | internal/reflectx/reflectx.go:159-187 | a caller that entered for a type ends with that type's map, whether from the cache, from its own flight or from one it joined |
| TypeMapProtocol.RequestIsAnswered | internal/reflectx/reflectx.go:159-187 | a call for a type or for a pointer to it ends with the type's map |
| TypeMapProtocol.SomebodyMoves | internal/reflectx/reflectx.go:175-186 | with a caller unfinished somebody can move, and each move brings its caller closer to the end |
| ScanMeta.SortByOffset | engine.go:153-162 | the swapping insertion sort, in place |
| ScanMeta.ComputeMeta | engine.go:129-162 | metadata of all columns sorted, or the first unmatched column in safe mode |
| ScanMeta.PopulateScanDest | engine.go:62-78 | destinations and heap after filling in metadata order |
| ScanMeta.StructScanDest | helpers.go:252-266 | destinations and heap after filling in column order, up to the first unmatched column |
| ScanLaws.SortIsStable | engine.go:153-161 | a permutation, larger offsets first, equal ones in column order |
| ScanLaws.ColumnsOnce | engine.go:129-162 | the sorted metadata holds every column exactly once |
| ScanLaws.FlattenedFits | engine.go:131-138 | metadata of a resolved column has steps and leads to the field |
| ScanLaws.FillAllRuns | engine.go:62-78 | filling in any order puts each column's stateless place into its slot and creates exactly the objects on the columns' paths |
| ScanLaws.FillAllSafe | engine.go:62-78 | every pointer handed to the row reader points to a value of its static type inside its object, and memory stays well typed |
| ScanLaws.RunsAgree | engine.go:62-78 | runs that meet the same objects leave memories equal up to the names of fresh objects |
| ScanLaws.ScanSlotsRefine | engine.go:62-78 | for every type, column list and start heap the sorted path and the column-order loop fill every slot with the same destination and leave the same memory, up to the names of fresh objects |
| Disjoint.PlacesApart | internal/reflectx/reflectx.go:230-258 | two fields, neither inside the other, lie in different objects or disjoint bytes if no pointer followed below their parting was set at the start |
| Disjoint.FieldsApart | internal/reflectx/reflectx.go:230-258 | in a new row that holds for any two such fields, pointer fields and fields behind pointers included, whatever else the buffer holds |
| Disjoint.FieldsBehindOnePointer | internal/reflectx/reflectx.go:230-258 | two fields that part behind the same pointers are disjoint whatever the heap holds |
| Disjoint.DestinationsShareExactly | engine.go:62-78 | for every well typed heap and filling order, two matched columns share a byte if and only if their fields overlap in the starting heap; an unmatched column shares none |
| Disjoint.DestinationsApart | engine.go:62-78 | whatever the filling order, the destinations of two columns share no byte in a new row, unless one names a field containing the other's |
| Disjoint.EveryRowIsNew | generics.go:100-114 | decoding row after row into one buffer, each row is still without set pointers when its turn comes, so its destinations are apart |
| BufferGrowth.GrowKeepsReady | generics.go:100-107 | copying the rows to a larger buffer keeps memory well typed and the pointers of the filled rows, and leaves the remaining rows without any |
| BufferGrowth.EveryRowOfRunIsNew | generics.go:97-117 | over any run of filled rows and exchanged buffers the next row to fill holds no pointer |
| Disjoint.AliasedPointersOverlap | internal/reflectx/reflectx.go:390-404 | a well typed destination with two pointers to one object, where both columns get the same destination |
| BindScan.EntryTraversal | internal/reflectx/reflectx.go:360-406 | for every entry, the reflective walk panics if and only if some field of the path is unexported and a nil pointer or map, or behind a nil pointer; otherwise steps and walk leave the same heap and meet, one dereference apart for a pointer field |
| BindScan.EmbeddedPointerPanics | internal/reflectx/reflectx.go:360-373 | a struct embedding a pointer to an unexported type: the column of the promoted field is scanned and the walk to it panics |
| BindScan.BindReadsWhatScanFills | internal/bind/bind.go:319-326 | once a column was given its destination, in every later heap that keeps the pointers the read-only walk for the same name finds that very location |
| BindScan.StructBindingReads | internal/bind/bind.go:313-340 | a struct binding succeeds if and only if the query compiles and every name resolves to an exported field, and reads argument `k` at the end of the read-only walk of name `k`; it panics if and only if the query compiles, some name resolves to an unexported field, and every name before it to an exported one |
| BindScan.SliceBindingReads | internal/bind/bind.go:368-387 | when a slice of structs binds, when it panics on an unexported field, and when on a nil element |
| BindScan.EmbeddedValuePanics | internal/bind/bind.go:319-326 | a struct embedding a value of unexported type: the column is scanned and binding its name panics |
| BindScan.MapElementsOfferNothing | internal/bind/bind.go:374-379 | a slice element whose type is no struct has an empty name table, so its first name is not found |
| MetaCache.HashColumns | engine.go:81-90 | the hash is a function of the concatenated bytes only |
| MetaCache.HashOfA | engine.go:81-90 | the published FNV-1a value of a one-byte text |
| MetaCache.ColumnsCollide | engine.go:81-90 | different column lists collide |
| MetaCache.MetaCache.BuildMeta | engine.go:106-170 | with one table per type every answer is the uncached one |
| MetaCache.CacheIsTransparent | engine.go:106-170 | over any run of such calls, whatever collides, errors included |
| MetaCache.TwoMappersShareEntries | engine.go:92-96 | with two name tables for one type the second answer is right if and only if the tables give every column the same metadata and, in safe mode, the second knows every column |
| MetaCache.TwoMappersDisagree | engine.go:92-96 | one two-field struct flattened under two mappers that swap its names, and the wrong second answer |
| MetaCache.RacesAreTransparent | engine.go:113-167 | in every interleaving of any number of callers' loads, computations and stores, every finished caller holds the answer no cache would have given |
| RowsScan.Rows.StructScan | rows.go:133-175 | the row is read if and only if the destination points to a struct of the fixed type, or none is fixed yet and the column list can be read and resolves, and the row's error is passed on; each other answer with its condition; reading fills the destinations first and fixes the type even when it fails, anything else changes nothing |
| RowLoops.IterateScan | engine.go:202-274 | rows are given to the callback until one fails, the callback ends, or none is left; rows are closed once and the first error wins; told also by the rows alone |
| RowLoops.SelectScan | engine.go:277-303 | exactly the rows decoded before the first failure are appended |
| RowLoops.DecodedRows | engine.go:252-274 | the rows before the first that does not decode, and the error a loop over all rows ends with |
| RowLoops.GetScan | engine.go:306-330 | the head row, or why there is none |
| RowLoops.SelectG | generics.go:30-139 | the decoded rows if nothing fails or only closing does, then with the close error; none if anything fails before; rows closed once; capacity and copies as the doubling demands on every run, in terms of the rows attempted |
| RowLoops.GrownOneMore | generics.go:100-110 | one more row fits or the buffer doubles, and the account of copies stays exact |
| RowLoops.CopiesAreFew | generics.go:100-107 | fewer than two elements are copied per row in total |
| RowLoops.GetG | generics.go:144-235 | the head row, or why there is none |
| RowLoops.SelectIter | generics.go:245-272 | event `i` is the value of row `i`; the values stop after the first row at which the consumer declines, at the first row that does not decode, or at the end; at most one failure follows, the error of what ended the loop or of closing |
| RowLoops.IterYieldsPrefix | generics.go:262-267 | what the consumer sees is the decoded prefix, cut where it first stops |
| RowLoops.GetsAgree | generics.go:209-214 | the two single-row reads differ exactly without rows, without a rows error, and with a close error |
| RowLoops.GetsDiffer | generics.go:209-214 | a source without rows whose close fails, read both ways |
| RowLoops.StoppedConsumer | generics.go:262-270 | a stopped consumer is called again if and only if the loop starts, the consumer stops at some decoded row, and closing fails |
| RowLoops.StoppedConsumerIsCalledAgain | generics.go:262-270 | a source whose close fails and a consumer that stops at once |
| ScanPool.Pool.Borrow | engine.go:40-49 | a clean buffer of the asked length that nobody else holds |
| ScanPool.Pool.Return | engine.go:52-58 | the buffer is cleared up to its capacity and pooled |
| ScanPool.Pool.Run | engine.go:32-58 | in any sequence of borrows, writes, returns and losses every borrower sees a clean buffer and no two share storage |

## Left out

- FlattenFields: options, strict tag errors, and the parent and child links of an entry are not modelled; they do not affect names, steps or offsets.
- FieldByIndexes: the walk starts at an addressable struct; a pointer to one is that struct, and a struct that is not addressable, where every set panics, is not modelled.
- In: the three type-specific copying loops are one.
- BindStruct: the argument is the map of values its names resolve to; `BindScan.StructBindingReads` derives that map from the name table and the read-only walk.
- BindArray: each element is a nil pointer or the map of values that the name table of its type resolves to. A Go map as an element has an empty table (bind.go:374), so it is always refused as not found (`BindScan.MapElementsOfferNothing`). The dispatch on the kind of the argument, and the partial argument list returned beside an error, are not modelled.
- SelectG: only the branch that decodes structs in place; the branches for scalars and pointers append one row at a time.
- SelectIter: element types that are pointers, and a query that fails before there are rows.
- IterateScan: the checks before the first row (columns, scalar shape, tags, metadata) are one possible early error; wrapped error texts are reduced to their causes.
- MoveKeepsInv: single flight is taken by its contract, one call at a time per type with a shared result, and the flight key as unique per type; the map type itself is one step.
- Memory is objects with pointer slots. Other field contents, garbage collection, write barriers and alignment rules are not modelled; layouts are given and assumed free of overlap.
- Database connections, transactions, contexts, prepared statements and value conversion inside `Scan`: forwarding only.
- `MapScan`, `SliceScan`, `Row.Scan`, `LoadFile`, driver name tables and configuration copying: only easy claims.
