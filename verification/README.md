# Deep-sky object catalog database

This project is a Dafny model of Celestia's deep-sky object database, the
`DSODatabase` class of `src/celengine/dsodb.cpp`. The model covers four parts:

- **Loading** a text catalog. Each record is a type name, a name list and a
  hash of fields. Each accepted object takes the next number from a
  decrementing 32-bit counter. It is appended to a manually grown array, and
  its names replace the names that number had in the name directory. The
  name list is split on `':'`. The first bad record aborts the load, and
  the objects appended before it stay.
- **Sealing** the database (`finish`). The octree hands the objects back in
  some order. A catalog-number index is sorted from them, and the average
  absolute magnitude is computed.
- **Queries**: `find` by number (a `lower_bound` binary search), `find` by
  name, `getCompletion`, `getDSOName` and `getDSONameList`.
- **The name directory** (`NameDatabase`). Its implementation is not part of
  this model. `src/celengine/name.h` only declares it, so the directory is
  abstract state: a map from name to number and, for each number, its names
  in insertion order. `add` and `erase` are specified from their
  documentation.

Modules, one per file:

| file | module | contents |
|---|---|---|
| `catalog_types.dfy` | `CatalogTypes` | catalog numbers, the wrap-around counter, object kinds, the object record |
| `strings.dfy` | `Strings` | `find`, splitting on a delimiter, joining, case-insensitive comparison |
| `name_directory.dfy` | `NameDirectory` | the abstract name directory |
| `catalog_records.dfy` | `CatalogRecords` | the abstract token stream and what makes a record acceptable |
| `catalog_index.dfy` | `CatalogIndex` | ordering by catalog number, the index sort, lower-bound search |
| `dso_database.dfy` | `DsoDatabase` | the database, `load`, `finish`, `calcAvgAbsMag` and the queries |

Three behaviours of the code that the model reproduces:

- **Unrecognised type name.** An unrecognised type name makes `load` return
  false: `obj` stays null (dsodb.cpp:274-284, 343-348).
- **Explicit catalog number.** The explicit-number test at dsodb.cpp:244
  re-reads the type of the name token it has already consumed, so it never
  succeeds and every record takes an automatic number. A record that gives a
  number after its type name is rejected at line 256, where a string is
  expected.
- **Sealing.** `finish` is run once, after all loads. The octree rebuild
  replaces the object array by one of exactly `nDSOs` entries
  (dsodb.cpp:393, 409) and leaves `capacity` as it was, and the index that
  `find` searches exists only after `buildIndexes` (dsodb.cpp:439). The
  model therefore marks a database as sealed: `Load` takes only an unsealed
  database and `FindByName` only a sealed one.

## Model

| member | source | states |
|---|---|---|
| CatalogTypes.Decrement | src/celengine/dsodb.cpp:253 | the post-decrement of the unsigned counter: one more than the result is the old value modulo 2^32, and it goes down unless the counter was 0 |
| CatalogTypes.AutoNumberModular | src/celengine/dsodb.cpp:251-254 | the i-th automatic number of a load starting at `start` is `start - i` in 32-bit unsigned arithmetic |
| CatalogTypes.AutoNumbersDistinct | src/celengine/dsodb.cpp:242-254 | fewer than 2^32 consecutive automatic numbers never repeat |
| CatalogTypes.AutoNumbersDecrease | src/celengine/dsodb.cpp:242-254 | until the counter wraps past 0, later automatic numbers are strictly smaller |
| Strings.FindChar | src/celengine/dsodb.cpp:328 | `find(':', startPos)` gives the first delimiter at or after the start; it gives none exactly when no delimiter follows |
| Strings.SplitFromProperties | src/celengine/dsodb.cpp:325-340 | from any start position, the splitting loop yields delimiter-free pieces, one more piece than there are delimiters, and the pieces joined with the delimiter give back the rest of the string |
| Strings.SplitProperties | src/celengine/dsodb.cpp:325-340 | the names cut from a name list contain no `':'`, there are (number of `':'`) + 1 of them, and joining them with `":"` gives the list back |
| Strings.SplitJoin | src/celengine/dsodb.cpp:325-340 | splitting is the inverse of joining, for any non-empty list of delimiter-free names |
| Strings.JoinEnds | src/celengine/dsodb.cpp:145-153 | a joined name list starts with its first name and ends with its last: no separator at either end |
| NameDirectory.NonEmpty | src/celengine/dsodb.cpp:324 | the names the directory keeps from a list are exactly its non-empty ones, in order |
| NameDirectory.Add | src/celengine/name.h:40 | adding an empty name changes nothing; otherwise the name is appended to the number's names and resolves to it; other numbers and other names are untouched, and the directory invariant is kept |
| NameDirectory.Erase | src/celengine/name.h:42-43 | erasing a number leaves it no names and stops every name that resolved to it from resolving; everything else is untouched and the invariant is kept |
| NameDirectory.FindCatalogNumberByName | src/celengine/name.h:54 | assumed specification of a function the header only declares: a name not in the directory gives InvalidIndex; in a valid directory a resolved name is listed by its number, and the empty name never resolves |
| NameDirectory.Completion | src/celengine/name.h:51 | assumed specification of a function the header only declares: every completion extends the prefix and is a directory name; in a valid directory each is non-empty and listed by the number it resolves to |
| NameDirectory.AddAllKeys | src/celengine/dsodb.cpp:325-340 | after the names are added, the directory knows exactly the names it knew before and the non-empty added ones |
| NameDirectory.AddAll | src/celengine/dsodb.cpp:325-340 | adding the split names one by one appends exactly the non-empty ones, in order, to the number's names and leaves other numbers alone |
| NameDirectory.AddAllResolves | src/celengine/dsodb.cpp:325-340 | afterwards each non-empty added name resolves to the number, and a name not among them resolves as it did before |
| CatalogRecords.ParseKindCharacterization | src/celengine/dsodb.cpp:274-282 | a type name selects a class exactly when it equals that class's name ignoring case; each class's own name selects that class |
| CatalogRecords.RejectedRecordSpoilsStream | src/celengine/dsodb.cpp:230-348 | a record the loader rejects, wherever it stands, makes the stream one that cannot be read to the end |
| CatalogRecords.AcceptedRecordsMakeStream | src/celengine/dsodb.cpp:230-350 | a stream of whole records, every one accepted, is read to the end |
| CatalogIndex.CatalogNumberOrdering | src/celengine/dsodb.cpp:51-61 | the comparator `PtrCatalogNumberOrderingPredicate` is a strict weak ordering whose equivalent objects are those with equal catalog numbers, as `sort` and `lower_bound` require |
| CatalogIndex.InsertByNumber | src/celengine/dsodb.cpp:443 | inserting into a sorted index keeps it sorted and adds exactly one copy of the object |
| CatalogIndex.SortByNumber | src/celengine/dsodb.cpp:432-444 | the index is a permutation of the objects, sorted by catalog number; duplicates are allowed |
| CatalogIndex.LowerBound | src/celengine/dsodb.cpp:76-79 | the binary search stops at the boundary: every object before it has a smaller number and none after it does |
| CatalogIndex.FindInIndex | src/celengine/dsodb.cpp:71-85 | a found object carries the number sought and is in the index; nothing is found exactly when no indexed object has that number |
| CatalogIndex.FindIsFirstMatch | src/celengine/dsodb.cpp:71-85 | the binary search returns what a front-to-back scan returns: with duplicates, the first object with the number in index order |
| DsoDatabase.GrownCapacity | src/celengine/dsodb.cpp:296-300 | the grown capacity is the old one plus 5% (truncated), at least 100, and always larger than before |
| DsoDatabase.Append | src/celengine/dsodb.cpp:289-312 | the object goes at the old count, which grows by one; earlier entries are unchanged; a full array grows to at least 100 and a non-full one keeps its capacity; the count never exceeds the capacity |
| DsoDatabase.CapacityFor | src/celengine/dsodb.cpp:289-312 | the capacity the growth steps reach once the array holds a given number of objects is never below the starting capacity or that number, and is the starting capacity while the objects fit |
| DsoDatabase.CapacityForStep | src/celengine/dsodb.cpp:289-312 | storing one more object grows the capacity exactly when the array is full, and then by one growth step |
| DsoDatabase.RecordNames | src/celengine/dsodb.cpp:316-341 | with a directory and a non-empty name list, the number's names become exactly the non-empty `':'`-pieces of the list, whatever they were before; other numbers keep theirs; with no directory or an empty list nothing changes |
| DsoDatabase.RecordNamesResolve | src/celengine/dsodb.cpp:316-341 | after a record's names are stored, each of its non-empty pieces resolves to its number; a former name of the number that is not among them stops resolving; other names resolve as before |
| DsoDatabase.NamesAfterView | src/celengine/dsodb.cpp:314-341 | the directory left by a sequence of records gives each number the names a direct definition assigns it: those of the last record that took the number with a non-empty list |
| DsoDatabase.ReplacedNames | src/celengine/dsodb.cpp:314-341 | by that definition, a record's non-empty list is what its number ends up with, since later records take other numbers |
| DsoDatabase.UntouchedNames | src/celengine/dsodb.cpp:314-341 | by that definition, a number that no record took keeps its names |
| DsoDatabase.NamesAfterReplaced | src/celengine/dsodb.cpp:314-341 | after the name steps of fewer than 2^32 records, the names of each record's number are exactly the non-empty pieces of its name list |
| DsoDatabase.NamesAfterOthers | src/celengine/dsodb.cpp:314-341 | after the name steps of a sequence of records, numbers no record took keep the names they had before |
| DsoDatabase.StreamNamesAt | src/celengine/dsodb.cpp:255-260 | the name list the directory steps use for record j is the string token of record j itself |
| DsoDatabase.NamesOfStream | src/celengine/dsodb.cpp:314-341 | after the name steps of a stream's first k records (k below 2^32), each record with a non-empty name string leaves its number exactly the non-empty pieces of that string |
| DsoDatabase.LoadedNames | src/celengine/dsodb.cpp:220-351 | after a load that accepted fewer than 2^32 records, every accepted record with a non-empty name string has exactly the non-empty `':'`-pieces of it as the names of the number it was given |
| DsoDatabase.LoadedOthers | src/celengine/dsodb.cpp:220-351 | after a load, a number that no accepted record was given keeps the names it had before the load |
| DsoDatabase.ReadRecord | src/celengine/dsodb.cpp:230-348 | a record is accepted exactly when it reads as type name, string and hash, names a known class, and the subtype accepts its fields; an accepted record appends its object with the counter's number and replaces that number's names; an accepted record grows the array only when it is full, and a rejected one changes no objects, names or capacity; the counter moves once the type name is read, even if the record is then rejected |
| DsoDatabase.LoadStopped | src/celengine/dsodb.cpp:343-348 | a load that stops at a rejected record reports failure and keeps every object appended before it |
| DsoDatabase.LoadFinished | src/celengine/dsodb.cpp:230-350 | a load that reaches the end of the stream reports success with every record's object appended |
| DsoDatabase.Load | src/celengine/dsodb.cpp:220-351 | for a database not yet sealed, the load succeeds exactly when the stream is whole records that are all accepted; the objects it appends are those of the accepted records, in order, each numbered from the counter; earlier objects are untouched and nothing is rolled back on failure; the directory is the result of the accepted records' name steps; the counter has moved once per record whose type name was read; the capacity is what the growth steps reach for the final count, so it never shrinks and is unchanged while the objects fit; the database stays unsealed |
| DsoDatabase.AddedNumbersDistinct | src/celengine/dsodb.cpp:242-254 | the objects one load appends carry pairwise distinct catalog numbers, strictly decreasing while the counter has not wrapped |
| DsoDatabase.ExplicitNumberRejected | src/celengine/dsodb.cpp:242-260 | a record with a number after its type name is rejected, and the load fails |
| DsoDatabase.CalcAvgAbsMag | src/celengine/dsodb.cpp:412-429 | for a non-empty database the divisor is the larger of 1 and the number of realistic magnitudes, and only those are added to the stored value; an empty database divides by zero and the result is not a finite number |
| DsoDatabase.RealisticPermutation | src/celengine/dsodb.cpp:361-365 | reordering the objects, as the octree rebuild does before the average is computed, changes neither the count nor the sum of realistic magnitudes |
| DsoDatabase.Finish | src/celengine/dsodb.cpp:361-375 | sealing a database once: the objects are in the octree's order; the index is a sorted permutation of them; the average is computed over the objects as loaded; capacity, names and counter are unchanged |
| DsoDatabase.FindAfterFinish | src/celengine/dsodb.cpp:432-444 | after sealing, every object can be found by its catalog number |
| DsoDatabase.FindByName | src/celengine/dsodb.cpp:88-101 | in a sealed database, an empty name or a missing directory finds nothing; a found object has the number the name resolves to and is in the index, and in a valid database the name is one of its names; a name that resolves to an indexed number is found |
| DsoDatabase.GetCompletion | src/celengine/dsodb.cpp:104-113 | the completions are exactly the directory names that extend a non-empty prefix; there are none for an empty prefix or without a directory; in a valid database each completion is listed by the number it resolves to |
| DsoDatabase.CompletionAfterRecordNames | src/celengine/dsodb.cpp:104-113 | after a record's names are stored, a name extending a non-empty prefix is offered exactly when it is a non-empty `':'`-piece of the record's name list, or it was offered before and did not resolve to the record's number |
| DsoDatabase.GetDsoName | src/celengine/dsodb.cpp:116-133 | the display name is the number's name list cut to one name (so "" without a directory); in a valid directory it is "" exactly when the number has no names |
| DsoDatabase.GetDsoNameList | src/celengine/dsodb.cpp:136-156 | the list is the first min(maxNames, m) names of the number joined with " / ", where m is how many it has; it is "" when maxNames is 0 or there are no names |
| DsoDatabase.NameListEnds | src/celengine/dsodb.cpp:145-153 | a non-empty name list starts with the first name and ends with the last name it includes |

## Left out

- The octree (`buildOctree`, `DynamicDSOOctree`, `findVisibleDSOs`, `findCloseDSOs`): its code is not part of this model, and the frustum construction is floating-point geometry. `Finish` takes the order the rebuild produces as a parameter, constrained only to be a permutation of the objects.
- The tokenizer and parser: the catalog is an abstract token sequence. A brace group that parses as a hash is one `GroupToken`, so a record is three tokens. A record cut short at the end of the stream is rejected.
- Subtype field loading (`obj->load`) is a function parameter. It returns the object's absolute magnitude, or nothing on failure. `loadCategories`, logging and `loadBinary` (a stub that returns true) are not modelled.
- Translation (`_()`, `bindtextdomain`) is taken as the identity, so the second `add` of a translated name (dsodb.cpp:337-338) and the `i18n` branch of `getDSOName` never apply.
- The name directory's implementation is not part of this model. `add` with a name that is already present is assumed to re-point it to the new number.
- CalcAvgAbsMag: magnitudes are reals, not doubles, and a non-finite average is `None`. The stored value the sum starts from is a parameter, because its initial value is set outside the modelled code.
- GrownCapacity: does not model overflow of the `int` capacity or of `capacity * 1.05`. The truncated product is written as `capacity * 105 / 100`, which is the same for every non-negative `int`.
- Finish: the array's allocated length is not modelled. `capacity` is kept unchanged, as the code keeps it, and the `sealed` flag stands for the shortened array: a load after sealing, which would write past the end of the `nDSOs`-entry array, is outside `Load`'s precondition. A second `finish` is outside `Finish`'s precondition, since `buildIndexes` is meant to run once (dsodb.cpp:432).
- GetCompletion: the matching rule of the directory's `getCompletion` is assumed, because that function is only declared: exact prefix, no case folding, no Greek-letter handling. Its `greek` flag, defaulted at dsodb.cpp:110, is ignored. The result is a set; the order of the directory's completion vector is not modelled.
- `getDSONameList` dereferences the directory without a check; the model makes a directory a precondition, as the code requires.
- The destructor (dsodb.cpp:64-68) only frees the two arrays, and `setNameDatabase` (dsodb.cpp:214) only stores the directory. The constructor and `size` are declared in the class header, which is not part of this model.
- `DSO_DEFAULT_ABS_MAGNITUDE` is defined in a header that is not part of this model. Its value, -1000, is assumed for `DefaultAbsMagnitude`. Every contract is phrased through `Realistic`, not through the number.
