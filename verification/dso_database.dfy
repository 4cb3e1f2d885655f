/**
 The deep-sky object database (DSODatabase): the object array and its
 capacity, the automatic catalog-number counter, the optional name
 directory, the catalog-number index built when the database is sealed, and
 the average absolute magnitude.
 */
module DsoDatabase {
  import opened CatalogTypes
  import opened Strings
  import opened NameDirectory
  import opened CatalogIndex
  import opened CatalogRecords

  /** dsos is DSOs[0 .. nDSOs); capacity is the allocated length of the array
      as the growth step tracks it; index is catalogNumberIndex (empty until
      the database is sealed); avgAbsMag is None when the average is not a
      finite number; sealed records that finish() has run. Sealing replaces
      the object array by one of exactly nDSOs entries without updating
      capacity, so a sealed database takes no further loads, and only a
      sealed one has an index to search. */
  datatype Database = Database(
    dsos: seq<Dso>,
    capacity: int,
    index: seq<Dso>,
    names: Option<NameDatabase>,
    nextAutoCatalogNumber: CatalogNumber,
    avgAbsMag: Option<real>,
    sealed: bool)

  /** The array never holds more objects than its capacity, and the name
      directory, when there is one, keeps its own invariant. */
  predicate Valid(db: Database)
  {
    && |db.dsos| <= db.capacity
    && (db.names.Some? ==> NameDirectory.Valid(db.names.value))
  }

  /** The index a sealed database searches: every object, in catalog-number order. */
  predicate IndexReady(db: Database)
  {
    db.sealed && |db.index| == |db.dsos| && SortedByNumber(db.index)
  }

  function Max(a: int, b: int): int
  {
    if a < b then b else a
  }

  // ---------------------------------------------------------------- loading

  /** The capacity after a growth step: 5% more, truncated to an integer, but
      at least 100. (int)(capacity * 1.05) is capacity * 105 / 100 for every
      non-negative int, since the double nearest 1.05 lies above 1.05. */
  function GrownCapacity(capacity: int): (r: int)
    requires capacity >= 0
    ensures r == Max(100, capacity + capacity / 20)
    ensures r > capacity
  {
    var grown := capacity * 105 / 100;
    if grown < 100 then 100 else grown
  }

  /** The capacity the growth steps reach from capacity once the array holds
      count objects: the array grows only when a store finds it full. */
  function CapacityFor(capacity: int, count: nat): (r: int)
    requires capacity >= 0
    ensures r >= capacity && r >= count
    ensures count <= capacity ==> r == capacity
    decreases count - capacity
  {
    if count <= capacity then capacity else CapacityFor(GrownCapacity(capacity), count)
  }

  /** Storing one more object from count grows the capacity exactly when the
      array is full at count. */
  lemma {:induction false} CapacityForStep(capacity: int, count: nat)
    requires capacity >= 0
    ensures var c := CapacityFor(capacity, count);
            CapacityFor(capacity, count + 1) == (if count == c then GrownCapacity(c) else c)
    decreases count - capacity
  {
    if count > capacity {
      CapacityForStep(GrownCapacity(capacity), count);
    }
  }

  /** Growing in two stages reaches the same capacity as growing at once. */
  lemma {:induction false} CapacityForCompose(capacity: int, n: nat, m: nat)
    requires capacity >= 0 && n <= m
    ensures CapacityFor(CapacityFor(capacity, n), m) == CapacityFor(capacity, m)
    decreases n - capacity
  {
    if n > capacity {
      CapacityForCompose(GrownCapacity(capacity), n, m);
    }
  }

  /** Stores obj at position nDSOs, growing the array first when it is full. */
  function Append(db: Database, obj: Dso): (r: Database)
    requires |db.dsos| <= db.capacity
    ensures |r.dsos| == |db.dsos| + 1 && r.dsos[..|db.dsos|] == db.dsos && r.dsos[|db.dsos|] == obj
    ensures |r.dsos| <= r.capacity
    ensures |db.dsos| < db.capacity ==> r.capacity == db.capacity
    ensures |db.dsos| == db.capacity ==> r.capacity > db.capacity && r.capacity >= 100
    ensures r.index == db.index && r.names == db.names && r.sealed == db.sealed
    ensures r.nextAutoCatalogNumber == db.nextAutoCatalogNumber && r.avgAbsMag == db.avgAbsMag
  {
    var capacity := if |db.dsos| == db.capacity then GrownCapacity(db.capacity) else db.capacity;
    db.(dsos := db.dsos + [obj], capacity := capacity)
  }

  /** The name step of a record: with a directory and a non-empty name list,
      every name of n is erased and the ':'-separated names are added in
      order (empty pieces are skipped by the directory). */
  function RecordNames(names: Option<NameDatabase>, n: CatalogNumber, objName: string): (r: Option<NameDatabase>)
    ensures r.Some? <==> names.Some?
    ensures names.None? || objName == "" ==> r == names
    ensures names.Some? && objName != "" ==> NamesOf(r.value, n) == NonEmpty(Split(objName, ':'))
    ensures names.Some? ==> forall m | m != n :: NamesOf(r.value, m) == NamesOf(names.value, m)
    ensures names.Some? && NameDirectory.Valid(names.value) ==> NameDirectory.Valid(r.value)
  {
    if names.Some? && objName != "" then
      Some(AddAll(Erase(names.value, n), n, Split(objName, ':')))
    else
      names
  }

  /** Each non-empty piece of a recorded name list resolves to the record's
      number; a name that is not one of the pieces resolves as before, except
      that a former name of the number no longer resolves at all. */
  lemma RecordNamesResolve(names: Option<NameDatabase>, n: CatalogNumber, objName: string, name: string)
    requires names.Some? && objName != ""
    ensures name in Split(objName, ':') && name != "" ==>
              FindCatalogNumberByName(RecordNames(names, n, objName).value, name) == n
    ensures name !in Split(objName, ':') ==>
              FindCatalogNumberByName(RecordNames(names, n, objName).value, name) ==
              (if name in names.value.nameIndex && names.value.nameIndex[name] == n then InvalidIndex
               else FindCatalogNumberByName(names.value, name))
  {
    AddAllResolves(Erase(names.value, n), n, Split(objName, ':'), name);
  }

  /** The name lists of the first k records of a stream. */
  function StreamNames(toks: seq<Token>, k: nat): (r: seq<string>)
    ensures |r| == k
  {
    if k == 0 then [] else StreamNames(toks, k - 1) + [RecordName(toks, k - 1)]
  }

  /** Entry j of the name lists is record j's name list. */
  lemma {:induction false} StreamNamesAt(toks: seq<Token>, k: nat, j: nat)
    requires j < k
    ensures StreamNames(toks, k)[j] == RecordName(toks, j)
    decreases k
  {
    if j < k - 1 {
      StreamNamesAt(toks, k - 1, j);
    }
  }

  /** Reference definition of the directory after records with the name
      lists objNames, each record taking the next automatic number from start. */
  function NamesAfter(names: Option<NameDatabase>, objNames: seq<string>, start: CatalogNumber)
    : (r: Option<NameDatabase>)
    ensures r.Some? <==> names.Some?
    decreases |objNames|
  {
    if |objNames| == 0 then names
    else
      var k := |objNames| - 1;
      RecordNames(NamesAfter(names, objNames[..k], start), AutoNumber(start, k), objNames[k])
  }

  /** One more record applies its name step to the directory the earlier ones left. */
  lemma NamesAfterSnoc(names: Option<NameDatabase>, objNames: seq<string>, x: string, start: CatalogNumber)
    ensures NamesAfter(names, objNames + [x], start)
            == RecordNames(NamesAfter(names, objNames, start), AutoNumber(start, |objNames|), x)
  {
    assert (objNames + [x])[..|objNames|] == objNames;
  }

  /** Reference definition of the names number m has after the records with
      name lists objNames: those of the last record that took m with a
      non-empty name list, or else the names m had before. */
  function NamesOfAfter(names: NameDatabase, objNames: seq<string>, start: CatalogNumber, m: CatalogNumber)
    : seq<string>
    decreases |objNames|
  {
    if |objNames| == 0 then NamesOf(names, m)
    else
      var k := |objNames| - 1;
      if m == AutoNumber(start, k) && objNames[k] != "" then NonEmpty(Split(objNames[k], ':'))
      else NamesOfAfter(names, objNames[..k], start, m)
  }

  /** The directory the records leave gives every number the names the
      reference definition assigns it. */
  lemma {:induction false} NamesAfterView(names: Option<NameDatabase>, objNames: seq<string>,
                                          start: CatalogNumber, m: CatalogNumber)
    requires names.Some?
    ensures NamesOf(NamesAfter(names, objNames, start).value, m) == NamesOfAfter(names.value, objNames, start, m)
    decreases |objNames|
  {
    if |objNames| > 0 {
      NamesAfterView(names, objNames[..|objNames| - 1], start, m);
    }
  }

  /** A record's non-empty name list is what its number is left with: later
      records took other numbers (fewer than 2^32 records never reuse one). */
  lemma {:induction false} ReplacedNames(names: NameDatabase, objNames: seq<string>, start: CatalogNumber, j: nat)
    requires j < |objNames| <= NumberRange
    requires objNames[j] != ""
    ensures NamesOfAfter(names, objNames, start, AutoNumber(start, j)) == NonEmpty(Split(objNames[j], ':'))
    decreases |objNames|
  {
    var k := |objNames| - 1;
    if j < k {
      AutoNumbersDistinct(start, j, k);
      assert objNames[..k][j] == objNames[j];
      ReplacedNames(names, objNames[..k], start, j);
    }
  }

  /** A number no record took keeps its names. */
  lemma {:induction false} UntouchedNames(names: NameDatabase, objNames: seq<string>, start: CatalogNumber,
                                          m: CatalogNumber)
    requires forall i | 0 <= i < |objNames| :: AutoNumber(start, i) != m
    ensures NamesOfAfter(names, objNames, start, m) == NamesOf(names, m)
    decreases |objNames|
  {
    if |objNames| > 0 {
      UntouchedNames(names, objNames[..|objNames| - 1], start, m);
    }
  }

  /** After the records, a record's non-empty name list is exactly the list of
      names of the number it took. */
  lemma NamesAfterReplaced(names: Option<NameDatabase>, objNames: seq<string>, start: CatalogNumber, j: nat)
    requires names.Some?
    requires j < |objNames| <= NumberRange
    requires objNames[j] != ""
    ensures NamesOf(NamesAfter(names, objNames, start).value, AutoNumber(start, j))
            == NonEmpty(Split(objNames[j], ':'))
  {
    NamesAfterView(names, objNames, start, AutoNumber(start, j));
    ReplacedNames(names.value, objNames, start, j);
  }

  /** Numbers no record took keep the names they had. */
  lemma NamesAfterOthers(names: Option<NameDatabase>, objNames: seq<string>, start: CatalogNumber, m: CatalogNumber)
    requires names.Some?
    requires forall i | 0 <= i < |objNames| :: AutoNumber(start, i) != m
    ensures NamesOf(NamesAfter(names, objNames, start).value, m) == NamesOf(names.value, m)
  {
    NamesAfterView(names, objNames, start, m);
    UntouchedNames(names.value, objNames, start, m);
  }

  /** The result of reading one record: the database after it, and whether
      the record was accepted. */
  datatype Step = Accepted(db: Database) | Rejected(db: Database)

  /** One pass of the load loop, reading record j (tokens 3j .. 3j+2). */
  method ReadRecord(db: Database, toks: seq<Token>, j: nat, loader: SubtypeLoader) returns (o: Step)
    requires Valid(db) && 3 * j < |toks|
    ensures Valid(o.db)
    ensures o.Accepted? <==> GoodRecord(toks, j, loader)
    ensures o.Accepted? ==>
              && o.db.dsos == db.dsos + [RecordObject(toks, j, db.nextAutoCatalogNumber, loader)]
              && o.db.names == RecordNames(db.names, db.nextAutoCatalogNumber, RecordName(toks, j))
    ensures o.Rejected? ==> o.db.dsos == db.dsos && o.db.names == db.names && o.db.capacity == db.capacity
    ensures o.Accepted? ==>
              o.db.capacity == (if |db.dsos| == db.capacity then GrownCapacity(db.capacity) else db.capacity)
    ensures o.db.capacity == CapacityFor(db.capacity, |o.db.dsos|)
    ensures o.db.nextAutoCatalogNumber ==
            (if toks[3 * j].NameToken? then Decrement(db.nextAutoCatalogNumber) else db.nextAutoCatalogNumber)
    ensures o.db.index == db.index && o.db.avgAbsMag == db.avgAbsMag && o.db.sealed == db.sealed
  {
    var pos := 3 * j;
    // The type name.
    if !toks[pos].NameToken? {
      return Rejected(db);
    }
    var objType := toks[pos].name;
    // The explicit-number test re-examines this same name token, so it
    // never succeeds: every record takes the next automatic number, and
    // the counter moves even if the record is rejected below.
    var objCatalogNumber := db.nextAutoCatalogNumber;
    var numbered := db.(nextAutoCatalogNumber := Decrement(db.nextAutoCatalogNumber));
    // The name list.
    if pos + 1 >= |toks| || !toks[pos + 1].StringToken? {
      return Rejected(numbered);
    }
    var objName := toks[pos + 1].text;
    // The parameter hash.
    if pos + 2 >= |toks| || !toks[pos + 2].GroupToken? {
      return Rejected(numbered);
    }
    var objParams := toks[pos + 2].fields;
    // The class, then the subtype's own fields.
    var kind := ParseKind(objType);
    if kind.None? {
      return Rejected(numbered);
    }
    var absMag := loader(kind.value, objParams);
    if absMag.None? {
      return Rejected(numbered);
    }
    var stored := Append(numbered, Dso(kind.value, objCatalogNumber, absMag.value));
    return Accepted(stored.(names := RecordNames(stored.names, objCatalogNumber, objName)));
  }

  /** added are the objects of the first k records of toks, each record
      accepted and numbered automatically from start. */
  predicate RecordObjects(added: seq<Dso>, toks: seq<Token>, loader: SubtypeLoader, start: CatalogNumber, k: nat)
  {
    && |added| == k
    && (forall j | 0 <= j < k :: GoodRecord(toks, j, loader))
    && (forall j | 0 <= j < k :: added[j] == RecordObject(toks, j, AutoNumber(start, j), loader))
  }

  /** One more accepted record adds its object at the end. */
  lemma RecordObjectsStep(added: seq<Dso>, toks: seq<Token>, loader: SubtypeLoader, start: CatalogNumber, k: nat)
    requires RecordObjects(added, toks, loader, start, k)
    requires GoodRecord(toks, k, loader)
    ensures RecordObjects(added + [RecordObject(toks, k, AutoNumber(start, k), loader)], toks, loader, start, k + 1)
  {
    var added' := added + [RecordObject(toks, k, AutoNumber(start, k), loader)];
    forall j | 0 <= j < k + 1
      ensures added'[j] == RecordObject(toks, j, AutoNumber(start, j), loader)
    {
      if j < k {
        assert added'[j] == added[j];
      }
    }
  }

  /** db has become r by accepting the first k records of toks, numbered
      from db's counter: the objects already there are untouched and the k
      new objects are the records' objects in order. The directory and the
      counter are not part of this. */
  ghost predicate Appended(db: Database, r: Database, toks: seq<Token>, loader: SubtypeLoader, k: nat)
  {
    && |db.dsos| <= |r.dsos|
    && r.dsos[..|db.dsos|] == db.dsos
    && RecordObjects(r.dsos[|db.dsos|..], toks, loader, db.nextAutoCatalogNumber, k)
    && r.index == db.index && r.avgAbsMag == db.avgAbsMag
  }

  /** Accepting record k extends the appended prefix by one record. */
  lemma AppendedStep(db: Database, r: Database, r': Database, toks: seq<Token>, loader: SubtypeLoader, k: nat)
    requires Appended(db, r, toks, loader, k)
    requires GoodRecord(toks, k, loader)
    requires r'.dsos == r.dsos + [RecordObject(toks, k, AutoNumber(db.nextAutoCatalogNumber, k), loader)]
    requires r'.index == r.index && r'.avgAbsMag == r.avgAbsMag
    ensures Appended(db, r', toks, loader, k + 1)
  {
    var obj := RecordObject(toks, k, AutoNumber(db.nextAutoCatalogNumber, k), loader);
    assert r'.dsos[|db.dsos|..] == r.dsos[|db.dsos|..] + [obj];
    RecordObjectsStep(r.dsos[|db.dsos|..], toks, loader, db.nextAutoCatalogNumber, k);
  }

  /** What a load promises about its outcome ok and the database r it
      leaves: it succeeds exactly on a well-formed stream, and the objects
      it added are those of the records it accepted (LoadedRecords). */
  ghost predicate LoadResult(db: Database, toks: seq<Token>, loader: SubtypeLoader, ok: bool, r: Database)
  {
    && (ok <==> WellFormedStream(toks, loader))
    && |db.dsos| <= |r.dsos|
    && LoadedRecords(db, toks, loader, ok, r, |r.dsos| - |db.dsos|)
  }

  /** The load accepted k records: on success that is the whole stream, on
      failure record k is the one rejected. The k records are appended and
      named as Appended and NamesAfter describe, and the counter has moved
      once per record read whose first token is a type name. */
  ghost predicate LoadedRecords(db: Database, toks: seq<Token>, loader: SubtypeLoader, ok: bool, r: Database, k: nat)
  {
    && Appended(db, r, toks, loader, k)
    && r.names == NamesAfter(db.names, StreamNames(toks, k), db.nextAutoCatalogNumber)
    && (ok ==> 3 * k == |toks|)
    && (!ok ==> 3 * k < |toks| && !GoodRecord(toks, k, loader))
    && r.nextAutoCatalogNumber ==
       AutoNumber(db.nextAutoCatalogNumber, if !ok && toks[3 * k].NameToken? then k + 1 else k)
  }

  /** After a load that accepted fewer than 2^32 records, the number of each
      accepted record with a non-empty name list holds exactly the non-empty
      pieces of that list. */
  lemma LoadedNames(db: Database, toks: seq<Token>, loader: SubtypeLoader, ok: bool, r: Database, j: nat)
    requires LoadResult(db, toks, loader, ok, r) && db.names.Some?
    requires j < |r.dsos| - |db.dsos| <= NumberRange
    requires RecordName(toks, j) != ""
    ensures r.names.Some?
    ensures NamesOf(r.names.value, AutoNumber(db.nextAutoCatalogNumber, j)) ==
            NonEmpty(Split(RecordName(toks, j), ':'))
  {
    var k := |r.dsos| - |db.dsos|;
    var start := db.nextAutoCatalogNumber;
    var after := NamesAfter(db.names, StreamNames(toks, k), start);
    LoadResultNames(db, toks, loader, ok, r);
    SameDirectory(r.names, after, AutoNumber(start, j));
    NamesOfStream(db.names, toks, k, start, j);
  }

  /** The directory after the name steps of the first k records of a stream
      gives record j's number the non-empty pieces of record j's name list. */
  lemma NamesOfStream(names: Option<NameDatabase>, toks: seq<Token>, k: nat, start: CatalogNumber, j: nat)
    requires names.Some? && j < k <= NumberRange && RecordName(toks, j) != ""
    ensures NamesOf(NamesAfter(names, StreamNames(toks, k), start).value, AutoNumber(start, j))
            == NonEmpty(Split(RecordName(toks, j), ':'))
  {
    StreamNamesAt(toks, k, j);
    NamesAfterReplaced(names, StreamNames(toks, k), start, j);
  }

  /** Equal directories give a number the same names. */
  lemma SameDirectory(a: Option<NameDatabase>, b: Option<NameDatabase>, m: CatalogNumber)
    requires a == b && b.Some?
    ensures a.Some? && NamesOf(a.value, m) == NamesOf(b.value, m)
  {
  }

  /** After a load, a number that no accepted record took keeps its names. */
  lemma LoadedOthers(db: Database, toks: seq<Token>, loader: SubtypeLoader, ok: bool, r: Database, m: CatalogNumber)
    requires LoadResult(db, toks, loader, ok, r) && db.names.Some?
    requires forall i | 0 <= i < |r.dsos| - |db.dsos| :: AutoNumber(db.nextAutoCatalogNumber, i) != m
    ensures r.names.Some?
    ensures NamesOf(r.names.value, m) == NamesOf(db.names.value, m)
  {
    var k := |r.dsos| - |db.dsos|;
    LoadResultNames(db, toks, loader, ok, r);
    NamesAfterOthers(db.names, StreamNames(toks, k), db.nextAutoCatalogNumber, m);
  }

  /** The directory a load leaves is the name steps of its accepted records. */
  lemma LoadResultNames(db: Database, toks: seq<Token>, loader: SubtypeLoader, ok: bool, r: Database)
    requires LoadResult(db, toks, loader, ok, r)
    ensures r.names == NamesAfter(db.names, StreamNames(toks, |r.dsos| - |db.dsos|), db.nextAutoCatalogNumber)
  {
  }

  /** The state of the load loop after k accepted records. */
  ghost predicate LoadInvariant(db: Database, r: Database, toks: seq<Token>, loader: SubtypeLoader, k: nat)
  {
    Valid(r) && AcceptedSoFar(db, r, toks, loader, k)
  }

  /** r holds the first k records of toks, appended and named, and the
      counter has moved once per record. */
  ghost predicate AcceptedSoFar(db: Database, r: Database, toks: seq<Token>, loader: SubtypeLoader, k: nat)
  {
    && Appended(db, r, toks, loader, k)
    && r.names == NamesAfter(db.names, StreamNames(toks, k), db.nextAutoCatalogNumber)
    && r.nextAutoCatalogNumber == AutoNumber(db.nextAutoCatalogNumber, k)
  }

  /** Accepting record k moves the loop state from k to k + 1 records. */
  lemma LoadAccepted(db: Database, r: Database, r': Database, toks: seq<Token>, loader: SubtypeLoader, k: nat)
    requires LoadInvariant(db, r, toks, loader, k)
    requires Valid(r') && GoodRecord(toks, k, loader)
    requires r'.dsos == r.dsos + [RecordObject(toks, k, r.nextAutoCatalogNumber, loader)]
    requires r'.names == RecordNames(r.names, r.nextAutoCatalogNumber, RecordName(toks, k))
    requires r'.nextAutoCatalogNumber ==
             (if toks[3 * k].NameToken? then Decrement(r.nextAutoCatalogNumber) else r.nextAutoCatalogNumber)
    requires r'.index == r.index && r'.avgAbsMag == r.avgAbsMag
    ensures LoadInvariant(db, r', toks, loader, k + 1)
  {
    var start := db.nextAutoCatalogNumber;
    AppendedStep(db, r, r', toks, loader, k);
    NamesAfterSnoc(db.names, StreamNames(toks, k), RecordName(toks, k), start);
    AutoNumberStep(start, k);
  }

  /** Appended speaks only of the objects, the index and the magnitude: a
      database that agrees with r on those has appended the same records. */
  lemma AppendedFrame(db: Database, r: Database, r': Database, toks: seq<Token>, loader: SubtypeLoader, k: nat)
    requires Appended(db, r, toks, loader, k)
    requires r'.dsos == r.dsos && r'.index == r.index && r'.avgAbsMag == r.avgAbsMag
    ensures Appended(db, r', toks, loader, k)
    ensures |r'.dsos| - |db.dsos| == k
  {
    assert |r.dsos[|db.dsos|..]| == k;
  }

  /** A load that accepted k records and ended as LoadedRecords says
      satisfies LoadResult. */
  lemma LoadResultOf(db: Database, toks: seq<Token>, loader: SubtypeLoader, ok: bool, r: Database, k: nat)
    requires ok <==> WellFormedStream(toks, loader)
    requires |r.dsos| - |db.dsos| == k
    requires LoadedRecords(db, toks, loader, ok, r, k)
    ensures LoadResult(db, toks, loader, ok, r)
  {
  }

  /** The load stops at a rejected record k, keeping what it appended. */
  lemma LoadStopped(db: Database, r: Database, r': Database, toks: seq<Token>, loader: SubtypeLoader, k: nat)
    requires AcceptedSoFar(db, r, toks, loader, k)
    requires 3 * k < |toks| && !GoodRecord(toks, k, loader)
    requires r'.dsos == r.dsos && r'.names == r.names && r'.index == r.index && r'.avgAbsMag == r.avgAbsMag
    requires r'.nextAutoCatalogNumber ==
             (if toks[3 * k].NameToken? then Decrement(r.nextAutoCatalogNumber) else r.nextAutoCatalogNumber)
    ensures LoadResult(db, toks, loader, false, r')
  {
    RejectedRecordSpoilsStream(toks, loader, k);
    AppendedFrame(db, r, r', toks, loader, k);
    AutoNumberStep(db.nextAutoCatalogNumber, k);
    assert LoadedRecords(db, toks, loader, false, r', k);
    LoadResultOf(db, toks, loader, false, r', k);
  }

  /** The load reaches the end of the stream after k accepted records. */
  lemma LoadFinished(db: Database, r: Database, toks: seq<Token>, loader: SubtypeLoader, k: nat)
    requires AcceptedSoFar(db, r, toks, loader, k)
    requires 3 * k == |toks|
    ensures LoadResult(db, toks, loader, true, r)
  {
    AcceptedRecordsMakeStream(toks, loader, k);
    AppendedFrame(db, r, r, toks, loader, k);
    assert LoadedRecords(db, toks, loader, true, r, k);
    LoadResultOf(db, toks, loader, true, r, k);
  }

  /** The state of a load after k accepted records: the load invariant, the
      database still unsealed, and the capacity where the growth steps put it. */
  ghost predicate LoadState(db: Database, r: Database, toks: seq<Token>, loader: SubtypeLoader, k: nat)
  {
    && db.capacity >= 0
    && LoadInvariant(db, r, toks, loader, k)
    && !r.sealed
    && r.capacity == CapacityFor(db.capacity, |r.dsos|)
  }

  /** One pass of the load loop: either the load stops here with its result,
      or record k is accepted and the state moves on to k + 1. */
  method LoadNext(db: Database, r: Database, toks: seq<Token>, loader: SubtypeLoader, k: nat) returns (o: Step)
    requires 3 * k < |toks| && LoadState(db, r, toks, loader, k)
    ensures o.Rejected? ==> && Valid(o.db) && !o.db.sealed
                            && o.db.capacity == CapacityFor(db.capacity, |o.db.dsos|)
                            && LoadResult(db, toks, loader, false, o.db)
    ensures o.Accepted? ==> GoodRecord(toks, k, loader) && LoadState(db, o.db, toks, loader, k + 1)
  {
    o := ReadRecord(r, toks, k, loader);
    CapacityForCompose(db.capacity, |r.dsos|, |o.db.dsos|);
    if o.Rejected? {
      LoadStopped(db, r, o.db, toks, loader, k);
    } else {
      LoadAccepted(db, r, o.db, toks, loader, k);
    }
  }

  /** load: reads records until the end of the stream or the first bad
      record. Returns whether the end was reached; objects appended before a
      failure stay in the database, and the array has grown only as the
      stores required. */
  method Load(db: Database, toks: seq<Token>, loader: SubtypeLoader) returns (ok: bool, r: Database)
    requires Valid(db) && !db.sealed
    ensures Valid(r) && !r.sealed
    ensures LoadResult(db, toks, loader, ok, r)
    ensures r.capacity == CapacityFor(db.capacity, |r.dsos|)
  {
    r := db;
    var pos := 0;
    var k := 0;
    assert r.dsos[|db.dsos|..] == [];
    while pos < |toks|
      invariant pos == 3 * k && pos <= |toks|
      invariant LoadState(db, r, toks, loader, k)
    {
      var step := LoadNext(db, r, toks, loader, k);
      if step.Rejected? {
        return false, step.db;
      }
      r := step.db;
      pos := pos + 3;
      k := k + 1;
    }
    LoadFinished(db, r, toks, loader, k);
    return true, r;
  }

  /** The objects one load appends carry pairwise distinct catalog numbers,
      strictly decreasing while the counter has not wrapped past zero. */
  lemma AddedNumbersDistinct(toks: seq<Token>, start: CatalogNumber, loader: SubtypeLoader, added: seq<Dso>)
    requires |added| <= NumberRange
    requires RecordObjects(added, toks, loader, start, |added|)
    ensures forall i, j | 0 <= i < j < |added| :: added[i].catalogNumber != added[j].catalogNumber
    ensures |added| <= start + 1 ==>
              forall i, j | 0 <= i < j < |added| :: added[j].catalogNumber < added[i].catalogNumber
  {
    forall i, j | 0 <= i < j < |added|
      ensures added[i].catalogNumber != added[j].catalogNumber
      ensures |added| <= start + 1 ==> added[j].catalogNumber < added[i].catalogNumber
    {
      AutoNumbersDistinct(start, i, j);
      if |added| <= start + 1 {
        AutoNumbersDecrease(start, i, j);
      }
    }
  }

  /** A record that gives an explicit number after its type name is rejected:
      the name list is expected where the number stands. */
  lemma ExplicitNumberRejected(toks: seq<Token>, j: nat, loader: SubtypeLoader)
    requires 3 * j + 1 < |toks| && toks[3 * j + 1].NumberToken?
    ensures !GoodRecord(toks, j, loader)
    ensures !WellFormedStream(toks, loader)
  {
    RejectedRecordSpoilsStream(toks, loader, j);
  }

  // ---------------------------------------------------------------- sealing

  /** An object's magnitude comes from its catalog entry, not the placeholder. */
  predicate Realistic(o: Dso)
  {
    o.absMag > DefaultAbsMagnitude
  }

  /** Number of objects with a realistic magnitude. */
  function CountRealistic(s: seq<Dso>): nat
  {
    if |s| == 0 then 0
    else CountRealistic(s[..|s| - 1]) + (if Realistic(s[|s| - 1]) then 1 else 0)
  }

  /** Sum of the realistic magnitudes. */
  function SumRealistic(s: seq<Dso>): real
  {
    if |s| == 0 then 0.0
    else SumRealistic(s[..|s| - 1]) + (if Realistic(s[|s| - 1]) then s[|s| - 1].absMag else 0.0)
  }

  /** calcAvgAbsMag: adds the realistic magnitudes to the stored average and
      divides by the object count less one per placeholder, never going below
      one while there are objects. An empty database divides by zero, and the
      result is not a finite number. */
  method CalcAvgAbsMag(dsos: seq<Dso>, prior: Option<real>) returns (divisor: nat, avg: Option<real>)
    ensures |dsos| == 0 ==> divisor == 0
    ensures |dsos| > 0 ==> divisor == Max(1, CountRealistic(dsos))
    ensures divisor == 0 || prior.None? ==> avg == None
    ensures divisor > 0 && prior.Some? ==> avg == Some((prior.value + SumRealistic(dsos)) / divisor as real)
  {
    divisor := |dsos|;
    var sum := prior;
    var i := 0;
    while i < |dsos|
      invariant 0 <= i <= |dsos|
      invariant |dsos| > 0 ==> divisor == Max(1, |dsos| - (i - CountRealistic(dsos[..i])))
      invariant |dsos| == 0 ==> divisor == 0
      invariant prior.None? ==> sum.None?
      invariant prior.Some? ==> sum == Some(prior.value + SumRealistic(dsos[..i]))
    {
      assert dsos[..i + 1][..i] == dsos[..i];
      var mag := dsos[i].absMag;
      if mag > DefaultAbsMagnitude {
        if sum.Some? {
          sum := Some(sum.value + mag);
        }
      } else if divisor > 1 {
        divisor := divisor - 1;
      }
      i := i + 1;
    }
    assert dsos[..i] == dsos;
    if divisor == 0 || sum.None? {
      avg := None;
    } else {
      avg := Some(sum.value / divisor as real);
    }
  }

  /** Count and sum split over a concatenation. */
  lemma {:induction false} CountAppend(a: seq<Dso>, b: seq<Dso>)
    ensures CountRealistic(a + b) == CountRealistic(a) + CountRealistic(b)
    decreases |b|
  {
    if |b| == 0 {
      assert a + b == a;
    } else {
      assert (a + b)[..|a + b| - 1] == a + b[..|b| - 1];
      CountAppend(a, b[..|b| - 1]);
    }
  }

  lemma {:induction false} SumAppend(a: seq<Dso>, b: seq<Dso>)
    ensures SumRealistic(a + b) == SumRealistic(a) + SumRealistic(b)
    decreases |b|
  {
    if |b| == 0 {
      assert a + b == a;
    } else {
      assert (a + b)[..|a + b| - 1] == a + b[..|b| - 1];
      SumAppend(a, b[..|b| - 1]);
    }
  }

  lemma RealisticSingle(o: Dso)
    ensures CountRealistic([o]) == (if Realistic(o) then 1 else 0)
    ensures SumRealistic([o]) == (if Realistic(o) then o.absMag else 0.0)
  {
    assert [o][..0] == [];
  }

  /** Taking out the object at i leaves the rest of the multiset. */
  lemma MultisetRemoveAt(a: seq<Dso>, i: nat)
    requires i < |a|
    ensures multiset(a[..i] + a[i + 1..]) == multiset(a) - multiset{a[i]}
  {
    assert a == a[..i] + [a[i]] + a[i + 1..];
  }

  /** Taking out the object at i removes its share of the count and the sum. */
  lemma RealisticRemoveAt(a: seq<Dso>, i: nat)
    requires i < |a|
    ensures CountRealistic(a) == CountRealistic(a[..i] + a[i + 1..]) + CountRealistic([a[i]])
    ensures SumRealistic(a) == SumRealistic(a[..i] + a[i + 1..]) + SumRealistic([a[i]])
  {
    CountRemoveAt(a, i);
    SumRemoveAt(a, i);
  }

  lemma {:induction false} CountRemoveAt(a: seq<Dso>, i: nat)
    requires i < |a|
    ensures CountRealistic(a) == CountRealistic(a[..i] + a[i + 1..]) + CountRealistic([a[i]])
  {
    assert a == a[..i] + [a[i]] + a[i + 1..];
    CountMiddle(a[..i], a[i], a[i + 1..]);
  }

  lemma {:induction false} CountMiddle(u: seq<Dso>, x: Dso, v: seq<Dso>)
    ensures CountRealistic(u + [x] + v) == CountRealistic(u + v) + CountRealistic([x])
  {
    CountAppend(u + [x], v);
    CountAppend(u, [x]);
    CountAppend(u, v);
  }

  lemma {:induction false} SumRemoveAt(a: seq<Dso>, i: nat)
    requires i < |a|
    ensures SumRealistic(a) == SumRealistic(a[..i] + a[i + 1..]) + SumRealistic([a[i]])
  {
    assert a == a[..i] + [a[i]] + a[i + 1..];
    SumMiddle(a[..i], a[i], a[i + 1..]);
  }

  lemma {:induction false} SumMiddle(u: seq<Dso>, x: Dso, v: seq<Dso>)
    ensures SumRealistic(u + [x] + v) == SumRealistic(u + v) + SumRealistic([x])
  {
    SumAppend(u + [x], v);
    SumAppend(u, [x]);
    SumAppend(u, v);
  }

  /** An object of the multiset of a stands somewhere in a. */
  lemma IndexOf(a: seq<Dso>, x: Dso) returns (i: nat)
    requires x in multiset(a)
    ensures i < |a| && a[i] == x
  {
    assert x in a;
    i :| i < |a| && a[i] == x;
  }

  /** Taking the same object out of two permutations of each other leaves
      permutations of each other. */
  lemma PermutationRemove(a: seq<Dso>, b: seq<Dso>, i: nat)
    requires multiset(a) == multiset(b) && 0 < |b| && i < |a| && a[i] == b[|b| - 1]
    ensures multiset(a[..i] + a[i + 1..]) == multiset(b[..|b| - 1])
  {
    MultisetRemoveAt(a, i);
    assert b == b[..|b| - 1] + [b[|b| - 1]];
  }

  /** Reordering the objects changes neither the count nor the sum of
      realistic magnitudes. */
  lemma {:induction false} RealisticPermutation(a: seq<Dso>, b: seq<Dso>)
    requires multiset(a) == multiset(b)
    ensures CountRealistic(a) == CountRealistic(b)
    ensures SumRealistic(a) == SumRealistic(b)
    decreases |b|
  {
    if |b| > 0 {
      var x := b[|b| - 1];
      var i := IndexOf(a, x);
      PermutationRemove(a, b, i);
      RealisticPermutation(a[..i] + a[i + 1..], b[..|b| - 1]);
      RealisticRemoveAt(a, i);
      RealisticSingle(x);
    } else {
      assert |a| == |multiset(a)|;
    }
  }

  /** finish: the octree rebuild hands back the objects in a spatial order
      (some permutation of them); that order becomes the object array, the
      catalog-number index is a sorted copy of it, and the average magnitude
      is computed. */
  method Finish(db: Database, spatialOrder: seq<Dso>) returns (r: Database)
    requires !db.sealed
    requires multiset(spatialOrder) == multiset(db.dsos)
    ensures r.dsos == spatialOrder && r.sealed
    ensures IndexReady(r) && multiset(r.index) == multiset(db.dsos)
    ensures |db.dsos| == 0 || db.avgAbsMag.None? ==> r.avgAbsMag == None
    ensures |db.dsos| > 0 && db.avgAbsMag.Some? ==>
              r.avgAbsMag == Some((db.avgAbsMag.value + SumRealistic(db.dsos))
                                  / Max(1, CountRealistic(db.dsos)) as real)
    ensures r.capacity == db.capacity && r.names == db.names
    ensures r.nextAutoCatalogNumber == db.nextAutoCatalogNumber
  {
    assert |spatialOrder| == |multiset(spatialOrder)| == |multiset(db.dsos)| == |db.dsos|;
    RealisticPermutation(spatialOrder, db.dsos);
    var index := SortByNumber(spatialOrder);
    var _, avg := CalcAvgAbsMag(spatialOrder, db.avgAbsMag);
    r := db.(dsos := spatialOrder, index := index, avgAbsMag := avg, sealed := true);
  }

  // ---------------------------------------------------------------- queries

  /** find(name): resolves the name through the directory, then looks the
      number up in the index. */
  function FindByName(db: Database, name: string): (r: Option<Dso>)
    requires IndexReady(db)
    ensures name == "" || db.names.None? ==> r.None?
    ensures r.Some? ==> r.value in db.index
    ensures r.Some? ==> name in db.names.value.nameIndex &&
                        r.value.catalogNumber == db.names.value.nameIndex[name]
    ensures r.Some? && Valid(db) ==> name in NamesOf(db.names.value, r.value.catalogNumber)
    ensures name != "" && db.names.Some? && name in db.names.value.nameIndex &&
            db.names.value.nameIndex[name] != InvalidIndex &&
            (exists i | 0 <= i < |db.index| :: db.index[i].catalogNumber == db.names.value.nameIndex[name])
            ==> r.Some?
  {
    if name == "" then None
    else if db.names.Some? then
      var n := FindCatalogNumberByName(db.names.value, name);
      if n != InvalidIndex then FindInIndex(db.index, n) else None
    else None
  }

  /** getCompletion: directory names extending a non-empty prefix. */
  function GetCompletion(db: Database, prefix: string): (r: set<string>)
    ensures prefix == "" || db.names.None? ==> r == {}
    ensures forall c | c in r :: prefix <= c && c in db.names.value.nameIndex
    ensures prefix != "" && db.names.Some? ==>
              forall c | c in db.names.value.nameIndex && prefix <= c :: c in r
    ensures Valid(db) ==>
              forall c | c in r :: c in NamesOf(db.names.value, FindCatalogNumberByName(db.names.value, c))
  {
    if prefix != "" && db.names.Some? then Completion(db.names.value, prefix) else {}
  }

  /** getDSOName: the object's first name in directory order, or "". It is
      the name list cut to a single name, and in a valid directory it is
      empty exactly when the object has no names. */
  function GetDsoName(db: Database, dso: Dso): (r: string)
    ensures db.names.None? ==> r == ""
    ensures db.names.Some? ==> r == NameList(db, dso, 1)
    ensures Valid(db) && db.names.Some? ==>
              (r == "" <==> NamesOf(db.names.value, dso.catalogNumber) == [])
  {
    if db.names.Some? then
      var names := NamesOf(db.names.value, dso.catalogNumber);
      if names != [] then
        assert names[..1] == [names[0]];
        names[0]
      else ""
    else ""
  }

  /** The first min(maxNames, m) names of the object, where m is how many it
      has, joined with " / ". */
  function NameList(db: Database, dso: Dso, maxNames: nat): string
    requires db.names.Some?
  {
    var names := NamesOf(db.names.value, dso.catalogNumber);
    Join(names[..if maxNames < |names| then maxNames else |names|], " / ")
  }

  /** getDSONameList: the loop that joins the object's names. */
  method GetDsoNameList(db: Database, dso: Dso, maxNames: nat) returns (r: string)
    requires db.names.Some?
    ensures r == NameList(db, dso, maxNames)
    ensures maxNames == 0 || NamesOf(db.names.value, dso.catalogNumber) == [] ==> r == ""
  {
    var names := NamesOf(db.names.value, dso.catalogNumber);
    r := "";
    var count := 0;
    while count < |names| && count < maxNames
      invariant 0 <= count <= |names| && count <= maxNames
      invariant r == Join(names[..count], " / ")
    {
      if count != 0 {
        JoinSnoc(names[..count], names[count], " / ");
        r := r + " / ";
      }
      assert names[..count + 1] == names[..count] + [names[count]];
      r := r + names[count];
      count := count + 1;
    }
  }

  /** Completions after a record's name step: a name extending the prefix
      is offered exactly when it is a non-empty piece of the record's name
      list, or it was offered before and did not belong to the record's
      number. */
  lemma CompletionAfterRecordNames(db: Database, n: CatalogNumber, objName: string, prefix: string, c: string)
    requires db.names.Some? && objName != "" && prefix != ""
    ensures c in GetCompletion(db.(names := RecordNames(db.names, n, objName)), prefix) <==>
              prefix <= c &&
              ((c in Split(objName, ':') && c != "") ||
               (c in GetCompletion(db, prefix) && FindCatalogNumberByName(db.names.value, c) != n))
  {
    AddAllKeys(Erase(db.names.value, n), n, Split(objName, ':'), c);
  }

  /** Every object of a sealed database is found by its catalog number. */
  lemma FindAfterFinish(db: Database, o: Dso)
    requires IndexReady(db) && multiset(db.index) == multiset(db.dsos)
    requires o in db.dsos
    ensures FindInIndex(db.index, o.catalogNumber).Some?
    ensures FindInIndex(db.index, o.catalogNumber).value.catalogNumber == o.catalogNumber
  {
    assert o in multiset(db.dsos);
    assert o in db.index;
  }

  /** A non-empty name list starts with the first name and ends with the
      last name it includes: no separator at either end. */
  lemma NameListEnds(db: Database, dso: Dso, maxNames: nat)
    requires db.names.Some?
    requires maxNames > 0 && NamesOf(db.names.value, dso.catalogNumber) != []
    ensures var names := NamesOf(db.names.value, dso.catalogNumber);
            var count := if maxNames < |names| then maxNames else |names|;
            && names[0] <= NameList(db, dso, maxNames)
            && NameList(db, dso, maxNames)[|NameList(db, dso, maxNames)| - |names[count - 1]|..] == names[count - 1]
  {
    var names := NamesOf(db.names.value, dso.catalogNumber);
    var count := if maxNames < |names| then maxNames else |names|;
    JoinEnds(names[..count], " / ");
  }
}
