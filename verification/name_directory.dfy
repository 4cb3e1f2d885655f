/**
 The name directory the catalog consults: a map from each name to a catalog
 number, and a multimap from each catalog number to its names in the order
 they were added. Only the declarations of this collaborator are part of
 the modelled code, so its operations are specified here as the abstract
 state changes their documentation describes.
 */
module NameDirectory {
  import opened CatalogTypes

  /** nameIndex is NameDatabase::NameIndex (name to number); numberIndex is
      NameDatabase::NumberIndex, a multimap, kept as the sequence of names of
      each number in insertion order (the order a multimap iterates equal keys). */
  datatype NameDatabase = NameDatabase(
    nameIndex: map<string, CatalogNumber>,
    numberIndex: map<CatalogNumber, seq<string>>)

  /** The names of number n, in directory order (the range from
      getFirstNameIter(n) while the key is still n). */
  function NamesOf(db: NameDatabase, n: CatalogNumber): seq<string>
  {
    if n in db.numberIndex then db.numberIndex[n] else []
  }

  /** Directory invariant: no stored name is empty, no number keeps an empty
      name list, and every name resolves to a number that lists it. */
  predicate Valid(db: NameDatabase)
  {
    && (forall n | n in db.numberIndex :: db.numberIndex[n] != [] && "" !in db.numberIndex[n])
    && (forall name | name in db.nameIndex :: name in NamesOf(db, db.nameIndex[name]))
  }

  /** findCatalogNumberByName: the number a name resolves to, or InvalidIndex.
      Only declared in the directory's header, so this is an assumed
      specification: a name resolves to the number it was last added for. In
      a valid directory a resolved name is listed by its number, and the
      empty name never resolves. */
  function FindCatalogNumberByName(db: NameDatabase, name: string): (r: CatalogNumber)
    ensures name !in db.nameIndex ==> r == InvalidIndex
    ensures Valid(db) && name in db.nameIndex ==> name in NamesOf(db, r)
    ensures Valid(db) && name == "" ==> r == InvalidIndex
  {
    if name in db.nameIndex then db.nameIndex[name] else InvalidIndex
  }

  /** The non-empty strings of names, in order. */
  function NonEmpty(names: seq<string>): (r: seq<string>)
    ensures "" !in r
    ensures forall name :: name in r <==> name in names && name != ""
    ensures |r| <= |names|
  {
    if |names| == 0 then []
    else (if names[0] == "" then [] else [names[0]]) + NonEmpty(names[1..])
  }

  /** add(n, name): an empty name is skipped; otherwise the name is appended
      to n's names and resolves to n from now on. */
  function Add(db: NameDatabase, n: CatalogNumber, name: string): (r: NameDatabase)
    ensures name == "" ==> r == db
    ensures name != "" ==> NamesOf(r, n) == NamesOf(db, n) + [name]
    ensures name != "" ==> FindCatalogNumberByName(r, name) == n
    ensures forall m | m != n :: NamesOf(r, m) == NamesOf(db, m)
    ensures forall other | other != name ::
              FindCatalogNumberByName(r, other) == FindCatalogNumberByName(db, other)
    ensures Valid(db) ==> Valid(r)
  {
    if name == "" then db
    else NameDatabase(db.nameIndex[name := n], db.numberIndex[n := NamesOf(db, n) + [name]])
  }

  /** erase(n): every name of n is deleted, from both indices. */
  function Erase(db: NameDatabase, n: CatalogNumber): (r: NameDatabase)
    ensures NamesOf(r, n) == []
    ensures forall m | m != n :: NamesOf(r, m) == NamesOf(db, m)
    ensures forall name ::
              FindCatalogNumberByName(r, name) ==
              (if name in db.nameIndex && db.nameIndex[name] == n then InvalidIndex
               else FindCatalogNumberByName(db, name))
    ensures Valid(db) ==> Valid(r)
  {
    NameDatabase(
      map name | name in db.nameIndex && db.nameIndex[name] != n :: db.nameIndex[name],
      db.numberIndex - {n})
  }

  /** The names added one after another for n, as the loader's splitting
      loop adds them. */
  function AddAll(db: NameDatabase, n: CatalogNumber, names: seq<string>): (r: NameDatabase)
    ensures NamesOf(r, n) == NamesOf(db, n) + NonEmpty(names)
    ensures forall m | m != n :: NamesOf(r, m) == NamesOf(db, m)
    ensures Valid(db) ==> Valid(r)
    decreases |names|
  {
    if |names| == 0 then db
    else
      var first := Add(db, n, names[0]);
      var head := if names[0] == "" then [] else [names[0]];
      assert NamesOf(first, n) == NamesOf(db, n) + head;
      assert NonEmpty(names) == head + NonEmpty(names[1..]);
      assert NamesOf(db, n) + NonEmpty(names) == NamesOf(first, n) + NonEmpty(names[1..]);
      AddAll(first, n, names[1..])
  }

  /** getCompletion(prefix): the directory names that extend prefix. Only
      declared in the directory's header; exact, case-sensitive prefix
      matching is assumed. In a valid directory every completion is a
      non-empty name listed by the number it resolves to. */
  function Completion(db: NameDatabase, prefix: string): (r: set<string>)
    ensures forall c | c in r :: prefix <= c && c in db.nameIndex
    ensures Valid(db) ==>
              forall c | c in r :: c != "" && c in NamesOf(db, FindCatalogNumberByName(db, c))
  {
    set name | name in db.nameIndex && prefix <= name
  }

  /** The names the directory knows after the names are added: those it knew
      before and the non-empty added ones. */
  lemma {:induction false} AddAllKeys(db: NameDatabase, n: CatalogNumber, names: seq<string>, name: string)
    ensures name in AddAll(db, n, names).nameIndex <==> name in db.nameIndex || (name in names && name != "")
    decreases |names|
  {
    if |names| > 0 {
      var first := Add(db, n, names[0]);
      assert AddAll(db, n, names) == AddAll(first, n, names[1..]);
      assert names == [names[0]] + names[1..];
      AddAllKeys(first, n, names[1..], name);
    }
  }

  /** After the names are added, each non-empty one resolves to n, and every
      name not among them resolves as before. */
  lemma {:induction false} AddAllResolves(db: NameDatabase, n: CatalogNumber, names: seq<string>, name: string)
    ensures name in names && name != "" ==> FindCatalogNumberByName(AddAll(db, n, names), name) == n
    ensures name !in names ==>
              FindCatalogNumberByName(AddAll(db, n, names), name) == FindCatalogNumberByName(db, name)
    decreases |names|
  {
    if |names| > 0 {
      var first := Add(db, n, names[0]);
      assert AddAll(db, n, names) == AddAll(first, n, names[1..]);
      assert names == [names[0]] + names[1..];
      AddAllResolves(first, n, names[1..], name);
    }
  }
}
