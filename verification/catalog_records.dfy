/**
 The record stream a deep-sky catalog file is read as. The tokenizer and the
 value parser are not modelled: the file is a sequence of abstract tokens,
 and a brace-delimited group that the parser reads as a hash is a single
 GroupToken. A well-formed record is therefore three tokens:
   <type name> "<name list>" { <fields> }
 */
module CatalogRecords {
  import opened CatalogTypes
  import opened Strings

  /** The fields of a record, as the subtype loaders see them. */
  type Hash = map<string, string>

  datatype Token =
    | NameToken(name: string)       // an unquoted identifier
    | NumberToken(number: int)      // a numeric literal
    | StringToken(text: string)     // a quoted string
    | GroupToken(fields: Hash)      // a group the parser reads as a hash
    | OtherToken                    // anything else, including a value that is not a hash

  /** Subtype field loading (DeepSkyObject::load and its overrides): given the
      object class and the record's fields, either the object's absolute
      magnitude or failure. */
  type SubtypeLoader = (DsoKind, Hash) -> Option<real>

  /** The type names the loader dispatches on, spelled as in the source. */
  function KindName(k: DsoKind): string
  {
    match k
    case Galaxy => "Galaxy"
    case Globular => "Globular"
    case Nebula => "Nebula"
    case OpenCluster => "OpenCluster"
  }

  /** The class a type name selects, compared ignoring case, in the order the
      source tests them; None for an unrecognised name. */
  function ParseKind(typeName: string): Option<DsoKind>
  {
    if EqualIgnoringCase(typeName, "Galaxy") then Some(Galaxy)
    else if EqualIgnoringCase(typeName, "Globular") then Some(Globular)
    else if EqualIgnoringCase(typeName, "Nebula") then Some(Nebula)
    else if EqualIgnoringCase(typeName, "OpenCluster") then Some(OpenCluster)
    else None
  }

  /** Each class name selects its own class, and a name selects a class
      exactly when it equals that class's name ignoring case. */
  lemma ParseKindCharacterization(typeName: string, k: DsoKind)
    ensures ParseKind(KindName(k)) == Some(k)
    ensures ParseKind(typeName) == Some(k) <==> EqualIgnoringCase(typeName, KindName(k))
  {
    assert ToUpper("Galaxy"[0]) != ToUpper("Nebula"[0]);
  }

  /** Record j (numbering from 0) occupies tokens 3j, 3j+1 and 3j+2. The
      record is accepted when it reads as type name, name string and hash,
      the type names a known class, and the subtype accepts the fields. */
  predicate GoodRecord(toks: seq<Token>, j: nat, loader: SubtypeLoader)
  {
    && 3 * j + 2 < |toks|
    && toks[3 * j].NameToken?
    && toks[3 * j + 1].StringToken?
    && toks[3 * j + 2].GroupToken?
    && ParseKind(toks[3 * j].name).Some?
    && loader(ParseKind(toks[3 * j].name).value, toks[3 * j + 2].fields).Some?
  }

  /** The name list of record j, or "" when it has none. */
  function RecordName(toks: seq<Token>, j: nat): string
  {
    if 3 * j + 1 < |toks| && toks[3 * j + 1].StringToken? then toks[3 * j + 1].text else ""
  }

  /** The object an accepted record creates, once it has catalog number n. */
  function RecordObject(toks: seq<Token>, j: nat, n: CatalogNumber, loader: SubtypeLoader): Dso
    requires GoodRecord(toks, j, loader)
  {
    var kind := ParseKind(toks[3 * j].name).value;
    Dso(kind, n, loader(kind, toks[3 * j + 2].fields).value)
  }

  /** A stream the loader reads to the end: whole records, every one accepted. */
  predicate WellFormedStream(toks: seq<Token>, loader: SubtypeLoader)
  {
    |toks| % 3 == 0 && forall j | 0 <= j < |toks| / 3 :: GoodRecord(toks, j, loader)
  }

  /** A record the loader rejects, wherever it stands, spoils the whole stream. */
  lemma RejectedRecordSpoilsStream(toks: seq<Token>, loader: SubtypeLoader, k: nat)
    requires 3 * k < |toks| && !GoodRecord(toks, k, loader)
    ensures !WellFormedStream(toks, loader)
  {
    if |toks| % 3 == 0 {
      assert k < |toks| / 3;
    }
  }

  /** A stream of exactly k records, all accepted, is read to the end. */
  lemma AcceptedRecordsMakeStream(toks: seq<Token>, loader: SubtypeLoader, k: nat)
    requires |toks| == 3 * k
    requires forall j | 0 <= j < k :: GoodRecord(toks, j, loader)
    ensures WellFormedStream(toks, loader)
  {
    assert |toks| / 3 == k;
  }
}
