/** Shared vocabulary of the taxon reconciliation engine (API/taxo.py): the rows of the
    `taxon` and `tax_rank` tables, the records the formatters build, the identifiers a
    submission carries, and the answers of the GBIF backbone, which the engine receives
    as values instead of fetching them. */
module Taxa {

  datatype Option<T> = None | Some(value: T)

  /** One constructor per exception the engine raises (or a Python runtime error it runs into). */
  datatype Error =
    | NameMismatch        // stored name is nothing like the supplied canonical name
    | DuplicateKey        // gbifkey stored more than once
    | DuplicateNameAuth   // name with author stored more than once
    | DuplicateName       // name without author stored more than once
    | NoIdentifier        // none of gbifkey, scientificname, canonicalname supplied
    | NoMatchMode         // get_infoTax called without an acceptable match mode
    | UnknownRank         // no tax_rank row answers to the rank token
    | NoSuchTaxon         // acceptedId on a cd_tax that is not stored
    | NameNotParsed       // backbone parser could not parse the scientific name
    | NoRank              // no rank supplied and the parse has no rank marker
    | NoParent            // no way to determine the superior taxon
    | ParentNotFound      // the parent of a manual record is not in the backbone
    | RankNotInTable      // insert: the rank name joins no tax_rank row
    | KeyTaken            // insert: the gbifkey unique constraint rejects the row
    | UndefinedName       // NameError on `rank_level` (as written, line 187)
    | MissingArguments    // TypeError: format_inputTax called without its positional arguments

  datatype Result<T> = Ok(value: T) | Err(error: Error) {
    predicate IsFailure() { Err? }
    function PropagateFailure<U>(): Result<U> requires Err? { Err(error) }
    function Extract(): T requires Ok? { value }
  }

  /** A row of the `taxon` table; `rank` is the `cd_rank` code the insert joins in. */
  datatype TaxonRow = TaxonRow(
    cdTax: nat,
    name: string,
    nameAuth: string,
    auth: Option<string>,
    rank: string,
    status: Option<string>,
    gbifkey: Option<int>,
    cdSup: Option<nat>,
    cdSyno: Option<nat>,
    source: Option<int>)

  /** A row of the `tax_rank` reference table: rank_name, rank_level, gbif_bb_marker, cd_rank. */
  datatype RankRow = RankRow(rankName: string, level: int, gbifMarker: Option<string>, cdRank: string)

  /** The dictionary a formatter builds and insertTax stores; `rankName` is still a rank name. */
  datatype TaxonRecord = TaxonRecord(
    name: string,
    nameAuth: string,
    auth: Option<string>,
    rankName: string,
    status: Option<string>,
    gbifkey: Option<int>,
    source: Option<int>)

  /** The identifiers test_taxInDb looks at, each of them optional. */
  datatype Identity = Identity(gbifkey: Option<int>, scientificname: Option<string>, canonicalname: Option<string>)

  function KeyOnly(k: Option<int>): Identity { Identity(k, None, None) }

  datatype MatchMode = GbifKeyMode | ScientificNameMode | CanonicalNameMode

  /** What test_taxInDb returns: alreadyInDb, gbifMatchMode, cdTax. */
  datatype Resolution = Resolution(alreadyInDb: bool, matchMode: Option<MatchMode>, cdTax: Option<nat>)

  /** A species record of the backbone (species/{key}); also the shape of each ancestor. */
  datatype BackboneRecord = BackboneRecord(
    key: int,
    rank: string,
    canonicalName: string,
    scientificName: string,
    authorship: Option<string>,
    taxonomicStatus: Option<string>,
    parentKey: Option<int>,
    parent: Option<string>,
    synonym: bool,
    acceptedKey: Option<int>,
    accepted: Option<string>)

  /** An answer of the backbone name matcher (species/match). */
  datatype MatchAnswer = MatchAnswer(
    matchType: string,
    confidence: int,
    usageKey: int,
    status: Option<string>,
    acceptedUsageKey: Option<int>)

  /** An answer of the backbone name parser (species/{key}/name or parser/name). The parser
      leaves `authorship` out of its answer when the name has none (None here). */
  datatype ParsedName = ParsedName(
    parsed: bool,
    canonicalName: string,
    canonicalNameWithMarker: string,
    canonicalNameComplete: string,
    scientificName: string,
    authorship: Option<string>,
    rankMarker: Option<string>,
    genusOrAbove: string,
    specificEpithet: string)

  /** A snapshot of the backbone service: every endpoint the engine calls, as a total function. */
  datatype Backbone = Backbone(
    species: int -> BackboneRecord,
    matchName: string -> MatchAnswer,
    matchScientificName: string -> MatchAnswer,
    parents: int -> seq<BackboneRecord>,
    parsedName: int -> ParsedName,
    parse: string -> ParsedName)

  /** fuzz.ratio: a similarity score of two names (0 to 100 in the library). */
  type Similarity = (string, string) -> int

  /** The keyword arguments of manageInputTax. */
  datatype Submission = Submission(
    id: Identity,
    authorship: Option<string>,
    rank: Option<string>,
    parent: Identity,
    synoTarget: Identity,
    source: Option<int>)

  /** Python truthiness of an optional string: present and non-empty. */
  predicate Truthy(s: Option<string>) { s.Some? && s.value != "" }

  predicate Supplied(id: Identity) {
    id.gbifkey.Some? || id.scientificname.Some? || id.canonicalname.Some?
  }

  /** COALESCE(cd_syno, cd_tax) */
  function Coalesce(cdSyno: Option<nat>, cdTax: nat): nat {
    if cdSyno.Some? then cdSyno.value else cdTax
  }
}
