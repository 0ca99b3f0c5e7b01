/** get_infoTax: asks the backbone about a taxon and decides whether its answer counts as found. */
module Matcher {
  import opened Taxa
  import opened Resolver

  /** Ranks whose backbone canonical name lacks the rank marker the species lists use. */
  const ReparsedRanks: set<string> :=
    {"SUBSPECIES", "VARIETY", "FORM", "SUBVARIETY", "SUPERSPECIES", "SUBGENUS", "TRIBE"}

  /** What get_infoTax hands back: the species record when the backbone answer is accepted
      (with the name-match answer it came from, if any), or nothing usable. */
  datatype Info = Found(record: BackboneRecord, answer: Option<MatchAnswer>) | NotFound

  /** The acceptance rule of a name match. */
  predicate Accepted(a: MatchAnswer) {
    a.matchType != "NONE" && (a.matchType == "EXACT" || a.confidence >= 90)
  }

  /** The records agree on everything except perhaps the name fields the parser answers. */
  predicate SameBarNames(a: BackboneRecord, b: BackboneRecord) {
    a == b.(scientificName := a.scientificName, canonicalName := a.canonicalName, authorship := a.authorship)
  }

  /** Lines 137-138: records of the listed ranks are merged with the parser's answer on their
      scientific name, which replaces the scientific and canonical names, and the authorship when
      the answer has one; the other fields the parser answers are not read afterwards. */
  function Reparsed(bb: Backbone, rec: BackboneRecord): (r: BackboneRecord)
    ensures SameBarNames(r, rec) && r.key == rec.key && r.rank == rec.rank
    ensures rec.rank in ReparsedRanks ==>
              var p := bb.parse(rec.scientificName);
              r.scientificName == p.scientificName && r.canonicalName == p.canonicalName
              && r.authorship == (if p.authorship.Some? then p.authorship else rec.authorship)
    ensures rec.rank !in ReparsedRanks ==> r == rec
  {
    if rec.rank in ReparsedRanks then
      var p := bb.parse(rec.scientificName);
      rec.(scientificName := p.scientificName, canonicalName := p.canonicalName,
           authorship := if p.authorship.Some? then p.authorship else rec.authorship)
    else rec
  }

  /** get_infoTax: a lookup by key is always found; a name match is found only when accepted;
      any other mode raises. */
  function GetInfoTax(bb: Backbone, mode: Option<MatchMode>, id: Identity): (r: Result<Info>)
    requires mode.Some? ==> NamesIdentifier(mode.value, id)
    ensures r.Err? <==> mode.None?
    ensures r.Err? ==> r.error == NoMatchMode
    ensures mode == Some(GbifKeyMode) ==>
              r.Ok? && r.value.Found? && r.value.answer.None?
              && SameBarNames(r.value.record, bb.species(id.gbifkey.value))
              && r.value.record == Reparsed(bb, bb.species(id.gbifkey.value))
    ensures mode == Some(CanonicalNameMode) ==>
              var a := bb.matchName(id.canonicalname.value);
              r.Ok? && (r.value.Found? <==> a.matchType != "NONE" && (a.matchType == "EXACT" || a.confidence >= 90))
              && (r.value.Found? ==>
                    r.value.answer == Some(a) && SameBarNames(r.value.record, bb.species(a.usageKey))
                    && r.value.record == Reparsed(bb, bb.species(a.usageKey)))
    ensures mode == Some(ScientificNameMode) ==>
              var a := bb.matchScientificName(id.scientificname.value);
              r.Ok? && (r.value.Found? <==> a.matchType != "NONE" && (a.matchType == "EXACT" || a.confidence >= 90))
              && (r.value.Found? ==>
                    r.value.answer == Some(a) && SameBarNames(r.value.record, bb.species(a.usageKey))
                    && r.value.record == Reparsed(bb, bb.species(a.usageKey)))
  {
    match mode
    case None => Err(NoMatchMode)
    case Some(GbifKeyMode) =>
      Ok(Found(Reparsed(bb, bb.species(id.gbifkey.value)), None))
    case Some(CanonicalNameMode) =>
      var a := bb.matchName(id.canonicalname.value);
      if Accepted(a) then Ok(Found(Reparsed(bb, bb.species(a.usageKey)), Some(a))) else Ok(NotFound)
    case Some(ScientificNameMode) =>
      var a := bb.matchScientificName(id.scientificname.value);
      if Accepted(a) then Ok(Found(Reparsed(bb, bb.species(a.usageKey)), Some(a))) else Ok(NotFound)
  }

  /** The key a found answer carries (`infoTax.get('key')`); None when nothing was found. */
  function KeyOf(info: Info): Option<int> {
    if info.Found? then Some(info.record.key) else None
  }
}
