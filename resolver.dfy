/** test_taxInDb and acceptedId: read-only questions put to a snapshot of the `taxon` table. */
module Resolver {
  import opened Taxa

  /** The single-column equality each branch of test_taxInDb filters on. */
  datatype Lookup = ByKey(key: int) | ByNameAuth(nameAuth: string) | ByName(name: string)

  predicate Matches(row: TaxonRow, q: Lookup) {
    match q
    case ByKey(k) => row.gbifkey == Some(k)
    case ByNameAuth(s) => row.nameAuth == s
    case ByName(s) => row.name == s
  }

  predicate AtMostOne(rows: seq<TaxonRow>, q: Lookup) {
    forall i, j :: 0 <= i < |rows| && 0 <= j < |rows| && Matches(rows[i], q) && Matches(rows[j], q) ==> i == j
  }

  /** SELECT count(*) FROM taxon WHERE <column> = <value> */
  function Count(rows: seq<TaxonRow>, q: Lookup): (n: nat)
    ensures n == 0 <==> forall i :: 0 <= i < |rows| ==> !Matches(rows[i], q)
    ensures n <= |rows|
  {
    if rows == [] then 0
    else
      var rest := Count(rows[1..], q);
      assert forall i :: 1 <= i < |rows| ==> rows[i] == rows[1..][i - 1];
      (if Matches(rows[0], q) then 1 else 0) + rest
  }

  /** A count of at most one means no two rows match. */
  lemma {:induction false} CountAtMostOne(rows: seq<TaxonRow>, q: Lookup)
    ensures Count(rows, q) <= 1 <==> AtMostOne(rows, q)
    decreases |rows|
  {
    if rows != [] {
      var tail := rows[1..];
      CountAtMostOne(tail, q);
      if Matches(rows[0], q) && Count(tail, q) > 0 {
        var j :| 0 <= j < |tail| && Matches(tail[j], q);
        assert rows[j + 1] == tail[j];
      } else if AtMostOne(tail, q) && (Matches(rows[0], q) ==> Count(tail, q) == 0) {
        forall a, b | 0 <= a < |rows| && 0 <= b < |rows| && Matches(rows[a], q) && Matches(rows[b], q)
          ensures a == b
        {
          if a > 0 { assert rows[a] == tail[a - 1]; }
          if b > 0 { assert rows[b] == tail[b - 1]; }
        }
      } else if !AtMostOne(tail, q) {
        var a, b :| 0 <= a < |tail| && 0 <= b < |tail| && Matches(tail[a], q) && Matches(tail[b], q) && a != b;
        assert rows[a + 1] == tail[a] && rows[b + 1] == tail[b];
      }
    }
  }

  /** The row fetchone() returns for a SELECT with that filter: the first matching one. */
  function FirstMatch(rows: seq<TaxonRow>, q: Lookup): (r: Option<nat>)
    ensures r.None? <==> forall i :: 0 <= i < |rows| ==> !Matches(rows[i], q)
    ensures r.Some? ==> r.value < |rows| && Matches(rows[r.value], q)
                        && forall j :: 0 <= j < r.value ==> !Matches(rows[j], q)
  {
    if rows == [] then None
    else if Matches(rows[0], q) then Some(0)
    else
      match FirstMatch(rows[1..], q)
      case None => None
      case Some(i) => Some(i + 1)
  }

  /** The identifier test_taxInDb uses: the first supplied of gbifkey, scientificname, canonicalname. */
  function ChosenLookup(id: Identity): (q: Option<Lookup>)
    ensures q.Some? <==> Supplied(id)
  {
    if id.gbifkey.Some? then Some(ByKey(id.gbifkey.value))
    else if id.scientificname.Some? then Some(ByNameAuth(id.scientificname.value))
    else if id.canonicalname.Some? then Some(ByName(id.canonicalname.value))
    else None
  }

  function ModeOf(q: Lookup): MatchMode {
    match q
    case ByKey(_) => GbifKeyMode
    case ByNameAuth(_) => ScientificNameMode
    case ByName(_) => CanonicalNameMode
  }

  function DuplicateError(q: Lookup): Error {
    match q
    case ByKey(_) => DuplicateKey
    case ByNameAuth(_) => DuplicateNameAuth
    case ByName(_) => DuplicateName
  }

  /** A match mode names an identifier that is present: what get_infoTax needs. */
  predicate NamesIdentifier(mode: MatchMode, id: Identity) {
    match mode
    case GbifKeyMode => id.gbifkey.Some?
    case ScientificNameMode => id.scientificname.Some?
    case CanonicalNameMode => id.canonicalname.Some?
  }

  /** The fuzzy check of a key match: fuzz.ratio(stored name, canonicalname) < 0.75. */
  predicate NameTooFar(similarity: Similarity, stored: string, supplied: string) {
    (similarity(stored, supplied) as real) < 0.75
  }

  /** test_taxInDb: is the taxon already stored, and if not, how must the backbone be asked? */
  function ResolveIdentity(rows: seq<TaxonRow>, id: Identity, similarity: Similarity): (r: Result<Resolution>)
    ensures !Supplied(id) <==> r == Err(NoIdentifier)
    ensures r.Ok? ==> Supplied(id)
    ensures r.Ok? ==> (r.value.alreadyInDb <==> Count(rows, ChosenLookup(id).value) == 1)
    ensures r.Ok? && r.value.alreadyInDb ==>
              var q := ChosenLookup(id).value;
              r.value.matchMode == None && FirstMatch(rows, q).Some?
              && r.value.cdTax == Some(rows[FirstMatch(rows, q).value].cdTax)
    ensures r.Ok? && !r.value.alreadyInDb ==>
              var q := ChosenLookup(id).value;
              r.value.matchMode == Some(ModeOf(q)) && r.value.cdTax == None
              && forall i :: 0 <= i < |rows| ==> !Matches(rows[i], q)
    ensures r.Ok? && r.value.matchMode.Some? ==> NamesIdentifier(r.value.matchMode.value, id)
    ensures Supplied(id) && Count(rows, ChosenLookup(id).value) > 1 ==> r == Err(DuplicateError(ChosenLookup(id).value))
    ensures r.Err? ==> r.error == NoIdentifier || r.error == NameMismatch
                       || (Supplied(id) && Count(rows, ChosenLookup(id).value) > 1)
    ensures r == Err(NameMismatch) <==>
              id.gbifkey.Some? && id.canonicalname.Some? && Count(rows, ByKey(id.gbifkey.value)) == 1
              && FirstMatch(rows, ByKey(id.gbifkey.value)).Some?
              && NameTooFar(similarity, rows[FirstMatch(rows, ByKey(id.gbifkey.value)).value].name, id.canonicalname.value)
  {
    match ChosenLookup(id)
    case None => Err(NoIdentifier)
    case Some(q) =>
      var n := Count(rows, q);
      if n == 1 then
        var row := rows[FirstMatch(rows, q).value];
        if q.ByKey? && id.canonicalname.Some? && NameTooFar(similarity, row.name, id.canonicalname.value) then
          Err(NameMismatch)
        else
          Ok(Resolution(true, None, Some(row.cdTax)))
      else if n == 0 then
        Ok(Resolution(false, Some(ModeOf(q)), None))
      else
        Err(DuplicateError(q))
  }

  /** The row whose cd_tax is the given one, if any. */
  function IndexOfId(rows: seq<TaxonRow>, cdTax: nat): (r: Option<nat>)
    ensures r.None? <==> forall i :: 0 <= i < |rows| ==> rows[i].cdTax != cdTax
    ensures r.Some? ==> r.value < |rows| && rows[r.value].cdTax == cdTax
  {
    if rows == [] then None
    else if rows[0].cdTax == cdTax then Some(0)
    else
      match IndexOfId(rows[1..], cdTax)
      case None => None
      case Some(i) => Some(i + 1)
  }

  /** acceptedId: SELECT COALESCE(cd_syno, cd_tax) FROM taxon WHERE cd_tax = ... */
  function AcceptedId(rows: seq<TaxonRow>, cdTax: nat): (r: Result<nat>)
    ensures r.Err? <==> forall i :: 0 <= i < |rows| ==> rows[i].cdTax != cdTax
    ensures r.Err? ==> r.error == NoSuchTaxon
    ensures r.Ok? ==> exists i :: 0 <= i < |rows| && rows[i].cdTax == cdTax
                        && r.value == (if rows[i].cdSyno.Some? then rows[i].cdSyno.value else cdTax)
  {
    match IndexOfId(rows, cdTax)
    case None => Err(NoSuchTaxon)
    case Some(i) => Ok(Coalesce(rows[i].cdSyno, rows[i].cdTax))
  }

  /** Ids strictly increase along the table (a serial key), so each cd_tax names one row. */
  predicate IdsAscending(rows: seq<TaxonRow>) {
    forall i, j :: 0 <= i < j < |rows| ==> rows[i].cdTax < rows[j].cdTax
  }

  /** With ascending ids, acceptedId on the cd_tax of a row reads that very row. */
  lemma AcceptedIdOfRow(rows: seq<TaxonRow>, i: nat)
    requires IdsAscending(rows) && i < |rows|
    ensures AcceptedId(rows, rows[i].cdTax) == Ok(Coalesce(rows[i].cdSyno, rows[i].cdTax))
  {
    var a := AcceptedId(rows, rows[i].cdTax);
    var j :| 0 <= j < |rows| && rows[j].cdTax == rows[i].cdTax
             && a.value == (if rows[j].cdSyno.Some? then rows[j].cdSyno.value else rows[i].cdTax);
    assert j == i;
  }

  /** The key names exactly one row, and that row redirects to `accId`. */
  predicate ResolvesTo(rows: seq<TaxonRow>, key: int, accId: nat) {
    Count(rows, ByKey(key)) == 1
    && FirstMatch(rows, ByKey(key)).Some?
    && var row := rows[FirstMatch(rows, ByKey(key)).value];
       Coalesce(row.cdSyno, row.cdTax) == accId
  }

  /** A lookup by a stored key, with no canonical name to compare, reports the stored row, and
      acceptedId on it answers the row's accepted id. */
  lemma {:induction false} KeyLookupOfStored(rows: seq<TaxonRow>, id: Identity, accId: nat, similarity: Similarity)
    requires id.gbifkey.Some? && id.canonicalname.None?
    requires IdsAscending(rows) && ResolvesTo(rows, id.gbifkey.value, accId)
    ensures ResolveIdentity(rows, id, similarity).Ok?
    ensures var res := ResolveIdentity(rows, id, similarity).value;
            res.alreadyInDb && res.cdTax.Some? && AcceptedId(rows, res.cdTax.value) == Ok(accId)
  {
    var f := FirstMatch(rows, ByKey(id.gbifkey.value)).value;
    var res := ResolveIdentity(rows, id, similarity).value;
    assert res.cdTax == Some(rows[f].cdTax);
    var a := AcceptedId(rows, rows[f].cdTax);
    var i :| 0 <= i < |rows| && rows[i].cdTax == rows[f].cdTax
             && a.value == (if rows[i].cdSyno.Some? then rows[i].cdSyno.value else rows[f].cdTax);
    assert i == f;
  }
}
