/** manageInputTax: reconciles one submitted taxon with the `taxon` table. A read phase decides
    whether the taxon is stored already and formats what is missing (the accepted taxon, its
    synonym, the ancestors to walk); a write phase runs one transaction that inserts the missing
    ancestors root first, then the accepted taxon, then the synonym, and answers the accepted id. */
module Orchestrator {
  import opened Taxa
  import opened Resolver
  import opened Ranks
  import opened Matcher
  import opened Formatter
  import opened Ancestors
  import opened Store

  /** Where the superior of the accepted taxon comes from: a stored row (none for the synonym of a
      stored taxon), or the backbone ancestors to walk, root first. When `endsWithParent` holds,
      the last ancestor is the parent's own record: line 316 appends the very dictionary
      `parentTax`, which format_parents then updates in place (line 225). */
  datatype ParentPlan = ParentStored(cdTax: Option<nat>) | FetchAncestors(parents: seq<BackboneRecord>, endsWithParent: bool)

  /** The aliased parent record turned out to be stored: line 322 then takes the branch at 325-326. */
  predicate ParentMatchStored(rows: seq<TaxonRow>, plan: ParentPlan) {
    plan.FetchAncestors? && plan.endsWithParent && |plan.parents| > 0
    && Count(rows, ByKey(plan.parents[|plan.parents| - 1].key)) == 1
  }

  /** The accepted taxon of a synonym: a stored row, or a backbone taxon formatted for insertion
      with the reference to its parent. */
  datatype Accepting = AlreadyStored(cdTax: nat) | Formatted(record: TaxonRecord, parent: Identity)

  /** What the read phase leaves to do: answer the id of a stored taxon, or run a transaction. */
  datatype Prepared =
    | Done(id: nat)
    | Pending(plan: ParentPlan, accepted: AcceptedPart, synonym: Option<TaxonRecord>)

  /** The ids a pending transaction uses without inserting them name stored rows. */
  predicate Grounded(rows: seq<TaxonRow>, p: Prepared) {
    p.Pending? ==>
      (p.plan.ParentStored? ==> RefersBefore(rows, |rows|, p.plan.cdTax))
      && (p.accepted.Existing? ==> RefersBefore(rows, |rows|, Some(p.accepted.id)))
  }

  /** The record of the submitted taxon itself (the synonym when there is one, else the accepted
      taxon) carries the given backbone key. */
  predicate Carries(p: Prepared, key: int) {
    p.Pending? &&
    if p.synonym.Some? then p.synonym.value.gbifkey == Some(key)
    else p.accepted.New? && p.accepted.record.gbifkey == Some(key)
  }

  /** A taxon test_taxInDb reports as stored has a cd_tax that names a row of the table. */
  lemma StoredResolution(rows: seq<TaxonRow>, id: Identity, similarity: Similarity)
    requires ResolveIdentity(rows, id, similarity).Ok? && ResolveIdentity(rows, id, similarity).value.alreadyInDb
    ensures ResolveIdentity(rows, id, similarity).value.cdTax.Some?
    ensures RefersBefore(rows, |rows|, ResolveIdentity(rows, id, similarity).value.cdTax)
  {
    var j := FirstMatch(rows, ChosenLookup(id).value).value;
    assert rows[j].cdTax == ResolveIdentity(rows, id, similarity).value.cdTax.value;
  }

  /** A resolution that finds nothing stored for a key means the key is in no row. */
  lemma UnstoredResolution(rows: seq<TaxonRow>, key: int, similarity: Similarity)
    requires ResolveIdentity(rows, KeyOnly(Some(key)), similarity).Ok?
    requires !ResolveIdentity(rows, KeyOnly(Some(key)), similarity).value.alreadyInDb
    ensures Count(rows, ByKey(key)) == 0
  {
  }

  // ---------------------------------------------------------------- formatting

  /** Lines 292-305: a taxon the backbone knows goes through format_gbif_tax, another one through
      format_inputTax; the record keeps the backbone key, if any. */
  function FormatTaxon(ranks: seq<RankRow>, bb: Backbone, info: Info, sub: Submission, syno: bool)
    : (r: Result<(TaxonRecord, Identity)>)
    ensures r.Ok? ==> r.value.0.gbifkey == KeyOf(info)
    ensures r.Ok? && syno ==> r.value.0.status == Some("SYNONYM")
    ensures r.Ok? && info.NotFound? && !syno ==> r.value.0.status == Some("DOUBTFUL")
    ensures r.Ok? && info.NotFound? ==> r.value.0.source == sub.source
    ensures r.Ok? && info.Found? ==> r.value.1 == Identity(info.record.parentKey, None, info.record.parent)
  {
    if info.Found? then FormatGbifTax(ranks, bb, info.record, info.answer, syno)
    else FormatInputTax(ranks, bb, sub, syno)
  }

  /** Lines 296-299 as written: line 299 calls format_inputTax without its positional parameters
      acceptedName and acceptedId, which raises TypeError. */
  function FormatSynonymAsWritten(ranks: seq<RankRow>, bb: Backbone, info: Info, sub: Submission)
    : (r: Result<(TaxonRecord, Identity)>)
    ensures info.NotFound? ==> r == Err(MissingArguments)
    ensures info.Found? ==> r == FormatTaxon(ranks, bb, info, sub, true)
  {
    if info.Found? then FormatGbifTax(ranks, bb, info.record, info.answer, true)
    else Err(MissingArguments)
  }

  /** Finding at line 299: a fully described synonym the backbone does not know is rejected as
      written, whatever it contains, while the intended call formats it with status SYNONYM. */
  lemma ManualSynonymRejected(ranks: seq<RankRow>, bb: Backbone, sub: Submission)
    requires FullySupplied(sub, true) && GetRank(ranks, sub.rank.value).Ok?
    ensures FormatSynonymAsWritten(ranks, bb, NotFound, sub) == Err(MissingArguments)
    ensures var r := FormatTaxon(ranks, bb, NotFound, sub, true);
            r.Ok? && r.value.0.status == Some("SYNONYM") && r.value.0.name == sub.id.canonicalname.value
            && r.value.0.nameAuth == sub.id.scientificname.value && r.value.0.gbifkey == None
  {
  }

  // ---------------------------------------------------------------- the read phase

  /** What get_infoTax answers for an identifier test_taxInDb did not find: the backbone asked
      with the match mode of the identifier test_taxInDb used. */
  function MatchedInfo(bb: Backbone, id: Identity): Info
    requires Supplied(id)
  {
    GetInfoTax(bb, Some(ModeOf(ChosenLookup(id).value)), id).value
  }

  /** The row test_taxInDb fetches for a lookup that counts one row. */
  function FetchedRow(rows: seq<TaxonRow>, q: Lookup): TaxonRow
    requires Count(rows, q) == 1
  {
    rows[FirstMatch(rows, q).value]
  }

  /** Lines 269-278: the accepted taxon a synonym points at: the backbone's accepted usage for a
      backbone synonym, else the synonym target supplied with the submission. */
  function SynonymTarget(info: Info, sub: Submission): (r: Option<Identity>)
    ensures r.Some? <==> (info.Found? && info.record.synonym) || (info.NotFound? && Supplied(sub.synoTarget))
    ensures info.Found? && r.Some? ==>
              r.value.scientificname == info.record.accepted && r.value.canonicalname == None
              && (info.answer.Some? && info.answer.value.acceptedUsageKey.Some? ==>
                    r.value.gbifkey == info.answer.value.acceptedUsageKey)
              && (info.answer.None? || info.answer.value.acceptedUsageKey.None? ==>
                    r.value.gbifkey == info.record.acceptedKey)
    ensures info.NotFound? && r.Some? ==> r.value == sub.synoTarget
  {
    if info.Found? && info.record.synonym then
      var key := if info.answer.Some? && info.answer.value.acceptedUsageKey.Some? then info.answer.value.acceptedUsageKey
                 else info.record.acceptedKey;
      Some(Identity(key, info.record.accepted, None))
    else if info.NotFound? && Supplied(sub.synoTarget) then Some(sub.synoTarget)
    else None
  }

  /** Lines 279-295: the accepted taxon of a synonym is looked up, asked of the backbone when not
      stored, looked up again by the backbone key, and formatted when still not stored. */
  function ResolveAccepted(rows: seq<TaxonRow>, ranks: seq<RankRow>, bb: Backbone, similarity: Similarity,
                           target: Identity): (r: Result<Accepting>)
    ensures !Supplied(target) ==> r == Err(NoIdentifier)
    ensures ResolveIdentity(rows, target, similarity).Err? ==> r == Err(ResolveIdentity(rows, target, similarity).error)
    ensures r.Ok? ==> Supplied(target)
    ensures r.Ok? && r.value.AlreadyStored? ==> RefersBefore(rows, |rows|, Some(r.value.cdTax))
    ensures r.Ok? && r.value.AlreadyStored? && Count(rows, ChosenLookup(target).value) == 1 ==>
              r.value.cdTax == FetchedRow(rows, ChosenLookup(target).value).cdTax
    ensures r.Ok? && r.value.AlreadyStored? && Count(rows, ChosenLookup(target).value) != 1 ==>
              Count(rows, ChosenLookup(target).value) == 0 && MatchedInfo(bb, target).Found?
              && Count(rows, ByKey(MatchedInfo(bb, target).record.key)) == 1
              && r.value.cdTax == FetchedRow(rows, ByKey(MatchedInfo(bb, target).record.key)).cdTax
    ensures r.Ok? && r.value.Formatted? ==>
              Count(rows, ChosenLookup(target).value) == 0 && MatchedInfo(bb, target).Found?
              && r.value.record.gbifkey == Some(MatchedInfo(bb, target).record.key)
              && Count(rows, ByKey(MatchedInfo(bb, target).record.key)) == 0
              && r.value.parent == Identity(MatchedInfo(bb, target).record.parentKey, None, MatchedInfo(bb, target).record.parent)
    ensures ResolveIdentity(rows, target, similarity).Ok? && ResolveIdentity(rows, target, similarity).value.alreadyInDb ==>
              r.Ok? && r.value.AlreadyStored?
    ensures ResolveIdentity(rows, target, similarity).Ok? && !ResolveIdentity(rows, target, similarity).value.alreadyInDb
            && MatchedInfo(bb, target).Found? && Count(rows, ByKey(MatchedInfo(bb, target).record.key)) == 1 ==>
              r == Ok(AlreadyStored(FetchedRow(rows, ByKey(MatchedInfo(bb, target).record.key)).cdTax))
    ensures ResolveIdentity(rows, target, similarity).Ok? && !ResolveIdentity(rows, target, similarity).value.alreadyInDb
            && MatchedInfo(bb, target).Found? && Count(rows, ByKey(MatchedInfo(bb, target).record.key)) == 0 ==>
              var f := FormatGbifTax(ranks, bb, MatchedInfo(bb, target).record, MatchedInfo(bb, target).answer, false);
              r == (if f.Ok? then Ok(Formatted(f.value.0, f.value.1)) else Err(f.error))
  {
    var res :- ResolveIdentity(rows, target, similarity);
    if res.alreadyInDb then
      StoredResolution(rows, target, similarity);
      Ok(AlreadyStored(res.cdTax.value))
    else
      var info := GetInfoTax(bb, res.matchMode, target).value;
      var recheck :- ResolveIdentity(rows, KeyOnly(KeyOf(info)), similarity);
      if recheck.alreadyInDb then
        StoredResolution(rows, KeyOnly(KeyOf(info)), similarity);
        Ok(AlreadyStored(recheck.cdTax.value))
      else if info.Found? then
        UnstoredResolution(rows, info.record.key, similarity);
        var f :- FormatGbifTax(ranks, bb, info.record, info.answer, false);
        Ok(Formatted(f.0, f.1))
      else
        // line 295 as written; the recheck above has already failed for want of a key
        Err(MissingArguments)
  }

  /** Lines 309-318: where the superior of a new accepted taxon comes from. A stored parent is used
      as it is; otherwise the backbone ancestors of the taxon are walked, or, for a taxon without a
      backbone key, the ancestors of its parent followed by the parent itself. */
  function PlanParents(rows: seq<TaxonRow>, bb: Backbone, similarity: Similarity, rec: TaxonRecord, parent: Identity)
    : (r: Result<ParentPlan>)
    ensures !Supplied(parent) ==> r == Err(NoIdentifier)
    ensures r.Ok? ==> Supplied(parent)
    ensures r.Ok? && r.value.ParentStored? ==> r.value.cdTax.Some? && RefersBefore(rows, |rows|, r.value.cdTax)
    ensures r.Ok? ==> (r.value.ParentStored? <==> Count(rows, ChosenLookup(parent).value) == 1)
    ensures r.Ok? && r.value.ParentStored? ==>
              r.value.cdTax == Some(FetchedRow(rows, ChosenLookup(parent).value).cdTax)
    ensures r.Ok? && r.value.FetchAncestors? && rec.gbifkey.None? ==>
              MatchedInfo(bb, parent).Found? && |r.value.parents| > 0
              && r.value.parents[|r.value.parents| - 1] == MatchedInfo(bb, parent).record
    ensures r.Ok? && r.value.FetchAncestors? && rec.gbifkey.Some? ==> r.value.parents == bb.parents(rec.gbifkey.value)
    ensures r.Ok? && r.value.FetchAncestors? ==> (r.value.endsWithParent <==> rec.gbifkey.None?)
    ensures r.Ok? && r.value.FetchAncestors? && rec.gbifkey.None? ==>
              var ps := r.value.parents;
              |ps| > 0 && ps == bb.parents(ps[|ps| - 1].key) + [ps[|ps| - 1]]
    ensures r == Err(ParentNotFound) ==> rec.gbifkey.None?
    ensures r == Err(ParentNotFound) <==>
              Supplied(parent) && ResolveIdentity(rows, parent, similarity).Ok?
              && !ResolveIdentity(rows, parent, similarity).value.alreadyInDb
              && rec.gbifkey.None? && MatchedInfo(bb, parent).NotFound?
    ensures ResolveIdentity(rows, parent, similarity).Ok? && ResolveIdentity(rows, parent, similarity).value.alreadyInDb ==>
              r.Ok? && r.value.ParentStored?
    ensures ResolveIdentity(rows, parent, similarity).Ok? && r.Err? ==> r == Err(ParentNotFound)
    ensures ResolveIdentity(rows, parent, similarity).Err? ==> r == Err(ResolveIdentity(rows, parent, similarity).error)
  {
    var res :- ResolveIdentity(rows, parent, similarity);
    if res.alreadyInDb then
      StoredResolution(rows, parent, similarity);
      Ok(ParentStored(res.cdTax))
    else if rec.gbifkey.None? then
      var info := GetInfoTax(bb, res.matchMode, parent).value;
      if info.NotFound? then Err(ParentNotFound)
      else Ok(FetchAncestors(bb.parents(info.record.key) + [info.record], true))
    else Ok(FetchAncestors(bb.parents(rec.gbifkey.value), false))
  }

  /** Lines 267-307 for a taxon that is not stored: the synonym case when the backbone says so or
      a synonym target is supplied, the plain case otherwise. */
  function PrepareNew(rows: seq<TaxonRow>, ranks: seq<RankRow>, bb: Backbone, similarity: Similarity,
                      sub: Submission, info: Info): (r: Result<Prepared>)
    ensures r.Ok? ==> r.value.Pending? && Grounded(rows, r.value)
    ensures r.Ok? ==> (r.value.synonym.Some? <==> SynonymTarget(info, sub).Some?)
    ensures r.Ok? && r.value.synonym.Some? ==> r.value.synonym.value.status == Some("SYNONYM")
    ensures r.Ok? && r.value.synonym.None? ==> r.value.accepted.New?
    ensures r.Ok? && info.Found? ==> Carries(r.value, info.record.key)
    ensures r.Ok? && SynonymTarget(info, sub).None? ==>
              var f := FormatTaxon(ranks, bb, info, sub, false);
              f.Ok? && r.value.accepted == New(f.value.0)
              && PlanParents(rows, bb, similarity, f.value.0, f.value.1) == Ok(r.value.plan)
    ensures r.Ok? && SynonymTarget(info, sub).Some? ==>
              var acc := ResolveAccepted(rows, ranks, bb, similarity, SynonymTarget(info, sub).value);
              var s := FormatTaxon(ranks, bb, info, sub, true);
              acc.Ok? && s.Ok? && r.value.synonym == Some(s.value.0)
              && (acc.value.AlreadyStored? ==>
                    r.value.accepted == Existing(acc.value.cdTax) && r.value.plan == ParentStored(None))
              && (acc.value.Formatted? ==>
                    r.value.accepted == New(acc.value.record)
                    && PlanParents(rows, bb, similarity, acc.value.record, acc.value.parent) == Ok(r.value.plan))
    ensures SynonymTarget(info, sub).None? ==>
              var f := FormatTaxon(ranks, bb, info, sub, false);
              f.Ok? && PlanParents(rows, bb, similarity, f.value.0, f.value.1).Ok? ==> r.Ok?
    ensures SynonymTarget(info, sub).Some? ==>
              var acc := ResolveAccepted(rows, ranks, bb, similarity, SynonymTarget(info, sub).value);
              acc.Ok? && FormatTaxon(ranks, bb, info, sub, true).Ok?
              && (acc.value.Formatted? ==> PlanParents(rows, bb, similarity, acc.value.record, acc.value.parent).Ok?)
              ==> r.Ok?
  {
    match SynonymTarget(info, sub)
    case None =>
      var f :- FormatTaxon(ranks, bb, info, sub, false);
      var plan :- PlanParents(rows, bb, similarity, f.0, f.1);
      Ok(Pending(plan, New(f.0), None))
    case Some(target) =>
      var acc :- ResolveAccepted(rows, ranks, bb, similarity, target);
      var synonym :- FormatTaxon(ranks, bb, info, sub, true);
      match acc
      case AlreadyStored(id) =>
        Ok(Pending(ParentStored(None), Existing(id), Some(synonym.0)))
      case Formatted(record, parent) =>
        var plan :- PlanParents(rows, bb, similarity, record, parent);
        Ok(Pending(plan, New(record), Some(synonym.0)))
  }

  /** Lines 257-267 and 335-336: a stored taxon (found directly, or by the backbone key of its
      match) answers its accepted id; any other taxon is prepared for insertion. */
  function Prepare(rows: seq<TaxonRow>, ranks: seq<RankRow>, bb: Backbone, similarity: Similarity, sub: Submission)
    : (r: Result<Prepared>)
    ensures !Supplied(sub.id) ==> r == Err(NoIdentifier)
    ensures ResolveIdentity(rows, sub.id, similarity).Err? ==> r == Err(ResolveIdentity(rows, sub.id, similarity).error)
    ensures Supplied(sub.id) && Count(rows, ChosenLookup(sub.id).value) == 0 && MatchedInfo(bb, sub.id).Found?
            && Count(rows, ByKey(MatchedInfo(bb, sub.id).record.key)) > 1 ==>
              r == Err(DuplicateKey)
    ensures r.Ok? && r.value.Done? ==>
              exists i :: 0 <= i < |rows| && r.value.id == Coalesce(rows[i].cdSyno, rows[i].cdTax)
    ensures r.Ok? ==> Grounded(rows, r.value)
    ensures r.Ok? && r.value.Pending? && sub.id.gbifkey.Some? ==>
              Carries(r.value, bb.species(sub.id.gbifkey.value).key)
    ensures r.Ok? && r.value.Pending? ==>
              Count(rows, ChosenLookup(sub.id).value) == 0
              && r == PrepareNew(rows, ranks, bb, similarity, sub, MatchedInfo(bb, sub.id))
    ensures Supplied(sub.id) && Count(rows, ChosenLookup(sub.id).value) == 0
            && (MatchedInfo(bb, sub.id).Found? ==> Count(rows, ByKey(MatchedInfo(bb, sub.id).record.key)) == 0) ==>
              r == PrepareNew(rows, ranks, bb, similarity, sub, MatchedInfo(bb, sub.id))
  {
    var res :- ResolveIdentity(rows, sub.id, similarity);
    if res.alreadyInDb then
      StoredResolution(rows, sub.id, similarity);
      Ok(Done(AcceptedId(rows, res.cdTax.value).value))
    else
      var info := GetInfoTax(bb, res.matchMode, sub.id).value;
      if info.Found? then
        var recheck :- ResolveIdentity(rows, KeyOnly(Some(info.record.key)), similarity);
        if recheck.alreadyInDb then
          StoredResolution(rows, KeyOnly(Some(info.record.key)), similarity);
          Ok(Done(AcceptedId(rows, recheck.cdTax.value).value))
        else PrepareNew(rows, ranks, bb, similarity, sub, info)
      else PrepareNew(rows, ranks, bb, similarity, sub, info)
  }

  /** Lines 319 and 322-326: the stored row the first inserted ancestor hangs under and the
      ancestors to insert, as format_parents finds them; when format_parents found the parent's
      own record stored, that row and no ancestor. */
  function ChainOf(rows: seq<TaxonRow>, plan: ParentPlan): (r: Result<(Option<nat>, seq<TaxonRecord>)>)
    ensures plan.ParentStored? ==> r == Ok((plan.cdTax, []))
    ensures plan.FetchAncestors? ==> (r.Ok? <==> NoDuplicateKey(rows, plan.parents))
    ensures r.Err? ==> r.error == DuplicateKey
    ensures r.Ok? && plan.FetchAncestors? && !ParentMatchStored(rows, plan) ==>
              r.value == (LastStored(rows, plan.parents), Missing(rows, plan.parents))
    ensures r.Ok? && ParentMatchStored(rows, plan) ==>
              r.value == (StoredId(rows, plan.parents[|plan.parents| - 1].key), [])
    ensures r.Ok? && plan.FetchAncestors? ==> RefersBefore(rows, |rows|, r.value.0)
    ensures r.Ok? ==> forall k :: 0 <= k < |r.value.1| ==>
              r.value.1[k].gbifkey.Some? && Count(rows, ByKey(r.value.1[k].gbifkey.value)) == 0
  {
    match plan
    case ParentStored(c) => Ok((c, []))
    case FetchAncestors(parents, _) =>
      LastStoredNamesRow(rows, parents);
      if !NoDuplicateKey(rows, parents) then Err(DuplicateKey)
      else if ParentMatchStored(rows, plan) then Ok((StoredId(rows, parents[|parents| - 1].key), []))
      else Ok((LastStored(rows, parents), Missing(rows, parents)))
  }

  /** Lines 309-326 for a taxon without a backbone key whose parent is not stored under its own
      identifier but under the key of its backbone match: format_parents marks the parent's own
      record stored, so no ancestor is inserted and the taxon hangs under that row. */
  lemma KeylessParentStoredUnderMatch(rows: seq<TaxonRow>, bb: Backbone, similarity: Similarity,
                                      rec: TaxonRecord, parent: Identity)
    requires rec.gbifkey.None?
    requires ResolveIdentity(rows, parent, similarity).Ok? && !ResolveIdentity(rows, parent, similarity).value.alreadyInDb
    requires MatchedInfo(bb, parent).Found? && Count(rows, ByKey(MatchedInfo(bb, parent).record.key)) == 1
    requires NoDuplicateKey(rows, bb.parents(MatchedInfo(bb, parent).record.key))
    ensures var plan := PlanParents(rows, bb, similarity, rec, parent);
            plan.Ok? && ChainOf(rows, plan.value) == Ok((Some(FetchedRow(rows, ByKey(MatchedInfo(bb, parent).record.key)).cdTax), []))
  {
    var info := MatchedInfo(bb, parent);
    var ps := bb.parents(info.record.key) + [info.record];
    assert PlanParents(rows, bb, similarity, rec, parent) == Ok(FetchAncestors(ps, true));
    assert forall k :: 0 <= k < |ps| ==> ps[k] == if k < |ps| - 1 then bb.parents(info.record.key)[k] else info.record;
    assert NoDuplicateKey(rows, ps);
  }

  /** manageInputTax: the rows the submission adds and the accepted id it answers, or the error
      that stops it (in which case nothing is added). */
  function Manage(rows: seq<TaxonRow>, next: nat, ranks: seq<RankRow>, bb: Backbone, similarity: Similarity,
                  sub: Submission): (r: Result<(seq<TaxonRow>, nat)>)
    ensures !Supplied(sub.id) ==> r == Err(NoIdentifier)
    ensures ResolveIdentity(rows, sub.id, similarity).Err? ==> r == Err(ResolveIdentity(rows, sub.id, similarity).error)
  {
    var p :- Prepare(rows, ranks, bb, similarity, sub);
    match p
    case Done(id) => Ok(([], id))
    case Pending(plan, accepted, synonym) =>
      var chain :- ChainOf(rows, plan);
      Transaction(rows, next, ranks, chain.0, chain.1, accepted, synonym)
  }

  // ---------------------------------------------------------------- the write phase

  /** manageInputTax against the table: the read phase, format_parents, then the transaction of
      lines 320-332. Whatever fails leaves the table as it was. */
  method ManageInputTax(table: TaxonTable, bb: Backbone, similarity: Similarity, sub: Submission)
    returns (r: Result<nat>)
    requires table.Valid()
    modifies table
    ensures table.Valid()
    ensures var m := Manage(old(table.rows), old(table.nextId), table.ranks, bb, similarity, sub);
            (r.Ok? <==> m.Ok?) && (r.Err? ==> r.error == m.error)
            && (r.Ok? ==> r.value == m.value.1 && table.rows == old(table.rows) + m.value.0
                          && table.nextId == old(table.nextId) + |m.value.0|)
    ensures r.Err? ==> table.rows == old(table.rows) && table.nextId == old(table.nextId)
  {
    var p := Prepare(table.rows, table.ranks, bb, similarity, sub);
    if p.Err? {
      return Err(p.error);
    }
    if p.value.Done? {
      assert table.rows + [] == table.rows;
      return Ok(p.value.id);
    }
    var start: Option<nat>, missing: seq<TaxonRecord>;
    if p.value.plan.ParentStored? {
      start, missing := p.value.plan.cdTax, [];
    } else {
      var f := FormatParents(table.rows, p.value.plan.parents, similarity);
      if f.Err? {
        return Err(f.error);
      }
      if ParentMatchStored(table.rows, p.value.plan) {
        // Line 225 marked the parent's own record stored: lines 325-326 hang the taxon under it.
        start, missing := StoredId(table.rows, p.value.plan.parents[|p.value.plan.parents| - 1].key), [];
      } else {
        start, missing := f.value.0, f.value.1;
      }
    }
    assert ChainOf(table.rows, p.value.plan) == Ok((start, missing));
    r := table.InsertPhase(start, missing, p.value.accepted, p.value.synonym);
  }

  // ---------------------------------------------------------------- properties

  /** A successful submission keeps the table well formed: ids ascending below the counter, keys
      unique, every cd_sup and cd_syno naming an earlier row. */
  lemma ManageKeepsWellFormed(rows: seq<TaxonRow>, next: nat, ranks: seq<RankRow>, bb: Backbone,
                              similarity: Similarity, sub: Submission)
    requires WellFormed(rows, next)
    requires Manage(rows, next, ranks, bb, similarity, sub).Ok?
    ensures var m := Manage(rows, next, ranks, bb, similarity, sub).value;
            WellFormed(rows + m.0, next + |m.0|)
  {
    var m := Manage(rows, next, ranks, bb, similarity, sub).value;
    var p := Prepare(rows, ranks, bb, similarity, sub).value;
    if p.Done? {
      assert rows + m.0 == rows;
    } else {
      var chain := ChainOf(rows, p.plan).value;
      TransactionKeepsIds(rows, next, ranks, chain.0, chain.1, p.accepted, p.synonym);
      TransactionKeepsKeysUnique(rows, next, ranks, chain.0, chain.1, p.accepted, p.synonym);
      TransactionKeepsLinks(rows, next, ranks, chain.0, chain.1, p.accepted, p.synonym);
    }
  }

  /** The accepted id acceptedId reads off a row of a linked table names a row of the table. */
  lemma CoalesceStored(rows: seq<TaxonRow>, i: nat)
    requires Linked(rows) && i < |rows|
    ensures exists j :: 0 <= j < |rows| && rows[j].cdTax == Coalesce(rows[i].cdSyno, rows[i].cdTax)
  {
    if rows[i].cdSyno.Some? {
      assert RefersBefore(rows, i, rows[i].cdSyno);
    }
  }

  /** The accepted id a transaction answers names a row of the table it leaves, given that a
      stored accepted id names a stored row. */
  lemma TransactionAnswerStored(rows: seq<TaxonRow>, next: nat, ranks: seq<RankRow>, start: Option<nat>,
                                ancestors: seq<TaxonRecord>, accepted: AcceptedPart, synonym: Option<TaxonRecord>)
    requires Transaction(rows, next, ranks, start, ancestors, accepted, synonym).Ok?
    requires accepted.Existing? ==> RefersBefore(rows, |rows|, Some(accepted.id))
    ensures var t := Transaction(rows, next, ranks, start, ancestors, accepted, synonym).value;
            exists i :: 0 <= i < |rows| + |t.0| && (rows + t.0)[i].cdTax == t.1
  {
    var t := Transaction(rows, next, ranks, start, ancestors, accepted, synonym).value;
    TransactionShape(rows, next, ranks, start, ancestors, accepted, synonym);
    var all := rows + t.0;
    if accepted.New? {
      assert all[|rows| + |ancestors|] == t.0[|ancestors|];
    } else {
      var j :| 0 <= j < |rows| && rows[j].cdTax == accepted.id;
      assert all[j] == rows[j];
    }
  }

  /** The id a successful submission answers names a row of the table it leaves. */
  lemma ManageAnswersStoredId(rows: seq<TaxonRow>, next: nat, ranks: seq<RankRow>, bb: Backbone,
                              similarity: Similarity, sub: Submission)
    requires WellFormed(rows, next)
    requires Manage(rows, next, ranks, bb, similarity, sub).Ok?
    ensures var m := Manage(rows, next, ranks, bb, similarity, sub).value;
            exists i :: 0 <= i < |rows| + |m.0| && (rows + m.0)[i].cdTax == m.1
  {
    var m := Manage(rows, next, ranks, bb, similarity, sub).value;
    var p := Prepare(rows, ranks, bb, similarity, sub).value;
    if p.Done? {
      var i :| 0 <= i < |rows| && p.id == Coalesce(rows[i].cdSyno, rows[i].cdTax);
      CoalesceStored(rows, i);
      assert rows + m.0 == rows;
    } else {
      var chain := ChainOf(rows, p.plan).value;
      TransactionAnswerStored(rows, next, ranks, chain.0, chain.1, p.accepted, p.synonym);
    }
  }

  /** With unique keys, the row carrying a key is the one a lookup by that key counts and fetches. */
  lemma UniqueKeyResolves(rows: seq<TaxonRow>, i: nat, key: int)
    requires KeysUnique(rows) && i < |rows| && rows[i].gbifkey == Some(key)
    ensures Count(rows, ByKey(key)) == 1 && FirstMatch(rows, ByKey(key)) == Some(i)
  {
    CountAtMostOne(rows, ByKey(key));
    assert AtMostOne(rows, ByKey(key));
    assert Matches(rows[i], ByKey(key));
  }

  /** After a successful transaction, the key of the submitted taxon's record names its row alone,
      and that row redirects to the accepted id the transaction answers. */
  lemma TransactionResolvesSubmitted(rows: seq<TaxonRow>, next: nat, ranks: seq<RankRow>, start: Option<nat>,
                                     ancestors: seq<TaxonRecord>, accepted: AcceptedPart,
                                     synonym: Option<TaxonRecord>, key: int)
    requires Transaction(rows, next, ranks, start, ancestors, accepted, synonym).Ok?
    requires KeysUnique(rows + Transaction(rows, next, ranks, start, ancestors, accepted, synonym).value.0)
    requires synonym.Some? ==> synonym.value.gbifkey == Some(key)
    requires synonym.None? ==> accepted.New? && accepted.record.gbifkey == Some(key)
    ensures var t := Transaction(rows, next, ranks, start, ancestors, accepted, synonym).value;
            ResolvesTo(rows + t.0, key, t.1)
  {
    var t := Transaction(rows, next, ranks, start, ancestors, accepted, synonym).value;
    var all := AllRecords(ancestors, accepted, synonym);
    TransactionShape(rows, next, ranks, start, ancestors, accepted, synonym);
    var k := if synonym.Some? then |t.0| - 1 else |ancestors|;
    assert Stores(t.0[k], all[k], ranks);
    if synonym.Some? {
      assert all[k] == synonym.value;
    } else {
      assert all[k] == accepted.record;
    }
    var after := rows + t.0;
    assert after[|rows| + k] == t.0[k];
    UniqueKeyResolves(after, |rows| + k, key);
  }

  /** Lines 258 and 335-336: a submission test_taxInDb finds stored, whichever identifier it was
      found by, inserts nothing and answers COALESCE(cd_syno, cd_tax) of the row it fetched. */
  lemma StoredSubmissionAnswered(rows: seq<TaxonRow>, next: nat, ranks: seq<RankRow>, bb: Backbone,
                                 similarity: Similarity, sub: Submission)
    requires IdsAscending(rows)
    requires ResolveIdentity(rows, sub.id, similarity).Ok? && ResolveIdentity(rows, sub.id, similarity).value.alreadyInDb
    ensures Count(rows, ChosenLookup(sub.id).value) == 1
    ensures var row := FetchedRow(rows, ChosenLookup(sub.id).value);
            Manage(rows, next, ranks, bb, similarity, sub) == Ok(([], Coalesce(row.cdSyno, row.cdTax)))
  {
    AcceptedIdOfRow(rows, FirstMatch(rows, ChosenLookup(sub.id).value).value);
  }

  /** Lines 263-266 and 335-336: a submission not stored under its own identifier but under the
      backbone key of its match inserts nothing and answers that row's COALESCE(cd_syno, cd_tax). */
  lemma RecheckedSubmissionAnswered(rows: seq<TaxonRow>, next: nat, ranks: seq<RankRow>, bb: Backbone,
                                    similarity: Similarity, sub: Submission)
    requires IdsAscending(rows)
    requires ResolveIdentity(rows, sub.id, similarity).Ok? && !ResolveIdentity(rows, sub.id, similarity).value.alreadyInDb
    requires MatchedInfo(bb, sub.id).Found? && Count(rows, ByKey(MatchedInfo(bb, sub.id).record.key)) == 1
    ensures var row := FetchedRow(rows, ByKey(MatchedInfo(bb, sub.id).record.key));
            Manage(rows, next, ranks, bb, similarity, sub) == Ok(([], Coalesce(row.cdSyno, row.cdTax)))
  {
    AcceptedIdOfRow(rows, FirstMatch(rows, ByKey(MatchedInfo(bb, sub.id).record.key)).value);
  }

  /** Lines 86-87, 100-101 and 114-117 raised at line 258: more than one row under the identifier
      the submission is looked up by stops the operation with that duplicate error, before any
      write. */
  lemma DuplicateSubmissionRejected(rows: seq<TaxonRow>, next: nat, ranks: seq<RankRow>, bb: Backbone,
                                    similarity: Similarity, sub: Submission)
    requires Supplied(sub.id) && Count(rows, ChosenLookup(sub.id).value) > 1
    ensures Manage(rows, next, ranks, bb, similarity, sub) == Err(DuplicateError(ChosenLookup(sub.id).value))
  {
  }

  /** Line 264: a submission not stored under its own identifier whose backbone match key is held
      by more than one row stops with DuplicateKey, before any write. */
  lemma DuplicateRecheckRejected(rows: seq<TaxonRow>, next: nat, ranks: seq<RankRow>, bb: Backbone,
                                 similarity: Similarity, sub: Submission)
    requires Supplied(sub.id) && Count(rows, ChosenLookup(sub.id).value) == 0
    requires MatchedInfo(bb, sub.id).Found? && Count(rows, ByKey(MatchedInfo(bb, sub.id).record.key)) > 1
    ensures Manage(rows, next, ranks, bb, similarity, sub) == Err(DuplicateKey)
  {
  }

  /** A submission by a key that names one stored row, with no canonical name to compare, is
      answered from the table: nothing is inserted and the row's accepted id comes back. */
  lemma StoredKeyAnswered(rows: seq<TaxonRow>, next: nat, ranks: seq<RankRow>, bb: Backbone,
                          similarity: Similarity, sub: Submission, accId: nat)
    requires IdsAscending(rows)
    requires sub.id.gbifkey.Some? && sub.id.canonicalname.None?
    requires ResolvesTo(rows, sub.id.gbifkey.value, accId)
    ensures Manage(rows, next, ranks, bb, similarity, sub) == Ok(([], accId))
  {
    KeyLookupOfStored(rows, sub.id, accId, similarity);
    StoredResolution(rows, sub.id, similarity);
  }

  /** Submitting again a taxon given by its backbone key (and no canonical name) after it was
      integrated inserts nothing and answers the same accepted id, provided the backbone reports
      the key as its own. */
  lemma SecondCallByKey(rows: seq<TaxonRow>, next: nat, ranks: seq<RankRow>, bb: Backbone,
                        similarity: Similarity, sub: Submission)
    requires WellFormed(rows, next)
    requires sub.id.gbifkey.Some? && sub.id.canonicalname.None?
    requires bb.species(sub.id.gbifkey.value).key == sub.id.gbifkey.value
    requires Manage(rows, next, ranks, bb, similarity, sub).Ok?
    ensures var m := Manage(rows, next, ranks, bb, similarity, sub).value;
            Manage(rows + m.0, next + |m.0|, ranks, bb, similarity, sub) == Ok(([], m.1))
  {
    var m := Manage(rows, next, ranks, bb, similarity, sub).value;
    var p := Prepare(rows, ranks, bb, similarity, sub).value;
    if p.Done? {
      assert rows + m.0 == rows;
    } else {
      var chain := ChainOf(rows, p.plan).value;
      ManageKeepsWellFormed(rows, next, ranks, bb, similarity, sub);
      TransactionResolvesSubmitted(rows, next, ranks, chain.0, chain.1, p.accepted, p.synonym, sub.id.gbifkey.value);
      StoredKeyAnswered(rows + m.0, next + |m.0|, ranks, bb, similarity, sub, m.1);
    }
  }
}
