/** format_parents: walks the backbone ancestors of a taxon (root first), keeps those whose key
    is not stored yet, and remembers the id of the last one that is. */
module Ancestors {
  import opened Taxa
  import opened Resolver

  /** The dictionary line 229 builds from an ancestor (its rank is taken as it is, not resolved). */
  function AncestorRecord(p: BackboneRecord): (r: TaxonRecord)
    ensures r.gbifkey == Some(p.key) && r.source == None
  {
    TaxonRecord(p.canonicalName, p.scientificName, p.authorship, p.rank, p.taxonomicStatus, Some(p.key), None)
  }

  predicate Unstored(rows: seq<TaxonRow>, p: BackboneRecord) {
    Count(rows, ByKey(p.key)) == 0
  }

  /** The ancestors that are not stored, formatted, in their input order. */
  function Missing(rows: seq<TaxonRow>, parents: seq<BackboneRecord>): (r: seq<TaxonRecord>)
    ensures |r| <= |parents|
    ensures forall k :: 0 <= k < |r| ==>
              r[k].gbifkey.Some? && Count(rows, ByKey(r[k].gbifkey.value)) == 0 && r[k].source == None
  {
    if parents == [] then []
    else
      var last := parents[|parents| - 1];
      var init := parents[..|parents| - 1];
      Missing(rows, init) + (if Unstored(rows, last) then [AncestorRecord(last)] else [])
  }

  /** Every ancestor that is not stored is among the records to insert. */
  lemma {:induction false} MissingComplete(rows: seq<TaxonRow>, parents: seq<BackboneRecord>)
    ensures forall p :: p in parents && Unstored(rows, p) ==> AncestorRecord(p) in Missing(rows, parents)
    decreases |parents|
  {
    if parents != [] {
      var last := parents[|parents| - 1];
      var init := parents[..|parents| - 1];
      MissingComplete(rows, init);
      assert parents == init + [last];
    }
  }

  /** Filtering commutes with concatenation: the kept ancestors keep their relative order. */
  lemma {:induction false} MissingAppend(rows: seq<TaxonRow>, xs: seq<BackboneRecord>, ys: seq<BackboneRecord>)
    ensures Missing(rows, xs + ys) == Missing(rows, xs) + Missing(rows, ys)
    decreases |ys|
  {
    if ys == [] {
      assert xs + ys == xs;
    } else {
      var init := ys[..|ys| - 1];
      assert (xs + ys)[..|xs + ys| - 1] == xs + init;
      MissingAppend(rows, xs, init);
    }
  }

  /** The cd_tax test_taxInDb reports for a key looked up alone: that of its one row, if exactly one. */
  function StoredId(rows: seq<TaxonRow>, key: int): (r: Option<nat>)
    ensures r.Some? <==> Count(rows, ByKey(key)) == 1
    ensures r.Some? ==> exists i :: 0 <= i < |rows| && rows[i].gbifkey == Some(key) && rows[i].cdTax == r.value
  {
    if Count(rows, ByKey(key)) == 1 then Some(rows[FirstMatch(rows, ByKey(key)).value].cdTax) else None
  }

  /** The cd_tax of the last stored ancestor, or None when none is stored. */
  function LastStored(rows: seq<TaxonRow>, parents: seq<BackboneRecord>): (r: Option<nat>)
    ensures r.Some? ==> exists m :: 0 <= m < |parents| && Count(rows, ByKey(parents[m].key)) == 1
                                    && r == StoredId(rows, parents[m].key)
    decreases |parents|
  {
    if parents == [] then None
    else
      var last := parents[|parents| - 1];
      if Count(rows, ByKey(last.key)) == 1 then StoredId(rows, last.key)
      else LastStored(rows, parents[..|parents| - 1])
  }

  /** There is a last stored ancestor iff some ancestor is stored. */
  lemma {:induction false} LastStoredNone(rows: seq<TaxonRow>, parents: seq<BackboneRecord>)
    ensures LastStored(rows, parents).None? <==>
            forall m :: 0 <= m < |parents| ==> Count(rows, ByKey(parents[m].key)) != 1
    decreases |parents|
  {
    if parents != [] && Count(rows, ByKey(parents[|parents| - 1].key)) != 1 {
      var init := parents[..|parents| - 1];
      LastStoredNone(rows, init);
      assert LastStored(rows, parents) == LastStored(rows, init);
      assert forall m :: 0 <= m < |init| ==> init[m] == parents[m];
    }
  }

  /** The answer is the id of the ancestor stored after which no other one is. */
  lemma {:induction false} LastStoredIsLast(rows: seq<TaxonRow>, parents: seq<BackboneRecord>, m: nat)
    requires m < |parents| && Count(rows, ByKey(parents[m].key)) == 1
    requires forall n :: m < n < |parents| ==> Count(rows, ByKey(parents[n].key)) != 1
    ensures LastStored(rows, parents) == StoredId(rows, parents[m].key)
    decreases |parents|
  {
    if m < |parents| - 1 {
      var init := parents[..|parents| - 1];
      assert forall n :: m < n < |init| ==> init[n] == parents[n];
      LastStoredIsLast(rows, init, m);
    }
  }

  /** The answer, when there is one, names a row of the table. */
  lemma {:induction false} LastStoredNamesRow(rows: seq<TaxonRow>, parents: seq<BackboneRecord>)
    ensures LastStored(rows, parents).Some? ==>
            exists i :: 0 <= i < |rows| && rows[i].cdTax == LastStored(rows, parents).value
    decreases |parents|
  {
    if parents != [] {
      LastStoredNamesRow(rows, parents[..|parents| - 1]);
    }
  }

  /** One ancestor more: it becomes the last stored one exactly when its key is stored. */
  lemma LastStoredStep(rows: seq<TaxonRow>, parents: seq<BackboneRecord>, i: nat)
    requires i < |parents|
    ensures LastStored(rows, parents[..i + 1]) ==
            if Count(rows, ByKey(parents[i].key)) == 1 then StoredId(rows, parents[i].key)
            else LastStored(rows, parents[..i])
  {
    assert parents[..i + 1][..i] == parents[..i];
  }

  /** One ancestor more: it is kept exactly when its key is not stored. */
  lemma MissingStep(rows: seq<TaxonRow>, parents: seq<BackboneRecord>, i: nat)
    requires i < |parents|
    ensures Missing(rows, parents[..i + 1]) ==
            Missing(rows, parents[..i]) + (if Unstored(rows, parents[i]) then [AncestorRecord(parents[i])] else [])
  {
    assert parents[..i + 1][..i] == parents[..i];
  }

  /** What test_taxInDb answers for a key looked up alone. */
  lemma KeyOnlyResolution(rows: seq<TaxonRow>, key: int, similarity: Similarity)
    ensures var r := ResolveIdentity(rows, KeyOnly(Some(key)), similarity);
            (r.Err? <==> Count(rows, ByKey(key)) > 1) && (r.Err? ==> r.error == DuplicateKey)
    ensures var r := ResolveIdentity(rows, KeyOnly(Some(key)), similarity);
            r.Ok? ==> (r.value.alreadyInDb <==> Count(rows, ByKey(key)) == 1)
                      && (r.value.alreadyInDb ==> r.value.cdTax == StoredId(rows, key))
  {
  }

  /** No ancestor key is stored more than once (else test_taxInDb raises). */
  predicate NoDuplicateKey(rows: seq<TaxonRow>, parents: seq<BackboneRecord>) {
    forall k :: 0 <= k < |parents| ==> Count(rows, ByKey(parents[k].key)) <= 1
  }

  /** One ancestor more: no duplicate so far and none for the new key. */
  lemma NoDuplicateKeyStep(rows: seq<TaxonRow>, parents: seq<BackboneRecord>, i: nat)
    requires i < |parents|
    ensures NoDuplicateKey(rows, parents[..i + 1]) <==>
            NoDuplicateKey(rows, parents[..i]) && Count(rows, ByKey(parents[i].key)) <= 1
  {
    assert forall k :: 0 <= k < i ==> parents[..i + 1][k] == parents[..i][k];
    assert parents[..i + 1][i] == parents[i];
  }

  /** format_parents: the id of the last stored ancestor and the formatted unstored ones. */
  method FormatParents(rows: seq<TaxonRow>, parents: seq<BackboneRecord>, similarity: Similarity)
    returns (r: Result<(Option<nat>, seq<TaxonRecord>)>)
    ensures r.Ok? <==> NoDuplicateKey(rows, parents)
    ensures r.Err? ==> r.error == DuplicateKey
    ensures r.Ok? ==> r.value == (LastStored(rows, parents), Missing(rows, parents))
  {
    var idParentInDb: Option<nat> := None;
    var listFormatted: seq<TaxonRecord> := [];
    var i := 0;
    while i < |parents|
      invariant 0 <= i <= |parents|
      invariant NoDuplicateKey(rows, parents[..i])
      invariant idParentInDb == LastStored(rows, parents[..i])
      invariant listFormatted == Missing(rows, parents[..i])
    {
      var p := parents[i];
      LastStoredStep(rows, parents, i);
      MissingStep(rows, parents, i);
      NoDuplicateKeyStep(rows, parents, i);
      KeyOnlyResolution(rows, p.key, similarity);
      var test := ResolveIdentity(rows, KeyOnly(Some(p.key)), similarity);
      if test.Err? {
        assert Count(rows, ByKey(parents[i].key)) > 1;
        return Err(test.error);
      }
      if test.value.alreadyInDb {
        idParentInDb := test.value.cdTax;
      } else {
        listFormatted := listFormatted + [AncestorRecord(p)];
      }
      i := i + 1;
    }
    assert parents[..i] == parents;
    return Ok((idParentInDb, listFormatted));
  }
}
