/** The `taxon` table as the insert phase of manageInputTax changes it: insertTax (one INSERT ...
    RETURNING cd_tax), the chain of missing ancestors, and the transaction around them. */
module Store {
  import opened Taxa
  import opened Resolver
  import opened Formatter

  // ---------------------------------------------------------------- one insert

  /** The JOIN of line 241: the cd_rank of the tax_rank row whose rank_name is the record's rank. */
  function RankCode(ranks: seq<RankRow>, rankName: string): (r: Option<string>)
    ensures r.None? <==> forall i :: 0 <= i < |ranks| ==> ranks[i].rankName != rankName
    ensures r.Some? ==> exists i :: 0 <= i < |ranks| && ranks[i].rankName == rankName && ranks[i].cdRank == r.value
  {
    if ranks == [] then None
    else if ranks[0].rankName == rankName then Some(ranks[0].cdRank)
    else RankCode(ranks[1..], rankName)
  }

  /** `CASE WHEN NOT auth ~ '^ *$' THEN auth ELSE NULL END`: a missing or blank authorship is NULL. */
  function StoredAuth(auth: Option<string>): Option<string> {
    if auth.Some? && !Blank(auth.value) then auth else None
  }

  /** The key is absent, or no stored row carries it (the unique constraint on gbifkey). */
  predicate KeyFree(rows: seq<TaxonRow>, key: Option<int>) {
    key.None? || forall i :: 0 <= i < |rows| ==> rows[i].gbifkey != key
  }

  /** The insert of line 241 adds a row: the rank joins, and the key is not taken. */
  predicate Insertable(rows: seq<TaxonRow>, ranks: seq<RankRow>, rec: TaxonRecord) {
    RankCode(ranks, rec.rankName).Some? && KeyFree(rows, rec.gbifkey)
  }

  /** The row holds the record's fields as the INSERT writes them. */
  predicate Stores(row: TaxonRow, rec: TaxonRecord, ranks: seq<RankRow>) {
    row.name == rec.name && row.nameAuth == rec.nameAuth && row.auth == StoredAuth(rec.auth)
    && Some(row.rank) == RankCode(ranks, rec.rankName)
    && row.status == rec.status && row.gbifkey == rec.gbifkey && row.source == rec.source
  }

  /** What insertTax reports when the insert adds no row: with no joining rank the INSERT selects
      nothing and unpacking the missing RETURNING row fails; otherwise the key is taken and the
      unique constraint rejects the row. */
  function InsertError(ranks: seq<RankRow>, rec: TaxonRecord): Error {
    if RankCode(ranks, rec.rankName).None? then RankNotInTable else KeyTaken
  }

  /** The row the INSERT of line 241 writes for a record under the given id, superior and accepted id. */
  function RowOf(id: nat, rec: TaxonRecord, ranks: seq<RankRow>, idParent: Option<nat>, idSyno: Option<nat>)
    : (row: TaxonRow)
    ensures RankCode(ranks, rec.rankName).Some? ==> Stores(row, rec, ranks)
    ensures row.cdTax == id && row.cdSup == idParent && row.cdSyno == idSyno
  {
    var code := RankCode(ranks, rec.rankName);
    TaxonRow(id, rec.name, rec.nameAuth, StoredAuth(rec.auth), if code.Some? then code.value else "",
             rec.status, rec.gbifkey, idParent, idSyno, rec.source)
  }

  // ---------------------------------------------------------------- the chain of inserts

  /** Lines 323-324: the k-th inserted ancestor hangs under the previous insert, the first one under
      the stored ancestor; for k = the number of ancestors, the id the accepted taxon hangs under. */
  function ChainParent(start: Option<nat>, next: nat, k: nat): Option<nat> {
    if k == 0 then start else Some(next + k - 1)
  }

  /** Every record's rank joins, and every key is new to the table and to the records before it. */
  predicate ChainInsertable(rows: seq<TaxonRow>, ranks: seq<RankRow>, recs: seq<TaxonRecord>) {
    forall k :: 0 <= k < |recs| ==>
      RankCode(ranks, recs[k].rankName).Some? && KeyFree(rows, recs[k].gbifkey)
      && (recs[k].gbifkey.Some? ==> forall j :: 0 <= j < k ==> recs[j].gbifkey != recs[k].gbifkey)
  }

  /** Rows that store the given records, one for one. */
  predicate StoresAll(rows: seq<TaxonRow>, recs: seq<TaxonRecord>, ranks: seq<RankRow>) {
    |rows| == |recs| && forall k :: 0 <= k < |recs| ==> Stores(rows[k], recs[k], ranks)
  }

  /** A key is free after some inserts iff it was free before and no inserted record carries it. */
  lemma KeyFreeAfter(rows: seq<TaxonRow>, added: seq<TaxonRow>, recs: seq<TaxonRecord>, ranks: seq<RankRow>,
                     key: Option<int>)
    requires StoresAll(added, recs, ranks)
    ensures KeyFree(rows + added, key) <==>
            KeyFree(rows, key) && (key.Some? ==> forall j :: 0 <= j < |recs| ==> recs[j].gbifkey != key)
  {
    var all := rows + added;
    assert forall i :: 0 <= i < |rows| ==> all[i] == rows[i];
    assert forall j :: 0 <= j < |added| ==> all[|rows| + j] == added[j];
  }

  /** The next record can join a chain that stored the earlier ones iff the longer chain is insertable. */
  lemma InsertableAfter(rows: seq<TaxonRow>, added: seq<TaxonRow>, recs: seq<TaxonRecord>, ranks: seq<RankRow>,
                        rec: TaxonRecord)
    requires StoresAll(added, recs, ranks) && ChainInsertable(rows, ranks, recs)
    ensures Insertable(rows + added, ranks, rec) <==> ChainInsertable(rows, ranks, recs + [rec])
  {
    KeyFreeAfter(rows, added, recs, ranks, rec.gbifkey);
    var all := recs + [rec];
    assert forall k :: 0 <= k < |recs| ==> all[k] == recs[k];
    assert all[|recs|] == rec;
  }

  /** The rows the insert loop of lines 323-324 adds for the missing ancestors, in order. */
  function ChainRows(next: nat, ranks: seq<RankRow>, start: Option<nat>, recs: seq<TaxonRecord>): seq<TaxonRow> {
    seq(|recs|, k requires 0 <= k < |recs| => RowOf(next + k, recs[k], ranks, ChainParent(start, next, k), None))
  }

  lemma ChainRowsSnoc(next: nat, ranks: seq<RankRow>, start: Option<nat>, recs: seq<TaxonRecord>, rec: TaxonRecord)
    ensures ChainRows(next, ranks, start, recs + [rec]) ==
            ChainRows(next, ranks, start, recs) + [RowOf(next + |recs|, rec, ranks, ChainParent(start, next, |recs|), None)]
  {
    var xs := recs + [rec];
    assert forall k :: 0 <= k < |recs| ==> xs[k] == recs[k];
  }

  /** The chain of an insertable list of records stores each of them. */
  lemma ChainRowsStore(rows: seq<TaxonRow>, next: nat, ranks: seq<RankRow>, start: Option<nat>, recs: seq<TaxonRecord>)
    requires ChainInsertable(rows, ranks, recs)
    ensures StoresAll(ChainRows(next, ranks, start, recs), recs, ranks)
  {
  }

  /** The error of the first record that cannot be inserted after the ones before it. */
  function ChainError(rows: seq<TaxonRow>, ranks: seq<RankRow>, recs: seq<TaxonRecord>): Error
    requires !ChainInsertable(rows, ranks, recs)
    decreases |recs|
  {
    var init := recs[..|recs| - 1];
    if !ChainInsertable(rows, ranks, init) then ChainError(rows, ranks, init)
    else InsertError(ranks, recs[|recs| - 1])
  }

  lemma ChainInsertablePrefix(rows: seq<TaxonRow>, ranks: seq<RankRow>, xs: seq<TaxonRecord>, ys: seq<TaxonRecord>)
    ensures ChainInsertable(rows, ranks, xs + ys) ==> ChainInsertable(rows, ranks, xs)
  {
    assert forall k :: 0 <= k < |xs| ==> (xs + ys)[k] == xs[k];
  }

  /** The first record that fails is the one after an insertable prefix. */
  lemma ChainErrorSnoc(rows: seq<TaxonRow>, ranks: seq<RankRow>, xs: seq<TaxonRecord>, x: TaxonRecord)
    requires ChainInsertable(rows, ranks, xs) && !ChainInsertable(rows, ranks, xs + [x])
    ensures ChainError(rows, ranks, xs + [x]) == InsertError(ranks, x)
  {
    assert (xs + [x])[..|xs|] == xs;
  }

  /** Records after a failing prefix do not change the error: the loop stops at the first failure. */
  lemma {:induction false} ChainErrorOfPrefix(rows: seq<TaxonRow>, ranks: seq<RankRow>, xs: seq<TaxonRecord>,
                                             ys: seq<TaxonRecord>)
    requires !ChainInsertable(rows, ranks, xs)
    ensures !ChainInsertable(rows, ranks, xs + ys)
    ensures ChainError(rows, ranks, xs + ys) == ChainError(rows, ranks, xs)
    decreases |ys|
  {
    ChainInsertablePrefix(rows, ranks, xs, ys);
    if ys == [] {
      assert xs + ys == xs;
    } else {
      var init := ys[..|ys| - 1];
      assert (xs + ys)[..|xs + ys| - 1] == xs + init;
      ChainErrorOfPrefix(rows, ranks, xs, init);
    }
  }

  /** One turn of the insert loop: the next insert succeeds iff the longer prefix is insertable, and
      then extends the chain by its row. */
  lemma ChainStep(rows: seq<TaxonRow>, next: nat, ranks: seq<RankRow>, start: Option<nat>, recs: seq<TaxonRecord>,
                  i: nat)
    requires i < |recs| && ChainInsertable(rows, ranks, recs[..i])
    ensures var current := rows + ChainRows(next, ranks, start, recs[..i]);
            Insertable(current, ranks, recs[i]) <==> ChainInsertable(rows, ranks, recs[..i + 1])
    ensures rows + ChainRows(next, ranks, start, recs[..i]) + [RowOf(next + i, recs[i], ranks, ChainParent(start, next, i), None)]
            == rows + ChainRows(next, ranks, start, recs[..i + 1])
  {
    assert recs[..i + 1] == recs[..i] + [recs[i]];
    ChainRowsStore(rows, next, ranks, start, recs[..i]);
    InsertableAfter(rows, ChainRows(next, ranks, start, recs[..i]), recs[..i], ranks, recs[i]);
    ChainRowsSnoc(next, ranks, start, recs[..i], recs[i]);
  }

  /** A turn of the insert loop that fails: the whole chain fails, with that insert's error. */
  lemma ChainStepFails(rows: seq<TaxonRow>, next: nat, ranks: seq<RankRow>, start: Option<nat>, recs: seq<TaxonRecord>,
                       i: nat)
    requires i < |recs| && ChainInsertable(rows, ranks, recs[..i])
    requires !Insertable(rows + ChainRows(next, ranks, start, recs[..i]), ranks, recs[i])
    ensures !ChainInsertable(rows, ranks, recs) && ChainError(rows, ranks, recs) == InsertError(ranks, recs[i])
  {
    ChainStep(rows, next, ranks, start, recs, i);
    assert recs[..i + 1] == recs[..i] + [recs[i]];
    ChainErrorSnoc(rows, ranks, recs[..i], recs[i]);
    assert recs == recs[..i + 1] + recs[i + 1..];
    ChainErrorOfPrefix(rows, ranks, recs[..i + 1], recs[i + 1..]);
  }

  // ---------------------------------------------------------------- the transaction

  /** The accepted taxon of a submission: already stored, or a record to insert. */
  datatype AcceptedPart = Existing(id: nat) | New(record: TaxonRecord)

  function AcceptedRecords(accepted: AcceptedPart): seq<TaxonRecord> {
    if accepted.New? then [accepted.record] else []
  }

  function SynonymRecords(synonym: Option<TaxonRecord>): seq<TaxonRecord> {
    if synonym.Some? then [synonym.value] else []
  }

  /** Everything the transaction inserts, in insertion order. */
  function AllRecords(ancestors: seq<TaxonRecord>, accepted: AcceptedPart, synonym: Option<TaxonRecord>)
    : seq<TaxonRecord>
  {
    ancestors + AcceptedRecords(accepted) + SynonymRecords(synonym)
  }

  /** The synonym row of line 332, if any: no superior, pointing at the accepted id. */
  function SynonymRows(id: nat, ranks: seq<RankRow>, accId: nat, synonym: Option<TaxonRecord>): seq<TaxonRow> {
    if synonym.Some? then [RowOf(id, synonym.value, ranks, None, Some(accId))] else []
  }

  /** The id the submission resolves to: the accepted row's new id, or the stored accepted id. */
  function NewAcceptedId(next: nat, ancestors: seq<TaxonRecord>, accepted: AcceptedPart): nat {
    if accepted.New? then next + |ancestors| else accepted.id
  }

  /** The rows of a successful transaction: the chain of ancestors and accepted taxon, then the synonym. */
  function TransactionRows(next: nat, ranks: seq<RankRow>, start: Option<nat>, ancestors: seq<TaxonRecord>,
                           accepted: AcceptedPart, synonym: Option<TaxonRecord>): seq<TaxonRow>
  {
    var chained := ancestors + AcceptedRecords(accepted);
    ChainRows(next, ranks, start, chained)
      + SynonymRows(next + |chained|, ranks, NewAcceptedId(next, ancestors, accepted), synonym)
  }

  /** Lines 320-332: the rows the transaction adds and the accepted id it returns, or the error of
      the first insert that fails. The accepted taxon hangs under the last ancestor inserted (or the
      stored one); the synonym has no superior and points at the accepted id. */
  function Transaction(rows: seq<TaxonRow>, next: nat, ranks: seq<RankRow>, start: Option<nat>,
                       ancestors: seq<TaxonRecord>, accepted: AcceptedPart, synonym: Option<TaxonRecord>)
    : (r: Result<(seq<TaxonRow>, nat)>)
    ensures r.Ok? <==> ChainInsertable(rows, ranks, AllRecords(ancestors, accepted, synonym))
    ensures r.Err? ==> r.error == RankNotInTable || r.error == KeyTaken
  {
    var all := AllRecords(ancestors, accepted, synonym);
    if !ChainInsertable(rows, ranks, all) then
      ChainErrorKind(rows, ranks, all);
      Err(ChainError(rows, ranks, all))
    else
      Ok((TransactionRows(next, ranks, start, ancestors, accepted, synonym), NewAcceptedId(next, ancestors, accepted)))
  }

  /** What a successful transaction writes: one row per record, in order, each storing its record
      under the next serial id; each ancestor and the accepted taxon under the row inserted just
      before it (the first under the stored ancestor); the synonym under no superior, pointing at
      the accepted id; and the result is the accepted row's id, or the stored accepted id. */
  lemma TransactionShape(rows: seq<TaxonRow>, next: nat, ranks: seq<RankRow>, start: Option<nat>,
                         ancestors: seq<TaxonRecord>, accepted: AcceptedPart, synonym: Option<TaxonRecord>)
    requires Transaction(rows, next, ranks, start, ancestors, accepted, synonym).Ok?
    ensures var r := Transaction(rows, next, ranks, start, ancestors, accepted, synonym).value;
            StoresAll(r.0, AllRecords(ancestors, accepted, synonym), ranks)
            && (forall k :: 0 <= k < |r.0| ==> r.0[k].cdTax == next + k)
    ensures var r := Transaction(rows, next, ranks, start, ancestors, accepted, synonym).value;
            forall k :: 0 <= k < |ancestors| + |AcceptedRecords(accepted)| ==>
              r.0[k].cdSup == ChainParent(start, next, k) && r.0[k].cdSyno == None
    ensures var r := Transaction(rows, next, ranks, start, ancestors, accepted, synonym).value;
            (accepted.Existing? ==> r.1 == accepted.id) && (accepted.New? ==> r.1 == next + |ancestors|)
    ensures var r := Transaction(rows, next, ranks, start, ancestors, accepted, synonym).value;
            synonym.Some? ==> r.0[|r.0| - 1].cdSup == None && r.0[|r.0| - 1].cdSyno == Some(r.1)
  {
    var all := AllRecords(ancestors, accepted, synonym);
    var chained := ancestors + AcceptedRecords(accepted);
    assert all == chained + SynonymRecords(synonym);
    ChainInsertablePrefix(rows, ranks, chained, SynonymRecords(synonym));
    ChainRowsStore(rows, next, ranks, start, chained);
    var r := TransactionRows(next, ranks, start, ancestors, accepted, synonym);
    assert forall k :: 0 <= k < |chained| ==> r[k] == ChainRows(next, ranks, start, chained)[k];
  }

  lemma {:induction false} ChainErrorKind(rows: seq<TaxonRow>, ranks: seq<RankRow>, recs: seq<TaxonRecord>)
    requires !ChainInsertable(rows, ranks, recs)
    ensures ChainError(rows, ranks, recs) == RankNotInTable || ChainError(rows, ranks, recs) == KeyTaken
    decreases |recs|
  {
    var init := recs[..|recs| - 1];
    if !ChainInsertable(rows, ranks, init) {
      ChainErrorKind(rows, ranks, init);
    }
  }

  // ---------------------------------------------------------------- table invariants

  predicate IdsBelow(rows: seq<TaxonRow>, next: nat) {
    forall i :: 0 <= i < |rows| ==> rows[i].cdTax < next
  }

  /** The unique constraint on gbifkey. */
  predicate KeysUnique(rows: seq<TaxonRow>) {
    forall i, j :: 0 <= i < j < |rows| && rows[i].gbifkey.Some? ==> rows[i].gbifkey != rows[j].gbifkey
  }

  /** The reference is empty or names a row among the first `n`. */
  predicate RefersBefore(rows: seq<TaxonRow>, n: nat, ref: Option<nat>)
    requires n <= |rows|
  {
    ref.None? || exists j :: 0 <= j < n && rows[j].cdTax == ref.value
  }

  /** Referential integrity: each row's cd_sup and cd_syno name rows stored before it. */
  predicate Linked(rows: seq<TaxonRow>) {
    forall i :: 0 <= i < |rows| ==> RefersBefore(rows, i, rows[i].cdSup) && RefersBefore(rows, i, rows[i].cdSyno)
  }

  predicate WellFormed(rows: seq<TaxonRow>, next: nat) {
    IdsBelow(rows, next) && IdsAscending(rows) && KeysUnique(rows) && Linked(rows)
  }

  /** Ids of the rows the transaction adds continue the counter, so they stay ascending and below it. */
  lemma TransactionKeepsIds(rows: seq<TaxonRow>, next: nat, ranks: seq<RankRow>, start: Option<nat>,
                            ancestors: seq<TaxonRecord>, accepted: AcceptedPart, synonym: Option<TaxonRecord>)
    requires IdsBelow(rows, next) && IdsAscending(rows)
    ensures var added := TransactionRows(next, ranks, start, ancestors, accepted, synonym);
            IdsBelow(rows + added, next + |added|) && IdsAscending(rows + added)
  {
    var added := TransactionRows(next, ranks, start, ancestors, accepted, synonym);
    var all := rows + added;
    assert forall k :: 0 <= k < |added| ==> added[k].cdTax == next + k;
    assert forall i :: 0 <= i < |rows| ==> all[i] == rows[i];
    assert forall k :: 0 <= k < |added| ==> all[|rows| + k] == added[k];
  }

  /** The unique constraint still holds after the transaction: every key it inserts was free and
      is inserted once. */
  lemma TransactionKeepsKeysUnique(rows: seq<TaxonRow>, next: nat, ranks: seq<RankRow>, start: Option<nat>,
                                   ancestors: seq<TaxonRecord>, accepted: AcceptedPart, synonym: Option<TaxonRecord>)
    requires KeysUnique(rows)
    requires ChainInsertable(rows, ranks, AllRecords(ancestors, accepted, synonym))
    ensures KeysUnique(rows + TransactionRows(next, ranks, start, ancestors, accepted, synonym))
  {
    TransactionShape(rows, next, ranks, start, ancestors, accepted, synonym);
    var added := TransactionRows(next, ranks, start, ancestors, accepted, synonym);
    var recs := AllRecords(ancestors, accepted, synonym);
    assert StoresAll(added, recs, ranks);
    var all := rows + added;
    forall i, j | 0 <= i < j < |all| && all[i].gbifkey.Some? ensures all[i].gbifkey != all[j].gbifkey {
      if j >= |rows| {
        var k := j - |rows|;
        assert all[j] == added[k];
        assert added[k].gbifkey == recs[k].gbifkey;
        if i < |rows| {
          assert all[i] == rows[i];
          assert KeyFree(rows, recs[k].gbifkey);
        } else {
          assert all[i] == added[i - |rows|];
          assert added[i - |rows|].gbifkey == recs[i - |rows|].gbifkey;
        }
      }
    }
  }

  /** Appending rows each of which refers to rows before it keeps the table linked. */
  lemma LinkedAppend(rows: seq<TaxonRow>, added: seq<TaxonRow>)
    requires Linked(rows)
    requires forall k :: 0 <= k < |added| ==>
               RefersBefore(rows + added, |rows| + k, added[k].cdSup) && RefersBefore(rows + added, |rows| + k, added[k].cdSyno)
    ensures Linked(rows + added)
  {
    var all := rows + added;
    forall i | 0 <= i < |all| ensures RefersBefore(all, i, all[i].cdSup) && RefersBefore(all, i, all[i].cdSyno) {
      if i < |rows| {
        assert all[i] == rows[i];
        LinkAfterAppend(rows, added, i, rows[i].cdSup);
        LinkAfterAppend(rows, added, i, rows[i].cdSyno);
      } else {
        assert all[i] == added[i - |rows|];
      }
    }
  }

  /** Referential integrity is kept when the ancestor chain starts under a stored row and an
      accepted taxon that is not inserted is a stored one. */
  lemma TransactionKeepsLinks(rows: seq<TaxonRow>, next: nat, ranks: seq<RankRow>, start: Option<nat>,
                              ancestors: seq<TaxonRecord>, accepted: AcceptedPart, synonym: Option<TaxonRecord>)
    requires Linked(rows) && IdsBelow(rows, next)
    requires RefersBefore(rows, |rows|, start)
    requires accepted.Existing? ==> RefersBefore(rows, |rows|, Some(accepted.id))
    ensures Linked(rows + TransactionRows(next, ranks, start, ancestors, accepted, synonym))
  {
    var added := TransactionRows(next, ranks, start, ancestors, accepted, synonym);
    var all := rows + added;
    var chained := ancestors + AcceptedRecords(accepted);
    var accId := NewAcceptedId(next, ancestors, accepted);
    forall k | 0 <= k < |added|
      ensures RefersBefore(all, |rows| + k, added[k].cdSup) && RefersBefore(all, |rows| + k, added[k].cdSyno)
    {
      if k < |chained| {
        assert added[k] == ChainRows(next, ranks, start, chained)[k];
        if k == 0 {
          LinkAfterAppend(rows, added, |rows|, start);
        } else {
          assert all[|rows| + k - 1] == added[k - 1];
          assert added[k - 1] == ChainRows(next, ranks, start, chained)[k - 1];
        }
      } else {
        assert added[k] == RowOf(next + |chained|, synonym.value, ranks, None, Some(accId));
        if accepted.New? {
          assert all[|rows| + |ancestors|] == added[|ancestors|];
          assert added[|ancestors|] == ChainRows(next, ranks, start, chained)[|ancestors|];
        } else {
          LinkAfterAppend(rows, added, |rows|, Some(accepted.id));
        }
      }
    }
    LinkedAppend(rows, added);
  }

  /** Appending rows keeps what a reference names among the first `n`. */
  lemma LinkAfterAppend(rows: seq<TaxonRow>, added: seq<TaxonRow>, n: nat, ref: Option<nat>)
    requires n <= |rows| && RefersBefore(rows, n, ref)
    ensures RefersBefore(rows + added, n, ref)
  {
    if ref.Some? {
      var j :| 0 <= j < n && rows[j].cdTax == ref.value;
      assert (rows + added)[j] == rows[j];
    }
  }

  // ---------------------------------------------------------------- the table

  /** The `taxon` table with its serial counter, next to the `tax_rank` reference table. */
  class TaxonTable {
    var rows: seq<TaxonRow>
    var nextId: nat
    const ranks: seq<RankRow>

    ghost predicate Valid()
      reads this
    {
      WellFormed(rows, nextId)
    }

    constructor (ranks: seq<RankRow>, rows: seq<TaxonRow>, nextId: nat)
      requires WellFormed(rows, nextId)
      ensures Valid()
      ensures this.ranks == ranks && this.rows == rows && this.nextId == nextId
    {
      this.ranks := ranks;
      this.rows := rows;
      this.nextId := nextId;
    }

    /** insertTax: adds the record under the given superior and accepted ids and returns its new id.
        This and the three methods below are steps inside the transaction: they state the whole new
        state instead of Valid(), which InsertPhase establishes again once all of them have run. */
    method InsertTax(idParent: Option<nat>, idSyno: Option<nat>, rec: TaxonRecord) returns (r: Result<nat>)
      modifies this
      ensures r.Ok? <==> Insertable(old(rows), ranks, rec)
      ensures r.Err? ==> r.error == InsertError(ranks, rec) && rows == old(rows) && nextId == old(nextId)
      ensures r.Ok? ==> r.value == old(nextId) && nextId == old(nextId) + 1
                        && rows == old(rows) + [RowOf(old(nextId), rec, ranks, idParent, idSyno)]
    {
      if !Insertable(rows, ranks, rec) {
        return Err(InsertError(ranks, rec));
      }
      rows := rows + [RowOf(nextId, rec, ranks, idParent, idSyno)];
      r := Ok(nextId);
      nextId := nextId + 1;
    }

    /** Lines 323-324: inserts the missing ancestors root first, each under the one before, and
        returns the id the accepted taxon goes under. A failure leaves the earlier inserts in place
        (the transaction undoes them). */
    method InsertChain(start: Option<nat>, recs: seq<TaxonRecord>) returns (r: Result<Option<nat>>)
      modifies this
      ensures r.Ok? <==> ChainInsertable(old(rows), ranks, recs)
      ensures r.Err? ==> r.error == ChainError(old(rows), ranks, recs)
      ensures r.Ok? ==> r.value == ChainParent(start, old(nextId), |recs|) && nextId == old(nextId) + |recs|
                        && rows == old(rows) + ChainRows(old(nextId), ranks, start, recs)
    {
      ghost var rows0, next0 := rows, nextId;
      var idParentInDb := start;
      var i := 0;
      while i < |recs|
        invariant 0 <= i <= |recs|
        invariant ChainInsertable(rows0, ranks, recs[..i])
        invariant rows == rows0 + ChainRows(next0, ranks, start, recs[..i])
        invariant nextId == next0 + i
        invariant idParentInDb == ChainParent(start, next0, i)
      {
        ghost var row := RowOf(next0 + i, recs[i], ranks, ChainParent(start, next0, i), None);
        ChainStep(rows0, next0, ranks, start, recs, i);
        var ins := InsertTax(idParentInDb, None, recs[i]);
        if ins.Err? {
          ChainStepFails(rows0, next0, ranks, start, recs, i);
          return Err(ins.error);
        }
        assert rows == rows0 + ChainRows(next0, ranks, start, recs[..i]) + [row];
        idParentInDb := Some(ins.value);
        i := i + 1;
      }
      assert recs[..i] == recs;
      return Ok(idParentInDb);
    }

    /** Lines 321-329: the ancestors, then the accepted taxon under the last of them unless it is
        already stored; returns the accepted id the synonym will point at. */
    method InsertAccepted(start: Option<nat>, ancestors: seq<TaxonRecord>, accepted: AcceptedPart)
      returns (r: Result<nat>)
      modifies this
      ensures r.Ok? <==> ChainInsertable(old(rows), ranks, ancestors + AcceptedRecords(accepted))
      ensures r.Err? ==> r.error == ChainError(old(rows), ranks, ancestors + AcceptedRecords(accepted))
      ensures r.Ok? ==> r.value == NewAcceptedId(old(nextId), ancestors, accepted)
                        && rows == old(rows) + ChainRows(old(nextId), ranks, start, ancestors + AcceptedRecords(accepted))
                        && nextId == old(nextId) + |ancestors + AcceptedRecords(accepted)|
    {
      ghost var chained := ancestors + AcceptedRecords(accepted);
      var chain := InsertChain(start, ancestors);
      if chain.Err? {
        ChainErrorOfPrefix(old(rows), ranks, ancestors, AcceptedRecords(accepted));
        return Err(chain.error);
      }
      if accepted.Existing? {
        assert chained == ancestors;
        return Ok(accepted.id);
      }
      ChainStep(old(rows), old(nextId), ranks, start, chained, |ancestors|);
      assert chained[..|ancestors|] == ancestors;
      assert chained[..|ancestors| + 1] == chained;
      var ins := InsertTax(chain.value, None, accepted.record);
      if ins.Err? {
        ChainStepFails(old(rows), old(nextId), ranks, start, chained, |ancestors|);
        return Err(ins.error);
      }
      return Ok(ins.value);
    }

    /** Lines 321-332: the ancestors and the accepted taxon, then the synonym pointing at it,
        stopping at the first insert that fails (whose earlier inserts the transaction undoes). */
    method InsertAll(start: Option<nat>, ancestors: seq<TaxonRecord>, accepted: AcceptedPart,
                     synonym: Option<TaxonRecord>) returns (r: Result<nat>)
      modifies this
      ensures r.Ok? <==> ChainInsertable(old(rows), ranks, AllRecords(ancestors, accepted, synonym))
      ensures r.Err? ==> r.error == ChainError(old(rows), ranks, AllRecords(ancestors, accepted, synonym))
      ensures r.Ok? ==> r.value == NewAcceptedId(old(nextId), ancestors, accepted)
      ensures r.Ok? ==> rows == old(rows) + TransactionRows(old(nextId), ranks, start, ancestors, accepted, synonym)
      ensures r.Ok? ==> nextId == old(nextId) + |AllRecords(ancestors, accepted, synonym)|
    {
      ghost var all := AllRecords(ancestors, accepted, synonym);
      ghost var chained := ancestors + AcceptedRecords(accepted);
      assert all == chained + SynonymRecords(synonym);
      var acc := InsertAccepted(start, ancestors, accepted);
      if acc.Err? {
        ChainErrorOfPrefix(old(rows), ranks, chained, SynonymRecords(synonym));
        return Err(acc.error);
      }
      if synonym.None? {
        assert all == chained;
        return Ok(acc.value);
      }
      ChainStep(old(rows), old(nextId), ranks, start, all, |chained|);
      assert all[..|chained|] == chained;
      assert all[..|chained| + 1] == all;
      var syn := InsertTax(None, Some(acc.value), synonym.value);
      if syn.Err? {
        ChainStepFails(old(rows), old(nextId), ranks, start, all, |chained|);
        return Err(syn.error);
      }
      return Ok(acc.value);
    }

    /** Lines 320-332 inside `with conn:`: all the inserts of the submission, committed when every
        one succeeds and rolled back otherwise. */
    method InsertPhase(start: Option<nat>, ancestors: seq<TaxonRecord>, accepted: AcceptedPart,
                       synonym: Option<TaxonRecord>) returns (r: Result<nat>)
      requires Valid()
      requires RefersBefore(rows, |rows|, start)
      requires accepted.Existing? ==> RefersBefore(rows, |rows|, Some(accepted.id))
      modifies this
      ensures Valid()
      ensures var t := Transaction(old(rows), old(nextId), ranks, start, ancestors, accepted, synonym);
              (r.Ok? <==> t.Ok?) && (r.Err? ==> r.error == t.error)
      ensures r.Err? ==> rows == old(rows) && nextId == old(nextId)
      ensures r.Ok? ==>
                var t := Transaction(old(rows), old(nextId), ranks, start, ancestors, accepted, synonym).value;
                r.value == t.1 && rows == old(rows) + t.0 && nextId == old(nextId) + |t.0|
    {
      var savedRows, savedNext := rows, nextId;
      r := InsertAll(start, ancestors, accepted, synonym);
      if r.Err? {
        rows, nextId := savedRows, savedNext;
      } else {
        TransactionKeepsIds(savedRows, savedNext, ranks, start, ancestors, accepted, synonym);
        TransactionKeepsKeysUnique(savedRows, savedNext, ranks, start, ancestors, accepted, synonym);
        TransactionKeepsLinks(savedRows, savedNext, ranks, start, ancestors, accepted, synonym);
      }
    }
  }
}
