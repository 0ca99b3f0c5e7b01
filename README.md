# Taxon reconciliation engine of colSpList, in Dafny

This project models the reconciliation core of `API/taxo.py`. A submitted taxon is given by a
GBIF backbone key, a scientific name or a canonical name, with optional rank, authorship, parent
and synonym target. The engine:

- checks whether the taxon is already in the `taxon` table (`test_taxInDb`);
- otherwise asks the GBIF backbone about it (`get_infoTax`);
- formats the record to store, from the backbone (`format_gbif_tax`) or from the submitted fields
  (`format_inputTax`), resolving ranks through the `tax_rank` table (`get_rank`);
- finds the ancestors that are still missing (`format_parents`);
- in one transaction, inserts those ancestors root first, then the accepted taxon, then the
  synonym (`insertTax`);
- answers the accepted id (`acceptedId`).

The backbone is a value: a `Backbone` datatype of total functions, one per HTTP endpoint. The
fuzzy-matching score `fuzz.ratio` is a parameter. The database is a `TaxonTable` object that holds
the rows of `taxon` and the serial counter of `cd_tax`. Its methods update them in place, and a
failed transaction restores both.

Modules:

- `Taxa`: the shared types.
- `Ranks`: `get_rank`.
- `Resolver`: `test_taxInDb` and `acceptedId`.
- `Matcher`: `get_infoTax`.
- `Formatter`: the two formatters and the authorship rule.
- `Ancestors`: `format_parents`, a method with a loop.
- `Store`: `insertTax`, the insert chain and the transaction.
- `Orchestrator`: `manageInputTax`. It has a pure read phase and a method that runs the
  write phase on the table.

## Model

| member | source | states |
|---|---|---|
| `Ranks.GetRank` | API/taxo.py:142-148 | fails with UnknownRank exactly when no `tax_rank` row answers to the token by backbone marker, rank name or rank code; otherwise returns the name and level of a row that answers |
| `Ranks.GetRankOfAlias` | API/taxo.py:144-146 | when rows that share an alias agree, every alias of a row (name, code or marker) resolves to that row's name and level |
| `Resolver.Count` | API/taxo.py:69-71 | the `count(*)` is zero exactly when no row matches the filter, and never exceeds the number of rows |
| `Resolver.CountAtMostOne` | API/taxo.py:72-87 | a count of at most one means no two distinct rows match |
| `Resolver.FirstMatch` | API/taxo.py:81-83 | the row `fetchone()` returns: a matching row with no match before it, or none exactly when nothing matches |
| `Resolver.ChosenLookup` | API/taxo.py:68-117 | a lookup is chosen exactly when gbifkey, scientificname or canonicalname is supplied |
| `Resolver.ResolveIdentity` | API/taxo.py:63-119 | NoIdentifier exactly when no identifier is supplied. Stored exactly when the chosen filter counts one row, with that row's cd_tax. Not stored means no row matches, and the match mode named after the identifier used is returned. Two or more matches give the duplicate error of that identifier. NameMismatch exactly when a key match's stored name scores below 0.75 against the canonical name. These are the only errors, so zero or one matching row always resolves |
| `Resolver.IndexOfId` | API/taxo.py:234-236 | finds the row with the given cd_tax, or none exactly when no row has it |
| `Resolver.AcceptedId` | API/taxo.py:232-238 | NoSuchTaxon exactly when no row has the cd_tax; otherwise COALESCE(cd_syno, cd_tax) of that row |
| `Resolver.AcceptedIdOfRow` | API/taxo.py:232-238 | with ascending ids, acceptedId on a row's cd_tax answers COALESCE(cd_syno, cd_tax) of that very row |
| `Resolver.KeyLookupOfStored` | API/taxo.py:68-83 | a lookup by a key that names one row (no canonical name given) reports it stored, and acceptedId on it returns that row's accepted id |
| `Matcher.Reparsed` | API/taxo.py:137-138 | records of the seven listed ranks take the parser's scientific and canonical names, and its authorship when it answers one; the key, rank and every other field stay as they were, and records of other ranks are unchanged |
| `Matcher.GetInfoTax` | API/taxo.py:121-140 | fails with NoMatchMode exactly when no mode is given. A key lookup is always found, with the species record. A name match is found exactly when its matchType is not NONE and is EXACT or has confidence of at least 90; it then carries the match answer. The record is the species record (of the key, or of the usageKey) after the rank correction of lines 137-138 |
| `Formatter.Trim` | API/taxo.py:196 | the result is the input less a blank prefix and a blank suffix, with no space left at either end; it is empty exactly when the input is all spaces |
| `Formatter.Authorship` | API/taxo.py:194-198 | the authorship taken from the names, as intended: absent exactly when the scientific name minus the canonical name is blank; otherwise that remainder with its end spaces stripped, which is non-empty and trimmed |
| `Formatter.AuthorshipAsWritten` | API/taxo.py:196 | as written: an empty remainder gives None; a remainder without a line break becomes the single character U+0001; one whose only line break is final becomes U+0001 followed by that line break; any other remainder (an inner line break, or the line break alone) is kept, since `.` does not match a line break |
| `Formatter.RemoveAll` | API/taxo.py:195 | `str.replace(name, '')`: the result is never longer than the input. What it computes is stated by `RemoveAllAbsent` (a pattern that does not occur changes nothing) and `RemoveAllLeading` (a leading occurrence is dropped) |
| `Formatter.RemoveAllAbsent` | API/taxo.py:195 | `replace` of a pattern that does not occur leaves the string unchanged |
| `Formatter.RemoveAllLeading` | API/taxo.py:195 | `replace` removes an occurrence at the start and carries on with the rest |
| `Formatter.TrimOfSpaced` | API/taxo.py:196 | trimming one leading space off a trimmed author gives the author back |
| `Formatter.AuthorshipRoundTrip` | API/taxo.py:194-198 | round trip: for the scientific name "name author", the derived authorship is exactly the author |
| `Formatter.AuthorshipAsWrittenLosesAuthor` | API/taxo.py:196 | on the same input, the code as written stores U+0001 instead of the author |
| `Formatter.DeriveParent` | API/taxo.py:186-193 | as intended: a supplied parent name is kept. Without one, genus plus epithet is used below species level and the genus at species level. Above species level it fails with NoParent exactly when no parent and no synonym flag is given, and otherwise returns the parent reference unchanged |
| `Formatter.DeriveParentAsWritten` | API/taxo.py:187 | as written, every record without a parent name fails with an undefined-name error |
| `Formatter.DeriveParentKeyTypo` | API/taxo.py:188 | with line 187 repaired, the species name is lost below species level (the reference is unchanged) and the rest agrees with the intended rule |
| `Formatter.UndefinedLevelBlocksDerivation` | API/taxo.py:187 | at or below species level, the intended rule derives a parent name where the code as written fails |
| `Formatter.MisspelledKeyLosesSpecies` | API/taxo.py:188 | below species level with no parent information, the reference built as written has no identifier, so its lookup fails with NoIdentifier; the intended one does not |
| `Formatter.FormatGbifTax` | API/taxo.py:203-219 | UnknownRank exactly when the backbone rank resolves to no row. The name and name_auth come from the parser below species level and from the record otherwise. The status is SYNONYM for a synonym, else the match status, else the taxonomic status. It keeps the key, has no source, and returns (parentKey, parent) as the parent reference |
| `Formatter.ManualRank` | API/taxo.py:179-185 | NoRank exactly when there is neither a supplied rank nor a rank marker; UnknownRank exactly when the token used (the supplied rank first) answers no `tax_rank` row; otherwise the name and level of a row answering to that token |
| `Formatter.FormatInputTax` | API/taxo.py:151-201 | status SYNONYM or DOUBTFUL, no key, the submitted source. Fully supplied fields are used as given, with the supplied parent. Otherwise the parse is used, and the parent reference is the one the derivation rule gives at the resolved rank level. The rank name is that of the supplied rank, else of the rank marker. NameNotParsed exactly when the fields are not fully supplied and a supplied scientific name does not parse; NoRank exactly when there is neither rank nor marker; UnknownRank exactly when the rank token answers no row; NoParent exactly when above species level nothing names the parent and it is no synonym; no other error. A truthy supplied authorship is kept. Otherwise, when the name occurs in name_auth, the authorship is derived from name_auth. When the name does not occur there, the supplied value is kept as it is |
| `Ancestors.AncestorRecord` | API/taxo.py:229 | an ancestor is stored under its own key with no source |
| `Ancestors.Missing` | API/taxo.py:221-230 | at most as many records as ancestors, each carrying a key that no row holds |
| `Ancestors.MissingComplete` | API/taxo.py:228-229 | every ancestor whose key is not stored is among the records to insert |
| `Ancestors.MissingAppend` | API/taxo.py:224-229 | the filter keeps the ancestors' order: filtering a concatenation concatenates the filtered parts |
| `Ancestors.StoredId` | API/taxo.py:225-227 | an id exactly when the key is stored once, and it is the cd_tax of a row with that key |
| `Ancestors.LastStored` | API/taxo.py:222-227 | the idParentInDb that the walk over the ancestors leaves: when present, it is the cd_tax of an ancestor whose key is stored once. `LastStoredNone`, `LastStoredIsLast` and `LastStoredStep` state which ancestor |
| `Ancestors.LastStoredNone` | API/taxo.py:222-227 | there is no stored-ancestor id exactly when no ancestor key is stored once |
| `Ancestors.LastStoredIsLast` | API/taxo.py:224-227 | the id kept is that of the last ancestor whose key is stored: later ones overwrite earlier ones |
| `Ancestors.LastStoredNamesRow` | API/taxo.py:225-227 | the id kept names a row of the table |
| `Ancestors.LastStoredStep` | API/taxo.py:226-227 | one ancestor more replaces the id exactly when that ancestor is stored |
| `Ancestors.MissingStep` | API/taxo.py:228-229 | one ancestor more is appended exactly when it is not stored |
| `Ancestors.KeyOnlyResolution` | API/taxo.py:68-87 | a key-only lookup fails exactly when the key is stored twice or more, and reports the key stored exactly when it is stored once |
| `Ancestors.NoDuplicateKeyStep` | API/taxo.py:225 | the walk raises on the first ancestor whose key is stored more than once |
| `Ancestors.FormatParents` | API/taxo.py:221-230 | the loop fails with DuplicateKey exactly when some ancestor key is stored twice or more; otherwise it returns the id of the last stored ancestor and the unstored ancestors, formatted and in order |
| `Store.RankCode` | API/taxo.py:241 | the join finds a cd_rank exactly when some `tax_rank` row has the record's rank name |
| `Store.RowOf` | API/taxo.py:241-242 | the inserted row stores the record (blank authorship as NULL, rank as its code) under the given id, superior and accepted id |
| `Store.KeyFreeAfter` | API/taxo.py:241 | a key is free after some inserts exactly when it was free and no inserted record carries it |
| `Store.InsertableAfter` | API/taxo.py:323-324 | the next insert of the loop succeeds exactly when the longer chain of records is insertable |
| `Store.ChainRowsSnoc` | API/taxo.py:323-324 | one more turn of the loop appends exactly one row, under the previous insert |
| `Store.ChainRowsStore` | API/taxo.py:323-324 | the rows of an insertable chain store their records one for one |
| `Store.ChainInsertablePrefix` | API/taxo.py:321-332 | a chain that can be inserted whole can be inserted up to any point |
| `Store.ChainErrorSnoc` | API/taxo.py:323-324 | the error of a chain is that of the first record that fails |
| `Store.ChainErrorOfPrefix` | API/taxo.py:323-324 | records after a failing one change neither the failure nor its error |
| `Store.ChainStep` | API/taxo.py:323-324 | one turn of the loop: the insert succeeds exactly when the longer prefix is insertable, and then extends the chain's rows by the row of that record |
| `Store.ChainStepFails` | API/taxo.py:323-324 | a turn whose insert fails makes the whole chain fail, with that insert's error |
| `Store.Transaction` | API/taxo.py:320-332 | succeeds exactly when every record (ancestors, accepted, synonym) is insertable in turn; a failure is RankNotInTable or KeyTaken |
| `Store.TransactionShape` | API/taxo.py:320-332 | each inserted row stores its record under the next serial id. Ancestors and the accepted taxon hang under the previous insert, the first under the stored ancestor. The synonym row has no superior and points at the accepted id, which is the new accepted row's id or the stored one |
| `Store.ChainErrorKind` | API/taxo.py:241-243 | a failed chain fails with RankNotInTable or KeyTaken |
| `Store.TransactionKeepsIds` | API/taxo.py:320-332 | new ids continue the serial, so ids stay ascending and below the counter |
| `Store.TransactionKeepsKeysUnique` | API/taxo.py:320-332 | the unique constraint on gbifkey still holds after a transaction |
| `Store.LinkedAppend` | API/taxo.py:320-332 | appending rows that each refer to earlier rows keeps every reference pointing backwards |
| `Store.TransactionKeepsLinks` | API/taxo.py:320-332 | every cd_sup and cd_syno still names an earlier row when the chain starts under a stored row and a stored accepted id names a stored row |
| `Store.LinkAfterAppend` | API/taxo.py:320-332 | a reference to a stored row survives appending rows |
| `Store.TaxonTable.constructor` | API/taxo.py:255-256 | a connection onto a well-formed table |
| `Store.TaxonTable.InsertTax` | API/taxo.py:240-244 | succeeds exactly when the rank joins and the key is free. It then appends the row and returns its new id from the counter; otherwise it leaves the table unchanged and reports RankNotInTable or KeyTaken |
| `Store.TaxonTable.InsertChain` | API/taxo.py:322-324 | inserts the ancestors root first, each under the previous one. It succeeds exactly when the chain is insertable and returns the last inserted id, or the stored start when there is nothing to insert; its failure is the chain's |
| `Store.TaxonTable.InsertAccepted` | API/taxo.py:321-330 | the ancestors and then the accepted taxon under the last of them, unless it is stored; returns the accepted id |
| `Store.TaxonTable.InsertAll` | API/taxo.py:321-332 | all inserts in order, then the synonym pointing at the accepted id; the rows added and the result are the transaction's |
| `Store.TaxonTable.InsertPhase` | API/taxo.py:320-332 | the transaction commits its rows when every insert succeeds and otherwise rolls back to the table as it was; the table stays well formed either way |
| `Orchestrator.StoredResolution` | API/taxo.py:63-119 | a taxon test_taxInDb reports as stored comes with the cd_tax of a row of the table |
| `Orchestrator.UnstoredResolution` | API/taxo.py:84-85 | a key lookup that finds nothing means no row holds the key |
| `Orchestrator.FormatTaxon` | API/taxo.py:292-305 | the record carries the backbone key of a found taxon and none otherwise. A synonym has status SYNONYM. A manual record that is not a synonym is DOUBTFUL and keeps the submitted source. A backbone record's parent reference is its (parentKey, parent) |
| `Orchestrator.FormatSynonymAsWritten` | API/taxo.py:296-299 | as written, a synonym the backbone does not know always fails (TypeError); a backbone synonym is formatted as intended |
| `Orchestrator.ManualSynonymRejected` | API/taxo.py:299 | a fully described synonym with a known rank fails as written, while the intended call formats it with status SYNONYM and the given names |
| `Orchestrator.SynonymTarget` | API/taxo.py:269-278 | there is an accepted taxon to find exactly when the backbone says synonym, or when nothing was found and a synonym target is supplied. For a backbone synonym it is the accepted usage key (else the accepted key) with the accepted name |
| `Orchestrator.ResolveAccepted` | API/taxo.py:279-295 | a lookup error of the target (NoIdentifier, a duplicate, NameMismatch) is passed on unchanged. An accepted taxon stored under the target's identifier is that row's cd_tax; one stored only under the backbone key of the target's match is that row's cd_tax; either names a row. An accepted taxon to insert is the target's backbone match: its key, which no row holds, and its (parentKey, parent) as parent reference. A target stored under its own identifier always resolves to AlreadyStored. A target that is not stored, but whose backbone match is found and whose key one row holds, always resolves to AlreadyStored with that row's cd_tax (the recheck at lines 282-286 that line 328 links the synonym to). A target that is not stored, but whose backbone match is found and whose key no row holds, gives exactly what format_gbif_tax (syno=False) gives for that match |
| `Orchestrator.PlanParents` | API/taxo.py:309-318 | a lookup error of the parent reference is passed on unchanged. The parent is stored exactly when its reference counts one row, and then the plan carries that row's cd_tax. Otherwise the ancestors are walked: those of the taxon's own key, or, for a taxon without a key, those of the parent's backbone match followed by that match, flagged as the parent's own record. ParentNotFound exactly when the parent is not stored, the taxon has no key, and the parent's backbone match finds nothing. Once the parent resolves, ParentNotFound is the only error, so the walk otherwise succeeds. A stored parent always gives ParentStored |
| `Orchestrator.PrepareNew` | API/taxo.py:267-307 | the plan is a transaction whose referenced ids are stored rows. With no synonym, the accepted taxon is the formatted submission and the plan is the one for its parent reference. With a synonym (status SYNONYM), the accepted taxon is the resolved target: its stored id with no ancestors, or its formatted record with the plan for its parent. The submitted taxon's record carries its backbone key. In each case the preparation succeeds when its parts (formatting, accepted resolution, parent plan) succeed |
| `Orchestrator.Prepare` | API/taxo.py:257-267 | NoIdentifier without an identifier. Any lookup error of the submission (a duplicate gbifkey, name_auth or name, a NameMismatch) stops it with that error, and a backbone match key held by more than one row stops it with DuplicateKey at the recheck. A stored taxon answers a COALESCE(cd_syno, cd_tax) of a row (which row: StoredSubmissionAnswered, RecheckedSubmissionAnswered). A pending transaction references only stored rows, and for a key submission the submitted record carries the backbone's key. A pending transaction arises only for an identifier no row matches, and it is the preparation of a new taxon for that identifier's backbone match. Conversely, an identifier no row matches, whose backbone match key no row holds either, always gives that preparation |
| `Orchestrator.ChainOf` | API/taxo.py:306-326 | a stored parent is used as it is. A walk fails with DuplicateKey exactly when an ancestor key is stored twice. For a taxon without a key whose parent's own backbone record turns out stored once (format_parents updates that very dictionary at line 225, so line 322 takes the branch at 325-326), the taxon hangs under that row and no ancestor is inserted. Otherwise the chain starts under the last stored ancestor and inserts exactly the unstored ancestors in order, under a stored row, each with a key no row holds |
| `Orchestrator.KeylessParentStoredUnderMatch` | API/taxo.py:309-326 | a taxon without a key whose parent is not stored under its own identifier but whose backbone match key one row holds inserts no ancestor and hangs under that row |
| `Orchestrator.Manage` | API/taxo.py:255-338 | the whole operation as a function of the table; NoIdentifier without an identifier; any lookup error of the submission is the operation's error, so nothing is written. The rows it adds are those of the transaction over ChainOf's chain, including the keyless-parent case in which no ancestor is inserted (its other properties are the lemmas below) |
| `Orchestrator.ManageInputTax` | API/taxo.py:255-338 | runs the read phase, format_parents (using the parent's own record as line 225 updates it) and the transaction on the table. The result and the new rows and counter are Manage's; an error leaves the table unchanged; the table stays well formed |
| `Orchestrator.ManageKeepsWellFormed` | API/taxo.py:320-332 | a successful submission keeps ids ascending below the counter, keys unique and references backward |
| `Orchestrator.CoalesceStored` | API/taxo.py:232-238 | in a linked table, the accepted id of any row names a row |
| `Orchestrator.TransactionAnswerStored` | API/taxo.py:327-330 | the accepted id a transaction answers names a row of the table it leaves |
| `Orchestrator.ManageAnswersStoredId` | API/taxo.py:255-338 | the id a successful submission answers names a row of the resulting table |
| `Orchestrator.UniqueKeyResolves` | API/taxo.py:68-83 | with unique keys, the row carrying a key is the one a lookup by that key counts once and fetches |
| `Orchestrator.TransactionResolvesSubmitted` | API/taxo.py:320-332 | after a transaction the submitted taxon's key names its row alone, and that row redirects to the accepted id answered |
| `Orchestrator.StoredKeyAnswered` | API/taxo.py:335-336 | a key submission whose key names one row inserts nothing and answers that row's accepted id |
| `Orchestrator.StoredSubmissionAnswered` | API/taxo.py:255-338 | a submission found stored by whichever identifier (key, scientific name, canonical name, key with name) inserts nothing and answers COALESCE(cd_syno, cd_tax) of the row its lookup fetched |
| `Orchestrator.DuplicateSubmissionRejected` | API/taxo.py:86-87 | more than one row under the identifier a submission is looked up by stops the whole operation with that identifier's duplicate error (lines 100-101 and 114-117 for the names, raised at line 258) |
| `Orchestrator.DuplicateRecheckRejected` | API/taxo.py:263-265 | a submission not stored under its identifier, whose backbone match key more than one row holds, stops the whole operation with DuplicateKey |
| `Orchestrator.RecheckedSubmissionAnswered` | API/taxo.py:258-336 | a submission not stored under its identifier but stored under the backbone key of its match inserts nothing and answers COALESCE(cd_syno, cd_tax) of the row holding that key |
| `Orchestrator.SecondCallByKey` | API/taxo.py:255-338 | idempotence: resubmitting, by its backbone key, a taxon that was just integrated inserts nothing and answers the same accepted id |

## Left out

- HTTP calls to the GBIF API are not modelled. Every endpoint is a total function in `Backbone`, so network failures, timeouts and malformed JSON are not modelled.
- psycopg2 connections and cursors are replaced by the `TaxonTable` object. The model has no concurrency: two simultaneous submissions cannot race between the read phase and the transaction.
- Python's dictionary merging (`inputTax.update(...)`) is modelled by explicit fields. A name-match answer that overwrites submitted fields of the same name (such as `rank`) is not modelled.
- `fuzz.ratio` is a parameter; its algorithm is not modelled.
- SQL row order is taken as the order of the sequence. `fetchone()` returns the first matching row.
- Store.TaxonTable.InsertPhase: the rollback restores the `cd_tax` counter together with the rows. A PostgreSQL sequence does not roll back, so the real ids after a failure can skip values.
- Store.RankCode: the `tax_rank` join is assumed to match at most one row per rank name. A duplicated rank name would insert several rows in the source.
- Orchestrator.ResolveAccepted: the manual formatting of an accepted taxon (line 295) is unreachable. A not-found accepted taxon has no key, so the recheck at line 284 already fails with NoIdentifier. It is kept as written.
- Orchestrator.SecondCallByKey: idempotence is proved only for a submission by key without a canonical name. With a canonical name, the similarity check against the stored name may fail on the second call. A submission by name may be stored under a different name than the one supplied.
- Matcher.Reparsed: of the parser's answer merged at line 138, only the scientific name, the canonical name and the authorship are kept; its other fields (rank marker, epithets, name type) are not read afterwards. The parser is taken to leave the authorship out of its answer when the name has none, so the backbone authorship then stays.
- Orchestrator.Manage: the contract of the function only states the lookup-error cases of the submission. Its other properties are the lemmas listed in the table.
- Orchestrator.Manage: the operation runs the corrected rules of the Findings table: `DeriveParent`, `Authorship` and `FormatTaxon`. It does not run the code as written at lines 187, 188, 196 and 299. As written, line 187 raises NameError on every manual record without a parent canonical name, and `Manage` succeeds there. The same holds for `ManageInputTax`, which follows `Manage`.
- The Flask resource classes (`app.py`) and the synonyms endpoint are not part of this model.

## Findings

| source | as written | input that shows it | evidently intended | confidence | as-written member | corrected member |
|---|---|---|---|---|---|---|
| API/taxo.py:187 | tests `rank_level`, a name never bound (the level is in `level_rank`) | any manual record with no parent canonical name reaching the derivation (`UndefinedLevelBlocksDerivation`) | compare the rank level just resolved | high, not executed | `Formatter.DeriveParentAsWritten` | `Formatter.DeriveParent` |
| API/taxo.py:188 | stores the species name under the key `canonicalName`, which nothing reads | a subspecies with no parent information: its parent reference stays empty and the parent lookup fails with NoIdentifier (`MisspelledKeyLosesSpecies`) | set `canonicalname` to genus plus epithet | high, not executed | `Formatter.DeriveParentKeyTypo` | `Formatter.DeriveParent` |
| API/taxo.py:196 | replacement `"\1"` in a plain string is the character U+0001 | name "Abies alba", scientific name "Abies alba Mill." gives authorship U+0001 instead of "Mill." (`AuthorshipAsWrittenLosesAuthor`) | the captured group, trimmed | high, not executed | `Formatter.AuthorshipAsWritten` | `Formatter.Authorship` |
| API/taxo.py:299 | calls `format_inputTax` without its positional `acceptedName` and `acceptedId` | any synonym the backbone does not know, submitted with a synonym target (`ManualSynonymRejected`) | pass them as line 305 does | high, not executed | `Orchestrator.FormatSynonymAsWritten` | `Orchestrator.FormatTaxon` |

With a correct `\1`, the greedy group `(.+)` in `^ *(.+) *$` would still keep trailing spaces.
The model trims both ends, which is what the pattern is evidently meant to do.
