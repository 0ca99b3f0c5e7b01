/** format_gbif_tax and format_inputTax: build the record to store and the reference to its parent,
    from a backbone record or from the fields a user supplied. */
module Formatter {
  import opened Taxa
  import opened Ranks
  import opened Resolver

  // ---------------------------------------------------------------- strings

  predicate OccursAt(s: string, pat: string, i: nat) {
    i + |pat| <= |s| && s[i..i + |pat|] == pat
  }

  /** Python's `pat in s`. */
  predicate IsSubstring(pat: string, s: string) {
    exists i :: 0 <= i <= |s| && OccursAt(s, pat, i)
  }

  /** Python's `s.replace(pat, '')`: removes the non-overlapping occurrences, left to right. */
  function RemoveAll(s: string, pat: string): (r: string)
    ensures |r| <= |s|
    decreases |s|
  {
    if pat == [] || |s| < |pat| then s
    else if s[..|pat|] == pat then RemoveAll(s[|pat|..], pat)
    else [s[0]] + RemoveAll(s[1..], pat)
  }

  predicate Blank(s: string) {
    forall i :: 0 <= i < |s| ==> s[i] == ' '
  }

  /** No space at either end. */
  predicate Trimmed(s: string) {
    s == [] || (s[0] != ' ' && s[|s| - 1] != ' ')
  }

  function TrimLeft(s: string): (r: string)
    ensures r == [] || r[0] != ' '
    ensures |r| <= |s| && r == s[|s| - |r|..] && Blank(s[..|s| - |r|])
  {
    if s != [] && s[0] == ' ' then TrimLeft(s[1..]) else s
  }

  function TrimRight(s: string): (r: string)
    ensures r == [] || r[|r| - 1] != ' '
    ensures |r| <= |s| && r == s[..|r|] && Blank(s[|r|..])
  {
    if s != [] && s[|s| - 1] == ' ' then TrimRight(s[..|s| - 1]) else s
  }

  /** `r` is `s` less a blank prefix and a blank suffix. */
  predicate Stripped(s: string, r: string) {
    exists k :: 0 <= k && k + |r| <= |s| && Blank(s[..k]) && s[k..k + |r|] == r && Blank(s[k + |r|..])
  }

  /** Cutting a blank prefix up to the first non-space, then a blank suffix from the last
      non-space, leaves the slice of the input between them, with no space at either end. */
  lemma TrimShape(s: string, l: string, r: string)
    requires |l| <= |s| && l == s[|s| - |l|..] && Blank(s[..|s| - |l|]) && (l == [] || l[0] != ' ')
    requires |r| <= |l| && r == l[..|r|] && Blank(l[|r|..]) && (r == [] || r[|r| - 1] != ' ')
    ensures Trimmed(r)
    ensures r == [] <==> Blank(s)
    ensures Stripped(s, r)
  {
    var k := |s| - |l|;
    assert s[k..k + |r|] == l[..|r|];
    assert s[k + |r|..] == l[|r|..];
    if r != [] {
      assert r[0] == l[0];
    }
  }

  /** Strips the spaces at both ends: the result is the input less a blank prefix and a blank
      suffix, and keeps no space at either end. */
  function Trim(s: string): (r: string)
    ensures Trimmed(r)
    ensures r == [] <==> Blank(s)
    ensures Stripped(s, r)
  {
    var l := TrimLeft(s);
    var r := TrimRight(l);
    TrimShape(s, l, r);
    r
  }

  /** Authorship derived from the names (line 194-198, as evidently intended): the scientific name
      with the canonical name removed, trimmed; an empty remainder means no authorship. */
  function Authorship(name: string, nameAuth: string): (r: Option<string>)
    ensures r.Some? ==> r.value != "" && Trimmed(r.value) && r.value == Trim(RemoveAll(nameAuth, name))
    ensures r.None? <==> Blank(RemoveAll(nameAuth, name))
  {
    var t := Trim(RemoveAll(nameAuth, name));
    if t == "" then None else Some(t)
  }

  /** Authorship as line 196 computes it: `re.sub("^ *(.+) *$", "\1", rest)` with "\1" read by
      Python as the character U+0001. The pattern matches once, at the start, when the remainder
      less a final line break is non-empty and has no line break; that part becomes U+0001 and a
      final line break stays. Any other remainder is left as it is. */
  function AuthorshipAsWritten(name: string, nameAuth: string): (r: Option<string>)
    ensures r.None? <==> RemoveAll(nameAuth, name) == ""
    ensures var rest := RemoveAll(nameAuth, name);
            rest != "" && '\n' !in rest ==> r == Some("\U{1}")
    ensures var rest := RemoveAll(nameAuth, name);
            |rest| >= 2 && rest[|rest| - 1] == '\n' && '\n' !in rest[..|rest| - 1] ==> r == Some("\U{1}\n")
    ensures var rest := RemoveAll(nameAuth, name);
            rest == "\n" || (|rest| > 0 && '\n' in rest[..|rest| - 1]) ==> r == Some(rest)
  {
    var rest := RemoveAll(nameAuth, name);
    if rest == "" then None
    else if rest[|rest| - 1] != '\n' then
      if '\n' !in rest then Some("\U{1}") else Some(rest)
    else
      var body := rest[..|rest| - 1];
      if body != "" && '\n' !in body then Some("\U{1}\n") else Some(rest)
  }

  lemma {:induction false} RemoveAllAbsent(s: string, pat: string)
    requires !IsSubstring(pat, s)
    ensures RemoveAll(s, pat) == s
    decreases |s|
  {
    assert !OccursAt(s, pat, 0);
    if pat != [] && |s| >= |pat| {
      assert s[..|pat|] != pat;
      assert !IsSubstring(pat, s[1..]) by {
        forall i | 0 <= i <= |s[1..]| ensures !OccursAt(s[1..], pat, i) {
          assert !OccursAt(s, pat, i + 1);
          if i + |pat| <= |s[1..]| {
            assert s[1..][i..i + |pat|] == s[i + 1..i + 1 + |pat|];
          }
        }
      }
      RemoveAllAbsent(s[1..], pat);
      assert s == [s[0]] + s[1..];
    }
  }

  /** `replace` removes an occurrence at the start and goes on after it. */
  lemma RemoveAllLeading(pat: string, t: string)
    requires pat != []
    ensures RemoveAll(pat + t, pat) == RemoveAll(t, pat)
  {
    assert (pat + t)[..|pat|] == pat;
    assert (pat + t)[|pat|..] == t;
  }

  lemma {:induction false} TrimOfSpaced(author: string)
    requires author != "" && Trimmed(author)
    ensures Trim(" " + author) == author
  {
    assert (" " + author)[1..] == author;
    assert TrimLeft(" " + author) == TrimLeft(author);
  }

  /** Round trip: a scientific name written as the canonical name, one space and an authorship
      gives back exactly that authorship (provided the canonical name does not recur in it). */
  lemma {:induction false} AuthorshipRoundTrip(name: string, author: string)
    requires name != "" && author != "" && Trimmed(author)
    requires !IsSubstring(name, " " + author)
    ensures IsSubstring(name, name + " " + author)
    ensures RemoveAll(name + " " + author, name) == " " + author
    ensures Authorship(name, name + " " + author) == Some(author)
  {
    assert OccursAt(name + " " + author, name, 0);
    assert name + " " + author == name + (" " + author);
    RemoveAllLeading(name, " " + author);
    RemoveAllAbsent(" " + author, name);
    TrimOfSpaced(author);
  }

  /** Finding at line 196: where the intended rule recovers the authorship, the code as written
      stores the control character U+0001 instead. */
  lemma {:induction false} AuthorshipAsWrittenLosesAuthor(name: string, author: string)
    requires name != "" && author != "" && Trimmed(author) && '\n' !in author
    requires !IsSubstring(name, " " + author)
    ensures Authorship(name, name + " " + author) == Some(author)
    ensures AuthorshipAsWritten(name, name + " " + author) == Some("\U{1}")
    ensures author != "\U{1}" ==> AuthorshipAsWritten(name, name + " " + author) != Authorship(name, name + " " + author)
  {
    AuthorshipRoundTrip(name, author);
  }

  // ---------------------------------------------------------------- parent derivation

  /** Lines 186-193 with the just-resolved level (as evidently intended): a record without a
      parent name takes genus + epithet below species level, the genus at species level, and
      above species level needs a supplied parent or a synonym flag. */
  function DeriveParent(parent: Identity, level: int, parsed: ParsedName, hasSup: bool, syno: bool): (r: Result<Identity>)
    ensures parent.canonicalname.Some? ==> r == Ok(parent)
    ensures r.Ok? ==> r.value.gbifkey == parent.gbifkey && r.value.scientificname == parent.scientificname
    ensures r.Ok? && level <= 5 ==> r.value.canonicalname.Some?
    ensures parent.canonicalname.None? && level < 5 ==>
              r == Ok(parent.(canonicalname := Some(parsed.genusOrAbove + " " + parsed.specificEpithet)))
    ensures parent.canonicalname.None? && level == 5 ==> r == Ok(parent.(canonicalname := Some(parsed.genusOrAbove)))
    ensures r.Err? <==> parent.canonicalname.None? && level > 5 && !hasSup && !syno
    ensures r.Err? ==> r.error == NoParent
    ensures parent.canonicalname.None? && level > 5 && (hasSup || syno) ==> r == Ok(parent)
  {
    if parent.canonicalname.Some? then Ok(parent)
    else if level < 5 then Ok(parent.(canonicalname := Some(parsed.genusOrAbove + " " + parsed.specificEpithet)))
    else if level == 5 then Ok(parent.(canonicalname := Some(parsed.genusOrAbove)))
    else if !hasSup && !syno then Err(NoParent)
    else Ok(parent)
  }

  /** Line 187 as written: `rank_level` is not bound, so reaching the test raises NameError. */
  function DeriveParentAsWritten(parent: Identity): (r: Result<Identity>)
    ensures r.Err? <==> parent.canonicalname.None?
    ensures r.Err? ==> r.error == UndefinedName
    ensures r.Ok? ==> r.value == parent
  {
    if parent.canonicalname.None? then Err(UndefinedName) else Ok(parent)
  }

  /** Line 188 as written (with line 187 repaired): the species name goes under the key
      'canonicalName', which nothing reads, so the parent reference is left as it was. */
  function DeriveParentKeyTypo(parent: Identity, level: int, parsed: ParsedName, hasSup: bool, syno: bool): (r: Result<Identity>)
    ensures level < 5 ==> r == Ok(parent)
    ensures level >= 5 ==> r == DeriveParent(parent, level, parsed, hasSup, syno)
  {
    if parent.canonicalname.Some? then Ok(parent)
    else if level < 5 then Ok(parent)
    else if level == 5 then Ok(parent.(canonicalname := Some(parsed.genusOrAbove)))
    else if !hasSup && !syno then Err(NoParent)
    else Ok(parent)
  }

  /** Finding at line 187: every manual record without a parent name fails, whatever its level,
      where the intended rule derives a parent name for every level up to species. */
  lemma UndefinedLevelBlocksDerivation(parent: Identity, level: int, parsed: ParsedName, hasSup: bool, syno: bool)
    requires parent.canonicalname.None? && level <= 5
    ensures DeriveParentAsWritten(parent) == Err(UndefinedName)
    ensures DeriveParent(parent, level, parsed, hasSup, syno).Ok?
    ensures DeriveParent(parent, level, parsed, hasSup, syno).value.canonicalname.Some?
  {
  }

  /** Finding at line 188: for an infraspecific record with no parent information, the parent
      reference built as written carries no identifier, so the identity check of the parent
      (line 309) raises; the intended reference names the species. */
  lemma MisspelledKeyLosesSpecies(rows: seq<TaxonRow>, level: int, parsed: ParsedName, syno: bool, similarity: Similarity)
    requires level < 5
    ensures var none := Identity(None, None, None);
            ResolveIdentity(rows, DeriveParentKeyTypo(none, level, parsed, false, syno).value, similarity) == Err(NoIdentifier)
    ensures var none := Identity(None, None, None);
            ResolveIdentity(rows, DeriveParent(none, level, parsed, false, syno).value, similarity) != Err(NoIdentifier)
  {
  }

  // ---------------------------------------------------------------- formatters

  /** format_gbif_tax: the record of a backbone taxon, with its parent as (parentKey, parent). */
  function FormatGbifTax(ranks: seq<RankRow>, bb: Backbone, rec: BackboneRecord, answer: Option<MatchAnswer>, syno: bool)
    : (r: Result<(TaxonRecord, Identity)>)
    ensures r.Err? <==> forall i :: 0 <= i < |ranks| ==> !Answers(ranks[i], rec.rank)
    ensures r.Err? ==> r.error == UnknownRank
    ensures r.Ok? ==> r.value.0.gbifkey == Some(rec.key) && r.value.0.source == None && r.value.0.auth == rec.authorship
    ensures r.Ok? && syno ==> r.value.0.status == Some("SYNONYM")
    ensures r.Ok? && !syno ==>
              r.value.0.status == (if answer.Some? && answer.value.status.Some? then answer.value.status else rec.taxonomicStatus)
    ensures r.Ok? ==> r.value.1 == Identity(rec.parentKey, None, rec.parent)
    ensures r.Ok? ==> exists i :: 0 <= i < |ranks| && Answers(ranks[i], rec.rank) && r.value.0.rankName == ranks[i].rankName
                        && (ranks[i].level < 5 ==>
                              r.value.0.name == bb.parsedName(rec.key).canonicalNameWithMarker
                              && r.value.0.nameAuth == bb.parsedName(rec.key).scientificName)
                        && (ranks[i].level >= 5 ==>
                              r.value.0.name == rec.canonicalName && r.value.0.nameAuth == rec.scientificName)
  {
    var rank :- GetRank(ranks, rec.rank);
    var parsed := bb.parsedName(rec.key);
    var name := if rank.1 < 5 then parsed.canonicalNameWithMarker else rec.canonicalName;
    var nameAuth := if rank.1 < 5 then parsed.scientificName else rec.scientificName;
    var status :=
      if syno then Some("SYNONYM")
      else if answer.Some? && answer.value.status.Some? then answer.value.status
      else rec.taxonomicStatus;
    Ok((TaxonRecord(name, nameAuth, rec.authorship, rank.0, status, Some(rec.key), None),
        Identity(rec.parentKey, None, rec.parent)))
  }

  /** All of rank, canonical name, scientific name, and a parent or a synonym flag supplied. */
  predicate FullySupplied(sub: Submission, syno: bool) {
    Truthy(sub.rank) && sub.id.canonicalname.Some? && sub.id.scientificname.Some? && (Supplied(sub.parent) || syno)
  }

  /** The name handed to the backbone parser: the scientific name, else the canonical name,
      else the text Python makes of None. */
  function ParserInput(sub: Submission): string {
    if sub.id.scientificname.Some? then sub.id.scientificname.value
    else if sub.id.canonicalname.Some? then sub.id.canonicalname.value
    else "None"
  }

  /** The rank token of a manual record: the supplied rank, else the parse's rank marker. */
  function RankToken(sub: Submission, parsed: ParsedName): Option<string> {
    if Truthy(sub.rank) then Some(sub.rank.value) else parsed.rankMarker
  }

  /** The rank of a manual record (lines 179-185): NoRank without a token, else the token resolved
      through `tax_rank`. */
  function ManualRank(ranks: seq<RankRow>, sub: Submission, parsed: ParsedName): (r: Result<(string, int)>)
    ensures r == Err(NoRank) <==> RankToken(sub, parsed).None?
    ensures r == Err(UnknownRank) <==>
              RankToken(sub, parsed).Some? && forall i :: 0 <= i < |ranks| ==> !Answers(ranks[i], RankToken(sub, parsed).value)
    ensures r.Ok? ==> exists i :: 0 <= i < |ranks| && Answers(ranks[i], RankToken(sub, parsed).value)
                        && r.value == (ranks[i].rankName, ranks[i].level)
  {
    if Truthy(sub.rank) then GetRank(ranks, sub.rank.value)
    else if parsed.rankMarker.Some? then GetRank(ranks, parsed.rankMarker.value)
    else Err(NoRank)
  }

  /** format_inputTax: the record of a taxon the backbone does not know, status SYNONYM or DOUBTFUL. */
  function FormatInputTax(ranks: seq<RankRow>, bb: Backbone, sub: Submission, syno: bool)
    : (r: Result<(TaxonRecord, Identity)>)
    ensures r.Ok? ==> r.value.0.status == Some(if syno then "SYNONYM" else "DOUBTFUL")
    ensures r.Ok? ==> r.value.0.gbifkey == None && r.value.0.source == sub.source
    ensures r.Ok? ==> exists i :: 0 <= i < |ranks| && ranks[i].rankName == r.value.0.rankName
    ensures r.Ok? && FullySupplied(sub, syno) ==>
              r.value.0.name == sub.id.canonicalname.value && r.value.0.nameAuth == sub.id.scientificname.value
              && r.value.1 == sub.parent
    ensures r.Ok? && !FullySupplied(sub, syno) ==>
              r.value.0.name == bb.parse(ParserInput(sub)).canonicalNameComplete
              && r.value.0.nameAuth == bb.parse(ParserInput(sub)).scientificName
    ensures r == Err(NameNotParsed) <==>
              !FullySupplied(sub, syno) && sub.id.scientificname.Some? && !bb.parse(ParserInput(sub)).parsed
    ensures r == Err(NoRank) <==>
              !FullySupplied(sub, syno) && !(sub.id.scientificname.Some? && !bb.parse(ParserInput(sub)).parsed)
              && !Truthy(sub.rank) && bb.parse(ParserInput(sub)).rankMarker.None?
    ensures r.Ok? ==> var p := bb.parse(ParserInput(sub));
              ManualRank(ranks, sub, p).Ok? && r.value.0.rankName == ManualRank(ranks, sub, p).value.0
    ensures r.Ok? && !FullySupplied(sub, syno) ==>
              var p := bb.parse(ParserInput(sub));
              DeriveParent(sub.parent, ManualRank(ranks, sub, p).value.1, p, Supplied(sub.parent), syno) == Ok(r.value.1)
    ensures r == Err(UnknownRank) <==>
              var p := bb.parse(ParserInput(sub));
              !(!FullySupplied(sub, syno) && sub.id.scientificname.Some? && !p.parsed)
              && RankToken(sub, p).Some? && forall i :: 0 <= i < |ranks| ==> !Answers(ranks[i], RankToken(sub, p).value)
    ensures r == Err(NoParent) <==>
              var p := bb.parse(ParserInput(sub));
              !FullySupplied(sub, syno) && !(sub.id.scientificname.Some? && !p.parsed) && ManualRank(ranks, sub, p).Ok?
              && ManualRank(ranks, sub, p).value.1 > 5 && !Supplied(sub.parent) && !syno
    ensures r.Err? ==> r.error in {UnknownRank, NameNotParsed, NoRank, NoParent}
    ensures r.Ok? && Truthy(sub.authorship) ==> r.value.0.auth == sub.authorship
    ensures r.Ok? && !Truthy(sub.authorship) && IsSubstring(r.value.0.name, r.value.0.nameAuth) ==>
              r.value.0.auth == Authorship(r.value.0.name, r.value.0.nameAuth)
    ensures r.Ok? && !IsSubstring(r.value.0.name, r.value.0.nameAuth) ==> r.value.0.auth == sub.authorship
  {
    var status := if syno then "SYNONYM" else "DOUBTFUL";
    var named :-
      if FullySupplied(sub, syno) then
        var rank :- GetRank(ranks, sub.rank.value);
        Ok((sub.id.canonicalname.value, sub.id.scientificname.value, rank.0, sub.parent))
      else
        var parsed := bb.parse(ParserInput(sub));
        if sub.id.scientificname.Some? && !parsed.parsed then Err(NameNotParsed)
        else
          var rank :- ManualRank(ranks, sub, parsed);
          var parent :- DeriveParent(sub.parent, rank.1, parsed, Supplied(sub.parent), syno);
          Ok((parsed.canonicalNameComplete, parsed.scientificName, rank.0, parent));
    var name := named.0;
    var nameAuth := named.1;
    var auth := if !Truthy(sub.authorship) && IsSubstring(name, nameAuth) then Authorship(name, nameAuth)
                else sub.authorship;
    Ok((TaxonRecord(name, nameAuth, auth, named.2, Some(status), None, sub.source), named.3))
  }
}
