/** get_rank: resolves a rank token through the aliases of the `tax_rank` table. */
module Ranks {
  import opened Taxa

  /** The WHERE clause of get_rank: the token is the row's backbone marker, name or code. */
  predicate Answers(r: RankRow, token: string) {
    r.gbifMarker == Some(token) || r.rankName == token || r.cdRank == token
  }

  /** Reference-data invariant: rows that answer to one token agree on name and level. */
  ghost predicate Unambiguous(ranks: seq<RankRow>) {
    forall i, j, t :: 0 <= i < |ranks| && 0 <= j < |ranks| && Answers(ranks[i], t) && Answers(ranks[j], t) ==>
      ranks[i].rankName == ranks[j].rankName && ranks[i].level == ranks[j].level
  }

  /** get_rank: the (rank_name, rank_level) of the first row answering to the token;
      fetchone() on an empty result fails when it is unpacked. */
  function GetRank(ranks: seq<RankRow>, token: string): (r: Result<(string, int)>)
    ensures r.Err? <==> forall i :: 0 <= i < |ranks| ==> !Answers(ranks[i], token)
    ensures r.Err? ==> r.error == UnknownRank
    ensures r.Ok? ==> exists i :: 0 <= i < |ranks| && Answers(ranks[i], token)
                        && r.value == (ranks[i].rankName, ranks[i].level)
  {
    if |ranks| == 0 then Err(UnknownRank)
    else if Answers(ranks[0], token) then Ok((ranks[0].rankName, ranks[0].level))
    else
      GetRank(ranks[1..], token)
  }

  /** Rank resolution is deterministic: whichever alias of a row is given (its name, its
      code or its backbone marker), the answer is that row's name and level. */
  lemma {:induction false} GetRankOfAlias(ranks: seq<RankRow>, i: nat, token: string)
    requires Unambiguous(ranks)
    requires i < |ranks| && Answers(ranks[i], token)
    ensures GetRank(ranks, token) == Ok((ranks[i].rankName, ranks[i].level))
  {
    var j :| 0 <= j < |ranks| && Answers(ranks[j], token)
             && GetRank(ranks, token).value == (ranks[j].rankName, ranks[j].level);
  }
}
