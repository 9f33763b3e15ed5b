/**
 * The audit table of the Copeland explainer: one column per candidate
 * that lost at least one contest, weakest first, and one row per
 * candidate, tier by tier, holding the tallies of the contests it won.
 */
module PairwiseTable {
  import opened Js
  import opened Seqs
  import opened Copeland

  /** `result.flatMap(r => r.candidates)`: every candidate, tier by tier. */
  function AllCandidates(result: seq<CopelandRanking>): (all: seq<CopelandCandidate>)
    ensures forall c :: c in all <==> exists k :: 0 <= k < |result| && c in result[k].candidates
  {
    if result == [] then []
    else
      var rest := AllCandidates(result[1..]);
      assert forall k :: 1 <= k < |result| ==> result[k] == result[1..][k - 1];
      result[0].candidates + rest
  }

  /** `.map(c => c.candidate)` */
  function Names(cs: seq<CopelandCandidate>): seq<string> {
    Map(cs, CandidateOf)
  }

  function CandidateOf(c: CopelandCandidate): string {
    c.candidate
  }

  function CompetitorOf(victory: CopelandPairwiseResult): string {
    victory.competitor
  }

  /**
   * `.flatMap(victor => victor.wins).flatMap(victory => victory.competitor)`:
   * exactly the competitors of the wins recorded for some candidate.
   */
  function Competitors(cs: seq<CopelandCandidate>): (competitors: seq<string>)
    ensures forall n :: n in competitors <==>
      exists i, j :: 0 <= i < |cs| && 0 <= j < |cs[i].wins| && cs[i].wins[j].competitor == n
  {
    if cs == [] then []
    else
      var here, rest := Map(cs[0].wins, CompetitorOf), Competitors(cs[1..]);
      forall n ensures n in here + rest <==>
        exists i, j :: 0 <= i < |cs| && 0 <= j < |cs[i].wins| && cs[i].wins[j].competitor == n
      {
        if n in here {
          var j :| 0 <= j < |here| && here[j] == n;
          assert cs[0].wins[j].competitor == n;
        } else if n in rest {
          var i, j :| 0 <= i < |cs[1..]| && 0 <= j < |cs[1..][i].wins| && cs[1..][i].wins[j].competitor == n;
          assert cs[i + 1].wins[j].competitor == n;
        }
        forall i, j | 0 <= i < |cs| && 0 <= j < |cs[i].wins| && cs[i].wins[j].competitor == n
          ensures n in here + rest
        {
          if i == 0 {
            assert here[j] == n;
          } else {
            assert cs[1..][i - 1].wins[j].competitor == n;
          }
        }
      }
      here + rest
  }

  /** `n` is the name of some candidate of the ranking. */
  ghost predicate Listed(result: seq<CopelandRanking>, n: string) {
    n in Names(AllCandidates(result))
  }

  /** `n` is the competitor of some win recorded for some candidate of the ranking. */
  ghost predicate Beaten(result: seq<CopelandRanking>, n: string) {
    var all := AllCandidates(result);
    exists i, j :: 0 <= i < |all| && 0 <= j < |all[i].wins| && all[i].wins[j].competitor == n
  }

  /**
   * `getDefeatedCandidates`: the listed candidates that were beaten at
   * least once, each named once.
   */
  function DefeatedCandidates(result: seq<CopelandRanking>): (defeated: seq<string>)
    ensures forall n :: n in defeated <==> Listed(result, n) && Beaten(result, n)
    ensures NoDuplicates(defeated)
  {
    var all := AllCandidates(result);
    var defeatSet := Elements(Competitors(all));
    var p := c => c in defeatSet;
    var retVal := Filter(Dedup(Names(all)), p);
    DefeatedFacts(result, p);
    Reverse(retVal)
  }

  lemma DefeatedFacts(result: seq<CopelandRanking>, p: string -> bool)
    requires forall c :: p(c) == (c in Competitors(AllCandidates(result)))
    ensures var defeated := Reverse(Filter(Dedup(Names(AllCandidates(result))), p));
      && (forall n :: n in defeated <==> Listed(result, n) && Beaten(result, n))
      && NoDuplicates(defeated)
  {
    var all := AllCandidates(result);
    var unique := Dedup(Names(all));
    var retVal := Filter(unique, p);
    forall n ensures n in Reverse(retVal) <==> Listed(result, n) && Beaten(result, n) {
      ReverseMember(retVal, n);
      FilterMember(unique, p, n);
      DedupMember(Names(all), n);
    }
    FilterPairwise(unique, p, (a, b) => a != b);
    ReverseNoDuplicates(retVal);
  }

  /**
   * The columns run in the reverse of the order in which their names
   * first appear tier by tier, so the weakest defeated candidate comes first.
   */
  lemma DefeatedOrder(result: seq<CopelandRanking>)
    ensures var names, defeated := Names(AllCandidates(result)), DefeatedCandidates(result);
      forall i, j :: 0 <= i < j < |defeated| ==> IndexOf(names, defeated[j]) < IndexOf(names, defeated[i])
  {
    var names := Names(AllCandidates(result));
    var defeatSet := Elements(Competitors(AllCandidates(result)));
    DedupOrder(names);
    FilterPairwise(Dedup(names), c => c in defeatSet, (a, b) => IndexOf(names, a) < IndexOf(names, b));
  }

  /** When no candidate won anything, the table has no columns. */
  lemma NoWinsNoColumns(result: seq<CopelandRanking>)
    requires forall c :: c in AllCandidates(result) ==> c.wins == []
    ensures DefeatedCandidates(result) == []
  {
    var all := AllCandidates(result);
    forall n ensures n !in Competitors(all) {
      forall i | 0 <= i < |all| ensures |all[i].wins| == 0 {
        assert all[i] in all;
      }
    }
    var defeatSet := Elements(Competitors(all));
    FilterNone(Dedup(Names(all)), c => c in defeatSet);
  }

  /** A cell of the table: `votes:competitorVotes`, or nothing. */
  datatype Cell = Empty | Tally(votes: nat, competitorVotes: nat)

  /**
   * The cell of a row under the column of `competitor`: the tally of the
   * first of the row's victories over that competitor, or an empty cell.
   */
  function CellFor(victories: seq<CopelandPairwiseResult>, competitor: string): (cell: Cell)
    ensures cell.Empty? <==> forall k :: 0 <= k < |victories| ==> victories[k].competitor != competitor
    ensures cell.Tally? ==>
      exists k :: && 0 <= k < |victories| && victories[k].competitor == competitor
                  && (forall m :: 0 <= m < k ==> victories[m].competitor != competitor)
                  && cell == Tally(victories[k].votes, victories[k].competitorVotes)
  {
    var victoryIdx := FindIndex(victories, (c: CopelandPairwiseResult) => c.competitor == competitor);
    if victoryIdx >= 0 then Tally(victories[victoryIdx].votes, victories[victoryIdx].competitorVotes)
    else Empty
  }

  /** `pairwiseCells`: one cell per column, in column order. */
  function PairwiseCells(defeated: seq<string>, victories: seq<CopelandPairwiseResult>): (cells: seq<Cell>)
    ensures |cells| == |defeated|
    ensures forall i :: 0 <= i < |cells| ==> cells[i] == CellFor(victories, defeated[i])
  {
    seq(|defeated|, i requires 0 <= i < |defeated| => CellFor(victories, defeated[i]))
  }

  /** The rank and score cells that open a tier, spanning `rowSpan` rows. */
  datatype TierHeader = TierHeader(ranking: nat, score: real, rowSpan: nat)

  /** A body row: the tier header on a tier's first row, then the name and the cells. */
  datatype Row = Row(header: Option<TierHeader>, name: string, cells: seq<Cell>)

  /** `candidateRow` */
  function CandidateRow(defeated: seq<string>, header: Option<TierHeader>, c: CopelandCandidate): (row: Row)
    ensures row.header == header && row.name == c.candidate
    ensures |row.cells| == |defeated|
    ensures forall i :: 0 <= i < |defeated| ==> row.cells[i] == CellFor(c.wins, defeated[i])
  {
    Row(header, c.candidate, PairwiseCells(defeated, c.wins))
  }

  /**
   * The rows of one tier. The source reads `stage.candidates[0]`, so a tier
   * has at least one candidate.
   */
  function TierRows(defeated: seq<string>, stage: CopelandRanking): (rows: seq<Row>)
    requires |stage.candidates| > 0
    ensures |rows| == |stage.candidates|
    ensures rows[0].header == Some(TierHeader(stage.ranking, stage.score, |stage.candidates|))
    ensures forall k :: 1 <= k < |rows| ==> rows[k].header == None
    ensures forall k :: 0 <= k < |rows| ==>
      rows[k].name == stage.candidates[k].candidate && rows[k].cells == PairwiseCells(defeated, stage.candidates[k].wins)
  {
    var firstRow := CandidateRow(defeated, Some(TierHeader(stage.ranking, stage.score, |stage.candidates|)), stage.candidates[0]);
    var remainderRows := seq(|stage.candidates| - 1, k requires 0 <= k < |stage.candidates| - 1 =>
      CandidateRow(defeated, None, stage.candidates[k + 1]));
    [firstRow] + remainderRows
  }

  /** `groups`: the body rows, tier after tier. */
  function Groups(defeated: seq<string>, result: seq<CopelandRanking>): (rows: seq<Row>)
    requires forall t :: t in result ==> |t.candidates| > 0
    ensures |rows| == |AllCandidates(result)|
    ensures forall k :: 0 <= k < |rows| ==>
      rows[k].name == AllCandidates(result)[k].candidate
      && rows[k].cells == PairwiseCells(defeated, AllCandidates(result)[k].wins)
  {
    if result == [] then []
    else
      var first, rest := TierRows(defeated, result[0]), Groups(defeated, result[1..]);
      RowsConcat(defeated, first, rest, result[0].candidates, AllCandidates(result[1..]));
      first + rest
  }

  /** Rows that match two runs of candidates, joined, match the joined run. */
  lemma RowsConcat(defeated: seq<string>, first: seq<Row>, rest: seq<Row>, a: seq<CopelandCandidate>, b: seq<CopelandCandidate>)
    requires |first| == |a| && |rest| == |b|
    requires forall k :: 0 <= k < |first| ==>
      first[k].name == a[k].candidate && first[k].cells == PairwiseCells(defeated, a[k].wins)
    requires forall k :: 0 <= k < |rest| ==>
      rest[k].name == b[k].candidate && rest[k].cells == PairwiseCells(defeated, b[k].wins)
    ensures forall k :: 0 <= k < |first + rest| ==>
      (first + rest)[k].name == (a + b)[k].candidate && (first + rest)[k].cells == PairwiseCells(defeated, (a + b)[k].wins)
  {
    forall k | 0 <= k < |first + rest|
      ensures (first + rest)[k].name == (a + b)[k].candidate
           && (first + rest)[k].cells == PairwiseCells(defeated, (a + b)[k].wins)
    {
      if k < |first| {
        assert (first + rest)[k] == first[k] && (a + b)[k] == a[k];
      } else {
        assert (first + rest)[k] == rest[k - |first|] && (a + b)[k] == b[k - |first|];
      }
    }
  }

  /** Appending a tier appends its rows: each tier opens with its header row and no other row carries one. */
  lemma {:induction false} GroupsAppend(defeated: seq<string>, result: seq<CopelandRanking>, stage: CopelandRanking)
    requires forall t :: t in result ==> |t.candidates| > 0
    requires |stage.candidates| > 0
    ensures Groups(defeated, result + [stage]) == Groups(defeated, result) + TierRows(defeated, stage)
  {
    if result == [] {
      assert Groups(defeated, [stage]) == TierRows(defeated, stage) + Groups(defeated, []);
    } else {
      assert (result + [stage])[1..] == result[1..] + [stage];
      GroupsAppend(defeated, result[1..], stage);
    }
  }

  /** The rendered table: column headings, then the body rows. */
  datatype Table = Table(columns: seq<string>, rows: seq<Row>)

  /**
   * `PairwiseTable`: the defeated candidates as columns, the tiers' rows as
   * the body, and in row `k`, column `i` the tally of candidate `k`'s first
   * victory over column `i`'s candidate.
   */
  function PairwiseTableOf(result: seq<CopelandRanking>): (table: Table)
    requires forall t :: t in result ==> |t.candidates| > 0
    ensures table.columns == DefeatedCandidates(result)
    ensures table.rows == Groups(table.columns, result)
    ensures |table.rows| == |AllCandidates(result)|
    ensures forall k :: 0 <= k < |table.rows| ==> |table.rows[k].cells| == |table.columns|
    ensures forall k, i :: 0 <= k < |table.rows| && 0 <= i < |table.columns| ==>
      table.rows[k].cells[i] == CellFor(AllCandidates(result)[k].wins, table.columns[i])
  {
    var defeatedCandidates := DefeatedCandidates(result);
    Table(defeatedCandidates, Groups(defeatedCandidates, result))
  }
}
