/** The single-profile matcher (version 4): every hit row's target is the
    unclamped -log10 of column 5 with the alignment length; each row is
    matched against the one reference table and the save file, opened with
    mode 'w', receives one untagged line per row. */
module HmmerRunV4 {
  import opened Text
  import opened Features
  import opened Matcher
  import opened Files

  /** How a run of the script ends: every row written; stopped by the
      ValueError idxmin raises on an empty reference table; or stopped by the
      EmptyDataError read_csv raises on a formatted hit table with no rows.
      The script dies on either error. */
  datatype Outcome = Completed | EmptyReferenceAbort | EmptyHitTableAbort

  /** The line written for one hit row: 1-based row number and attribute. */
  function RowLine(row: nat, attribute: string): string
  {
    "Row " + NatToDecimal(row) + ": Closest point " + "-> Attribute=" + attribute
  }

  /** The attribute of the reference row closest to the v4 target of a hit. */
  function MatchedAttribute(hit: HitRow, refs: seq<RefPoint>, log10: real -> real): string
    requires |refs| > 0
  {
    refs[ClosestIndex(refs, QueryV4(hit, log10))].attribute
  }

  /** The attributes matched for the hit rows, in row order. */
  function MatchedAttributes(hits: seq<HitRow>, refs: seq<RefPoint>, log10: real -> real): (attrs: seq<string>)
    requires |hits| == 0 || |refs| > 0
    ensures |attrs| == |hits|
  {
    seq(|hits|, i requires 0 <= i < |hits| => MatchedAttribute(hits[i], refs, log10))
  }

  /** The whole save file: one line per hit row, in row order. */
  function SaveLines(hits: seq<HitRow>, refs: seq<RefPoint>, log10: real -> real): (lines: seq<string>)
    requires |hits| == 0 || |refs| > 0
    ensures |lines| == |hits|
  {
    seq(|hits|, i requires 0 <= i < |hits| => RowLine(i + 1, MatchedAttribute(hits[i], refs, log10)))
  }

  /** A row's line depends on that row and its position only. */
  lemma SaveLinesExtend(hits: seq<HitRow>, h: HitRow, refs: seq<RefPoint>, log10: real -> real)
    requires |refs| > 0
    ensures SaveLines(hits + [h], refs, log10)
         == SaveLines(hits, refs, log10) + [RowLine(|hits| + 1, MatchedAttribute(h, refs, log10))]
  {
    var hs := hits + [h];
    assert forall i :: 0 <= i < |hits| ==> hs[i] == hits[i];
  }

  /** find_closest_points_and_plot without the plotting: the save file is
      opened with 'w', so whatever it held is gone; then every row is matched
      and its line written. An empty reference table with at least one hit
      row raises at the first row, leaving the file empty. */
  method FindClosestPoints(hits: seq<HitRow>, tsv: seq<RefPoint>, save: TextFile, log10: real -> real)
      returns (outcome: Outcome)
    modifies save
    ensures outcome == if |hits| > 0 && |tsv| == 0 then EmptyReferenceAbort else Completed
    ensures save.lines == if outcome == Completed then SaveLines(hits, tsv, log10) else []
  {
    var table := new ReferenceTable(tsv);
    save.Truncate();
    var i := 0;
    while i < |hits|
      invariant i <= |hits|
      invariant i == 0 || |tsv| > 0
      invariant table.points == tsv
      invariant save.lines == SaveLines(hits[..i], tsv, log10)
    {
      var target := QueryV4(hits[i], log10);
      var m := table.Closest(target);
      if m == EmptyReferenceSpace {
        return EmptyReferenceAbort;
      }
      save.WriteLine(RowLine(i + 1, tsv[m.index].attribute));
      SaveLinesExtend(hits[..i], hits[i], tsv, log10);
      assert hits[..i] + [hits[i]] == hits[..i + 1];
      i := i + 1;
    }
    assert hits[..i] == hits;
    return Completed;
  }

  /** main without argument parsing: the hit table is read before the save
      file is opened, so a table with no rows raises with the file as it
      was; otherwise the rows are matched and written. */
  method Run(hits: seq<HitRow>, tsv: seq<RefPoint>, save: TextFile, log10: real -> real)
      returns (outcome: Outcome)
    modifies save
    ensures outcome == if |hits| == 0 then EmptyHitTableAbort else if |tsv| == 0 then EmptyReferenceAbort else Completed
    ensures outcome == Completed ==> save.lines == SaveLines(hits, tsv, log10)
    ensures outcome == EmptyHitTableAbort ==> save.lines == old(save.lines)
    ensures outcome == EmptyReferenceAbort ==> save.lines == []
  {
    if |hits| == 0 {
      return EmptyHitTableAbort;
    }
    outcome := FindClosestPoints(hits, tsv, save, log10);
  }
}
