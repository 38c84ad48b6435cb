/** Feature derivation: from one row of the formatted hmmscan domain table to
    the target point (score, alignment length) the matcher compares against a
    reference table. log10 is left abstract: every member that needs it takes
    it as a parameter, so nothing here depends on how it is computed. */
module Features {

  /** The columns of one formatted hit row that the scripts read, named by
      their 0-based position: 5 (the significance column of the v4 script),
      6 (the significance column of the v4.4 script), 17 and 18 (alignment
      start and end, integer columns). */
  datatype HitRow = HitRow(col5: real, col6: real, col17: int, col18: int)

  /** A target point: its score (the -log10 significance axis) and its length. */
  datatype Query = Query(score: real, length: int)

  /** Raw significance values at or below this bound are clamped (v4.4)... */
  const UnderflowBound: real := 1e-306
  /** ...to this score. */
  const ClampScore: real := 306.0

  /** The Alignment_Length column: end minus start, without any check. */
  function AlignmentLength(h: HitRow): (len: int)
    ensures len <= 0 <==> h.col18 <= h.col17
  {
    h.col18 - h.col17
  }

  /** The v4 log_Evalue column, -log10 of column 5 with no clamp. */
  function LogEvalueV4(h: HitRow, log10: real -> real): real
  {
    -log10(h.col5)
  }

  /** The v4.4 log_Evalue column, -log10 of column 6; the v4.4 matcher does not read it. */
  function LogEvalueV44(h: HitRow, log10: real -> real): real
  {
    -log10(h.col6)
  }

  /** The v4.4 target score: a raw value at or below the underflow bound
      scores exactly 306, any other value scores -log10 of itself. */
  function TargetScoreV44(raw: real, log10: real -> real): real
  {
    if raw <= UnderflowBound then ClampScore else -log10(raw)
  }

  /** The v4 target: the log_Evalue column as it is, and the alignment length. */
  function QueryV4(h: HitRow, log10: real -> real): (q: Query)
    ensures q.score == LogEvalueV4(h, log10)
    ensures q.length + h.col17 == h.col18
  {
    Query(LogEvalueV4(h, log10), AlignmentLength(h))
  }

  /** The v4.4 target: the clamped score recomputed from column 6 (equal to
      the log_Evalue column exactly when column 6 is above the bound), and
      the alignment length. */
  function QueryV44(h: HitRow, log10: real -> real): (q: Query)
    ensures h.col6 <= UnderflowBound ==> q.score == ClampScore
    ensures h.col6 > UnderflowBound ==> q.score == LogEvalueV44(h, log10)
    ensures q.length + h.col17 == h.col18
  {
    Query(TargetScoreV44(h.col6, log10), AlignmentLength(h))
  }

  /** log10 is increasing on the positive reals and log10(1e-306) = -306. */
  ghost predicate Log10Like(log10: real -> real)
  {
    (forall x, y :: 0.0 < x <= y ==> log10(x) <= log10(y))
    && log10(UnderflowBound) == -ClampScore
  }

  function Min(a: real, b: real): real
  {
    if a <= b then a else b
  }

  /** For a positive raw value the clamp only caps the score: the v4.4 score
      is the smaller of 306 and -log10(raw). */
  lemma ClampCapsScore(raw: real, log10: real -> real)
    requires Log10Like(log10) && raw > 0.0
    ensures TargetScoreV44(raw, log10) == Min(ClampScore, -log10(raw))
  {
    if raw <= UnderflowBound {
      assert log10(raw) <= log10(UnderflowBound);
    } else {
      assert log10(UnderflowBound) <= log10(raw);
    }
  }

  /** Whatever the raw value, zero and negative ones included, the v4.4
      score is at most 306 and never needs a logarithm of a value at or
      below the bound. */
  lemma TargetScoreBounded(raw: real, log10: real -> real)
    requires Log10Like(log10)
    ensures TargetScoreV44(raw, log10) <= ClampScore
    ensures raw <= UnderflowBound ==> TargetScoreV44(raw, log10) == ClampScore
  {
    if raw > UnderflowBound {
      assert log10(UnderflowBound) <= log10(raw);
    }
  }

  /** The two variants derive the same target from the same significance
      value as long as it lies above the bound: they differ only in the
      column they read and in the clamp. */
  lemma VariantsAgreeAboveBound(h: HitRow, log10: real -> real)
    requires h.col5 == h.col6 > UnderflowBound
    ensures QueryV4(h, log10) == QueryV44(h, log10)
  {
  }
}
