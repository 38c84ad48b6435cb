/** The attribute tally: every line of a result file yields the label after
    its last "-> Attribute=" marker, stripped; labels are counted in an
    insertion-ordered counter and reported as "label: count" lines in order
    of first appearance. */
module AttributeCounter {
  import opened Text
  import opened Features
  import opened Matcher
  import opened Files
  import HmmerRunV44
  import HmmerRunV4

  const Marker: string := "-> Attribute="

  /** line.split('-> Attribute=')[-1].strip() */
  function ExtractLabel(line: string): (attribute: string)
    ensures Unpadded(attribute)
  {
    Strip(Last(Split(line, Marker)))
  }

  /** A line without the marker is its own label once stripped, so a blank
      line counts under the empty label. */
  lemma LabelWithoutMarker(line: string)
    requires !Contains(line, Marker)
    ensures ExtractLabel(line) == Strip(line)
    ensures AllSpace(line) ==> ExtractLabel(line) == ""
  {
    SplitWithoutSeparator(line, Marker);
    if AllSpace(line) {
      StripPadded(line, "", "");
      assert line + "" + "" == line;
    }
  }

  /** The labels of the lines, in line order. */
  function Labels(lines: seq<string>): (labels: seq<string>)
    ensures |labels| == |lines|
  {
    seq(|lines|, i requires 0 <= i < |lines| => ExtractLabel(lines[i]))
  }

  lemma LabelsAppend(lines: seq<string>, i: nat)
    requires i < |lines|
    ensures Labels(lines[..i + 1]) == Labels(lines[..i]) + [ExtractLabel(lines[i])]
  {
    var longer, shorter := Labels(lines[..i + 1]), Labels(lines[..i]) + [ExtractLabel(lines[i])];
    forall j | 0 <= j < i + 1
      ensures longer[j] == shorter[j]
    {
      var line := lines[j];
      assert lines[..i + 1][j] == line;
      if j < i {
        assert lines[..i][j] == line;
        assert shorter[j] == Labels(lines[..i])[j];
      }
    }
  }

  predicate Distinct(keys: seq<string>)
  {
    forall i, j :: 0 <= i < j < |keys| ==> keys[i] != keys[j]
  }

  /** Where x first appears. */
  function FirstIndex(labels: seq<string>, x: string): (p: nat)
    requires x in labels
    ensures p < |labels| && labels[p] == x && x !in labels[..p]
  {
    if labels[0] == x then 0
    else
      var p := FirstIndex(labels[1..], x);
      assert labels[..p + 1] == [labels[0]] + labels[1..][..p];
      p + 1
  }

  lemma FirstIndexUnique(labels: seq<string>, x: string, p: nat)
    requires p < |labels| && labels[p] == x && x !in labels[..p]
    ensures FirstIndex(labels, x) == p
  {
    var q := FirstIndex(labels, x);
    assert forall j :: 0 <= j < p ==> labels[..p][j] == labels[j] != x;
    assert forall j :: 0 <= j < q ==> labels[..q][j] == labels[j] != x;
  }

  /** Appending a label leaves the first appearance of the earlier ones where it was. */
  lemma FirstIndexAppend(labels: seq<string>, y: string, x: string)
    requires x in labels
    ensures FirstIndex(labels + [y], x) == FirstIndex(labels, x)
  {
    var p := FirstIndex(labels, x);
    assert (labels + [y])[..p] == labels[..p];
    FirstIndexUnique(labels + [y], x, p);
  }

  /** The distinct labels, each once, in order of first appearance: the key
      order of the insertion-ordered counter. */
  function FirstSeen(labels: seq<string>): (keys: seq<string>)
    ensures Distinct(keys)
    ensures forall x :: x in keys <==> x in labels
    ensures forall i, j :: 0 <= i < j < |keys| ==> FirstIndex(labels, keys[i]) < FirstIndex(labels, keys[j])
  {
    if labels == [] then []
    else
      var init := labels[..|labels| - 1];
      var y := labels[|labels| - 1];
      assert labels == init + [y];
      var keys := FirstSeen(init);
      FirstSeenAppendOrder(init, y, keys);
      if y in keys then keys else keys + [y]
  }

  lemma FirstSeenAppendOrder(init: seq<string>, y: string, keys: seq<string>)
    requires forall x :: x in keys <==> x in init
    requires forall i, j :: 0 <= i < j < |keys| ==> FirstIndex(init, keys[i]) < FirstIndex(init, keys[j])
    ensures forall i :: 0 <= i < |keys| ==> FirstIndex(init + [y], keys[i]) == FirstIndex(init, keys[i]) < |init|
    ensures y !in init ==> FirstIndex(init + [y], y) == |init|
  {
    forall i | 0 <= i < |keys|
      ensures FirstIndex(init + [y], keys[i]) == FirstIndex(init, keys[i]) < |init|
    {
      FirstIndexAppend(init, y, keys[i]);
    }
    if y !in init {
      assert (init + [y])[..|init|] == init;
      FirstIndexUnique(init + [y], y, |init|);
    }
  }

  /** The sum of the counts of the given keys. */
  function TotalCount(keys: seq<string>, labels: seq<string>): nat
  {
    if keys == [] then 0
    else TotalCount(keys[..|keys| - 1], labels) + multiset(labels)[keys[|keys| - 1]]
  }

  lemma {:induction false} TotalCountAppendLabel(keys: seq<string>, labels: seq<string>, y: string)
    requires Distinct(keys)
    ensures TotalCount(keys, labels + [y]) == TotalCount(keys, labels) + (if y in keys then 1 else 0)
  {
    if keys != [] {
      var init := keys[..|keys| - 1];
      assert keys == init + [keys[|keys| - 1]];
      TotalCountAppendLabel(init, labels, y);
      assert multiset(labels + [y]) == multiset(labels) + multiset{y};
    }
  }

  /** Count conservation: every line increments exactly one counter, so the
      reported counts add up to the number of lines. */
  lemma {:induction false} CountsSumToLines(labels: seq<string>)
    ensures TotalCount(FirstSeen(labels), labels) == |labels|
  {
    if labels != [] {
      var init := labels[..|labels| - 1];
      var y := labels[|labels| - 1];
      assert labels == init + [y];
      var keys := FirstSeen(init);
      CountsSumToLines(init);
      TotalCountAppendLabel(keys, init, y);
      if y !in keys {
        assert (keys + [y])[..|keys|] == keys;
        assert multiset(labels)[y] == multiset(init)[y] + 1;
      }
    }
  }

  /** What the counter holds after the given labels: each label seen and
      the number of its occurrences. */
  ghost function Tally(seen: seq<string>): map<string, nat>
  {
    map x | x in seen :: multiset(seen)[x]
  }

  /** Counting one more label: it enters with count 1 or its count grows by 1. */
  lemma TallyAppend(seen: seq<string>, a: string)
    ensures var t := Tally(seen);
            t[a := (if a in t then t[a] else 0) + 1] == Tally(seen + [a])
  {
    var t, t' := Tally(seen), Tally(seen + [a]);
    var u := t[a := (if a in t then t[a] else 0) + 1];
    assert multiset(seen + [a]) == multiset(seen) + multiset{a};
    assert u.Keys == t'.Keys;
    forall x | x in u
      ensures u[x] == t'[x]
    {
      if x == a && a !in t {
        assert multiset(seen)[a] == 0;
      }
    }
  }

  /** The key order after one more label: unchanged, or the new label last. */
  lemma FirstSeenAppend(seen: seq<string>, a: string)
    ensures FirstSeen(seen + [a]) == if a in FirstSeen(seen) then FirstSeen(seen) else FirstSeen(seen) + [a]
  {
    assert (seen + [a])[..|seen|] == seen;
  }

  /** The number of lines whose label is x, counted position by position. */
  function Occurrences(labels: seq<string>, x: string): (n: nat)
    ensures n <= |labels|
  {
    if labels == [] then 0
    else Occurrences(labels[..|labels| - 1], x) + (if labels[|labels| - 1] == x then 1 else 0)
  }

  /** The tally of a label is the number of lines that carry it. */
  lemma {:induction false} TallyCountsOccurrences(labels: seq<string>, x: string)
    ensures x in Tally(labels) <==> Occurrences(labels, x) > 0
    ensures x in Tally(labels) ==> Tally(labels)[x] == Occurrences(labels, x)
  {
    if labels != [] {
      var init, y := labels[..|labels| - 1], labels[|labels| - 1];
      assert labels == init + [y];
      assert multiset(labels) == multiset(init) + multiset{y};
      TallyCountsOccurrences(init, x);
      assert x in init ==> x in labels;
    }
  }

  /** One line of the count file. */
  function CountLine(attribute: string, count: nat): string
  {
    attribute + ": " + NatToDecimal(count)
  }

  /** The count file for a sequence of labels: one line per distinct label, in
      first-seen order, with the number of lines that carry it. */
  function Report(labels: seq<string>): (report: seq<string>)
    ensures |report| == |FirstSeen(labels)|
  {
    var keys := FirstSeen(labels);
    seq(|keys|, i requires 0 <= i < |keys| => CountLine(keys[i], multiset(labels)[keys[i]]))
  }

  /** Lines built from the first-seen keys and their tallies are the report. */
  lemma ReportFromTally(labels: seq<string>, keys: seq<string>, counts: map<string, nat>, report: seq<string>)
    requires keys == FirstSeen(labels) && counts == Tally(labels)
    requires |report| == |keys|
    requires forall j :: 0 <= j < |keys| ==> keys[j] in counts && report[j] == CountLine(keys[j], counts[keys[j]])
    ensures report == Report(labels)
  {
    var expected := Report(labels);
    forall j | 0 <= j < |keys|
      ensures report[j] == expected[j]
    {
      assert counts[keys[j]] == multiset(labels)[keys[j]];
    }
  }

  /** Entry j of the count file names the j-th label in first-seen order
      and the number of lines that carry it, which is at least one. */
  lemma ReportEntry(labels: seq<string>, j: nat)
    requires j < |FirstSeen(labels)|
    ensures Report(labels)[j] == CountLine(FirstSeen(labels)[j], Occurrences(labels, FirstSeen(labels)[j]))
    ensures Occurrences(labels, FirstSeen(labels)[j]) >= 1
  {
    var x := FirstSeen(labels)[j];
    TallyCountsOccurrences(labels, x);
  }

  /** collections.Counter restricted to what the script uses: keys in
      insertion order and their counts. */
  class Counter {
    var keys: seq<string>
    var counts: map<string, nat>

    ghost predicate Valid()
      reads this
    {
      Distinct(keys) && forall x :: x in counts <==> x in keys
    }

    constructor ()
      ensures Valid() && keys == [] && counts == map[]
    {
      keys := [];
      counts := map[];
    }

    /** counter[label] += 1: a missing label reads as 0 and is inserted last. */
    method Increment(attribute: string)
      requires Valid()
      modifies this
      ensures Valid()
      ensures keys == if attribute in old(keys) then old(keys) else old(keys) + [attribute]
      ensures counts == old(counts)[attribute := (if attribute in old(counts) then old(counts)[attribute] else 0) + 1]
    {
      if attribute in counts {
        counts := counts[attribute := counts[attribute] + 1];
      } else {
        keys := keys + [attribute];
        counts := counts[attribute := 1];
      }
    }
  }

  /** count_attributes without the file handling: the lines as readlines
      returns them, and the count file's lines. */
  method CountAttributes(lines: seq<string>) returns (report: seq<string>)
    ensures report == Report(Labels(lines))
  {
    var keys, counts := CountLabels(lines);
    report := WriteCounts(keys, counts);
    ReportFromTally(Labels(lines), keys, counts, report);
  }

  /** The counting loop: one increment per line, of the line's label. */
  method CountLabels(lines: seq<string>) returns (keys: seq<string>, counts: map<string, nat>)
    ensures keys == FirstSeen(Labels(lines)) && counts == Tally(Labels(lines))
    ensures forall j :: 0 <= j < |keys| ==> keys[j] in counts
  {
    var counter := new Counter();
    var i := 0;
    while i < |lines|
      invariant i <= |lines| && counter.Valid()
      invariant counter.keys == FirstSeen(Labels(lines[..i]))
      invariant counter.counts == Tally(Labels(lines[..i]))
    {
      var attribute := ExtractLabel(lines[i]);
      ghost var seen := Labels(lines[..i]);
      LabelsAppend(lines, i);
      TallyAppend(seen, attribute);
      FirstSeenAppend(seen, attribute);
      counter.Increment(attribute);
      i := i + 1;
    }
    assert lines[..i] == lines;
    keys, counts := counter.keys, counter.counts;
  }

  /** The writing loop: one count line per key, in key order. */
  method WriteCounts(keys: seq<string>, counts: map<string, nat>) returns (report: seq<string>)
    requires forall j :: 0 <= j < |keys| ==> keys[j] in counts
    ensures |report| == |keys|
    ensures forall j :: 0 <= j < |keys| ==> report[j] == CountLine(keys[j], counts[keys[j]])
  {
    report := [];
    var k := 0;
    while k < |keys|
      invariant k <= |keys| && |report| == k
      invariant forall j :: 0 <= j < k ==> report[j] == CountLine(keys[j], counts[keys[j]])
    {
      report := report + [CountLine(keys[k], counts[keys[k]])];
      k := k + 1;
    }
  }

  // ---------------------------------------------------------------------
  // Reading back what the matcher wrote
  // ---------------------------------------------------------------------

  /** An attribute the tally reads back unchanged: no white space at its
      ends, no marker and no line break inside. */
  predicate CleanAttribute(a: string)
  {
    Unpadded(a) && !Contains(a, Marker) && NoLineBreak(a)
  }

  lemma ExtractAfterMarker(x: string, a: string)
    requires Unpadded(a) && !Contains(a, Marker)
    ensures ExtractLabel(x + Marker + a + "\n") == a
  {
    AppendKeepsAbsent(a, '\n', Marker);
    assert x + Marker + a + "\n" == x + Marker + (a + "\n");
    LastPieceAfterSeparator(x, Marker, a + "\n");
    StripPadded("", a, "\n");
    assert "" + a + "\n" == a + "\n";
  }

  /** A line written by the v4.4 matcher, read back with its newline, yields
      the attribute it was written with. */
  lemma ReadBackV44Line(profile: string, row: nat, attribute: string)
    requires Unpadded(attribute) && !Contains(attribute, Marker)
    ensures ExtractLabel(HmmerRunV44.RowLine(profile, row, attribute) + "\n") == attribute
  {
    var x := profile + " - Row " + NatToDecimal(row) + ": Closest point ";
    assert HmmerRunV44.RowLine(profile, row, attribute) == x + Marker + attribute;
    ExtractAfterMarker(x, attribute);
  }

  /** The same for a line written by the v4 matcher. */
  lemma ReadBackV4Line(row: nat, attribute: string)
    requires Unpadded(attribute) && !Contains(attribute, Marker)
    ensures ExtractLabel(HmmerRunV4.RowLine(row, attribute) + "\n") == attribute
  {
    var x := "Row " + NatToDecimal(row) + ": Closest point ";
    assert HmmerRunV4.RowLine(row, attribute) == x + Marker + attribute;
    ExtractAfterMarker(x, attribute);
  }

  lemma DigitsHaveNoLineBreak(n: nat)
    ensures NoLineBreak(NatToDecimal(n))
  {
  }

  /** A v4.4 line holds no line break when its profile name and attribute hold none. */
  lemma RowLineV44Unbroken(profile: string, row: nat, attribute: string)
    requires NoLineBreak(profile) && NoLineBreak(attribute)
    ensures NoLineBreak(HmmerRunV44.RowLine(profile, row, attribute))
  {
    DigitsHaveNoLineBreak(row);
  }

  /** A v4 line holds no line break when its attribute holds none. */
  lemma RowLineV4Unbroken(row: nat, attribute: string)
    requires NoLineBreak(attribute)
    ensures NoLineBreak(HmmerRunV4.RowLine(row, attribute))
  {
    DigitsHaveNoLineBreak(row);
  }

  predicate CleanTable(refs: seq<RefPoint>)
  {
    forall j :: 0 <= j < |refs| ==> CleanAttribute(refs[j].attribute)
  }

  /** Reading a profile's block back gives its matched attributes in row order. */
  lemma ReadBackProfileLines(profile: string, hits: seq<HitRow>, refs: seq<RefPoint>, log10: real -> real)
    requires |hits| == 0 || |refs| > 0
    requires NoLineBreak(profile) && CleanTable(refs)
    ensures Labels(ReadLines(HmmerRunV44.ProfileLines(profile, hits, refs, log10))) == HmmerRunV44.MatchedAttributes(hits, refs, log10)
  {
    var lines := HmmerRunV44.ProfileLines(profile, hits, refs, log10);
    forall i | 0 <= i < |lines|
      ensures NoLineBreak(lines[i])
    {
      RowLineV44Unbroken(profile, i + 1, HmmerRunV44.MatchedAttribute(hits[i], refs, log10));
    }
    ReadLinesOfUnbroken(lines);
    var read := Terminated(lines);
    var attrs := HmmerRunV44.MatchedAttributes(hits, refs, log10);
    forall i | 0 <= i < |hits|
      ensures Labels(read)[i] == attrs[i]
    {
      var a := HmmerRunV44.MatchedAttribute(hits[i], refs, log10);
      assert read[i] == HmmerRunV44.RowLine(profile, i + 1, a) + "\n";
      ReadBackV44Line(profile, i + 1, a);
    }
  }

  /** Reading the v4 save file back gives its matched attributes in row order. */
  lemma ReadBackSaveLines(hits: seq<HitRow>, refs: seq<RefPoint>, log10: real -> real)
    requires |hits| == 0 || |refs| > 0
    requires CleanTable(refs)
    ensures Labels(ReadLines(HmmerRunV4.SaveLines(hits, refs, log10))) == HmmerRunV4.MatchedAttributes(hits, refs, log10)
  {
    var lines := HmmerRunV4.SaveLines(hits, refs, log10);
    forall i | 0 <= i < |lines|
      ensures NoLineBreak(lines[i])
    {
      RowLineV4Unbroken(i + 1, HmmerRunV4.MatchedAttribute(hits[i], refs, log10));
    }
    ReadLinesOfUnbroken(lines);
    var read := Terminated(lines);
    var attrs := HmmerRunV4.MatchedAttributes(hits, refs, log10);
    forall i | 0 <= i < |hits|
      ensures Labels(read)[i] == attrs[i]
    {
      var a := HmmerRunV4.MatchedAttribute(hits[i], refs, log10);
      assert read[i] == HmmerRunV4.RowLine(i + 1, a) + "\n";
      ReadBackV4Line(i + 1, a);
    }
  }

  /** Reading back a file made of two blocks of lines reads back each block. */
  lemma LabelsOfReadConcat(a: seq<string>, b: seq<string>)
    ensures Labels(ReadLines(a + b)) == Labels(ReadLines(a)) + Labels(ReadLines(b))
  {
    ReadLinesAppend(a, b);
    var x, y := ReadLines(a), ReadLines(b);
    var whole, parts := Labels(x + y), Labels(x) + Labels(y);
    forall j | 0 <= j < |x| + |y|
      ensures whole[j] == parts[j]
    {
      if j < |x| {
        assert (x + y)[j] == x[j];
      } else {
        assert (x + y)[j] == y[j - |x|];
      }
    }
  }

  /** The attributes matched by a v4.4 run for its first k jobs, concatenated in job order. */
  function RunAttributes(jobs: seq<HmmerRunV44.Job>, log10: real -> real, k: nat): seq<string>
    requires k <= |jobs|
    requires forall j :: 0 <= j < k ==> !HmmerRunV44.Aborts(jobs[j])
  {
    if k == 0 then []
    else
      assert !HmmerRunV44.Aborts(jobs[k - 1]);
      RunAttributes(jobs, log10, k - 1) + HmmerRunV44.MatchedAttributes(jobs[k - 1].hits, jobs[k - 1].refs, log10)
  }

  /** Reading back the save file of a v4.4 run yields, line by line, the
      attribute matched for every hit row of every completed profile. */
  lemma {:induction false} ReadBackRun(jobs: seq<HmmerRunV44.Job>, log10: real -> real, k: nat)
    requires k <= |jobs|
    requires forall j :: 0 <= j < k ==> !HmmerRunV44.Aborts(jobs[j])
    requires forall j :: 0 <= j < k ==> NoLineBreak(jobs[j].profile) && CleanTable(jobs[j].refs)
    ensures Labels(ReadLines(HmmerRunV44.RunLines(jobs, log10, k))) == RunAttributes(jobs, log10, k)
  {
    if k > 0 {
      var job := jobs[k - 1];
      assert !HmmerRunV44.Aborts(job);
      var before := HmmerRunV44.RunLines(jobs, log10, k - 1);
      var block := HmmerRunV44.ProfileLines(job.profile, job.hits, job.refs, log10);
      ReadBackRun(jobs, log10, k - 1);
      ReadBackProfileLines(job.profile, job.hits, job.refs, log10);
      LabelsOfReadConcat(before, block);
    }
  }

  /** One matched attribute per hit row of the completed jobs. */
  lemma {:induction false} RunAttributesCount(jobs: seq<HmmerRunV44.Job>, log10: real -> real, k: nat)
    requires k <= |jobs|
    requires forall j :: 0 <= j < k ==> !HmmerRunV44.Aborts(jobs[j])
    ensures |RunAttributes(jobs, log10, k)| == HmmerRunV44.HitCount(jobs, k)
  {
    if k > 0 {
      RunAttributesCount(jobs, log10, k - 1);
    }
  }

  /** Tallying the save file of a v4.4 run: the counts add up to the number
      of hit rows of the completed profiles. */
  lemma RunTallyConserved(jobs: seq<HmmerRunV44.Job>, log10: real -> real, k: nat)
    requires k <= |jobs|
    requires forall j :: 0 <= j < k ==> !HmmerRunV44.Aborts(jobs[j])
    requires forall j :: 0 <= j < k ==> NoLineBreak(jobs[j].profile) && CleanTable(jobs[j].refs)
    ensures var labels := Labels(ReadLines(HmmerRunV44.RunLines(jobs, log10, k)));
            TotalCount(FirstSeen(labels), labels) == HmmerRunV44.HitCount(jobs, k)
  {
    var labels := Labels(ReadLines(HmmerRunV44.RunLines(jobs, log10, k)));
    CountsSumToLines(labels);
    ReadBackRun(jobs, log10, k);
    RunAttributesCount(jobs, log10, k);
  }
}
