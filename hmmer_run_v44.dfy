/** The multi-profile driver (version 4.4): for every (HMM profile, reference
    table) pair, in order, it matches each hit row of the profile's scan
    against the table and appends one tagged line per row to one save file,
    which it removes first. The hmmscan run and its reformatting are the
    parameter `hmmscan`; the reference tables arrive already parsed. */
module HmmerRunV44 {
  import opened Text
  import opened Features
  import opened Matcher
  import opened Files

  /** How a run of the script ends: every row written; stopped by the
      ValueError idxmin raises on an empty reference table; or stopped by the
      EmptyDataError read_csv raises on a formatted hit table with no rows.
      The script dies on either error. */
  datatype Outcome = Completed | EmptyReferenceAbort | EmptyHitTableAbort

  /** The line written for one hit row: profile, 1-based row number, attribute. */
  function RowLine(profile: string, row: nat, attribute: string): string
  {
    profile + " - Row " + NatToDecimal(row) + ": Closest point " + "-> Attribute=" + attribute
  }

  /** The attribute of the reference row closest to the v4.4 target of a hit. */
  function MatchedAttribute(hit: HitRow, refs: seq<RefPoint>, log10: real -> real): string
    requires |refs| > 0
  {
    refs[ClosestIndex(refs, QueryV44(hit, log10))].attribute
  }

  /** The attributes matched for a profile's hit rows, in row order. */
  function MatchedAttributes(hits: seq<HitRow>, refs: seq<RefPoint>, log10: real -> real): (attrs: seq<string>)
    requires |hits| == 0 || |refs| > 0
    ensures |attrs| == |hits|
  {
    seq(|hits|, i requires 0 <= i < |hits| => MatchedAttribute(hits[i], refs, log10))
  }

  /** Everything one profile appends: one line per hit row, in row order. */
  function ProfileLines(profile: string, hits: seq<HitRow>, refs: seq<RefPoint>, log10: real -> real): (lines: seq<string>)
    requires |hits| == 0 || |refs| > 0
    ensures |lines| == |hits|
  {
    seq(|hits|, i requires 0 <= i < |hits| => RowLine(profile, i + 1, MatchedAttribute(hits[i], refs, log10)))
  }

  /** A row's line depends on that row and its position only: the lines for
      a longer hit table extend those for its prefix by the new row's line. */
  lemma ProfileLinesExtend(profile: string, hits: seq<HitRow>, h: HitRow, refs: seq<RefPoint>, log10: real -> real)
    requires |refs| > 0
    ensures ProfileLines(profile, hits + [h], refs, log10)
         == ProfileLines(profile, hits, refs, log10) + [RowLine(profile, |hits| + 1, MatchedAttribute(h, refs, log10))]
  {
    var hs := hits + [h];
    assert forall i :: 0 <= i < |hits| ==> hs[i] == hits[i];
  }

  /** find_closest_points_and_plot without the plotting: for every hit row,
      overwrite the distance column, take its idxmin and append the line.
      An empty reference table stops it at the first row, before anything
      is written. */
  method FindClosestPoints(hits: seq<HitRow>, tsv: seq<RefPoint>, save: TextFile, profile: string, log10: real -> real)
      returns (outcome: Outcome)
    modifies save
    ensures outcome == if |hits| > 0 && |tsv| == 0 then EmptyReferenceAbort else Completed
    ensures outcome == Completed ==> save.lines == old(save.lines) + ProfileLines(profile, hits, tsv, log10)
    ensures outcome == EmptyReferenceAbort ==> save.lines == old(save.lines)
  {
    ghost var start := save.lines;
    var table := new ReferenceTable(tsv);
    var i := 0;
    while i < |hits|
      invariant i <= |hits|
      invariant i == 0 || |tsv| > 0
      invariant table.points == tsv
      invariant save.lines == start + ProfileLines(profile, hits[..i], tsv, log10)
    {
      var target := QueryV44(hits[i], log10);
      var m := table.Closest(target);
      if m == EmptyReferenceSpace {
        return EmptyReferenceAbort;
      }
      var line := RowLine(profile, i + 1, tsv[m.index].attribute);
      save.WriteLine(line);
      ProfileLinesExtend(profile, hits[..i], hits[i], tsv, log10);
      assert hits[..i] + [hits[i]] == hits[..i + 1];
      assert save.lines == start + (ProfileLines(profile, hits[..i], tsv, log10) + [line]);
      i := i + 1;
    }
    assert hits[..i] == hits;
    return Completed;
  }

  /** os.path.basename(hmm_profile).split("/")[0] */
  function ProfileName(hmmPath: string): string
  {
    Split(Basename(hmmPath), "/")[0]
  }

  lemma SlashOccurrence(s: string, p: nat)
    requires OccursAt(s, "/", p)
    ensures p < |s| && s[p] == '/'
  {
    assert s[p..p + 1][0] == s[p];
  }

  lemma NoSlashNoOccurrence(s: string)
    requires '/' !in s
    ensures !Contains(s, "/")
  {
    if Contains(s, "/") {
      var p: nat :| p <= |s| && OccursAt(s, "/", p);
      SlashOccurrence(s, p);
      assert false;
    }
  }

  /** The profile name is the part of the path after its last '/': it holds
      no '/', and the path is some directory part followed by it. */
  lemma ProfileNameIsLastComponent(hmmPath: string)
    ensures ProfileName(hmmPath) == Basename(hmmPath)
    ensures '/' !in ProfileName(hmmPath)
    ensures hmmPath == hmmPath[..|hmmPath| - |ProfileName(hmmPath)|] + ProfileName(hmmPath)
    ensures |ProfileName(hmmPath)| < |hmmPath| ==> hmmPath[|hmmPath| - |ProfileName(hmmPath)| - 1] == '/'
  {
    var name := Basename(hmmPath);
    NoSlashNoOccurrence(name);
    SplitWithoutSeparator(name, "/");
  }

  /** One element of zip(args.hmm, args.tsv), as the loop body sees it: the
      profile name, the hit rows of its scan, and its reference table. */
  datatype Job = Job(profile: string, hits: seq<HitRow>, refs: seq<RefPoint>)

  /** zip(args.hmm, args.tsv) stops at the shorter list; the i-th HMM goes
      with the i-th table. */
  function Jobs(hmms: seq<string>, tsvs: seq<seq<RefPoint>>, hmmscan: string -> seq<HitRow>): (jobs: seq<Job>)
    ensures |jobs| <= |hmms| && |jobs| <= |tsvs|
    ensures |jobs| == |hmms| || |jobs| == |tsvs|
  {
    var n := if |hmms| <= |tsvs| then |hmms| else |tsvs|;
    seq(n, i requires 0 <= i < n => Job(ProfileName(hmms[i]), hmmscan(hmms[i]), tsvs[i]))
  }

  /** A profile whose scan has no rows makes read_csv raise; one whose
      reference table has no rows makes idxmin raise at its first hit row. */
  predicate Aborts(job: Job)
  {
    |job.hits| == 0 || |job.refs| == 0
  }

  /** The error that stops the run at an aborting job. */
  function AbortOf(job: Job): Outcome
  {
    if |job.hits| == 0 then EmptyHitTableAbort else EmptyReferenceAbort
  }

  /** The number of jobs processed to the end: all of them, or those before
      the first one that aborts the run. */
  function CompletedProfiles(jobs: seq<Job>): (k: nat)
    ensures k <= |jobs|
    ensures forall j :: 0 <= j < k ==> !Aborts(jobs[j])
    ensures k < |jobs| ==> Aborts(jobs[k])
  {
    if |jobs| == 0 || Aborts(jobs[0]) then 0
    else 1 + CompletedProfiles(jobs[1..])
  }

  /** The completed count is the first aborting job, or all jobs when none aborts. */
  lemma CompletedProfilesIs(jobs: seq<Job>, i: nat)
    requires i <= |jobs|
    requires forall j :: 0 <= j < i ==> !Aborts(jobs[j])
    requires i < |jobs| ==> Aborts(jobs[i])
    ensures CompletedProfiles(jobs) == i
  {
  }

  /** The save file after the first k jobs completed: their blocks of lines,
      concatenated in job order. */
  function RunLines(jobs: seq<Job>, log10: real -> real, k: nat): seq<string>
    requires k <= |jobs|
    requires forall j :: 0 <= j < k ==> !Aborts(jobs[j])
  {
    if k == 0 then []
    else
      assert !Aborts(jobs[k - 1]);
      RunLines(jobs, log10, k - 1) + ProfileLines(jobs[k - 1].profile, jobs[k - 1].hits, jobs[k - 1].refs, log10)
  }

  /** The number of hit rows of the first k jobs. */
  function HitCount(jobs: seq<Job>, k: nat): nat
    requires k <= |jobs|
  {
    if k == 0 then 0 else HitCount(jobs, k - 1) + |jobs[k - 1].hits|
  }

  /** No hit row is dropped and none is invented: the file has exactly one
      line per hit row of the completed jobs. */
  lemma {:induction false} RunLinesCount(jobs: seq<Job>, log10: real -> real, k: nat)
    requires k <= |jobs|
    requires forall j :: 0 <= j < k ==> !Aborts(jobs[j])
    ensures |RunLines(jobs, log10, k)| == HitCount(jobs, k)
  {
    if k > 0 {
      RunLinesCount(jobs, log10, k - 1);
    }
  }

  /** Later jobs only append: the lines of the first k1 jobs are a prefix of
      the lines of the first k2. */
  lemma {:induction false} RunLinesGrow(jobs: seq<Job>, log10: real -> real, k1: nat, k2: nat)
    requires k1 <= k2 <= |jobs|
    requires forall j :: 0 <= j < k2 ==> !Aborts(jobs[j])
    ensures RunLines(jobs, log10, k1) <= RunLines(jobs, log10, k2)
    decreases k2
  {
    if k1 < k2 {
      RunLinesGrow(jobs, log10, k1, k2 - 1);
    }
  }

  /** main without argument parsing: remove the save file, then process the
      zipped pairs in order. */
  method Run(hmms: seq<string>, tsvs: seq<seq<RefPoint>>, hmmscan: string -> seq<HitRow>, save: TextFile, log10: real -> real)
      returns (outcome: Outcome)
    modifies save
    ensures var jobs := Jobs(hmms, tsvs, hmmscan);
            outcome == if CompletedProfiles(jobs) == |jobs| then Completed else AbortOf(jobs[CompletedProfiles(jobs)])
    ensures var jobs := Jobs(hmms, tsvs, hmmscan);
            save.lines == RunLines(jobs, log10, CompletedProfiles(jobs))
  {
    save.Truncate();
    outcome := ProcessJobs(Jobs(hmms, tsvs, hmmscan), save, log10);
  }

  /** One pass of main's loop body: read the profile's hit table, which
      raises when it has no rows, then match and append its block. */
  method ProcessJob(job: Job, save: TextFile, log10: real -> real) returns (outcome: Outcome)
    modifies save
    ensures outcome == if Aborts(job) then AbortOf(job) else Completed
    ensures outcome == Completed ==> save.lines == old(save.lines) + ProfileLines(job.profile, job.hits, job.refs, log10)
    ensures outcome != Completed ==> save.lines == old(save.lines)
  {
    if |job.hits| == 0 {
      return EmptyHitTableAbort;
    }
    outcome := FindClosestPoints(job.hits, job.refs, save, job.profile, log10);
  }

  /** The loop of main: each job appends its profile's block; the first
      aborting job ends the run with what was written so far. */
  method ProcessJobs(jobs: seq<Job>, save: TextFile, log10: real -> real) returns (outcome: Outcome)
    modifies save
    ensures outcome == if CompletedProfiles(jobs) == |jobs| then Completed else AbortOf(jobs[CompletedProfiles(jobs)])
    ensures save.lines == old(save.lines) + RunLines(jobs, log10, CompletedProfiles(jobs))
  {
    var i := 0;
    while i < |jobs|
      invariant i <= |jobs|
      invariant forall j :: 0 <= j < i ==> !Aborts(jobs[j])
      invariant save.lines == old(save.lines) + RunLines(jobs, log10, i)
    {
      var job := jobs[i];
      ghost var before := RunLines(jobs, log10, i);
      outcome := ProcessJob(job, save, log10);
      if outcome != Completed {
        CompletedProfilesIs(jobs, i);
        return;
      }
      ghost var block := ProfileLines(job.profile, job.hits, job.refs, log10);
      assert RunLines(jobs, log10, i + 1) == before + block;
      assert old(save.lines) + before + block == old(save.lines) + (before + block);
      i := i + 1;
    }
    CompletedProfilesIs(jobs, i);
    return Completed;
  }
}
