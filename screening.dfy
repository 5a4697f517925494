/**
 * The screening run of app.py (lines 75-108): check the uploads, read the
 * job description, score every resume that reads to some text and is
 * stored, and rank the records by descending score.
 *
 * What lies outside the loop is a parameter: the models answer through
 * `Models`, and the disk through `Storage` (the uuid drawn for each resume's
 * save and whether its write succeeds).
 */
module Screening {

  import opened Wrappers
  import opened DataParser
  import opened Ranking
  import Relevance

  /** The disk as the saves of one run see it, indexed by the resume's position in the upload list. */
  datatype Storage = Storage(uuid: nat -> string, writeSucceeds: nat -> bool)

  /** How a press of "Run Screening" ends. */
  datatype Outcome =
    | MissingUploads              // no job description or no resume was uploaded
    | JobDescriptionUnreadable    // the job description parsed to None or ""
    | Ranked(candidates: seq<Candidate>)

  /** Python's truth value of the text `parse_document` returns. */
  predicate HasText(t: Option<string>) {
    t.Some? && t.value != ""
  }

  /** Where resume `i` is stored, if its save succeeds. */
  function StoredPath(resumes: seq<Upload>, i: nat, disk: Storage): Option<string>
    requires i < |resumes|
  {
    SaveUploadedFile(resumes[i].name, disk.uuid(i), disk.writeSucceeds(i))
  }

  /** Resume `i` reads to some text and is stored, so it is scored. */
  predicate Accepted(resumes: seq<Upload>, i: nat, disk: Storage)
    requires i < |resumes|
  {
    HasText(DocumentText(resumes[i])) && StoredPath(resumes, i, disk).Some?
  }

  /** The record built for an accepted resume. */
  function Record(m: Relevance.Models, jdText: string, resumes: seq<Upload>, i: nat, disk: Storage,
                  skillsWeight: int, experienceWeight: int): Candidate
    requires i < |resumes| && Accepted(resumes, i, disk)
  {
    var text := DocumentText(resumes[i]).value;
    Candidate(resumes[i].name,
              Relevance.RelevanceScore(m, jdText, text, skillsWeight, experienceWeight),
              m.explain(jdText, text),
              StoredPath(resumes, i, disk).value)
  }

  /** The records of the accepted resumes among the first `n`, in upload order. */
  function Collected(m: Relevance.Models, jdText: string, resumes: seq<Upload>, n: nat, disk: Storage,
                     skillsWeight: int, experienceWeight: int): seq<Candidate>
    requires n <= |resumes|
  {
    if n == 0 then []
    else Collected(m, jdText, resumes, n - 1, disk, skillsWeight, experienceWeight)
         + (if Accepted(resumes, n - 1, disk)
            then [Record(m, jdText, resumes, n - 1, disk, skillsWeight, experienceWeight)]
            else [])
  }

  /** How many of the first `n` resumes are accepted. */
  function AcceptedCount(resumes: seq<Upload>, n: nat, disk: Storage): nat
    requires n <= |resumes|
  {
    if n == 0 then 0
    else AcceptedCount(resumes, n - 1, disk) + (if Accepted(resumes, n - 1, disk) then 1 else 0)
  }

  /** What a screening run produces. */
  function ScreeningOutcome(m: Relevance.Models, jd: Option<Upload>, resumes: seq<Upload>, disk: Storage,
                            skillsWeight: int, experienceWeight: int): Outcome
  {
    if jd.None? || resumes == [] then MissingUploads
    else if !HasText(DocumentText(jd.value)) then JobDescriptionUnreadable
    else Ranked(SortByScoreDesc(Collected(m, DocumentText(jd.value).value, resumes, |resumes|, disk,
                                          skillsWeight, experienceWeight)))
  }

  /** The "Run Screening" handler: the checks, the loop with its two skips, and the sort. */
  method RunScreening(m: Relevance.Models, jd: Option<Upload>, resumes: seq<Upload>, disk: Storage,
                      skillsWeight: int, experienceWeight: int)
    returns (outcome: Outcome)
    ensures outcome == ScreeningOutcome(m, jd, resumes, disk, skillsWeight, experienceWeight)
  {
    if jd.None? || resumes == [] {
      return MissingUploads;
    }
    var jdText := ParseDocument(jd.value);
    if jdText.None? || jdText.value == "" {
      return JobDescriptionUnreadable;
    }
    var ranked: seq<Candidate> := [];
    for i := 0 to |resumes|
      invariant ranked == Collected(m, jdText.value, resumes, i, disk, skillsWeight, experienceWeight)
    {
      var resumeText := ParseDocument(resumes[i]);
      if resumeText.Some? && resumeText.value != "" {
        var filePath := SaveUploadedFile(resumes[i].name, disk.uuid(i), disk.writeSucceeds(i));
        if filePath.None? {
          continue;
        }
        var score, explanation, skills, years :=
          Relevance.GetRelevanceScore(m, jdText.value, resumeText.value, skillsWeight, experienceWeight);
        ranked := ranked + [Candidate(resumes[i].name, score, explanation, filePath.value)];
      }
    }
    ranked := SortByScoreDesc(ranked);
    outcome := Ranked(ranked);
  }

  // ---------------------------------------------------------------------------
  // The records

  /** One record per accepted resume: never more records than uploaded resumes. */
  lemma {:induction false} CollectedCount(m: Relevance.Models, jdText: string, resumes: seq<Upload>, n: nat,
                                          disk: Storage, skillsWeight: int, experienceWeight: int)
    requires n <= |resumes|
    ensures |Collected(m, jdText, resumes, n, disk, skillsWeight, experienceWeight)| == AcceptedCount(resumes, n, disk) <= n
  {
    if n > 0 {
      CollectedCount(m, jdText, resumes, n - 1, disk, skillsWeight, experienceWeight);
    }
  }

  /** Every record is the record of an accepted resume. */
  lemma {:induction false} RecordsComeFromAcceptedResumes(m: Relevance.Models, jdText: string, resumes: seq<Upload>,
                                                          n: nat, disk: Storage, skillsWeight: int,
                                                          experienceWeight: int, c: Candidate)
    requires n <= |resumes|
    requires c in Collected(m, jdText, resumes, n, disk, skillsWeight, experienceWeight)
    ensures exists i :: 0 <= i < n && Accepted(resumes, i, disk)
                        && c == Record(m, jdText, resumes, i, disk, skillsWeight, experienceWeight)
  {
    var prev := Collected(m, jdText, resumes, n - 1, disk, skillsWeight, experienceWeight);
    if c in prev {
      RecordsComeFromAcceptedResumes(m, jdText, resumes, n - 1, disk, skillsWeight, experienceWeight, c);
    } else {
      assert Accepted(resumes, n - 1, disk);
      assert c == Record(m, jdText, resumes, n - 1, disk, skillsWeight, experienceWeight);
    }
  }

  /** Every accepted resume has its record. */
  lemma {:induction false} AcceptedResumesAreRecorded(m: Relevance.Models, jdText: string, resumes: seq<Upload>,
                                                      n: nat, disk: Storage, skillsWeight: int,
                                                      experienceWeight: int, i: nat)
    requires i < n <= |resumes| && Accepted(resumes, i, disk)
    ensures Record(m, jdText, resumes, i, disk, skillsWeight, experienceWeight)
            in Collected(m, jdText, resumes, n, disk, skillsWeight, experienceWeight)
  {
    if i < n - 1 {
      AcceptedResumesAreRecorded(m, jdText, resumes, n - 1, disk, skillsWeight, experienceWeight, i);
    }
  }

  /** A resume that reads to no text, or whose save fails, leaves the records as they were. */
  lemma SkippedResumeAddsNothing(m: Relevance.Models, jdText: string, resumes: seq<Upload>, i: nat, disk: Storage,
                                 skillsWeight: int, experienceWeight: int)
    requires i < |resumes|
    requires !HasText(DocumentText(resumes[i])) || !disk.writeSucceeds(i)
    ensures Collected(m, jdText, resumes, i + 1, disk, skillsWeight, experienceWeight)
         == Collected(m, jdText, resumes, i, disk, skillsWeight, experienceWeight)
  {
  }

  /** A record's path is the stored file: the storage directory, the uuid, then `_` and the file name. */
  lemma RecordPathNamesTheUpload(m: Relevance.Models, jdText: string, resumes: seq<Upload>, i: nat, disk: Storage,
                                 skillsWeight: int, experienceWeight: int)
    requires i < |resumes| && Accepted(resumes, i, disk)
    ensures var c := Record(m, jdText, resumes, i, disk, skillsWeight, experienceWeight);
            c.filename == resumes[i].name && c.filePath == "resumes/" + disk.uuid(i) + "_" + resumes[i].name
  {
  }

  /** With a cosine in [0,1] and weights in 0..100 summing to at most 100, every record scores in [0,1]. */
  lemma {:induction false} CollectedScoresInUnitInterval(m: Relevance.Models, jdText: string, resumes: seq<Upload>,
                                                         n: nat, disk: Storage, skillsWeight: int,
                                                         experienceWeight: int)
    requires n <= |resumes|
    requires forall resume :: 0.0 <= m.cosine(jdText, resume) <= 1.0
    requires 0 <= skillsWeight && 0 <= experienceWeight && skillsWeight + experienceWeight <= 100
    ensures forall c :: c in Collected(m, jdText, resumes, n, disk, skillsWeight, experienceWeight)
                        ==> 0.0 <= c.score <= 1.0
  {
    if n > 0 {
      CollectedScoresInUnitInterval(m, jdText, resumes, n - 1, disk, skillsWeight, experienceWeight);
      if Accepted(resumes, n - 1, disk) {
        Relevance.RelevanceInUnitInterval(m, jdText, DocumentText(resumes[n - 1]).value, skillsWeight, experienceWeight);
      }
    }
  }

  // ---------------------------------------------------------------------------
  // The outcome

  /** Without both uploads nothing is screened; an unreadable job description stops the run. */
  lemma EarlyStops(m: Relevance.Models, jd: Option<Upload>, resumes: seq<Upload>, disk: Storage,
                   skillsWeight: int, experienceWeight: int)
    ensures var r := ScreeningOutcome(m, jd, resumes, disk, skillsWeight, experienceWeight);
            (r == MissingUploads <==> jd.None? || resumes == [])
            && (r == JobDescriptionUnreadable <==> jd.Some? && resumes != [] && !HasText(DocumentText(jd.value)))
  {
  }

  /**
   * A ranking lists the records of the accepted resumes, as many as there
   * are, by descending score, with equal scores in upload order.
   */
  lemma RankingIsOrderedPermutation(m: Relevance.Models, jd: Option<Upload>, resumes: seq<Upload>, disk: Storage,
                                    skillsWeight: int, experienceWeight: int)
    requires ScreeningOutcome(m, jd, resumes, disk, skillsWeight, experienceWeight).Ranked?
    ensures var ranked := ScreeningOutcome(m, jd, resumes, disk, skillsWeight, experienceWeight).candidates;
            var records := Collected(m, DocumentText(jd.value).value, resumes, |resumes|, disk,
                                     skillsWeight, experienceWeight);
            && SortedByScoreDesc(ranked)
            && multiset(ranked) == multiset(records)
            && (forall v :: WithScore(ranked, v) == WithScore(records, v))
            && |ranked| == AcceptedCount(resumes, |resumes|, disk) <= |resumes|
  {
    var jdText := DocumentText(jd.value).value;
    var records := Collected(m, jdText, resumes, |resumes|, disk, skillsWeight, experienceWeight);
    SortIsSorted(records);
    SortIsPermutation(records);
    forall v
      ensures WithScore(SortByScoreDesc(records), v) == WithScore(records, v)
    {
      SortIsStable(records, v);
    }
    CollectedCount(m, jdText, resumes, |resumes|, disk, skillsWeight, experienceWeight);
  }

  /** A resume with no text in a run whose only other resume is accepted leaves a ranking of one. */
  lemma UnreadableResumeIsSkipped(m: Relevance.Models, jd: Upload, good: Upload, empty: Upload, disk: Storage,
                                  skillsWeight: int, experienceWeight: int)
    requires HasText(DocumentText(jd))
    requires HasText(DocumentText(good)) && disk.writeSucceeds(0)
    requires !HasText(DocumentText(empty))
    ensures var r := ScreeningOutcome(m, Some(jd), [good, empty], disk, skillsWeight, experienceWeight);
            r.Ranked? && |r.candidates| == 1 && r.candidates[0].filename == good.name
  {
    var resumes := [good, empty];
    var jdText := DocumentText(jd).value;
    assert Accepted(resumes, 0, disk);
    assert !Accepted(resumes, 1, disk);
    var records := Collected(m, jdText, resumes, 2, disk, skillsWeight, experienceWeight);
    assert Collected(m, jdText, resumes, 1, disk, skillsWeight, experienceWeight)
        == [Record(m, jdText, resumes, 0, disk, skillsWeight, experienceWeight)];
    assert records == [Record(m, jdText, resumes, 0, disk, skillsWeight, experienceWeight)];
    assert SortByScoreDesc(records) == records;
  }
}
