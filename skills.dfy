/**
 * `extract_skills` (utils/nlp_processor.py). The job's SKILL entities are
 * lower-cased into a set; every token of the (lower-cased) resume whose text
 * is in that set, and every noun chunk whose lower-cased text is in it, is
 * appended to a list, and the list is returned without duplicates.
 *
 * The language model's tokeniser and noun-chunker are not modelled: their
 * outputs, the token texts and the noun-chunk texts, are inputs.
 */
module Skills {

  import opened TextUtil

  /** `{skill.lower() for skill in job_skills}`. */
  function LowerSkillSet(jobSkills: seq<string>): (s: set<string>)
    ensures |s| <= |jobSkills|
  {
    if jobSkills == [] then {}
    else LowerSkillSet(jobSkills[..|jobSkills| - 1]) + {Lower(jobSkills[|jobSkills| - 1])}
  }

  /** The set holds exactly the lower-cased job skills. */
  lemma {:induction false} LowerSkillSetMembers(jobSkills: seq<string>, x: string)
    ensures x in LowerSkillSet(jobSkills) <==> exists k :: 0 <= k < |jobSkills| && Lower(jobSkills[k]) == x
    decreases |jobSkills|
  {
    if jobSkills != [] {
      var init := jobSkills[..|jobSkills| - 1];
      LowerSkillSetMembers(init, x);
      assert forall k :: 0 <= k < |init| ==> init[k] == jobSkills[k];
    }
  }

  /** Token texts kept by the first loop. */
  function TokenMatches(tokens: seq<string>, wanted: set<string>): set<string> {
    set t | t in tokens && t in wanted
  }

  /** Lower-cased noun-chunk texts kept by the second loop. */
  function ChunkMatches(chunks: seq<string>, wanted: set<string>): set<string> {
    set c | c in chunks && Lower(c) in wanted :: Lower(c)
  }

  /** The skills `extract_skills` reports, as a set. */
  function MatchedSkills(tokens: seq<string>, chunks: seq<string>, jobSkills: seq<string>): set<string> {
    var wanted := LowerSkillSet(jobSkills);
    TokenMatches(tokens, wanted) + ChunkMatches(chunks, wanted)
  }

  function Elements(s: seq<string>): set<string> {
    set x | x in s
  }

  lemma ElementsAppend(s: seq<string>, x: string)
    ensures Elements(s + [x]) == Elements(s) + {x}
  {
  }

  lemma TokenStep(tokens: seq<string>, i: nat, wanted: set<string>)
    requires i < |tokens|
    ensures TokenMatches(tokens[..i + 1], wanted)
         == TokenMatches(tokens[..i], wanted) + (if tokens[i] in wanted then {tokens[i]} else {})
  {
    assert tokens[..i + 1] == tokens[..i] + [tokens[i]];
  }

  lemma ChunkStep(chunks: seq<string>, i: nat, wanted: set<string>)
    requires i < |chunks|
    ensures ChunkMatches(chunks[..i + 1], wanted)
         == ChunkMatches(chunks[..i], wanted) + (if Lower(chunks[i]) in wanted then {Lower(chunks[i])} else {})
  {
    assert chunks[..i + 1] == chunks[..i] + [chunks[i]];
  }

  predicate NoDuplicates(s: seq<string>) {
    forall i, j :: 0 <= i < j < |s| ==> s[i] != s[j]
  }

  /**
   * `extract_skills(text, job_skills, nlp_model)`, given the token texts and
   * noun-chunk texts of `text.lower()`.
   */
  method ExtractSkills(tokens: seq<string>, chunks: seq<string>, jobSkills: seq<string>)
    returns (skills: seq<string>)
    ensures forall x :: x in skills <==> x in MatchedSkills(tokens, chunks, jobSkills)
    ensures NoDuplicates(skills)
    ensures |skills| == |MatchedSkills(tokens, chunks, jobSkills)|
  {
    var wanted := LowerSkillSet(jobSkills);
    var extracted: seq<string> := [];
    for i := 0 to |tokens|
      invariant Elements(extracted) == TokenMatches(tokens[..i], wanted)
    {
      TokenStep(tokens, i, wanted);
      if tokens[i] in wanted {
        ElementsAppend(extracted, tokens[i]);
        extracted := extracted + [tokens[i]];
      }
    }
    assert tokens[..|tokens|] == tokens;
    ghost var fromTokens := Elements(extracted);
    for i := 0 to |chunks|
      invariant Elements(extracted) == fromTokens + ChunkMatches(chunks[..i], wanted)
    {
      ChunkStep(chunks, i, wanted);
      var c := Lower(chunks[i]);
      if c in wanted {
        ElementsAppend(extracted, c);
        extracted := extracted + [c];
      }
    }
    assert chunks[..|chunks|] == chunks;

    // list(set(extracted))
    assert Elements(extracted) == MatchedSkills(tokens, chunks, jobSkills);
    skills := ListOfSet(extracted);
  }

  /**
   * `list(set(items))`: every item once. The order follows Python's string
   * hashing, so the model lets it be any order.
   */
  method ListOfSet(items: seq<string>) returns (r: seq<string>)
    ensures forall x :: x in r <==> x in items
    ensures NoDuplicates(r)
    ensures |r| == |Elements(items)|
  {
    var rest := Elements(items);
    ghost var done: set<string> := {};
    r := [];
    while rest != {}
      invariant done !! rest
      invariant done + rest == Elements(items)
      invariant forall x :: x in r <==> x in done
      invariant NoDuplicates(r)
      invariant |r| == |done|
      decreases |rest|
    {
      var x :| x in rest;
      r := r + [x];
      done := done + {x};
      rest := rest - {x};
    }
  }

  /** The skills found are a subset of the lower-cased job skills. */
  lemma MatchedAreJobSkills(tokens: seq<string>, chunks: seq<string>, jobSkills: seq<string>)
    ensures MatchedSkills(tokens, chunks, jobSkills) <= LowerSkillSet(jobSkills)
  {
  }

  lemma {:induction false} SubsetCardinality(a: set<string>, b: set<string>)
    requires a <= b
    ensures |a| <= |b|
    decreases |b|
  {
    if a != {} {
      var x :| x in a;
      SubsetCardinality(a - {x}, b - {x});
    }
  }

  /** No more skills are found than the job description names. */
  lemma MatchedCountBounded(tokens: seq<string>, chunks: seq<string>, jobSkills: seq<string>)
    ensures |MatchedSkills(tokens, chunks, jobSkills)| <= |jobSkills|
  {
    MatchedAreJobSkills(tokens, chunks, jobSkills);
    SubsetCardinality(MatchedSkills(tokens, chunks, jobSkills), LowerSkillSet(jobSkills));
  }

  /** A job description without SKILL entities yields no skills, whatever the resume says. */
  lemma NoJobSkillsNoMatches(tokens: seq<string>, chunks: seq<string>)
    ensures MatchedSkills(tokens, chunks, []) == {}
  {
  }

  /** Every token of the resume that is a job skill is reported. */
  lemma TokenSkillReported(tokens: seq<string>, chunks: seq<string>, jobSkills: seq<string>, i: nat, k: nat)
    requires i < |tokens| && k < |jobSkills| && tokens[i] == Lower(jobSkills[k])
    ensures tokens[i] in MatchedSkills(tokens, chunks, jobSkills)
  {
    LowerSkillSetMembers(jobSkills, tokens[i]);
  }

  /** Every noun chunk whose lower-cased text is a job skill is reported, lower-cased. */
  lemma ChunkSkillReported(tokens: seq<string>, chunks: seq<string>, jobSkills: seq<string>, i: nat, k: nat)
    requires i < |chunks| && k < |jobSkills| && Lower(chunks[i]) == Lower(jobSkills[k])
    ensures Lower(chunks[i]) in MatchedSkills(tokens, chunks, jobSkills)
  {
    LowerSkillSetMembers(jobSkills, Lower(chunks[i]));
  }
}
