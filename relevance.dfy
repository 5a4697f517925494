/**
 * The scoring part of `get_relevance_score` (utils/nlp_processor.py): the
 * skill-match ratio, the experience score, the effective experience weight,
 * the semantic weight and the composite that blends them.
 *
 * The language models are inputs, bundled in `Models`: the sentence-embedding
 * cosine similarity, spaCy's SKILL entities, tokens and noun chunks, and the
 * hosted model's explanation. Floating point is modelled by `real`.
 */
module Relevance {

  import opened TextUtil
  import Skills
  import Experience

  /** What the loaded models answer, each modelled as a function of its input texts. */
  datatype Models = Models(
    cosine: (string, string) -> real,      // cosine similarity of the two texts' embeddings
    skillEntities: string -> seq<string>,  // texts of the entities labelled SKILL
    tokens: string -> seq<string>,         // token texts
    nounChunks: string -> seq<string>,     // noun-chunk texts
    explain: (string, string) -> string)   // the hosted model's answer for a job and a resume

  /** `len(resume_skills) / len(job_skills_list)`, or 0 when the list is empty. */
  function SkillMatchScore(matched: nat, required: nat): (r: real)
    ensures required == 0 ==> r == 0.0
    ensures required > 0 ==> r * required as real == matched as real
    ensures matched <= required ==> 0.0 <= r <= 1.0
  {
    if required > 0 then matched as real / required as real else 0.0
  }

  /** `min(years / 10, 1)` when some experience was found, 0 otherwise. */
  function ExperienceScore(years: nat): (r: real)
    ensures 0.0 <= r <= 1.0
    ensures years == 0 <==> r == 0.0
    ensures r == 1.0 <==> years >= 10
    ensures years < 10 ==> r * 10.0 == years as real
  {
    if years > 0 then
      var ratio := years as real / 10.0;
      if ratio < 1.0 then ratio else 1.0
    else 0.0
  }

  /** `exp_w`: the caller's experience weight, forced to 0 when no experience was found. */
  function EffectiveExperienceWeight(years: nat, experienceWeight: int): (w: int)
    ensures years == 0 ==> w == 0
    ensures years > 0 ==> w == experienceWeight
  {
    if years > 0 then experienceWeight else 0
  }

  /** `semantic_weight`: what the other two weights leave of 100, never negative. */
  function SemanticWeight(skillsWeight: int, expWeight: int): (w: int)
    ensures w >= 0 && w >= 100 - (skillsWeight + expWeight)
    ensures w == 0 || w == 100 - (skillsWeight + expWeight)
  {
    var w := 100 - (skillsWeight + expWeight);
    if w < 0 then 0 else w
  }

  /** Three scores blended by weights given in percent. */
  function Blend(x: real, y: real, z: real, wx: real, wy: real, wz: real): real {
    (x * wx + y * wy + z * wz) / 100.0
  }

  /** `composite_score`: the cosine, the skill ratio and the experience score blended by their effective weights. */
  function Composite(cosine: real, skillScore: real, years: nat, skillsWeight: int, experienceWeight: int): real {
    var expW := EffectiveExperienceWeight(years, experienceWeight);
    var semanticW := SemanticWeight(skillsWeight, expW);
    Blend(cosine, skillScore, ExperienceScore(years), semanticW as real, skillsWeight as real, expW as real)
  }

  /** The SKILL entities of the job description, as `get_relevance_score` lists them. */
  function JobSkills(m: Models, jobDesc: string): seq<string> {
    m.skillEntities(jobDesc)
  }

  /** The skills of the resume that the job asks for, as a set. */
  function ResumeSkills(m: Models, jobDesc: string, resume: string): set<string> {
    Skills.MatchedSkills(m.tokens(Lower(resume)), m.nounChunks(Lower(resume)), JobSkills(m, jobDesc))
  }

  /** The first component `get_relevance_score` returns. */
  function RelevanceScore(m: Models, jobDesc: string, resume: string, skillsWeight: int, experienceWeight: int): real {
    var skillScore := SkillMatchScore(|ResumeSkills(m, jobDesc, resume)|, |JobSkills(m, jobDesc)|);
    Composite(m.cosine(jobDesc, resume), skillScore, Experience.ExtractYearsOfExperience(resume), skillsWeight, experienceWeight)
  }

  /**
   * `get_relevance_score(job_desc_text, resume_text, skills_weight,
   * experience_weight, ...)`: the composite score, the explanation, the
   * resume's skills and its years of experience.
   */
  method GetRelevanceScore(m: Models, jobDesc: string, resume: string, skillsWeight: int, experienceWeight: int)
    returns (score: real, explanation: string, skills: seq<string>, years: nat)
    ensures score == RelevanceScore(m, jobDesc, resume, skillsWeight, experienceWeight)
    ensures explanation == m.explain(jobDesc, resume)
    ensures forall x :: x in skills <==> x in ResumeSkills(m, jobDesc, resume)
    ensures Skills.NoDuplicates(skills)
    ensures years == Experience.ExtractYearsOfExperience(resume)
  {
    var cosineScore := m.cosine(jobDesc, resume);

    var jobSkillsList := m.skillEntities(jobDesc);
    var resumeText := Lower(resume);
    skills := Skills.ExtractSkills(m.tokens(resumeText), m.nounChunks(resumeText), jobSkillsList);
    var skillMatchScore: real;
    if |jobSkillsList| > 0 {
      skillMatchScore := |skills| as real / |jobSkillsList| as real;
    } else {
      skillMatchScore := 0.0;
    }
    assert skillMatchScore == SkillMatchScore(|ResumeSkills(m, jobDesc, resume)|, |jobSkillsList|);

    years := Experience.ExtractYearsOfExperience(resume);
    var experienceScore: real;
    var expW: int;
    if years > 0 {
      var ratio := years as real / 10.0;
      experienceScore := if ratio < 1.0 then ratio else 1.0;
      expW := experienceWeight;
    } else {
      experienceScore := 0.0;
      expW := 0;
    }
    assert experienceScore == ExperienceScore(years);
    assert expW == EffectiveExperienceWeight(years, experienceWeight);

    var totalEffectiveWeight := skillsWeight + expW;
    var semanticWeight := 100 - totalEffectiveWeight;
    if semanticWeight < 0 {
      semanticWeight := 0;
    }
    assert semanticWeight == SemanticWeight(skillsWeight, expW);

    score := Blend(cosineScore, skillMatchScore, experienceScore, semanticWeight as real, skillsWeight as real, expW as real);
    explanation := m.explain(jobDesc, resume);
  }

  // ---------------------------------------------------------------------------
  // Properties of the composite

  lemma WeightedTermBounds(x: real, w: real)
    requires 0.0 <= x <= 1.0 && 0.0 <= w
    ensures 0.0 <= x * w <= w
  {
  }

  lemma SumBounds(a: real, b: real, wa: real, wb: real)
    requires 0.0 <= a <= wa && 0.0 <= b <= wb
    ensures 0.0 <= a + b <= wa + wb
  {
  }

  /** Three scores in [0,1] weighted by non-negative weights sum to at most the total weight. */
  lemma BlendBounds(x: real, y: real, z: real, wx: real, wy: real, wz: real)
    requires 0.0 <= x <= 1.0 && 0.0 <= y <= 1.0 && 0.0 <= z <= 1.0
    requires 0.0 <= wx && 0.0 <= wy && 0.0 <= wz
    ensures 0.0 <= x * wx + y * wy + z * wz <= wx + wy + wz
  {
    WeightedTermBounds(x, wx);
    WeightedTermBounds(y, wy);
    SumBounds(x * wx, y * wy, wx, wy);
    WeightedTermBounds(z, wz);
    SumBounds(x * wx + y * wy, z * wz, wx + wy, wz);
  }

  lemma Percentage(sum: real, total: real)
    requires 0.0 <= sum <= total <= 100.0
    ensures 0.0 <= sum / 100.0 <= 1.0
  {
  }

  /** The blend of three scores in [0,1] with non-negative weights summing to at most 100, divided by 100, is in [0,1]. */
  lemma BlendIsPercentage(x: real, y: real, z: real, wx: real, wy: real, wz: real)
    requires 0.0 <= x <= 1.0 && 0.0 <= y <= 1.0 && 0.0 <= z <= 1.0
    requires 0.0 <= wx && 0.0 <= wy && 0.0 <= wz && wx + wy + wz <= 100.0
    ensures 0.0 <= Blend(x, y, z, wx, wy, wz) <= 1.0
  {
    BlendBounds(x, y, z, wx, wy, wz);
    Percentage(x * wx + y * wy + z * wz, wx + wy + wz);
  }

  /**
   * With every signal in [0,1], non-negative weights and weights that leave
   * room for the semantic term, the composite is in [0,1].
   */
  lemma CompositeInUnitInterval(cosine: real, skillScore: real, years: nat, skillsWeight: int, experienceWeight: int)
    requires 0.0 <= cosine <= 1.0 && 0.0 <= skillScore <= 1.0
    requires 0 <= skillsWeight && 0 <= experienceWeight
    requires skillsWeight + EffectiveExperienceWeight(years, experienceWeight) <= 100
    ensures 0.0 <= Composite(cosine, skillScore, years, skillsWeight, experienceWeight) <= 1.0
  {
    var expW := EffectiveExperienceWeight(years, experienceWeight);
    var semanticW := SemanticWeight(skillsWeight, expW);
    BlendIsPercentage(cosine, skillScore, ExperienceScore(years), semanticW as real, skillsWeight as real, expW as real);
  }

  /** Without detected experience, the configured experience weight changes nothing. */
  lemma ZeroYearsIgnoresExperienceWeight(cosine: real, skillScore: real, skillsWeight: int, weight1: int, weight2: int)
    ensures Composite(cosine, skillScore, 0, skillsWeight, weight1) == Composite(cosine, skillScore, 0, skillsWeight, weight2)
  {
  }

  /** When the skill and effective experience weights reach 100, the cosine contributes nothing. */
  lemma SaturatedWeightsIgnoreCosine(cosine1: real, cosine2: real, skillScore: real, years: nat,
                                     skillsWeight: int, experienceWeight: int)
    requires skillsWeight + EffectiveExperienceWeight(years, experienceWeight) >= 100
    ensures Composite(cosine1, skillScore, years, skillsWeight, experienceWeight)
         == Composite(cosine2, skillScore, years, skillsWeight, experienceWeight)
  {
  }

  /** The sliders allow 100 + 100, and then the composite exceeds 1. */
  lemma CompositeCanExceedOne(cosine: real)
    ensures Composite(cosine, 1.0, 10, 100, 100) == 2.0
  {
  }

  /**
   * With no detected experience, weights 50 and 50 still leave the cosine a
   * weight of 50: the effective experience weight is 0, so the semantic weight
   * is 100 - 50.
   */
  lemma ZeroYearsKeepsCosine()
    ensures Composite(1.0, 0.0, 0, 50, 50) == 0.5
    ensures Composite(0.0, 0.0, 0, 50, 50) == 0.0
  {
  }

  /** Five years score one half, ten years and more score one. */
  lemma ExperienceScoreExamples()
    ensures ExperienceScore(5) == 0.5
    ensures ExperienceScore(10) == 1.0 && ExperienceScore(25) == 1.0
  {
  }

  // ---------------------------------------------------------------------------
  // Properties of the relevance score

  /** The skill ratio of a resume is in [0,1]; it is 0 when the job names no skills. */
  lemma SkillScoreInUnitInterval(m: Models, jobDesc: string, resume: string)
    ensures var r := SkillMatchScore(|ResumeSkills(m, jobDesc, resume)|, |JobSkills(m, jobDesc)|);
            0.0 <= r <= 1.0 && (JobSkills(m, jobDesc) == [] ==> r == 0.0)
  {
    var resumeText := Lower(resume);
    Skills.MatchedCountBounded(m.tokens(resumeText), m.nounChunks(resumeText), JobSkills(m, jobDesc));
  }

  /** With a cosine in [0,1] and weights within 0..100 that sum to at most 100, the score is in [0,1]. */
  lemma RelevanceInUnitInterval(m: Models, jobDesc: string, resume: string, skillsWeight: int, experienceWeight: int)
    requires 0.0 <= m.cosine(jobDesc, resume) <= 1.0
    requires 0 <= skillsWeight && 0 <= experienceWeight && skillsWeight + experienceWeight <= 100
    ensures 0.0 <= RelevanceScore(m, jobDesc, resume, skillsWeight, experienceWeight) <= 1.0
  {
    SkillScoreInUnitInterval(m, jobDesc, resume);
    var years := Experience.ExtractYearsOfExperience(resume);
    CompositeInUnitInterval(m.cosine(jobDesc, resume),
      SkillMatchScore(|ResumeSkills(m, jobDesc, resume)|, |JobSkills(m, jobDesc)|),
      years, skillsWeight, experienceWeight);
  }
}
