# Resume screener: scoring, document text and ranking in Dafny

This project models the decision logic of a Streamlit resume screener. A
recruiter uploads a job description and several resumes (PDF, Word or plain
text). Each resume is turned into text, stored on disk and scored against
the job description. The candidates are then listed by descending score.

The modules follow the program's files:

- `text_util.dfy` (`TextUtil`) holds the string helpers the source takes
  from Python: `str.lower`, the `\d` and `\s` classes of `re`, and substring
  `in`.
- `experience.dfy` (`Experience`) models `extract_years_of_experience`. The
  regular expression is modelled twice. `MatchAt`/`FirstMatch` is a
  deterministic scanner. `InPattern`/`PatternAt` is the pattern's language,
  stated as digits, a spacer and one of four phrases. `MatchAtIff` proves
  that the two agree at every position.
- `skills.dfy` (`Skills`) models `extract_skills` as a method. It has the
  two appending loops and the `list(set(...))` deduplication.
- `relevance.dfy` (`Relevance`) holds the arithmetic of `get_relevance_score`:
  - the skill ratio;
  - the experience score and the effective experience weight;
  - the semantic weight floored at 0;
  - the composite.

  The language models are inputs, bundled in `Models`: the embedding cosine,
  the SKILL entities, tokens, noun chunks and the explanation.
- `data_parser.dfy` (`DataParser`) models three things:
  - the MIME-type dispatch of `parse_document`;
  - the accumulating loops of `parse_pdf` and `parse_docx`, each proved
    against a concatenation function;
  - the storage path of `save_uploaded_file`.
- `ranking.dfy` (`Ranking`) models the stable sort by descending score. It
  is proved ordered, a permutation and stable. It is also proved to be the
  only list with those properties.
- `screening.dfy` (`Screening`) models the "Run Screening" handler of
  `app.py` as a method:
  - the two early stops;
  - the loop with its two skips;
  - the records;
  - the sort.

  It is proved equal to a specification function, and lemmas state the
  counts, the provenance of records, score bounds and ordering.

Two behaviours of the code are easy to miss:

- When no experience is detected, the effective experience weight is 0, so
  the cosine keeps the weight `100 - skills_weight` however high the
  configured experience weight is. See `Relevance.ZeroYearsKeepsCosine`.
- Exceptions from the PDF, Word and UTF-8 readers and from the hosted
  model are not caught in the screening loop (app.py:86-103), so they end
  the run instead of skipping the resume. The model leaves these
  exceptions out (see "Left out").

## Model

| member | source | states |
|---|---|---|
| TextUtil.Lower | utils/nlp_processor.py:47 | `str.lower` on ASCII letters: keeps the length; `LowerIdempotent` and `LowerKeepsDigitsAndSpaces` state what it preserves |
| TextUtil.Contains | utils/data_parser.py:26-30 | substring `in` as a recursive scan; `ContainsIff` proves it holds exactly when the pattern occurs at some position |
| TextUtil.ContainsIff | utils/data_parser.py:26-30 | `p in s` (the recursive scan) holds exactly when `p` occurs at some position of `s` |
| TextUtil.LowerIdempotent | utils/nlp_processor.py:47 | lower-casing an already lower-cased text changes nothing |
| Experience.ExtractYearsOfExperience | utils/nlp_processor.py:46-51 | lower-case, search, and read the leftmost match's digits, or 0; `NoMatchGivesZero`, `LeftmostMatchGivesItsNumber` and `CaseInsensitive` state its contract |
| Experience.FirstMatch | utils/nlp_processor.py:48 | `re.search`: a result is a position at or after the start of the search where a match starts |
| Experience.FirstMatchLeftmost | utils/nlp_processor.py:48 | no position before the result starts a match, and `None` means no position does |
| Experience.FirstMatchIs | utils/nlp_processor.py:48 | a match that no other match precedes is the one the search returns |
| Experience.MatchAtIff | utils/nlp_processor.py:48 | the scanner accepts a match at `i` exactly when the pattern `\d+\s*\+?\s*years? (of )?experience` matches a text starting at `i` |
| Experience.NoMatchGivesZero | utils/nlp_processor.py:46-51 | with no match anywhere in the lower-cased text the result is 0 |
| Experience.LeftmostMatchGivesItsNumber | utils/nlp_processor.py:48-50 | with a match, the result is the decimal value of the leftmost match's digit run, and that run is maximal on both sides |
| Experience.CaseInsensitive | utils/nlp_processor.py:47-48 | a text and its lower-cased form give the same number |
| Experience.SkipNonDigit | utils/nlp_processor.py:48 | a position without a digit never starts a match, so the search passes over it |
| Experience.NoRoomNoMatch | utils/nlp_processor.py:48 | a match needs at least 16 characters (a digit and "year experience"), so a shorter rest of the text holds none |
| Experience.FiveYearsOfExperience | utils/nlp_processor.py:46-50 | any text lower-casing to "5 years of experience" gives 5 |
| Experience.CapitalisedPhrase | utils/nlp_processor.py:47-48 | "5 Years Of Experience" and "5 years of experience" both give 5 |
| Experience.ReversedPhrasing | utils/nlp_processor.py:48 | "experience of 5 years" gives 0: the number must precede "year" |
| Experience.TwoSpacesBeforeOf | utils/nlp_processor.py:48 | "5 years  of experience" gives 0: the phrase's words are one space apart |
| Experience.PlusWithoutOf | utils/nlp_processor.py:48-50 | "10+ years experience" gives 10: the `+` and the missing "of" are accepted |
| Skills.LowerSkillSetMembers | utils/nlp_processor.py:33 | the lower-cased skill set holds exactly the lower-cased job skills |
| Skills.ExtractSkills | utils/nlp_processor.py:30-43 | the result holds exactly the matching tokens and lower-cased matching noun chunks, without duplicates |
| Skills.ListOfSet | utils/nlp_processor.py:43 | `list(set(...))`: the list holds the same elements as its input, each exactly once |
| Skills.MatchedAreJobSkills | utils/nlp_processor.py:33-43 | every reported skill is a lower-cased job skill |
| Skills.MatchedCountBounded | utils/nlp_processor.py:33-43 | no more skills are reported than the job lists |
| Skills.NoJobSkillsNoMatches | utils/nlp_processor.py:33-43 | a job without SKILL entities yields no skills |
| Skills.TokenSkillReported | utils/nlp_processor.py:35-37 | every token equal to a lower-cased job skill is reported |
| Skills.ChunkSkillReported | utils/nlp_processor.py:39-41 | every noun chunk whose lower-cased text is a job skill is reported lower-cased |
| Relevance.SkillMatchScore | utils/nlp_processor.py:65-68 | the ratio times the job-skill count is the matched count; 0 without job skills; in [0,1] when matched does not exceed required |
| Relevance.ExperienceScore | utils/nlp_processor.py:72-77 | in [0,1]; 0 exactly without experience; 1 exactly from ten years; years/10 below ten |
| Relevance.EffectiveExperienceWeight | utils/nlp_processor.py:72-77 | the experience weight applies only when some experience was found |
| Relevance.SemanticWeight | utils/nlp_processor.py:80-83 | the semantic weight is never negative and is either 0 or what the other weights leave of 100 |
| Relevance.GetRelevanceScore | utils/nlp_processor.py:54-110 | returns the composite score of the inputs, the model's explanation, the resume's matched skills without duplicates, and its years of experience |
| Relevance.Composite | utils/nlp_processor.py:71-89 | `composite_score` from the cosine, the skill ratio and the years; `CompositeInUnitInterval`, `ZeroYearsIgnoresExperienceWeight`, `SaturatedWeightsIgnoreCosine`, `CompositeCanExceedOne` and `ZeroYearsKeepsCosine` state its contract |
| Relevance.RelevanceScore | utils/nlp_processor.py:54-89 | the score `get_relevance_score` returns first; `GetRelevanceScore` computes it and `RelevanceInUnitInterval` bounds it in [0,1] |
| Relevance.BlendBounds | utils/nlp_processor.py:85-89 | three scores in [0,1] with non-negative weights blend to at most the total weight |
| Relevance.BlendIsPercentage | utils/nlp_processor.py:85-89 | three scores in [0,1] weighted by non-negative weights summing to at most 100, divided by 100, give a value in [0,1] |
| Relevance.CompositeInUnitInterval | utils/nlp_processor.py:80-89 | with signals in [0,1] and effective weights summing to at most 100 the composite is in [0,1] |
| Relevance.ZeroYearsIgnoresExperienceWeight | utils/nlp_processor.py:71-89 | without experience the configured experience weight does not change the composite |
| Relevance.SaturatedWeightsIgnoreCosine | utils/nlp_processor.py:80-89 | when skill and effective experience weights reach 100 the cosine contributes nothing |
| Relevance.CompositeCanExceedOne | utils/nlp_processor.py:80-89 | with both weights at 100, full skills and ten years the composite is 2 |
| Relevance.ZeroYearsKeepsCosine | utils/nlp_processor.py:72-89 | with weights 50/50 and no experience the cosine still weighs 50: cosine 1 scores 0.5, cosine 0 scores 0 |
| Relevance.ExperienceScoreExamples | utils/nlp_processor.py:72-74 | five years score 0.5; ten and twenty-five years score 1 |
| Relevance.SkillScoreInUnitInterval | utils/nlp_processor.py:62-68 | the skill ratio of any resume is in [0,1] and is 0 when the job names no skills |
| Relevance.RelevanceInUnitInterval | utils/nlp_processor.py:54-89 | with a cosine in [0,1] and slider weights summing to at most 100 the score is in [0,1] |
| DataParser.FormatOf | utils/data_parser.py:24-33 | a type containing "pdf" is PDF; otherwise "word" is Word; otherwise "text" is plain text |
| DataParser.ParsePdf | utils/data_parser.py:7-12 | the loop's text is the page texts concatenated in page order |
| DataParser.PdfTextAppend | utils/data_parser.py:9-12 | the text of two runs of pages is the two texts joined |
| DataParser.EmptyPageAddsNothing | utils/data_parser.py:11 | a page without text, or with empty text, adds nothing |
| DataParser.PdfTextLength | utils/data_parser.py:10-11 | the text is as long as the page texts together |
| DataParser.ParseDocx | utils/data_parser.py:14-19 | the loop's text is each paragraph followed by a newline, in order |
| DataParser.DocxTextAppend | utils/data_parser.py:16-19 | the text of two runs of paragraphs is the two texts joined |
| DataParser.DocxTextLength | utils/data_parser.py:17-18 | the text's length is the paragraphs' lengths plus one per paragraph |
| DataParser.DocxTextEnd | utils/data_parser.py:16-19 | no paragraphs give "", and otherwise the text ends with a newline |
| DataParser.ParagraphInPlace | utils/data_parser.py:17-18 | paragraph k and its newline follow the text of the paragraphs before it |
| DataParser.ParseDocument | utils/data_parser.py:24-33 | the text of the reader the MIME type selects, or `None` for other types |
| DataParser.DispatchPrecedence | utils/data_parser.py:26-33 | "pdf" wins over "word" and "text", "word" wins over "text", and only a type with none of them is unsupported |
| DataParser.NoTextOnlyWhenUnsupported | utils/data_parser.py:32-33 | `None` comes only from an unsupported type |
| DataParser.PdfMimeType | utils/data_parser.py:26-27 | "application/pdf" is read as PDF |
| DataParser.WordMimeType | utils/data_parser.py:28-29 | "application/msword" is read as Word |
| DataParser.PlainTextMimeType | utils/data_parser.py:30-31 | "text/plain" is read as text |
| DataParser.ImageMimeTypeUnsupported | utils/data_parser.py:32-33 | "image/png" has no reader |
| DataParser.SaveUploadedFile | utils/data_parser.py:35-45 | a path exactly when the write succeeds |
| DataParser.StoredPathParts | utils/data_parser.py:38-39 | from the path, the directory, the uuid and the name are read back |
| DataParser.StoredPathEndsWithName | utils/data_parser.py:38-39 | the path ends with `_` and the upload's name |
| DataParser.DistinctUuidsDistinctPaths | utils/data_parser.py:38-39 | different uuids give different paths, even for the same name |
| Ranking.SortByScoreDesc | app.py:105 | the list `sort(key=score, reverse=True)` leaves, as long as its input; `SortIsSorted`, `SortIsPermutation` and `SortIsStable` state its contract and `SortIsUnique` shows no other list meets it |
| Ranking.SortIsPermutation | app.py:105 | the sorted list holds the same records |
| Ranking.SortIsSorted | app.py:105 | scores never increase along the sorted list |
| Ranking.SortIsStable | app.py:105 | records with equal scores keep their upload order |
| Ranking.SortIsUnique | app.py:105 | any ordered list that keeps the order among equal scores is the sorted list |
| Ranking.ThreeCandidates | app.py:105 | scores 0.3, 0.9, 0.6 are listed 0.9, 0.6, 0.3 |
| Ranking.TieKeepsUploadOrder | app.py:105 | two records with one score stay in upload order |
| Screening.RunScreening | app.py:75-105 | the handler's outcome is the specified one: the early stops, the records of the accepted resumes, sorted |
| Screening.CollectedCount | app.py:85-103 | one record per resume that reads to text and is stored, so never more records than resumes |
| Screening.RecordsComeFromAcceptedResumes | app.py:86-103 | every record is built from an accepted resume |
| Screening.AcceptedResumesAreRecorded | app.py:86-103 | every accepted resume has its record |
| Screening.SkippedResumeAddsNothing | app.py:87-91 | a resume without text or whose save fails adds no record |
| Screening.RecordPathNamesTheUpload | app.py:89-103 | a record names its upload and carries the stored path `resumes/<uuid>_<name>` |
| Screening.CollectedScoresInUnitInterval | app.py:93-103 | with cosines in [0,1] and weights summing to at most 100 every record scores in [0,1] |
| Screening.EarlyStops | app.py:76-83 | missing uploads stop the run before screening, and an unreadable job description stops it before any resume |
| Screening.RankingIsOrderedPermutation | app.py:85-105 | the ranking is ordered, a permutation of the records, stable, and as long as the accepted count |
| Screening.UnreadableResumeIsSkipped | app.py:87-88 | a resume without text next to an accepted one leaves a ranking of one |

## Left out

- Model loading (`load_models`) and the embedding model: the cosine similarity is an input (`Models.cosine`).
- spaCy: the SKILL entities, tokens and noun chunks are inputs. The small English model has no SKILL label, so in practice the skill ratio is 0; the model covers any entity list.
- The prompt to the hosted language model and the call itself: the explanation is an input function of the job and resume texts (`Models.explain`), so the prompt's contents (skills list, years, the 1000-character truncation) are not modelled. The hosted model may answer differently on two calls with the same texts; the model gives the same explanation to identical resumes.
- PyPDF2, python-docx and UTF-8 decoding: an upload carries what each reader reports. Their exceptions, which the screening loop does not catch, are not modelled.
- The directory creation and disk write in `save_uploaded_file`: their success is the `writeSucceeds` parameter, the random uuid is a parameter, and the path separator is the POSIX `/`.
- The database (`db/`), the call that saves the session, the Streamlit UI, session state, previews, downloads, history and the `round(score * 100)` display.
- Experience.ExtractYearsOfExperience: `\d` is modelled as the ASCII digits and `str.lower()` as ASCII lower-casing; Python's `re` and `str.lower` also cover other Unicode digits and letters.
- TextUtil.Lower: only ASCII letters are lower-cased, while Python's `str.lower` lower-cases every Unicode letter. This also holds where `Skills.ExtractSkills` lower-cases job skills and noun chunks (utils/nlp_processor.py:33,40): a job skill "Éclair" and a resume token "éclair" match in Python but not in the model.
- Skills.ExtractSkills: the order of `list(set(...))` follows Python's string hashing; the model lets it be any order.
- Relevance.GetRelevanceScore: floating-point division and rounding are modelled by exact `real` arithmetic.
- Relevance.ExperienceScore: a year count too large for a float (at least 2^1024) makes `years_of_experience / 10.0` (utils/nlp_processor.py:73) raise `OverflowError`, and on Python 3.11 and later `int(...)` (utils/nlp_processor.py:50) already raises `ValueError` for a digit run over 4300 digits. Nothing catches either error, so such a resume ends the screening run; the model instead scores it 1.0.
- Ranking.SortByScoreDesc: Python's in-place `list.sort` is a library call; the model states its result on values.
