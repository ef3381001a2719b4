# Customs declaration pipeline: a Dafny model of its text and enrichment core

The pipeline takes customs declarations for industrial goods, mostly valves and fittings
imported into Russia, and processes them in numbered steps.

- **Tagging** (`step2_tagging.py`) works on each goods description. It
  - repairs words that mix Latin and Cyrillic look-alike letters;
  - lemmatises the words;
  - labels the row "исключено" (excluded), "одобрено" (approved) or "не определено" (undetermined).

  A rejected term found only inside a negation ("без", "кроме", the ten negation templates) does not exclude the row.
- **Enrichment** (`step3_enrichment.py`) does four things:
  - unifies country names;
  - trims over-long HS codes;
  - flags importers and exporters with too many excluded rows;
  - applies a hand-kept blacklist.
- **Company-name normalisation** (`utils/normalization_utils.py`) does four things:
  - cleans the name;
  - cuts it at "по поручению" / "через" markers;
  - splits glued legal forms ("ООООМЕГА");
  - takes out the first legal form (ООО, LLC, GmbH, …) found by a length-ordered pattern cascade.
- **Brand extraction** (`step4_brand_extraction.py`) matches an alias table against the brand, manufacturer, exporter and details fields.
  - An exact whole-word pass runs first.
  - A fuzzy pass runs only when the exact pass finds nothing.
  - Its threshold depends on token length.
- **Attribute extraction** (`step5_attribute_extraction.py`) takes the nominal diameter and pressure from "ДУ50"-like keys, and material, product type and seal type from synonym tables.
- **Datamart** (`step6_datamart.py`) computes the final relevance flag and its reason string.

## How the model is built

- **Pure code** is modelled as functions over `seq<char>`, sequences and maps, with lemmas about them.
- **Step-by-step code** is modelled as methods whose loops carry invariants tying them to those functions. Examples are the token scan of the confusable repair, the occurrence tally, the legal-form cascade, the alias loading, the blacklist loop and the per-row reason loop.
- **Country unification** changes a frame in place. It is modelled as the class `Enrichment.Frame`, whose `columns` field the methods reassign.
- **Foreign pieces are parameters**:
  - Unicode NFKC: a `string -> string` function;
  - the pymorphy2 normal form: a `string -> string` function;
  - the NLTK stop-word set: a `set<string>`;
  - the regex engine behind the ten negation templates: a `finditer` function;
  - the regex engine behind the legal-form patterns: a `search` function;
  - the thefuzz scorer: a `(string, string) -> int` function.
- **Hand-written matchers.** Every other regular expression the core uses is written out as a matcher with the regex's own semantics, under the character classes of module `Text`. These are:
  - the token, word and sentence-split patterns;
  - `\bterm\w*\b`;
  - the key-then-digits pattern;
  - the whole-word alias test;
  - the de-agglutination substitutions.
- **pandas values** (`Enrichment.Value`) are text, an integer, a boolean or missing (NaN/None). A frame is a map from column names to equal-length columns.

Behaviour of the code worth knowing:

- `normalize_company` runs the legal-form cascade also on the result of the "по поручению"/"через" branches, because `clean_and_extract` returns early but the cascade comes after it.
- The after-markers are "по поручению", "по поруч", "по пручению", "для", "b/o", "by order" and "by". The marker "b/o" can never fire, because '/' is stripped before the search (`CompanyNames.SlashMarkerNeverFires`).
- The sentence split recognises only '.', ';', " — " (em dash) and " - ", not the en dash.
- `extract_brand_from_row` returns a single found brand with an empty candidate list, so `brand_candidates` is empty for every row that is not mixed (see Findings).
- The third fallback rule of `_is_occurrence_negated` ("не" in the left window) is unreachable, because "не" is already a negator token (`Negation.NeTermRuleUnreachable`).

## Model

| member | source | states |
|---|---|---|
| Confusables.LatinKey | pipeline/step2_tagging.py:43-48 | every key of the Latin→Cyrillic table is an ASCII letter mapped to a basic Cyrillic letter, and the reverse table sends that letter back to the key |
| Confusables.CyrillicKey | pipeline/step2_tagging.py:43-48 | every key of the reverse table is a Cyrillic letter whose image is a key of the forward table mapping back to it (the table is injective) |
| Confusables.ConvertChar | pipeline/step2_tagging.py:75-81 | a character changes only if it is a key of the table for the chosen direction, and then becomes its table image |
| Confusables.ConvertCharKeepsClass | pipeline/step2_tagging.py:75-81 | conversion keeps token characters token characters, and converts only towards the target script |
| Confusables.Convert | pipeline/step2_tagging.py:73-81 | the converted token has the same length and each character is the conversion of the one at the same place |
| Confusables.ConvertCounts | pipeline/step2_tagging.py:68-81 | converting towards Cyrillic never adds Latin letters nor removes Cyrillic ones, and the other way round |
| Confusables.ConvertIdempotent | pipeline/step2_tagging.py:73-81 | converting twice in one direction equals converting once |
| Confusables.NormalizeMixedToken | pipeline/step2_tagging.py:67-81 | the character loop computes the repaired token: unchanged without both scripts or when a skip pattern matches, else converted towards the majority script with ties going to Cyrillic |
| Confusables.SkippedBeforeCyrillic | pipeline/step2_tagging.py:57-65 | a token that a skip pattern (letters then digit, three upper-case Latin, digit then letter, URL) matches after conversion to Cyrillic was already matched before it |
| Confusables.NormalizedTokenIdempotent | pipeline/step2_tagging.py:67-81 | repairing a repaired token changes nothing |
| Confusables.NormalizedTokenResolvesMinority | pipeline/step2_tagging.py:67-81 | a mixed token that is not skipped keeps its length and afterwards holds no convertible letter of the minority script |
| Confusables.NormalizeTokensKeepsSeparators | pipeline/step2_tagging.py:83-94 | the text scan keeps the length and keeps every separator character between tokens in place |
| Confusables.NormalizeTokensIdempotent | pipeline/step2_tagging.py:83-94 | repairing a repaired text changes nothing |
| Confusables.TokenEnd | pipeline/step2_tagging.py:56 | the token pattern's match from a start position ends at the first non-token character |
| Confusables.ConfusablesNormalized | pipeline/step2_tagging.py:83-85 | a missing (non-string) value stays missing |
| Confusables.NormalizeConfusables | pipeline/step2_tagging.py:83-94 | the gap-and-token loop computes NFKC followed by the token repair scan |
| Lemmatizer.WordMatchAt | pipeline/step2_tagging.py:100 | a word match is a run of letters and single inner hyphens that starts and ends on a letter at word boundaries |
| Lemmatizer.Words | pipeline/step2_tagging.py:100-106 | every word found has the word shape |
| Lemmatizer.GluedDigitExample | pipeline/step2_tagging.py:100 | letters glued to a digit ("ab1") yield no word, because the closing boundary fails |
| Lemmatizer.GiveBackExample | pipeline/step2_tagging.py:100 | in "ab-cd1" the hyphen group is given back and only "ab" is found |
| Lemmatizer.LemmasOf | pipeline/step2_tagging.py:107-111 | at most one lemma per token |
| Lemmatizer.LemmasOfSingle | pipeline/step2_tagging.py:108-110 | a single token gives its normal form if it is not a stop word and is longer than one character, and nothing otherwise |
| Lemmatizer.LemmasOfAppend | pipeline/step2_tagging.py:107-111 | the lemma list is built token by token: the lemmas of joined token runs are the lemmas of each run, in order |
| Lemmatizer.LemmasOfMembers | pipeline/step2_tagging.py:107-111 | the lemmas are exactly the normal forms of the tokens that are not stop words and are longer than one character |
| Lemmatizer.ExtractedLemmas | pipeline/step2_tagging.py:102-104 | a non-string input gives no lemmas |
| Lemmatizer.ExtractLemmas | pipeline/step2_tagging.py:102-111 | the token loop appends the lemmas of the kept tokens in token order |
| Negation.SpansOverlapIsSharedPosition | pipeline/step2_tagging.py:135-136 | two half-open spans overlap iff they share a position, and overlap is symmetric |
| Negation.TermMatchAt | pipeline/step2_tagging.py:138-140 | an occurrence starts with the term at a word boundary and extends over word characters to a boundary |
| Negation.OccurrencesIffFound | pipeline/step2_tagging.py:138-140 | the occurrence list is non-empty iff the term is found at a word boundary somewhere |
| Negation.EscapePlain | pipeline/step2_tagging.py:138-145 | escaping leaves a term without regex metacharacters unchanged |
| Negation.FindNegationHits | pipeline/step2_tagging.py:142-149 | the template loop collects every template's matches, each named after its template |
| Negation.CollectHits | pipeline/step2_tagging.py:145-148 | the template loop and the match loop append each pattern's matches, in order, named after the pattern's position from 1 |
| Negation.AppendNamed | pipeline/step2_tagging.py:147-148 | the match loop of one pattern appends one hit per match, in order, with the pattern's name |
| Negation.SentenceBounds | pipeline/step2_tagging.py:156-160 | sentence bounds are strictly increasing, within the text, and include 0 and the text length |
| Negation.SentenceFromHoldsStart | pipeline/step2_tagging.py:162-166 | the chosen sentence contains the occurrence start and no bound lies strictly inside it |
| Negation.FirstOverlap | pipeline/step2_tagging.py:152-154 | the first template hit overlapping the occurrence, and no earlier hit overlaps |
| Negation.FirstStartingWith | pipeline/step2_tagging.py:171-176 | the first sentence word starting with the term, and no earlier word does |
| Negation.VerdictNamesRule | pipeline/step2_tagging.py:151-186 | an occurrence is negated iff a trigger name is reported |
| Negation.NeTermRuleUnreachable | pipeline/step2_tagging.py:178-185 | the third fallback rule never decides |
| Negation.FallbackNamesAreNotTemplateNames | pipeline/step2_tagging.py:142-186 | fallback trigger names cannot be confused with template names |
| Negation.CollectSentenceBounds | pipeline/step2_tagging.py:155-159 | the bounds loop computes the sentence bounds: 0, each separator end and the text length, sorted and distinct |
| Negation.IsOccurrenceNegated | pipeline/step2_tagging.py:151-186 | the method's scans compute the occurrence verdict: template overlap first, then a negator or exception token among the six words left of the term in its sentence |
| Negation.WindowVerdict | pipeline/step2_tagging.py:169-186 | the word scan and the fallback rules compute the fallback verdict of the sentence's words |
| Negation.TallyOf | pipeline/step2_tagging.py:204-213 | every occurrence is counted once, and there is no positive one iff all are negated |
| Negation.TallyOccurrences | pipeline/step2_tagging.py:204-213 | the counting loop computes the tally |
| Negation.TallyClassifies | pipeline/step2_tagging.py:214-219 | some positive occurrence iff the positive count is non-zero; all occurrences negated iff no positive and at least one negative |
| Negation.TermStepVerdict | pipeline/step2_tagging.py:200-219 | a term is appended to the positive list iff it has a positive occurrence, and to the negated list iff all of its occurrences are negated |
| Negation.FilterTermsSplit | pipeline/step2_tagging.py:200-220 | over sorted distinct terms, each list holds exactly its terms and stays sorted |
| Negation.FilteredRejected | pipeline/step2_tagging.py:195-197 | empty or non-string text gives empty lists |
| Negation.FilteredRejectedSplit | pipeline/step2_tagging.py:188-221 | for non-empty text the positive and negated lists are sorted, disjoint and hold exactly the positive and only-negated terms |
| Negation.PositiveExcludesNegatedOnly | pipeline/step2_tagging.py:214-219 | no term is both positive and only-negated |
| Negation.FilterRejectedWithNegation | pipeline/step2_tagging.py:188-221 | the term loop computes the filtered result |
| Classifier.RejectedCandidates | pipeline/step2_tagging.py:245-247 | the candidates are sorted and are exactly the rejected terms that are lemmas or occur as word prefixes in the normalised text |
| Classifier.FilterHead | pipeline/step2_tagging.py:242 | the first element a comprehension keeps is the first element of the list that passes its condition |
| Classifier.FilterCons | pipeline/step2_tagging.py:242 | the head of the list is kept iff it passes, ahead of the kept tail |
| Classifier.FilterAppend | pipeline/step2_tagging.py:242 | the comprehension over two joined lists is the comprehension over each, in order, repeats included |
| Classifier.MatchedApproved | pipeline/step2_tagging.py:242 | the approved matches are exactly the lemmas in the approved set, and the first of them is the first approved lemma of the text |
| Classifier.Classify | pipeline/step2_tagging.py:227-279 | "исключено" iff a rejected term occurs positively, with the first as reason; otherwise "одобрено" iff an approved lemma exists, with the first as reason; otherwise "не определено" with reason ""; the matched lists and the negation triggers are those of the approved filter and the negation filter; a missing text gives the empty result |
| Classifier.DecidedTermIsFound | pipeline/step2_tagging.py:200-203 | a term is classified positive or negated only if it occurs |
| Classifier.RejectedSplitMembers | pipeline/step2_tagging.py:245-253 | the positive and negated rejected lists hold exactly the rejected terms positive or only-negated in the text, are sorted and are disjoint |
| Classifier.ClassifyMatches | pipeline/step2_tagging.py:238-279 | the result's matched lists are exactly those sets, disjoint and sorted |
| Classifier.CandidatesAlreadySorted | pipeline/step2_tagging.py:245-247 | re-sorting and deduplicating the candidates changes nothing |
| CompanyNames.CollapseSpaces | pipeline/utils/normalization_utils.py:9 | no whitespace run remains, non-space characters come from the input, and the result is empty iff the input is |
| CompanyNames.CleanedName | pipeline/utils/normalization_utils.py:7-10 | the cleaned name is lower case, free of the stripped punctuation, trimmed and without whitespace runs |
| CompanyNames.FirstMarker | pipeline/utils/normalization_utils.py:11-16 | the first marker in list order contained in the name, and no earlier marker is contained |
| CompanyNames.CleanAndExtract | pipeline/utils/normalization_utils.py:6-22 | the result keeps the cleaned shape |
| CompanyNames.CleanAndExtractMarkers | pipeline/utils/normalization_utils.py:11-22 | the first contained after-marker cuts to the stripped text after it; otherwise "через" cuts to the stripped text before it; otherwise the cleaned name is returned |
| CompanyNames.SlashMarkerNeverFires | pipeline/utils/normalization_utils.py:7-16 | the marker "b/o" is never contained in a cleaned name |
| CompanyNames.StickingCandidatesOrdered | pipeline/utils/normalization_utils.py:25-33 | the candidate list is duplicate-free, has the listed forms, and is ordered by length, longest first |
| CompanyNames.Unstick | pipeline/utils/normalization_utils.py:154-156 | one de-agglutination pass only inserts spaces |
| CompanyNames.UnstickAll | pipeline/utils/normalization_utils.py:153-156 | the whole pass only inserts spaces |
| CompanyNames.UnstickLoop | pipeline/utils/normalization_utils.py:153-156 | the candidate loop computes the de-agglutinated name |
| CompanyNames.UnstickOnlyInsertsSpaces | pipeline/utils/normalization_utils.py:153-156 | deleting the inserted spaces gives back the original name |
| CompanyNames.FirstRule | pipeline/utils/normalization_utils.py:163-168 | the first pattern in cascade order that matches, and no earlier one matches |
| CompanyNames.Cascade | pipeline/utils/normalization_utils.py:162-168 | no legal form iff no pattern matches, and then the name is unchanged |
| CompanyNames.CascadeTakesFirstRule | pipeline/utils/normalization_utils.py:162-168 | the first matching pattern sets the legal form and only its first match is removed |
| CompanyNames.CascadeLoop | pipeline/utils/normalization_utils.py:162-168 | the loop with its early exit computes the cascade |
| CompanyNames.CollapseRuns | pipeline/utils/normalization_utils.py:171 | no whitespace run remains, and the result is empty iff the input is |
| CompanyNames.FinalName | pipeline/utils/normalization_utils.py:170-171 | the final name has no '.' or ',', no whitespace run, and is trimmed |
| CompanyNames.NormalizedWith | pipeline/utils/normalization_utils.py:147-173 | a present name always yields a final-shaped, trimmed name |
| CompanyNames.NormalizedWithOpf | pipeline/utils/normalization_utils.py:158-168 | no legal form iff no pattern of the length-ordered cascade matches the cleaned, de-agglutinated name |
| CompanyNames.NormalizedCompany | pipeline/utils/normalization_utils.py:147-149 | a missing name yields a missing name and missing legal form |
| CompanyNames.NormalizeWith | pipeline/utils/normalization_utils.py:147-173 | the method computes the normalised name and legal form |
| CompanyNames.NormalizeCompany | pipeline/utils/normalization_utils.py:147-173 | the method computes the normalisation over the built-in candidate and pattern tables |
| Brands.Lookup | pipeline/step4_brand_extraction.py:28-40 | an alias is found iff it is a key |
| Brands.PutLookup | pipeline/step4_brand_extraction.py:37-39 | storing an alias overwrites that alias only |
| Brands.PutAll | pipeline/step4_brand_extraction.py:35-39 | the keys stay distinct and become the old keys plus the non-empty new aliases |
| Brands.PutAllLookup | pipeline/step4_brand_extraction.py:35-39 | each non-empty alias of the row now maps to its brand, and other aliases are unchanged |
| Brands.LoadedAliases | pipeline/step4_brand_extraction.py:28-40 | the loaded keys are distinct, non-empty, stripped and lower case |
| Brands.LoadedAliasesStep | pipeline/step4_brand_extraction.py:33-39 | a row with brand and aliases maps each of its alias pieces to its cleaned brand, overwriting earlier rows; a row missing either is dropped |
| Brands.LoadBrandAliases | pipeline/step4_brand_extraction.py:28-40 | the row loop computes the alias table |
| Brands.PutPieces | pipeline/step4_brand_extraction.py:36-38 | the alias loop of one row stores every non-empty piece under the brand, as the alias table function does |
| Brands.AdaptiveThreshold | pipeline/step4_brand_extraction.py:42-51 | the threshold lies in 90..100: it is 100 iff the token has at most 3 characters, 97 for 4 or 5 characters, 95 for 6 or 7, and 90 iff it has more than 7 |
| Brands.ThresholdNonIncreasing | pipeline/step4_brand_extraction.py:42-51 | a longer token never gets a higher threshold, and the threshold is one of 90, 95, 97, 100 |
| Brands.Clip | pipeline/step4_brand_extraction.py:64 | the field is cut to a prefix of at most 1000 characters |
| Brands.ExactHitsMembers | pipeline/step4_brand_extraction.py:65-69 | a brand is hit in a field iff every word of one of its aliases occurs there as a whole word |
| Brands.ExactPassMembers | pipeline/step4_brand_extraction.py:59-69 | the exact pass finds a brand iff some search field hits it |
| Brands.ExactPassLoop | pipeline/step4_brand_extraction.py:59-69 | the field loop computes the exact pass |
| Brands.LongTokens | pipeline/step4_brand_extraction.py:83 | every fuzzy token has at least three word characters |
| Brands.BestIndex | pipeline/step4_brand_extraction.py:86 | the best-scoring choice, the first of equal scores, and none only for an empty list |
| Brands.ExtractOne | pipeline/step4_brand_extraction.py:86 | a choice is returned iff some choice reaches the cutoff, and it has the best score |
| Brands.FuzzyHitsJustified | pipeline/step4_brand_extraction.py:84-90 | every fuzzy hit comes from a token and key whose score reaches the token's threshold |
| Brands.FuzzyKeys | pipeline/step4_brand_extraction.py:107 | the fuzzy keys are exactly the aliases of at least three characters |
| Brands.FuzzyKeysAppend | pipeline/step4_brand_extraction.py:107 | the fuzzy keys of a concatenation are those of each part, in order, so the table's key order (which decides `extractOne`'s ties) is kept |
| Brands.FuzzyPassNeverMisses | pipeline/step4_brand_extraction.py:86-90 | with keys taken from the alias table, the alias lookup in the fuzzy pass never fails |
| Brands.FuzzyPassLoop | pipeline/step4_brand_extraction.py:78-91 | the nested token loop computes the fuzzy pass, failing exactly when the model says |
| Brands.Decided | pipeline/step4_brand_extraction.py:71-76 | one distinct found brand comes back as itself with no candidates (`pop()` empties the set before `sorted`); several come back as "смешанный" with their sorted, distinct list |
| Brands.DecidedIntended | pipeline/step4_brand_extraction.py:71-76 | the intended decision: the candidates are exactly the found brands, sorted and distinct, and the brand is the single candidate or "смешанный" |
| Brands.SingleBrandCandidates | pipeline/step4_brand_extraction.py:72-76 | for one found brand the code gives no candidates where the intended decision lists that brand; both label the row with it |
| Brands.SeveralBrandsAgree | pipeline/step4_brand_extraction.py:72-76 | with two or more distinct brands the code and the intended decision give the same result |
| Brands.DecideFound | pipeline/step4_brand_extraction.py:72-76 | the method computes the decision, the pop emptying a one-brand set |
| Brands.BrandFromRow | pipeline/step4_brand_extraction.py:53-103 | candidates are sorted and are either none or two or more with "смешанный"; "не определено" never has candidates |
| Brands.BrandFromRowIntended | pipeline/step4_brand_extraction.py:53-103 | with the intended decision: no candidates gives "не определено" with an empty reason, one gives that brand, several give "смешанный" |
| Brands.ExactHitSkipsFuzzy | pipeline/step4_brand_extraction.py:71-76 | when the exact pass finds a brand the fuzzy scorer has no influence, and the exact hits alone decide the result |
| Brands.NoExactHit | pipeline/step4_brand_extraction.py:78-99 | without an exact hit the fuzzy hits decide; with none, or on a missing key, the row is "не определено" with no candidates and no reason |
| Brands.AssignedKeysNeverFail | pipeline/step4_brand_extraction.py:86-103 | on the keys `assign_brands` builds, the exception path is never taken |
| Brands.ExtractBrandFromRow | pipeline/step4_brand_extraction.py:53-103 | the method computes the row result |
| Brands.Columns | pipeline/step4_brand_extraction.py:114-117 | `brand_mixed` iff the extracted brand is "смешанный"; `brand_candidates` is the candidate list joined with ", ": "" for no candidates and the element itself for one |
| Brands.AssignBrands | pipeline/step4_brand_extraction.py:105-119 | one result row per input row, each the columns of the row extractor as written, with the fuzzy keys of the table |
| Brands.AssignedMixed | pipeline/step4_brand_extraction.py:105-119 | a row with candidates is mixed and has at least two; a row that is not mixed has an empty `brand_candidates` |
| Brands.AssignedSingleBrand | pipeline/step4_brand_extraction.py:71-76 | a row whose exact pass finds a single brand is labelled with it and its `brand_candidates` is empty |
| Attributes.DigitsAfter | pipeline/step5_attribute_extraction.py:66 | after optional spaces, one ':' or '-' and spaces, 1 to 4 digits are taken, and none iff no digit follows |
| Attributes.KeySearch | pipeline/step5_attribute_extraction.py:65-67 | a search result is 1 to 4 digits, and none iff the key is followed by digits nowhere |
| Attributes.KeySearchLeftmost | pipeline/step5_attribute_extraction.py:65-68 | a search result is the group of the leftmost position where the key's pattern matches |
| Attributes.FirstKeyMatch | pipeline/step5_attribute_extraction.py:64-69 | the result is 1 to 4 digits, and none iff no key matches |
| Attributes.FirstKeyMatchFirst | pipeline/step5_attribute_extraction.py:64-69 | a result is the leftmost group of the first key, in list order, whose pattern matches |
| Attributes.FirstKeyMatchAt | pipeline/step5_attribute_extraction.py:64-69 | when earlier keys do not match, the result is decided by the first matching key |
| Attributes.NumericAttribute | pipeline/step5_attribute_extraction.py:57-69 | a result is 1 to 4 digits, namely the leftmost match's group for the first key that matches the lowered text; there is none iff no key's pattern matches |
| Attributes.UnloweredKeyNeverMatches | pipeline/step5_attribute_extraction.py:63-66 | a key with a character that lower-casing changes never matches the lowered text |
| Attributes.DiameterSignNeverMatches | pipeline/step5_attribute_extraction.py:63-66 | the key "Ø" of the diameter table never matches |
| Attributes.DiameterSignAsWritten | pipeline/step5_attribute_extraction.py:57-69 | "Ø50" yields no diameter with the table as written |
| Attributes.DiameterSignCorrected | pipeline/step5_attribute_extraction.py:57-69 | "Ø50" yields diameter "50" once the key is lower case |
| Attributes.ValveDiameterExample | pipeline/step5_attribute_extraction.py:57-69 | "Ду50 Ру16" yields diameter "50" through key "ду" |
| Attributes.ValvePressureExample | pipeline/step5_attribute_extraction.py:57-69 | "Ду50 Ру16" yields pressure "16" through key "ру" |
| Attributes.FirstLabel | pipeline/step5_attribute_extraction.py:75-80 | a label belongs to the first entry with a synonym in the text, and none iff no entry has one |
| Attributes.PatternAttribute | pipeline/step5_attribute_extraction.py:71-80 | non-string input gives none; a string gives the first label whose synonym occurs in its lowered text |
| Attributes.CastIronAsWrittenExample | pipeline/step5_attribute_extraction.py:33-34 | the missing comma glues "gg25" and "32ч24р" into one synonym, so "gg25" is not recognised as cast iron |
| Attributes.CastIronCorrectedExample | pipeline/step5_attribute_extraction.py:33-34 | with the two synonyms separate, "gg25" is recognised as "Чугун" |
| Attributes.AttributesOf | pipeline/step5_attribute_extraction.py:87-91 | with the tables as written: diameter and pressure are the leftmost group of the first matching key of `DN_KEYS` as written (with "Ø") and of `PN_KEYS`, and absent iff none matches; material, product type and sealing are the first label found in the lowered string, and none for non-string details |
| Attributes.AttributeDigits | pipeline/step5_attribute_extraction.py:87-88 | the diameter and pressure columns, when present, are 1 to 4 digits |
| Attributes.AttributesOfCorrected | pipeline/step5_attribute_extraction.py:87-91 | with the sign lowered and the comma restored: each column as in `AttributesOf`, over the corrected tables |
| Attributes.DiameterAgreesWithoutSign | pipeline/step5_attribute_extraction.py:18 | without "ø" in the lowered text, the diameter as written equals the corrected one; pressure, product type and sealing never differ |
| Enrichment.MappedName | pipeline/step3_enrichment.py:34-194 | the mapped name comes from a table pair for the value, and none iff the value is not a key |
| Enrichment.UnifyCell | pipeline/step3_enrichment.py:194 | a string that is a key becomes its mapped name; other strings and non-strings are unchanged |
| Enrichment.UnifyCellIdempotent | pipeline/step3_enrichment.py:34-194 | when no mapped name is a key, unifying a value twice equals once |
| Enrichment.UnifyColumn | pipeline/step3_enrichment.py:194 | a column keeps its length and each cell is unified |
| Enrichment.Unified | pipeline/step3_enrichment.py:192-197 | listed present columns are unified, all other columns are unchanged, and absent listed columns are skipped |
| Enrichment.UnifiedIdempotent | pipeline/step3_enrichment.py:192-197 | unifying a frame twice equals unifying it once |
| Enrichment.CountryMappingNoValueIsKey | pipeline/step3_enrichment.py:34-190 | no mapped name of the country table is itself a key |
| Enrichment.Frame.UnifyCountryNamesWith | pipeline/step3_enrichment.py:192-197 | the column loop replaces the frame's columns by their unified form |
| Enrichment.Frame.UnifyCountryNames | pipeline/step3_enrichment.py:23-197 | the frame is unified in place with the built-in country table, whose mapped names are not keys |
| Enrichment.TruncateCell | pipeline/step3_enrichment.py:350-352 | a string longer than 10 characters loses exactly its last character; any other value is unchanged |
| Enrichment.TruncateLongProdHsc | pipeline/step3_enrichment.py:338-355 | only `prod_hsc` changes, cell by cell; without that column the frame is unchanged |
| Enrichment.TruncateTwice | pipeline/step3_enrichment.py:350-352 | truncation is idempotent exactly on values that are not strings of 12 or more characters |
| Enrichment.ExcludedCount | pipeline/step3_enrichment.py:298-307 | a company's excluded rows are never more than its classified rows |
| Enrichment.SuspectColumn | pipeline/step3_enrichment.py:298-311 | each row is flagged iff its company is present, has at least the minimum rows, and more than 90% of them are "исключено" |
| Enrichment.SameCompanySameFlag | pipeline/step3_enrichment.py:310-311 | rows of the same company get the same flag |
| Enrichment.SuspectHasTenExclusions | pipeline/step3_enrichment.py:282-307 | with the default minimum a flagged company has at least 10 excluded rows |
| Enrichment.NoExclusionsNoFlag | pipeline/step3_enrichment.py:305-307 | a company without excluded rows is never flagged |
| Enrichment.FlagSuspectCompanies | pipeline/step3_enrichment.py:282-313 | the entity loop adds `is_bad_importer` and `is_bad_exporter` as the suspect columns and leaves all other columns unchanged |
| Enrichment.EffectOf | pipeline/step3_enrichment.py:322-331 | an entry only marks rows through the importer or exporter column, and only when that column exists |
| Enrichment.Applied | pipeline/step3_enrichment.py:317-333 | the flag and reason columns have one value per row |
| Enrichment.AppliedFailed | pipeline/step3_enrichment.py:321-335 | the loop is aborted iff some entry raises |
| Enrichment.AppliedRow | pipeline/step3_enrichment.py:317-333 | a row is flagged iff a processed entry names it; unmatched rows keep reason ""; the reason is that of the last matching entry |
| Enrichment.AppliedAfterFailure | pipeline/step3_enrichment.py:321-335 | entries after the one that raises have no effect |
| Enrichment.ApplyManualBlacklist | pipeline/step3_enrichment.py:315-336 | the entry loop adds exactly the blacklist flag and reason columns and leaves the others unchanged |
| Datamart.IsRelevant | pipeline/step6_datamart.py:43-50 | the flag is "ИСТИНА" or "ЛОЖЬ" |
| Datamart.Failing | pipeline/step6_datamart.py:28-41 | the failing names are exactly the names of the conditions that hold |
| Datamart.GetReasons | pipeline/step6_datamart.py:36-41 | the condition loop joins the failing names with ", " |
| Datamart.RelevanceOf | pipeline/step6_datamart.py:43-54 | the row's flag is the mask's value, and a relevant row has reason "" |
| Datamart.RelevantIffNoCondition | pipeline/step6_datamart.py:28-50 | a row is relevant iff none of the five conditions holds |
| Datamart.ReasonIffNotRelevant | pipeline/step6_datamart.py:28-54 | the reason is non-empty iff the row is "ЛОЖЬ" |
| Datamart.AddIsRelevantColumn | pipeline/step6_datamart.py:23-56 | one flag and one reason per input row, each the row's relevance |

## Left out

- Reading and writing Excel and CSV files, logging, the `main()` functions and the module-level loading of the tag table and stop words are not modelled. The tables are parameters (`Classifier.Tagger`) or arguments.
- `step0_merger_atlas.py`, `step1_preprocess.py`, `step5_datamart.py` and `stepx_pipeline_on_1_file.py` are not modelled. They are file plumbing, a column rename, or a superseded step.
- `enrich_decl_duplicates` and `flag_unit_price_anomalies` are not modelled, because they are floating-point price and weight arithmetic.
- Unicode NFKC, the pymorphy2 normal form, the NLTK stop-word list, the thefuzz scorer and the regex engine for the negation templates and legal-form patterns are not modelled. They are parameters, about which nothing is assumed beyond what the Python code relies on.
- Python's `\s`, `\d` and `\w` are modelled over the Basic Latin, Latin-1, Latin Extended-A/B and Cyrillic blocks. Other scripts' letters and digits are not word characters in the model.
- `str.lower()` is modelled for the upper-case letters A-Z, À-Þ (without ×), А-Я and Ѐ-Џ only. The upper-case letters of Latin Extended-A/B (such as Ā, Ł, Ő) and of the Cyrillic supplement (such as Ѣ, Ґ, Ӂ) are left as they are, and `İ`, which Python lowers to the two code points "i̇", is left unchanged. The same gap reaches the case-insensitive (`re.IGNORECASE`) matching of the de-agglutination (CompanyNames.Unstick, CompanyNames.UnstickAll), which compares characters through this `str.lower()`: characters that Python's regex engine also folds, such as ſ, the Kelvin sign K and ı, are not folded there. The legal-form cascade (CompanyNames.FirstRule, CompanyNames.Cascade) takes its case-insensitive `search` as a parameter, so its folding is whatever that parameter does.
- Enrichment.Suspect: the `exclusion_threshold` argument of `flag_suspect_companies` is fixed at its default 0.9; other thresholds are not modelled, while `min_records` stays a parameter.
- Enrichment.SuspectColumn: the float test `excluded / total > 0.9` is stated as the exact rational `10 * excluded > 9 * total`. Rounding of the double is not modelled.
- Enrichment.FlagSuspectCompanies: requires the company and classification columns. The KeyError that pandas raises without them is not modelled.
- The flag column names `is_bad_importer` / `is_bad_exporter` are written as constants, not computed by `entity.split("_")[0]`.
- Enrichment.ApplyManualBlacklist: the blacklist entries are passed in. A failing `read_excel` is not modelled; it would leave every row at `False` and "".
- pandas cells are modelled as text, integer, boolean or missing. Floats, dates and the `str()` rendering of non-strings are not modelled. Brands and Classifier take text that the caller has already converted with `str()`.
- CompanyNames.StickingCandidatesOrdered: Python's `sorted(set(...))` orders equal-length candidates by hash order. The model takes them in first-listed order.
- Datamart.Failing: its contract states which names appear. The fixed order of the names is given by its definition, which walks the conditions in the order of the source dictionary.
- Brands.AssignedMixed: does not state that a mixed row has candidates, because a single found brand that is itself spelled "смешанный" is marked mixed with none.
- Brands.ExtractBrandFromRow: the `found` set of `extract_brand_from_row` is a sequence in the model. Only its members and the sorted candidate list are stated, not the set's iteration order.

## Findings

| source | as written | input that shows it | evidently intended | confidence | as-written member | corrected member |
|---|---|---|---|---|---|---|
| pipeline/step5_attribute_extraction.py:18 | the diameter key "Ø" is upper case, but the text it is searched in is lowered first | "Ø50" gives no diameter | the key should match the lowered sign "ø", giving "50" | not executed | Attributes.DiameterSignAsWritten | Attributes.DiameterSignCorrected |
| pipeline/step5_attribute_extraction.py:33-34 | a missing comma concatenates 'gg25' "32ч24р" into the single synonym "gg2532ч24р" | "gg25" gives no material | "gg25" and "32ч24р" are separate cast-iron synonyms, so "gg25" gives "Чугун" | not executed | Attributes.CastIronAsWrittenExample | Attributes.CastIronCorrectedExample |
| pipeline/step4_brand_extraction.py:72-76 | the tuple's first element `found.pop()` runs before `sorted(found)`, so a one-brand set is empty when it is sorted (also lines 95-99) | a row whose fields hit the aliases of one brand only | the candidate list holds that brand, so `brand_candidates` shows it | not executed | Brands.SingleBrandCandidates | Brands.DecidedIntended |
