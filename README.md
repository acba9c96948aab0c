# InTaVia NLP pipelines: a Dafny model of the data wrangling

The InTaVia NLP pipelines turn biographies in English, Dutch, Slovenian and
Finnish into annotated JSON documents. They then turn those documents into
IDM (InTaVia Data Model) knowledge graphs made of entities, events and
vocabularies. Taggers do the linguistic work: AllenNLP, Flair, spaCy,
Stanza, CLASSLA and the Turku NER service. This project models the
deterministic code around them, working on what the taggers return:

- **Knowledge-graph synthesis** (`english/nlp_to_idm_json.py`,
  `english/group_nlp_idm_jsons.py`):
  - the universal span index keyed by `"start_end"`;
  - entity unification through coreference clusters, with surface-form
    matching as the fallback;
  - typing by majority NER vote, with zero-padded per-type ids;
  - events made from relations through the inverse-role table;
  - renumbering of entity ids under a movement name.
  Modules `IdmIndex`, `IdmUnify`, `IdmGraph` and `IdmGroup`.
- **Cross-tokenisation alignment** (`dutch/add_coref_layer.py`): the
  windowed, prefix-recovering map from CoNLL token indices to the
  document's tokens, and the coreference layer projected through it.
  `CorefLayer.JsonifyCorefOutput` builds the layer on the alignment as
  written; `CorefLayer.JsonifyCorefOutputCorrected` builds it on the
  corrected alignment of the first finding below.
  Modules `CorefAlign` and `CorefLayer`.
- **Tag decoders and label rules:**
  - the BIO/BILOU decoders for NER and SRL (`BioDecode`, `SrlDecode`);
  - the AllenNLP JSON layers (`AllenLayers`, `AllenTokenLayers`,
    `AllenCoref`);
  - CLASSLA offsets (`Classla`);
  - the NAF SRL layer (`NafSrl`);
  - the Finnish feature parser and BIOES repair (`FinnishNlp`);
  - CoNLL reading (`ConllHandler`);
  - CSV sentence rebuilding (`DatasetBuilder`);
  - the evaluation label arithmetic (`Evaluation`);
  - Turku offset recovery (`NerProcessors`).
- **String parsers and offsets:**
  - wiki links, sections and infoboxes (`Wiki`);
  - frame sense merging (`FlairFrames`);
  - text cleaning (`TextClean`);
  - sentence grouping and the `nlp_to_dict` envelopes (`NlpJson`).

`Common` holds Python's string and sequence built-ins with Python's own
semantics: `split`, `join`, `find`, slicing, `strip`, `int()` and
`str()`. `PyDict` is an insertion-ordered dictionary, a key sequence plus
a map, because dictionary order fixes the source's counters and output
order.

The model follows the source's form:
- A loop that fills lists, dictionaries and counters becomes a `method`
  with a `while` loop and its invariants. Each method is proved equal to
  a specification function. The properties are then proved about that
  function as lemmas.
- Pure string slicing and conditionals become functions.
- A Python exception becomes an `Err` of `Common.Result`: `KeyError`,
  `IndexError`, `ValueError`, `AssertionError` or `NameError`. The model
  keeps the point where it arises and the order in which the source
  evaluates things.

The same `preprocess_and_clean_text` appears in `dutch/utils_nlp.py`,
`slovenian/utils_nlp.py`, `english/utils_nlp.py` and
`english/en_text_to_naf.py`, and `english/utils/nlp_common.py` has a
variant. `TextClean.CleanText` models all of them.

The source differs from its own comments and names in these places; the
model follows the code:
- An event's kind is `event-kind-event-kind-<relation>`, because line 332
  of `english/nlp_to_idm_json.py` already passes `event-kind-<relation>`
  to `create_idm_event`.
- In `finnish/utils_nlp.py`, every morphology entry's text is the join of
  all the document's tokens, and `sentence` is `None`.

## Model

| member | source | states |
|---|---|---|
| TextClean.CleanText | dutch/utils_nlp.py:50-54 | the result's whitespace is single plain spaces with no line breaks, every double quote stands between two spaces, and the input's non-whitespace characters are kept in order |
| TextClean.CleanTextIdempotent | slovenian/utils_nlp.py:27-31 | cleaning twice is cleaning once |
| TextClean.KeepingLinesAgrees | english/utils/nlp_common.py:46-51 | the variant that keeps "\n" for a run of line breaks gives the same result, since the last substitution turns it into a space; line 50 assigns to an unused variable |
| BioDecode.DecodeEntities | english/utils/nlp_allen.py:63-97 | the decoding loop computes the decoder's span function for either tag scheme |
| BioDecode.StepKeepsInvariant | english/utils/nlp_allen.py:65-97 | every branch of one loop iteration (U-, B-, I-/L-, O) keeps the emitted spans ordered, disjoint and made of the input's own tokens |
| BioDecode.NerSpansOrdered | slovenian/utils_nlp.py:141-167 | whatever the tags, each emitted span is a run of input positions holding the input's own tokens, and the spans come in order and without overlap |
| BioDecode.NoFlushAtEnd | english/utils/nlp_allen.py:89-99 | an entity still open after the last tag is lost: appending one "O" emits exactly that entity and nothing else |
| BioDecode.BioRoundTrip | slovenian/utils_nlp.py:144-165 | encoding well-formed mentions as BIO tags and decoding them with either decoder gives back exactly those mentions |
| SrlDecode.DecodeFrame | english/utils/nlp_allen.py:23-48 | the inner loop of one verb frame computes the frame's predicate index and argument list |
| SrlDecode.ArgumentsAreSpans | english/utils/nlp_allen.py:25-48 | a frame's arguments are exactly the entity decoder's spans over the same tags with "B-V" read as "O"; stray `I-` tokens prefix the next argument |
| SrlDecode.FramePredicate | english/utils/nlp_allen.py:23-29 | the frame's predicate is its last "B-V" position (0 without one), and every argument names the frame's verb and a "B-V" position or 0 |
| SrlDecode.ParseSrl | english/utils_nlp_allen.py:16-54 | the loop over the verb frames computes the `SRL_Output` value |
| SrlDecode.SrlPredicates | english/utils/nlp_allen.py:50-51 | `predicates` and `arg_labels` grow by exactly one entry per frame, in frame order, and the tokens are the tagger's words |
| SrlDecode.SrlStructKeys | english/utils/nlp_allen.py:52 | the keys of `pred_arg_struct` are exactly the reported predicate positions |
| SrlDecode.SrlStructLastWriter | english/utils/nlp_allen.py:52 | a position maps to the arguments of the last frame reporting it: a later verb at the same index overwrites |
| AllenCoref.TruncateForCoref | english/utils/nlp_allen.py:206-216 | the kept sentences are a prefix of the input whose word count is within the limit, and adding the next sentence would exceed it |
| AllenCoref.TruncationIsLongest | english/utils_nlp_allen.py:159-169 | only one prefix length meets that condition, so the truncation is the longest prefix within the budget |
| AllenCoref.MentionIdInjective | english/utils/nlp_allen.py:112 | the mention id `"{cluster}_{j}"` determines both numbers |
| AllenCoref.CorefWithOffsets | english/utils/nlp_allen.py:102-114 | the loop computes the cluster dictionary, failing with the first start token that has no character offset |
| AllenCoref.CharMentionsShape | english/utils/nlp_allen.py:108-113 | one record per span, in order, with the span's text and character extent; a `KeyError` exactly when some start has no character offset |
| AllenCoref.CharClustersShape | english/utils/nlp_allen.py:106-114 | the keys are the non-empty clusters' positions, in order, each mapped to that cluster's records; success iff every start is known |
| AllenCoref.NonEmptyIndices | english/utils/nlp_allen.py:106-107 | exactly the positions of the non-empty clusters, strictly increasing (the `defaultdict` only gains keys for clusters with spans) |
| AllenCoref.FillLocations | english/utils_nlp_allen.py:172-181 | the fill loop, including the bare `except` that keeps the records filled before the first failure, computes the fill function |
| AllenCoref.FillListKeeps | english/utils_nlp_allen.py:175-179 | filling one cluster keeps the number of records and everything but the two location fields |
| AllenCoref.FillAllLocates | english/utils_nlp_allen.py:172-181 | with unequal token counts the clusters come back untouched; with equal counts and spans in range every mention gets its first token's `start_char` and last token's `end_char`, and nothing else changes |
| AllenCoref.FillKeysComplete | english/utils_nlp_allen.py:174-179 | with every span in range, the clusters from position `c` on are filled completely and the earlier ones are left as they are |
| AllenCoref.FillKeysKeys | english/utils_nlp_allen.py:174 | filling never adds or removes a cluster key |
| AllenLayers.EntitiesOfShape | english/utils/nlp_allen.py:76-80 | one record per span: upper-cased category, `tokenStart = off + first`, `tokenEnd = off + last + 1`, `locationEnd = locationStart + len(" ".join(tokens))`; `KeyError` for a start without character offset |
| AllenLayers.SentenceNerShape | english/utils/nlp_allen.py:57-99 | the entities of one sentence lie inside it, in order and without overlapping, with token and character positions shifted by the offsets passed in |
| AllenLayers.NerIdInjective | english/utils/nlp_allen.py:195 | the id `ent_{i}_{j}_allen` determines the sentence and the position |
| AllenLayers.SentenceLengthsSum | english/utils/nlp_allen.py:183-188 | the per-sentence token counts add up to the number of tokens: every token is counted in exactly one sentence |
| AllenLayers.AddJsonNer | english/utils/nlp_allen.py:179-202 | the document loop equals the concatenation of the per-sentence pieces taken at closed-form character and token offsets, stopping at the first failing sentence |
| AllenLayers.SentenceEntities | english/utils/nlp_allen.py:190-200 | one loop step yields sentence `i`'s piece and moves both offsets to sentence `i + 1`'s closed-form values |
| AllenLayers.NerAdvance | english/utils/nlp_allen.py:190-200 | a failing sentence fails the document with its own error; a successful one appends its piece to the entities so far |
| AllenLayers.AddJsonNerIdsDistinct | english/utils/nlp_allen.py:194-197 | every entity of the document gets an id and no two entities get the same one |
| AllenLayers.ArgumentRecordsShape | english/utils/nlp_allen.py:157-170 | one argument record per argument, with id `"{i}_{label}"`, the argument's text and category, and its character extent from the known start |
| AllenLayers.AddJsonSrl | english/utils/nlp_allen.py:119-176 | the document loop equals the concatenation of the per-sentence records; an empty sentence contributes nothing and leaves the character offset where it was |
| AllenLayers.SentenceLayer | english/utils/nlp_allen.py:134-175 | one loop step: nothing for an empty sentence, its records otherwise, and the character offset moved by `len(sentence) + 1` |
| AllenLayers.SrlAdvance | english/utils/nlp_allen.py:134-175 | a failing sentence fails the document with its own error; a successful one appends its records |
| AllenLayers.SentenceRecordsShape | english/utils/nlp_allen.py:138-172 | every kept record has at least one argument and names its sentence; its predicate id is the entry's position, so ids are distinct within the sentence |
| AllenLayers.CorefDocument | english/utils/nlp_allen.py:205-217 | the resolver's text is the longest run of leading sentences within 1000 words, joined by single spaces |
| AllenTokenLayers.DecodedEntitiesShape | english/utils_nlp_allen.py:63-86 | one record per decoded span with its token extent shifted by the offset; `IndexError` only for a span without tokens |
| AllenTokenLayers.SentenceEntitiesShape | english/utils_nlp_allen.py:57-88 | decoding one sentence never fails; its entities lie within the sentence, each after the previous one, with no id and no location yet |
| AllenTokenLayers.LocateUpToShape | english/utils_nlp_allen.py:145-151 | locating succeeds iff every entity's tokens have records; it then sets only the two locations, to the first token's `start_char` and the last token's `end_char` |
| AllenTokenLayers.LocateEntities | english/utils_nlp_allen.py:145-151 | the in-place loop over one sentence's entities computes the locating function |
| AllenTokenLayers.AddJsonNer | english/utils_nlp_allen.py:138-155 | the document loop equals the concatenation of the located entities of every sentence, each shifted by the tagger token counts of the sentences before it |
| AllenTokenLayers.NerAdvance | english/utils_nlp_allen.py:141-153 | a failing sentence fails the document with its error; a successful one appends its entities |
| AllenTokenLayers.NerStepShape | english/utils_nlp_allen.py:143-151 | one sentence fails only with `IndexError`, exactly when an entity reaches past the token records; otherwise its entities are located from the token records |
| AllenTokenLayers.TokenArgumentsShape | english/utils_nlp_allen.py:121-130 | the arguments fail only with `IndexError`, exactly when one reaches past the token records; otherwise one record each |
| AllenTokenLayers.AddJsonSrl | english/utils_nlp_allen.py:105-135 | the document loop equals the concatenation of the per-sentence records, each sentence shifted by the SRL tagger token counts before it |
| AllenTokenLayers.SrlAdvance | english/utils_nlp_allen.py:108-134 | a failing sentence fails the document with its error; a successful one appends its records |
| AllenTokenLayers.TokenRecordsShape | english/utils_nlp_allen.py:110-132 | every kept record has arguments, takes location, text and lemma from the predicate's token record, and has an id no other record of the sentence has |
| AllenTokenLayers.AddJsonCoref | english/utils_nlp_allen.py:158-183 | the resolver sees the longest run of leading sentences within 400 words, joined by spaces; the layer is its clusters with locations filled by the guarded loop |
| NafSrl.GetNafSentences | english/en_text_to_naf.py:62-75 | the loop computes the sentence cut, an empty document failing at `naf_tokens[-1]` with IndexError |
| NafSrl.GroupExtend | english/en_text_to_naf.py:67 | appending a token to the open sentence keeps the groups a prefix of the document and the open sentence single-numbered |
| NafSrl.GroupsSnoc | english/en_text_to_naf.py:69 | closing a non-empty single-numbered sentence whose number differs from the previous one keeps the groups well formed |
| NafSrl.GroupCut | english/en_text_to_naf.py:68-70 | at a change of sentence number the open sentence is closed with the token |
| NafSrl.GroupKeep | english/en_text_to_naf.py:68 | without a change the token stays in the open sentence |
| NafSrl.GroupFinish | english/en_text_to_naf.py:72-73 | after the last token the open sentence, if any, is closed and the groups are the whole document |
| NafSrl.NafSentencesPartition | english/en_text_to_naf.py:62-75 | the cut fails exactly on an empty document; otherwise the sentences concatenate back to the word forms, each is non-empty with one sentence number, and neighbours differ in number |
| NafSrl.TermIdInjective | english/en_text_to_naf.py:103-106 | term ids `t<k+1>` separate token positions |
| NafSrl.TermSpanMembers | english/en_text_to_naf.py:103 | the term id of position `k` is in the span `lo..hi` exactly when `lo <= k < hi` |
| NafSrl.RoleSpan | english/en_text_to_naf.py:103 | a role for an argument over tokens `start..end` lists the distinct terms of exactly those tokens shifted by the sentence offset, first to last |
| NafSrl.ParseOutput | english/en_text_to_naf.py:117-156 | the decoded output keeps the tagger's words and has a well-formed predicate table |
| NafSrl.Outputs | english/en_text_to_naf.py:82-89 | one decoded output per sentence, in order |
| NafSrl.TagSentences | english/en_text_to_naf.py:82-89 | the first loop returns the decoded outputs, or an AssertionError when some sentence's token count differs from the tagger's |
| NafSrl.SentenceToNaf | english/en_text_to_naf.py:97-109 | the inner loop computes one sentence's predicates |
| NafSrl.BuildLayer | english/en_text_to_naf.py:93-112 | the second loop computes the layer over the decoded outputs |
| NafSrl.AddNafSrlLayer | english/en_text_to_naf.py:78-114 | both loops together compute the SRL layer |
| NafSrl.SentencePredicatesCount | english/en_text_to_naf.py:97-109 | one predicate per table entry in key order, each naming the token at its position, the term of that position shifted by the sentence offset, and its arguments' roles |
| NafSrl.SentencePredicatesFail | english/en_text_to_naf.py:105 | a sentence fails exactly when some entry points past its tokens, and then with IndexError |
| NafSrl.LayerPieces | english/en_text_to_naf.py:96-110 | one piece per remaining sentence |
| NafSrl.NafSrlIsConcat | english/en_text_to_naf.py:78-114 | the layer fails with AssertionError exactly on a token-count mismatch; otherwise it is every sentence's predicates in order, each shifted by the token counts before it, or the first sentence's IndexError |
| NafSrl.PiecesNeverAssert | english/en_text_to_naf.py:96-110 | the second loop can fail only with IndexError |
| NafSrl.CounterCountsPredicates | english/en_text_to_naf.py:93-98 | `doc_predicate_counter` ends at the number of predicates in the layer |
| Classla.SentenceTextsRoundTrip | slovenian/utils_nlp.py:94-96 | splitting a sentence's text at spaces gives back its token texts, when no token holds a space |
| Classla.SpacesAfterMeaning | slovenian/utils_nlp.py:103-108 | `spaces_after[t]` holds exactly when word `t` has no `misc` |
| Classla.WalkWords | slovenian/utils_nlp.py:98-108 | the inner loop places the sentence's words and keeps the cursor, both character dictionaries and `spaces_after` in step with the words walked so far |
| Classla.RunFirstPass | slovenian/utils_nlp.py:93-109 | the first pass computes the bookkeeping function of the sentences |
| Classla.InvertKeysSound | slovenian/utils_nlp.py:111-112 | the inverted dictionary sends each value to a key that holds it and contains every held value |
| Classla.CharKeysShape | slovenian/utils_nlp.py:100-101 | every character key names a word, and it is that word's start (or end) under the running cursor |
| Classla.KeysIncrease | slovenian/utils_nlp.py:100-107 | with no empty word, the character keys strictly increase along the words |
| Classla.CharKeysKept | slovenian/utils_nlp.py:100-101 | with no empty word, no key is overwritten, so every word keeps its key |
| Classla.InverseLookups | slovenian/utils_nlp.py:111-112 | `token2charstart` and `token2charends` give each word the cursor before it and that plus its length; with no empty word every word is present |
| Classla.WordRecord | slovenian/utils_nlp.py:119-133 | one word's record, or the `IndexError` or `KeyError` its lookups raise |
| Classla.GroupRecords | slovenian/utils_nlp.py:118-135 | the inner loop of the second pass extends the records by one sentence's words, or returns the error that ends the whole pass |
| Classla.RunSecondPass | slovenian/utils_nlp.py:116-135 | the second pass computes the records of all document words |
| Classla.TokenObjsElems | slovenian/utils_nlp.py:116-135 | the second pass succeeds iff every word's record does, then holds exactly those records in order; a failure is some word's error |
| Classla.TokenObjAt | slovenian/utils_nlp.py:119-132 | word `t`'s record exists iff `tok_ents` reaches `t` and both inverses hold `t` (only the former, with no empty word); it copies the word's fields and its characters run from the cursor before it for its text's length |
| Classla.TokenObjsShape | slovenian/utils_nlp.py:117-135 | every record of a successful pass has id `t`, the word's fields, its NER tag, sentence, space flag and character extent |
| Classla.CharsAdjacent | slovenian/utils_nlp.py:103-108 | neighbouring records touch, or leave exactly one character between them when `space_after` is set |
| Classla.TokenObjsFail | slovenian/utils_nlp.py:127-129 | the second pass fails iff `tok_ents` runs short or a word lost a key; with no empty word only the former, with `IndexError` |
| Classla.Bio2EntitiesLoop | slovenian/utils_nlp.py:141-167 | the loop over the records computes the entity list |
| Classla.EntityShape | slovenian/utils_nlp.py:148-150 | a decoded span becomes an entity from its first to its last record, with those records' characters and no id |
| Classla.Bio2EntitiesShape | slovenian/utils_nlp.py:141-167 | `bio2entities` never fails; every entity is a run of records inside the document, in increasing order |
| Classla.RunClasslaPasses | slovenian/utils_nlp.py:79-139 | the body of `run_classla` after tagging computes the document function |
| Classla.RunClasslaShape | slovenian/utils_nlp.py:79-139 | with no empty word, `run_classla` succeeds iff the tokens carry at least as many tags as there are words; records and tokens then number the words and each record's characters follow the cursor |
| FinnishNlp.ProcessFeatsLoop | finnish/utils_nlp.py:167-174 | the loop computes the feature dictionary: `None` for a falsy string, otherwise the pieces' pairs, or a `ValueError` |
| FinnishNlp.FeatsErrIff | finnish/utils_nlp.py:171-172 | the feature string fails, with `ValueError`, exactly when one of its pieces does not hold exactly one '=' |
| FinnishNlp.FeatsLastWins | finnish/utils_nlp.py:173 | each key maps to the value of its last piece, and only keys that occur are present |
| FinnishNlp.FeatsRoundTrip | finnish/utils_nlp.py:167-174 | a non-empty dictionary whose keys and values hold neither '\|' nor '=' is recovered, keys in order, from its `k=v\|...` string |
| FinnishNlp.ConvertSpec | finnish/utils_nlp.py:187-193 | no recoded tag starts with S or E; a tag starting with none of S, E, I is unchanged; the result starts with I exactly for an I tag after a non-"O" tag or for an E tag |
| FinnishNlp.FixNerEntities | finnish/utils_nlp.py:176-196 | the loop computes the tag fold |
| FinnishNlp.FixLength | finnish/utils_nlp.py:184-194 | a token of `n > 1` words contributes `n + 1` tags, any other token one |
| FinnishNlp.FixStepBlock | finnish/utils_nlp.py:184-195 | one more token keeps the earlier tags, adds its raw tag once per word when it has several, and then its recoded tag |
| FinnishNlp.FixSingleWords | finnish/utils_nlp.py:179-195 | with single-word tokens there is one tag per token, each recoded from the previous output tag ("O" at the start), none starting with S or E |
| FinnishNlp.IAfterOOnlyFromE | finnish/utils_nlp.py:187-193 | with single-word tokens, an I tag at the start or after an "O" comes only from an E tag |
| FinnishNlp.EAfterOAsWritten | finnish/utils_nlp.py:192-193 | as written, "O" then "E-PER" gives "O", "I-PER", which is not valid BIO |
| FinnishNlp.ConvertCorrectedSpec | finnish/utils_nlp.py:187-193 | the corrected recoding never yields S or E, and yields I only after a tag other than "O" |
| FinnishNlp.FixCorrectedIsBio | finnish/utils_nlp.py:176-196 | with the corrected recoding and single-word tokens the output has one tag per token, none starting with S or E, and no I tag at the start or after an "O" |
| FinnishNlp.FinnishWordsSpec | finnish/utils_nlp.py:43 | a sentence's words fail exactly when some token's features do; otherwise each word is its token's record |
| FinnishNlp.GroupWithTexts | finnish/utils_nlp.py:33-35 | the first loop groups the tokens by `sent_id` in first-appearance order and collects every token's text |
| FinnishNlp.MorphLoop | finnish/utils_nlp.py:36-45 | the second loop makes one morphology entry per group |
| FinnishNlp.FinnishNlpToDict | finnish/utils_nlp.py:30-57 | the function computes the document value |
| FinnishNlp.FinnishNlpToDictCorrect | finnish/utils_nlp.py:30-57 | it fails exactly when some token's features are malformed; otherwise one morphology entry per distinct `sent_id`, in first-appearance order, each with `sentence` None, the whole document's text and that sentence's words, and the tokenization is every token's text |
| FinnishNlp.FinnishOkFeats | finnish/utils_nlp.py:36-45 | when every group converts, every token's features parse |
| FinnishNlp.FinnishErrFeats | finnish/utils_nlp.py:36-45 | when some group fails, some token's features are malformed |
| ConllHandler.WantedLabel | finnish/conll_handler.py:78 | fails with `IndexError` exactly when the label has no '-', and otherwise yields an `I-` label |
| ConllHandler.SearchContiguousPunct | finnish/conll_handler.py:75-84 | the backwards scan computes the contiguity test, including the error of a label without '-' |
| ConllHandler.ContiguousIff | finnish/conll_handler.py:79-84 | the scan succeeds exactly when some '(' is followed, up to the end, only by parts carrying the wanted label, itself included |
| ConllHandler.FixConllPunctuation | finnish/conll_handler.py:31-72 | the repair loop computes the repair function, whose output has the input's length |
| ConllHandler.FixCorrect | finnish/conll_handler.py:34-66 | the repair keeps the length and every token; a pair that is not labelled punctuation keeps its label unless a label moves onto it, and a moved label comes from the previous pair, which becomes "O" |
| ConllHandler.FixPunct | finnish/conll_handler.py:44-64 | labelled punctuation with nothing pending becomes "O" exactly when it opens the sentence or an entity (its label then moves on) or does not continue a group and is last or before O/B/'.'/','; otherwise it is kept |
| ConllHandler.ParseLine | finnish/conll_handler.py:23 | unpacking `word, *_, label` fails exactly when the line has no ' ' |
| ConllHandler.ReadLine | finnish/conll_handler.py:16-27 | one loop body on the reader's three variables computes the reader's step |
| ConllHandler.ReadConll | finnish/conll_handler.py:10-28 | the loop over the stripped lines computes the sentence dictionary |
| ConllHandler.ReadBlock | finnish/conll_handler.py:23-27 | non-blank lines only extend the open sentence and store nothing, so a final sentence without a blank line after it is dropped |
| ConllHandler.ReadBlank | finnish/conll_handler.py:17-22 | a blank line stores the open sentence's repaired pairs under its words joined by ' ', overwriting an earlier sentence with the same words, and starts an empty sentence |
| DatasetBuilder.Piece | finnish/dataset_builder.py:55 | punctuation attaches to the sentence as it is, any other word gets a leading space |
| DatasetBuilder.LabelledWord | finnish/dataset_builder.py:39-47 | with labels on, a word gets "[l1]" or "[l1\|l2]" (the latter when `l2` is neither '0' nor `l1`), and stays bare when `l1` is '0' |
| DatasetBuilder.CsvStep | finnish/dataset_builder.py:33-56 | one row adds at most one sentence, moves the sentence index by at most one and only when it yields, and stops only once a truthy limit is reached |
| DatasetBuilder.CsvLine | finnish/dataset_builder.py:33-56 | the loop body on the generator's variables computes the row step |
| DatasetBuilder.YieldCsvSentences | finnish/dataset_builder.py:19-59 | draining the generator gives the sentences of the row fold and its final flush, or the `ValueError` of a bad `ord` |
| DatasetBuilder.Groups | finnish/dataset_builder.py:48-56 | a sentence break comes at every `ord` below its predecessor's; only the first group can be empty |
| DatasetBuilder.GroupsKeepWords | finnish/dataset_builder.py:48-56 | the groups hold every word, in order |
| DatasetBuilder.CsvSentencesGrouped | finnish/dataset_builder.py:48-59 | without a limit the generator yields exactly the rendered groups of the rows that have an `ord` |
| DatasetBuilder.CsvEntriesErr | finnish/dataset_builder.py:37 | without a limit, a row whose `ord` is not an integer fails the generator with `ValueError` |
| DatasetBuilder.CsvLimitAsWritten | finnish/dataset_builder.py:35-36 | as written, a truthy limit lets at most one sentence more through than the limit |
| DatasetBuilder.CsvLimitExceeded | finnish/dataset_builder.py:57-59 | limit 1 on rows with `ord` 1, 2, 1 yields two sentences: the final flush ignores the limit |
| DatasetBuilder.CsvCorrectedWithinLimit | finnish/dataset_builder.py:35-59 | holding back the final sentence once the limit is reached bounds the output by a positive limit and changes nothing without a limit |
| DatasetBuilder.LastPieceSuffix | finnish/dataset_builder.py:73 | `lab.split('-')[-1]` is the tail of the label after its last '-', or the whole label, and holds no '-' |
| DatasetBuilder.GetCsvLabels | finnish/dataset_builder.py:62-73 | the result holds exactly the non-empty last pieces of the column-`1` labels other than '0', over all files |
| Evaluation.ProcessRelationship | finnish/run_evaluation_stanza.py:118-130 | TN iff both labels are "O"; FN iff only the prediction is "O"; TP iff the prediction equals a non-"O" gold label; FP iff the prediction is not "O" and differs from the gold label |
| Evaluation.RemoveBio | finnish/run_evaluation_turkuner.py:142-145 | "O" stays; any other name without '-' raises `IndexError`; a result holds no '-' |
| Evaluation.RemoveBioTagged | finnish/run_evaluation_stanza.py:133-136 | a name `tag-type` loses exactly its tag |
| Evaluation.FirstHit | finnish/run_evaluation_stanza.py:140-141 | the first table key occurring in the text, with no earlier key occurring |
| Evaluation.ReplaceEquivalencies | finnish/run_evaluation_turkuner.py:148-152 | the loop returns the text with every occurrence of the first key found replaced, or the text when no key occurs |
| Evaluation.RecodeSE | finnish/run_evaluation_stanza.py:65-66 | an S- or E- label becomes the I- label with the same tail; any other label is unchanged |
| Evaluation.CollectErr | finnish/run_evaluation_stanza.py:62-74 | collecting labels fails exactly when some element's conversion raises |
| Evaluation.CollectOk | finnish/run_evaluation_stanza.py:62-74 | a successful collection holds each element's converted label, in order |
| Evaluation.PredictedLabels | finnish/run_evaluation_stanza.py:60-70 | the nested loop over data entries and words computes the predicted labels of the flattened words |
| Evaluation.EvaluateSentence | finnish/run_evaluation_stanza.py:57-79 | the generator's output is the evaluation of the flattened predicted labels against the annotation |
| Evaluation.EvaluateSentenceCorrect | finnish/run_evaluation_stanza.py:71-79 | without BIO stripping it fails with `ValueError` exactly when the label counts differ; otherwise it yields, position by position, the annotation label and its comparison with the recoded, equivalence-replaced prediction |
| Evaluation.SpacelessPut | finnish/run_evaluation_stanza.py:20 | the space-free index keeps, for every annotation so far, its space-free key, and each key maps to an annotation with that space-free text |
| Evaluation.MatchLoop | finnish/run_evaluation_stanza.py:23-30 | the loop over the processed sentences computes the matches and the unmatched texts |
| Evaluation.FindMatches | finnish/run_evaluation_stanza.py:17-32 | the exact-matching part of `find_matches` computes its specification, handing the unmatched texts on |
| Evaluation.FindMatchesCorrect | finnish/run_evaluation_stanza.py:20-32 | exact matching covers every sentence iff each space-free text is a truthy key; every match is an annotation equal to its sentence without spaces, and every sentence with such a non-empty annotation is matched |
| Evaluation.MultiplyLabel | finnish/run_evaluation_turkuner.py:120-124 | an O- or I- label is repeated `n` times; otherwise the label is followed by `n - 1` I- labels, and a label without '-' raises |
| Evaluation.MultiplyBegin | finnish/run_evaluation_turkuner.py:123-124 | a B- label spread over `n` tokens is a well-formed BIO block of its type |
| Evaluation.Expansion | finnish/run_evaluation_turkuner.py:108-115 | a one-to-one token is kept as it is; otherwise each aligned prediction token gets its multiplied label |
| Evaluation.AppendZipped | finnish/run_evaluation_turkuner.py:114-115 | the inner loop appends the zipped words and labels |
| Evaluation.AlignAnnotations | finnish/run_evaluation_turkuner.py:101-117 | the function with the alignments given computes its specification |
| Evaluation.ExpandedLength | finnish/run_evaluation_turkuner.py:108-115 | a successful expansion has one entry per aligned prediction token |
| Evaluation.ExpandedIdentity | finnish/run_evaluation_turkuner.py:109-111 | with one-to-one alignments the annotation comes back unchanged |
| Evaluation.AlignCorrect | finnish/run_evaluation_turkuner.py:105-117 | `None` exactly when `p2a` is shorter than `a2p`; the length assertion fails exactly when the aligned count differs from the prediction's length; with one-to-one alignments of equal lengths the annotation is returned |
| Evaluation.CountPairs | finnish/run_evaluation_turkuner.py:77-83 | the inner loop counts one sentence's pairs into the table, agreeing with the observation list of the specification |
| Evaluation.CountSentence | finnish/run_evaluation_turkuner.py:70-83 | one sentence step agrees with the specification on `falses`, `splits` and the counts |
| Evaluation.EvaluateTurku | finnish/run_evaluation_turkuner.py:57-83 | the label set is built with the `ignore_bio` argument, but the counting loop runs with the module constant `IGNORE_BIO`, which is false; the table of counts, `falses` and `splits` agree with that specification, and an unlabelled row makes the whole evaluation fail as the label set does |
| Evaluation.IgnoreBioRowsMissed | finnish/run_evaluation_turkuner.py:58-83 | with `ignore_bio` true the label set holds `PER` for a `B-PER` annotation, while the loop, keeping the BIO prefix, looks up `B-PER` and fails with KeyError |
| Evaluation.CountSentences | finnish/run_evaluation_turkuner.py:69-83 | the sentence loop agrees with the specification's observations, `falses` and `splits` |
| Evaluation.PairRunSpec | finnish/run_evaluation_turkuner.py:77-83 | each pair adds exactly one observation, and every observation names a row of the table |
| Evaluation.TurkuRunSpec | finnish/run_evaluation_turkuner.py:69-83 | every observation belongs to a row, and each sentence counts at most once as a failed alignment or a split |
| NerProcessors.NerRows | finnish/ner_processors.py:41 | one row per non-empty line of the reply, in order, each that line split at tabs, so each row has a first field |
| NerProcessors.NerRowsRoundTrip | finnish/ner_processors.py:41 | each row joined back with tabs is its non-empty, newline-free line of the reply |
| NerProcessors.ProcessTokens | finnish/ner_processors.py:38-49 | the loop returns the rows and the pairs of the left-to-right search for the rows' first fields |
| NerProcessors.SearchAt | finnish/ner_processors.py:45-48 | token `i` is searched for from 0 for the first token, otherwise from the previous token's found position plus its length |
| NerProcessors.SpanAt | finnish/ner_processors.py:45-48 | when no search fails, token `i` is recorded, shifted by the offset, at its first occurrence at or after the end of the previous token |
| NerProcessors.WordSpans | finnish/ner_processors.py:45-48 | when no search fails, every pair names a span of the text that holds its token, and consecutive spans do not overlap |
| NerProcessors.TokenSpans | finnish/ner_processors.py:41-47 | one pair per row, each naming that row's first field |
| NerProcessors.FoundFrom | finnish/ner_processors.py:46 | a successful `find` from a non-negative start returns an occurrence at or after the start, with no earlier occurrence in between |
| FlairFrames.SpanKeyInjective | english/utils/nlp_flair.py:179 | the `start_end` key separates spans: equal keys mean equal start and end offsets |
| FlairFrames.SecondKeyInjective | english/utils/nlp_flair.py:180 | the `sentenceID_surfaceForm` key separates the pairs it is built from |
| FlairFrames.MergeOne | english/utils/nlp_flair.py:183-197 | only the sense changes; "match" exactly when the span table gives a truthy sense, which is taken; otherwise "fuzzy_match" exactly when the second-chance table does, which is taken; otherwise "non_match" and the proposition is unchanged |
| FlairFrames.MergeFramesSrl | english/utils/nlp_flair.py:174-200 | one merged proposition and one tally entry per SRL proposition, each the merge of that proposition against the tables built from all frames |
| FlairFrames.SpanTableKeys | english/utils/nlp_flair.py:177-179 | the span table's keys are exactly the frames' spans |
| FlairFrames.SpanTableLastWins | english/utils/nlp_flair.py:177-179 | a span maps to the sense of the last frame with that span |
| FlairFrames.SecondTableKeys | english/utils/nlp_flair.py:177-180 | the second-chance table's keys are exactly the frames' (sentence, surface form) pairs |
| FlairFrames.SecondTableLastWins | english/utils/nlp_flair.py:177-180 | such a pair maps to the sense of the last frame with it |
| FlairFrames.MergeFromSpan | english/utils/nlp_flair.py:185-190 | a proposition whose span's last frame has a truthy sense takes that sense, as a "match" |
| FlairFrames.MergeFromSecond | english/utils/nlp_flair.py:191-193 | with no frame at its span, a proposition takes the truthy sense of the last frame with its sentence and surface form, as a "fuzzy_match" |
| FlairFrames.MergeNoFrame | english/utils/nlp_flair.py:195-197 | a proposition no frame shares a key with is unchanged, as a "non_match" |
| Wiki.MakeLink | english/utils/utils_wiki.py:227-231 | the URL is the Wikipedia address of the title with spaces as underscores |
| Wiki.WikiLinkDetails | english/utils/utils_wiki.py:212-231 | it fails, at `bracketed_string[-1]`, exactly on the empty string, and returns no link exactly for a `[[File:` or `[[Category:` tag |
| Wiki.PlainLink | english/utils/utils_wiki.py:223-231 | "[[T]]" followed by a character gives title T with `<br/>` read as a space, surface form T, and an extra 's' when that character is 's' |
| Wiki.PipedParts | english/utils/utils_wiki.py:220 | a link with one '\|' splits into the part before it and the part after it |
| Wiki.PipedLink | english/utils/utils_wiki.py:219-231 | "[[T\|F]]" followed by a character gives title T with `<br/>` read as a space, surface form F, and an extra 's' when that character is 's' |
| Wiki.PlainLinkAtEnd | english/utils/utils_wiki.py:224 | as written, a plain link that ends the text loses the last character of its title and surface form |
| Wiki.ViennaAtEnd | english/utils/utils_wiki.py:224 | as written, "[[Vienna]]" at the end of the text is read as the surface form "Vienn" |
| Wiki.WikiLinkCorrected | english/utils/utils_wiki.py:212-231 | the corrected reading returns no link exactly for an ignored tag |
| Wiki.PlainLinkCorrected | english/utils/utils_wiki.py:223-231 | corrected, "[[T]]" gives title T and surface form T whether or not a character follows, plus 's' only when the next character is 's' |
| Wiki.PipedLinkCorrected | english/utils/utils_wiki.py:219-231 | corrected, "[[T\|F]]" gives title T and surface form F whether or not a character follows |
| Wiki.CloseAt | english/utils/utils_wiki.py:236 | the lazy `.+?\]\]` ends at the first "]]" at or after the position, with no line break before it |
| Wiki.MatchAt | english/utils/utils_wiki.py:236 | a match starts with "[[", ends with "]]" and holds at least one character between them |
| Wiki.FindLinks | english/utils/utils_wiki.py:236 | the matches are real matches, from the starting position on, and do not overlap |
| Wiki.FindLinksComplete | english/utils/utils_wiki.py:236 | no match is skipped: every position from the start on where a match could begin lies inside one of the matches found |
| Wiki.LinkPair | english/utils/utils_wiki.py:237-241 | a match makes at most one assignment |
| Wiki.LinkTextNonEmpty | english/utils/utils_wiki.py:237-238 | the text handed on is never empty, so `_get_wiki_link_details` never fails there |
| Wiki.GetWikiLinkedEntities | english/utils/utils_wiki.py:234-242 | the loop computes the dictionary of the matches' assignments |
| Wiki.LinkPairsNext | english/utils/utils_wiki.py:237-241 | match `k` adds the surface form and URL `_get_wiki_link_details` returned for it, or nothing for an ignored tag |
| Wiki.LinkedEntitiesLastWins | english/utils/utils_wiki.py:234-242 | a surface form is a key exactly when some link gives it, and it maps to the URL of the last such link |
| Wiki.SectionTitles | english/utils/utils_wiki.py:170-177 | "Summary" at level 1 first, then one title per heading |
| Wiki.TitleAt | english/utils/utils_wiki.py:172-177 | title `i` comes from heading `i - 1` |
| Wiki.SectionStarts | english/utils/utils_wiki.py:169-176 | 0 first, then one past the end of each heading |
| Wiki.SectionEnds | english/utils/utils_wiki.py:168-175 | each heading's start, in order |
| Wiki.ZipSections | english/utils/utils_wiki.py:181 | the zip stops at the shortest list: one entry per section end |
| Wiki.SectionEntryIs | english/utils/utils_wiki.py:181-184 | section `i` is numbered `i + 1`, with the summary or heading title and level, and holds the stripped text from its start to the next heading |
| Wiki.ExtractSections | english/utils/utils_wiki.py:166-185 | both loops give the dictionary of the section entries |
| Wiki.ZipIntoDict | english/utils/utils_wiki.py:179-185 | the second loop puts the zipped entries in order |
| Wiki.SectionsLastWins | english/utils/utils_wiki.py:179-185 | a title is a key exactly when one of the zipped sections has it, so the text after the last heading is never a section, and it holds the last such section |
| Wiki.RunEnd | english/utils/utils_wiki.py:200 | the greedy `[\w\s]*` run stops at the first character that is neither a word character nor whitespace |
| Wiki.KeyValue | english/utils/utils_wiki.py:200-207 | a matching line starts with '\|' and has at least three characters |
| Wiki.KeyValueLine | english/utils/utils_wiki.py:200-207 | a line "\|k = v" assigns its stripped key and value |
| Wiki.ExtractInfobox | english/utils/utils_wiki.py:188-209 | no infobox gives `None`; otherwise the dictionary of the lines' assignments |
| Wiki.InfoboxLastWins | english/utils/utils_wiki.py:199-209 | a key is in the infobox exactly when some line assigns it, and it holds the last such line's value |
| NlpJson.TokenJsonRoundTrip | english/utils/nlp_common.py:83-99 | the JSON token can be read back into the token record given only the sentence number and NER tag it drops; it has no `DEPS` and no NER label |
| NlpJson.GroupBySentence | english/utils/nlp_common.py:125-127 | the `defaultdict(list)` loop computes the grouping by `sent_id` |
| NlpJson.SentencizeSpec | english/utils/nlp_common.py:125-127 | one group per distinct `sent_id`, in first-appearance order, holding exactly that sentence's tokens in input order |
| NlpJson.MorphologyOf | english/utils/nlp_common.py:124-136 | the two loops compute the morphology layer of the grouping |
| NlpJson.MorphologySpec | english/utils/nlp_common.py:124-136 | one entry per distinct `sent_id` in first-appearance order, each with the given paragraph, the sentence number when recorded, its own tokens' texts joined by spaces, and their JSON tokens |
| NlpJson.MorphologyOrder | dutch/utils_nlp.py:73-82 | the entries name exactly the document's sentence numbers, each once, in order of first appearance |
| NlpJson.OrEmpty | english/utils/nlp_common.py:75-78 | an absent optional layer becomes the empty list, a present one is kept |
| NlpJson.CommonNlpToDictSpec | english/utils/nlp_common.py:68-80 | the text is the input text; tokenization and morphology sit under the model's name, the tokenization being the token texts in order and the morphology one entry per distinct `sent_id` with paragraph 0; absent layers become empty lists |
| NlpJson.DutchNlpToDictSpec | dutch/utils_nlp.py:71-94 | one morphology entry per distinct `sent_id` with that sentence number, no paragraph and the sentence's JSON tokens; absent layers become empty lists |
| NlpJson.EnglishNlpToDictSpec | english/utils_nlp.py:81-104 | the document fails with KeyError exactly when the entities are absent; otherwise they pass through unchanged, time expressions and events are empty, and the morphology has one entry per distinct `sent_id` |
| NlpJson.CreateNlpTemplate | english/utils/nlp_common.py:102-121 | without a path, or with a path to no file, the fresh template and `False`; `True` exactly when a stored file exists, and then its data |
| NlpJson.FreshTemplateEmpty | english/utils/nlp_common.py:104-112 | a fresh template holds the text and nothing else |
| NlpJson.AddJsonFlairNer | dutch/utils_nlp.py:224-238 | the loop computes the records |
| NlpJson.AddJsonFlairNerCorrect | dutch/utils_nlp.py:224-238 | it fails exactly when there are more tagged sentences than sentence strings; otherwise one record per tagged span, sentence by sentence, with offsets shifted by the summed lengths of the sentences before |
| CorefAlign.OrderedUnique | dutch/add_coref_layer.py:117-120 | the comprehension with its `seen` set computes the order-keeping dedup |
| Common.DedupSpec | dutch/add_coref_layer.py:117-120 | `ordered_unique` returns each element of its input exactly once, nothing else, in the order of first occurrences |
| CorefAlign.DedupOrder | dutch/add_coref_layer.py:120 | two elements keep the relative order of their first occurrences after `ordered_unique` |
| CorefAlign.WindowPass | dutch/add_coref_layer.py:128-136 | the window loop, with its `break` at the first equal text, computes the raw pairs and misses |
| CorefAlign.ScanFacts | dutch/add_coref_layer.py:130-136 | one window pairs the reference token only with window tokens of equal text and misses only window tokens |
| CorefAlign.RawPassSound | dutch/add_coref_layer.py:129-136 | every raw pair comes from the window of its own reference token |
| CorefAlign.MatchedPair | dutch/add_coref_layer.py:137-142 | each pair of `matched` belongs to a reference token; inside the other sequence it comes from that token's window, beyond it it pairs the token with the last other token |
| CorefAlign.Normalize | dutch/add_coref_layer.py:144-156 | the normalisation loop, with the recovery loop over the snapshot `missed[:5]`, computes the normalisation fold |
| CorefAlign.RecoverFacts | dutch/add_coref_layer.py:148-153 | recovery keeps `latest_other_ix`, appends only links to snapshot tokens that pass the prefix and index test, and pops exactly one head of `missed` per accepted link |
| CorefAlign.CexRecoverFirst | dutch/add_coref_layer.py:148-153 | an accepted candidate pops the head of `missed`, not the candidate itself: with the head refused and two later candidates accepted, the second candidate stays in `missed` |
| CorefAlign.NormFacts | dutch/add_coref_layer.py:146-156 | normalisation only appends, every appended link comes from a pair or a miss, and every pair with a partner leaves its link |
| CorefAlign.FoldLinks | dutch/add_coref_layer.py:158-161 | the dictionary loop computes the last-writer-wins map of the links |
| CorefAlign.Ref2OtherSound | dutch/add_coref_layer.py:158-161 | every key comes from some link and holds that link's value, and every link's key is present |
| CorefAlign.Ref2OtherLast | dutch/add_coref_layer.py:161 | the last link of a key decides its value |
| CorefAlign.AlignTokenSequences | dutch/add_coref_layer.py:122-162 | the whole function computes the alignment map, or the `IndexError` of `other_tokens[-1]` on an empty other sequence |
| CorefAlign.LinksSound | dutch/add_coref_layer.py:140-156 | normalisation fails exactly when trailing reference tokens need the last token of an empty other sequence; otherwise every link joins tokens of equal or prefix-related text, or a trailing token to the last other token |
| CorefAlign.AlignSound | dutch/add_coref_layer.py:158-162 | the alignment fails only for an empty other sequence with a non-empty reference; every key is a reference index and every value an other index justified by prefix-related text or trailing position |
| CorefAlign.AlignExact | dutch/add_coref_layer.py:129-133 | a reference token equal to the other token at its own index is aligned to that index |
| CorefAlign.AlignTrailing | dutch/add_coref_layer.py:140-142 | every reference index at or beyond the end of a non-empty other sequence is aligned to the last other index |
| CorefAlign.AlignNextAsWritten | dutch/add_coref_layer.py:159-161 | as written, `ordered_unique(normalized)` can drop the exact pair one ahead: reference ["ab","zz"] against ["q","ab","a"] aligns 0 to 2 |
| CorefAlign.FoldLastWins | dutch/add_coref_layer.py:158-161 | a pair with a partner decides its reference token's entry unless a later pair belongs to the same token |
| CorefAlign.NextSplit | dutch/add_coref_layer.py:129-137 | when token `i` misses its own index and hits the next one, its exact pair sits in `matched` behind its miss and no later pair belongs to `i` |
| CorefAlign.AlignNextCorrected | dutch/add_coref_layer.py:129-161 | with the links folded in order, a reference token that differs from `other[i]` and equals `other[i+1]` is aligned to `i + 1` |
| CorefLayer.ReadConllCoref | dutch/add_coref_layer.py:98-114 | the line loop computes the CoNLL token list, failing with `ValueError` on a token id that is not an integer |
| CorefLayer.ReadConllSpec | dutch/add_coref_layer.py:102-113 | a successful read yields one token per token line, in order: its text is the line's fourth field, `token_doc_id` its position, and `sent_id` the number of blank lines before it |
| CorefLayer.Endpoints | dutch/add_coref_layer.py:173-183 | no range exactly when neither end maps; otherwise a mapped end takes its mapped value and an unmapped one the raw CoNLL index |
| CorefLayer.ParseRow | dutch/add_coref_layer.py:169-171 | the three numbers parse or the row raises `ValueError`; the start becomes 0-based and the end is kept |
| CorefLayer.Project | dutch/add_coref_layer.py:184-190 | the mention's characters run from its first token's `start_char` to its last token's `end_char`; a missing token raises `IndexError`, a CoNLL text that differs from the row's raises `AssertionError` |
| CorefLayer.GetCorefClusters | dutch/add_coref_layer.py:165-197 | the loop over the mention rows computes the cluster dictionary |
| CorefLayer.MentionOfSpec | dutch/add_coref_layer.py:168-190 | a parsed row is dropped exactly when neither end maps (0 counting as unmapped); otherwise it joins its cluster with the mapped or raw ends |
| CorefLayer.ZeroIsUnmapped | dutch/add_coref_layer.py:175-183 | a start mapped to token 0 with an unmapped end drops the mention, because 0 is falsy |
| CorefLayer.ClusterRunSpec | dutch/add_coref_layer.py:166-197 | each cluster holds exactly the kept mentions of its rows, in row order, and is present only when it holds one |
| CorefLayer.SplitCluster | dutch/add_coref_layer.py:72-77 | the inner loop splits a cluster into its person and its location mentions |
| CorefLayer.RelevantSpec | dutch/add_coref_layer.py:73-78 | a mention is kept iff it is a person (human or PER) or a location, persons before locations |
| CorefLayer.EmitMentions | dutch/add_coref_layer.py:81-94 | the inner loop appends a cluster's kept mentions, each numbered by the list's length |
| CorefLayer.FilterClusters | dutch/add_coref_layer.py:70-95 | the filter loop over the clusters, in dict order, computes the clean layer |
| CorefLayer.CleanClustersSpec | dutch/add_coref_layer.py:70-95 | the layer lists the kept mentions of each cluster in dict order and each entry's `mention_id` is its own position |
| CorefLayer.KeptRelevant | dutch/add_coref_layer.py:73-78 | every entry of the layer is a person or location mention of its cluster |
| CorefLayer.JsonifySpec | dutch/add_coref_layer.py:60-95 | on the as-written alignment that `jsonify_coref_output` uses, and on the corrected one alike, a non-empty layer belongs to a real biography id, and each entry is numbered by its position and carries the model's name |
| IdmIndex.SpanKeyInjective | english/nlp_to_idm_json.py:93 | the `start_end` key separates spans |
| IdmIndex.EntityStep | english/nlp_to_idm_json.py:93-100 | every record stays an entity record |
| IdmIndex.AddEntitiesSpec | english/nlp_to_idm_json.py:91-100 | one record per distinct span, keyed in first-occurrence order, keeping the first entity's ID, sentence, offsets and surface form, holding every category on that span in order, no relations and cluster -1; `entity_dict` knows every ID and maps it to an entity carrying that ID |
| IdmIndex.FoldedKnown | english/nlp_to_idm_json.py:94-95 | a span seen before keeps its record and gains the new category when the entity is on it |
| IdmIndex.FoldedNew | english/nlp_to_idm_json.py:96-98 | a span seen for the first time gets a fresh record from the entity |
| IdmIndex.CategoriesAbsent | english/nlp_to_idm_json.py:94-98 | a span no entity is on collects no categories |
| IdmIndex.FoldEntities | english/nlp_to_idm_json.py:91-100 | the loop builds `universal_dict` and `entity_dict` in one pass |
| IdmIndex.RelationStepSpec | english/nlp_to_idm_json.py:103-113 | a relation whose two IDs are both known is appended to the subject's and the object's span records (twice to a span holding both); any other relation changes nothing |
| IdmIndex.FoldRelations | english/nlp_to_idm_json.py:103-113 | the loop folds the relation step over the relations in order |
| IdmIndex.LinkStep | english/nlp_to_idm_json.py:127-131 | a link keeps the index well formed |
| IdmIndex.AddLinksLastWins | english/nlp_to_idm_json.py:126-131 | every linked span has a record whose link is the last one given for that span |
| IdmIndex.FoldLinks | english/nlp_to_idm_json.py:126-131 | the loop folds the link step over the links in order |
| IdmIndex.AddLinksGrows | english/nlp_to_idm_json.py:126-131 | links only add spans: keys stay distinct and keep their order |
| IdmIndex.MentionStep | english/nlp_to_idm_json.py:136-141 | a mention keeps the index well formed |
| IdmIndex.MentionStepSpec | english/nlp_to_idm_json.py:136-141 | a mention's span gets a record with its cluster and surface form; an earlier record keeps its entity data and link; a new span gets a mention-only record; no other span changes |
| IdmIndex.ClusterStep | english/nlp_to_idm_json.py:135-141 | a successful cluster keeps the index well formed |
| IdmIndex.FoldCluster | english/nlp_to_idm_json.py:135-141 | the loop folds one cluster's mentions, with `int(cl_id)` failing as ValueError only at a mention |
| IdmIndex.AddCorefErrStays | english/nlp_to_idm_json.py:134-141 | once a cluster fails, the later clusters are never reached |
| IdmIndex.FoldCoref | english/nlp_to_idm_json.py:133-141 | the loop folds the clusters in the coreference dictionary's order |
| IdmIndex.UniversalIndex | english/nlp_to_idm_json.py:88-141 | a successful build leaves a well-formed index |
| IdmIndex.BuildUniversalIndex | english/nlp_to_idm_json.py:88-141 | the four layers folded in order give the index and `entity_dict` |
| IdmUnify.EntKeyInjective | english/nlp_to_idm_json.py:383 | `ent_<n>` keys separate their numbers |
| IdmUnify.AppendAllAbsentSpec | english/nlp_to_idm_json.py:392-397 | appending the absent values keeps the old list in front, adds every new value and nothing else, and adds no duplicate |
| IdmUnify.AppendAllPresent | english/nlp_to_idm_json.py:392-397 | values all present already change nothing |
| IdmUnify.MergeIdempotent | english/nlp_to_idm_json.py:385-399 | merging the same mention into a cluster entry twice is merging it once |
| IdmUnify.ClusterPass | english/nlp_to_idm_json.py:372-427 | the coreference pass leaves a well-formed unified table |
| IdmUnify.MentionSkipped | english/nlp_to_idm_json.py:380-425 | a mention whose span holds no entity record changes nothing |
| IdmUnify.MentionToCluster | english/nlp_to_idm_json.py:383-422 | a mention whose record has cluster id `c >= 0` maps the entity to `ent_<c+1>`, whose entry becomes the old entry merged with the record (lists grow only by absent values) or a fresh entry of the record; the entity becomes clustered, its surface form is registered under `ent_<c+1>`, the singleton counter stays and no other entry changes |
| IdmUnify.MentionToSingleton | english/nlp_to_idm_json.py:383-422 | a mention whose record has a negative cluster id maps the entity to `ent_<singletonIds>`, a fresh entry of the record, and moves the counter on by one; the entity becomes clustered and its surface form is registered under `ent_<c+1>` for the negative `c`, not under the singleton's key |
| IdmUnify.MentionsSingletonCount | english/nlp_to_idm_json.py:377-420 | the singleton counter moves on exactly once per mention whose entity record has a negative cluster id |
| IdmUnify.SingletonNumbering | english/nlp_to_idm_json.py:377-420 | singleton keys count up from the number of clusters plus one: a singleton mention is mapped to `ent_<clusters + 1 + s>`, `s` being the number of singleton mentions before it |
| IdmUnify.MentionsRegistry | english/nlp_to_idm_json.py:378-422 | the pass adds to the surface-form registry exactly the surface forms of the mentioned entity records |
| IdmUnify.ClusterPassRegistry | english/nlp_to_idm_json.py:372-427 | after the coreference pass the registry holds exactly the surface forms of mentioned entity records |
| IdmUnify.CreateUnifiedUniversalDict | english/nlp_to_idm_json.py:378-422 | the outer loop folds the clusters in the coreference dictionary's order |
| IdmUnify.ClusterMentions | english/nlp_to_idm_json.py:379-425 | the inner loop folds one cluster's mentions in order |
| IdmUnify.PutClusterFresh | english/nlp_to_idm_json.py:377-383 | a cluster entry `ent_<cid+1>` numbered below the next singleton number leaves the singleton numbers unused |
| IdmUnify.MentionsInvariants | english/nlp_to_idm_json.py:378-422 | the pass keeps every mapped and clustered ID pointing at an existing entry and each entry free of repeated IDs, spans and surface forms; with cluster ids below the cluster count, singleton numbers never collide with existing entries |
| IdmUnify.MentionsCoherent | english/nlp_to_idm_json.py:378-422 | without the cluster-id bound the pass still keeps the mapping pointing at existing entries and entries duplicate-free |
| IdmUnify.Unify | english/nlp_to_idm_json.py:190-238 | a successful unification leaves a well-formed unified table |
| IdmUnify.UnifyEntities | english/nlp_to_idm_json.py:190-238 | the coreference pass and then the fallback loop over the universal index |
| IdmUnify.FallbackJoinFacts | english/nlp_to_idm_json.py:208-222 | an unclustered entity whose surface form is registered is mapped to the registered entry, whose lists grow by exactly its ID, span, surface form, votes, relations, own link and metadata link, with no duplicate check; no other entry, the registry, the clustered set or the singleton counter changes, and the mapping stays coherent |
| IdmUnify.FallbackSingletonFacts | english/nlp_to_idm_json.py:224-238 | an unclustered entity with an unregistered surface form is mapped to the new entry `ent_<singletonIds>`, made of the record with its link and the metadata link, and the counter moves on by one; its surface form stays unregistered and the registry and clustered set are unchanged |
| IdmUnify.FallbackStepErr | english/nlp_to_idm_json.py:206-210 | the fallback step fails, with KeyError, exactly when an unclustered entity's surface form is registered under a key that has no entry |
| IdmUnify.FallbackKeepsRegistry | english/nlp_to_idm_json.py:205-238 | the fallback never changes the surface-form registry or the clustered set |
| IdmUnify.UnifyRegistry | english/nlp_to_idm_json.py:205-238 | after unification the registry is the one the coreference pass built at line 422, so the fallback matches only surface forms of mentioned entity records |
| IdmUnify.FallbackFacts | english/nlp_to_idm_json.py:205-238 | the fallback keeps the mapping coherent, loses no mapped ID, and maps every entity record it has passed |
| IdmUnify.UnifyCovers | english/nlp_to_idm_json.py:190-238 | after unification every entity of the universal index is mapped to an existing unified entity, as the relation lookups at lines 335-337 need |
| IdmUnify.UnifyExtendsClusters | english/nlp_to_idm_json.py:205-238 | with cluster ids below the cluster count, the fallback keeps every entry the coreference pass built and only extends its lists |
| IdmGraph.StringifyIdValue | english/nlp_to_idm_json.py:363-369 | the padded id is all digits and its decimal value is the counter |
| IdmGraph.StringifyIdWidth | english/nlp_to_idm_json.py:364-367 | counters 1 to 999 give exactly three characters |
| IdmGraph.StringifyIdInjective | english/nlp_to_idm_json.py:363-369 | different counters never give the same id |
| IdmGraph.InverseRelationSpec | english/nlp_to_idm_json.py:7-15 | the kinship relations invert back to themselves, `married_to` and `sibling_of` are their own inverses, and exactly the relations outside the table get "unk" |
| IdmGraph.LongestAtSpec | english/nlp_to_idm_json.py:253 | the chosen surface form is a longest one and every later form is shorter, as the last element of a stable sort by length |
| IdmGraph.MostCommonSpec | english/nlp_to_idm_json.py:254 | the chosen label occurs in the list, at least as often as any other, and first among the labels tied with it |
| IdmGraph.MakeIdInjective | english/nlp_to_idm_json.py:259-274 | under one last name an id determines its entity kind and its counter |
| IdmGraph.MakeIdPrefix | english/nlp_to_idm_json.py:259-274 | an id starts with the last name, a dash, the kind's two-letter code and a dash |
| IdmGraph.TypeOne | english/nlp_to_idm_json.py:251-285 | the loop body types one more unified entity |
| IdmGraph.TypeEntities | english/nlp_to_idm_json.py:250-285 | the first loop types the unified entities in order, an empty surface-form or label list ending it with an IndexError |
| IdmGraph.TypeStepInv | english/nlp_to_idm_json.py:280-285 | one step keeps ids distinct and the two id maps inverse, and records exactly one more entity in `univ_id2idm_id` |
| IdmGraph.TypeAllFresh | english/nlp_to_idm_json.py:250 | each step types an entity no earlier step has typed |
| IdmGraph.TypingSpec | english/nlp_to_idm_json.py:250-285 | every unified entity gets an entry in `univ_id2idm_id`; it becomes an IDM entity exactly when its most common label has a kind, labelled with its longest surface form and with an id carrying that kind's code; the ids are distinct and `idm_id2univ_id` leads back to each entity |
| IdmGraph.EventIdEnds | english/nlp_to_idm_json.py:313 | an event id ends in `-ev-` and its padded number |
| IdmGraph.NumberedDistinct | english/nlp_to_idm_json.py:313 | one id cannot end in two different event numbers |
| IdmGraph.CreateIdmEvent | english/nlp_to_idm_json.py:430-455 | the entity table keeps its keys and order, and a well-formed state stays well formed |
| IdmGraph.CreateIdmEventShape | english/nlp_to_idm_json.py:430-455 | one event is appended with the given id and label, kind `event-kind-<kind>`, the object's IDM id with role `role-<object role>` first and the subject with `role-<subject role>` second; the counter grows by one; the subject gains a reference to the event under its role and the object under its role (both, in that order, when they are one entity), and no other entity changes; the event vocabulary maps the kind to the object role's name and the role vocabulary maps both roles to their names |
| IdmGraph.CreationStep | english/nlp_to_idm_json.py:308-324 | a creation step keeps the entity table's keys and order, and a well-formed state stays well formed |
| IdmGraph.CreationStepEvent | english/nlp_to_idm_json.py:308-324 | a successful creation step appends one event `<lastname>-<ev_sub_id>-ev-<n>` labelled with the work's first surface form, of kind `event-kind-creation`, with the work as `role-object_created` and `<lastname>-pr-001` as `role-was_creator`; the person gains the `was_creator` reference, the work the `object_created` one, and the vocabularies gain those entries |
| IdmGraph.CreationStepErrors | english/nlp_to_idm_json.py:308-317 | the step fails exactly when `<lastname>-pr-001` is not an IDM entity, `ev_sub_id` is unset or the work has no surface form, with KeyError, NameError and IndexError in that order |
| IdmGraph.RelationStep | english/nlp_to_idm_json.py:326-346 | a relation step keeps the entity table's keys and order, and a well-formed state stays well formed |
| IdmGraph.RelationStepEvent | english/nlp_to_idm_json.py:326-346 | a successful relation step sets `ev_sub_id` to the second dash piece of the current entity's IDM id; when the object is not an IDM entity nothing else changes; otherwise one event is appended labelled with the object's surface form, of kind `event-kind-event-kind-<relation>`, with the object under `role-<inverse relation>` first and the subject under `role-<relation>` second, the two entities gain those references, and the vocabularies gain the kind and roles |
| IdmGraph.RelationStepErrors | english/nlp_to_idm_json.py:326-337 | the step fails exactly when the current entity's IDM id has no dash or a subject or object id is unknown, with IndexError for the first and KeyError otherwise |
| IdmGraph.RelationEventsCount | english/nlp_to_idm_json.py:326-346 | the relation loop keeps the earlier events and appends one per relation whose object is an IDM entity |
| IdmGraph.EntityEventsCount | english/nlp_to_idm_json.py:287-346 | an entity without an IDM type adds no events; a typed one adds its creation event when it is tagged `WORK_OF_ART` and one per relation with an IDM object |
| IdmGraph.EntityEvents | english/nlp_to_idm_json.py:287-348 | an entity step keeps the entity table's keys, and a well-formed state stays well formed |
| IdmGraph.RelationLoop | english/nlp_to_idm_json.py:326-345 | the loop folds the relation step over an entity's relations, stopping at the first error |
| IdmGraph.EmitEvents | english/nlp_to_idm_json.py:287-348 | the loop folds the entity step over the unified entities in order, stopping at the first error |
| IdmGraph.BuildIdm | english/nlp_to_idm_json.py:243-348 | a successful conversion leaves well-formed entity and vocabulary tables |
| IdmGraph.BuildIdmSpec | english/nlp_to_idm_json.py:243-348 | after a successful conversion event `i` is numbered `i + 1`, the event ids are distinct, each event's object and any subject name IDM entities, and every role reference an entity carries names an emitted event |
| IdmGraph.BuildIdmEventCount | english/nlp_to_idm_json.py:243-348 | a successful conversion emits, over the unified entities in order, one event per creation and per relation whose object is an IDM entity |
| IdmGraph.NumberedIdsDistinct | english/nlp_to_idm_json.py:313-345 | events numbered by their position have pairwise distinct ids |
| IdmGroup.KindOfCodeSpec | english/group_nlp_idm_jsons.py:38-49 | a type code names a kind exactly when it is one of `pr`, `pl`, `gr`, `ob`, and that kind's code is the type code |
| IdmGroup.SplitOne | english/group_nlp_idm_jsons.py:34-35 | an id splits into a single piece, so that `split('-')[1]` is an IndexError, exactly when it holds no dash |
| IdmGroup.Advance | english/group_nlp_idm_jsons.py:37-51 | after a successful entity `mov_ent_id` is set |
| IdmGroup.UnifyIdmJsons | english/group_nlp_idm_jsons.py:16-55 | the loops over documents and their entities group all entities in reading order |
| IdmGroup.GroupFile | english/group_nlp_idm_jsons.py:33-55 | the inner loop continues the grouping with one document's entities |
| IdmGroup.RenumberEntity | english/group_nlp_idm_jsons.py:34-55 | the loop body renumbers and records one entity |
| IdmGroup.MintedId | english/group_nlp_idm_jsons.py:37-49 | an entity with a counter-like rest under a known type gets the movement id `<movement>-<code>-<n>` with that kind's new counter value |
| IdmGroup.MintedDistinct | english/group_nlp_idm_jsons.py:37-49 | two such entities of one kind get increasing counters and different ids |
| IdmGroup.SlugKept | english/group_nlp_idm_jsons.py:50-51 | a rest holding none of '0', '1', '2' is kept after the movement name and type code, and no counter moves |
| IdmGroup.UnknownTypeReuses | english/group_nlp_idm_jsons.py:37-49 | a counter-like rest under an unknown type reuses the previous `mov_ent_id`, a NameError for the first entity, and no counter moves |
| IdmGroup.GroupLastWins | english/group_nlp_idm_jsons.py:54-55 | a movement id maps to the last entity given it, with its id replaced |
| IdmGroup.GroupMapperLastWins | english/group_nlp_idm_jsons.py:53 | an original id maps to the movement id of its last occurrence |
| IdmGroup.GroupKeys | english/group_nlp_idm_jsons.py:55 | the grouped entities' keys are exactly the movement ids handed out |
| IdmGroup.IdAtPrefix | english/group_nlp_idm_jsons.py:33-55 | an entity's movement id depends only on the entities read before it |

## Left out

- Tagger and parser inference: AllenNLP `Predictor.predict`, Flair, spaCy, Stanza and CLASSLA pipelines, and `run_flair`, `run_spacy`, `run_stanza`, `run_classla`'s library walk and `add_morphosyntax_flair`. Their outputs (words, tag lists, token records, coreference clusters) are inputs of the model.
- The network: Wikipedia search and fetch, Wikidata queries, the HTTP call in `TurkuNerProcessor.process`, and the coordinate lookup with its cache in `english/nlp_to_idm_json.py:291-306`. No entity gets a `geometry`. `get_relevant_items_from_infobox`, `get_raw_wikipedia_article` and `get_char_offsets_from_tokenized` are not part of this model. `wiki_linked_dict`, `lastname` and the tokens' character offsets are parameters.
- Regular-expression engines: `Wiki.ExtractSections` takes the heading matches of `=+(\s.+\s)=+` as (start, end) pairs, and `Wiki.ExtractInfobox` takes the text of the outer infobox match. The link pattern `\[\[.+?\]\]` and the key-value pattern are written out. `\w` is read as ASCII letters, digits and '_'. `str.upper()` is modelled for ASCII letters only.
- File, JSON and process I/O: reading and writing files, `json.dump`/`json.load`, the debug dumps, `print` and the printed `Counter` tallies, `glob` order (the documents are a sequence), the subprocess in `dutch/add_coref_layer.py:26-57`, the `'status': '200'` envelope, and HTTP routes.
- The debug-only sentence grouping (`english/nlp_to_idm_json.py:147-187`) and the commented-out semantic-role indexing (114-124): they do not reach the output.
- The writing of the IDM file with `json.dump` at `english/nlp_to_idm_json.py:358-360` is not modelled. The document it writes (entities in `idm_entity_dict` order, events, and the two vocabularies' values) is `IdmGraph.ToIdm`.
- `unify_idm_jsons` does not remap events or the event references inside entities. The source leaves them as they are, and so does the model.
- Floating point and statistics: pandas precision, recall and F1, `_match_by_distance`, `finnish/iaa.py`, and `spacy_alignments.get_alignments`. The alignments `a2p`/`p2a` and the distance matcher are parameters. The Stanza evaluation script's outer `evaluate` loop and its data frame are not modelled.
- HeidelTime and TIMEX3 parsing (`dutch/utils_nlp.py:205-221`, `english/utils/nlp_heideltime.py`).
- Object aliasing: the model uses values. In `convert_nlp_to_idm_json`, where aliasing matters (the relation's object can be the current entity), every update goes through the entity dictionary by key, which gives the same result as the in-place edits.
- `Common.ParseInt`: models `int()` on an optionally signed ASCII decimal literal with surrounding whitespace. Underscore separators and non-ASCII digits, which Python also accepts, are read as `ValueError`.
- `DatasetBuilder.YieldCsvSentences`: a `ValueError` part-way through is the whole result. The sentences the generator yielded before the error are not returned with it.
- `Evaluation.EvaluateTurku`: the sentence loop of `evaluate` reads the module-level `annots` rather than its `annotations` parameter. The model reads the parameter, which is the same dictionary at the script's only call.
- `Evaluation.ReplaceEquivalencies`: requires every table key to be non-empty. Both tables in the source satisfy this, and an empty key would make Python's `str.replace` insert the value between every character.
- `IdmGraph.CreationStep`, `IdmGraph.RelationStep` and `IdmGraph.EntityEvents`: their own contracts say only that the entity table keeps its keys and stays well formed. What they append and when they fail is stated by `IdmGraph.CreationStepEvent`, `IdmGraph.CreationStepErrors`, `IdmGraph.RelationStepEvent`, `IdmGraph.RelationStepErrors` and `IdmGraph.EntityEventsCount`.
- `IdmGraph.CreateIdmEvent`: its own contract says only that the entity table keeps its keys and stays well formed. The event, the role references and the vocabulary entries it adds are stated by `IdmGraph.CreateIdmEventShape`.
- `IdmGraph.BuildIdmSpec`: states the numbering and the references of the whole event list, not each event's roles, kind and label. Those are stated one step at a time by `IdmGraph.CreationStepEvent` and `IdmGraph.RelationStepEvent`, and the number of events by `IdmGraph.BuildIdmEventCount`.
- `IdmIndex.LinkStep`, `IdmIndex.MentionStep`, `IdmIndex.ClusterStep` and `IdmIndex.UniversalIndex`: their own contracts say only that the index stays well formed. Their effect is stated by `IdmIndex.AddLinksLastWins`, `IdmIndex.MentionStepSpec` and `IdmIndex.AddCorefErrStays`.
- `IdmUnify.ClusterPass` and `IdmUnify.Unify`: their own contracts say only that the unified table is well formed. Where each mention and each unclustered entity is placed is stated step by step by `IdmUnify.MentionToCluster`, `IdmUnify.MentionToSingleton`, `IdmUnify.FallbackJoinFacts` and `IdmUnify.FallbackSingletonFacts`; the singleton numbering by `IdmUnify.SingletonNumbering`; the registry by `IdmUnify.ClusterPassRegistry` and `IdmUnify.UnifyRegistry`; coherence and coverage by `IdmUnify.MentionsInvariants`, `IdmUnify.FallbackFacts`, `IdmUnify.UnifyCovers` and `IdmUnify.UnifyExtendsClusters`.
- `Wiki.KeyValue`: its contract covers only the shape of a matching line. That a line "|k = v" is read as its stripped key and value is `Wiki.KeyValueLine`. That a non-matching line gives nothing is not stated.
- `IdmGroup.Advance`: its contract says only that `mov_ent_id` is set afterwards. The ids it gives are stated by `IdmGroup.MintedId`, `IdmGroup.SlugKept` and `IdmGroup.UnknownTypeReuses`.

## Findings

| source | as written | input that shows it | evidently intended | confidence | as-written member | corrected member |
|---|---|---|---|---|---|---|
| dutch/add_coref_layer.py:159-161 | the links pass through `ordered_unique` before the dictionary fold, so an exact pair repeated after a recovered pair is dropped, and the recovered pair wins | reference ["ab", "zz"], other ["q", "ab", "a"]: index 0 is aligned to 2 | a reference token that misses `other[i]` and equals `other[i+1]` is aligned to `i + 1`, as the exact pair comes last | medium, not executed | CorefAlign.AlignNextAsWritten | CorefAlign.AlignNextCorrected |
| finnish/utils_nlp.py:187-193 | only an I- label after "O" is turned into B-; an E- label after "O" becomes I- | labels "O", "E-PER" give "O", "I-PER" | every output is valid BIO, as the docstring says: no I- label at the start or after "O" | low, not executed | FinnishNlp.EAfterOAsWritten | FinnishNlp.FixCorrectedIsBio |
| finnish/dataset_builder.py:35-59 | the limit is checked only before a row, so the final flush at lines 57-59 yields a sentence past the limit | limit 1, rows with `ord` 1, 2, 1 yield " a b\n" and "c" | a truthy limit bounds the number of sentences yielded | medium, not executed | DatasetBuilder.CsvLimitExceeded | DatasetBuilder.CsvCorrectedWithinLimit |
| english/utils/utils_wiki.py:224 | `bracketed_string[2:-3]` assumes one character follows the link, and there is none at the end of the text | "[[Vienna]]" ending the text gives surface form "Vienn" | the title and surface form are what stands between the brackets | high, not executed | Wiki.ViennaAtEnd | Wiki.PlainLinkCorrected |
