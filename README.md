# Joshua decoder core, modelled in Dafny

This project models the core of the Joshua statistical machine-translation
decoder (Apache Joshua, Java) and proves properties of the model. It covers:

- **The decoder object** (`Decoder.java`). It holds the feature weights, read
  from a weights file and from the configuration's `weights` entries. It
  converts feature names to and from the Moses tuner's form, prints rules
  compactly, and rewrites a configuration template with new weights. It checks
  that packed grammars share one vocabulary. It handles the run-time
  directives `set_weights`, `add_rule` and `remove_rule`, which edit the
  weights and a custom phrase table (the `Decoder` class applies
  `set_weights` with its key corrected; see "## Findings"). It translates a sentence with a worker
  taken from its pool.
- **The phrase-search node** `Hypothesis`. It provides recombination
  equivalence (`equals`), a hash code that agrees with it and wraps around
  like Java `int`, ordering by descending score, and in-place recombination
  (`absorb`).
- **The `Distortion` feature.** It charges the jump between consecutive
  phrases.
- **The state-minimising KenLM feature.** It encodes a rule's target side for
  the native scorer, and keeps a process-wide registry from sentence id to
  native memory pool.
- **The list utilities** (`Lists.java`). These are `upto`, the `eachWithIndex`
  iterators over arrays and over other iterators, and their shared, reused
  holder objects.
- **The file helpers** (`FileUtility.java`). These are the big-endian
  `writeBytes`, `dirname`, `getLines` (with optional de-duplication) and
  `getFileAsString`.

Each module follows the form of its source. Objects whose fields the Java code
updates in place are classes with `modifies`/`reads` frames: `Hypothesis`,
`Decoder`, the KenLM pool registry, the iterators and holders, and the output
stream. Loops are methods with invariants, proved against a specification
function. Pure code is functions and lemmas.

Modules, one per file:
- `Wrappers`: Option, Result, Outcome.
- `Text`: the `java.lang.String` and regex operations used.
- `Rules` and `Features`.
- `Hypotheses`.
- `Distortion`.
- `StateMinimizingLM`.
- `DecoderNames`: `demoses`, `mosesize` and `formatRule`.
- `DecoderWeights`: weight reading and `writeConfigFile`.
- `DecoderCore`: checksums, directives, the custom table and the `Decoder` class.
- `Lists`.
- `FileUtility`.

Calls into code outside the core become parameters:
- the vocabulary;
- `Float.parseFloat`, `Double.toString` and the `Regex` predicates;
- the rule parser and `Rule.getEnglishWords`;
- `FormatUtils.isNonterminal`;
- the native `probRule`/`estimateRule`;
- a worker's `translate`;
- the hash codes of coverage vectors and DP states.

Files are passed in by content: a weights file and a template are sequences of
lines, and the input to `getLines` is its characters.

The checksum check follows the code at `Decoder.java:775-790`. Leading empty
checksums are passed over. From the first non-empty checksum on, every later
checksum must equal it, and that includes an empty one: an empty checksum does
not reset the comparison (`DecoderCore.EmptyAfterNonEmptyFails`).

## Model

Source paths are relative to the repository root.

| member | source | states |
|---|---|---|
| Hypotheses.Wrap32 | joshua-core/src/main/java/org/apache/joshua/decoder/phrase/Hypothesis.java:96-103 | The Java `int` a product wraps to lies in the 32-bit range and is congruent to the exact value modulo 2^32. |
| Hypotheses.Hypothesis.HashCode | joshua-core/src/main/java/org/apache/joshua/decoder/phrase/Hypothesis.java:96-103 | The wrapping hash loop (`31*j + 19*coverage hash`, then times `57 + h` per state) equals one wrap of the exact product `HashValue`. |
| Hypotheses.Hypothesis.HashValue | joshua-core/src/main/java/org/apache/joshua/decoder/phrase/Hypothesis.java:96-103 | The hash code is a 32-bit `int`. |
| Hypotheses.Hypothesis.Equals | joshua-core/src/main/java/org/apache/joshua/decoder/phrase/Hypothesis.java:111-135 | True exactly when the other object is a hypothesis with the same last source index, coverage and element-wise equal state list (both null counts as equal). |
| Hypotheses.RecombinableIsEquivalence | joshua-core/src/main/java/org/apache/joshua/decoder/phrase/Hypothesis.java:111-135 | Recombination equivalence is reflexive, symmetric and transitive. |
| Hypotheses.RecombinableSameHash | joshua-core/src/main/java/org/apache/joshua/decoder/phrase/Hypothesis.java:96-135 | Equal (recombinable) hypotheses have equal hash codes, whatever the coverage and state hash functions. |
| Hypotheses.Hypothesis.CompareTo | joshua-core/src/main/java/org/apache/joshua/decoder/phrase/Hypothesis.java:137-141 | Negative exactly when this node scores higher, zero on equal scores, positive when lower. |
| Hypotheses.CompareToIsDescendingOrder | joshua-core/src/main/java/org/apache/joshua/decoder/phrase/Hypothesis.java:137-141 | `compareTo` is antisymmetric and transitive, and orders by descending score. |
| Hypotheses.Hypothesis.Absorb | joshua-core/src/main/java/org/apache/joshua/decoder/phrase/Hypothesis.java:149-153 | On a recombinable node: the score becomes the larger of the two and the incoming edges of the added node are appended, in order, after this node's own; every edge of both lists is kept, duplicates included. |
| Hypotheses.Hypothesis.Root | joshua-core/src/main/java/org/apache/joshua/decoder/phrase/Hypothesis.java:57-61 | The root node: span (0, 1), lhs `[X]`, one begin-sentence edge with zero costs and null tails, first word covered, score = future cost. |
| Hypotheses.Hypothesis.FromCandidate | joshua-core/src/main/java/org/apache/joshua/decoder/phrase/Hypothesis.java:63-69 | A node from a candidate: its span end, states, coverage, score and one edge with the candidate's rule, costs and tail nodes. |
| Hypotheses.Hypothesis.Extend | joshua-core/src/main/java/org/apache/joshua/decoder/phrase/Hypothesis.java:72-75 | The extending constructor keeps only the previous coverage, the source end and the score; states, edges and lhs are empty. |
| Distortion.Create | joshua-core/src/main/java/org/apache/joshua/decoder/ff/phrase/Distortion.java:36-45 | Construction succeeds exactly under the "stack" search algorithm. |
| Distortion.ReportDenseFeatures | joshua-core/src/main/java/org/apache/joshua/decoder/ff/phrase/Distortion.java:47-53 | Records the dense index and reports the feature's one name. |
| Distortion.Compute | joshua-core/src/main/java/org/apache/joshua/decoder/ff/phrase/Distortion.java:56-71 | Nothing for the sentinel rules; otherwise one non-positive addition at the dense index, zero exactly when the phrase starts where the previous one ended; no tail node is an index error; the state is always null. |
| Distortion.JumpCostsItsLength | joshua-core/src/main/java/org/apache/joshua/decoder/ff/phrase/Distortion.java:60-65 | A jump of `d` positions costs exactly `-abs(d)`. |
| StateMinimizingLM.CheckLmType | joshua-core/src/main/java/org/apache/joshua/decoder/ff/lm/StateMinimizingLanguageModel.java:49-57 | Fails exactly when `lm_type` is given and is not "kenlm". |
| StateMinimizingLM.StateMinimizingLanguageModel.Create | joshua-core/src/main/java/org/apache/joshua/decoder/ff/lm/StateMinimizingLanguageModel.java:49-57 | Construction fails exactly when `lm_type` is given and is not "kenlm". |
| StateMinimizingLM.StateMinimizingLanguageModel.ReportDenseFeatures | joshua-core/src/main/java/org/apache/joshua/decoder/ff/lm/StateMinimizingLanguageModel.java:60-66 | Records the dense index and reports the feature's one name. |
| StateMinimizingLM.EstimateWords | joshua-core/src/main/java/org/apache/joshua/decoder/ff/lm/StateMinimizingLanguageModel.java:94-106 | One slot per target word. |
| StateMinimizingLM.EstimateWordArray | joshua-core/src/main/java/org/apache/joshua/decoder/ff/lm/StateMinimizingLanguageModel.java:92-106 | The filled `long[]` is the estimate encoding: `-1` for a nonterminal, the id for a terminal. |
| StateMinimizingLM.ScoringWords | joshua-core/src/main/java/org/apache/joshua/decoder/ff/lm/StateMinimizingLanguageModel.java:121-141 | Succeeds exactly when every nonterminal names an existing tail node, with one slot per target word. |
| StateMinimizingLM.ScoringWordArray | joshua-core/src/main/java/org/apache/joshua/decoder/ff/lm/StateMinimizingLanguageModel.java:121-141 | The filled `long[]` is the scoring encoding (negated tail state handle for a nonterminal), or the index error exactly when a tail is missing. |
| StateMinimizingLM.EncodingsAgreeOnTerminals | joshua-core/src/main/java/org/apache/joshua/decoder/ff/lm/StateMinimizingLanguageModel.java:94-141 | The two encodings agree on terminals; on a nonterminal the estimate holds `-1` and the scoring array the negated handle of tail `-(id+1)`. |
| StateMinimizingLM.StateMinimizingLanguageModel.EstimateCost | joshua-core/src/main/java/org/apache/joshua/decoder/ff/lm/StateMinimizingLanguageModel.java:89-110 | The cost is the weight times the native estimate of the estimate encoding. |
| StateMinimizingLM.StateMinimizingLanguageModel.Compute | joshua-core/src/main/java/org/apache/joshua/decoder/ff/lm/StateMinimizingLanguageModel.java:118-160 | A sentence's pool is created only on its first call (a fresh pool that becomes the one new live pool; no other pool is created or freed) and reused afterwards, when the live pools stay as they were; the result adds the scorer's probability at the dense index and returns its state; a missing tail changes nothing; registry invariants (live, distinct pools) are kept. |
| StateMinimizingLM.StateMinimizingLanguageModel.DestroyPool | joshua-core/src/main/java/org/apache/joshua/decoder/ff/lm/StateMinimizingLanguageModel.java:167-171 | The sentence is forgotten; its pool, if it had one, is freed natively; every other sentence keeps its pool. |
| StateMinimizingLM.StateMinimizingLanguageModel.ComputeFinal | joshua-core/src/main/java/org/apache/joshua/decoder/ff/lm/StateMinimizingLanguageModel.java:182-193 | No feature addition and a fresh empty KenLM state. |
| StateMinimizingLM.StateMinimizingLanguageModel.EstimateFutureCost | joshua-core/src/main/java/org/apache/joshua/decoder/ff/lm/StateMinimizingLanguageModel.java:199-201 | Always zero. |
| DecoderNames.Mosesize | joshua-core/src/main/java/org/apache/joshua/decoder/Decoder.java:553-560 | Length-preserving; identity without the Moses flag or without a `tm_`/`lm_` prefix; otherwise no `_` remains and the prefix becomes `tm-`/`lm-`. |
| DecoderNames.DemosesGivesJoshuaForm | joshua-core/src/main/java/org/apache/joshua/decoder/Decoder.java:831-839 | The result never ends in `=`, never starts with `tm-`/`lm-`, is never `OOV_Penalty`, is no longer than the input, and has no `=` at all when the input ended in one. |
| DecoderNames.DemosesKeepsPlainNames | joshua-core/src/main/java/org/apache/joshua/decoder/Decoder.java:831-839 | A name without `-` or `=` that is not `OOV_Penalty` is unchanged. |
| DecoderNames.DemosesFixesJoshuaNames | joshua-core/src/main/java/org/apache/joshua/decoder/Decoder.java:831-839 | Any name already in Joshua form is unchanged. |
| DecoderNames.DemosesUndoesMosesize | joshua-core/src/main/java/org/apache/joshua/decoder/Decoder.java:553-560 | Round trip: `demoses(mosesize(f)) == f` for every name without its own `-`/`=` that is not `OOV_Penalty`. |
| DecoderNames.DemosesIsIdempotent | joshua-core/src/main/java/org/apache/joshua/decoder/Decoder.java:831-839 | Converting a name back twice equals converting it once. |
| DecoderNames.FormatRule | joshua-core/src/main/java/org/apache/joshua/decoder/Decoder.java:218-237 | The source words after the first, `|||`, then the target words after the first, joined by single blanks. |
| DecoderWeights.ReadWeightLine | joshua-core/src/main/java/org/apache/joshua/decoder/Decoder.java:808-823 | The body of the `readWeights` loop for one line follows the line specification that `WeightFileLineOfPair` and `WeightFileLineWithLeadingSpace` describe. |
| DecoderWeights.WeightFileLineOfPair | joshua-core/src/main/java/org/apache/joshua/decoder/Decoder.java:808-823 | A line `NAME VALUE`, with any white space between them and a name that does not start a comment, adds `NAME` (converted back from Moses form when asked) with the parsed value; an unparsable value is fatal. |
| DecoderWeights.WeightFileLineWithLeadingSpace | joshua-core/src/main/java/org/apache/joshua/decoder/Decoder.java:808-817 | A line with white space in front splits into an empty first field, so the name is parsed as the value: fatal unless the name is itself a number, which the empty name then receives. |
| DecoderWeights.ReadConfigWeightLine | joshua-core/src/main/java/org/apache/joshua/decoder/Decoder.java:595-609 | The body of the loop over the configuration's `weights` entries follows the entry specification that `ConfigLineShape` and `ConfigLineOfPair` describe. |
| DecoderWeights.ConfigLineShape | joshua-core/src/main/java/org/apache/joshua/decoder/Decoder.java:596-609 | An entry yields a weight exactly when it splits into two fields with a numeric second field, and then the first field is the name; otherwise it is invalid. |
| DecoderWeights.ConfigLineOfPair | joshua-core/src/main/java/org/apache/joshua/decoder/Decoder.java:596-609 | An entry `NAME VALUE`, with any white space between them, sets `NAME` to the parsed value; an unparsable value is fatal. |
| Text.SplitWsOfPair | joshua-core/src/main/java/org/apache/joshua/decoder/Decoder.java:596 | `split("\\s+")` of two white-space-free words around a white-space run gives the two words. |
| Text.SplitWsOfLeadingRun | joshua-core/src/main/java/org/apache/joshua/decoder/Decoder.java:814 | With white space in front, `split("\\s+")` gives an empty first field before the two words. |
| Text.CollapseWsOfPair | joshua-core/src/main/java/org/apache/joshua/decoder/Decoder.java:808 | `replaceAll("\\s+", " ")` turns any white-space run between two words into a single blank. |
| DecoderWeights.WeightFileErrorPersists | joshua-core/src/main/java/org/apache/joshua/decoder/Decoder.java:807-824 | Once a weights-file line is fatal, later lines change nothing. |
| DecoderWeights.ConfigErrorPersists | joshua-core/src/main/java/org/apache/joshua/decoder/Decoder.java:595-610 | Once a configuration entry is invalid, later entries change nothing. |
| DecoderWeights.IncrementAllSums | joshua-core/src/main/java/org/apache/joshua/decoder/Decoder.java:823 | Repeated names in the weights file accumulate: each name's weight is its earlier weight plus the sum of its values. |
| DecoderWeights.IncrementAllKeys | joshua-core/src/main/java/org/apache/joshua/decoder/Decoder.java:823 | Accumulation creates exactly the names that occur. |
| DecoderWeights.LaterEntryWins | joshua-core/src/main/java/org/apache/joshua/decoder/Decoder.java:609 | In the configuration the last entry for a name sets its weight. |
| DecoderWeights.SetAllKeepsOthers | joshua-core/src/main/java/org/apache/joshua/decoder/Decoder.java:609 | Names no entry mentions keep their weight. |
| DecoderWeights.RewriteLine | joshua-core/src/main/java/org/apache/joshua/decoder/Decoder.java:491-497 | A template line is copied exactly when, trimmed, it is a comment, empty, or contains `=`. |
| DecoderWeights.RewriteTemplateLine | joshua-core/src/main/java/org/apache/joshua/decoder/Decoder.java:491-521 | One template line: trimmed, copied when it is a comment, empty or a parameter, otherwise rewritten as a model line; the same outcome as the line-by-line specification. |
| DecoderWeights.RewriteModelLine | joshua-core/src/main/java/org/apache/joshua/decoder/Decoder.java:499-521 | The model-line branch: the last-field check, the kept fields (with the new discriminative model file), then the next new weight or the old one. |
| DecoderWeights.ModelLineShape | joshua-core/src/main/java/org/apache/joshua/decoder/Decoder.java:499-521 | A rewritten model line is its kept fields and its weight joined by single blanks. |
| DecoderWeights.RewriteLinesPerLine | joshua-core/src/main/java/org/apache/joshua/decoder/Decoder.java:491-526 | Without an error, output line `k` is template line `k` rewritten with the weight numbered by the model lines before it; one output line per template line. |
| DecoderWeights.WriteConfigUsesEveryWeight | joshua-core/src/main/java/org/apache/joshua/decoder/Decoder.java:532-534 | A successful rewrite with new weights has exactly one model line per new weight. |
| DecoderWeights.ErrorPersists | joshua-core/src/main/java/org/apache/joshua/decoder/Decoder.java:491-530 | Once a template line is rejected, later lines change nothing. |
| DecoderWeights.WriteConfigFile | joshua-core/src/main/java/org/apache/joshua/decoder/Decoder.java:483-534 | The loop produces exactly the line-by-line rewriting, with the final weight-count check. |
| DecoderCore.CheckSharedVocabularyChecksums | joshua-core/src/main/java/org/apache/joshua/decoder/Decoder.java:775-790 | Passes exactly when every checksum after a non-empty one equals it. |
| DecoderCore.NonEmptyChecksumsAgreeIffEqual | joshua-core/src/main/java/org/apache/joshua/decoder/Decoder.java:775-790 | With no empty checksum, the check passes exactly when all checksums are equal. |
| DecoderCore.EmptyAfterNonEmptyFails | joshua-core/src/main/java/org/apache/joshua/decoder/Decoder.java:779-787 | An empty checksum after a non-empty one is a mismatch. |
| DecoderCore.IncrementByLines | joshua-core/src/main/java/org/apache/joshua/decoder/Decoder.java:807-824 | The reading loop passes exactly when no line is fatal and accumulates exactly the entries read before the first fatal line. |
| DecoderCore.Decoder.ReadWeights | joshua-core/src/main/java/org/apache/joshua/decoder/Decoder.java:798-829 | Weights are reset; an empty file name reads nothing; otherwise the accumulated entries of the file; nothing else in the decoder changes. |
| DecoderCore.SetByLines | joshua-core/src/main/java/org/apache/joshua/decoder/Decoder.java:595-610 | The loop over the configuration's weight entries passes exactly when no entry is invalid, and sets exactly the entries before the first invalid one, in order. |
| DecoderCore.Decoder.ApplyConfigWeights | joshua-core/src/main/java/org/apache/joshua/decoder/Decoder.java:595-610 | Each valid entry sets its name over what is there, up to the first invalid entry, which fails. |
| DecoderCore.WeightPairsAreArgumentPairs | joshua-core/src/main/java/org/apache/joshua/decoder/Decoder.java:266-272 | Pair `k` of `set_weights` is named `args[2k]` with value `args[2k+1]`; without error all arguments are consumed. |
| DecoderCore.SetWeightsAsWrittenMissesTheName | joshua-core/src/main/java/org/apache/joshua/decoder/Decoder.java:267-271 | As written, `set_weights NAME VALUE` leaves `NAME` unchanged and sets a feature named `VALUE`. |
| DecoderCore.SetWeightsFixedSetsEachName | joshua-core/src/main/java/org/apache/joshua/decoder/Decoder.java:267-271 | With the key corrected, each pair not overridden later sets its own name to its value. |
| DecoderCore.Decoder.SetWeights | joshua-core/src/main/java/org/apache/joshua/decoder/Decoder.java:264-272 | The corrected `set_weights` loop: the weights become the pairs applied in order; it fails exactly on a missing or unparsable value. |
| DecoderCore.Insert | joshua-core/src/main/java/org/apache/joshua/decoder/Decoder.java:296-297 | The rule is appended at its source side's node; every other node's rules are unchanged; every node along its path exists. |
| DecoderCore.CustomRuleString | joshua-core/src/main/java/org/apache/joshua/decoder/Decoder.java:292-294 | The rule string starts with the source and target (each after `[X,1]` under "stack" search) and ends with `custom=1`. |
| DecoderCore.Decoder.AddRule | joshua-core/src/main/java/org/apache/joshua/decoder/Decoder.java:274-299 | Anything but two parts changes nothing; otherwise the parsed rule is added to the custom table. |
| DecoderCore.Walk | joshua-core/src/main/java/org/apache/joshua/decoder/Decoder.java:336-341 | The walk stays at existing nodes and only moves down. |
| DecoderCore.WalkFollowsExistingPath | joshua-core/src/main/java/org/apache/joshua/decoder/Decoder.java:336-341 | Words that all lead to existing nodes are followed to the end. |
| DecoderCore.RemoveFindsAddedNode | joshua-core/src/main/java/org/apache/joshua/decoder/Decoder.java:296-341 | After `add_rule`, the `remove_rule` walk over the same source words reaches the node the rule was added at, for a rule whose source side starts with the default nonterminal (the "stack" search form). |
| DecoderCore.Decoder.WalkWords | joshua-core/src/main/java/org/apache/joshua/decoder/Decoder.java:333-341 | The walking loop ends at the node `Walk` describes. |
| DecoderCore.DropFirstToken | joshua-core/src/main/java/org/apache/joshua/decoder/Decoder.java:346-347 | Everything after the first blank, or the whole string when there is none. |
| DecoderCore.FirstMatch | joshua-core/src/main/java/org/apache/joshua/decoder/Decoder.java:345-353 | The index of the first rule whose target without its first token matches, or the list length when none does. |
| DecoderCore.FindMatch | joshua-core/src/main/java/org/apache/joshua/decoder/Decoder.java:345-353 | The search loop stops at the first matching rule. |
| DecoderCore.RemoveFirstMatchRemovesOne | joshua-core/src/main/java/org/apache/joshua/decoder/Decoder.java:343-355 | Exactly the first matching rule is removed when some rule matches, nothing otherwise; no rule is added. |
| DecoderCore.RemoveMatch | joshua-core/src/main/java/org/apache/joshua/decoder/Decoder.java:343-355 | The search and the removal give the list without its first match. |
| DecoderCore.Decoder.RemoveRule | joshua-core/src/main/java/org/apache/joshua/decoder/Decoder.java:325-356 | Anything but two parts changes nothing; a missing default-nonterminal node is an error; otherwise the first match at the node reached is removed. |
| DecoderCore.Decoder.HandleMetadata | joshua-core/src/main/java/org/apache/joshua/decoder/Decoder.java:263-358 | Dispatch: each directive changes only what it edits; unknown directives change nothing. The `set_weights` branch is the corrected loop of `SetWeights`, not the `args[1]` key of line 269. |
| DecoderCore.Decoder.Decode | joshua-core/src/main/java/org/apache/joshua/decoder/Decoder.java:440-455 | The head worker translates; when the translation returns normally the worker goes back at the tail and no worker is lost or duplicated; when `translate` throws, the worker is dropped from the pool and every other worker keeps its place. |
| Lists.UptoIterator.Next | joshua-core/src/main/java/org/apache/joshua/util/Lists.java:66-76 | Returns the count and advances by one while below the bound; past it, an error and no change. |
| Lists.UptoIterator.Remove | joshua-core/src/main/java/org/apache/joshua/util/Lists.java:78-80 | Removal always fails as unsupported. |
| Lists.CollectUpto | joshua-core/src/main/java/org/apache/joshua/util/Lists.java:59-85 | Draining `upto(n)` yields exactly 0, 1, ..., n-1 in order. |
| Lists.Indexed.SetValue | joshua-core/src/main/java/org/apache/joshua/util/Lists.java:490-493 | Stores the value and increments the index by exactly one. |
| Lists.Indexed.SetIndex | joshua-core/src/main/java/org/apache/joshua/util/Lists.java:415-417 | Replaces the index and leaves the value. |
| Lists.ArrayIndexedIterator.Next | joshua-core/src/main/java/org/apache/joshua/util/Lists.java:102-114 | Call `k` returns the shared holder showing `list[k]` and `k` (created fresh on the first call, reused after); an empty array fails on the first call; past the end, an error; a failing call leaves the holder and its fields as they were. |
| Lists.ArrayIndexedIterator.Remove | joshua-core/src/main/java/org/apache/joshua/util/Lists.java:117-119 | Removal always fails as unsupported. |
| Lists.CollectArrayAsWritten | joshua-core/src/main/java/org/apache/joshua/util/Lists.java:95-114 | On a non-empty array every element is seen once in order with its index, and `hasNext` turns false after `list.length` calls; an empty array fails. |
| Lists.EarlierHolderSeesLaterValues | joshua-core/src/main/java/org/apache/joshua/util/Lists.java:105-113 | Two calls return the same holder, so the first reference shows the second element and index 1. |
| Lists.CollectArray | joshua-core/src/main/java/org/apache/joshua/util/Lists.java:95-114 | With the corrected `hasNext`, every array, the empty one included, is walked completely in order with its indices. |
| Lists.IteratorIndexedIterator.Next | joshua-core/src/main/java/org/apache/joshua/util/Lists.java:366-386 | Returns the wrapped iterator's next element numbered from 0, in the shared holder; an error once the wrapped iterator is exhausted, which leaves the holder as it was. |
| Lists.IteratorIndexedIterator.Remove | joshua-core/src/main/java/org/apache/joshua/util/Lists.java:388-390 | Removal always fails as unsupported. |
| Lists.CollectIterable | joshua-core/src/main/java/org/apache/joshua/util/Lists.java:360-400 | Draining `eachWithIndex(iterable)` yields the elements in order, numbered 0, 1, 2, .... |
| FileUtility.WordOfWordBytes | joshua-core/src/main/java/org/apache/joshua/util/FileUtility.java:111-114 | The four big-endian bytes of an `int` decode to the `int` itself, sign included. |
| FileUtility.EncodeLength | joshua-core/src/main/java/org/apache/joshua/util/FileUtility.java:108-117 | Exactly four bytes per `int`. |
| FileUtility.DecodeEncode | joshua-core/src/main/java/org/apache/joshua/util/FileUtility.java:106-118 | Decoding the written bytes four at a time gives back the data. |
| FileUtility.WriteBytes | joshua-core/src/main/java/org/apache/joshua/util/FileUtility.java:106-118 | The stream receives exactly the bytes of each word, most significant first, in order. |
| FileUtility.Dirname | joshua-core/src/main/java/org/apache/joshua/util/FileUtility.java:188-193 | `"."` without a separator; otherwise the proper prefix before the last separator. |
| FileUtility.DirnameOfJoin | joshua-core/src/main/java/org/apache/joshua/util/FileUtility.java:188-193 | The directory part of `dir + sep + base` is `dir` when `base` has no separator. |
| FileUtility.GetLines | joshua-core/src/main/java/org/apache/joshua/util/FileUtility.java:259-281 | The reading loop produces exactly the lines cut at each newline, with the last piece added at end of input. |
| FileUtility.LinesCount | joshua-core/src/main/java/org/apache/joshua/util/FileUtility.java:264-275 | With duplicates kept there are (number of newlines) + 1 lines. |
| FileUtility.LinesNeverEmpty | joshua-core/src/main/java/org/apache/joshua/util/FileUtility.java:264-275 | The list of lines is never empty. |
| FileUtility.LinesWithoutDuplicates | joshua-core/src/main/java/org/apache/joshua/util/FileUtility.java:268-269 | Without duplicates, the lines are the full list keeping first occurrences in order: no repeats, nothing lost. |
| FileUtility.JoinLinesOfLines | joshua-core/src/main/java/org/apache/joshua/util/FileUtility.java:239-275 | Joining the lines with newlines reproduces the text exactly. |
| FileUtility.GetFileAsString | joshua-core/src/main/java/org/apache/joshua/util/FileUtility.java:239-249 | The joining loop returns the file's text itself. |

## Left out

- Concurrency is not modelled: `RequestParallelizer`, the `DecoderThreadRunner`s, the blocking fair `getThread`, `cleanUp` and its joins, and the atomicity of the concurrent `poolMap`. Every operation is sequential.
- DecoderCore.Decoder.HandleMetadata: the `set_weights` branch applies the corrected key (each pair sets its own name). The as-written behaviour of `Decoder.java:269` is modelled only by `SetWeightsAsWritten` and `SetWeightsAsWrittenMissesTheName`.
- DecoderCore.Decoder.Decode: requires a non-empty pool, because the source's `take` blocks until a worker is free, and an interrupted `take` (which returns null) is not modelled. An exception thrown by `translate` is modelled as a `Failure` result that `Decode` passes on, where the Java code lets it propagate.
- Decoder initialisation is not modelled, apart from the weights loop at `Decoder.java:595-609`: configuration parsing, reflection-based feature creation, grammar loading, the command-line `weight_overwrite` loop (580-592) and `resetGlobalState`. `Decoder.weights` is static in the source; here it is a field of the one `Decoder` object.
- The `list_rules` directive only builds a reply message, so it is not modelled. `rule.estimateRuleCost` after `add_rule` and all logging are not modelled either. The `add_rule` feature string is always empty, because the source's `args.length > 2` branch cannot run after the `!= 2` check.
- The splitting of a metadata line into its tokens and ` ,,, ` parts is taken as given (`MetaData.tokens`, `MetaData.parts`).
- Floating point is modelled as `real`, so rounding and NaN are not. `Float.parseFloat`, `Double.toString` and `Float.compare` are parameters or exact comparisons.
- Hypotheses.Hypothesis.Absorb: `HGNode.addHyperedgesInNode` is not part of this model, so any update it makes to the cached best edge is not captured. Edges are values: two edges with the same rule, costs and tail nodes are equal here, where Java tells the objects apart; both stay in the list all the same. Tail nodes are opaque references (`NodeRef`).
- Hypotheses.Hypothesis.Root: `new Coverage(1)` and the begin-sentence rule parsed by `HieroFormatReader` are taken as parameters or a fixed sentinel rule, because `Coverage` and the rule reader are not part of this model.
- StateMinimizingLM.StateMinimizingLanguageModel.Compute: `getTags` (source annotations) is not part of this model. The word ids are a parameter that is either the rule's target side or those tags.
- KenLM's native scoring (`probRule`, `estimateRule`) is a parameter, and `initializeLM` is not modelled. The native pool allocator is modelled only by the handles it gives out and frees.
- Distortion.Compute: Java `int` overflow in the jump arithmetic is not modelled, because positions are far below 2^31.
- Lists.Indexed.SetValue: the 32-bit overflow of `index += 1` is not modelled, because indices stay below array lengths.
- The seven primitive and generic array variants of `eachWithIndex` have identical bodies, so they are modelled by one generic class, and the `IndexedX` holders by one generic `Indexed`. Getters are not modelled.
- Lists.IteratorIndexedIterator.Next: the wrapped `java.util.Iterator` is modelled as a cursor over a fixed sequence, so iterators that change underneath are not captured.
- The file-system operations of `FileUtility` are not modelled: opening, reading, writing, copying and deleting files, and scanners. Files are given by their contents; an `IOException` is not modelled.
- FileUtility.Dirname: `File.separator` is a parameter.
- FileUtility.WriteBytes: the stream records unsigned octets. The bit pattern of Java's signed `(byte)` cast is the same.
- `writeConfigFile` returns the lines it writes instead of writing a file. The first error stops it, and the lines written before the error are kept.

## Findings

| source | as written | input that shows it | evidently intended | confidence | as-written member | corrected member |
|---|---|---|---|---|---|---|
| joshua-core/src/main/java/org/apache/joshua/decoder/Decoder.java:267-271 | `set_weights` stores each pair's value under `args[1]`, the first value, instead of under `args[i]` | `set_weights tm_pt_0 0.5` leaves `tm_pt_0` unchanged and creates a feature named `0.5` | each pair sets its own name `args[i]` to `args[i+1]` | not executed | DecoderCore.SetWeightsAsWrittenMissesTheName | DecoderCore.SetWeightsFixedSetsEachName |
| joshua-core/src/main/java/org/apache/joshua/util/Lists.java:95-107 | `nextIndex` starts at -1 and `hasNext` is `nextIndex < list.length`, so an empty array reports a next element and the first `next()` reads `list[0]` | an empty array | `hasNext` is false on an empty array and iteration yields nothing | not executed | Lists.CollectArrayAsWritten | Lists.CollectArray |
