# AMR experiment feature functions in Dafny

This project models the per-token feature functions of the AMR sequence-labelling
experiments (`AMRExperiment`, `AMRNERExperiment`, `AMRContextExperiment`). Each
experiment hands the labelled-sequence reader an ordered list of feature objects. The
reader calls each object's `featurize(offset, tokens, labels, annotation)`. The model
covers the features themselves:

- the target feature "AMR Action" (the gold label at `offset`);
- the "Token string" feature (the token at `offset`);
- the single-token word-embedding feature, which falls back to a fresh all-zero vector
  of length 300 when the token is not in the embedding table;
- the NER-tag feature (`AMRNERExperiment` only);
- the context-embedding feature (`AMRContextExperiment` only). This is the elementwise
  sum of the embeddings of every other token in the sentence.

It also models the ordered feature lists, the target index `0` and each experiment's
ablative-analysis mode.

Layout:

- `features.dfy`, module `Features`: the embedding table as a fully loaded snapshot
  (`map<string, seq<real>>`); `getBlocking` as `Lookup`, which returns an `Option`; and
  the three feature functions that all three experiment classes define identically up to
  float/double (`AMRNERExperiment` returns `double[]`, the other two `float[]`).
  These are written once here. It also holds the feature-list entry type and the
  ablation modes.
- `amr_experiment.dfy`, `amr_ner_experiment.dfy`, `amr_context_experiment.dfy`: one
  module per experiment class. Each has its feature list (`Reader`), its target index
  and its ablation mode. Each also has `Featurize(k, …)`, which stands for
  `features[k].featurize(…)`. The context experiment adds the imperative context loop
  (`ContextFeature`, a method over a fresh `array<real>`). That method is proved equal
  to the specification `ContextVector`, and lemmas about `ContextVector` follow.

Modelling choices:

- Float and double elements are both modelled as `real`, so summation order does not
  matter.
- The embedding table is an immutable value, so the context loop cannot change it.
  `ContextFeature` has no `modifies` clause, so it writes no object that existed before
  the call; `fresh(f)` says the array it returns is new.
- The annotation is modelled as the sequence of per-token NER tags.
- The Java context loop never indexes `tokens[offset]`. So the model puts no bound on
  `offset` there: an `offset` outside the sentence excludes nothing
  (`ContextLeavesOneOut`).
- The loop reads `g[j]` for every `j < 300`. So the context feature requires every
  embedding it actually adds to have at least 300 elements (`ContextReady`). Java would
  throw otherwise.
- Changing the token at a position `p != offset` need not change the context at
  `offset`: two tokens with the same embedding, or two unknown tokens, give the same sum.
  `ContextReplace` proves the exact change.
- An unknown token is skipped, which over the reals is the same as adding a zero vector.

## Model

| member | source | states |
|---|---|---|
| `Features.Lookup` | src/main/java/com/github/keenon/amr/AMRContextExperiment.java:113-114 | `getBlocking` on a completely loaded table returns a value exactly when the key is present, and that value is the stored vector; otherwise it returns null (`None`) |
| `Features.LabelFeature` | src/main/java/com/github/keenon/amr/AMRExperiment.java:80-85 | the target feature is exactly `labels[offset]`, for an in-bounds offset (the same code is at AMRContextExperiment.java:77-82 and AMRNERExperiment.java:80-85) |
| `Features.TokenFeature` | src/main/java/com/github/keenon/amr/AMRExperiment.java:96-101 | the token feature is exactly `tokens[offset]`, for an in-bounds offset (the same code is in the other two experiments) |
| `Features.EmbeddingFeature` | src/main/java/com/github/keenon/amr/AMRExperiment.java:112-122 | a token in the table yields its stored vector unchanged; an absent token yields a vector of length 300 whose elements are all zero; with a table of 300-element vectors the result always has length 300 (the same code is at AMRContextExperiment.java:109-119 and AMRNERExperiment.java:112-122) |
| `Features.HeldOut` | src/main/java/com/github/keenon/amr/AMRNERExperiment.java:151-153 | under the assumed reading of the two modes (see Left out), ALL_FEATURES holds nothing out and LAST_FEATURE holds out the last entry of the list |
| `AMRExperiment.Featurize` | src/main/java/com/github/keenon/amr/AMRExperiment.java:70-125 | each entry of the feature list yields a value of its declared kind (string or float array); vector features have length 300 when the table's vectors do |
| `AMRExperiment.FeatureOrder` | src/main/java/com/github/keenon/amr/AMRExperiment.java:71-131 | the list has exactly 3 entries, in the order label, token, embedding; target index 0 is a valid index and selects the gold label |
| `AMRExperiment.NamesUnique` | src/main/java/com/github/keenon/amr/AMRExperiment.java:73-110 | the three `getName()` strings are pairwise distinct |
| `AMRExperiment.NothingHeldOut` | src/main/java/com/github/keenon/amr/AMRExperiment.java:128-136 | ALL_FEATURES, under the assumed reading of the mode (see Left out), holds no feature out, and target 0 is a valid index |
| `AMRNERExperiment.NerTagFeature` | src/main/java/com/github/keenon/amr/AMRNERExperiment.java:133-139 | the NER feature is the tag of the annotation token at `offset` |
| `AMRNERExperiment.Featurize` | src/main/java/com/github/keenon/amr/AMRNERExperiment.java:70-142 | each entry yields a value of its declared kind (string or double array); the vector feature has length 300 when the table's vectors do |
| `AMRNERExperiment.FeatureOrder` | src/main/java/com/github/keenon/amr/AMRNERExperiment.java:71-148 | the list has 4 entries, in the order label, token, embedding, NER tag; target index 0 selects the gold label |
| `AMRNERExperiment.NerIgnoresTable` | src/main/java/com/github/keenon/amr/AMRNERExperiment.java:133-139 | the NER feature gives the same value for any embedding table and any tokens and labels: it depends only on the annotation and the offset |
| `AMRNERExperiment.NamesUnique` | src/main/java/com/github/keenon/amr/AMRNERExperiment.java:73-131 | the four `getName()` strings are pairwise distinct |
| `AMRNERExperiment.HeldOutIsNerTags` | src/main/java/com/github/keenon/amr/AMRNERExperiment.java:126-153 | LAST_FEATURE, under the assumed reading of the mode (see Left out), holds out entry 3, "NER Tags", which is not the target index 0 |
| `AMRContextExperiment.ContextVector` | src/main/java/com/github/keenon/amr/AMRContextExperiment.java:134-144 | the context feature always has length 300 |
| `AMRContextExperiment.ContextFeature` | src/main/java/com/github/keenon/amr/AMRContextExperiment.java:130-145 | the loop returns a freshly allocated array, and element `j` of it is the sum over all `i != offset` of element `j` of the embedding of `tokens[i]`, where an unknown token adds nothing; no existing object is modified |
| `AMRContextExperiment.ColumnSumIgnoresOffsetToken` | src/main/java/com/github/keenon/amr/AMRContextExperiment.java:135-136 | on every prefix, the per-element context sum is unchanged when the token at `offset` is replaced |
| `AMRContextExperiment.ContextIgnoresOffsetToken` | src/main/java/com/github/keenon/amr/AMRContextExperiment.java:135-143 | replacing `tokens[offset]` by any string leaves the context feature at `offset` unchanged |
| `AMRContextExperiment.ColumnSumReplace` | src/main/java/com/github/keenon/amr/AMRContextExperiment.java:135-143 | on every prefix, replacing the token at `p != offset` shifts the per-element sum by the difference of the two embeddings, once `p` is inside the prefix |
| `AMRContextExperiment.ContextReplace` | src/main/java/com/github/keenon/amr/AMRContextExperiment.java:135-143 | replacing the token at `p != offset` changes element `k` of the context by exactly new embedding minus old embedding (unknown tokens count 0) |
| `AMRContextExperiment.ColumnSumOfUnknownIsZero` | src/main/java/com/github/keenon/amr/AMRContextExperiment.java:134-143 | if no other position's token is in the table, every prefix sum is 0 |
| `AMRContextExperiment.ContextOfUnknownIsZero` | src/main/java/com/github/keenon/amr/AMRContextExperiment.java:134-143 | if no token at another position is in the table (including a one-token sentence), the context is the all-zero vector of length 300 |
| `AMRContextExperiment.ColumnSumLeavesOneOut` | src/main/java/com/github/keenon/amr/AMRContextExperiment.java:135-143 | on every prefix, the context sum plus the excluded position's embedding (when that position is inside the prefix) equals the sum over all positions |
| `AMRContextExperiment.ContextLeavesOneOut` | src/main/java/com/github/keenon/amr/AMRContextExperiment.java:135-143 | the context at an in-range offset is the whole-sentence sum minus the embedding at `offset`; at an out-of-range offset it is the whole-sentence sum |
| `AMRContextExperiment.Featurize` | src/main/java/com/github/keenon/amr/AMRContextExperiment.java:67-148 | each entry yields a value of its declared kind; both vector features have length 300 when the table's vectors do |
| `AMRContextExperiment.FeatureOrder` | src/main/java/com/github/keenon/amr/AMRContextExperiment.java:68-154 | the list has 4 entries, in the order label, token, embedding, context; target index 0 selects the gold label, and entry 3 is the context vector |
| `AMRContextExperiment.NamesUnique` | src/main/java/com/github/keenon/amr/AMRContextExperiment.java:70-128 | the four `getName()` strings are pairwise distinct |
| `AMRContextExperiment.NothingHeldOut` | src/main/java/com/github/keenon/amr/AMRContextExperiment.java:151-159 | ALL_FEATURES, under the assumed reading of the mode (see Left out), holds no feature out, and target 0 is a valid index |
| `AMRContextExperiment.CatDogFish` | src/main/java/com/github/keenon/amr/AMRContextExperiment.java:113-143 | with "cat" and "dog" in the table and "fish" absent, the embedding feature of "fish" is zero and the context of "cat" in "cat dog fish" is the embedding of "dog" |

## Left out

- Blocking in `TransferMap.getBlocking` (waiting for a key or for the end of loading) and `Word2VecLoader.loadDataAsynch`: asynchronous loading, concurrency, gzip and serialization I/O in a library that is not part of this model. The table is the snapshot that remains once loading has finished.
- Floating-point rounding of the sums in the context loop, and the float/double difference between the experiments: elements are reals. The float/double distinction survives only as the declared kind of each feature.
- CoreNLP `Annotation` internals: the annotation is modelled as the sequence of per-token NER tags. A token that has no NER tag (Java `null`) is not modelled.
- Experiment plumbing: kernel, engine, optimizer, data and report paths, `main` and `run()`. All of these are configuration constants or calls into code that is not part of this model.
- The `IOException` that the constructors catch and print, which leaves `embeddings` null: I/O at construction time is not modelled.
- The labelled-sequence reader that calls the features once per offset, and the `Experiment` base class that runs the ablation: neither is part of this model. `Featurize` models only what the experiment classes give the reader.
- Features.HeldOut: the meaning of each ablation mode is assumed (ALL_FEATURES holds nothing out, LAST_FEATURE holds out the last entry), because the driver that reads `getAblativeAnalysisType()` is not modelled; the experiment classes only return the enum constant.
- Reference identity of the array that the embedding feature returns from the table: a value model sees only that it equals the stored vector.
- `AMRContextExperiment.ContextFeature`: the produced array is specified, but the Java float overflow to infinity is not.
