/**
 * AMRExperiment: the baseline experiment, whose feature list is the AMR
 * action label (the target), the token string and the token's word
 * embedding.
 */
module AMRExperiment {
  import opened Features

  /** The three entries of the feature list, in order, as the reader sees them. */
  const Reader: seq<FeatureSpec> := [
    FeatureSpec("AMR Action", StringFeature),
    FeatureSpec("Token string", StringFeature),
    FeatureSpec("Google 300-dim word embeddings", FloatArrayFeature)
  ]

  /** `getTargetFeature()`. */
  const TargetFeature: nat := 0

  /** `getAblativeAnalysisType()`. */
  const Ablation: AblativeAnalysisType := AllFeatures

  /**
   * `features[k].featurize(offset, tokens, labels, annotation)` for the
   * k-th entry of the feature list, against the embedding table `table`.
   */
  function Featurize(k: nat, table: Table, offset: int, tokens: seq<string>,
                     labels: seq<string>, annotation: Annotation): (r: FeatureValue)
    requires k < |Reader|
    requires ValidPosition(offset, tokens, labels)
    ensures Conforms(r, Reader[k].kind)
    ensures r.Vec? && TableHasDim(table) ==> |r.v| == Dim
  {
    if k == 0 then Str(LabelFeature(offset, labels))
    else if k == 1 then Str(TokenFeature(offset, tokens))
    else Vec(EmbeddingFeature(table, offset, tokens))
  }

  /**
   * The feature list holds exactly the target, the token and the embedding,
   * in that order, and its target index selects the gold label.
   */
  lemma FeatureOrder(table: Table, offset: int, tokens: seq<string>,
                     labels: seq<string>, annotation: Annotation)
    requires ValidPosition(offset, tokens, labels)
    ensures |Reader| == 3 && TargetFeature < |Reader|
    ensures Featurize(TargetFeature, table, offset, tokens, labels, annotation) == Str(labels[offset])
    ensures Featurize(1, table, offset, tokens, labels, annotation) == Str(tokens[offset])
    ensures tokens[offset] in table ==>
      Featurize(2, table, offset, tokens, labels, annotation) == Vec(table[tokens[offset]])
    ensures tokens[offset] !in table ==>
      Featurize(2, table, offset, tokens, labels, annotation) == Vec(Zeros(Dim))
  {
  }

  /** Names are unique within the feature list. */
  lemma NamesUnique()
    ensures forall i, j :: 0 <= i < j < |Reader| ==> Reader[i].name != Reader[j].name
  {
  }

  /** All features are used: the AllFeatures analysis holds none of them out. */
  lemma NothingHeldOut()
    ensures TargetFeature < |Reader| && HeldOut(|Reader|, Ablation) == None
  {
  }
}
