/**
 * AMRNERExperiment: the baseline features plus the named-entity tag of the
 * token, which the LastFeature ablation holds out.
 */
module AMRNERExperiment {
  import opened Features

  /** The four entries of the feature list, in order. */
  const Reader: seq<FeatureSpec> := [
    FeatureSpec("AMR Action", StringFeature),
    FeatureSpec("Token string", StringFeature),
    FeatureSpec("Google 300-dim word embeddings", DoubleArrayFeature),
    FeatureSpec("NER Tags", StringFeature)
  ]

  /** `getTargetFeature()`. */
  const TargetFeature: nat := 0

  /** `getAblativeAnalysisType()`. */
  const Ablation: AblativeAnalysisType := LastFeature

  /**
   * The "NER Tags" feature: the named-entity tag of the annotation's token
   * at `offset`.
   */
  function NerTagFeature(offset: int, annotation: Annotation): (r: string)
    requires 0 <= offset < |annotation|
    ensures r == annotation[offset]
  {
    annotation[offset]
  }

  /** `features[k].featurize(offset, tokens, labels, annotation)`. */
  function Featurize(k: nat, table: Table, offset: int, tokens: seq<string>,
                     labels: seq<string>, annotation: Annotation): (r: FeatureValue)
    requires k < |Reader|
    requires ValidPosition(offset, tokens, labels)
    requires k == 3 ==> offset < |annotation|
    ensures Conforms(r, Reader[k].kind)
    ensures r.Vec? && TableHasDim(table) ==> |r.v| == Dim
  {
    if k == 0 then Str(LabelFeature(offset, labels))
    else if k == 1 then Str(TokenFeature(offset, tokens))
    else if k == 2 then Vec(EmbeddingFeature(table, offset, tokens))
    else Str(NerTagFeature(offset, annotation))
  }

  /**
   * The feature list is target, token, embedding, NER tag, in that order,
   * and its target index selects the gold label.
   */
  lemma FeatureOrder(table: Table, offset: int, tokens: seq<string>,
                     labels: seq<string>, annotation: Annotation)
    requires ValidPosition(offset, tokens, labels)
    requires offset < |annotation|
    ensures |Reader| == 4 && TargetFeature < |Reader|
    ensures Featurize(TargetFeature, table, offset, tokens, labels, annotation) == Str(labels[offset])
    ensures Featurize(1, table, offset, tokens, labels, annotation) == Str(tokens[offset])
    ensures tokens[offset] in table ==>
      Featurize(2, table, offset, tokens, labels, annotation) == Vec(table[tokens[offset]])
    ensures tokens[offset] !in table ==>
      Featurize(2, table, offset, tokens, labels, annotation) == Vec(Zeros(Dim))
    ensures Featurize(3, table, offset, tokens, labels, annotation) == Str(annotation[offset])
  {
  }

  /**
   * The NER feature never consults the embedding table, the tokens or the
   * labels: only the annotation and the offset decide it.
   */
  lemma NerIgnoresTable(table1: Table, table2: Table, offset: int,
                        tokens1: seq<string>, labels1: seq<string>,
                        tokens2: seq<string>, labels2: seq<string>,
                        annotation: Annotation)
    requires ValidPosition(offset, tokens1, labels1) && ValidPosition(offset, tokens2, labels2)
    requires offset < |annotation|
    ensures Featurize(3, table1, offset, tokens1, labels1, annotation)
         == Featurize(3, table2, offset, tokens2, labels2, annotation)
  {
  }

  /** Names are unique within the feature list. */
  lemma NamesUnique()
    ensures forall i, j :: 0 <= i < j < |Reader| ==> Reader[i].name != Reader[j].name
  {
  }

  /**
   * The LastFeature analysis holds out the NER tags, the last entry, which
   * is not the target.
   */
  lemma HeldOutIsNerTags()
    ensures TargetFeature < |Reader|
    ensures HeldOut(|Reader|, Ablation) == Some(3)
    ensures Reader[3].name == "NER Tags" && 3 != TargetFeature
  {
  }
}
