/**
 * Shared vocabulary of the AMR experiments: the per-token feature functions
 * that all three experiment classes define identically up to float/double
 * (the gold label, the token string and the single-token word embedding), the embedding table
 * they close over, and the target / ablation configuration each experiment
 * reports.
 */
module Features {

  datatype Option<+T> = None | Some(value: T)

  /** Dimensionality of the Google word2vec embeddings (`new float[300]`). */
  const Dim: nat := 300

  /** One embedding; float and double elements are both modelled as reals. */
  type Vector = seq<real>

  /**
   * A fully loaded snapshot of the asynchronously filled token -> embedding
   * table. Blocking until the loader finishes is not modelled.
   */
  type Table = map<string, Vector>

  /** The per-token named-entity tags of the sentence's annotation. */
  type Annotation = seq<string>

  /** The value a feature function produces: a string or a numeric vector. */
  datatype FeatureValue = Str(s: string) | Vec(v: Vector)

  /** The feature class an entry of the feature list is an instance of. */
  datatype FeatureKind = StringFeature | FloatArrayFeature | DoubleArrayFeature

  /** An entry of the feature list as `getName()` and its class expose it. */
  datatype FeatureSpec = FeatureSpec(name: string, kind: FeatureKind)

  /** Which ablative analysis an experiment asks the experiment driver to run. */
  datatype AblativeAnalysisType = AllFeatures | LastFeature

  /** A string feature yields a string, an array feature yields a vector. */
  predicate Conforms(v: FeatureValue, kind: FeatureKind) {
    v.Str? <==> kind == StringFeature
  }

  /** Every vector stored in the table has the embedding dimension. */
  ghost predicate TableHasDim(table: Table) {
    forall w :: w in table ==> |table[w]| == Dim
  }

  /** What `featurize` relies on of the sequence it is handed. */
  predicate ValidPosition(offset: int, tokens: seq<string>, labels: seq<string>) {
    0 <= offset < |tokens| && |tokens| == |labels|
  }

  /** An all-zero vector, as Java's freshly allocated `new float[n]`. */
  function Zeros(n: nat): (r: Vector)
    ensures |r| == n
    ensures forall j :: 0 <= j < n ==> r[j] == 0.0
  {
    seq(n, _ => 0.0)
  }

  /**
   * `TransferMap.getBlocking` against a completely loaded table: the stored
   * vector when the key is present, and null (None) when it is absent.
   */
  function Lookup(table: Table, key: string): (r: Option<Vector>)
    ensures r.Some? <==> key in table
    ensures r.Some? ==> r.value == table[key]
  {
    if key in table then Some(table[key]) else None
  }

  /** The target feature "AMR Action": the gold label at `offset`. */
  function LabelFeature(offset: int, labels: seq<string>): (r: string)
    requires 0 <= offset < |labels|
    ensures r == labels[offset]
  {
    labels[offset]
  }

  /** The "Token string" feature: the token at `offset`. */
  function TokenFeature(offset: int, tokens: seq<string>): (r: string)
    requires 0 <= offset < |tokens|
    ensures r == tokens[offset]
  {
    tokens[offset]
  }

  /**
   * The "Google 300-dim word embeddings" feature: the stored embedding of
   * the token at `offset`, or a fresh zero vector of length 300 when the
   * token is not in the table.
   */
  function EmbeddingFeature(table: Table, offset: int, tokens: seq<string>): (r: Vector)
    requires 0 <= offset < |tokens|
    ensures tokens[offset] in table ==> r == table[tokens[offset]]
    ensures tokens[offset] !in table ==> |r| == Dim && forall j :: 0 <= j < |r| ==> r[j] == 0.0
    ensures TableHasDim(table) ==> |r| == Dim
  {
    match Lookup(table, tokens[offset])
    case Some(f) => f
    case None => Zeros(Dim)
  }

  /**
   * The index of the feature that an ablative analysis would hold out of a
   * list of `n` features: none for AllFeatures, the last entry for
   * LastFeature. This reading of the two modes is an assumption: the driver
   * that interprets `getAblativeAnalysisType()` is not part of this model.
   */
  function HeldOut(n: nat, mode: AblativeAnalysisType): (r: Option<nat>)
    requires n > 0
    ensures r.Some? <==> mode == LastFeature
    ensures r.Some? ==> r.value == n - 1
  {
    match mode
    case AllFeatures => None
    case LastFeature => Some(n - 1)
  }
}
