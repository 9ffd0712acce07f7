/**
 * AMRContextExperiment: the baseline features plus a bag-of-context
 * embedding, the elementwise sum of the embeddings of every other token of
 * the sentence.
 */
module AMRContextExperiment {
  import opened Features

  /** The four entries of the feature list, in order. */
  const Reader: seq<FeatureSpec> := [
    FeatureSpec("AMR Action", StringFeature),
    FeatureSpec("Token string", StringFeature),
    FeatureSpec("Google 300-dim word embeddings", FloatArrayFeature),
    FeatureSpec("Google 300-dim word embeddings context", FloatArrayFeature)
  ]

  /** `getTargetFeature()`. */
  const TargetFeature: nat := 0

  /** `getAblativeAnalysisType()`. */
  const Ablation: AblativeAnalysisType := AllFeatures

  // ---------------------------------------------------------------------
  // Specification of the context feature
  // ---------------------------------------------------------------------

  /**
   * Every token at a position other than `offset` that the table knows has
   * an embedding of at least 300 elements: the context loop reads `g[j]`
   * for every `j < 300`.
   */
  ghost predicate ContextReady(table: Table, tokens: seq<string>, offset: int) {
    forall i :: 0 <= i < |tokens| && i != offset && tokens[i] in table ==> |table[tokens[i]]| >= Dim
  }

  /** Every token the table knows has an embedding of at least 300 elements. */
  ghost predicate AllReady(table: Table, tokens: seq<string>) {
    forall i :: 0 <= i < |tokens| && tokens[i] in table ==> |table[tokens[i]]| >= Dim
  }

  /** Element `k` of a token's embedding; an unknown token contributes 0. */
  function Contribution(table: Table, token: string, k: nat): real
    requires k < Dim
    requires token in table ==> |table[token]| >= Dim
  {
    if token in table then table[token][k] else 0.0
  }

  /**
   * Element `k` of the context sum over the first `n` positions: the sum,
   * over every `i < n` with `i != offset`, of element `k` of the embedding
   * of `tokens[i]`.
   */
  ghost function ColumnSum(table: Table, tokens: seq<string>, offset: int, n: nat, k: nat): real
    requires n <= |tokens| && k < Dim
    requires ContextReady(table, tokens, offset)
    decreases n
  {
    if n == 0 then 0.0
    else if n - 1 == offset then ColumnSum(table, tokens, offset, n - 1, k)
    else ColumnSum(table, tokens, offset, n - 1, k) + Contribution(table, tokens[n - 1], k)
  }

  /** Element `k` of the sum of the embeddings of ALL of the first `n` tokens. */
  ghost function TotalColumn(table: Table, tokens: seq<string>, n: nat, k: nat): real
    requires n <= |tokens| && k < Dim
    requires AllReady(table, tokens)
    decreases n
  {
    if n == 0 then 0.0
    else TotalColumn(table, tokens, n - 1, k) + Contribution(table, tokens[n - 1], k)
  }

  /** The value of the context feature at `offset`, element by element. */
  ghost function ContextVector(table: Table, tokens: seq<string>, offset: int): (r: Vector)
    requires ContextReady(table, tokens, offset)
    ensures |r| == Dim
  {
    seq(Dim, k requires 0 <= k < Dim => ColumnSum(table, tokens, offset, |tokens|, k))
  }

  // ---------------------------------------------------------------------
  // The context feature as the source computes it
  // ---------------------------------------------------------------------

  /**
   * The "Google 300-dim word embeddings context" feature: allocates a zero
   * vector of length 300 and adds into it, element by element, the
   * embedding of every token at a position other than `offset`, skipping
   * tokens that are not in the table. Only the new array is written.
   */
  method ContextFeature(table: Table, offset: int, tokens: seq<string>) returns (f: array<real>)
    requires ContextReady(table, tokens, offset)
    ensures fresh(f)
    ensures f[..] == ContextVector(table, tokens, offset)
  {
    f := new real[Dim](_ => 0.0);
    for i := 0 to |tokens|
      invariant f.Length == Dim
      invariant forall k :: 0 <= k < Dim ==> f[k] == ColumnSum(table, tokens, offset, i, k)
    {
      if i == offset {
        continue;
      }
      var g := Lookup(table, tokens[i]);
      if g.Some? {
        for j := 0 to f.Length
          invariant forall k :: 0 <= k < j ==> f[k] == ColumnSum(table, tokens, offset, i + 1, k)
          invariant forall k :: j <= k < Dim ==> f[k] == ColumnSum(table, tokens, offset, i, k)
        {
          f[j] := f[j] + g.value[j];
        }
      }
    }
    assert forall k :: 0 <= k < Dim ==> f[..][k] == ContextVector(table, tokens, offset)[k];
  }

  // ---------------------------------------------------------------------
  // Properties of the context feature
  // ---------------------------------------------------------------------

  /** The induction over prefixes behind `ContextIgnoresOffsetToken`. */
  lemma {:induction false} ColumnSumIgnoresOffsetToken(table: Table, tokens: seq<string>, offset: int,
                                                       t: string, n: nat, k: nat)
    requires 0 <= offset < |tokens| && n <= |tokens| && k < Dim
    requires ContextReady(table, tokens, offset)
    ensures ContextReady(table, tokens[offset := t], offset)
    ensures ColumnSum(table, tokens[offset := t], offset, n, k) == ColumnSum(table, tokens, offset, n, k)
  {
    assert ContextReady(table, tokens[offset := t], offset) by {
      var u := tokens[offset := t];
      forall i | 0 <= i < |u| && i != offset && u[i] in table
        ensures |table[u[i]]| >= Dim
      {
        assert u[i] == tokens[i];
      }
    }
    if n > 0 {
      ColumnSumIgnoresOffsetToken(table, tokens, offset, t, n - 1, k);
      if n - 1 != offset {
        assert tokens[offset := t][n - 1] == tokens[n - 1];
      }
    }
  }

  /** Replacing the token at `offset` leaves the context feature at `offset` unchanged. */
  lemma ContextIgnoresOffsetToken(table: Table, tokens: seq<string>, offset: int, t: string)
    requires 0 <= offset < |tokens|
    requires ContextReady(table, tokens, offset)
    ensures ContextReady(table, tokens[offset := t], offset)
    ensures ContextVector(table, tokens[offset := t], offset) == ContextVector(table, tokens, offset)
  {
    ColumnSumIgnoresOffsetToken(table, tokens, offset, t, 0, 0);
    forall k | 0 <= k < Dim
      ensures ContextVector(table, tokens[offset := t], offset)[k] == ContextVector(table, tokens, offset)[k]
    {
      ColumnSumIgnoresOffsetToken(table, tokens, offset, t, |tokens|, k);
    }
  }

  /** The induction over prefixes behind `ContextReplace`. */
  lemma {:induction false} ColumnSumReplace(table: Table, tokens: seq<string>, offset: int,
                                            p: int, t: string, n: nat, k: nat)
    requires 0 <= p < |tokens| && p != offset && n <= |tokens| && k < Dim
    requires ContextReady(table, tokens, offset)
    requires t in table ==> |table[t]| >= Dim
    ensures ContextReady(table, tokens[p := t], offset)
    ensures ColumnSum(table, tokens[p := t], offset, n, k)
         == ColumnSum(table, tokens, offset, n, k)
            + (if p < n then Contribution(table, t, k) - Contribution(table, tokens[p], k) else 0.0)
  {
    assert ContextReady(table, tokens[p := t], offset) by {
      var u := tokens[p := t];
      forall i | 0 <= i < |u| && i != offset && u[i] in table
        ensures |table[u[i]]| >= Dim
      {
        if i != p {
          assert u[i] == tokens[i];
        }
      }
    }
    if n > 0 {
      ColumnSumReplace(table, tokens, offset, p, t, n - 1, k);
      if n - 1 != p {
        assert tokens[p := t][n - 1] == tokens[n - 1];
      }
    }
  }

  /**
   * Replacing the token at a position `p != offset` changes the context
   * feature at `offset` by exactly the difference of the two tokens'
   * embeddings (an unknown token counting as zero).
   */
  lemma ContextReplace(table: Table, tokens: seq<string>, offset: int, p: int, t: string, k: nat)
    requires 0 <= p < |tokens| && p != offset && k < Dim
    requires ContextReady(table, tokens, offset)
    requires t in table ==> |table[t]| >= Dim
    ensures ContextReady(table, tokens[p := t], offset)
    ensures ContextVector(table, tokens[p := t], offset)[k]
         == ContextVector(table, tokens, offset)[k]
            + Contribution(table, t, k) - Contribution(table, tokens[p], k)
  {
    ColumnSumReplace(table, tokens, offset, p, t, |tokens|, k);
  }

  /** The induction over prefixes behind `ContextOfUnknownIsZero`. */
  lemma {:induction false} ColumnSumOfUnknownIsZero(table: Table, tokens: seq<string>, offset: int, n: nat, k: nat)
    requires n <= |tokens| && k < Dim
    requires forall i :: 0 <= i < |tokens| && i != offset ==> tokens[i] !in table
    ensures ContextReady(table, tokens, offset)
    ensures ColumnSum(table, tokens, offset, n, k) == 0.0
  {
    if n > 0 {
      ColumnSumOfUnknownIsZero(table, tokens, offset, n - 1, k);
    }
  }

  /**
   * When no token at another position is in the table (in particular for a
   * one-token sentence) the context feature is the zero vector.
   */
  lemma ContextOfUnknownIsZero(table: Table, tokens: seq<string>, offset: int)
    requires forall i :: 0 <= i < |tokens| && i != offset ==> tokens[i] !in table
    ensures ContextReady(table, tokens, offset)
    ensures ContextVector(table, tokens, offset) == Zeros(Dim)
  {
    ColumnSumOfUnknownIsZero(table, tokens, offset, 0, 0);
    forall k | 0 <= k < Dim
      ensures ContextVector(table, tokens, offset)[k] == 0.0
    {
      ColumnSumOfUnknownIsZero(table, tokens, offset, |tokens|, k);
    }
  }

  /** The induction over prefixes behind `ContextLeavesOneOut`. */
  lemma {:induction false} ColumnSumLeavesOneOut(table: Table, tokens: seq<string>, offset: int, n: nat, k: nat)
    requires n <= |tokens| && k < Dim
    requires AllReady(table, tokens)
    ensures ContextReady(table, tokens, offset)
    ensures ColumnSum(table, tokens, offset, n, k)
            + (if 0 <= offset < n then Contribution(table, tokens[offset], k) else 0.0)
         == TotalColumn(table, tokens, n, k)
  {
    if n > 0 {
      ColumnSumLeavesOneOut(table, tokens, offset, n - 1, k);
    }
  }

  /**
   * The context feature at `offset` is the sum of all embeddings of the
   * sentence minus the embedding at `offset`; when `offset` lies outside the
   * sentence nothing is excluded.
   */
  lemma ContextLeavesOneOut(table: Table, tokens: seq<string>, offset: int, k: nat)
    requires k < Dim
    requires AllReady(table, tokens)
    ensures ContextReady(table, tokens, offset)
    ensures 0 <= offset < |tokens| ==>
      ContextVector(table, tokens, offset)[k]
      == TotalColumn(table, tokens, |tokens|, k) - Contribution(table, tokens[offset], k)
    ensures !(0 <= offset < |tokens|) ==>
      ContextVector(table, tokens, offset)[k] == TotalColumn(table, tokens, |tokens|, k)
  {
    ColumnSumLeavesOneOut(table, tokens, offset, |tokens|, k);
  }

  // ---------------------------------------------------------------------
  // The feature list
  // ---------------------------------------------------------------------

  /** `features[k].featurize(offset, tokens, labels, annotation)`. */
  ghost function Featurize(k: nat, table: Table, offset: int, tokens: seq<string>,
                           labels: seq<string>, annotation: Annotation): (r: FeatureValue)
    requires k < |Reader|
    requires ValidPosition(offset, tokens, labels)
    requires k == 3 ==> ContextReady(table, tokens, offset)
    ensures Conforms(r, Reader[k].kind)
    ensures r.Vec? && TableHasDim(table) ==> |r.v| == Dim
  {
    if k == 0 then Str(LabelFeature(offset, labels))
    else if k == 1 then Str(TokenFeature(offset, tokens))
    else if k == 2 then Vec(EmbeddingFeature(table, offset, tokens))
    else Vec(ContextVector(table, tokens, offset))
  }

  /**
   * The feature list is target, token, embedding, context embedding, in
   * that order, and its target index selects the gold label.
   */
  lemma FeatureOrder(table: Table, offset: int, tokens: seq<string>,
                     labels: seq<string>, annotation: Annotation)
    requires ValidPosition(offset, tokens, labels)
    requires ContextReady(table, tokens, offset)
    ensures |Reader| == 4 && TargetFeature < |Reader|
    ensures Featurize(TargetFeature, table, offset, tokens, labels, annotation) == Str(labels[offset])
    ensures Featurize(1, table, offset, tokens, labels, annotation) == Str(tokens[offset])
    ensures tokens[offset] in table ==>
      Featurize(2, table, offset, tokens, labels, annotation) == Vec(table[tokens[offset]])
    ensures tokens[offset] !in table ==>
      Featurize(2, table, offset, tokens, labels, annotation) == Vec(Zeros(Dim))
    ensures Featurize(3, table, offset, tokens, labels, annotation) == Vec(ContextVector(table, tokens, offset))
  {
  }

  /** Names are unique within the feature list. */
  lemma NamesUnique()
    ensures forall i, j :: 0 <= i < j < |Reader| ==> Reader[i].name != Reader[j].name
  {
  }

  /** All features are used: the AllFeatures analysis holds none of them out. */
  lemma NothingHeldOut()
    ensures TargetFeature < |Reader| && HeldOut(|Reader|, Ablation) == None
  {
  }

  // ---------------------------------------------------------------------
  // A worked example
  // ---------------------------------------------------------------------

  /** The embedding with 1.0 at element `d` and 0.0 elsewhere. */
  function Unit(d: nat): (r: Vector)
    ensures |r| == Dim
  {
    seq(Dim, j => if j == d then 1.0 else 0.0)
  }

  /**
   * With "cat" and "dog" in the table and "fish" absent, the embedding
   * feature of "fish" is zero and the context of "cat" in
   * "cat dog fish" is the embedding of "dog".
   */
  lemma CatDogFish()
    ensures ContextReady(map["cat" := Unit(0), "dog" := Unit(1)], ["cat", "dog", "fish"], 0)
    ensures EmbeddingFeature(map["cat" := Unit(0), "dog" := Unit(1)], 2, ["cat", "dog", "fish"]) == Zeros(Dim)
    ensures ContextVector(map["cat" := Unit(0), "dog" := Unit(1)], ["cat", "dog", "fish"], 0) == Unit(1)
  {
    var table := map["cat" := Unit(0), "dog" := Unit(1)];
    var tokens := ["cat", "dog", "fish"];
    assert "fish" !in table;
    forall k | 0 <= k < Dim
      ensures ContextVector(table, tokens, 0)[k] == Unit(1)[k]
    {
      assert ColumnSum(table, tokens, 0, 1, k) == 0.0;
      assert ColumnSum(table, tokens, 0, 2, k) == Unit(1)[k];
    }
  }
}
