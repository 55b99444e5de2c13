/**
 * `_embed_texts` in app/retriever/upsert_vector.py: the texts are sent to
 * the embedding model in consecutive batches of 16 and the vectors of each
 * batch are appended in order. The model is an uninterpreted function from
 * a batch to its vectors.
 */
module Embedding {
  import opened Collections

  const BatchSize: nat := 16

  /** `[xs[i:i+16] for i in range(0, len(xs), 16)]`. */
  function Batches<T>(xs: seq<T>): seq<seq<T>>
    decreases |xs|
  {
    if |xs| == 0 then []
    else if |xs| <= BatchSize then [xs]
    else [xs[..BatchSize]] + Batches(xs[BatchSize..])
  }

  function Flatten<T>(bs: seq<seq<T>>): seq<T> {
    if bs == [] then [] else bs[0] + Flatten(bs[1..])
  }

  /** The batches partition the input, in order, each holding 1 to 16 texts, and there are ceil(n / 16) of them. */
  lemma {:induction false} BatchesPartition<T>(xs: seq<T>)
    ensures Flatten(Batches(xs)) == xs
    ensures forall k :: 0 <= k < |Batches(xs)| ==> 1 <= |Batches(xs)[k]| <= BatchSize
    ensures |Batches(xs)| == (|xs| + BatchSize - 1) / BatchSize
    decreases |xs|
  {
    if |xs| == 0 {
    } else if |xs| <= BatchSize {
      assert Flatten([xs]) == xs + Flatten([xs][1..]);
    } else {
      var rest := xs[BatchSize..];
      BatchesPartition(rest);
      var bs := Batches(xs);
      assert bs == [xs[..BatchSize]] + Batches(rest);
      assert bs[1..] == Batches(rest);
      assert Flatten(bs) == xs[..BatchSize] + Flatten(Batches(rest));
      assert xs[..BatchSize] + rest == xs;
    }
  }

  /** Text i is in batch i / 16, at position i % 16, and that batch starts at the 16-multiple below i. */
  lemma {:induction false} BatchOf<T>(xs: seq<T>, i: nat)
    requires i < |xs|
    ensures i / BatchSize < |Batches(xs)|
    ensures Batches(xs)[i / BatchSize] == xs[(i / BatchSize) * BatchSize .. Min(|xs|, (i / BatchSize) * BatchSize + BatchSize)]
    ensures Batches(xs)[i / BatchSize][i % BatchSize] == xs[i]
    decreases |xs|
  {
    if |xs| <= BatchSize {
    } else if i < BatchSize {
    } else {
      var rest := xs[BatchSize..];
      BatchOf(rest, i - BatchSize);
      assert (i - BatchSize) / BatchSize == i / BatchSize - 1;
      assert (i - BatchSize) % BatchSize == i % BatchSize;
      assert Batches(xs)[i / BatchSize] == Batches(rest)[i / BatchSize - 1];
    }
  }

  /** The vectors _embed_texts returns: each batch's vectors, concatenated in batch order. */
  function EmbedAll<T, V>(xs: seq<T>, embed: seq<T> -> seq<V>): seq<V>
    decreases |xs|
  {
    if |xs| == 0 then []
    else if |xs| <= BatchSize then embed(xs)
    else embed(xs[..BatchSize]) + EmbedAll(xs[BatchSize..], embed)
  }

  /** The model returns one vector per text of the batch. */
  ghost predicate OnePerInput<T(!new), V>(embed: seq<T> -> seq<V>) {
    forall b :: |embed(b)| == |b|
  }

  /** With one vector per input, there are as many vectors as texts, and vector i is the one the model gave text i in its batch. */
  lemma {:induction false} EmbedAllAt<T(!new), V>(xs: seq<T>, embed: seq<T> -> seq<V>, i: nat)
    requires OnePerInput(embed)
    requires i < |xs|
    ensures |EmbedAll(xs, embed)| == |xs|
    ensures i / BatchSize < |Batches(xs)| && i % BatchSize < |Batches(xs)[i / BatchSize]|
    ensures EmbedAll(xs, embed)[i] == embed(Batches(xs)[i / BatchSize])[i % BatchSize]
    decreases |xs|
  {
    BatchOf(xs, i);
    if |xs| <= BatchSize {
    } else if i < BatchSize {
      EmbedAllLength(xs[BatchSize..], embed);
    } else {
      var rest := xs[BatchSize..];
      EmbedAllAt(rest, embed, i - BatchSize);
      assert (i - BatchSize) / BatchSize == i / BatchSize - 1;
      assert (i - BatchSize) % BatchSize == i % BatchSize;
      assert Batches(xs)[i / BatchSize] == Batches(rest)[i / BatchSize - 1];
    }
  }

  /** With one vector per input the output is as long as the input. */
  lemma {:induction false} EmbedAllLength<T(!new), V>(xs: seq<T>, embed: seq<T> -> seq<V>)
    requires OnePerInput(embed)
    ensures |EmbedAll(xs, embed)| == |xs|
    decreases |xs|
  {
    if |xs| > BatchSize {
      EmbedAllLength(xs[BatchSize..], embed);
    }
  }

  /**
   * When the model embeds each text on its own (vector k of a batch is f of
   * text k), batching is invisible: vector i is f of text i.
   */
  lemma EmbedAllPointwise<T(!new), V>(xs: seq<T>, embed: seq<T> -> seq<V>, f: T -> V, i: nat)
    requires OnePerInput(embed)
    requires forall b, k :: 0 <= k < |b| ==> embed(b)[k] == f(b[k])
    requires i < |xs|
    ensures |EmbedAll(xs, embed)| == |xs|
    ensures EmbedAll(xs, embed)[i] == f(xs[i])
  {
    EmbedAllAt(xs, embed, i);
    BatchOf(xs, i);
    BatchesPartition(xs);
  }

  /** _embed_texts: one model call per batch of 16, extending the vector list. */
  method EmbedTexts<T, V>(texts: seq<T>, embed: seq<T> -> seq<V>) returns (vecs: seq<V>)
    ensures vecs == EmbedAll(texts, embed)
  {
    vecs := [];
    var i := 0;
    while i < |texts|
      invariant 0 <= i <= |texts| + BatchSize
      invariant i < |texts| ==> vecs + EmbedAll(texts[i..], embed) == EmbedAll(texts, embed)
      invariant i >= |texts| ==> vecs == EmbedAll(texts, embed)
      decreases |texts| - i
    {
      var batch := texts[i..Min(|texts|, i + BatchSize)];
      if i + BatchSize < |texts| {
        assert texts[i..][..BatchSize] == batch;
        assert texts[i..][BatchSize..] == texts[i + BatchSize..];
      } else {
        assert texts[i..] == batch;
      }
      vecs := vecs + embed(batch);
      i := i + BatchSize;
    }
  }
}
