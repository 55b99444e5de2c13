/**
 * chunk_text of app/retriever/chunk.py: the text is split into whitespace
 * tokens and cut into windows of `size` tokens; each window starts
 * max(1, size - overlap) tokens after the previous one, the window end is
 * clamped to the last token, and the loop stops once a window reaches it.
 */
module Chunk {
  import opened Text
  import opened Collections

  /** step = max(1, size - overlap): the loop always advances. */
  function Step(size: int, overlap: int): (step: nat)
    ensures step >= 1
  {
    if size - overlap > 1 then size - overlap else 1
  }

  /** Where a Python slice bound k lands in a sequence of length n. */
  function PyBound(k: int, n: nat): (b: nat)
    ensures b <= n
  {
    if k < 0 then (if k + n < 0 then 0 else k + n)
    else if k > n then n
    else k
  }

  /** s[i:j] with Python's semantics: negative bounds count from the end, bounds are clamped. */
  function PySlice<T>(s: seq<T>, i: int, j: int): seq<T> {
    var a := PyBound(i, |s|);
    var b := PyBound(j, |s|);
    if a < b then s[a..b] else []
  }

  /**
   * The (start, end) token bounds of the windows the loop visits from `start`
   * on, for n tokens: end = min(n, start + size); the loop stops after a
   * window that ends at n, or once start passes the last token.
   */
  function WindowsFrom(n: nat, size: int, step: nat, start: nat): seq<(nat, int)>
    requires step >= 1
    decreases n - start
  {
    if start >= n then []
    else
      var end := Min(n, start + size);
      if end == n then [(start, end)]
      else [(start, end)] + WindowsFrom(n, size, step, start + step)
  }

  function Windows(n: nat, size: int, overlap: int): seq<(nat, int)> {
    WindowsFrom(n, size, Step(size, overlap), 0)
  }

  /** The space-joined tokens of each window. */
  function Render(words: seq<string>, ws: seq<(nat, int)>): (r: seq<string>)
    ensures |r| == |ws|
  {
    seq(|ws|, k requires 0 <= k < |ws| => Join(PySlice(words, ws[k].0, ws[k].1), " "))
  }

  /** What chunk_text returns, as a function of its arguments. */
  function Chunks(text: string, size: int, overlap: int): seq<string> {
    var words := Words(text);
    if words == [] then [] else Render(words, Windows(|words|, size, overlap))
  }

  /** chunk_text: split the text into tokens, then run the sliding-window loop over them. */
  method ChunkText(text: string, size: int, overlap: int) returns (chunks: seq<string>)
    ensures chunks == Chunks(text, size, overlap)
  {
    var words := Words(text);
    if |words| == 0 {
      return [];
    }
    chunks := ChunkWords(words, size, overlap);
  }

  /** chunk_text's loop over a non-empty token list, with its early break once a window reaches the end. */
  method ChunkWords(words: seq<string>, size: int, overlap: int) returns (chunks: seq<string>)
    requires words != []
    ensures chunks == ChunksOf(words, size, overlap)
  {
    var step := Step(size, overlap);
    ghost var all := WindowsFrom(|words|, size, step, 0);
    ghost var rendered := Render(words, all);
    chunks := [];
    var start: nat := 0;
    ghost var k: nat := 0;
    while start < |words|
      invariant k <= |all|
      invariant k < |all| <==> start < |words|
      invariant k < |all| ==> all[k].0 == start
      invariant chunks == rendered[..k]
      decreases |words| - start
    {
      WindowNext(|words|, size, step, k);
      var end := Min(|words|, start + size);
      PrefixSnoc(rendered, k);
      chunks := chunks + [Join(PySlice(words, start, end), " ")];
      k := k + 1;
      if end == |words| {
        break;
      }
      start := start + step;
    }
    PrefixAll(rendered, k);
  }

  /** Window k ends size tokens after it starts, clamped to n; the next window, if any, starts one step on. */
  lemma WindowNext(n: nat, size: int, step: nat, k: nat)
    requires step >= 1
    requires k < |WindowsFrom(n, size, step, 0)|
    ensures var ws := WindowsFrom(n, size, step, 0);
            && ws[k].1 == Min(n, ws[k].0 + size)
            && ws[k].0 < n
            && (k + 1 < |ws| <==> ws[k].1 != n && ws[k].0 + step < n)
            && (k + 1 < |ws| ==> ws[k + 1].0 == ws[k].0 + step)
  {
    var ws := WindowsFrom(n, size, step, 0);
    WindowsFromAt(n, size, step, 0, k);
    if k + 1 < |ws| {
      WindowsFromAt(n, size, step, 0, k + 1);
      assert (k + 1) * step == k * step + step;
    }
  }

  /** The prefix of length k + 1 is the prefix of length k followed by element k. */
  lemma PrefixSnoc<T>(s: seq<T>, k: nat)
    requires k < |s|
    ensures s[..k + 1] == s[..k] + [s[k]]
  {
  }

  /** The prefix as long as the sequence is the sequence. */
  lemma PrefixAll<T>(s: seq<T>, k: nat)
    requires k == |s|
    ensures s[..k] == s
  {
  }

  /** Window k starts k steps after `start` and ends size tokens later, clamped to n. */
  lemma {:induction false} WindowsFromAt(n: nat, size: int, step: nat, start: nat, k: nat)
    requires step >= 1
    requires k < |WindowsFrom(n, size, step, start)|
    ensures WindowsFrom(n, size, step, start)[k] == (start + k * step, Min(n, start + k * step + size))
    ensures start + k * step < n
    ensures k + 1 < |WindowsFrom(n, size, step, start)|
            <==> Min(n, start + k * step + size) != n && start + k * step + step < n
    decreases k
  {
    if k > 0 {
      WindowsFromAt(n, size, step, start + step, k - 1);
      assert start + step + (k - 1) * step == start + k * step;
    }
  }

  /** With step <= size the last window always ends at the last token. */
  lemma LastWindowEnds(n: nat, size: int, step: nat)
    requires 1 <= step <= size
    requires 0 < n
    ensures |WindowsFrom(n, size, step, 0)| >= 1
    ensures WindowsFrom(n, size, step, 0)[|WindowsFrom(n, size, step, 0)| - 1].1 == n
  {
    var ws := WindowsFrom(n, size, step, 0);
    var k := |ws| - 1;
    WindowsFromAt(n, size, step, 0, k);
  }

  /** With step <= size every token from `start` on lies in some window. */
  lemma {:induction false} WindowsFromCover(n: nat, size: int, step: nat, start: nat, i: nat)
    requires 1 <= step <= size
    requires start <= i < n
    ensures exists k :: 0 <= k < |WindowsFrom(n, size, step, start)|
                        && WindowsFrom(n, size, step, start)[k].0 <= i < WindowsFrom(n, size, step, start)[k].1
    decreases n - start
  {
    var ws := WindowsFrom(n, size, step, start);
    var end := Min(n, start + size);
    if i < end {
      assert ws[0].0 <= i < ws[0].1;
    } else {
      WindowsFromCover(n, size, step, start + step, i);
      var rest := WindowsFrom(n, size, step, start + step);
      var k :| 0 <= k < |rest| && rest[k].0 <= i < rest[k].1;
      assert ws[k + 1] == rest[k];
    }
  }

  /** The token words[a:b] of a window with 0 <= a < b <= n, re-tokenised from its chunk. */
  lemma ChunkOfWindow(words: seq<string>, a: nat, b: int)
    requires forall i :: 0 <= i < |words| ==> IsWord(words[i])
    requires a < b <= |words|
    ensures PySlice(words, a, b) == words[a..b]
    ensures Words(Join(words[a..b], " ")) == words[a..b]
  {
    WordsOfJoin(words[a..b]);
  }

  /** The chunks of a non-empty token sequence. */
  function ChunksOf(words: seq<string>, size: int, overlap: int): seq<string> {
    Render(words, Windows(|words|, size, overlap))
  }

  lemma ChunksOfText(text: string, size: int, overlap: int)
    requires Words(text) != []
    ensures Chunks(text, size, overlap) == ChunksOf(Words(text), size, overlap)
  {
  }

  /** Chunk k of a token sequence joins the tokens [k * step, min(n, k * step + size)). */
  lemma ChunkOfWordsAt(words: seq<string>, size: int, overlap: int, k: nat)
    requires forall i :: 0 <= i < |words| ==> IsWord(words[i])
    requires 1 <= size
    requires k < |Windows(|words|, size, overlap)|
    ensures var lo := k * Step(size, overlap);
            var hi := Min(|words|, lo + size);
            && 0 <= lo < hi <= |words|
            && |ChunksOf(words, size, overlap)| == |Windows(|words|, size, overlap)|
            && ChunksOf(words, size, overlap)[k] == Join(words[lo..hi], " ")
            && Words(ChunksOf(words, size, overlap)[k]) == words[lo..hi]
  {
    var step := Step(size, overlap);
    var ws := WindowsFrom(|words|, size, step, 0);
    WindowsFromAt(|words|, size, step, 0, k);
    RenderedWindow(words, ws, k);
  }

  /** A window a < b <= n renders to the join of tokens [a, b), which re-tokenises to those tokens. */
  lemma RenderedWindow(words: seq<string>, ws: seq<(nat, int)>, k: nat)
    requires forall i :: 0 <= i < |words| ==> IsWord(words[i])
    requires k < |ws| && ws[k].0 < ws[k].1 <= |words|
    ensures |Render(words, ws)| == |ws|
    ensures Render(words, ws)[k] == Join(words[ws[k].0..ws[k].1], " ")
    ensures Words(Render(words, ws)[k]) == words[ws[k].0..ws[k].1]
  {
    ChunkOfWindow(words, ws[k].0, ws[k].1);
  }

  /** Every window from start is a non-empty token range ending by n. */
  lemma {:induction false} WindowsFromBounds(n: nat, size: int, step: nat, start: nat, k: nat)
    requires 1 <= size && step >= 1
    requires k < |WindowsFrom(n, size, step, start)|
    ensures WindowsFrom(n, size, step, start)[k].0 < WindowsFrom(n, size, step, start)[k].1 <= n
    decreases n - start
  {
    if k > 0 {
      WindowsFromBounds(n, size, step, start + step, k - 1);
    }
  }

  /** Text with no non-whitespace character, and only such text, gives no chunks. */
  lemma NoChunksIffBlank(text: string, size: int, overlap: int)
    ensures Chunks(text, size, overlap) == [] <==> forall i :: 0 <= i < |text| ==> IsSpace(text[i])
  {
    NoWordsIffAllSpace(text);
    var words := Words(text);
    if words != [] {
    }
  }

  /**
   * Chunk k is the space-join of tokens [k * step, min(n, k * step + size)),
   * so it re-tokenises to between 1 and size tokens.
   */
  lemma ChunkAt(text: string, size: int, overlap: int, k: nat)
    requires 1 <= size
    requires k < |Chunks(text, size, overlap)|
    ensures var words := Words(text);
            var lo := k * Step(size, overlap);
            var hi := Min(|words|, lo + size);
            && 0 <= lo < hi <= |words|
            && Chunks(text, size, overlap)[k] == Join(words[lo..hi], " ")
            && Words(Chunks(text, size, overlap)[k]) == words[lo..hi]
            && 1 <= hi - lo <= size
  {
    var words := Words(text);
    ChunkOfWordsAt(words, size, overlap, k);
  }

  /** The last chunk ends exactly at the last token (when 0 <= overlap). */
  lemma {:induction false} LastChunkEndsAtLastToken(text: string, size: int, overlap: int)
    requires 1 <= size && 0 <= overlap
    requires Words(text) != []
    ensures Chunks(text, size, overlap) != []
    ensures var c := Chunks(text, size, overlap)[|Chunks(text, size, overlap)| - 1];
            EndsWithWord(c, Words(text)[|Words(text)| - 1])
  {
    var words := Words(text);
    var step := Step(size, overlap);
    var r := Render(words, WindowsFrom(|words|, size, step, 0));
    LastRenderedEndsAtLast(words, size, step);
    assert Chunks(text, size, overlap) == r by { ChunksOfText(text, size, overlap); }
  }

  /** The last whitespace token of `chunk` is `w`. */
  predicate EndsWithWord(chunk: string, w: string) {
    var ws := Words(chunk);
    ws != [] && ws[|ws| - 1] == w
  }

  /** The last window of a token sequence renders to a chunk ending with its last token. */
  lemma {:induction false} LastRenderedEndsAtLast(words: seq<string>, size: int, step: nat)
    requires forall i :: 0 <= i < |words| ==> IsWord(words[i])
    requires 1 <= step <= size && words != []
    ensures var r := Render(words, WindowsFrom(|words|, size, step, 0));
            r != [] && EndsWithWord(r[|r| - 1], words[|words| - 1])
  {
    var ws := WindowsFrom(|words|, size, step, 0);
    LastWindowEnds(|words|, size, step);
    WindowsFromBounds(|words|, size, step, 0, |ws| - 1);
    LastWindowRendersToEnd(words, ws);
  }

  /** A last window that ends at the last token renders to a chunk ending with that token. */
  lemma {:induction false} LastWindowRendersToEnd(words: seq<string>, ws: seq<(nat, int)>)
    requires forall i :: 0 <= i < |words| ==> IsWord(words[i])
    requires ws != [] && ws[|ws| - 1].0 < ws[|ws| - 1].1 == |words|
    ensures var r := Render(words, ws);
            r != [] && EndsWithWord(r[|r| - 1], words[|words| - 1])
  {
    var k := |ws| - 1;
    RenderedWindow(words, ws, k);
    var r := Render(words, ws);
    assert |r| - 1 == k;
    var last := Words(r[k]);
    LastOfSuffix(words, last, ws[k].0, ws[k].1);
  }

  /** A non-empty suffix of a sequence ends with the sequence's last element. */
  lemma LastOfSuffix<T>(xs: seq<T>, ys: seq<T>, lo: nat, hi: nat)
    requires lo < hi == |xs| && ys == xs[lo..hi]
    ensures ys != [] && ys[|ys| - 1] == xs[|xs| - 1]
  {
  }

  /** With 0 <= overlap every token lies in the token range of some chunk. */
  lemma ChunksCoverEveryToken(text: string, size: int, overlap: int, i: nat)
    requires 1 <= size && 0 <= overlap
    requires i < |Words(text)|
    ensures exists k :: 0 <= k < |Chunks(text, size, overlap)|
                        && k * Step(size, overlap) <= i < Min(|Words(text)|, k * Step(size, overlap) + size)
  {
    var words := Words(text);
    var step := Step(size, overlap);
    var ws := WindowsFrom(|words|, size, step, 0);
    WindowsFromCover(|words|, size, step, 0, i);
    var k :| 0 <= k < |ws| && ws[k].0 <= i < ws[k].1;
    WindowsFromAt(|words|, size, step, 0, k);
  }

  /**
   * With 0 <= overlap < size, every chunk but the last holds exactly size
   * tokens, and the next chunk starts overlap tokens before it ends.
   */
  lemma ConsecutiveChunksOverlap(text: string, size: int, overlap: int, k: nat)
    requires 0 <= overlap < size
    requires k + 1 < |Chunks(text, size, overlap)|
    ensures var lo := k * Step(size, overlap);
            var next := (k + 1) * Step(size, overlap);
            && Min(|Words(text)|, lo + size) == lo + size
            && next == lo + size - overlap
  {
    var words := Words(text);
    var step := Step(size, overlap);
    var ws := WindowsFrom(|words|, size, step, 0);
    WindowsFromAt(|words|, size, step, 0, k);
    assert (k + 1) * step == k * step + step;
  }

  /** When all n tokens fit in one window they form one chunk, joined by single spaces. */
  lemma ShortWordsAreOneChunk(words: seq<string>, size: int, overlap: int)
    requires words != [] && |words| <= size
    ensures ChunksOf(words, size, overlap) == [Join(words, " ")]
  {
    var ws: seq<(nat, int)> := [(0, |words|)];
    assert Windows(|words|, size, overlap) == ws;
    assert PySlice(words, 0, |words|) == words;
    assert |ws[1..]| == 0;
    assert Render(words, ws) == [Join(words, " ")] + Render(words, ws[1..]);
  }

  /** When all n tokens fit in one window the result is one chunk: the tokens joined by single spaces. */
  lemma ShortTextIsOneChunk(text: string, size: int, overlap: int)
    requires Words(text) != []
    requires |Words(text)| <= size
    ensures Chunks(text, size, overlap) == [Join(Words(text), " ")]
  {
    ShortWordsAreOneChunk(Words(text), size, overlap);
  }

  lemma ExampleShortText()
    ensures Chunks("a b c", 10, 2) == ["a b c"]
  {
    assert Join(["a", "b", "c"], " ") == "a b c";
    WordsOfJoin(["a", "b", "c"]);
    ShortTextIsOneChunk("a b c", 10, 2);
  }

  lemma ExampleTwoChunks()
    ensures Chunks("alpha beta gamma delta", 2, 0) == ["alpha beta", "gamma delta"]
  {
    var words := ["alpha", "beta", "gamma", "delta"];
    ExampleFourWords();
    ExampleFourWordsInPairs();
    assert Chunks("alpha beta gamma delta", 2, 0) == ChunksOf(words, 2, 0);
  }

  lemma ExampleFourWords()
    ensures Words("alpha beta gamma delta") == ["alpha", "beta", "gamma", "delta"]
  {
    var words := ["alpha", "beta", "gamma", "delta"];
    assert Join(words, " ") == "alpha beta gamma delta";
    WordsOfJoin(words);
  }

  lemma ExampleFourWordsInPairs()
    ensures ChunksOf(["alpha", "beta", "gamma", "delta"], 2, 0) == ["alpha beta", "gamma delta"]
  {
    var words := ["alpha", "beta", "gamma", "delta"];
    assert Windows(4, 2, 0) == [(0, 2), (2, 4)];
    var ws: seq<(nat, int)> := [(0, 2), (2, 4)];
    assert PySlice(words, 0, 2) == ["alpha", "beta"];
    assert PySlice(words, 2, 4) == ["gamma", "delta"];
    assert Join(["alpha", "beta"], " ") == "alpha beta";
    assert Join(["gamma", "delta"], " ") == "gamma delta";
    assert ws[1..] == [(2, 4)] && |ws[1..][1..]| == 0;
    assert Render(words, ws[1..]) == ["gamma delta"] + Render(words, ws[1..][1..]);
    assert Render(words, ws) == ["alpha beta"] + Render(words, ws[1..]);
  }
}
