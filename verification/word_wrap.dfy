/**
  Hard, fixed-width wrapping of the chatbot's free-text answers.

  The text is cut into consecutive pieces of `width` characters, one piece
  for each start position in `range(0, len(text), width)`, with no regard to
  word boundaries, and the pieces are joined with a newline.
 */
module WordWrap {

  /** The wrap width used when no other is given. */
  const DefaultWidth: nat := 87

  function Min(a: int, b: int): (m: int) {
    if a <= b then a else b
  }

  /**
    The pieces `text[i : i + width]` for the start positions i of
    `range(start, len(text), width)`; Python's slice stops at the end of the
    text when fewer than `width` characters remain.
   */
  function ChunksFrom(text: string, width: nat, start: nat): (r: seq<string>)
    requires width > 0
    ensures start >= |text| <==> r == []
    decreases |text| - start
  {
    if start >= |text| then []
    else [text[start .. Min(start + width, |text|)]] + ChunksFrom(text, width, start + width)
  }

  /** Pieces of exactly `width` characters, except the last, which may be shorter. */
  ghost predicate FullExceptLast(pieces: seq<string>, width: nat) {
    forall i :: 0 <= i < |pieces| ==> |pieces[i]| <= width && (i < |pieces| - 1 ==> |pieces[i]| == width)
  }

  /**
    The list comprehension of `word_wrap`: one piece per start in
    `range(0, len(text), width)`. No character is dropped or duplicated (the
    pieces concatenate back to the text), no piece is empty, and every piece
    has `width` characters except the last, which may have fewer.
   */
  function Chunks(text: string, width: nat): (r: seq<string>)
    requires width > 0
    ensures Flatten(r) == text
    ensures FullExceptLast(r, width)
    ensures forall k :: 0 <= k < |r| ==> |r[k]| > 0
  {
    FlattenChunksFrom(text, width, 0);
    ChunksFullFrom(text, width, 0);
    ChunksFrom(text, width, 0)
  }

  /**
    Python's `"\n".join(pieces)`: the pieces with a newline between
    neighbours, so a non-empty list gains one newline per neighbouring pair.
   */
  function Join(pieces: seq<string>): (r: string)
    ensures |pieces| > 0 ==> |r| == |Flatten(pieces)| + |pieces| - 1
  {
    if |pieces| == 0 then ""
    else if |pieces| == 1 then pieces[0]
    else pieces[0] + "\n" + Join(pieces[1..])
  }

  /** The pieces concatenated with no separator. */
  function Flatten(pieces: seq<string>): (r: string) {
    if |pieces| == 0 then "" else pieces[0] + Flatten(pieces[1..])
  }

  /**
    `word_wrap(text, width)`: the chunks joined with a newline. Empty text
    wraps to the empty string; a non-empty text no longer than the width
    comes back unchanged; otherwise the output is the text plus one newline
    between each pair of neighbouring chunks.
   */
  function Wrap(text: string, width: nat): (r: string)
    requires width > 0
    ensures |text| == 0 ==> r == ""
    ensures 0 < |text| <= width ==> r == text
    ensures |text| > 0 ==> |r| == |text| + |Chunks(text, width)| - 1
  {
    var chunks := Chunks(text, width);
    assert 0 < |text| <= width ==> text[0..|text|] == text && chunks == [text];
    Join(chunks)
  }

  // ---------------------------------------------------------------------------
  // Reconstruction, piece lengths, chunk count and chunk contents
  // ---------------------------------------------------------------------------

  lemma {:induction false} FlattenChunksFrom(text: string, width: nat, start: nat)
    requires width > 0 && start <= |text|
    ensures Flatten(ChunksFrom(text, width, start)) == text[start..]
    decreases |text| - start
  {
    if start < |text| {
      var end := Min(start + width, |text|);
      FlattenChunksFrom(text, width, end);
      if end < |text| {
        assert ChunksFrom(text, width, start + width) == ChunksFrom(text, width, end);
      }
      assert text[start..end] + text[end..] == text[start..];
    }
  }

  lemma {:induction false} ChunksFullFrom(text: string, width: nat, start: nat)
    requires width > 0
    ensures FullExceptLast(ChunksFrom(text, width, start), width)
    ensures forall k :: 0 <= k < |ChunksFrom(text, width, start)| ==> |ChunksFrom(text, width, start)[k]| > 0
    decreases |text| - start
  {
    if start < |text| {
      var cs, tail := ChunksFrom(text, width, start), ChunksFrom(text, width, start + width);
      ChunksFullFrom(text, width, start + width);
      assert cs == [cs[0]] + tail;
      assert |tail| > 0 ==> |cs[0]| == width;
      forall k | 1 <= k < |cs|
        ensures cs[k] == tail[k - 1]
      {
      }
    }
  }

  lemma {:induction false} ChunkCountFrom(text: string, width: nat, start: nat)
    requires width > 0 && start < |text|
    ensures var c := |ChunksFrom(text, width, start)|;
      c >= 1 && start + (c - 1) * width < |text| <= start + c * width
    decreases |text| - start
  {
    var c := |ChunksFrom(text, width, start)|;
    if start + width < |text| {
      ChunkCountFrom(text, width, start + width);
      assert start + width + (c - 2) * width == start + (c - 1) * width;
      assert start + width + (c - 1) * width == start + c * width;
    }
  }

  /**
    A non-empty text gives ceil(len(text) / width) chunks: the least count c
    with c * width >= len(text).
   */
  lemma ChunkCount(text: string, width: nat)
    requires width > 0 && |text| > 0
    ensures var c := |Chunks(text, width)|;
      c >= 1 && (c - 1) * width < |text| <= c * width
  {
    ChunkCountFrom(text, width, 0);
  }

  lemma {:induction false} ChunkAtFrom(text: string, width: nat, start: nat, k: nat)
    requires width > 0 && k < |ChunksFrom(text, width, start)|
    ensures start + k * width < |text|
    ensures ChunksFrom(text, width, start)[k]
         == text[start + k * width .. Min(start + (k + 1) * width, |text|)]
    decreases k
  {
    if k > 0 {
      ChunkAtFrom(text, width, start + width, k - 1);
      assert start + width + (k - 1) * width == start + k * width;
      assert start + width + k * width == start + (k + 1) * width;
    }
  }

  /**
    Chunk k is `text[k*width : (k+1)*width]`; every chunk has `width`
    characters except the last, which has between 1 and `width`.
   */
  lemma ChunkAt(text: string, width: nat, k: nat)
    requires width > 0 && k < |Chunks(text, width)|
    ensures k * width < |text|
    ensures Chunks(text, width)[k] == text[k * width .. Min((k + 1) * width, |text|)]
    ensures k < |Chunks(text, width)| - 1 ==> |Chunks(text, width)[k]| == width
    ensures k == |Chunks(text, width)| - 1 ==> 1 <= |Chunks(text, width)[k]| <= width
  {
    ChunkAtFrom(text, width, 0, k);
  }

  /** Character j of chunk k is character k * width + j of the text. */
  lemma ChunkChar(text: string, width: nat, k: nat, j: nat)
    requires width > 0 && k < |Chunks(text, width)| && j < |Chunks(text, width)[k]|
    ensures k * width + j < |text| && Chunks(text, width)[k][j] == text[k * width + j]
  {
    ChunkAt(text, width, k);
    var a, b := k * width, Min((k + 1) * width, |text|);
    assert Chunks(text, width)[k] == text[a..b];
  }

  /** k * step, spelled out as repeated addition. */
  function Stride(k: nat, step: nat): (r: nat) {
    if k == 0 then 0 else step + Stride(k - 1, step)
  }

  lemma {:induction false} StrideIsProduct(k: nat, step: nat)
    ensures Stride(k, step) == k * step
  {
    if k > 0 {
      StrideIsProduct(k - 1, step);
      assert step + (k - 1) * step == k * step;
    }
  }

  lemma FullExceptLastTail(pieces: seq<string>, width: nat)
    requires |pieces| > 1 && FullExceptLast(pieces, width)
    ensures |pieces[0]| == width && FullExceptLast(pieces[1..], width)
  {
    assert |pieces[0]| <= width && (0 < |pieces| - 1 ==> |pieces[0]| == width);
  }

  /** In a newline join of two or more pieces, the first piece comes first, then a newline. */
  lemma JoinHead(pieces: seq<string>, j: nat)
    requires |pieces| > 1 && j <= |pieces[0]|
    ensures j < |Join(pieces)|
    ensures Join(pieces)[j] == if j == |pieces[0]| then '\n' else pieces[0][j]
  {
    assert Join(pieces) == (pieces[0] + "\n") + Join(pieces[1..]);
  }

  /** In a newline join of two or more pieces, the join of the rest follows the first newline. */
  lemma JoinTail(pieces: seq<string>, q: nat)
    requires |pieces| > 1 && q < |Join(pieces[1..])|
    ensures |pieces[0]| + 1 + q < |Join(pieces)|
    ensures Join(pieces)[|pieces[0]| + 1 + q] == Join(pieces[1..])[q]
  {
    var head := pieces[0] + "\n";
    assert Join(pieces) == head + Join(pieces[1..]);
    assert |head| == |pieces[0]| + 1;
  }

  lemma {:induction false} JoinAt(pieces: seq<string>, width: nat, k: nat, j: nat)
    requires FullExceptLast(pieces, width) && k < |pieces|
    requires j < |pieces[k]| || (j == width && k < |pieces| - 1)
    ensures Stride(k, width + 1) + j < |Join(pieces)|
    ensures Join(pieces)[Stride(k, width + 1) + j]
         == if j == width then '\n' else pieces[k][j]
    decreases k
  {
    if |pieces| == 1 {
      assert Join(pieces) == pieces[0];
      assert Join(pieces)[Stride(k, width + 1) + j] == if j == width then '\n' else pieces[k][j];
    } else {
      FullExceptLastTail(pieces, width);
      if k == 0 {
        JoinHead(pieces, j);
        assert Join(pieces)[Stride(k, width + 1) + j] == if j == width then '\n' else pieces[k][j];
      } else {
        var tail := pieces[1..];
        var q := Stride(k - 1, width + 1) + j;
        JoinAt(tail, width, k - 1, j);
        JoinTail(pieces, q);
        assert Stride(k, width + 1) + j == |pieces[0]| + 1 + q;
        assert tail[k - 1] == pieces[k];
        assert Join(pieces)[Stride(k, width + 1) + j] == if j == width then '\n' else pieces[k][j];
      }
    }
  }

  /**
    Where each character of the wrapped text comes from: character j of
    chunk k sits at position k * (width + 1) + j and is `text[k * width + j]`;
    position k * (width + 1) + width, after every chunk but the last, holds
    the inserted newline.
   */
  lemma WrapAt(text: string, width: nat, k: nat, j: nat)
    requires width > 0 && k < |Chunks(text, width)|
    requires j < |Chunks(text, width)[k]| || (j == width && k < |Chunks(text, width)| - 1)
    ensures k * (width + 1) + j < |Wrap(text, width)|
    ensures j == width ==> Wrap(text, width)[k * (width + 1) + j] == '\n'
    ensures j < width ==>
      k * width + j < |text| && Wrap(text, width)[k * (width + 1) + j] == text[k * width + j]
  {
    var cs := Chunks(text, width);
    var out := Wrap(text, width);
    assert out == Join(cs);
    JoinAt(cs, width, k, j);
    StrideIsProduct(k, width + 1);
    var p := k * (width + 1) + j;
    assert p == Stride(k, width + 1) + j;
    assert out[p] == if j == width then '\n' else cs[k][j];
    if j < width {
      ChunkChar(text, width, k, j);
    }
  }

  /** A 200-character answer at the default width gives lines of 87, 87 and 26 characters. */
  lemma Wrap200(text: string)
    requires |text| == 200
    ensures |Chunks(text, DefaultWidth)| == 3
    ensures |Chunks(text, DefaultWidth)[0]| == 87
    ensures |Chunks(text, DefaultWidth)[1]| == 87
    ensures |Chunks(text, DefaultWidth)[2]| == 26
    ensures |Wrap(text, DefaultWidth)| == 202
  {
    ChunkCount(text, DefaultWidth);
    ChunkAt(text, DefaultWidth, 0);
    ChunkAt(text, DefaultWidth, 1);
    ChunkAt(text, DefaultWidth, 2);
  }

  /**
    The wrapped output alone does not determine the chunks: a text may itself
    hold newlines, so "ab" at width 1 and "a\nb" at width 3 wrap to the same
    string. Reconstruction is therefore stated on the chunk sequence.
   */
  lemma WrapNotInvertible()
    ensures Wrap("ab", 1) == Wrap("a\nb", 3) == "a\nb"
  {
    assert Chunks("ab", 1) == ["a", "b"] by {
      assert "ab"[0..1] == "a" && "ab"[1..2] == "b";
    }
    assert Chunks("a\nb", 3) == ["a\nb"] by {
      assert "a\nb"[0..3] == "a\nb";
    }
  }
}
