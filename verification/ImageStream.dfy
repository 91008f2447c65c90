/** A tokenised multimodal prompt: text tokens and blocks of image tokens, with
    what it means for a position to be a boundary or to lie inside an image. */
module ImageStream {

  /** One image: len tokens from position start. */
  datatype Block = Block(start: nat, len: nat)

  /** The shape of the input: image i occupies blocks[i].len >= 1 positions from
      blocks[i].start, blocks come in order, and image tokens occur nowhere else. */
  ghost predicate Layout(ids: seq<int>, imageId: int, blocks: seq<Block>) {
    (forall i :: 0 <= i < |blocks| ==> blocks[i].len >= 1 && blocks[i].start + blocks[i].len <= |ids|) &&
    (forall i, j :: 0 <= i < j < |blocks| ==> blocks[i].start + blocks[i].len <= blocks[j].start) &&
    (forall p :: 0 <= p < |ids| ==> (ids[p] == imageId <==> Covered(blocks, p)))
  }

  ghost predicate Covered(blocks: seq<Block>, p: int) {
    exists i :: 0 <= i < |blocks| && blocks[i].start <= p < blocks[i].start + blocks[i].len
  }

  /** Cutting at p would split image i. */
  ghost predicate Inside(blocks: seq<Block>, p: int) {
    exists i :: 0 <= i < |blocks| && blocks[i].start < p < blocks[i].start + blocks[i].len
  }

  /** The end of an image block or of a run of text. */
  ghost predicate Boundary(ids: seq<int>, imageId: int, blocks: seq<Block>, p: int) {
    0 < p <= |ids| &&
    ((exists i :: 0 <= i < |blocks| && p == blocks[i].start + blocks[i].len) ||
     (ids[p - 1] != imageId && (p == |ids| || ids[p] == imageId)))
  }

  /** How many of the first n images end at or before p. */
  ghost function ImagesUpTo(blocks: seq<Block>, p: int, n: nat): (k: nat)
    requires n <= |blocks|
    ensures k <= n
  {
    if n == 0 then 0
    else ImagesUpTo(blocks, p, n - 1) + (if blocks[n - 1].start + blocks[n - 1].len <= p then 1 else 0)
  }

  ghost function Images(blocks: seq<Block>, p: int): nat {
    ImagesUpTo(blocks, p, |blocks|)
  }

  /** How many of the first p tokens are image tokens. */
  ghost function ImageTokens(ids: seq<int>, imageId: int, p: nat): nat
    requires p <= |ids|
  {
    if p == 0 then 0 else ImageTokens(ids, imageId, p - 1) + (if ids[p - 1] == imageId then 1 else 0)
  }

  ghost function SumLens(blocks: seq<Block>, n: nat): nat
    requires n <= |blocks|
  {
    if n == 0 then 0 else SumLens(blocks, n - 1) + blocks[n - 1].len
  }

  /** If exactly the first k images end by p, Images counts k. */
  lemma {:induction false} CountsPrefix(blocks: seq<Block>, p: int, k: nat, n: nat)
    requires n <= |blocks|
    requires forall i :: 0 <= i < |blocks| ==> (blocks[i].start + blocks[i].len <= p <==> i < k)
    ensures ImagesUpTo(blocks, p, n) == if n < k then n else k
  {
    if n > 0 {
      CountsPrefix(blocks, p, k, n - 1);
    }
  }

  /** The images ending by p are the first Images(p) ones. */
  lemma {:induction false} PrefixOfImages(ids: seq<int>, imageId: int, blocks: seq<Block>, p: int, n: nat)
    requires Layout(ids, imageId, blocks) && n <= |blocks|
    ensures forall i :: 0 <= i < n ==> (blocks[i].start + blocks[i].len <= p <==> i < ImagesUpTo(blocks, p, n))
  {
    if n > 0 {
      PrefixOfImages(ids, imageId, blocks, p, n - 1);
    }
  }

  /** The part of the next image that lies before p. */
  ghost function Partial(blocks: seq<Block>, p: int): int {
    var k := Images(blocks, p);
    if k < |blocks| && blocks[k].start < p then p - blocks[k].start else 0
  }

  /** One more position: it belongs to the next image if that has begun. */
  lemma NextPosition(ids: seq<int>, imageId: int, blocks: seq<Block>, p: nat)
    requires Layout(ids, imageId, blocks) && p < |ids|
    ensures var k := Images(blocks, p);
      var begun := k < |blocks| && blocks[k].start <= p;
      (ids[p] == imageId <==> begun) &&
      Images(blocks, p + 1) == (if begun && p + 1 == blocks[k].start + blocks[k].len then k + 1 else k)
  {
    var k := Images(blocks, p);
    PrefixOfImages(ids, imageId, blocks, p, |blocks|);
    if ids[p] == imageId {
      var i :| 0 <= i < |blocks| && blocks[i].start <= p < blocks[i].start + blocks[i].len;
      assert i >= k;
    }
    var k' := if k < |blocks| && blocks[k].start <= p && p + 1 == blocks[k].start + blocks[k].len then k + 1 else k;
    forall i | 0 <= i < |blocks| ensures blocks[i].start + blocks[i].len <= p + 1 <==> i < k' {
      if i > k {
        assert blocks[k].start + blocks[k].len <= blocks[i].start;
      }
    }
    CountsPrefix(blocks, p + 1, k', |blocks|);
  }

  /** The image tokens before p are those of the images that end by it and the
      begun part of the next. */
  lemma {:induction false} TokensBefore(ids: seq<int>, imageId: int, blocks: seq<Block>, p: nat)
    requires Layout(ids, imageId, blocks) && p <= |ids|
    ensures ImageTokens(ids, imageId, p) ==
      SumLens(blocks, Images(blocks, p)) + Partial(blocks, p)
  {
    if p == 0 {
      CountsPrefix(blocks, 0, 0, |blocks|);
    } else {
      TokensBefore(ids, imageId, blocks, p - 1);
      OneMoreToken(ids, imageId, blocks, p - 1);
    }
  }

  lemma OneMoreToken(ids: seq<int>, imageId: int, blocks: seq<Block>, p: nat)
    requires Layout(ids, imageId, blocks) && p < |ids|
    ensures SumLens(blocks, Images(blocks, p + 1)) + Partial(blocks, p + 1) ==
      SumLens(blocks, Images(blocks, p)) + Partial(blocks, p) + (if ids[p] == imageId then 1 else 0)
  {
    NextPosition(ids, imageId, blocks, p);
    var k := Images(blocks, p);
    assert k + 1 < |blocks| ==> blocks[k].start + blocks[k].len <= blocks[k + 1].start;
    PrefixOfImages(ids, imageId, blocks, p, |blocks|);
    hide Layout, Images;
  }

  /** At a position that splits no image, the image tokens before it are those of
      the images that end by it. */
  lemma TokensAreWholeImages(ids: seq<int>, imageId: int, blocks: seq<Block>, p: nat)
    requires Layout(ids, imageId, blocks) && p <= |ids| && !Inside(blocks, p)
    ensures ImageTokens(ids, imageId, p) == SumLens(blocks, Images(blocks, p))
  {
    TokensBefore(ids, imageId, blocks, p);
    PrefixOfImages(ids, imageId, blocks, p, |blocks|);
    var k := Images(blocks, p);
    assert k < |blocks| ==> blocks[k].start + blocks[k].len > p;
    assert k < |blocks| ==> blocks[k].start >= p;
  }

  /** After all the tokens, all the images. */
  lemma AllImages(ids: seq<int>, imageId: int, blocks: seq<Block>)
    requires Layout(ids, imageId, blocks)
    ensures Images(blocks, |ids|) == |blocks|
  {
    CountsPrefix(blocks, |ids|, |blocks|, |blocks|);
  }

  lemma {:induction false} SumGrows(blocks: seq<Block>, a: nat, b: nat)
    requires a <= b <= |blocks| && forall i :: 0 <= i < |blocks| ==> blocks[i].len >= 1
    ensures SumLens(blocks, b) >= SumLens(blocks, a) + (b - a)
    decreases b
  {
    if a < b {
      SumGrows(blocks, a, b - 1);
    }
  }

  lemma {:induction false} ImagesGrow(blocks: seq<Block>, p: int, q: int, n: nat)
    requires p <= q && n <= |blocks|
    ensures ImagesUpTo(blocks, p, n) <= ImagesUpTo(blocks, q, n)
  {
    if n > 0 {
      ImagesGrow(blocks, p, q, n - 1);
    }
  }

  // ---------- the two steps of a scan ----------

  lemma BoundaryIsOutside(ids: seq<int>, imageId: int, blocks: seq<Block>, p: nat)
    requires Layout(ids, imageId, blocks) && Boundary(ids, imageId, blocks, p)
    ensures !Inside(blocks, p)
  {
    forall j | 0 <= j < |blocks| ensures !(blocks[j].start < p < blocks[j].start + blocks[j].len) {
      if ids[p - 1] == imageId {
        var i :| 0 <= i < |blocks| && p == blocks[i].start + blocks[i].len;
        assert i < j ==> blocks[i].start + blocks[i].len <= blocks[j].start;
        assert j < i ==> blocks[j].start + blocks[j].len <= blocks[i].start;
      } else {
        assert !Covered(blocks, p - 1);
      }
    }
  }

  lemma AfterTextIsOutside(ids: seq<int>, imageId: int, blocks: seq<Block>, p: nat)
    requires Layout(ids, imageId, blocks) && 0 < p <= |ids| && ids[p - 1] != imageId
    ensures !Inside(blocks, p)
  {
    assert !Covered(blocks, p - 1);
  }

  lemma EndIsBoundary(ids: seq<int>, imageId: int, blocks: seq<Block>)
    requires Layout(ids, imageId, blocks) && |ids| > 0
    ensures Boundary(ids, imageId, blocks, |ids|)
  {
    if ids[|ids| - 1] == imageId {
      assert Covered(blocks, |ids| - 1);
    }
  }

  /** A run of text from s ends in a boundary and passes none. */
  lemma TextRun(ids: seq<int>, imageId: int, blocks: seq<Block>, s: nat, e: nat)
    requires Layout(ids, imageId, blocks) && s < e <= |ids|
    requires forall p :: s <= p < e ==> ids[p] != imageId
    requires e == |ids| || ids[e] == imageId
    ensures Boundary(ids, imageId, blocks, e) && Images(blocks, e) == Images(blocks, s)
    ensures forall p :: s < p < e ==> !Boundary(ids, imageId, blocks, p)
  {
    PrefixOfImages(ids, imageId, blocks, s, |blocks|);
    forall i | 0 <= i < |blocks| && s < blocks[i].start + blocks[i].len ensures blocks[i].start + blocks[i].len > e {
      assert blocks[i].start <= blocks[i].start + blocks[i].len - 1 < blocks[i].start + blocks[i].len;
      assert Covered(blocks, blocks[i].start + blocks[i].len - 1);
    }
    CountsPrefix(blocks, e, Images(blocks, s), |blocks|);
  }

  /** An image token at a position that splits no image starts the next image. */
  lemma ImageStartsHere(ids: seq<int>, imageId: int, blocks: seq<Block>, s: nat)
    requires Layout(ids, imageId, blocks) && s < |ids| && ids[s] == imageId && !Inside(blocks, s)
    ensures var k := Images(blocks, s); k < |blocks| && blocks[k].start == s
  {
    NextPosition(ids, imageId, blocks, s);
    PrefixOfImages(ids, imageId, blocks, s, |blocks|);
    var k := Images(blocks, s);
    assert blocks[k].start + blocks[k].len > s;
  }

  /** One image block ends in a boundary and passes none. */
  lemma ImageBlock(ids: seq<int>, imageId: int, blocks: seq<Block>, k: nat)
    requires Layout(ids, imageId, blocks) && k < |blocks| && Images(blocks, blocks[k].start) == k
    ensures var e := blocks[k].start + blocks[k].len;
      Boundary(ids, imageId, blocks, e) && Images(blocks, e) == k + 1 &&
      forall p :: blocks[k].start < p < e ==> !Boundary(ids, imageId, blocks, p)
  {
    var s, e := blocks[k].start, blocks[k].start + blocks[k].len;
    PrefixOfImages(ids, imageId, blocks, s, |blocks|);
    forall i | 0 <= i < |blocks| ensures blocks[i].start + blocks[i].len <= e <==> i < k + 1 {
      assert k < i ==> blocks[k].start + blocks[k].len <= blocks[i].start;
    }
    CountsPrefix(blocks, e, k + 1, |blocks|);
    forall p | s < p < e ensures !Boundary(ids, imageId, blocks, p) {
      assert blocks[k].start <= p - 1 < blocks[k].start + blocks[k].len;
      assert Covered(blocks, p - 1);
      forall i | 0 <= i < |blocks| ensures p != blocks[i].start + blocks[i].len {
        assert i < k ==> blocks[i].start + blocks[i].len <= blocks[k].start;
        assert k < i ==> blocks[k].start + blocks[k].len <= blocks[i].start;
      }
    }
  }
}
