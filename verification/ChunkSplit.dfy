/** get_img_boundaries.cc and get_mm_split_fuse.cc: the two scans over a
    multimodal prompt, and the loop that cuts it into chunks without ever
    cutting an image. */
module ChunkSplit {
  import opened ImageStream

  /** Row i of grid_thw is (t, h, w); four patches make one token. */
  ghost predicate GridGives(grid: seq<int>, blocks: seq<Block>) {
    |grid| == 3 * |blocks| && forall i :: 0 <= i < |blocks| ==> blocks[i].len == grid[i * 3 + 1] * grid[i * 3 + 2] / 4
  }

  ghost predicate Strict(s: seq<int>) {
    forall i, j :: 0 <= i < j < |s| ==> s[i] < s[j]
  }

  /** boundaries lists 0 and every boundary up to p, in order, nums how many
      images end by each of them. */
  ghost predicate Listed(ids: seq<int>, imageId: int, blocks: seq<Block>, p: int,
                         boundaries: seq<int>, nums: seq<int>)
  {
    |boundaries| == |nums| > 0 && boundaries[0] == 0 && boundaries[|boundaries| - 1] == p && Strict(boundaries) &&
    (forall q :: 0 < q <= p ==> (q in boundaries <==> Boundary(ids, imageId, blocks, q))) &&
    (forall j :: 0 <= j < |nums| ==> nums[j] == Images(blocks, boundaries[j]))
  }

  lemma ListedNext(ids: seq<int>, imageId: int, blocks: seq<Block>, p: int, e: int,
                   boundaries: seq<int>, nums: seq<int>, n: int)
    requires Listed(ids, imageId, blocks, p, boundaries, nums) && 0 <= p < e
    requires Boundary(ids, imageId, blocks, e) && n == Images(blocks, e)
    requires forall q :: p < q < e ==> !Boundary(ids, imageId, blocks, q)
    ensures Listed(ids, imageId, blocks, e, boundaries + [e], nums + [n])
  {
    var b := boundaries + [e];
    forall q | q in boundaries ensures q <= p {
      var i :| 0 <= i < |boundaries| && boundaries[i] == q;
      assert i < |boundaries| - 1 ==> boundaries[i] < boundaries[|boundaries| - 1];
    }
    forall i, j | 0 <= i < j < |b| ensures b[i] < b[j] {
      assert boundaries[i] in boundaries;
    }
    forall q | 0 < q <= e ensures q in b <==> Boundary(ids, imageId, blocks, q) {
      assert b[|boundaries|] == e;
      assert q in b <==> q in boundaries || q == e;
    }
  }

  /** GetImgBoundaries. */
  method GetImgBoundaries(ids: seq<int>, grid: seq<int>, imageId: int, ghost blocks: seq<Block>)
    returns (boundaries: seq<int>, nums: seq<int>)
    requires Layout(ids, imageId, blocks) && GridGives(grid, blocks)
    ensures Listed(ids, imageId, blocks, |ids|, boundaries, nums)
  {
    hide Layout, Listed, Inside, Images, Boundary;
    var tokenIdx, imageIdx := 0, 0;
    boundaries, nums := [0], [0];
    ListedFirst(ids, imageId, blocks);
    while tokenIdx < |ids|
      invariant 0 <= tokenIdx <= |ids| && !Inside(blocks, tokenIdx) && imageIdx == Images(blocks, tokenIdx)
      invariant Listed(ids, imageId, blocks, tokenIdx, boundaries, nums)
    {
      ghost var was := tokenIdx;
      if ids[tokenIdx] != imageId {
        tokenIdx := SkipText(ids, imageId, tokenIdx);
        TextRun(ids, imageId, blocks, was, tokenIdx);
      } else {
        ImageStartsHere(ids, imageId, blocks, tokenIdx);
        ImageBlock(ids, imageId, blocks, imageIdx);
        BlockFits(ids, imageId, blocks, imageIdx);
        var curImageTokenLen := grid[imageIdx * 3 + 1] * grid[imageIdx * 3 + 2] / 4;
        imageIdx := imageIdx + 1;
        tokenIdx := tokenIdx + curImageTokenLen;
      }
      BoundaryIsOutside(ids, imageId, blocks, tokenIdx);
      ListedNext(ids, imageId, blocks, was, tokenIdx, boundaries, nums, imageIdx);
      boundaries := boundaries + [tokenIdx];
      nums := nums + [imageIdx];
    }
  }

  lemma ListedFirst(ids: seq<int>, imageId: int, blocks: seq<Block>)
    requires Layout(ids, imageId, blocks)
    ensures !Inside(blocks, 0) && Images(blocks, 0) == 0
    ensures Listed(ids, imageId, blocks, 0, [0], [0])
  {
    CountsPrefix(blocks, 0, 0, |blocks|);
  }

  lemma BlockFits(ids: seq<int>, imageId: int, blocks: seq<Block>, k: nat)
    requires Layout(ids, imageId, blocks) && k < |blocks|
    ensures blocks[k].len >= 1 && blocks[k].start + blocks[k].len <= |ids|
  {}

  /** The do-while loop over a run of text. */
  method SkipText(ids: seq<int>, imageId: int, from: nat) returns (to: nat)
    requires from < |ids| && ids[from] != imageId
    ensures from < to <= |ids| && (to == |ids| || ids[to] == imageId)
    ensures forall p :: from <= p < to ==> ids[p] != imageId
  {
    to := from + 1;
    while to < |ids| && ids[to] != imageId
      invariant from < to <= |ids|
      invariant forall p :: from <= p < to ==> ids[p] != imageId
    {
      to := to + 1;
    }
  }

  /** The first loop of GetMmSplitFuse: mp marks every position where a chunk may
      end.  The marks are exactly the boundaries the other scan lists. */
  method MarkCuts(ids: seq<int>, grid: seq<int>, imageId: int, ghost blocks: seq<Block>)
    returns (mp: map<int, int>)
    requires Layout(ids, imageId, blocks) && GridGives(grid, blocks)
    ensures forall p :: p in mp ==> mp[p] == 1
    ensures forall p :: p in mp <==> Boundary(ids, imageId, blocks, p)
  {
    hide Layout, Inside, Images;
    mp := map[];
    var stIdx, lastStIb := 0, 0;
    ListedFirst(ids, imageId, blocks);
    while stIdx < |ids|
      invariant 0 <= stIdx <= |ids| && !Inside(blocks, stIdx) && lastStIb == Images(blocks, stIdx)
      invariant forall p :: p in mp ==> mp[p] == 1
      invariant forall p :: p in mp <==> p <= stIdx && Boundary(ids, imageId, blocks, p)
    {
      ghost var was := stIdx;
      if ids[stIdx] != imageId {
        stIdx := SkipText(ids, imageId, stIdx);
        TextRun(ids, imageId, blocks, was, stIdx);
        mp := mp[stIdx := 1];
      } else {
        ImageStartsHere(ids, imageId, blocks, stIdx);
        ImageBlock(ids, imageId, blocks, lastStIb);
        BlockFits(ids, imageId, blocks, lastStIb);
        var curStLen := grid[lastStIb * 3 + 1] * grid[lastStIb * 3 + 2] / 4;
        mp := mp[stIdx + curStLen := 1];
        lastStIb := lastStIb + 1;
        stIdx := stIdx + curStLen;
      }
      BoundaryIsOutside(ids, imageId, blocks, stIdx);
    }
  }

  /** The two scans agree: the marked positions are the nonzero listed ones. */
  lemma ScansAgree(ids: seq<int>, imageId: int, blocks: seq<Block>, boundaries: seq<int>, nums: seq<int>,
                   mp: map<int, int>)
    requires Listed(ids, imageId, blocks, |ids|, boundaries, nums)
    requires forall p :: p in mp <==> Boundary(ids, imageId, blocks, p)
    ensures forall p :: p in mp <==> p in boundaries && p != 0
  {
    forall p | p in boundaries ensures 0 <= p <= |ids| {
      var i :| 0 <= i < |boundaries| && boundaries[i] == p;
      assert i > 0 ==> boundaries[0] < boundaries[i];
      assert i < |boundaries| - 1 ==> boundaries[i] < boundaries[|boundaries| - 1];
    }
  }

  /** Where a chunk may be cut: at a boundary, or strictly inside a run of text. */
  ghost predicate Cuttable(ids: seq<int>, imageId: int, blocks: seq<Block>, p: int) {
    Boundary(ids, imageId, blocks, p) || (0 < p < |ids| && ids[p - 1] != imageId && ids[p] != imageId)
  }

  /** No position from p up to q may be cut at. */
  ghost predicate Uncuttable(ids: seq<int>, imageId: int, blocks: seq<Block>, p: int, q: int) {
    forall i :: p <= i < q ==> !Cuttable(ids, imageId, blocks, i)
  }

  /** One chunk, from last to next: it holds so many whole images, and ends at the first
      position that may be cut at once it has textSize tokens. */
  ghost predicate IsChunk(ids: seq<int>, imageId: int, blocks: seq<Block>, textSize: nat, last: int, next: int,
                          len: int, images: int)
  {
    len == next - last > 0 && (next < |ids| ==> len >= textSize) &&
    images == Images(blocks, next) - Images(blocks, last) &&
    Cuttable(ids, imageId, blocks, next) && !Inside(blocks, next) &&
    Uncuttable(ids, imageId, blocks, last + textSize, next)
  }

  /** The chunks between consecutive cuts, and the images in each. */
  ghost predicate Chunked(ids: seq<int>, imageId: int, blocks: seq<Block>, textSize: nat,
                          cuts: seq<int>, chunkLens: seq<int>, chunkImages: seq<int>)
  {
    |cuts| == |chunkLens| + 1 == |chunkImages| + 1 && cuts[0] == 0 && !Inside(blocks, 0) &&
    forall c :: 0 <= c < |chunkLens| ==>
      IsChunk(ids, imageId, blocks, textSize, cuts[c], cuts[c + 1], chunkLens[c], chunkImages[c])
  }

  /** The loop that counts the images of a chunk from its number of image tokens. */
  method CountImages(grid: seq<int>, imgTotal: nat, lastIb: nat, tokens: int, ghost blocks: seq<Block>, ghost upTo: nat)
    returns (number: nat, ib: nat)
    requires GridGives(grid, blocks) && imgTotal == |blocks| && lastIb <= upTo <= |blocks|
    requires forall i :: 0 <= i < |blocks| ==> blocks[i].len >= 1
    requires tokens == SumLens(blocks, upTo) - SumLens(blocks, lastIb)
    ensures ib == upTo && number == upTo - lastIb
  {
    number, ib := 0, lastIb;
    var curImgLen := 0;
    while ib < imgTotal && curImgLen < tokens
      invariant lastIb <= ib <= upTo && number == ib - lastIb
      invariant curImgLen == SumLens(blocks, ib) - SumLens(blocks, lastIb)
    {
      SumGrows(blocks, ib, upTo);
      curImgLen := curImgLen + grid[ib * 3 + 1] * grid[ib * 3 + 2] / 4;
      ib := ib + 1;
      number := number + 1;
    }
    SumGrows(blocks, ib, upTo);
  }

  /** The inner loop of case 2: on to the first marked position.  std::map's
      operator[] leaves an entry 0 at every position it looks at. */
  method NextMark(n: nat, marks: map<int, int>, from: nat, ghost cut: iset<int>) returns (idx: nat, mp: map<int, int>)
    requires from <= n && n in cut
    requires forall p :: p in cut <==> p in marks && marks[p] == 1
    ensures from <= idx <= n && idx in cut && forall p :: from <= p < idx ==> p !in cut
    ensures forall p :: p in cut <==> p in mp && mp[p] == 1
  {
    idx, mp := from, marks;
    while idx < n
      invariant from <= idx <= n && forall p :: from <= p < idx ==> p !in cut
      invariant forall p :: p in cut <==> p in mp && mp[p] == 1
    {
      if idx !in mp {
        mp := mp[idx := 0];
      }
      if mp[idx] == 1 {
        break;
      }
      idx := idx + 1;
    }
  }

  /** GetMmSplitFuse. */
  method SplitFuse(ids: seq<int>, grid: seq<int>, counts: seq<int>, imageId: int, imgTotal: nat, splitFuseTextSize: nat,
                   ghost blocks: seq<Block>)
    returns (imageChunkSelections: seq<int>, splitFuseCurSeqLens: seq<int>, cuts: seq<int>)
    requires Layout(ids, imageId, blocks) && GridGives(grid, blocks) && imgTotal == |blocks|
    requires |counts| == |ids| + 1 && forall p :: 0 <= p <= |ids| ==> counts[p] == ImageTokens(ids, imageId, p)
    requires splitFuseTextSize >= 1
    ensures Chunked(ids, imageId, blocks, splitFuseTextSize, cuts, splitFuseCurSeqLens, imageChunkSelections)
    ensures cuts[|cuts| - 1] == |ids|
  {
    hide Layout, Inside, Images, Boundary, Chunked, Cuttable, Uncuttable;
    var mp := MarkCuts(ids, grid, imageId, blocks);
    ghost var cut := iset p | Boundary(ids, imageId, blocks, p);
    imageChunkSelections, splitFuseCurSeqLens := [], [];
    var curIdx := [0];
    var idx, lastIb := 0, 0;
    ChunkedFirst(ids, imageId, blocks, splitFuseTextSize);
    while idx < |ids|
      invariant 0 <= idx <= |ids| && |curIdx| > 0 && curIdx[|curIdx| - 1] == idx && !Inside(blocks, idx)
      invariant idx < |ids| ==> lastIb == Images(blocks, idx)
      invariant forall p :: p in cut <==> p in mp && mp[p] == 1
      invariant Chunked(ids, imageId, blocks, splitFuseTextSize, curIdx, splitFuseCurSeqLens, imageChunkSelections)
      decreases |ids| - idx
    {
      var lastIdx := idx;
      idx := idx + splitFuseTextSize;
      if idx >= |ids| {
        idx := |ids|;
        EndIsBoundary(ids, imageId, blocks);
      } else if ids[idx - 1] == imageId {
        EndIsBoundary(ids, imageId, blocks);
        ghost var from := idx;
        idx, mp := NextMark(|ids|, mp, idx, cut);
        InsideImage(ids, imageId, blocks, from, idx);
      }
      assert Uncuttable(ids, imageId, blocks, lastIdx + splitFuseTextSize, idx) by {
        if idx <= lastIdx + splitFuseTextSize {
          NothingBetween(ids, imageId, blocks, lastIdx + splitFuseTextSize, idx);
        }
      }
      CutIsSound(ids, imageId, blocks, lastIdx, idx, idx in cut);
      ChunkTokens(ids, imageId, blocks, lastIdx, idx);
      var tokens := counts[idx] - counts[lastIdx];
      var number, ib := CountImages(grid, imgTotal, lastIb, tokens, blocks, Images(blocks, idx));
      ChunkedNext(ids, imageId, blocks, splitFuseTextSize, curIdx, splitFuseCurSeqLens, imageChunkSelections, idx,
                  number);
      imageChunkSelections := imageChunkSelections + [number];
      splitFuseCurSeqLens := splitFuseCurSeqLens + [idx - lastIdx];
      if idx < |ids| {
        lastIb := ib;
      }
      curIdx := curIdx + [idx];
    }
    cuts := curIdx;
  }

  lemma ChunkedFirst(ids: seq<int>, imageId: int, blocks: seq<Block>, textSize: nat)
    requires Layout(ids, imageId, blocks)
    ensures Chunked(ids, imageId, blocks, textSize, [0], [], []) && !Inside(blocks, 0) && Images(blocks, 0) == 0
  {
    ListedFirst(ids, imageId, blocks);
  }

  /** Every position the loop chooses is a boundary or follows a text token. */
  lemma CutIsSound(ids: seq<int>, imageId: int, blocks: seq<Block>, last: nat, idx: nat, marked: bool)
    requires Layout(ids, imageId, blocks) && last < idx <= |ids|
    requires marked == Boundary(ids, imageId, blocks, idx)
    requires marked || ids[idx - 1] != imageId
    ensures Cuttable(ids, imageId, blocks, idx) && !Inside(blocks, idx)
  {
    if marked {
      BoundaryIsOutside(ids, imageId, blocks, idx);
    } else {
      AfterTextIsOutside(ids, imageId, blocks, idx);
    }
  }

  lemma NothingBetween(ids: seq<int>, imageId: int, blocks: seq<Block>, p: int, q: int)
    requires q <= p
    ensures Uncuttable(ids, imageId, blocks, p, q)
  {}

  /** An image goes on to the next boundary. */
  lemma ImageGoesOn(ids: seq<int>, imageId: int, blocks: seq<Block>, p: nat)
    requires Layout(ids, imageId, blocks) && 0 < p < |ids| && ids[p - 1] == imageId
    requires !Boundary(ids, imageId, blocks, p)
    ensures ids[p] == imageId
  {
    assert Covered(blocks, p - 1);
    var i :| 0 <= i < |blocks| && blocks[i].start <= p - 1 < blocks[i].start + blocks[i].len;
    assert p != blocks[i].start + blocks[i].len;
    assert Covered(blocks, p);
  }

  /** After an image token nothing may be cut before the next boundary. */
  lemma {:induction false} InsideImage(ids: seq<int>, imageId: int, blocks: seq<Block>, from: nat, upto: nat)
    requires Layout(ids, imageId, blocks) && 0 < from <= upto <= |ids| && ids[from - 1] == imageId
    requires forall p :: from <= p < upto ==> !Boundary(ids, imageId, blocks, p)
    ensures Uncuttable(ids, imageId, blocks, from, upto)
    decreases upto - from
  {
    if from < upto {
      ImageGoesOn(ids, imageId, blocks, from);
      InsideImage(ids, imageId, blocks, from + 1, upto);
    }
  }

  /** The image tokens of a chunk are those of its whole images. */
  lemma ChunkTokens(ids: seq<int>, imageId: int, blocks: seq<Block>, last: nat, idx: nat)
    requires Layout(ids, imageId, blocks) && last <= idx <= |ids| && !Inside(blocks, last) && !Inside(blocks, idx)
    ensures Images(blocks, last) <= Images(blocks, idx) <= |blocks|
    ensures ImageTokens(ids, imageId, idx) - ImageTokens(ids, imageId, last) ==
      SumLens(blocks, Images(blocks, idx)) - SumLens(blocks, Images(blocks, last))
    ensures forall i :: 0 <= i < |blocks| ==> blocks[i].len >= 1
  {
    TokensAreWholeImages(ids, imageId, blocks, idx);
    TokensAreWholeImages(ids, imageId, blocks, last);
    ImagesGrow(blocks, last, idx, |blocks|);
  }

  lemma ChunkedNext(ids: seq<int>, imageId: int, blocks: seq<Block>, textSize: nat,
                    cuts: seq<int>, chunkLens: seq<int>, chunkImages: seq<int>, idx: nat, number: int)
    requires Chunked(ids, imageId, blocks, textSize, cuts, chunkLens, chunkImages)
    requires IsChunk(ids, imageId, blocks, textSize, cuts[|cuts| - 1], idx, idx - cuts[|cuts| - 1], number)
    ensures Chunked(ids, imageId, blocks, textSize, cuts + [idx], chunkLens + [idx - cuts[|cuts| - 1]],
                    chunkImages + [number])
  {
    hide IsChunk, Inside;
  }

  /** The chunks are determined: two ways to cut the whole prompt are the same. */
  lemma {:induction false} ChunksDetermined(ids: seq<int>, imageId: int, blocks: seq<Block>, textSize: nat,
                                            cuts: seq<int>, lens: seq<int>, images: seq<int>,
                                            cuts2: seq<int>, lens2: seq<int>, images2: seq<int>, c: nat)
    requires Chunked(ids, imageId, blocks, textSize, cuts, lens, images) && cuts[|cuts| - 1] == |ids|
    requires Chunked(ids, imageId, blocks, textSize, cuts2, lens2, images2) && cuts2[|cuts2| - 1] == |ids|
    requires c < |cuts|
    ensures c < |cuts2| && cuts[c] == cuts2[c]
  {
    if c > 0 {
      ChunksDetermined(ids, imageId, blocks, textSize, cuts, lens, images, cuts2, lens2, images2, c - 1);
      var x, last := cuts[c], cuts[c - 1];
      assert IsChunk(ids, imageId, blocks, textSize, last, x, lens[c - 1], images[c - 1]) && c < |cuts2|;
      assert IsChunk(ids, imageId, blocks, textSize, last, cuts2[c], lens2[c - 1], images2[c - 1]);
    }
  }

  // ---------- what the chunks add up to ----------

  ghost function Sum(s: seq<int>, n: nat): int
    requires n <= |s|
  {
    if n == 0 then 0 else Sum(s, n - 1) + s[n - 1]
  }

  /** The first n chunks cover the prompt up to the n-th cut and hold exactly the
      images before it. */
  lemma {:induction false} ChunksAddUp(ids: seq<int>, imageId: int, blocks: seq<Block>, textSize: nat,
                                       cuts: seq<int>, chunkLens: seq<int>, chunkImages: seq<int>, n: nat)
    requires Layout(ids, imageId, blocks) && Chunked(ids, imageId, blocks, textSize, cuts, chunkLens, chunkImages)
    requires n <= |chunkLens|
    ensures Sum(chunkLens, n) == cuts[n] && Sum(chunkImages, n) == Images(blocks, cuts[n])
  {
    if n == 0 {
      CountsPrefix(blocks, 0, 0, |blocks|);
    } else {
      ChunksAddUp(ids, imageId, blocks, textSize, cuts, chunkLens, chunkImages, n - 1);
    }
  }

  /** Chunking conserves the prompt and the images. */
  lemma ChunksConserve(ids: seq<int>, imageId: int, blocks: seq<Block>, textSize: nat,
                       cuts: seq<int>, chunkLens: seq<int>, chunkImages: seq<int>)
    requires Layout(ids, imageId, blocks) && Chunked(ids, imageId, blocks, textSize, cuts, chunkLens, chunkImages)
    requires cuts[|cuts| - 1] == |ids|
    ensures Sum(chunkLens, |chunkLens|) == |ids| && Sum(chunkImages, |chunkImages|) == |blocks|
  {
    ChunksAddUp(ids, imageId, blocks, textSize, cuts, chunkLens, chunkImages, |chunkLens|);
    AllImages(ids, imageId, blocks);
  }

  /** The running image count of the chunks is the count the other scan lists at
      the last boundary not beyond the cut. */
  lemma CountsAgree(ids: seq<int>, imageId: int, blocks: seq<Block>, textSize: nat,
                    cuts: seq<int>, chunkLens: seq<int>, chunkImages: seq<int>, n: nat,
                    boundaries: seq<int>, nums: seq<int>, j: nat)
    requires Layout(ids, imageId, blocks) && Chunked(ids, imageId, blocks, textSize, cuts, chunkLens, chunkImages)
    requires Listed(ids, imageId, blocks, |ids|, boundaries, nums)
    requires n <= |chunkLens| && 0 <= cuts[n] <= |ids|
    requires j < |boundaries| && boundaries[j] <= cuts[n]
    requires j + 1 < |boundaries| ==> cuts[n] < boundaries[j + 1]
    ensures Sum(chunkImages, n) == nums[j]
  {
    ChunksAddUp(ids, imageId, blocks, textSize, cuts, chunkLens, chunkImages, n);
    var b, p := boundaries[j], cuts[n];
    NoBoundaryBetween(ids, imageId, blocks, boundaries, nums, j, p);
    PrefixOfImages(ids, imageId, blocks, b, |blocks|);
    forall i | 0 <= i < |blocks| ensures blocks[i].start + blocks[i].len <= p <==> i < Images(blocks, b) {
      assert Boundary(ids, imageId, blocks, blocks[i].start + blocks[i].len);
    }
    CountsPrefix(blocks, p, Images(blocks, b), |blocks|);
  }

  lemma NoBoundaryBetween(ids: seq<int>, imageId: int, blocks: seq<Block>,
                          boundaries: seq<int>, nums: seq<int>, j: nat, p: int)
    requires Listed(ids, imageId, blocks, |ids|, boundaries, nums)
    requires j < |boundaries| && boundaries[j] <= p <= |ids|
    requires j + 1 < |boundaries| ==> p < boundaries[j + 1]
    ensures forall q :: boundaries[j] < q <= p ==> !Boundary(ids, imageId, blocks, q)
  {
    forall q | boundaries[j] < q <= p ensures !Boundary(ids, imageId, blocks, q) {
      assert j > 0 ==> boundaries[0] < boundaries[j];
      forall i | 0 <= i < |boundaries| ensures boundaries[i] != q {
        assert i < j ==> boundaries[i] < boundaries[j];
        assert j + 1 < i ==> boundaries[j + 1] < boundaries[i];
      }
    }
  }
}
