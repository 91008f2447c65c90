/** token_penalty_multi_scores.cc: how often each token occurs in the history of a
    row, and the banned tokens. */
module TokenPenalty {
  import opened Arith
  import opened FlatRows
  import opened DecodeRow

  /** The history proper: what precedes the first negative entry. */
  function Written(row: seq<int>): (w: seq<int>)
    ensures |w| <= |row| && w == row[..|w|] && forall i :: 0 <= i < |w| ==> w[i] >= 0
    ensures |w| < |row| ==> row[|w|] < 0
  {
    if row == [] || row[0] < 0 then [] else [row[0]] + Written(row[1..])
  }

  /** Only ids of the vocabulary. */
  ghost predicate Known(history: seq<int>, length: nat) {
    forall i :: 0 <= i < |history| ==> history[i] < length
  }

  /** A row of counts that has gone up by the occurrences in the history. */
  ghost predicate Counted(after: seq<int>, before: seq<int>, history: seq<int>) {
    |after| == |before| && forall id :: 0 <= id < |after| ==> after[id] == before[id] + multiset(history)[id]
  }

  lemma CountOne(now: seq<int>, before: seq<int>, preIds: seq<int>, i: nat)
    requires i < |Written(preIds)| && 0 <= preIds[i] < |now| && Counted(now, before, preIds[..i])
    ensures Counted(now[preIds[i] := now[preIds[i]] + 1], before, preIds[..i + 1])
  {
    assert preIds[..i + 1] == preIds[..i] + [preIds[i]];
  }

  lemma WrittenUpTo(row: seq<int>, i: nat)
    requires i <= |Written(row)| && i < |row|
    ensures row[i] < 0 <==> i == |Written(row)|
  {}

  /** The loop for one row. */
  method CountRow(preIdsNow: seq<int>, repeatTimes: array<int>, bi: nat, bs: nat, length: nat)
    requires bi < bs && repeatTimes.Length == bs * length && Known(Written(preIdsNow), length)
    modifies repeatTimes
    ensures Counted(RowOf(repeatTimes[..], length, bs, bi), old(RowOf(repeatTimes[..], length, bs, bi)),
                    Written(preIdsNow))
    ensures forall b :: 0 <= b < bs && b != bi ==>
      RowOf(repeatTimes[..], length, bs, b) == old(RowOf(repeatTimes[..], length, bs, b))
  {
    hide RowOf, Counted, Written;
    ghost var before := RowOf(repeatTimes[..], length, bs, bi);
    CountNone(before);
    assert preIdsNow[..0] == [];
    for i := 0 to |preIdsNow|
      invariant i <= |Written(preIdsNow)|
      invariant Counted(RowOf(repeatTimes[..], length, bs, bi), before, preIdsNow[..i])
      invariant forall b :: 0 <= b < bs && b != bi ==>
        RowOf(repeatTimes[..], length, bs, b) == old(RowOf(repeatTimes[..], length, bs, b))
    {
      var id := preIdsNow[i];
      WrittenUpTo(preIdsNow, i);
      if id < 0 {
        assert preIdsNow[..i] == Written(preIdsNow);
        return;
      }
      assert Written(preIdsNow)[i] == id;
      ghost var was := repeatTimes[..];
      InRow(was, length, bs, bi, id);
      WriteInRow(was, length, bs, bi, id, was[bi * length + id] + 1);
      CountOne(RowOf(was, length, bs, bi), before, preIdsNow, i);
      repeatTimes[bi * length + id] := repeatTimes[bi * length + id] + 1;
      assert repeatTimes[..] == was[bi * length + id := was[bi * length + id] + 1];
    }
    assert preIdsNow[..|preIdsNow|] == Written(preIdsNow);
  }

  lemma CountNone(before: seq<int>)
    ensures Counted(before, before, [])
  {}

  /** update_repeat_times. */
  method UpdateRepeatTimes(preIds: seq<int>, curLen: seq<int>, repeatTimes: array<int>, bs: nat, length: nat,
                           lengthId: nat)
    requires |preIds| == bs * lengthId && |curLen| == bs && repeatTimes.Length == bs * length
    requires forall b :: 0 <= b < bs && curLen[b] >= 0 ==> Known(Written(RowOf(preIds, lengthId, bs, b)), length)
    modifies repeatTimes
    ensures forall b :: 0 <= b < bs ==>
      Counted(RowOf(repeatTimes[..], length, bs, b), old(RowOf(repeatTimes[..], length, bs, b)),
              if curLen[b] < 0 then [] else Written(RowOf(preIds, lengthId, bs, b)))
  {
    hide RowOf, Counted, Written;
    for bi := 0 to bs
      invariant forall b :: 0 <= b < bi ==>
        Counted(RowOf(repeatTimes[..], length, bs, b), old(RowOf(repeatTimes[..], length, bs, b)),
                if curLen[b] < 0 then [] else Written(RowOf(preIds, lengthId, bs, b)))
      invariant forall b :: bi <= b < bs ==>
        RowOf(repeatTimes[..], length, bs, b) == old(RowOf(repeatTimes[..], length, bs, b))
    {
      if curLen[bi] < 0 {
        CountNone(RowOf(repeatTimes[..], length, bs, bi));
        continue;
      }
      RowInside(bi, bs, lengthId);
      var preIdsNow := preIds[bi * lengthId..bi * lengthId + lengthId];
      assert preIdsNow == RowOf(preIds, lengthId, bs, bi) by { RowIs(preIds, lengthId, bs, bi); }
      CountRow(preIdsNow, repeatTimes, bi, bs, length);
    }
  }

  lemma RowIs(m: seq<int>, width: nat, n: nat, b: nat)
    requires |m| == n * width && b < n
    ensures b * width + width <= |m| && RowOf(m, width, n, b) == m[b * width..b * width + width]
  {
    RowInside(b, n, width);
  }

  /** ban_bad_words. */
  method BanBadWords(logits: array<real>, badWordsList: seq<int>, bs: nat, length: nat)
    requires logits.Length == bs * length
    modifies logits
    ensures forall b, id :: 0 <= b < bs && 0 <= id < length ==>
      RowOf(logits[..], length, bs, b)[id] ==
      if id in badWordsList then -10000000000.0 else old(RowOf(logits[..], length, bs, b))[id]
  {
    hide RowOf;
    for bi := 0 to bs
      invariant forall b, id :: 0 <= b < bi && 0 <= id < length ==>
        RowOf(logits[..], length, bs, b)[id] ==
        if id in badWordsList then -10000000000.0 else old(RowOf(logits[..], length, bs, b))[id]
      invariant forall b :: bi <= b < bs ==> RowOf(logits[..], length, bs, b) == old(RowOf(logits[..], length, bs, b))
    {
      BanInRow(logits, badWordsList, bi, bs, length);
    }
  }

  method BanInRow(logits: array<real>, badWordsList: seq<int>, bi: nat, bs: nat, length: nat)
    requires logits.Length == bs * length && bi < bs
    modifies logits
    ensures forall id :: 0 <= id < length ==>
      RowOf(logits[..], length, bs, bi)[id] ==
      if id in badWordsList then -10000000000.0 else old(RowOf(logits[..], length, bs, bi))[id]
    ensures forall b :: 0 <= b < bs && b != bi ==>
      RowOf(logits[..], length, bs, b) == old(RowOf(logits[..], length, bs, b))
  {
    hide RowOf;
    for bwid := 0 to |badWordsList|
      invariant forall id :: 0 <= id < length ==>
        RowOf(logits[..], length, bs, bi)[id] ==
        if id in badWordsList[..bwid] then -10000000000.0 else old(RowOf(logits[..], length, bs, bi))[id]
      invariant forall b :: 0 <= b < bs && b != bi ==>
        RowOf(logits[..], length, bs, b) == old(RowOf(logits[..], length, bs, b))
    {
      var badWordsTokenId := badWordsList[bwid];
      if badWordsTokenId >= length || badWordsTokenId < 0 {
        continue;
      }
      ghost var was := logits[..];
      WriteInRow(was, length, bs, bi, badWordsTokenId, -10000000000.0);
      logits[bi * length + badWordsTokenId] := -10000000000.0;
      assert logits[..] == was[bi * length + badWordsTokenId := -10000000000.0];
    }
    assert badWordsList[..|badWordsList|] == badWordsList;
  }

  // ---------- counting the history of a request ----------

  lemma {:induction false} WrittenIs(tokens: seq<int>, rest: nat)
    requires forall i :: 0 <= i < |tokens| ==> tokens[i] >= 0
    ensures Written(tokens + seq(rest, _ => -1)) == tokens
  {
    if tokens != [] {
      WrittenIs(tokens[1..], rest);
      assert (tokens + seq(rest, _ => -1))[1..] == tokens[1..] + seq(rest, _ => -1);
    }
  }

  lemma HistoryWritten(prompt: seq<int>, xs: seq<int>, length: nat)
    requires |prompt| > 0 && prompt[|prompt| - 1] >= 0 && |xs| + 1 <= length
    requires forall i :: 0 <= i < |xs| ==> xs[i] >= 0
    ensures Written(History(prompt, xs, length)) == [prompt[|prompt| - 1]] + xs
  {
    hide Written;
    var tokens := [prompt[|prompt| - 1]] + xs;
    WrittenIs(tokens, length - |tokens|);
  }

  /** In the round after the tokens xs, the counts of a request are the occurrences
      in the last token of its prompt followed by xs. */
  lemma CountsHistory(r: Row, prompt: seq<int>, xs: seq<int>, endIds: seq<int>, maxDecLen: int,
                      after: seq<int>, before: seq<int>)
    requires |endIds| > 0 && Fresh(r, prompt, maxDecLen) && Going(xs, |xs|, endIds, maxDecLen)
    requires prompt[|prompt| - 1] >= 0 && forall i :: 0 <= i < |xs| ==> xs[i] >= 0
    requires before == seq(|after|, _ => 0)
    requires Counted(after, before, Written(Record(Rounds(r, xs, endIds, maxDecLen), maxDecLen).preIds))
    ensures forall id :: 0 <= id < |after| ==> after[id] == multiset([prompt[|prompt| - 1]] + xs)[id]
  {
    hide Record, Rounds, Going, Written, Fresh, History, Safe, Counted;
    PromptThere(r, prompt, maxDecLen);
    HistorySeen(r, prompt, xs, endIds, maxDecLen);
    var t := Record(Rounds(r, xs, endIds, maxDecLen), maxDecLen);
    HistoryWritten(prompt, xs, |t.preIds|);
    CountFromZero(after, before, [prompt[|prompt| - 1]] + xs);
  }

  lemma PromptThere(r: Row, prompt: seq<int>, maxDecLen: int)
    requires Fresh(r, prompt, maxDecLen)
    ensures |prompt| > 0 && Safe(r, maxDecLen)
  {}

  lemma CountFromZero(after: seq<int>, before: seq<int>, history: seq<int>)
    requires Counted(after, before, history) && before == seq(|after|, _ => 0)
    ensures forall id :: 0 <= id < |after| ==> after[id] == multiset(history)[id]
  {}
}
