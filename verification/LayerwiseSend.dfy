/** Layerwise prefill-to-decode sending on one rank: the producer's two shared
    words (remote_cache_kv_ipc.cc) and the polling sender that reads them one
    after the other (cache_messager.py), as a transition system. */
module LayerwiseSend {

  import opened Options

  /** The dictionary kept for one request; a missing key is None or false. */
  datatype Item = Item(
    src: Option<seq<int>>, dest: Option<seq<int>>, currentId: int, hasStatus: bool, layerIdx: Option<int>)

  /** One entry delivered by get_cache_info. */
  datatype Info = Info(id: int, src: Option<seq<int>>, dest: Option<seq<int>>, currentId: int)

  datatype Event =
    | Completed(step: int, layer: int)  // the producer stored layer while in step
    | Wrote(id: int, written: int)      // write_cache for one layer of a request
    | Finished(done: int)               // (request_id, "finished") was put

  /** Where the producer is: between steps, between its two stores, or in a step
      with layers below next complete. */
  datatype Producer = Resting | Resetting | Running(next: nat)

  /** Where the sender is in its loop; pl and ps are its two local copies. */
  datatype Sender =
    | Polling
    | LayerRead(second: bool, pl: int)
    | Rereading
    | Serving(pl: int, ps: int, work: seq<int>)
    | Writing(pl: int, ps: int, work: seq<int>, id: int, next: int, upto: int)

  datatype State = State(
    layer: int, step: int, producer: Producer, started: nat,
    sender: Sender, cacheInfo: map<int, Item>,
    reset: bool, bumped: bool, stores: nat,  // producer stores since the last read of layer
    torn: bool,                              // a pair of copies was used that does not go together
    log: seq<Event>)

  const WRAP: int := 100003

  // ---------- the sender's handling of one request ----------

  /** current_info["src_block_ids"][-len(dest):], where -0 keeps everything. */
  function LastBlocks(src: seq<int>, n: nat): seq<int> {
    if n == 0 || n >= |src| then src else src[|src| - n..]
  }

  /** The body of the loop over the delivered infos. */
  function ApplyInfo(cacheInfo: map<int, Item>, info: Info): map<int, Item> {
    if info.id in cacheInfo then
      var known := cacheInfo[info.id];
      var src := if info.src.Some? then info.src else known.src;
      var dest := if info.dest.Some? then info.dest else known.dest;
      var item := known.(src := src, dest := dest, currentId := info.currentId);
      if src.Some? && dest.Some?
      then cacheInfo[info.id := item.(src := Some(LastBlocks(src.value, |dest.value|)), hasStatus := true)]
      else cacheInfo[info.id := item]
    else cacheInfo[info.id := Item(info.src, info.dest, info.currentId, false, None)]
  }

  function LayerIdx(item: Item): int {
    if item.layerIdx.Some? then item.layerIdx.value else 0
  }

  /** current_layer_idx: how far the two copies say the request may be sent. */
  function Target(item: Item, pl: int, ps: int, numLayers: nat): int {
    if item.currentId < ps then numLayers else pl + 1
  }

  // ---------- the transitions ----------

  /** How many layers of the latest step are complete. */
  function Done(s: State, numLayers: nat): nat {
    if s.producer.Running? then s.producer.next else numLayers
  }

  /** The copy of layer, read first, is ahead of the step that is read now. */
  predicate Torn(s: State, numLayers: nat)
    requires s.sender.LayerRead?
  {
    s.sender.pl + 1 > Done(s, numLayers)
  }

  ghost predicate Init(s: State) {
    s == State(-1, -1, Resting, 0, Polling, map[], false, false, 0, false, [])
  }

  /** *layer_complete_ptr = -1, the first store of a new step. */
  ghost predicate ResetLayer(s: State, t: State) {
    s.producer == Resting &&
    t == s.(layer := -1, producer := Resetting, reset := true, stores := s.stores + 1)
  }

  /** *write_ptr = (current_identity + 1) % 100003, the second one. */
  ghost predicate BumpStep(s: State, t: State) {
    s.producer == Resetting &&
    t == s.(step := (s.step + 1) % WRAP, producer := Running(0), started := s.started + 1,
            bumped := true, stores := s.stores + 1)
  }

  /** The completion callback of the next layer. */
  ghost predicate CompleteLayer(s: State, t: State, numLayers: nat) {
    s.producer.Running? && s.producer.next < numLayers &&
    var next := s.producer.next;
    t == s.(layer := next, producer := if next + 1 == numLayers then Resting else Running(next + 1),
            stores := s.stores + 1, log := s.log + [Completed(s.step, next)])
  }

  ghost predicate Receive(s: State, t: State, info: Info, stepOf: int -> int) {
    s.sender == Polling && info.currentId == stepOf(info.id) &&
    t == s.(cacheInfo := ApplyInfo(s.cacheInfo, info))
  }

  /** prefilled_layer_idx = layer_shm_value.value[0]. */
  ghost predicate ReadLayer(s: State, t: State) {
    (s.sender == Polling || s.sender == Rereading) &&
    t == s.(sender := LayerRead(s.sender == Rereading, s.layer), reset := false, bumped := false, stores := 0)
  }

  /** prefilled_step_idx = step_shm_value.value[0], and what the loop does next:
      read both again once if the layer was the last one, poll again if there is
      no step or no request, or go through the requests. */
  ghost predicate ReadStep(s: State, t: State, numLayers: nat) {
    s.sender.LayerRead? &&
    var pl, ps := s.sender.pl, s.step;
    if pl == numLayers - 1 && !s.sender.second then t == s.(sender := Rereading)
    else if ps == -1 || s.cacheInfo == map[] then t == s.(sender := Polling)
    else exists work: seq<int> ::
      (forall id :: id in work <==> id in s.cacheInfo) &&
      t == s.(sender := Serving(pl, ps, work), torn := s.torn || Torn(s, numLayers))
  }

  /** One request of the loop over list(self.cache_info.items()). */
  ghost predicate Serve(s: State, t: State, numLayers: nat) {
    s.sender.Serving? &&
    var pl, ps, work := s.sender.pl, s.sender.ps, s.sender.work;
    if work == [] then t == s.(sender := Polling)
    else if work[0] !in s.cacheInfo then t == s.(sender := Serving(pl, ps, work[1..]))
    else
      var id, item := work[0], s.cacheInfo[work[0]];
      if !item.hasStatus then t == s.(sender := Serving(pl, ps, work[1..]))
      else
        var started := item.(layerIdx := Some(LayerIdx(item)));
        var u := s.(cacheInfo := s.cacheInfo[id := started]);
        if item.currentId > ps then t == u.(sender := Serving(pl, ps, work[1..]))
        else t == u.(sender := Writing(pl, ps, work[1..], id, LayerIdx(item), Target(item, pl, ps, numLayers)))
  }

  /** One write_cache, or the end of the loop over the layers. */
  ghost predicate Write(s: State, t: State, numLayers: nat) {
    s.sender.Writing? &&
    var Writing(pl, ps, work, id, next, upto) := s.sender;
    if next < upto then
      t == s.(sender := Writing(pl, ps, work, id, next + 1, upto), log := s.log + [Wrote(id, next)])
    else if upto == numLayers then
      t == s.(sender := Serving(pl, ps, work), cacheInfo := s.cacheInfo - {id}, log := s.log + [Finished(id)])
    else
      id in s.cacheInfo &&
      t == s.(sender := Serving(pl, ps, work), cacheInfo := s.cacheInfo[id := s.cacheInfo[id].(layerIdx := Some(upto))])
  }

  ghost predicate Next(s: State, t: State, numLayers: nat, stepOf: int -> int) {
    ResetLayer(s, t) || BumpStep(s, t) || CompleteLayer(s, t, numLayers) ||
    (exists info :: Receive(s, t, info, stepOf)) ||
    ReadLayer(s, t) || ReadStep(s, t, numLayers) || Serve(s, t, numLayers) || Write(s, t, numLayers)
  }

  ghost predicate Run(run: seq<State>, numLayers: nat, stepOf: int -> int) {
    |run| > 0 && Init(run[0]) && forall i :: 0 <= i < |run| - 1 ==> Next(run[i], run[i + 1], numLayers, stepOf)
  }

  // ---------- what is to hold ----------

  /** Layer l of the request was written after the producer completed it in the
      request's own step. */
  ghost predicate SentAfterCompletion(log: seq<Event>, id: int, step: int, l: int) {
    exists i, j :: 0 <= i < j < |log| && log[i] == Completed(step, l) && log[j] == Wrote(id, l)
  }

  /** Whenever a request is reported finished, all its layers were sent so. */
  ghost predicate Safe(log: seq<Event>, numLayers: nat, stepOf: int -> int) {
    forall p, l :: 0 <= p < |log| && log[p].Finished? && 0 <= l < numLayers ==>
      SentAfterCompletion(log[..p], log[p].done, stepOf(log[p].done), l)
  }

  // ---------- the invariant ----------

  ghost predicate AllCompleted(log: seq<Event>, step: int, layers: int) {
    forall l :: 0 <= l < layers ==> Completed(step, l) in log
  }

  /** The shared words and the log follow the producer. */
  ghost predicate ProducerInv(s: State, numLayers: nat) {
    s.step == s.started - 1 && NothingAhead(s, numLayers) &&
    (forall st :: 0 <= st < s.started - 1 ==> AllCompleted(s.log, st, numLayers)) &&
    (s.started >= 1 ==> AllCompleted(s.log, s.started - 1, Done(s, numLayers)))
  }

  /** No layer has been completed but those of earlier steps and the first ones of the latest. */
  ghost predicate NothingAhead(s: State, numLayers: nat) {
    forall st, l :: Completed(st, l) in s.log ==> st < s.started - 1 || (st == s.started - 1 && l < Done(s, numLayers))
  }

  /** The layer word follows the producer.  A copy of it that has been read alone goes with
      the latest step unless both stores of a new step have fallen since; and it is -1 if
      the first of these came before it was read. */
  ghost predicate ReaderInv(s: State, numLayers: nat) {
    (s.producer.Running? ==> s.started >= 1 && s.producer.next <= numLayers) &&
    s.layer == (match s.producer
                case Resting => if s.started == 0 then -1 else numLayers - 1
                case Resetting => -1
                case Running(next) => next - 1) &&
    (s.sender.LayerRead? ==>
      s.sender.pl == -1 || 0 <= s.sender.pl < numLayers) &&
    (s.sender.LayerRead? && !(s.reset && s.bumped) ==> !Torn(s, numLayers)) &&
    (s.sender.LayerRead? && !s.reset && (s.bumped || s.producer == Resetting) ==> s.sender.pl == -1)
  }

  /** Two copies that can be relied on: the layers up to pl of step ps are
      complete, and so is every earlier step. */
  ghost predicate Truthful(log: seq<Event>, pl: int, ps: int, numLayers: nat) {
    -1 <= pl < numLayers && AllCompleted(log, ps, pl + 1) &&
    forall st :: 0 <= st < ps ==> AllCompleted(log, st, numLayers)
  }

  ghost predicate Sent(log: seq<Event>, id: int, step: int, layers: int) {
    forall l :: 0 <= l < layers ==> SentAfterCompletion(log, id, step, l)
  }

  ghost predicate SenderInv(s: State, numLayers: nat, stepOf: int -> int) {
    match s.sender
    case Serving(pl, ps, work) => Truthful(s.log, pl, ps, numLayers)
    case Writing(pl, ps, work, id, next, upto) =>
      Truthful(s.log, pl, ps, numLayers) && id in s.cacheInfo && 0 <= next && 0 <= upto <= numLayers &&
      Sent(s.log, id, stepOf(id), next) && AllCompleted(s.log, stepOf(id), upto)
    case _ => true
  }

  ghost predicate ItemInv(log: seq<Event>, id: int, item: Item, numLayers: nat, stepOf: int -> int) {
    item.currentId == stepOf(id) &&
    (item.layerIdx.Some? ==> 0 <= item.layerIdx.value < numLayers && Sent(log, id, stepOf(id), item.layerIdx.value))
  }

  ghost predicate ItemsInv(s: State, numLayers: nat, stepOf: int -> int) {
    forall id :: id in s.cacheInfo ==> ItemInv(s.log, id, s.cacheInfo[id], numLayers, stepOf)
  }

  ghost predicate Inv(s: State, numLayers: nat, stepOf: int -> int) {
    ProducerInv(s, numLayers) && ReaderInv(s, numLayers) && SenderInv(s, numLayers, stepOf) &&
    ItemsInv(s, numLayers, stepOf) && Safe(s.log, numLayers, stepOf)
  }

  // ---------- a longer log keeps what a shorter one shows ----------

  lemma LogGrows(log: seq<Event>, e: Event, id: int, step: int, layers: int)
    ensures AllCompleted(log, step, layers) ==> AllCompleted(log + [e], step, layers)
    ensures Sent(log, id, step, layers) ==> Sent(log + [e], id, step, layers)
  {
    var more := log + [e];
    if Sent(log, id, step, layers) {
      forall l | 0 <= l < layers ensures SentAfterCompletion(more, id, step, l) {
        assert SentAfterCompletion(log, id, step, l);
        var i, j :| 0 <= i < j < |log| && log[i] == Completed(step, l) && log[j] == Wrote(id, l);
        assert more[i] == log[i] && more[j] == log[j];
      }
    }
  }

  lemma TruthGrows(log: seq<Event>, e: Event, pl: int, ps: int, numLayers: nat)
    requires Truthful(log, pl, ps, numLayers)
    ensures Truthful(log + [e], pl, ps, numLayers)
  {
    LogGrows(log, e, 0, ps, pl + 1);
    forall st | 0 <= st < ps ensures AllCompleted(log + [e], st, numLayers) {
      LogGrows(log, e, 0, st, numLayers);
    }
  }

  /** An event that is not the producer's leaves its part of the invariant alone. */
  lemma ProducerGrows(s: State, t: State, e: Event, numLayers: nat)
    requires ProducerInv(s, numLayers) && t.log == s.log + [e] && !e.Completed?
    requires t.layer == s.layer && t.step == s.step && t.producer == s.producer && t.started == s.started
    ensures ProducerInv(t, numLayers)
  {
    hide AllCompleted;
    forall st | 0 <= st < s.started - 1 ensures AllCompleted(t.log, st, numLayers) {
      LogGrows(s.log, e, 0, st, numLayers);
    }
    LogGrows(s.log, e, 0, s.started - 1, Done(s, numLayers));
  }

  lemma ItemsGrow(s: State, e: Event, numLayers: nat, stepOf: int -> int)
    requires ItemsInv(s, numLayers, stepOf)
    ensures ItemsInv(s.(log := s.log + [e]), numLayers, stepOf)
  {
    forall id | id in s.cacheInfo ensures ItemInv(s.log + [e], id, s.cacheInfo[id], numLayers, stepOf) {
      assert ItemInv(s.log, id, s.cacheInfo[id], numLayers, stepOf);
      if s.cacheInfo[id].layerIdx.Some? {
        LogGrows(s.log, e, id, stepOf(id), s.cacheInfo[id].layerIdx.value);
      }
    }
  }

  lemma SafeGrows(log: seq<Event>, e: Event, numLayers: nat, stepOf: int -> int)
    requires Safe(log, numLayers, stepOf)
    requires e.Finished? ==> Sent(log, e.done, stepOf(e.done), numLayers)
    ensures Safe(log + [e], numLayers, stepOf)
  {
    var more := log + [e];
    forall p, l | 0 <= p < |more| && more[p].Finished? && 0 <= l < numLayers
      ensures SentAfterCompletion(more[..p], more[p].done, stepOf(more[p].done), l)
    {
      assert more[..p] == log[..p];
      if p == |log| {
        assert log[..p] == log;
      }
    }
  }

  // ---------- each transition keeps the invariant ----------

  lemma ResetKeeps(s: State, t: State, numLayers: nat, stepOf: int -> int)
    requires Inv(s, numLayers, stepOf) && ResetLayer(s, t)
    ensures Inv(t, numLayers, stepOf)
  {
    hide AllCompleted, Sent, Safe, Truthful, ItemInv;
  }

  lemma BumpKeeps(s: State, t: State, numLayers: nat, stepOf: int -> int)
    requires Inv(s, numLayers, stepOf) && BumpStep(s, t) && t.started <= WRAP && numLayers >= 1
    ensures Inv(t, numLayers, stepOf)
  {
    hide Sent, Safe, Truthful, ItemInv;
    assert (s.step + 1) % WRAP == s.step + 1;
  }

  lemma CompleteKeeps(s: State, t: State, numLayers: nat, stepOf: int -> int)
    requires Inv(s, numLayers, stepOf) && CompleteLayer(s, t, numLayers)
    ensures Inv(t, numLayers, stepOf)
  {
    hide Sent, Safe, Truthful, ItemInv;
    var e := Completed(s.step, s.producer.next);
    SafeGrows(s.log, e, numLayers, stepOf);
    ItemsGrow(s, e, numLayers, stepOf);
    SenderGrows(s, t, e, numLayers, stepOf);
    ProducerCompletes(s, t, e, numLayers);
  }

  lemma ProducerCompletes(s: State, t: State, e: Event, numLayers: nat)
    requires ProducerInv(s, numLayers) && CompleteLayer(s, t, numLayers) && e == Completed(s.step, s.producer.next)
    ensures ProducerInv(t, numLayers)
  {
    forall st | 0 <= st < s.started - 1 ensures AllCompleted(t.log, st, numLayers) {
      LogGrows(s.log, e, 0, st, numLayers);
    }
    LogGrows(s.log, e, 0, s.started - 1, s.producer.next);
    assert t.log[|s.log|] == e;
  }

  lemma SenderGrows(s: State, t: State, e: Event, numLayers: nat, stepOf: int -> int)
    requires SenderInv(s, numLayers, stepOf) && t.sender == s.sender && t.cacheInfo == s.cacheInfo &&
             t.log == s.log + [e]
    ensures SenderInv(t, numLayers, stepOf)
  {
    hide Truthful, Sent, AllCompleted;
    match s.sender
    case Serving(pl, ps, work) => TruthGrows(s.log, e, pl, ps, numLayers);
    case Writing(pl, ps, work, id, next, upto) =>
      TruthGrows(s.log, e, pl, ps, numLayers);
      LogGrows(s.log, e, id, stepOf(id), next);
      LogGrows(s.log, e, id, stepOf(id), upto);
    case _ =>
  }

  lemma ReceiveKeeps(s: State, t: State, info: Info, numLayers: nat, stepOf: int -> int)
    requires Inv(s, numLayers, stepOf) && Receive(s, t, info, stepOf)
    ensures Inv(t, numLayers, stepOf)
  {
    hide AllCompleted, Sent, Safe, Truthful;
    forall id | id in t.cacheInfo ensures ItemInv(t.log, id, t.cacheInfo[id], numLayers, stepOf) {
      if id in s.cacheInfo {
        assert ItemInv(s.log, id, s.cacheInfo[id], numLayers, stepOf);
      }
    }
  }

  lemma ReadLayerKeeps(s: State, t: State, numLayers: nat, stepOf: int -> int)
    requires Inv(s, numLayers, stepOf) && ReadLayer(s, t) && numLayers >= 1
    ensures Inv(t, numLayers, stepOf)
  {
    hide Sent, Safe, Truthful, ItemInv;
  }

  /** The heart of it: the two copies can be relied on if and only if they go together;
      if they do not, the layer they name has not been completed in the step they name. */
  lemma ReliableExactly(s: State, numLayers: nat, stepOf: int -> int)
    requires Inv(s, numLayers, stepOf) && s.sender.LayerRead? && s.started >= 1
    ensures Truthful(s.log, s.sender.pl, s.step, numLayers) <==> !Torn(s, numLayers)
    ensures Torn(s, numLayers) ==> Completed(s.step, s.sender.pl) !in s.log
  {
    hide Sent, Safe, ItemInv;
    if Torn(s, numLayers) {
      assert Completed(s.step, s.sender.pl) !in s.log;
    }
  }

  lemma ReadStepKeeps(s: State, t: State, numLayers: nat, stepOf: int -> int)
    requires Inv(s, numLayers, stepOf) && ReadStep(s, t, numLayers) && !t.torn
    ensures Inv(t, numLayers, stepOf)
  {
    hide Sent, Safe, ItemInv, Truthful;
    if s.started >= 1 {
      ReliableExactly(s, numLayers, stepOf);
    }
  }

  /** What is about to be sent for a request is complete, what was sent is sent. */
  lemma RequestReady(s: State, id: int, pl: int, ps: int, numLayers: nat, stepOf: int -> int)
    requires Truthful(s.log, pl, ps, numLayers) && id in s.cacheInfo && numLayers >= 1 && 0 <= stepOf(id) <= ps
    requires ItemsInv(s, numLayers, stepOf)
    ensures var item := s.cacheInfo[id];
      0 <= LayerIdx(item) < numLayers && 0 <= Target(item, pl, ps, numLayers) <= numLayers &&
      Sent(s.log, id, stepOf(id), LayerIdx(item)) &&
      AllCompleted(s.log, stepOf(id), Target(item, pl, ps, numLayers))
  {
    hide SentAfterCompletion;
    assert ItemInv(s.log, id, s.cacheInfo[id], numLayers, stepOf);
  }

  lemma RequestOf(s: State, id: int, numLayers: nat, stepOf: int -> int)
    requires ItemsInv(s, numLayers, stepOf) && id in s.cacheInfo
    ensures s.cacheInfo[id].currentId == stepOf(id)
  {
    assert ItemInv(s.log, id, s.cacheInfo[id], numLayers, stepOf);
  }

  lemma ServeItems(s: State, t: State, numLayers: nat, stepOf: int -> int)
    requires ItemsInv(s, numLayers, stepOf) && Serve(s, t, numLayers) && numLayers >= 1
    ensures ItemsInv(t, numLayers, stepOf)
  {
    hide SentAfterCompletion, Target;
    forall other | other in t.cacheInfo ensures ItemInv(t.log, other, t.cacheInfo[other], numLayers, stepOf) {
      assert ItemInv(s.log, other, s.cacheInfo[other], numLayers, stepOf);
    }
  }

  lemma ServeKeeps(s: State, t: State, numLayers: nat, stepOf: int -> int)
    requires Inv(s, numLayers, stepOf) && Serve(s, t, numLayers) && numLayers >= 1 && forall id :: stepOf(id) >= 0
    ensures Inv(t, numLayers, stepOf)
  {
    hide Safe, Truthful, AllCompleted, Sent, LayerIdx, Target, ItemInv;
    ServeItems(s, t, numLayers, stepOf);
    if s.sender.work != [] && s.sender.work[0] in s.cacheInfo {
      var id := s.sender.work[0];
      RequestOf(s, id, numLayers, stepOf);
      if stepOf(id) <= s.sender.ps {
        RequestReady(s, id, s.sender.pl, s.sender.ps, numLayers, stepOf);
      }
    }
  }

  lemma WriteKeeps(s: State, t: State, numLayers: nat, stepOf: int -> int)
    requires Inv(s, numLayers, stepOf) && Write(s, t, numLayers)
    ensures Inv(t, numLayers, stepOf)
  {
    hide Inv, Write;
    assert s.sender.Writing? by { WritingInv(s, t, numLayers, stepOf); }
    if s.sender.next < s.sender.upto {
      WriteLayerKeeps(s, t, numLayers, stepOf);
    } else if s.sender.upto == numLayers {
      FinishKeeps(s, t, numLayers, stepOf);
    } else {
      PutBackKeeps(s, t, numLayers, stepOf);
    }
  }

  lemma WritingInv(s: State, t: State, numLayers: nat, stepOf: int -> int)
    requires Inv(s, numLayers, stepOf) && Write(s, t, numLayers)
    ensures s.sender.Writing? && SenderInv(s, numLayers, stepOf)
  {}

  lemma WriteLayerKeeps(s: State, t: State, numLayers: nat, stepOf: int -> int)
    requires Inv(s, numLayers, stepOf) && Write(s, t, numLayers) && s.sender.Writing? && s.sender.next < s.sender.upto
    ensures Inv(t, numLayers, stepOf)
  {
    hide Sent, Safe, ItemInv, Truthful;
    var pl, ps, id, next, upto := s.sender.pl, s.sender.ps, s.sender.id, s.sender.next, s.sender.upto;
    var e := Wrote(id, next);
    LayerSent(s.log, id, stepOf(id), next);
    SafeGrows(s.log, e, numLayers, stepOf);
    ItemsGrow(s, e, numLayers, stepOf);
    LogGrows(s.log, e, id, stepOf(id), upto);
    ProducerGrows(s, t, e, numLayers);
    TruthGrows(s.log, e, pl, ps, numLayers);
  }

  lemma FinishKeeps(s: State, t: State, numLayers: nat, stepOf: int -> int)
    requires Inv(s, numLayers, stepOf) && Write(s, t, numLayers)
    requires s.sender.Writing? && s.sender.next >= s.sender.upto == numLayers
    ensures Inv(t, numLayers, stepOf)
  {
    hide Safe, ItemInv, Truthful, SentAfterCompletion;
    var pl, ps, id := s.sender.pl, s.sender.ps, s.sender.id;
    var e := Finished(id);
    SafeGrows(s.log, e, numLayers, stepOf);
    ItemsGrow(s, e, numLayers, stepOf);
    ProducerGrows(s, t, e, numLayers);
    TruthGrows(s.log, e, pl, ps, numLayers);
  }

  lemma PutBackKeeps(s: State, t: State, numLayers: nat, stepOf: int -> int)
    requires Inv(s, numLayers, stepOf) && Write(s, t, numLayers)
    requires s.sender.Writing? && s.sender.next >= s.sender.upto && s.sender.upto != numLayers
    ensures Inv(t, numLayers, stepOf)
  {
    hide Safe, Truthful, SentAfterCompletion;
    forall other | other in t.cacheInfo ensures ItemInv(t.log, other, t.cacheInfo[other], numLayers, stepOf) {
      assert ItemInv(s.log, other, s.cacheInfo[other], numLayers, stepOf);
    }
  }

  /** Writing a completed layer adds it to what was sent in order. */
  lemma LayerSent(log: seq<Event>, id: int, step: int, next: int)
    requires Completed(step, next) in log && Sent(log, id, step, next) && next >= 0
    ensures Sent(log + [Wrote(id, next)], id, step, next + 1)
  {
    LogGrows(log, Wrote(id, next), id, step, next);
    var more := log + [Wrote(id, next)];
    var i :| 0 <= i < |log| && log[i] == Completed(step, next);
    assert more[i] == Completed(step, next) && more[|log|] == Wrote(id, next);
    assert SentAfterCompletion(more, id, step, next);
  }

  // ---------- every run ----------

  lemma InitHolds(s: State, numLayers: nat, stepOf: int -> int)
    requires Init(s)
    ensures Inv(s, numLayers, stepOf)
  {}

  lemma NextKeeps(s: State, t: State, numLayers: nat, stepOf: int -> int)
    requires Next(s, t, numLayers, stepOf) && numLayers >= 1 && forall id :: stepOf(id) >= 0
    requires Inv(s, numLayers, stepOf) && !t.torn && t.started <= WRAP
    ensures Inv(t, numLayers, stepOf)
  {
    hide Inv, ResetLayer, BumpStep, CompleteLayer, Receive, ReadLayer, ReadStep, Serve, Write;
    if ResetLayer(s, t) {
      ResetKeeps(s, t, numLayers, stepOf);
    } else if BumpStep(s, t) {
      BumpKeeps(s, t, numLayers, stepOf);
    } else if CompleteLayer(s, t, numLayers) {
      CompleteKeeps(s, t, numLayers, stepOf);
    } else if ReadLayer(s, t) {
      ReadLayerKeeps(s, t, numLayers, stepOf);
    } else if ReadStep(s, t, numLayers) {
      ReadStepKeeps(s, t, numLayers, stepOf);
    } else if Serve(s, t, numLayers) {
      ServeKeeps(s, t, numLayers, stepOf);
    } else if Write(s, t, numLayers) {
      WriteKeeps(s, t, numLayers, stepOf);
    } else {
      var info :| Receive(s, t, info, stepOf);
      ReceiveKeeps(s, t, info, numLayers, stepOf);
    }
  }

  /** A reset and a bump since the last read of layer are two stores; and the reader
      keeps its invariant in every run. */
  ghost predicate CountInv(s: State, numLayers: nat) {
    (s.reset || s.bumped ==> s.stores >= 1) && (s.reset && s.bumped ==> s.stores >= 2) && ReaderInv(s, numLayers)
  }

  /** The transition in which a pair of copies is taken into use. */
  ghost predicate UsesPair(s: State, t: State) {
    s.sender.LayerRead? && t.sender.Serving?
  }

  /** Neither the flag nor the number of steps ever goes back, and a pair that does not go
      together had at least two stores between its reads. */
  ghost predicate Monotone(s: State, t: State, numLayers: nat) {
    s.started <= t.started && (s.torn ==> t.torn) && CountInv(t, numLayers) &&
    (t.torn && !s.torn ==> UsesPair(s, t) && s.stores >= 2)
  }

  lemma StoreMonotone(s: State, t: State, numLayers: nat)
    requires CountInv(s, numLayers) && (ResetLayer(s, t) || BumpStep(s, t) || CompleteLayer(s, t, numLayers))
    ensures Monotone(s, t, numLayers)
  {}

  lemma ReadMonotone(s: State, t: State, numLayers: nat)
    requires CountInv(s, numLayers) && (ReadLayer(s, t) || ReadStep(s, t, numLayers))
    ensures Monotone(s, t, numLayers)
  {}

  lemma ServeMonotone(s: State, t: State, numLayers: nat)
    requires CountInv(s, numLayers) && Serve(s, t, numLayers)
    ensures Monotone(s, t, numLayers)
  {
    hide LayerIdx, Target;
  }

  lemma OtherMonotone(s: State, t: State, numLayers: nat, stepOf: int -> int)
    requires CountInv(s, numLayers) && ((exists info :: Receive(s, t, info, stepOf)) || Write(s, t, numLayers))
    ensures Monotone(s, t, numLayers)
  {
    hide ApplyInfo;
  }

  lemma NextMonotone(s: State, t: State, numLayers: nat, stepOf: int -> int)
    requires Next(s, t, numLayers, stepOf) && CountInv(s, numLayers)
    ensures Monotone(s, t, numLayers)
  {
    hide ResetLayer, BumpStep, CompleteLayer, Receive, ReadLayer, ReadStep, Serve, Write, CountInv, Monotone;
    if ResetLayer(s, t) || BumpStep(s, t) || CompleteLayer(s, t, numLayers) {
      StoreMonotone(s, t, numLayers);
    } else if ReadLayer(s, t) || ReadStep(s, t, numLayers) {
      ReadMonotone(s, t, numLayers);
    } else if Serve(s, t, numLayers) {
      ServeMonotone(s, t, numLayers);
    } else {
      OtherMonotone(s, t, numLayers, stepOf);
    }
  }

  lemma {:induction false} RunHolds(run: seq<State>, numLayers: nat, stepOf: int -> int, n: nat)
    requires Run(run, numLayers, stepOf) && numLayers >= 1 && forall id :: stepOf(id) >= 0
    requires n < |run| && !run[n].torn && run[n].started <= WRAP
    ensures Inv(run[n], numLayers, stepOf) && CountInv(run[n], numLayers)
  {
    hide Inv, Next, Init, CountInv;
    if n == 0 {
      InitHolds(run[0], numLayers, stepOf);
      InitCounts(run[0], numLayers);
    } else {
      CountsAlways(run, numLayers, stepOf, n - 1);
      NextMonotone(run[n - 1], run[n], numLayers, stepOf);
      RunHolds(run, numLayers, stepOf, n - 1);
      NextKeeps(run[n - 1], run[n], numLayers, stepOf);
    }
  }

  lemma InitCounts(s: State, numLayers: nat)
    requires Init(s)
    ensures CountInv(s, numLayers) && !s.torn
  {}

  lemma {:induction false} CountsAlways(run: seq<State>, numLayers: nat, stepOf: int -> int, n: nat)
    requires Run(run, numLayers, stepOf) && n < |run|
    ensures CountInv(run[n], numLayers)
  {
    hide Next, Init, CountInv;
    if n == 0 {
      InitCounts(run[0], numLayers);
    } else {
      CountsAlways(run, numLayers, stepOf, n - 1);
      NextMonotone(run[n - 1], run[n], numLayers, stepOf);
    }
  }

  /** Layerwise sending is safe: in every run without wrap-around in which every pair of
      copies taken into use goes together, whatever is reported finished was sent
      completely and each layer after its completion. */
  lemma LayerwiseSendIsSafe(run: seq<State>, numLayers: nat, stepOf: int -> int)
    requires Run(run, numLayers, stepOf) && numLayers >= 1 && forall id :: stepOf(id) >= 0
    requires !run[|run| - 1].torn && run[|run| - 1].started <= 100003
    ensures Safe(run[|run| - 1].log, numLayers, stepOf)
  {
    RunHolds(run, numLayers, stepOf, |run| - 1);
  }

  /** In particular when at most one store falls between the two reads. */
  lemma {:induction false} OneStoreBetweenIsEnough(run: seq<State>, numLayers: nat, stepOf: int -> int, n: nat)
    requires Run(run, numLayers, stepOf) && n < |run|
    requires forall i :: 0 <= i < |run| - 1 && UsesPair(run[i], run[i + 1]) ==> run[i].stores <= 1
    ensures !run[n].torn
  {
    hide Next, Init, UsesPair, CountInv;
    if n == 0 {
      InitCounts(run[0], numLayers);
    } else {
      OneStoreBetweenIsEnough(run, numLayers, stepOf, n - 1);
      CountsAlways(run, numLayers, stepOf, n - 1);
      NextMonotone(run[n - 1], run[n], numLayers, stepOf);
      assert UsesPair(run[n - 1], run[n - 1 + 1]) ==> run[n - 1].stores <= 1;
    }
  }

  // ---------- a request whose step is over is sent to the end ----------

  /** The request has been finished since the log was from long, or will be before the sender
      polls again: the sender has read a step after its own, or will, and it is among the
      requests still to be served, or being sent to the last layer. */
  ghost predicate Due(s: State, id: int, from: nat, numLayers: nat) {
    from <= |s.log| &&
    (Finished(id) in s.log[from..] ||
     (id in s.cacheInfo && s.cacheInfo[id].hasStatus && 0 <= s.cacheInfo[id].currentId &&
      match s.sender
      case Polling => false
      case LayerRead(second, pl) => s.cacheInfo[id].currentId < s.step
      case Rereading => s.cacheInfo[id].currentId < s.step
      case Serving(pl, ps, work) => s.cacheInfo[id].currentId < ps && id in work
      case Writing(pl, ps, work, now, next, upto) =>
        s.cacheInfo[id].currentId < ps && (id in work || (now == id && upto == numLayers))))
  }

  /** The step word counts the steps, until it wraps around. */
  ghost predicate Counted(s: State) {
    s.started <= WRAP ==> s.step == s.started - 1
  }

  lemma ProducerDue(s: State, t: State, id: int, from: nat, numLayers: nat)
    requires ResetLayer(s, t) || BumpStep(s, t) || CompleteLayer(s, t, numLayers)
    requires Counted(s) && Due(s, id, from, numLayers)
    ensures Counted(t) && (t.started <= WRAP ==> Due(t, id, from, numLayers))
  {
    LaterLog(s.log, t.log, from);
    if s.started < WRAP {
      assert (s.step + 1) % WRAP == s.step + 1;
    }
  }

  lemma LaterLog(log: seq<Event>, more: seq<Event>, from: nat)
    requires log <= more && from <= |log|
    ensures forall e :: e in log[from..] ==> e in more[from..]
  {
    forall e | e in log[from..] ensures e in more[from..] {
      var i :| 0 <= i < |log| - from && log[from..][i] == e;
      assert more[from..][i] == e;
    }
  }

  lemma ReaderDue(s: State, t: State, id: int, from: nat, numLayers: nat, stepOf: int -> int)
    requires (exists info :: Receive(s, t, info, stepOf)) || ReadLayer(s, t) || ReadStep(s, t, numLayers)
    requires Due(s, id, from, numLayers)
    ensures Due(t, id, from, numLayers)
  {
    hide ApplyInfo, Torn;
  }

  lemma ServeDue(s: State, t: State, id: int, from: nat, numLayers: nat)
    requires Serve(s, t, numLayers) && Due(s, id, from, numLayers)
    ensures Due(t, id, from, numLayers)
  {
    if s.sender.work != [] {
      assert s.sender.work == [s.sender.work[0]] + s.sender.work[1..];
    }
  }

  lemma WriteDue(s: State, t: State, id: int, from: nat, numLayers: nat)
    requires Write(s, t, numLayers) && Due(s, id, from, numLayers)
    ensures Due(t, id, from, numLayers)
  {
    LaterLog(s.log, t.log, from);
    if t.log != s.log {
      assert t.log[from..][|s.log| - from] == t.log[|s.log|];
    }
  }

  lemma NextDue(s: State, t: State, id: int, from: nat, numLayers: nat, stepOf: int -> int)
    requires Next(s, t, numLayers, stepOf) && Counted(s) && Due(s, id, from, numLayers) && t.started <= WRAP
    ensures Due(t, id, from, numLayers)
  {
    hide ResetLayer, BumpStep, CompleteLayer, Receive, ReadLayer, ReadStep, Serve, Write, Counted, Due;
    if ResetLayer(s, t) || BumpStep(s, t) || CompleteLayer(s, t, numLayers) {
      ProducerDue(s, t, id, from, numLayers);
    } else if Serve(s, t, numLayers) {
      ServeDue(s, t, id, from, numLayers);
    } else if Write(s, t, numLayers) {
      WriteDue(s, t, id, from, numLayers);
    } else {
      ReaderDue(s, t, id, from, numLayers, stepOf);
    }
  }

  lemma NextCounts(s: State, t: State, numLayers: nat, stepOf: int -> int)
    requires Next(s, t, numLayers, stepOf) && Counted(s)
    ensures Counted(t) && s.started <= t.started
  {
    hide ApplyInfo, LayerIdx, Target, Torn;
    if BumpStep(s, t) && s.started < WRAP {
      assert (s.step + 1) % WRAP == s.step + 1;
    }
  }

  lemma {:induction false} AlwaysCounted(run: seq<State>, numLayers: nat, stepOf: int -> int, n: nat)
    requires Run(run, numLayers, stepOf) && n < |run|
    ensures Counted(run[n])
  {
    hide Next;
    if n > 0 {
      AlwaysCounted(run, numLayers, stepOf, n - 1);
      NextCounts(run[n - 1], run[n - 1 + 1], numLayers, stepOf);
    }
  }

  lemma {:induction false} StaysDue(run: seq<State>, numLayers: nat, stepOf: int -> int, i: nat, j: nat, id: int,
                                    from: nat)
    requires Run(run, numLayers, stepOf) && i <= j < |run| && run[j].started <= WRAP
    requires Due(run[i], id, from, numLayers)
    ensures Due(run[j], id, from, numLayers)
    decreases j
  {
    hide Next, Due, Counted;
    if i < j {
      AlwaysCounted(run, numLayers, stepOf, j - 1);
      NextCounts(run[j - 1], run[j - 1 + 1], numLayers, stepOf);
      StaysDue(run, numLayers, stepOf, i, j - 1, id, from);
      NextDue(run[j - 1], run[j - 1 + 1], id, from, numLayers, stepOf);
    }
  }

  /** A ready request of an earlier step that is in the dictionary when the sender reads the
      words is finished before the sender polls again, whatever the producer does meanwhile. */
  lemma RequestIsFinished(run: seq<State>, numLayers: nat, stepOf: int -> int, i: nat, j: nat, id: int)
    requires Run(run, numLayers, stepOf) && i <= j < |run| && run[j].started <= 100003
    requires run[i].sender.LayerRead? && run[j].sender == Polling
    requires id in run[i].cacheInfo && run[i].cacheInfo[id].hasStatus
    requires 0 <= run[i].cacheInfo[id].currentId < run[i].step
    ensures |run[i].log| <= |run[j].log| && Finished(id) in run[j].log[|run[i].log|..]
  {
    hide Next, Init;
    StaysDue(run, numLayers, stepOf, i, j, id, |run[i].log|);
  }

  // ---------- two stores are too many ----------

  /** A run of one layer in which the reset and the bump of step 1 both fall
      between the two reads: request 7 of step 1 is written before step 1 has
      completed anything. */
  function UnsafeRun(): seq<State> {
    var s0 := State(-1, -1, Resting, 0, Polling, map[], false, false, 0, false, []);
    var s1 := s0.(cacheInfo := map[7 := Item(Some([5]), None, 1, false, None)]);
    var s2 := s1.(cacheInfo := map[7 := Item(Some([5]), Some([6]), 1, true, None)]);
    var s3 := s2.(layer := -1, producer := Resetting, reset := true, stores := 1);
    var s4 := s3.(step := 0, producer := Running(0), started := 1, bumped := true, stores := 2);
    var s5 := s4.(layer := 0, producer := Resting, stores := 3, log := [Completed(0, 0)]);
    var s6 := s5.(sender := LayerRead(false, 0), reset := false, bumped := false, stores := 0);
    var s7 := s6.(sender := Rereading);
    var s8 := s7.(sender := LayerRead(true, 0));
    var s9 := s8.(layer := -1, producer := Resetting, reset := true, stores := 1);
    var s10 := s9.(step := 1, producer := Running(0), started := 2, bumped := true, stores := 2);
    var s11 := s10.(sender := Serving(0, 1, [7]), torn := true);
    var s12 := s11.(
      cacheInfo := map[7 := Item(Some([5]), Some([6]), 1, true, Some(0))], sender := Writing(0, 1, [], 7, 0, 1));
    var s13 := s12.(sender := Writing(0, 1, [], 7, 1, 1), log := [Completed(0, 0), Wrote(7, 0)]);
    var s14 := s13.(
      sender := Serving(0, 1, []), cacheInfo := map[], log := [Completed(0, 0), Wrote(7, 0), Finished(7)]);
    [s0, s1, s2, s3, s4, s5, s6, s7, s8, s9, s10, s11, s12, s13, s14]
  }

  lemma TwoStoresBetweenAreTooMany()
    ensures var run, stepOf := UnsafeRun(), (id: int) => 1;
      Run(run, 1, stepOf) && !Safe(run[14].log, 1, stepOf) &&
      forall i :: 0 <= i < |run| - 1 && UsesPair(run[i], run[i + 1]) ==> run[i].stores <= 2
  {
    var run, stepOf := UnsafeRun(), (id: int) => 1;
    UnsafeStart(run, stepOf);
    UnsafeMiddle(run, stepOf);
    UnsafeEnd(run, stepOf);
    var log := run[14].log;
    assert !SentAfterCompletion(log[..2], 7, 1, 0);
    assert log[2].Finished? && log[2].done == 7;
  }

  lemma UnsafeStart(run: seq<State>, stepOf: int -> int)
    requires run == UnsafeRun() && stepOf(7) == 1
    ensures forall i :: 0 <= i < 8 ==> Next(run[i], run[i + 1], 1, stepOf)
  {
    assert Receive(run[0], run[1], Info(7, Some([5]), None, 1), stepOf);
    assert Receive(run[1], run[2], Info(7, None, Some([6]), 1), stepOf);
    assert ResetLayer(run[2], run[3]);
    assert BumpStep(run[3], run[4]);
    assert CompleteLayer(run[4], run[5], 1);
    assert ReadLayer(run[5], run[6]);
    assert ReadStep(run[6], run[7], 1);
    assert ReadLayer(run[7], run[8]);
  }

  lemma UnsafeMiddle(run: seq<State>, stepOf: int -> int)
    requires run == UnsafeRun() && stepOf(7) == 1
    ensures forall i :: 8 <= i < 11 ==> Next(run[i], run[i + 1], 1, stepOf)
  {
    assert ResetLayer(run[8], run[9]);
    assert BumpStep(run[9], run[10]);
    assert 7 in run[10].cacheInfo;
    assert run[10].cacheInfo != map[];
    assert ReadStep(run[10], run[11], 1);
  }

  lemma UnsafeEnd(run: seq<State>, stepOf: int -> int)
    requires run == UnsafeRun() && stepOf(7) == 1
    ensures forall i :: 11 <= i < 14 ==> Next(run[i], run[i + 1], 1, stepOf)
  {
    assert [7][0] == 7 && [7][1..] == [];
    assert Serve(run[11], run[12], 1);
    assert Write(run[12], run[13], 1);
    assert Write(run[13], run[14], 1);
  }

  // ---------- the sender's own code between two polls ----------

  function ApplyAll(cacheInfo: map<int, Item>, infos: seq<Info>): map<int, Item> {
    if infos == [] then cacheInfo else ApplyInfo(ApplyAll(cacheInfo, infos[..|infos| - 1]), infos[|infos| - 1])
  }

  /** The events of sending the layers from next up to upto, then finishing if
      that is all of them. */
  function SendEvents(id: int, next: int, upto: int, numLayers: nat): seq<Event>
    decreases upto - next
  {
    if next < upto then [Wrote(id, next)] + SendEvents(id, next + 1, upto, numLayers)
    else if upto == numLayers then [Finished(id)]
    else []
  }

  /** The dictionary after one request has had its turn. */
  function ServedInfo(cacheInfo: map<int, Item>, id: int, pl: int, ps: int, numLayers: nat): map<int, Item>
    requires id in cacheInfo
  {
    var item := cacheInfo[id];
    var upto := Target(item, pl, ps, numLayers);
    if !item.hasStatus then cacheInfo
    else if item.currentId > ps then cacheInfo[id := item.(layerIdx := Some(LayerIdx(item)))]
    else if upto == numLayers then cacheInfo - {id}
    else cacheInfo[id := item.(layerIdx := Some(upto))]
  }

  /** And what it has sent. */
  function ServedEvents(cacheInfo: map<int, Item>, id: int, pl: int, ps: int, numLayers: nat): seq<Event>
    requires id in cacheInfo
  {
    var item := cacheInfo[id];
    if !item.hasStatus || item.currentId > ps then []
    else SendEvents(id, LayerIdx(item), Target(item, pl, ps, numLayers), numLayers)
  }

  // ---------- what a delivery leaves, what a pass sends ----------

  /** The blocks that are sent: as many of the last source blocks as there are destination
      blocks, or all of them if there are none or more of these. */
  ghost predicate SentBlocks(blocks: seq<int>, src: seq<int>, dest: seq<int>) {
    (0 < |dest| <= |src| ==> blocks == src[|src| - |dest|..]) &&
    (|dest| == 0 || |dest| > |src| ==> blocks == src)
  }

  /** A delivery for a known request: what it brings replaces what was known, and once both
      lists are there the request can be sent. */
  lemma KnownRequest(cacheInfo: map<int, Item>, info: Info)
    requires info.id in cacheInfo
    ensures var known, after := cacheInfo[info.id], ApplyInfo(cacheInfo, info);
      var src := if info.src.Some? then info.src else known.src;
      var dest := if info.dest.Some? then info.dest else known.dest;
      after.Keys == cacheInfo.Keys && (forall id :: id in cacheInfo && id != info.id ==> after[id] == cacheInfo[id]) &&
      var item := after[info.id];
      item.dest == dest && item.currentId == info.currentId && item.layerIdx == known.layerIdx &&
      (if src.Some? && dest.Some?
       then item.hasStatus && item.src.Some? && SentBlocks(item.src.value, src.value, dest.value)
       else item.src == src && item.hasStatus == known.hasStatus)
  {}

  /** The entries of other requests change nothing. */
  lemma {:induction false} OthersDelivered(cacheInfo: map<int, Item>, infos: seq<Info>, id: int)
    requires forall i :: 0 <= i < |infos| ==> infos[i].id != id
    ensures id in ApplyAll(cacheInfo, infos) <==> id in cacheInfo
    ensures id in cacheInfo ==> ApplyAll(cacheInfo, infos)[id] == cacheInfo[id]
  {
    if infos != [] {
      OthersDelivered(cacheInfo, infos[..|infos| - 1], id);
    }
  }

  /** The deliveries before the one at i, that one, and those after it. */
  lemma {:induction false} DeliveredThrough(cacheInfo: map<int, Item>, infos: seq<Info>, i: nat)
    requires i <= |infos|
    ensures ApplyAll(cacheInfo, infos) == ApplyAll(ApplyAll(cacheInfo, infos[..i]), infos[i..])
  {
    hide ApplyInfo;
    if i < |infos| {
      var n := |infos| - 1;
      DeliveredThrough(cacheInfo, infos[..n], i);
      assert infos[..n][..i] == infos[..i] && infos[..n][i..] == infos[i..][..n - i];
    } else {
      assert infos[..i] == infos && infos[i..] == [];
    }
  }

  /** The two lists of a new request arrive in two deliveries, in either order and with any
      others around them: the request is left ready, with the blocks that are to be sent. */
  lemma BothDelivered(cacheInfo: map<int, Item>, infos: seq<Info>, i: nat, j: nat, id: int, src: seq<int>,
                      dest: seq<int>, step: int)
    requires id !in cacheInfo && i < j < |infos|
    requires forall k :: 0 <= k < |infos| ==> (infos[k].id == id <==> k == i || k == j)
    requires (infos[i] == Info(id, Some(src), None, step) && infos[j] == Info(id, None, Some(dest), step)) ||
             (infos[i] == Info(id, None, Some(dest), step) && infos[j] == Info(id, Some(src), None, step))
    ensures id in ApplyAll(cacheInfo, infos)
    ensures var item := ApplyAll(cacheInfo, infos)[id];
      item.src.Some? && SentBlocks(item.src.value, src, dest) &&
      item.dest == Some(dest) && item.currentId == step && item.hasStatus && item.layerIdx == None
  {
    hide SentBlocks, ApplyInfo, ApplyAll;
    var first := ApplyAll(cacheInfo, infos[..i]);
    OthersDelivered(cacheInfo, infos[..i], id);
    NextDelivered(cacheInfo, infos, i);
    NewRequest(first, infos[i]);
    var second := ApplyAll(cacheInfo, infos[..i + 1]);
    DeliveredThrough(cacheInfo, infos[..j], i + 1);
    assert infos[..j][..i + 1] == infos[..i + 1];
    OthersDelivered(second, infos[..j][i + 1..], id);
    NextDelivered(cacheInfo, infos, j);
    KnownRequest(ApplyAll(cacheInfo, infos[..j]), infos[j]);
    DeliveredThrough(cacheInfo, infos, j + 1);
    OthersDelivered(ApplyAll(cacheInfo, infos[..j + 1]), infos[j + 1..], id);
  }

  lemma NewRequest(cacheInfo: map<int, Item>, info: Info)
    requires info.id !in cacheInfo
    ensures info.id in ApplyInfo(cacheInfo, info)
    ensures ApplyInfo(cacheInfo, info)[info.id] == Item(info.src, info.dest, info.currentId, false, None)
  {}

  lemma NextDelivered(cacheInfo: map<int, Item>, infos: seq<Info>, i: nat)
    requires i < |infos|
    ensures ApplyAll(cacheInfo, infos[..i + 1]) == ApplyInfo(ApplyAll(cacheInfo, infos[..i]), infos[i])
  {
    hide ApplyInfo;
    assert infos[..i + 1][..i] == infos[..i];
  }

  lemma {:induction false} EventsInOrder(id: int, next: int, upto: int, numLayers: nat)
    ensures var events, writes := SendEvents(id, next, upto, numLayers), if next < upto then upto - next else 0;
      (forall l :: 0 <= l < writes ==> l < |events| && events[l] == Wrote(id, next + l)) &&
      (if upto == numLayers then |events| == writes + 1 && events[writes] == Finished(id) else |events| == writes)
    decreases upto - next
  {
    if next < upto {
      EventsInOrder(id, next + 1, upto, numLayers);
    }
  }

  /** The layers from from up to upto, written in order. */
  ghost predicate Writes(events: seq<Event>, id: int, from: int, upto: int) {
    |events| == (if from < upto then upto - from else 0) &&
    forall l :: from <= l < upto ==> events[l - from] == Wrote(id, l)
  }

  ghost predicate SentToTheEnd(events: seq<Event>, id: int, from: int, numLayers: nat) {
    |events| > 0 && events[|events| - 1] == Finished(id) && Writes(events[..|events| - 1], id, from, numLayers)
  }

  /** One pass over a request that is ready and has been sent up to layer from.  If its step
      is over, or is the current one and complete, all layers left are written in order and
      it is finished and forgotten.  In its own incomplete step the layers up to pl are
      written and it is remembered how far it came.  Before its step nothing is written. */
  lemma PassSends(cacheInfo: map<int, Item>, id: int, pl: int, ps: int, numLayers: nat, from: int)
    requires id in cacheInfo && cacheInfo[id].hasStatus
    requires from == if cacheInfo[id].layerIdx.Some? then cacheInfo[id].layerIdx.value else 0
    ensures var item, events, after := cacheInfo[id], ServedEvents(cacheInfo, id, pl, ps, numLayers),
                                       ServedInfo(cacheInfo, id, pl, ps, numLayers);
      if item.currentId > ps then events == [] && after == cacheInfo[id := item.(layerIdx := Some(from))]
      else if item.currentId < ps || pl == numLayers - 1 then
        SentToTheEnd(events, id, from, numLayers) && after == cacheInfo - {id}
      else
        Writes(events, id, from, pl + 1) && after == cacheInfo[id := item.(layerIdx := Some(pl + 1))]
  {
    hide SendEvents;
    EventsInOrder(id, from, if cacheInfo[id].currentId < ps then numLayers else pl + 1, numLayers);
  }

  class CacheMessager {
    var cacheInfo: map<int, Item>
    var log: seq<Event>

    constructor ()
      ensures cacheInfo == map[] && log == []
    {
      cacheInfo, log := map[], [];
    }

    /** The loop over the delivered infos, updating the dictionary in place. */
    method Deliver(infos: seq<Info>)
      modifies this
      ensures cacheInfo == ApplyAll(old(cacheInfo), infos) && log == old(log)
    {
      for i := 0 to |infos|
        invariant cacheInfo == ApplyAll(old(cacheInfo), infos[..i]) && log == old(log)
      {
        assert infos[..i + 1][..i] == infos[..i];
        var info := infos[i];
        if info.id in cacheInfo {
          var item := cacheInfo[info.id];
          if info.src.Some? {
            item := item.(src := info.src);
          }
          if info.dest.Some? {
            item := item.(dest := info.dest);
          }
          item := item.(currentId := info.currentId);
          if item.dest.Some? && item.src.Some? {
            item := item.(src := Some(LastBlocks(item.src.value, |item.dest.value|)), hasStatus := true);
          }
          cacheInfo := cacheInfo[info.id := item];
        } else {
          cacheInfo := cacheInfo[info.id := Item(info.src, info.dest, info.currentId, false, None)];
        }
      }
      assert infos[..|infos|] == infos;
    }

    /** The body of the loop over the requests, for one of them. */
    method ServeRequest(id: int, pl: int, ps: int, numLayers: nat)
      requires id in cacheInfo
      modifies this
      ensures cacheInfo == ServedInfo(old(cacheInfo), id, pl, ps, numLayers)
      ensures log == old(log) + ServedEvents(old(cacheInfo), id, pl, ps, numLayers)
    {
      var item := cacheInfo[id];
      if !item.hasStatus {
        return;
      }
      if item.layerIdx.None? {
        item := item.(layerIdx := Some(0));
      }
      cacheInfo := cacheInfo[id := item];
      if item.currentId > ps {
        return;
      }
      var currentLayerIdx := if item.currentId < ps then numLayers else pl + 1;
      ghost var all := SendEvents(id, item.layerIdx.value, currentLayerIdx, numLayers);
      var layerIdx := item.layerIdx.value;
      while layerIdx < currentLayerIdx
        invariant log + SendEvents(id, layerIdx, currentLayerIdx, numLayers) == old(log) + all
        invariant cacheInfo == old(cacheInfo)[id := item]
      {
        log := log + [Wrote(id, layerIdx)];
        layerIdx := layerIdx + 1;
      }
      if currentLayerIdx == numLayers {
        log := log + [Finished(id)];
        cacheInfo := cacheInfo - {id};
        assert cacheInfo == old(cacheInfo) - {id};
      } else {
        cacheInfo := cacheInfo[id := item.(layerIdx := Some(currentLayerIdx))];
        assert log + [] == log;
      }
    }
  }

  // ---------- the code and the transitions ----------

  /** The loop over the delivered infos is a sequence of Receive transitions. */
  lemma {:induction false} DeliverFollowsCode(s: State, infos: seq<Info>, stepOf: int -> int) returns (run: seq<State>)
    requires s.sender == Polling && forall i :: 0 <= i < |infos| ==> infos[i].currentId == stepOf(infos[i].id)
    ensures |run| == |infos| + 1 && run[0] == s && run[|infos|] == s.(cacheInfo := ApplyAll(s.cacheInfo, infos))
    ensures forall i :: 0 <= i < |infos| ==> Receive(run[i], run[i + 1], infos[i], stepOf)
  {
    hide ApplyInfo;
    var n := |infos|;
    if n == 0 {
      run := [s];
    } else {
      var front := DeliverFollowsCode(s, infos[..n - 1], stepOf);
      run := front + [s.(cacheInfo := ApplyAll(s.cacheInfo, infos))];
      forall i | 0 <= i < n ensures Receive(run[i], run[i + 1], infos[i], stepOf) {
        if i < n - 1 {
          assert Receive(front[i], front[i + 1], infos[..n - 1][i], stepOf);
        }
      }
    }
  }

  /** The loop over the layers of one request is a sequence of Write transitions. */
  lemma {:induction false} WritesFollowCode(s: State, numLayers: nat) returns (run: seq<State>)
    requires s.sender.Writing? && s.sender.id in s.cacheInfo
    ensures |run| > 0 && run[0] == s && forall i :: 0 <= i < |run| - 1 ==> Write(run[i], run[i + 1], numLayers)
    ensures var Writing(pl, ps, work, id, next, upto) := s.sender;
      run[|run| - 1] == s.(
        sender := Serving(pl, ps, work),
        log := s.log + SendEvents(id, next, upto, numLayers),
        cacheInfo := if upto == numLayers then s.cacheInfo - {id}
                     else s.cacheInfo[id := s.cacheInfo[id].(layerIdx := Some(upto))])
    decreases s.sender.upto - s.sender.next
  {
    var Writing(pl, ps, work, id, next, upto) := s.sender;
    if next < upto {
      var t := s.(sender := Writing(pl, ps, work, id, next + 1, upto), log := s.log + [Wrote(id, next)]);
      var rest := WritesFollowCode(t, numLayers);
      run := [s] + rest;
      assert Write(s, t, numLayers);
      assert run[|run| - 1] == rest[|rest| - 1];
    } else {
      var t := s.(
        sender := Serving(pl, ps, work),
        log := s.log + SendEvents(id, next, upto, numLayers),
        cacheInfo := if upto == numLayers then s.cacheInfo - {id}
                     else s.cacheInfo[id := s.cacheInfo[id].(layerIdx := Some(upto))]);
      assert s.log + [] == s.log;
      run := [s, t];
    }
  }

  /** A pass over one request in one go is what the transitions do when nothing else intervenes. */
  lemma ServeFollowsCode(s: State, numLayers: nat) returns (run: seq<State>)
    requires s.sender.Serving? && s.sender.work != [] && s.sender.work[0] in s.cacheInfo
    ensures |run| > 1 && run[0] == s && Serve(run[0], run[1], numLayers)
    ensures forall i :: 1 <= i < |run| - 1 ==> Write(run[i], run[i + 1], numLayers)
    ensures var Serving(pl, ps, work) := s.sender;
      run[|run| - 1] == s.(
        sender := Serving(pl, ps, work[1..]),
        log := s.log + ServedEvents(s.cacheInfo, work[0], pl, ps, numLayers),
        cacheInfo := ServedInfo(s.cacheInfo, work[0], pl, ps, numLayers))
  {
    hide Write, SendEvents, Target, LayerIdx;
    var Serving(pl, ps, work) := s.sender;
    var id, item := work[0], s.cacheInfo[work[0]];
    assert s.log + [] == s.log;
    if !item.hasStatus {
      run := [s, s.(sender := Serving(pl, ps, work[1..]))];
    } else {
      var started := s.cacheInfo[id := item.(layerIdx := Some(LayerIdx(item)))];
      if item.currentId > ps {
        run := [s, s.(sender := Serving(pl, ps, work[1..]), cacheInfo := started)];
      } else {
        var upto := Target(item, pl, ps, numLayers);
        var t := s.(sender := Writing(pl, ps, work[1..], id, LayerIdx(item), upto), cacheInfo := started);
        var rest := WritesFollowCode(t, numLayers);
        run := [s] + rest;
        assert started - {id} == s.cacheInfo - {id};
        assert run[|run| - 1] == rest[|rest| - 1];
        forall i | 1 <= i < |run| - 1 ensures Write(run[i], run[i + 1], numLayers) {
          assert Write(rest[i - 1], rest[i - 1 + 1], numLayers);
        }
      }
    }
  }
}
