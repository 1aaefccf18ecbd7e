/** AddBatch under the queue's lock: the spans it publishes, and what is left on every way out. */
module Batch {
  import opened StagingFaults

  datatype Policy = PerOp | Every(n: nat) | Never

  /** What one item meets: the caller's codec, admission, the cycle it may need, the staging write. */
  datatype Codec = Encodes | Rejects | Panics

  datatype ItemAns = ItemAns(codec: Codec, admitted: bool, cycles: bool, cycled: bool, stage: StageAns)

  /** What one publication meets: the data fsync, the header write, the header fsync, the batched flush. */
  datatype SpanAns = SpanAns(dataOk: bool, header: HeaderAns, headerOk: bool, flush: FlushAns)

  datatype FlushAns = Flushed | FlushRetry | FlushLatched

  datatype Exit = Done | CodecError | Panicked | Full | StageError | PublishFailed | Latched

  /** The store's staging half. log is what the segments publish. */
  class Queue<T> {
    var log: seq<T>
    var inFlight: seq<T>
    var pending: seq<T>
    var unsynced: nat
    var latched: bool
    const policy: Policy

    constructor (policy: Policy)
      ensures this.policy == policy && log == inFlight == pending == [] && unsynced == 0 && !latched
    {
      this.policy := policy;
      log, inFlight, pending, unsynced, latched := [], [], [], 0, false;
    }

    method DiscardStaged()
      modifies this`inFlight, this`pending
      ensures inFlight == pending == []
    {
      inFlight, pending := [], [];
    }

    /** publishSpan: all of the span, or none of it and nothing staged either. */
    method PublishSpan(header: HeaderAns) returns (ok: bool)
      requires pending == []
      modifies this`log, this`inFlight, this`pending, this`latched
      ensures inFlight == pending == []
      ensures ok <==> !old(latched) && header == Wrote
      ensures log == old(log) + if ok then old(inFlight) else []
      ensures latched == (old(latched) || (header == Torn))
    {
      log := log + inFlight;
      if latched || header != Wrote {
        if header == Torn {
          latched := true;
        }
        log := log[..|log| - |inFlight|];
        DiscardStaged();
        return false;
      }
      inFlight := [];
      return true;
    }

    /** recordOps: the operation that reaches the boundary pays the flush. */
    method RecordOps(n: nat, flush: FlushAns) returns (ok: bool)
      modifies this`unsynced, this`latched
      ensures ok <==> !policy.Every? || old(unsynced) + n < policy.n || (flush == Flushed && !old(latched))
      ensures unsynced == if !policy.Every? then old(unsynced)
                          else if ok && old(unsynced) + n >= policy.n then 0 else old(unsynced) + n
      ensures latched <==> old(latched) || (policy.Every? && old(unsynced) + n >= policy.n && flush == FlushLatched)
    {
      if !policy.Every? {
        return true;
      }
      unsynced := unsynced + n;
      if unsynced < policy.n {
        return true;
      }
      if flush == FlushLatched {
        latched := true;
      }
      if flush != Flushed || latched {
        return false;
      }
      unsynced := 0;
      return true;
    }

    /** The flush policy asks for a flush once n more writes are unsynced. */
    predicate Due(before: nat, n: nat) {
      policy.Every? && before + n >= policy.n
    }

    /** What it takes for a span of pending records to become real. */
    predicate Lands(wasLatched: bool, a: SpanAns) {
      !wasLatched && a.header == Wrote && (policy.PerOp? ==> a.dataOk)
    }

    /** publishBatchLocked: n of the pending records became real, all or none. The answer is nil when they did and the
        fsyncs the policy asks for succeeded; a data fsync that failed publishes nothing, any other leaves them in. */
    method PublishBatch(a: SpanAns) returns (n: nat, ok: bool)
      requires inFlight == []
      modifies this
      ensures inFlight == pending == []
      ensures log == if n == 0 then old(log) else old(log) + old(pending)
      ensures old(pending) == [] ==> n == 0 && ok && unsynced == old(unsynced) && latched == old(latched)
      ensures old(pending) != [] ==> n == if Lands(old(latched), a) then |old(pending)| else 0
      ensures old(pending) != [] ==>
                (ok <==> n > 0 && (policy.PerOp? ==> a.headerOk) && (Due(old(unsynced), n) ==> a.flush == Flushed))
      ensures old(pending) != [] ==>
                (latched <==>
                  || old(latched) || (policy.PerOp? && (!a.dataOk || (n > 0 && !a.headerOk)))
                  || a.header == Torn || (n > 0 && Due(old(unsynced), n) && a.flush == FlushLatched))
      ensures unsynced == if !policy.Every? || n == 0 then old(unsynced)
                          else if Due(old(unsynced), n) && ok then 0 else old(unsynced) + n
    {
      n, ok := 0, true;
      if |pending| == 0 {
        return;
      }
      inFlight, pending := pending, [];
      var recs := |inFlight|;
      if policy.PerOp? && !a.dataOk {
        DiscardStaged();
        latched, ok := true, false;
        return;
      }
      ok := PublishSpan(a.header);
      if !ok {
        return;
      }
      n := recs;
      if !policy.PerOp? {
        ok := RecordOps(recs, a.flush);
      } else if !a.headerOk {
        latched, ok := true, false;
      }
    }

    /** No fsync and no header write fails. */
    predicate Clean(a: SpanAns) {
      a.dataOk && a.header == Wrote && a.headerOk && a.flush == Flushed
    }

    ghost predicate AllClean(spans: nat -> SpanAns) {
      forall k :: Clean(spans(k))
    }

    predicate Welcome(a: ItemAns) {
      a.codec == Encodes && a.admitted && (a.cycles ==> a.cycled) && a.stage == Staged
    }

    /** The batch so far: published is in the log, the rest up to i is pending. */
    ghost predicate InStep(before: seq<T>, items: seq<T>, published: nat, i: nat)
      reads this
    {
      && inFlight == [] && published <= i <= |items|
      && log == before + items[..published] && pending == items[published..i]
    }

    ghost predicate Exactly(before: seq<T>, items: seq<T>, published: nat)
      reads this
    {
      inFlight == pending == [] && published <= |items| && log == before + items[..published]
    }

    method Publish(ghost before: seq<T>, ghost items: seq<T>, published: nat, ghost i: nat, a: SpanAns)
      returns (now: nat, ok: bool)
      requires InStep(before, items, published, i)
      modifies this
      ensures Exactly(before, items, now) && (now == i || (now == published && !ok))
      ensures ok ==> latched == old(latched)
      ensures !ok ==> old(latched) || !Clean(a)
      ensures policy.Every? && ok && old(unsynced) < policy.n ==> unsynced < policy.n
    {
      var n: nat;
      n, ok := PublishBatch(a);
      now := published + n;
      assert items[..published] + items[published..i] == items[..i];
      assert before + items[..published] + items[published..i] == before + (items[..published] + items[published..i]);
    }

    /** addBatchLocked, once it has quiesced. at is the item it stopped in front of; peak is the most writes
        unsynced or pending at once. */
    method AddBatch(items: seq<T>, env: nat -> ItemAns, spans: nat -> SpanAns)
      returns (published: nat, exit: Exit, ghost at: nat, ghost peak: nat)
      requires inFlight == pending == []
      modifies this
      ensures Exactly(old(log), items, published)
      ensures published <= at <= |items| && forall k | 0 <= k < at :: env(k).codec == Encodes
      ensures exit.Done? ==> published == at == |items| && !latched
      ensures exit.Latched? <==> old(latched)
      ensures exit.PublishFailed? ==> !AllClean(spans) || (at < |items| && env(at).stage == StageLatched)
      ensures exit.CodecError? ==> published == at < |items| && env(at).codec == Rejects
      ensures exit.Panicked? ==> at < |items| && env(at).codec == Panics
      ensures exit.Full? ==> published == at < |items| && (!env(at).admitted || (env(at).cycles && !env(at).cycled))
      ensures exit.StageError? ==> published == at < |items| && env(at).stage != Staged
      ensures !old(latched) && (forall k | 0 <= k < |items| :: Welcome(env(k))) && AllClean(spans) ==> exit.Done?
      ensures policy.Every? && old(unsynced) < policy.n ==> peak <= policy.n
    {
      published, exit, at, peak := 0, Done, 0, unsynced;
      if latched {
        return published, Latched, 0, peak;
      }
      var i, spansRun := 0, 0;
      ghost var before := log;
      assert Exactly(before, items, 0);
      hide Exactly;
      hide Clean;
      hide AllClean;
      hide InStep;
      Restart(before, items, 0);
      while i < |items|
        invariant 0 <= i <= |items| && InStep(before, items, published, i) && !latched
        invariant forall k | 0 <= k < i :: env(k).codec == Encodes
        invariant policy.Every? && old(unsynced) < policy.n ==> unsynced + |pending| < policy.n && peak <= policy.n
      {
        var a := env(i);
        at := i;
        CleanAt(spans, spansRun);
        if a.codec == Panics || (latched && a.codec == Encodes) {
          GiveUp(before, items, published, i);
          exit := if a.codec == Panics then Panicked else Latched;
          return;
        }
        if a.codec == Rejects || !a.admitted {
          var now, ok := Publish(before, items, published, i, spans(spansRun));
          published := now;
          exit := if !ok then PublishFailed else if a.codec == Rejects then CodecError else Full;
          return;
        }
        if a.cycles {
          var now, ok := Publish(before, items, published, i, spans(spansRun));
          published, spansRun := now, spansRun + 1;
          CleanAt(spans, spansRun);
          if !ok || !a.cycled {
            exit := if ok then Full else PublishFailed;
            return;
          }
          Restart(before, items, published);
        }
        if a.stage != Staged {
          latched := latched || a.stage == StageLatched;
          var now, ok := Publish(before, items, published, i, spans(spansRun));
          published := now;
          exit := if ok then StageError else PublishFailed;
          return;
        }
        Stage(before, items, published, i, items[i]);
        i := i + 1;
        at := i;
        peak := if unsynced + |pending| > peak then unsynced + |pending| else peak;
        if policy.Every? && unsynced + |pending| >= policy.n {
          var now, ok := Publish(before, items, published, i, spans(spansRun));
          published, spansRun := now, spansRun + 1;
          if !ok {
            exit := PublishFailed;
            return;
          }
          Restart(before, items, published);
        }
      }
      CleanAt(spans, spansRun);
      var now, ok := Publish(before, items, published, i, spans(spansRun));
      at, published := |items|, now;
      if !ok {
        exit := PublishFailed;
      }
    }

    lemma CleanAt(spans: nat -> SpanAns, k: nat)
      ensures AllClean(spans) ==> Clean(spans(k))
    {
    }

    method Stage(ghost before: seq<T>, ghost items: seq<T>, ghost published: nat, ghost i: nat, item: T)
      requires InStep(before, items, published, i) && i < |items| && items[i] == item
      modifies this`pending
      ensures InStep(before, items, published, i + 1) && |pending| == |old(pending)| + 1
    {
      pending := pending + [item];
    }

    /** A staged tail given up: what was published stands. */
    method GiveUp(ghost before: seq<T>, ghost items: seq<T>, ghost published: nat, ghost i: nat)
      requires InStep(before, items, published, i)
      modifies this`inFlight, this`pending
      ensures Exactly(before, items, published)
    {
      DiscardStaged();
    }

    lemma Restart(before: seq<T>, items: seq<T>, published: nat)
      requires Exactly(before, items, published)
      ensures InStep(before, items, published, published) && pending == []
    {
    }
  }
}
