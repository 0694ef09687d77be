/** The decode endpoint: it resolves the KV size, submits, and relays the output queue. */
module DecodeService {
  import opened Batching
  import opened BatchRuns
  import opened Frames
  import PoolRuns

  /** What the metadata store keeps about one KV cache. */
  datatype Meta = Meta(size: real, tokens: int)

  function AsFrames(chunks: seq<Chunk>): (r: seq<Frame>)
    ensures |r| == |chunks| && forall i :: 0 <= i < |chunks| ==> r[i] == Token(chunks[i])
  {
    seq(|chunks|, i requires 0 <= i < |chunks| => Token(chunks[i]))
  }

  /** What the relay has sent once it has read this much of the queue. */
  function Relayed(log: seq<Chunk>): seq<Out> {
    ToOut(Shown(AsFrames(log))) + if Complete(AsFrames(log)) then [Done] else []
  }

  lemma ShownAll(frames: seq<Frame>)
    requires |frames| > 0 && IsLast(frames[|frames| - 1]) && forall i :: 0 <= i < |frames| - 1 ==> !IsLast(frames[i])
    ensures Complete(frames) && Shown(frames) == frames
  {
    ShownComplete(frames);
    var s := Shown(frames);
    assert s[|s| - 1] == frames[|s| - 1];
  }

  lemma SoloShape(cfg: Config, r: Request)
    ensures var f := AsFrames(Solo(cfg, r));
      IsLast(f[|f| - 1]) && forall i :: 0 <= i < |f| - 1 ==> !IsLast(f[i])
  {
  }

  /** A sequence's log holds a finish chunk exactly when the scheduler has let go of it,
      and then as its last entry: the relay drops nothing. */
  lemma RelayDropsNothing(cfg: Config, n: Node, s: Seq)
    requires GoodNode(cfg, n) && s in Everyone(n)
    ensures Shown(AsFrames(s.out)) == AsFrames(s.out)
    ensures Complete(AsFrames(s.out)) <==> s in n.closed
  {
    var f := AsFrames(s.out);
    SoloShape(cfg, s.req);
    if s in n.closed {
      assert IsClosed(cfg, n.pool, s);
      ShownAll(f);
    } else {
      if s in n.active {
        assert IsDecoding(cfg, n.pool.total, s);
      } else {
        assert IsWaiting(s);
      }
      assert !Complete(f);
      ShownNone(f);
    }
  }

  /** In every run the relay of a request has sent its whole log so far, and Done exactly once the
      scheduler has closed it. */
  lemma RelayIsExact(cfg: Config, total: real, policy: string, es: seq<Event>, s: Seq)
    requires total >= 0.0 && IsRun(cfg, Boot(PoolRuns.Fresh(total, policy)), es)
    requires s in Everyone(After(cfg, Boot(PoolRuns.Fresh(total, policy)), es).node)
    ensures Relayed(s.out) == ToOut(AsFrames(s.out))
      + if s in After(cfg, Boot(PoolRuns.Fresh(total, policy)), es).node.closed then [Done] else []
  {
    BootIsGood(cfg, total, policy);
    RunStaysGood(cfg, Boot(PoolRuns.Fresh(total, policy)), es);
    RelayDropsNothing(cfg, After(cfg, Boot(PoolRuns.Fresh(total, policy)), es).node, s);
  }

  class DecodeServer {
    const scheduler: DecodeScheduler
    var served: nat
    var firstTokens: nat

    constructor (scheduler: DecodeScheduler)
      ensures this.scheduler == scheduler && served == 0 && firstTokens == 0
    {
      this.scheduler, served, firstTokens := scheduler, 0, 0;
    }

    /** The call up to `submit`: size and token count come from the metadata if and only if the caller
        gives no positive size and there is metadata. The two defaults for the token limit, here
        and in `submit`, act as one. */
    method Accept(id: string, w: DecodeRequest, store: map<string, Meta>) returns (s: Sequence)
      requires scheduler.Valid() && id !in Known(scheduler.View())
      modifies scheduler
      ensures scheduler.Valid() && fresh(s) && scheduler.waiting == old(scheduler.waiting) + [s]
      ensures s.req == Request(id, w.session, w.kv, if w.maxTokens == 0 then scheduler.cfg.defaultTokens else w.maxTokens,
                               if w.size <= 0.0 && w.kv in store then store[w.kv].size else w.size,
                               if w.size <= 0.0 && w.kv in store then store[w.kv].tokens else w.promptTokens)
      ensures s.generated == 0 && s.out == []
      ensures scheduler.View() == Submitted(old(scheduler.View()), s.req)
    {
      var maxTokens := if w.maxTokens == 0 then scheduler.cfg.defaultTokens else w.maxTokens;
      var size, promptTokens := w.size, w.promptTokens;
      if size <= 0.0 {
        if w.kv in store {
          size, promptTokens := store[w.kv].size, store[w.kv].tokens;
        }
      }
      s := scheduler.Submit(id, DecodeRequest(w.session, w.kv, promptTokens, size, maxTokens));
    }

    /** The relay loop over what is on the queue; it stops at a finish chunk, or to wait for more. */
    method Relay(log: seq<Chunk>) returns (sent: seq<Out>)
      modifies this`served, this`firstTokens
      ensures sent == Relayed(log)
      ensures served == old(served) + if Complete(AsFrames(log)) then 1 else 0
      ensures firstTokens == old(firstTokens) + if AnyToken(Shown(AsFrames(log))) then 1 else 0
    {
      ghost var frames := AsFrames(log);
      sent := [];
      var first, i := true, 0;
      while i < |log|
        invariant i <= |log| && !Complete(frames[..i]) && sent == ToOut(frames[..i])
        invariant first == !AnyToken(frames[..i])
        invariant served == old(served) && firstTokens == old(firstTokens) + if first then 0 else 1
      {
        var chunk := log[i];
        ShownStep(frames, i);
        assert frames[..i + 1] == frames[..i] + [Token(chunk)];
        if first && |chunk.token| > 0 {
          firstTokens := firstTokens + 1;
          first := false;
        }
        sent := sent + [Sse(Token(chunk))];
        if chunk.finish.Some? {
          served := served + 1;
          sent := sent + [Done];
          assert IsLast(frames[i]) && Complete(frames);
          return;
        }
        i := i + 1;
      }
      assert frames[..|log|] == frames;
      ShownNone(frames);
      assert sent + [] == sent;
    }
  }
}
