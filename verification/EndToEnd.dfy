/** From the schedulers of the decode nodes, over the wire, through the router's fallback loop,
    to what the client reads. */
module EndToEnd {
  import opened Prelude
  import opened Batching
  import opened BatchRuns
  import opened DecodeService
  import opened Frames
  import PoolRuns
  import opened Router
  import Routing
  import S = Sse

  /** A sent stream as text. */
  function Wire(codec: S.Codec<Frame>, outs: seq<Out>): string {
    if |outs| == 0 then ""
    else
      var text := match outs[0] case Sse(f) => codec.encode(f) case Done => S.DONE_TEXT;
      S.Data(text) + Wire(codec, outs[1..])
  }

  /** How an attempt went: no connection, or a node that ran these events, held the request as
      this sequence, and had `cut` characters of its response reach the router. */
  datatype Contact =
    | Refused
    | Reached(cfg: Config, total: real, policy: string, events: seq<Event>, s: Seq, cut: nat)

  /** What the router asks for; `fallbackTokens` stands in if it names no token limit. */
  datatype Payload = Payload(call: DecodeRequest, store: map<string, Meta>, model: (string, int) -> string, fallbackTokens: int)

  /** The request a node makes of the payload, as `DecodeServer.Accept` leaves it. */
  ghost predicate Asked(p: Payload, cfg: Config, r: Request) {
    var w := p.call;
    && cfg.model == p.model && (w.maxTokens != 0 || cfg.defaultTokens == p.fallbackTokens)
    && r == Request(r.id, w.session, w.kv, if w.maxTokens == 0 then cfg.defaultTokens else w.maxTokens,
                    if w.size <= 0.0 && w.kv in p.store then p.store[w.kv].size else w.size,
                    if w.size <= 0.0 && w.kv in p.store then p.store[w.kv].tokens else w.promptTokens)
  }

  ghost predicate Delivers(codec: S.Codec<Frame>, p: Payload, how: Contact, frames: seq<Frame>) {
    match how
    case Refused => frames == []
    case Reached(cfg, total, policy, es, s, cut) =>
      && total >= 0.0 && IsRun(cfg, Boot(PoolRuns.Fresh(total, policy)), es)
      && s in Everyone(After(cfg, Boot(PoolRuns.Fresh(total, policy)), es).node)
      && Asked(p, cfg, s.req)
      && cut <= |Wire(codec, Relayed(s.out))|
      && frames == S.Parse(codec, S.Lines(Wire(codec, Relayed(s.out))[..cut]))
  }

  /** How many tokens the payload asks for, and from which position on. */
  function Wanted(p: Payload): int {
    var m := if p.call.maxTokens == 0 then p.fallbackTokens else p.call.maxTokens;
    if m > 1 then m else 1
  }

  function Start(p: Payload): int {
    if p.call.size <= 0.0 && p.call.kv in p.store then p.store[p.call.kv].tokens else p.call.promptTokens
  }

  /** The one stream the payload stands for. */
  function SoloFrames(p: Payload): (r: seq<Frame>)
    ensures |r| == Wanted(p) + 1
  {
    seq(Wanted(p) + 1, i requires 0 <= i <= Wanted(p) =>
      if i < Wanted(p) then Token(Chunk(p.model(p.call.session, Start(p) + i), i, None))
      else Token(Chunk("", Wanted(p), Some("length"))))
  }

  function SoloTokens(p: Payload): (r: seq<Frame>)
    ensures r <= SoloFrames(p) && |r| == |SoloFrames(p)| - 1
  {
    SoloFrames(p)[..|SoloFrames(p)| - 1]
  }

  lemma AskedIsSolo(p: Payload, cfg: Config, r: Request)
    requires Asked(p, cfg, r)
    ensures AsFrames(Solo(cfg, r)) == SoloFrames(p)
  {
    var n := Need(r);
    assert n == Wanted(p) && r.promptTokens == Start(p) && r.session == p.call.session;
    forall i | 0 <= i <= n ensures AsFrames(Solo(cfg, r))[i] == SoloFrames(p)[i] {
      assert Solo(cfg, r)[i] == if i < n then Chunk(p.model(p.call.session, Start(p) + i), i, None) else Chunk("", n, Some("length"));
    }
  }

  lemma SoloFramesEnd(p: Payload)
    ensures var f := SoloFrames(p); IsLast(f[|f| - 1]) && forall i :: 0 <= i < |f| - 1 ==> !IsLast(f[i])
  {
  }

  // ------------------------------------------------------------------ the wire

  lemma {:induction false} WireOpen(codec: S.Codec<Frame>, fs: seq<Frame>)
    ensures Wire(codec, ToOut(fs)) == S.Render(codec, fs)
  {
    if |fs| == 0 {
    } else {
      assert ToOut(fs)[1..] == ToOut(fs[1..]);
      WireOpen(codec, fs[1..]);
    }
  }

  lemma {:induction false} WireClosed(codec: S.Codec<Frame>, fs: seq<Frame>)
    ensures Wire(codec, ToOut(fs) + [Done]) == S.Render(codec, fs) + S.Data(S.DONE_TEXT)
  {
    var outs := ToOut(fs) + [Done];
    if |fs| == 0 {
      assert outs == [Done] && outs[1..] == [];
    } else {
      assert outs[1..] == ToOut(fs[1..]) + [Done];
      WireClosed(codec, fs[1..]);
    }
  }

  /** Whatever part of a node's response arrives, the router reads a prefix of the log. */
  lemma CutReadsPrefix(codec: S.Codec<Frame>, fs: seq<Frame>, done: bool, cut: nat)
    requires S.Faithful(codec) && S.RejectsTruncation(codec)
    requires cut <= |Wire(codec, ToOut(fs) + if done then [Done] else [])|
    ensures S.Parse(codec, S.Lines(Wire(codec, ToOut(fs) + if done then [Done] else [])[..cut])) <= fs
  {
    var whole := S.Render(codec, fs) + S.Data(S.DONE_TEXT);
    if done {
      WireClosed(codec, fs);
    } else {
      WireOpen(codec, fs);
      assert ToOut(fs) + [] == ToOut(fs);
      assert whole[..cut] == S.Render(codec, fs)[..cut];
    }
    S.CutGivesPrefix(codec, fs, cut);
  }

  // -------------------------------------------------------------- one attempt

  /** The request's log on a node, as frames. */
  lemma LogShape(p: Payload, how: Contact)
    requires how.Reached? && how.total >= 0.0 && IsRun(how.cfg, Boot(PoolRuns.Fresh(how.total, how.policy)), how.events)
    requires how.s in Everyone(After(how.cfg, Boot(PoolRuns.Fresh(how.total, how.policy)), how.events).node)
    requires Asked(p, how.cfg, how.s.req)
    ensures var log := AsFrames(how.s.out); log <= SoloFrames(p) || log == [Token(OomChunk())]
    ensures how.policy != "none" && how.s.out != [] ==> (how.s.out == [OomChunk()] <==> how.s.req.size > how.total)
  {
    StreamsAreSolo(how.cfg, how.total, how.policy, how.events, how.s);
    AskedIsSolo(p, how.cfg, how.s.req);
    var log, solo := AsFrames(how.s.out), AsFrames(Solo(how.cfg, how.s.req));
    if how.s.out == [OomChunk()] {
      assert log == [Token(OomChunk())];
    } else {
      assert forall i :: 0 <= i < |log| ==> log[i] == solo[i];
    }
  }

  /** A prefix of a log: all of it if it holds the finish frame, else tokens only. */
  lemma PrefixShape(p: Payload, log: seq<Frame>, frames: seq<Frame>)
    requires frames <= log && (log <= SoloFrames(p) || log == [Token(OomChunk())])
    ensures Shown(frames) == frames
    ensures !Complete(frames) ==> frames <= SoloTokens(p)
    ensures Complete(frames) ==> frames == log && (frames == SoloFrames(p) || frames == [Token(OomChunk())])
  {
    SoloFramesEnd(p);
    var n := |SoloFrames(p)| - 1;
    if Complete(frames) {
      var i :| 0 <= i < |frames| && IsLast(frames[i]);
      assert log <= SoloFrames(p) ==> i == n;
      ShownAll(frames);
    } else {
      ShownNone(frames);
      var solo, oom := SoloFrames(p), [Token(OomChunk())];
      assert IsLast(solo[n]) && IsLast(oom[0]);
      assert Complete(solo) && Complete(oom);
      assert |frames| == |log| ==> frames == log;
      assert frames != solo && frames != oom;
    }
  }

  /** One attempt gives tokens of the solo stream, or all of it, or the single oom frame; on a node
      that can evict, oom means exactly that the request is larger than the node's pool. */
  lemma AttemptShape(codec: S.Codec<Frame>, p: Payload, how: Contact, frames: seq<Frame>)
    requires S.Faithful(codec) && S.RejectsTruncation(codec) && Delivers(codec, p, how, frames)
    ensures Shown(frames) == frames
    ensures !Complete(frames) ==> frames <= SoloTokens(p)
    ensures Complete(frames) ==> how.Reached? && (frames == SoloFrames(p) || frames == [Token(OomChunk())])
    ensures Complete(frames) && how.policy != "none" ==>
      (frames == [Token(OomChunk())] <==> how.s.req.size > how.total)
  {
    match how
    case Refused =>
    case Reached(cfg, total, policy, es, s, cut) =>
      var log := AsFrames(s.out);
      RelayIsExact(cfg, total, policy, es, s);
      CutReadsPrefix(codec, log, s in After(cfg, Boot(PoolRuns.Fresh(total, policy)), es).node.closed, cut);
      LogShape(p, how);
      PrefixShape(p, log, frames);
      if Complete(frames) {
        assert log == [Token(OomChunk())] <==> s.out == [OomChunk()] by {
          assert |log| == 1 ==> log[0] == Token(s.out[0]);
        }
      }
  }

  // ------------------------------------------------------------------ the client

  /** The frames of several attempts, one after the other. */
  function Joined(answers: seq<Answer>): seq<Frame> {
    if |answers| == 0 then [] else Joined(answers[..|answers| - 1]) + answers[|answers| - 1].frames
  }

  ghost predicate AllExplained(codec: S.Codec<Frame>, p: Payload, hows: seq<Contact>, answers: seq<Answer>) {
    |hows| == |answers| && forall i :: 0 <= i < |answers| ==> Delivers(codec, p, hows[i], answers[i].frames)
  }

  lemma {:induction false} NothingHidden(answers: seq<Answer>)
    requires forall a :: a in answers ==> Shown(a.frames) == a.frames
    ensures AllShown(answers) == Joined(answers)
  {
    if |answers| == 0 {
    } else {
      NothingHidden(answers[..|answers| - 1]);
    }
  }

  /** What the router gets of one attempt: some tokens of the solo stream, all of it, or the oom frame. */
  ghost predicate IsPiece(p: Payload, a: Answer) {
    && Shown(a.frames) == a.frames
    && if Complete(a.frames) then a.frames == SoloFrames(p) || a.frames == [Token(OomChunk())] else a.frames <= SoloTokens(p)
  }

  lemma ArePieces(codec: S.Codec<Frame>, p: Payload, hows: seq<Contact>, answers: seq<Answer>)
    requires S.Faithful(codec) && S.RejectsTruncation(codec) && AllExplained(codec, p, hows, answers)
    ensures forall a :: a in answers ==> IsPiece(p, a)
  {
    forall a | a in answers ensures IsPiece(p, a) {
      var i :| 0 <= i < |answers| && answers[i] == a;
      AttemptShape(codec, p, hows[i], answers[i].frames);
    }
  }

  /** What the last attempt adds: the whole solo stream or the oom frame if it served,
      else some more tokens and one error frame. */
  function LastPiece(a: Answer): seq<Frame> {
    a.frames + if Complete(a.frames) then [] else [DecodeFailed(a.error)]
  }

  /** The stream the client reads: p1 + ... + pk + last. Each pi, one per failed attempt, is a
      token-only prefix of one and the same solo stream; last is that stream in full, a single oom
      frame, or one more such prefix and a single error frame, with finish reason to match. */
  ghost predicate IsClientStream(p: Payload, answers: seq<Answer>, body: seq<Frame>) {
    |answers| > 0 && var n := |answers| - 1;
    && body == Joined(answers[..n]) + LastPiece(answers[n]) && |body| > 0
    && (forall i :: 0 <= i < n ==> answers[i].frames <= SoloTokens(p))
    && IsLastPiece(p, answers[n], body[|body| - 1])
    && (forall i :: 0 <= i < |body| ==> (HasFinish(body[i]) <==> i == |body| - 1))
  }

  ghost predicate IsLastPiece(p: Payload, a: Answer, end: Frame) {
    if Complete(a.frames) then (
      || (a.frames == SoloFrames(p) && FinishOf(end) == Some("length"))
      || (a.frames == [Token(Chunk("", 0, Some("oom")))] && FinishOf(end) == Some("oom")))
    else
      a.frames <= SoloTokens(p) && end == Failure("decode failed: " + a.error) && FinishOf(end) == Some("error")
  }

  lemma LastPieceIs(p: Payload, a: Answer)
    requires IsPiece(p, a)
    ensures var last := LastPiece(a); |last| > 0 && IsLastPiece(p, a, last[|last| - 1])
  {
  }

  lemma BodyJoins(p: Payload, answers: seq<Answer>)
    requires |answers| > 0 && forall a :: a in answers ==> IsPiece(p, a)
    ensures var n := |answers| - 1; Body(answers) == Joined(answers[..n]) + LastPiece(answers[n])
  {
    var n := |answers| - 1;
    assert answers[n] in answers && forall a :: a in answers[..n] ==> a in answers;
    NothingHidden(answers[..n]);
  }

  lemma BodyFinish(answers: seq<Answer>)
    requires |answers| > 0 && forall i :: 0 <= i < |answers| - 1 ==> !Complete(answers[i].frames)
    ensures var body := Body(answers); |body| > 0 && forall i :: 0 <= i < |body| ==> (HasFinish(body[i]) <==> i == |body| - 1)
  {
    BodyShape(answers);
    CompleteIff(Body(answers));
  }

  lemma BodyIsClientStream(p: Payload, answers: seq<Answer>)
    requires |answers| > 0 && forall i :: 0 <= i < |answers| - 1 ==> !Complete(answers[i].frames)
    requires forall a :: a in answers ==> IsPiece(p, a)
    ensures IsClientStream(p, answers, Body(answers))
  {
    var n, last := |answers| - 1, LastPiece(answers[|answers| - 1]);
    assert answers[n] in answers && forall i :: 0 <= i < n ==> answers[i] in answers;
    BodyJoins(p, answers);
    BodyFinish(answers);
    LastPieceIs(p, answers[n]);
    assert Body(answers)[|Body(answers)| - 1] == last[|last| - 1];
  }

  /** ... and what its parser gives back is exactly that. */
  lemma ClientParses(codec: S.Codec<Frame>, body: seq<Frame>)
    requires S.Faithful(codec)
    ensures S.Parse(codec, S.Lines(Wire(codec, ToOut(body) + [Done]))) == body
  {
    WireClosed(codec, body);
    S.RoundTrip(codec, body, "");
    assert S.Render(codec, body) + S.Data(S.DONE_TEXT) + "" == S.Render(codec, body) + S.Data(S.DONE_TEXT);
  }

  /** The whole path, from the schedulers of the nodes tried to the reply of a request that reaches
      the loop, whose outcome is as `RouterService.Generate` leaves it. */
  lemma ClientSees(codec: S.Codec<Frame>, p: Payload, session: string, urls: seq<string>, first: Routing.Backend, world: nat -> Answer,
                   hows: seq<Contact>, tried: seq<Routing.Backend>, sent: seq<Out>, pins: Routing.Pins, before: Tally, after: Tally)
    requires S.Faithful(codec) && S.RejectsTruncation(codec)
    requires IsOutcome(session, urls, first, world, tried, sent, pins, before, after)
    requires AllExplained(codec, p, hows, Heard(world, |tried|))
    ensures |sent| > 0 && sent[|sent| - 1] == Done
    ensures var body := S.Parse(codec, S.Lines(Wire(codec, sent)));
      sent == ToOut(body) + [Done] && IsClientStream(p, Heard(world, |tried|), body)
  {
    var answers := Heard(world, |tried|);
    forall i | 0 <= i < |answers| - 1 ensures !Complete(answers[i].frames) {
      assert TookOver(urls, answers, tried, i + 1);
    }
    ArePieces(codec, p, hows, answers);
    BodyIsClientStream(p, answers);
    ClientParses(codec, Body(answers));
  }
}
