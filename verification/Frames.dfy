/** Stream frames as both relays see them, and the part of a stream that gets relayed. */
module Frames {
  import opened Prelude
  import Batching

  /** A parsed frame: a token chunk, or the router's own error object. */
  datatype Frame = Token(chunk: Batching.Chunk) | Failure(error: string)

  datatype Out = Sse(frame: Frame) | Done

  function FinishOf(f: Frame): Option<string> {
    match f case Token(c) => c.finish case Failure(_) => Some("error")
  }

  predicate IsLast(f: Frame) {
    FinishOf(f).Some?
  }

  predicate HasToken(f: Frame) {
    f.Token? && |f.chunk.token| > 0
  }

  /** The frames of an attempt that reach the client: up to the first with a finish reason. */
  function Shown(frames: seq<Frame>): seq<Frame> {
    if |frames| == 0 then [] else if IsLast(frames[0]) then [frames[0]] else [frames[0]] + Shown(frames[1..])
  }

  predicate Complete(frames: seq<Frame>) {
    exists i :: 0 <= i < |frames| && IsLast(frames[i])
  }

  predicate AnyToken(frames: seq<Frame>) {
    exists i :: 0 <= i < |frames| && HasToken(frames[i])
  }

  function ToOut(frames: seq<Frame>): (r: seq<Out>)
    ensures |r| == |frames| && forall i :: 0 <= i < |frames| ==> r[i] == Sse(frames[i])
  {
    seq(|frames|, i requires 0 <= i < |frames| => Sse(frames[i]))
  }

  lemma ToOutConcat(a: seq<Frame>, b: seq<Frame>)
    ensures ToOut(a + b) == ToOut(a) + ToOut(b)
  {
  }

  lemma {:induction false} ShownNone(frames: seq<Frame>)
    requires !Complete(frames)
    ensures Shown(frames) == frames && forall i :: 0 <= i < |frames| ==> !IsLast(frames[i])
  {
    if |frames| == 0 {
    } else {
      assert !IsLast(frames[0]);
      forall i | 0 <= i < |frames[1..]| ensures !IsLast(frames[1..][i]) {
        assert frames[1..][i] == frames[i + 1];
      }
      ShownNone(frames[1..]);
    }
  }

  lemma {:induction false} ShownComplete(frames: seq<Frame>)
    requires Complete(frames)
    ensures var s := Shown(frames);
      |s| > 0 && s <= frames && IsLast(s[|s| - 1]) && forall i :: 0 <= i < |s| - 1 ==> !IsLast(s[i])
  {
    if !IsLast(frames[0]) {
      var i :| 0 <= i < |frames| && IsLast(frames[i]);
      assert frames[1..][i - 1] == frames[i];
      ShownComplete(frames[1..]);
      var s := Shown(frames[1..]);
      assert frames == [frames[0]] + frames[1..];
    }
  }

  /** A token that is not empty arrives before the stream is over, or with its last frame. */
  ghost predicate ShowsToken(frames: seq<Frame>) {
    exists i: nat :: TokenAt(frames, i)
  }

  ghost predicate TokenAt(frames: seq<Frame>, i: nat) {
    && i < |frames| && frames[i].Token? && frames[i].chunk.token != ""
    && forall j :: 0 <= j < i ==> frames[j].Token? && frames[j].chunk.finish.None?
  }

  lemma ShownIsPrefix(frames: seq<Frame>)
    ensures var s := Shown(frames);
      && s <= frames && (forall i :: 0 <= i < |s| - 1 ==> !IsLast(frames[i]))
      && if Complete(frames) then |s| > 0 && IsLast(frames[|s| - 1]) else s == frames
  {
    if Complete(frames) {
      ShownComplete(frames);
    } else {
      ShownNone(frames);
    }
  }

  lemma ShowsTokenIff(frames: seq<Frame>)
    ensures AnyToken(Shown(frames)) <==> ShowsToken(frames)
  {
    var s := Shown(frames);
    ShownIsPrefix(frames);
    assert forall j :: 0 <= j < |s| ==> s[j] == frames[j];
    if AnyToken(s) {
      var i: nat :| i < |s| && HasToken(s[i]);
      assert forall j :: 0 <= j < i ==> !IsLast(s[j]) && s[j] == frames[j];
      assert TokenAt(frames, i);
    }
    if ShowsToken(frames) {
      var i: nat :| TokenAt(frames, i);
      assert forall j :: 0 <= j < i ==> !IsLast(frames[j]);
      assert i < |s|;
      assert HasToken(s[i]);
    }
  }

  predicate HasFinish(f: Frame) {
    f.Failure? || f.chunk.finish.Some?
  }

  /** What goes out for these frames: all up to and with the first that ends a stream, and Done after
      it; if none does, just all of them. */
  ghost predicate IsRelayed(frames: seq<Frame>, sent: seq<Out>, finished: bool) {
    var n := |sent| - if finished then 1 else 0;
    && (finished <==> exists i :: 0 <= i < |frames| && HasFinish(frames[i]))
    && 0 <= n <= |frames| && (forall i :: 0 <= i < n ==> sent[i] == Sse(frames[i]))
    && (forall i :: 0 <= i < n - 1 ==> !HasFinish(frames[i]))
    && if finished then n > 0 && HasFinish(frames[n - 1]) && sent[n] == Done else n == |frames|
  }

  lemma CompleteIff(frames: seq<Frame>)
    ensures forall i :: 0 <= i < |frames| ==> (IsLast(frames[i]) <==> HasFinish(frames[i]))
    ensures Complete(frames) <==> exists i :: 0 <= i < |frames| && HasFinish(frames[i])
  {
  }

  lemma ShownIsRelayed(frames: seq<Frame>)
    ensures IsRelayed(frames, ToOut(Shown(frames)) + if Complete(frames) then [Done] else [], Complete(frames))
  {
    var s := Shown(frames);
    ShownIsPrefix(frames);
    CompleteIff(frames);
    if Complete(frames) {
      assert IsRelayed(frames, ToOut(s) + [Done], true);
    } else {
      assert ToOut(s) + [] == ToOut(s);
      assert IsRelayed(frames, ToOut(s), false);
    }
  }

  lemma CompleteGrows(f: Frame, rest: seq<Frame>)
    ensures Complete(rest) ==> Complete([f] + rest)
  {
    if Complete(rest) {
      var j :| 0 <= j < |rest| && IsLast(rest[j]);
      assert IsLast(([f] + rest)[j + 1]);
    }
  }

  lemma {:induction false} ShownStep(frames: seq<Frame>, i: nat)
    requires i < |frames| && !Complete(frames[..i])
    ensures IsLast(frames[i]) ==> Shown(frames) == frames[..i + 1]
    ensures Complete(frames[..i + 1]) <==> IsLast(frames[i])
    ensures AnyToken(frames[..i + 1]) <==> AnyToken(frames[..i]) || HasToken(frames[i])
  {
    var head, more := frames[..i], frames[..i + 1];
    assert more[i] == frames[i] && forall j :: 0 <= j < i ==> more[j] == head[j];
    if i == 0 {
    } else {
      var rest := frames[1..];
      assert !IsLast(head[0]);
      CompleteGrows(frames[0], rest[..i - 1]);
      assert [frames[0]] + rest[..i - 1] == head;
      ShownStep(rest, i - 1);
      assert rest[i - 1] == frames[i];
      assert more == [frames[0]] + rest[..i];
    }
  }
}
