/** Server-sent events: the frame printer, and the router's line parser that reads it back. */
module Sse {
  import opened Prelude

  /** JSON as far as the framing sees it. */
  datatype Codec<!F> = Codec(encode: F -> string, decode: string -> Option<F>)

  // ------------------------------------------------------------------ printing

  function Data(text: string): string {
    "data: " + text + "\n\n"
  }

  const DONE_TEXT := "[DONE]"

  function Render<F>(codec: Codec<F>, fs: seq<F>): string {
    if |fs| == 0 then "" else Data(codec.encode(fs[0])) + Render(codec, fs[1..])
  }

  // ------------------------------------------------------------------- parsing

  /** Where text is broken into lines; all of these end a line for `aiter_lines`. */
  predicate IsBreak(c: char) {
    c in ['\n', '\r', '\U{0B}', '\U{0C}', '\U{1C}', '\U{1D}', '\U{1E}', '\U{85}', '\U{2028}', '\U{2029}']
  }

  /** What `strip` removes. */
  predicate IsSpace(c: char) {
    IsBreak(c) || c in [' ', '\t', '\U{1F}', '\U{A0}', '\U{1680}', '\U{202F}', '\U{205F}', '\U{3000}'] || '\U{2000}' <= c <= '\U{200A}'
  }

  /** By code point: what breaks lines, and what of ASCII is white space. */
  lemma WhiteSpace(c: char)
    ensures var u := c as int;
      && (IsBreak(c) <==> 10 <= u <= 13 || 28 <= u <= 30 || u == 0x85 || 0x2028 <= u <= 0x2029)
      && (u < 128 ==> (IsSpace(c) <==> 9 <= u <= 13 || 28 <= u <= 32))
  {
  }

  /** Position of the first line break, or the length. */
  function Break(s: string): (k: nat)
    ensures k <= |s|
    ensures forall i :: 0 <= i < k ==> !IsBreak(s[i])
    ensures k < |s| ==> IsBreak(s[k])
  {
    if |s| == 0 || IsBreak(s[0]) then 0 else 1 + Break(s[1..])
  }

  function Lines(s: string): seq<string>
    decreases |s|
  {
    var k := Break(s);
    if k == |s| then [s] else [s[..k]] + Lines(s[k + 1..])
  }

  function StripLeft(s: string): string {
    if |s| > 0 && IsSpace(s[0]) then StripLeft(s[1..]) else s
  }

  function StripRight(s: string): (r: string)
    ensures r <= s
  {
    if |s| > 0 && IsSpace(s[|s| - 1]) then StripRight(s[..|s| - 1]) else s
  }

  function Strip(s: string): string {
    StripRight(StripLeft(s))
  }

  datatype Verdict<F> = Skip | Stop | Yield(frame: F)

  /** One turn of the parser's loop. */
  function Judge<F>(codec: Codec<F>, line: string): Verdict<F> {
    if |line| == 0 || !("data:" <= line) then Skip
    else
      var data := Strip(line[5..]);
      if data == DONE_TEXT then Stop
      else match codec.decode(data) case None => Skip case Some(f) => Yield(f)
  }

  function Parse<F>(codec: Codec<F>, lines: seq<string>): seq<F> {
    if |lines| == 0 then []
    else match Judge(codec, lines[0])
      case Skip => Parse(codec, lines[1..])
      case Stop => []
      case Yield(f) => [f] + Parse(codec, lines[1..])
  }

  /** `_stream_decode`, over the lines of a response. */
  method StreamDecode<F>(codec: Codec<F>, lines: seq<string>) returns (frames: seq<F>)
    ensures frames == Parse(codec, lines)
  {
    frames := [];
    for i := 0 to |lines|
      invariant frames + Parse(codec, lines[i..]) == Parse(codec, lines)
    {
      assert lines[i..][0] == lines[i] && lines[i..][1..] == lines[i + 1..];
      match Judge(codec, lines[i]) {
        case Skip =>
        case Stop =>
          assert frames + [] == frames;
          return;
        case Yield(f) =>
          ConcatAssociates(frames, f, Parse(codec, lines[i + 1..]));
          frames := frames + [f];
      }
    }
    assert frames + [] == frames;
  }

  // --------------------------------------------------------- line by line

  predicate IsData(line: string) {
    "data:" <= line
  }

  /** A line that is foreign, blank, or not JSON makes no difference. */
  lemma {:induction false} ParseSkips<F>(codec: Codec<F>, before: seq<string>, line: string, after: seq<string>)
    requires IsData(line) ==> Strip(line[5..]) != "[DONE]" && codec.decode(Strip(line[5..])) == None
    ensures Parse(codec, before + [line] + after) == Parse(codec, before + after)
  {
    var lines := before + [line] + after;
    if |before| == 0 {
      assert lines[1..] == after == before + after;
    } else {
      assert lines[1..] == before[1..] + [line] + after && (before + after)[1..] == before[1..] + after;
      ParseSkips(codec, before[1..], line, after);
    }
  }

  /** Nothing counts after the end marker. */
  lemma {:induction false} ParseStops<F>(codec: Codec<F>, before: seq<string>, line: string, after: seq<string>)
    requires IsData(line) && Strip(line[5..]) == "[DONE]"
    ensures Parse(codec, before + [line] + after) == Parse(codec, before)
  {
    var lines := before + [line] + after;
    if |before| > 0 {
      assert lines[1..] == before[1..] + [line] + after;
      ParseStops(codec, before[1..], line, after);
    }
  }

  /** Any other line gives its frame, in its place, if no end marker came before. */
  lemma {:induction false} ParseYields<F>(codec: Codec<F>, before: seq<string>, line: string, after: seq<string>, f: F)
    requires IsData(line) && Strip(line[5..]) != "[DONE]" && codec.decode(Strip(line[5..])) == Some(f)
    requires forall i :: 0 <= i < |before| && IsData(before[i]) ==> Strip(before[i][5..]) != "[DONE]"
    ensures Parse(codec, before + [line] + after) == Parse(codec, before) + [f] + Parse(codec, after)
  {
    var lines := before + [line] + after;
    if |before| == 0 {
      assert lines[1..] == after;
    } else {
      assert lines[1..] == before[1..] + [line] + after;
      ParseYields(codec, before[1..], line, after, f);
    }
  }

  lemma {:induction false} StripLeftOf(left: string, rest: string)
    requires (forall i :: 0 <= i < |left| ==> IsSpace(left[i])) && (|rest| > 0 ==> !IsSpace(rest[0]))
    ensures StripLeft(left + rest) == rest
  {
    if |left| == 0 {
      assert left + rest == rest;
    } else {
      assert (left + rest)[1..] == left[1..] + rest;
      StripLeftOf(left[1..], rest);
    }
  }

  lemma {:induction false} StripRightOf(rest: string, right: string)
    requires (forall i :: 0 <= i < |right| ==> IsSpace(right[i])) && (|rest| > 0 ==> !IsSpace(rest[|rest| - 1]))
    ensures StripRight(rest + right) == rest
  {
    if |right| == 0 {
      assert rest + right == rest;
    } else {
      var n := |right| - 1;
      assert (rest + right)[..|rest| + n] == rest + right[..n];
      StripRightOf(rest, right[..n]);
    }
  }

  /** Strip takes off the white space at both ends and nothing else. */
  lemma StripIs(left: string, core: string, right: string)
    requires forall i :: 0 <= i < |left| ==> IsSpace(left[i])
    requires forall i :: 0 <= i < |right| ==> IsSpace(right[i])
    requires |core| > 0 && !IsSpace(core[0]) && !IsSpace(core[|core| - 1])
    ensures Strip(left + core + right) == core
  {
    assert left + core + right == left + (core + right);
    StripLeftOf(left, core + right);
    StripRightOf(core, right);
  }

  // ---------------------------------------------------------------- the promises

  /** What is asked of the JSON encoder: objects, on one line, that decode to what was encoded. */
  ghost predicate Faithful<F(!new)>(codec: Codec<F>) {
    forall f :: var e := codec.encode(f);
      && codec.decode(e) == Some(f)
      && |e| >= 2 && e[0] == '{' && e[|e| - 1] == '}'
      && forall i :: 0 <= i < |e| ==> !IsBreak(e[i])
  }

  /** No proper prefix of an object, nor of the end marker, is JSON. */
  ghost predicate RejectsTruncation<F(!new)>(codec: Codec<F>) {
    && (forall f, k :: 0 <= k < |codec.encode(f)| ==> codec.decode(codec.encode(f)[..k]) == None)
    && (forall k :: 0 <= k < |DONE_TEXT| ==> codec.decode(DONE_TEXT[..k]) == None)
  }

  lemma {:induction false} BreakAt(s: string, k: nat)
    requires k <= |s| && (forall i :: 0 <= i < k ==> !IsBreak(s[i])) && (k < |s| ==> IsBreak(s[k]))
    ensures Break(s) == k
  {
    if k == 0 {
    } else {
      BreakAt(s[1..], k - 1);
    }
  }

  lemma LinesSplit(s: string, head: string, tail: string)
    requires |s| > |head| && s[..|head|] == head && s[|head| + 1..] == tail
    requires IsBreak(s[|head|]) && forall i :: 0 <= i < |head| ==> !IsBreak(head[i])
    ensures Lines(s) == [head] + Lines(tail)
  {
    assert Break(s) == |head| by {
      assert forall i :: 0 <= i < |head| ==> s[i] == head[i];
      BreakAt(s, |head|);
    }
  }

  lemma LinesOne(head: string)
    requires forall i :: 0 <= i < |head| ==> !IsBreak(head[i])
    ensures Lines(head) == [head]
  {
    BreakAt(head, |head|);
  }

  lemma StripObject(e: string)
    requires |e| >= 1 && !IsSpace(e[0]) && !IsSpace(e[|e| - 1])
    ensures Strip(" " + e) == e
  {
    assert (" " + e)[1..] == e;
    assert StripLeft(" " + e) == e;
  }

  lemma JudgeFrame<F(!new)>(codec: Codec<F>, f: F)
    requires Faithful(codec)
    ensures Judge(codec, "data: " + codec.encode(f)) == Yield(f)
  {
    var e := codec.encode(f);
    var line := "data: " + e;
    assert line[..5] == "data:";
    assert line[5..] == " " + e;
    StripObject(e);
    assert e[0] != DONE_TEXT[0];
  }

  lemma JudgeDone<F>(codec: Codec<F>)
    ensures Judge(codec, "data: " + DONE_TEXT) == Stop
  {
    var line := "data: " + DONE_TEXT;
    assert line[..5] == "data:" && line[5..] == " " + DONE_TEXT;
    StripObject(DONE_TEXT);
  }

  lemma JoinTwo(a: string, b: string, rest: seq<string>)
    ensures [a] + ([b] + rest) == [a, b] + rest
  {
  }

  lemma DataLines(e: string, rest: string)
    requires forall i :: 0 <= i < |e| ==> !IsBreak(e[i])
    ensures Lines(Data(e) + rest) == ["data: " + e, ""] + Lines(rest)
  {
    var head, blank, s := "data: " + e, ['\n'] + rest, Data(e) + rest;
    LinesSplit(s, head, blank);
    LinesSplit(blank, [], rest);
    JoinTwo(head, [], Lines(rest));
  }

  lemma ParseTwo<F>(codec: Codec<F>, line: string, rest: seq<string>)
    ensures Parse(codec, [line, ""] + rest)
         == match Judge(codec, line) case Skip => Parse(codec, rest) case Stop => [] case Yield(f) => [f] + Parse(codec, rest)
  {
    var ls := [line, ""] + rest;
    assert ls[1..] == [""] + rest && ls[1..][1..] == rest;
  }

  lemma LinesAfterFirst<F(!new)>(codec: Codec<F>, fs: seq<F>, rest: string)
    requires Faithful(codec) && |fs| > 0
    ensures Lines(Render(codec, fs) + rest) == ["data: " + codec.encode(fs[0]), ""] + Lines(Render(codec, fs[1..]) + rest)
  {
    var e := codec.encode(fs[0]);
    assert Render(codec, fs) + rest == Data(e) + (Render(codec, fs[1..]) + rest);
    DataLines(e, Render(codec, fs[1..]) + rest);
  }

  /** The event stream format: a data line and a blank line for each frame. */
  function Events<F>(codec: Codec<F>, fs: seq<F>): seq<string> {
    if |fs| == 0 then [] else ["data: " + codec.encode(fs[0]), ""] + Events(codec, fs[1..])
  }

  lemma DoneLines()
    ensures Lines(Data(DONE_TEXT)) == ["data: [DONE]", "", ""]
  {
    assert Data(DONE_TEXT) == Data(DONE_TEXT) + "";
    DataLines(DONE_TEXT, "");
    LinesOne("");
    assert "data: " + DONE_TEXT == "data: [DONE]";
    assert ["data: [DONE]", ""] + [""] == ["data: [DONE]", "", ""];
  }

  /** What is printed is such events, then the end marker as one more; nothing follows the last break. */
  lemma {:induction false} LinesOfStream<F(!new)>(codec: Codec<F>, fs: seq<F>)
    requires Faithful(codec)
    ensures Lines(Render(codec, fs) + Data(DONE_TEXT)) == Events(codec, fs) + ["data: [DONE]", "", ""]
  {
    var tail := Data(DONE_TEXT);
    if |fs| == 0 {
      assert Render(codec, fs) + tail == tail;
      DoneLines();
    } else {
      LinesAfterFirst(codec, fs, tail);
      LinesOfStream(codec, fs[1..]);
      var first, end := ["data: " + codec.encode(fs[0]), ""], ["data: [DONE]", "", ""];
      assert first + (Events(codec, fs[1..]) + end) == first + Events(codec, fs[1..]) + end;
    }
  }

  /** Round trip: the parser gives back exactly the frames printed before the end marker,
      whatever follows it. Re-framing through the router is therefore the identity. */
  lemma {:induction false} RoundTrip<F(!new)>(codec: Codec<F>, fs: seq<F>, rest: string)
    requires Faithful(codec)
    ensures Parse(codec, Lines(Render(codec, fs) + Data(DONE_TEXT) + rest)) == fs
  {
    if |fs| == 0 {
      assert Render(codec, fs) + Data(DONE_TEXT) + rest == Data(DONE_TEXT) + rest;
      DataLines(DONE_TEXT, rest);
      ParseTwo(codec, "data: " + DONE_TEXT, Lines(rest));
      JudgeDone(codec);
    } else {
      var e, tail := codec.encode(fs[0]), Render(codec, fs[1..]) + Data(DONE_TEXT) + rest;
      assert Render(codec, fs) + Data(DONE_TEXT) + rest == Data(e) + tail;
      DataLines(e, tail);
      ParseTwo(codec, "data: " + e, Lines(tail));
      JudgeFrame(codec, fs[0]);
      RoundTrip(codec, fs[1..], rest);
    }
  }

  // ----------------------------------------------------------- broken connections

  lemma {:induction false} StripLeftSpace(e: string)
    requires |e| > 0 ==> !IsSpace(e[0])
    ensures Strip(" " + e) <= e
  {
    assert (" " + e)[1..] == e;
    assert StripLeft(" " + e) == StripLeft(e) == e;
  }

  /** A line cut off before the payload is complete yields nothing. */
  lemma JudgeCut<F(!new)>(codec: Codec<F>, e: string, k: nat)
    requires k < 6 + |e|
    requires |e| >= 2 && !IsSpace(e[0])
    requires forall j :: 0 <= j < |e| ==> codec.decode(e[..j]) == None
    requires e == DONE_TEXT || e[0] != '['
    ensures Judge(codec, ("data: " + e)[..k]) == Skip
  {
    var line := ("data: " + e)[..k];
    if k >= 5 {
      var j := if k == 5 then 0 else k - 6;
      assert line[..5] == "data:";
      if k == 5 {
        assert line[5..] == "";
        assert Strip("") == "" == e[..0];
      } else {
        assert line[5..] == " " + e[..j];
        StripLeftSpace(e[..j]);
      }
      var data := Strip(line[5..]);
      assert data == e[..|data|] && |data| < |e|;
      assert data != DONE_TEXT by {
        if e != DONE_TEXT && |data| > 0 {
          assert data[0] == e[0];
        }
      }
    } else {
      assert |line| < |"data:"|;
    }
  }

  lemma ParseOne<F>(codec: Codec<F>, line: string)
    ensures Parse(codec, [line]) == match Judge(codec, line) case Yield(f) => [f] case _ => []
  {
    assert [line][1..] == [];
  }

  lemma ParseBlank<F>(codec: Codec<F>, line: string)
    ensures Parse(codec, [line] + [""]) == Parse(codec, [line])
  {
    assert ([line] + [""])[1..] == [""];
    ParseOne(codec, line);
    ParseOne(codec, "");
  }

  /** A truncated frame yields nothing, or the frame itself if only line ends are missing. */
  lemma CutFrame<F(!new)>(codec: Codec<F>, e: string, k: nat)
    requires k < |Data(e)| && |e| >= 2 && !IsSpace(e[0]) && (e == DONE_TEXT || e[0] != '[')
    requires forall i :: 0 <= i < |e| ==> !IsBreak(e[i])
    requires forall j :: 0 <= j < |e| ==> codec.decode(e[..j]) == None
    ensures var got := Parse(codec, Lines(Data(e)[..k]));
      got == if k < 6 + |e| then [] else Parse(codec, ["data: " + e])
  {
    var head := "data: " + e;
    if k <= 6 + |e| {
      assert Data(e)[..k] == head[..k];
      LinesOne(head[..k]);
      if k < 6 + |e| {
        JudgeCut(codec, e, k);
      } else {
        assert head[..k] == head;
      }
    } else {
      var s := Data(e)[..k];
      assert s[..|head|] == head && s[|head| + 1..] == "";
      LinesSplit(s, head, "");
      LinesOne("");
      ParseBlank(codec, head);
    }
  }

  lemma CutDone<F(!new)>(codec: Codec<F>, k: nat)
    requires RejectsTruncation(codec) && k <= |Data(DONE_TEXT)|
    ensures Parse(codec, Lines(Data(DONE_TEXT)[..k])) == []
  {
    JudgeDone(codec);
    if k == |Data(DONE_TEXT)| {
      assert Data(DONE_TEXT)[..k] == Data(DONE_TEXT) + "";
      DataLines(DONE_TEXT, "");
      ParseTwo(codec, "data: " + DONE_TEXT, Lines(""));
    } else {
      CutFrame(codec, DONE_TEXT, k);
      ParseOne(codec, "data: " + DONE_TEXT);
    }
  }

  lemma CutInside<F(!new)>(codec: Codec<F>, f: F, k: nat)
    requires Faithful(codec) && RejectsTruncation(codec) && k < |Data(codec.encode(f))|
    ensures Parse(codec, Lines(Data(codec.encode(f))[..k])) <= [f]
  {
    JudgeFrame(codec, f);
    CutFrame(codec, codec.encode(f), k);
    ParseOne(codec, "data: " + codec.encode(f));
  }

  lemma ParseFirst<F(!new)>(codec: Codec<F>, f: F, rest: string)
    requires Faithful(codec)
    ensures Parse(codec, Lines(Data(codec.encode(f)) + rest)) == [f] + Parse(codec, Lines(rest))
  {
    var e := codec.encode(f);
    DataLines(e, rest);
    ParseTwo(codec, "data: " + e, Lines(rest));
    JudgeFrame(codec, f);
  }

  /** Cut the response anywhere: what the parser yields is a prefix of what was sent. */
  lemma {:induction false} CutGivesPrefix<F(!new)>(codec: Codec<F>, fs: seq<F>, k: nat)
    requires Faithful(codec) && RejectsTruncation(codec)
    requires k <= |Render(codec, fs) + Data(DONE_TEXT)|
    ensures Parse(codec, Lines((Render(codec, fs) + Data(DONE_TEXT))[..k])) <= fs
  {
    var text := Render(codec, fs) + Data(DONE_TEXT);
    if |fs| == 0 {
      assert text == Data(DONE_TEXT);
      CutDone(codec, k);
    } else {
      var head, rest := Data(codec.encode(fs[0])), Render(codec, fs[1..]) + Data(DONE_TEXT);
      assert text == head + rest;
      if k >= |head| {
        assert text[..k] == head + rest[..k - |head|];
        ParseFirst(codec, fs[0], rest[..k - |head|]);
        CutGivesPrefix(codec, fs[1..], k - |head|);
      } else {
        assert text[..k] == head[..k];
        CutInside(codec, fs[0], k);
      }
    }
  }
}
