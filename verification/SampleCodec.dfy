/** An encoding of frames that has the two properties asked of JSON, so that what assumes
    them assumes nothing impossible. */
module SampleCodec {
  import opened Prelude
  import Batching
  import opened Frames
  import S = Sse

  /** Numbers in unary, each closed by a comma. */
  function Marks(ns: seq<nat>): string {
    if |ns| == 0 then "" else seq(ns[0], _ => '|') + [','] + Marks(ns[1..])
  }

  function Codes(s: string): seq<nat> {
    seq(|s|, i requires 0 <= i < |s| => s[i] as int)
  }

  function Numbers(f: Frame): seq<nat> {
    match f
    case Failure(e) => [1] + Codes(e)
    case Token(c) =>
      [0, if c.index < 0 then 1 else 0, if c.index < 0 then -c.index else c.index, if c.finish.None? then 0 else 1, |c.token|]
      + Codes(c.token) + (if c.finish.None? then [] else Codes(c.finish.value))
  }

  function Encode(f: Frame): string {
    ['{'] + Marks(Numbers(f)) + ['}']
  }

  ghost function Decode(s: string): Option<Frame> {
    if exists f :: Encode(f) == s then
      var f :| Encode(f) == s;
      Some(f)
    else None
  }

  ghost function Sample(): S.Codec<Frame> {
    S.Codec(f => Encode(f), s => Decode(s))
  }

  lemma {:induction false} MarksChars(ns: seq<nat>)
    ensures forall c :: c in Marks(ns) ==> c == '|' || c == ','
  {
    if |ns| == 0 {
    } else {
      MarksChars(ns[1..]);
    }
  }

  lemma {:induction false} MarksInjective(a: seq<nat>, b: seq<nat>)
    requires Marks(a) == Marks(b)
    ensures a == b
  {
    if |a| == 0 || |b| == 0 {
      assert |a| > 0 ==> |Marks(a)| > 0;
      assert |b| > 0 ==> |Marks(b)| > 0;
    } else {
      var s, t := Marks(a), Marks(b);
      assert s[a[0]] == ',' && t[b[0]] == ',';
      assert forall i :: 0 <= i < a[0] ==> s[i] == '|';
      assert forall i :: 0 <= i < b[0] ==> t[i] == '|';
      assert a[0] == b[0];
      assert s[a[0] + 1..] == Marks(a[1..]) && t[b[0] + 1..] == Marks(b[1..]);
      MarksInjective(a[1..], b[1..]);
    }
  }

  lemma CodesInjective(s: string, t: string)
    requires Codes(s) == Codes(t)
    ensures s == t
  {
    assert |Codes(s)| == |s| && |Codes(t)| == |t|;
    forall i | 0 <= i < |s| ensures s[i] == t[i] {
      assert Codes(s)[i] == Codes(t)[i];
    }
  }

  lemma TokenNumbers(c: Batching.Chunk)
    ensures var n, k := Numbers(Token(c)), |c.token|;
      && |n| >= 5 + k && n[0] == 0 && n[4] == k
      && (n[1] == 1 ==> c.index == -(n[2] as int)) && (n[1] != 1 ==> c.index == n[2])
      && (c.finish.None? <==> n[3] == 0)
      && n[5..5 + k] == Codes(c.token)
      && (c.finish.Some? ==> n[5 + k..] == Codes(c.finish.value))
  {
  }

  lemma NumbersInjective(f: Frame, g: Frame)
    requires Numbers(f) == Numbers(g)
    ensures f == g
  {
    assert Numbers(f)[0] == (if f.Token? then 0 else 1) && Numbers(g)[0] == (if g.Token? then 0 else 1);
    match (f, g)
    case (Token(c), Token(d)) =>
      TokenNumbers(c);
      TokenNumbers(d);
      CodesInjective(c.token, d.token);
      if c.finish.Some? {
        CodesInjective(c.finish.value, d.finish.value);
      }
    case (Failure(d), Failure(e)) =>
      assert Numbers(f)[1..] == Codes(d) && Numbers(g)[1..] == Codes(e);
      CodesInjective(d, e);
    case _ =>
  }

  lemma EncodeInjective(f: Frame, g: Frame)
    requires Encode(f) == Encode(g)
    ensures f == g
  {
    var s, t := Encode(f), Encode(g);
    assert s[1..|s| - 1] == Marks(Numbers(f)) && t[1..|t| - 1] == Marks(Numbers(g));
    MarksInjective(Numbers(f), Numbers(g));
    NumbersInjective(f, g);
  }

  /** The closing brace stands at the end and nowhere else. */
  lemma EncodeShape(f: Frame)
    ensures var e := Encode(f);
      && |e| >= 2 && e[0] == '{' && e[|e| - 1] == '}'
      && forall i :: 0 <= i < |e| - 1 ==> e[i] != '}' && !S.IsBreak(e[i])
  {
    var e, marks := Encode(f), Marks(Numbers(f));
    MarksChars(Numbers(f));
    forall i | 0 <= i < |e| - 1 ensures e[i] == '{' || e[i] == '|' || e[i] == ',' {
      assert i > 0 ==> e[i] == marks[i - 1] && marks[i - 1] in marks;
    }
  }

  lemma DecodeNone(s: string)
    requires |s| == 0 || s[0] != '{' || s[|s| - 1] != '}'
    ensures Decode(s) == None
  {
    forall f ensures Encode(f) != s {
      EncodeShape(f);
    }
  }

  lemma SampleIsFaithful()
    ensures S.Faithful(Sample())
  {
    forall f
      ensures var e := Sample().encode(f);
        && Sample().decode(e) == Some(f) && |e| >= 2 && e[0] == '{' && e[|e| - 1] == '}'
        && forall i :: 0 <= i < |e| ==> !S.IsBreak(e[i])
    {
      EncodeShape(f);
      var g := Decode(Encode(f)).value;
      EncodeInjective(f, g);
    }
  }

  lemma SampleRejectsTruncation()
    ensures S.RejectsTruncation(Sample())
  {
    forall f, k | 0 <= k < |Sample().encode(f)| ensures Sample().decode(Sample().encode(f)[..k]) == None {
      EncodeShape(f);
      DecodeNone(Encode(f)[..k]);
    }
    forall k | 0 <= k < |S.DONE_TEXT| ensures Sample().decode(S.DONE_TEXT[..k]) == None {
      DecodeNone(S.DONE_TEXT[..k]);
    }
  }

  /** There is an encoding with both properties. */
  lemma SuchCodecsExist()
    ensures exists codec: S.Codec<Frame> :: S.Faithful(codec) && S.RejectsTruncation(codec)
  {
    SampleIsFaithful();
    SampleRejectsTruncation();
  }
}
