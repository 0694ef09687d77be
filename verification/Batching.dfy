/** Continuous batching: the `DecodeScheduler` class and the functions that specify its steps. */
module Batching {
  import opened Prelude
  import opened Ordering
  import opened MemorySim

  // ---------------------------------------------------------------- values

  datatype Chunk = Chunk(token: string, index: int, finish: Option<string>)

  /** The body of a decode call. */
  datatype DecodeRequest = DecodeRequest(session: string, kv: string, promptTokens: int, size: real, maxTokens: int)

  /** The part of a `_Seq` that never changes. */
  datatype Request = Request(id: string, session: string, kv: string, maxTokens: int, size: real, promptTokens: int)

  /** A `_Seq` as a value; `out` is everything ever put on its output queue. */
  datatype Seq = Seq(req: Request, generated: int, out: seq<Chunk>)

  datatype Config = Config(cap: int, defaultTokens: int, model: (string, int) -> string)

  /** The scheduler as a value. `closed` lists the sequences it has let go of and
      `submitted` the requests it was given; the other fields are its own. */
  datatype Node = Node(pool: Pool, waiting: seq<Seq>, active: seq<Seq>, closed: seq<Seq>,
                       submitted: seq<Request>, tokens: nat, evicted: nat)

  function NewSeq(r: Request): Seq {
    Seq(r, 0, [])
  }

  function OomChunk(): Chunk {
    Chunk("", 0, Some("oom"))
  }

  predicate Finished(s: Seq) {
    s.generated >= s.req.maxTokens
  }

  // ------------------------------------------------------ steps, as functions

  function Submitted(n: Node, r: Request): Node {
    n.(waiting := n.waiting + [NewSeq(r)], submitted := n.submitted + [r])
  }

  /** One turn of the `_admit` loop; t0 and t1 are its clock readings. */
  function AdmitOne(n: Node, t0: real, t1: real): Node
    requires |n.waiting| > 0
  {
    var s := n.waiting[0];
    var (pool, outcome) := Allocated(n.pool, s.req.kv, s.req.session, s.req.promptTokens, s.req.size, t0, t1);
    match outcome
    case OutOfMemory =>
      n.(pool := pool, waiting := n.waiting[1..], closed := n.closed + [s.(out := s.out + [OomChunk()])])
    case Placed(evicted) =>
      n.(pool := pool, waiting := n.waiting[1..], active := n.active + [s], evicted := n.evicted + |evicted|)
  }

  predicate CanAdmit(cfg: Config, n: Node) {
    |n.waiting| > 0 && |n.active| < cfg.cap
  }

  /** `_admit`; `clock(at)` is the next clock reading. */
  function Admitted(cfg: Config, n: Node, clock: nat -> real, at: nat): Node
    decreases |n.waiting|
  {
    if CanAdmit(cfg, n)
    then Admitted(cfg, AdmitOne(n, clock(at), clock(at + 1)), clock, at + 2)
    else n
  }

  /** What one forward pass does to one active sequence. */
  function Emit(cfg: Config, s: Seq): Seq {
    var g := s.generated + 1;
    var out := s.out + [Chunk(cfg.model(s.req.session, s.req.promptTokens + s.generated), g - 1, None)];
    Seq(s.req, g, if g >= s.req.maxTokens then out + [Chunk("", g, Some("length"))] else out)
  }

  function EmitAll(cfg: Config, ss: seq<Seq>): (r: seq<Seq>)
    ensures |r| == |ss|
    ensures forall i :: 0 <= i < |ss| ==> r[i] == Emit(cfg, ss[i])
  {
    if |ss| == 0 then [] else [Emit(cfg, ss[0])] + EmitAll(cfg, ss[1..])
  }

  function TouchAll(p: Pool, ss: seq<Seq>, clock: nat -> real): Pool {
    var n := |ss| - 1;
    if n < 0 then p else Touched(TouchAll(p, ss[..n], clock), ss[n].req.kv, clock(n))
  }

  function FreeAll(p: Pool, ss: seq<Seq>): Pool
    decreases |ss|
  {
    if |ss| == 0 then p else FreeAll(Released(p, ss[0].req.kv), ss[1..])
  }

  function Ongoing(ss: seq<Seq>): seq<Seq> {
    if |ss| == 0 then [] else (if Finished(ss[0]) then [] else [ss[0]]) + Ongoing(ss[1..])
  }

  function Over(ss: seq<Seq>): seq<Seq> {
    if |ss| == 0 then [] else (if Finished(ss[0]) then [ss[0]] else []) + Over(ss[1..])
  }

  /** The first loop of the token pass. */
  function Emitted(cfg: Config, n: Node, clock: nat -> real): Node {
    n.(pool := TouchAll(n.pool, n.active, clock), active := EmitAll(cfg, n.active), tokens := n.tokens + |n.active|)
  }

  /** The second loop, which lets go of the finished sequences and frees their blocks. */
  function Retired(n: Node): Node {
    n.(pool := FreeAll(n.pool, Over(n.active)), active := Ongoing(n.active), closed := n.closed + Over(n.active))
  }

  /** The token pass of `_run`, once its sleep is over. */
  function Passed(cfg: Config, n: Node, clock: nat -> real): Node {
    Retired(Emitted(cfg, n, clock))
  }

  // ------------------------------------------------------- facts about lists

  ghost predicate DistinctSeqs(ss: seq<Seq>) {
    forall i, j :: 0 <= i < j < |ss| ==> ss[i].req.id != ss[j].req.id
  }

  function SeqIds(ss: seq<Seq>): seq<string> {
    if |ss| == 0 then [] else [ss[0].req.id] + SeqIds(ss[1..])
  }

  function FindSeq(ss: seq<Seq>, id: string): (i: nat)
    ensures i <= |ss|
    ensures i < |ss| ==> ss[i].req.id == id
    ensures forall j :: 0 <= j < i ==> ss[j].req.id != id
  {
    IndexOf(ss, (s: Seq) => s.req.id, id)
  }

  /** The ids of a list, with multiplicity; the ids a scheduler knows. */
  function IdBag(ss: seq<Seq>): multiset<string> {
    if |ss| == 0 then multiset{} else multiset{ss[0].req.id} + IdBag(ss[1..])
  }

  function Known(n: Node): multiset<string> {
    IdBag(n.waiting) + IdBag(n.active) + IdBag(n.closed)
  }

  /** No id occurs twice, within one of the three lists or across them. */
  ghost predicate Unique(n: Node) {
    forall id :: Known(n)[id] <= 1
  }

  lemma {:induction false} IdsConcat(ss: seq<Seq>, ts: seq<Seq>)
    ensures IdBag(ss + ts) == IdBag(ss) + IdBag(ts)
  {
    if |ss| == 0 {
      assert ss + ts == ts;
    } else {
      assert (ss + ts)[1..] == ss[1..] + ts;
      IdsConcat(ss[1..], ts);
    }
  }

  lemma {:induction false} IdsHave(ss: seq<Seq>, i: nat)
    requires i < |ss|
    ensures IdBag(ss)[ss[i].req.id] >= 1
  {
    if i == 0 {
    } else {
      IdsHave(ss[1..], i - 1);
    }
  }

  lemma {:induction false} IdsSplit(ss: seq<Seq>)
    ensures IdBag(ss) == IdBag(Ongoing(ss)) + IdBag(Over(ss))
  {
    if |ss| == 0 {
    } else {
      IdsSplit(ss[1..]);
      if Finished(ss[0]) {
        assert Ongoing(ss) == Ongoing(ss[1..]) && Over(ss)[1..] == Over(ss[1..]);
      } else {
        assert Over(ss) == Over(ss[1..]) && Ongoing(ss)[1..] == Ongoing(ss[1..]);
      }
    }
  }

  lemma {:induction false} SingleIdsAreDistinct(ss: seq<Seq>)
    requires forall id :: IdBag(ss)[id] <= 1
    ensures DistinctSeqs(ss)
  {
    if |ss| == 0 {
    } else {
      forall id ensures IdBag(ss[1..])[id] <= 1 {
        assert IdBag(ss)[id] >= IdBag(ss[1..])[id];
      }
      SingleIdsAreDistinct(ss[1..]);
      forall j | 0 < j < |ss| ensures ss[0].req.id != ss[j].req.id {
        IdsHave(ss[1..], j - 1);
        assert IdBag(ss)[ss[0].req.id] <= 1;
      }
    }
  }

  lemma UniqueLists(n: Node)
    requires Unique(n)
    ensures DistinctSeqs(n.waiting) && DistinctSeqs(n.active) && DistinctSeqs(n.closed)
    ensures forall i, j :: 0 <= i < |n.waiting| && 0 <= j < |n.active| ==> n.waiting[i].req.id != n.active[j].req.id
    ensures forall i, j :: 0 <= i < |n.waiting| && 0 <= j < |n.closed| ==> n.waiting[i].req.id != n.closed[j].req.id
    ensures forall i, j :: 0 <= i < |n.active| && 0 <= j < |n.closed| ==> n.active[i].req.id != n.closed[j].req.id
  {
    forall id ensures IdBag(n.waiting)[id] + IdBag(n.active)[id] + IdBag(n.closed)[id] <= 1 {
      assert Known(n)[id] <= 1;
    }
    SingleIdsAreDistinct(n.waiting);
    SingleIdsAreDistinct(n.active);
    SingleIdsAreDistinct(n.closed);
    forall i | 0 <= i < |n.waiting| ensures IdBag(n.waiting)[n.waiting[i].req.id] >= 1 { IdsHave(n.waiting, i); }
    forall i | 0 <= i < |n.active| ensures IdBag(n.active)[n.active[i].req.id] >= 1 { IdsHave(n.active, i); }
    forall i | 0 <= i < |n.closed| ensures IdBag(n.closed)[n.closed[i].req.id] >= 1 { IdsHave(n.closed, i); }
  }

  lemma SubmittedKnows(n: Node, r: Request)
    ensures Known(Submitted(n, r)) == Known(n) + multiset{r.id}
  {
    IdsConcat(n.waiting, [NewSeq(r)]);
    assert IdBag([NewSeq(r)]) == multiset{r.id};
  }

  /** `_admit` and the token pass move sequences about but neither lose nor copy one. */
  lemma AdmitOneKnows(n: Node, t0: real, t1: real)
    requires |n.waiting| > 0
    ensures Known(AdmitOne(n, t0, t1)) == Known(n)
  {
    var s := n.waiting[0];
    var c := s.(out := s.out + [OomChunk()]);
    IdsConcat(n.active, [s]);
    IdsConcat(n.closed, [c]);
    assert IdBag([s]) == multiset{s.req.id} && IdBag([c]) == multiset{s.req.id};
  }

  lemma {:induction false} AdmittedKnows(cfg: Config, n: Node, clock: nat -> real, at: nat)
    ensures Known(Admitted(cfg, n, clock, at)) == Known(n)
    decreases |n.waiting|
  {
    if CanAdmit(cfg, n) {
      AdmitOneKnows(n, clock(at), clock(at + 1));
      AdmittedKnows(cfg, AdmitOne(n, clock(at), clock(at + 1)), clock, at + 2);
    }
  }

  lemma {:induction false} SameIds(ss: seq<Seq>, ts: seq<Seq>)
    requires |ss| == |ts| && forall i :: 0 <= i < |ss| ==> ss[i].req.id == ts[i].req.id
    ensures IdBag(ss) == IdBag(ts)
  {
    if |ss| == 0 {
    } else {
      SameIds(ss[1..], ts[1..]);
    }
  }

  lemma PassedKnows(cfg: Config, n: Node, clock: nat -> real)
    ensures Known(Passed(cfg, n, clock)) == Known(n)
  {
    var stepped := EmitAll(cfg, n.active);
    SameIds(stepped, n.active);
    IdsSplit(stepped);
    IdsConcat(n.closed, Over(stepped));
  }

  lemma {:induction false} OverAppend(ss: seq<Seq>, s: Seq)
    ensures Over(ss + [s]) == Over(ss) + if Finished(s) then [s] else []
  {
    if |ss| == 0 {
      assert ss + [s] == [s];
      assert [s][1..] == [];
    } else {
      assert (ss + [s])[1..] == ss[1..] + [s];
      OverAppend(ss[1..], s);
    }
  }

  lemma {:induction false} SeqIdsAppend(ss: seq<Seq>, s: Seq)
    ensures SeqIds(ss + [s]) == SeqIds(ss) + [s.req.id]
  {
    if |ss| == 0 {
      assert ss + [s] == [s];
    } else {
      assert (ss + [s])[1..] == ss[1..] + [s];
      SeqIdsAppend(ss[1..], s);
    }
  }

  lemma {:induction false} OverMembers(ss: seq<Seq>)
    ensures forall s :: s in Over(ss) <==> s in ss && Finished(s)
    ensures forall s :: s in Ongoing(ss) <==> s in ss && !Finished(s)
  {
    if |ss| == 0 {
    } else {
      OverMembers(ss[1..]);
      assert forall s :: s in ss <==> s == ss[0] || s in ss[1..];
    }
  }

  lemma {:induction false} NothingOver(ss: seq<Seq>)
    requires Over(ss) == []
    ensures Ongoing(ss) == ss
  {
    if |ss| == 0 {
    } else {
      NothingOver(ss[1..]);
    }
  }

  /** Popping the first finished sequence leaves the ongoing ones as they were. */
  lemma {:induction false} PopFirstOver(ss: seq<Seq>)
    requires DistinctSeqs(ss) && |Over(ss)| > 0
    ensures var i := FindSeq(ss, Over(ss)[0].req.id);
      && i < |ss| && ss[i] == Over(ss)[0]
      && Over(RemoveAt(ss, i)) == Over(ss)[1..]
      && Ongoing(RemoveAt(ss, i)) == Ongoing(ss)
  {
    if Finished(ss[0]) {
      assert RemoveAt(ss, 0) == ss[1..];
      assert Ongoing(ss) == Ongoing(ss[1..]);
    } else {
      assert Over(ss) == Over(ss[1..]);
      PopFirstOver(ss[1..]);
      OverMembers(ss[1..]);
      var i := FindSeq(ss[1..], Over(ss)[0].req.id);
      assert ss[1..][i] == ss[i + 1];
      var rest := RemoveAt(ss, i + 1);
      assert rest[0] == ss[0] && rest[1..] == RemoveAt(ss[1..], i);
    }
  }

  lemma TouchAllNext(p: Pool, ss: seq<Seq>, i: nat, clock: nat -> real)
    requires i < |ss|
    ensures TouchAll(p, ss[..i + 1], clock) == Touched(TouchAll(p, ss[..i], clock), ss[i].req.kv, clock(i))
  {
    assert ss[..i + 1][..i] == ss[..i];
  }

  function FinishedId(s: Seq): seq<string> {
    if Finished(s) then [s.req.id] else []
  }

  lemma OverNext(ss: seq<Seq>, i: nat)
    requires i < |ss|
    ensures SeqIds(Over(ss[..i + 1])) == SeqIds(Over(ss[..i])) + FinishedId(ss[i])
  {
    assert ss[..i + 1] == ss[..i] + [ss[i]];
    OverAppend(ss[..i], ss[i]);
    SeqIdsAppend(Over(ss[..i]), ss[i]);
    assert Over(ss[..i]) + [] == Over(ss[..i]);
  }

  lemma {:induction false} SeqIdsAt(ss: seq<Seq>)
    ensures |SeqIds(ss)| == |ss|
    ensures forall i :: 0 <= i < |ss| ==> SeqIds(ss)[i] == ss[i].req.id
  {
    if |ss| == 0 {
    } else {
      SeqIdsAt(ss[1..]);
    }
  }

  lemma RemoveAtStaysDistinct(ss: seq<Seq>, i: nat)
    requires DistinctSeqs(ss) && i < |ss|
    ensures DistinctSeqs(RemoveAt(ss, i))
  {
    var ts := RemoveAt(ss, i);
    assert forall k :: 0 <= k < |ts| ==> ts[k] == ss[if k < i then k else k + 1];
  }

  /** The node after i turns of the first loop. */
  ghost function Midway(cfg: Config, n: Node, i: nat, clock: nat -> real): Node
    requires i <= |n.active|
  {
    n.(pool := TouchAll(n.pool, n.active[..i], clock),
       active := EmitAll(cfg, n.active)[..i] + n.active[i..],
       tokens := n.tokens + i)
  }

  lemma SpliceNext(xs: seq<Seq>, ys: seq<Seq>, i: nat)
    requires |xs| == |ys| && i < |xs|
    ensures xs[..i + 1] + ys[i + 1..] == (xs[..i] + ys[i..])[i := xs[i]]
  {
  }

  lemma MidwayTurn(cfg: Config, n: Node, i: nat, clock: nat -> real)
    requires i < |n.active|
    ensures var m, s := Midway(cfg, n, i, clock), n.active[i];
      && m.active[i] == s
      && Midway(cfg, n, i + 1, clock)
         == m.(pool := Touched(m.pool, s.req.kv, clock(i)), active := m.active[i := Emit(cfg, s)], tokens := m.tokens + 1)
  {
    TouchAllNext(n.pool, n.active, i, clock);
    SpliceNext(EmitAll(cfg, n.active), n.active, i);
  }

  lemma MidwayUnique(cfg: Config, n: Node, i: nat, clock: nat -> real)
    requires i <= |n.active| && Unique(n)
    ensures Unique(Midway(cfg, n, i, clock))
  {
    SameIds(Midway(cfg, n, i, clock).active, n.active);
    assert Known(Midway(cfg, n, i, clock)) == Known(n);
  }

  /** The node after one, and after every, turn of the second loop. */
  function RetiredOnly(n: Node, id: string): Node
    requires FindSeq(n.active, id) < |n.active|
  {
    var i := FindSeq(n.active, id);
    n.(pool := Released(n.pool, n.active[i].req.kv), active := RemoveAt(n.active, i), closed := n.closed + [n.active[i]])
  }

  lemma RetiredTurn(n: Node)
    requires DistinctSeqs(n.active) && |SeqIds(Over(n.active))| > 0
    ensures var id := SeqIds(Over(n.active))[0];
      && FindSeq(n.active, id) < |n.active|
      && Retired(RetiredOnly(n, id)) == Retired(n)
      && DistinctSeqs(RetiredOnly(n, id).active)
      && SeqIds(Over(RetiredOnly(n, id).active)) == SeqIds(Over(n.active))[1..]
  {
    var over := Over(n.active);
    SeqIdsAt(over);
    PopFirstOver(n.active);
    RemoveAtStaysDistinct(n.active, FindSeq(n.active, over[0].req.id));
    assert n.closed + over == (n.closed + [over[0]]) + over[1..];
  }

  lemma RetireNone(n: Node)
    requires |Over(n.active)| == 0
    ensures Retired(n) == n
  {
    NothingOver(n.active);
    assert n.closed + [] == n.closed;
  }

  /** The ids noted as finished after i of them. */
  ghost function Noted(cfg: Config, n: Node, i: nat): seq<string>
    requires i <= |n.active|
  {
    SeqIds(Over(EmitAll(cfg, n.active)[..i]))
  }

  lemma NotedNext(cfg: Config, n: Node, i: nat)
    requires i < |n.active|
    ensures Noted(cfg, n, i + 1) == Noted(cfg, n, i) + FinishedId(Emit(cfg, n.active[i]))
  {
    OverNext(EmitAll(cfg, n.active), i);
  }

  lemma MidwayEnds(cfg: Config, n: Node, clock: nat -> real)
    ensures Midway(cfg, n, 0, clock) == n && Noted(cfg, n, 0) == []
    ensures Midway(cfg, n, |n.active|, clock) == Emitted(cfg, n, clock)
    ensures Noted(cfg, n, |n.active|) == SeqIds(Over(Emitted(cfg, n, clock).active))
  {
    var stepped := EmitAll(cfg, n.active);
    assert n.active[..|n.active|] == n.active && stepped[..|n.active|] == stepped;
    assert stepped[..|n.active|] + n.active[|n.active|..] == stepped;
    assert stepped[..0] + n.active[0..] == n.active;
  }

  lemma PassStaysDistinct(cfg: Config, n: Node, clock: nat -> real)
    requires Unique(n)
    ensures DistinctSeqs(Emitted(cfg, n, clock).active) && Unique(Passed(cfg, n, clock))
  {
    UniqueLists(n);
    PassedKnows(cfg, n, clock);
  }

  // ----------------------------------------------------------- the classes

  class Sequence {
    const req: Request
    var generated: int
    var out: seq<Chunk>

    ghost function Val(): Seq
      reads this
    {
      Seq(req, generated, out)
    }

    constructor (req: Request)
      ensures this.req == req && Val() == NewSeq(req)
    {
      this.req := req;
      generated, out := 0, [];
    }
  }

  ghost function Vals(ss: seq<Sequence>): (r: seq<Seq>)
    reads ss
    ensures |r| == |ss|
    ensures forall i :: 0 <= i < |ss| ==> r[i] == ss[i].Val()
  {
    seq(|ss|, i requires 0 <= i < |ss| reads ss => ss[i].Val())
  }

  lemma ValsAppend(ss: seq<Sequence>, s: Sequence)
    ensures Vals(ss + [s]) == Vals(ss) + [s.Val()]
  {
  }

  lemma ValsTail(ss: seq<Sequence>)
    requires |ss| > 0
    ensures Vals(ss)[1..] == Vals(ss[1..])
  {
  }

  twostate lemma ValsSame(ss: seq<Sequence>)
    requires forall i :: 0 <= i < |ss| ==> ss[i].Val() == old(ss[i].Val())
    ensures Vals(ss) == old(Vals(ss))
  {
  }

  lemma ValsRemoveAt(ss: seq<Sequence>, i: nat)
    requires i < |ss|
    ensures Vals(RemoveAt(ss, i)) == RemoveAt(Vals(ss), i)
  {
  }

  function FindSequence(ss: seq<Sequence>, id: string): (i: nat)
    ensures i <= |ss|
    ensures i < |ss| ==> ss[i].req.id == id
    ensures forall j :: 0 <= j < i ==> ss[j].req.id != id
  {
    IndexOf(ss, (s: Sequence) => s.req.id, id)
  }

  lemma FindSequenceAgrees(ss: seq<Sequence>, id: string)
    ensures FindSequence(ss, id) == FindSeq(Vals(ss), id)
  {
    var i, j := FindSequence(ss, id), FindSeq(Vals(ss), id);
    assert i < |ss| ==> Vals(ss)[i].req.id == id;
    assert j < |ss| ==> ss[j].req.id == id;
  }

  /** No object stands in two places of the three lists. */
  ghost predicate NoSharing(waiting: seq<Sequence>, active: seq<Sequence>, closed: seq<Sequence>) {
    && (forall i, j :: 0 <= i < |waiting| && 0 <= j < |waiting| && i != j ==> waiting[i] != waiting[j])
    && (forall i, j :: 0 <= i < |active| && 0 <= j < |active| && i != j ==> active[i] != active[j])
    && (forall i, j :: 0 <= i < |waiting| && 0 <= j < |active| ==> waiting[i] != active[j])
    && (forall i, j :: 0 <= i < |waiting| && 0 <= j < |closed| ==> waiting[i] != closed[j])
    && (forall i, j :: 0 <= i < |active| && 0 <= j < |closed| ==> active[i] != closed[j])
  }

  class DecodeScheduler {
    const cfg: Config
    const memory: MemorySimulator
    var waiting: seq<Sequence>
    var active: seq<Sequence>
    var tokens: nat
    var evicted: nat
    ghost var closed: seq<Sequence>
    ghost var submitted: seq<Request>

    ghost predicate Valid()
      reads this, memory, waiting, active, closed
    {
      && memory.Valid()
      && Unique(View())
    }

    ghost function View(): Node
      reads this, memory, waiting, active, closed
    {
      Node(memory.View(), Vals(waiting), Vals(active), Vals(closed), submitted, tokens, evicted)
    }

    constructor (cfg: Config, memory: MemorySimulator)
      requires memory.Valid()
      ensures Valid() && this.cfg == cfg && this.memory == memory
      ensures View() == Node(memory.View(), [], [], [], [], 0, 0)
    {
      this.cfg, this.memory := cfg, memory;
      waiting, active, tokens, evicted := [], [], 0, 0;
      closed, submitted := [], [];
    }

    /** Distinct ids make distinct objects. */
    lemma Apart()
      requires Unique(View())
      ensures NoSharing(waiting, active, closed)
    {
      UniqueLists(View());
      assert forall i :: 0 <= i < |waiting| ==> View().waiting[i].req == waiting[i].req;
      assert forall i :: 0 <= i < |active| ==> View().active[i].req == active[i].req;
      assert forall i :: 0 <= i < |closed| ==> View().closed[i].req == closed[i].req;
      forall i, j | 0 <= i < |waiting| && 0 <= j < |waiting| && i != j ensures waiting[i] != waiting[j] {
        assert i < j || j < i;
      }
      forall i, j | 0 <= i < |active| && 0 <= j < |active| && i != j ensures active[i] != active[j] {
        assert i < j || j < i;
      }
    }

    /** `self._waiting.put`. */
    method Enqueue(s: Sequence)
      modifies this`waiting, this`submitted
      ensures waiting == old(waiting) + [s]
      ensures View() == old(View()).(waiting := old(Vals(waiting)) + [s.Val()], submitted := old(submitted) + [s.req])
    {
      waiting := waiting + [s];
      submitted := submitted + [s.req];
      ValsAppend(old(waiting), s);
    }

    /** `submit`; the id stands for the fresh uuid. */
    method Submit(id: string, w: DecodeRequest) returns (s: Sequence)
      requires Valid() && id !in Known(View())
      modifies this`waiting, this`submitted
      ensures Valid() && fresh(s) && waiting == old(waiting) + [s]
      ensures s.req == Request(id, w.session, w.kv, if w.maxTokens == 0 then cfg.defaultTokens else w.maxTokens, w.size, w.promptTokens)
      ensures s.generated == 0 && s.out == []
      ensures View() == Submitted(old(View()), s.req)
    {
      var r := Request(id, w.session, w.kv, if w.maxTokens == 0 then cfg.defaultTokens else w.maxTokens, w.size, w.promptTokens);
      SubmittedKnows(View(), r);
      s := new Sequence(r);
      ValsSame(waiting);
      ValsSame(active);
      ValsSame(closed);
      assert View() == old(View());
      Enqueue(s);
      assert View() == Submitted(old(View()), r);
    }

    /** The `except OutOfMemoryError` branch. */
    method Reject(s: Sequence)
      requires forall i :: 0 <= i < |waiting| ==> waiting[i] != s
      requires forall i :: 0 <= i < |active| ==> active[i] != s
      requires forall i :: 0 <= i < |closed| ==> closed[i] != s
      modifies this`closed, s
      ensures waiting == old(waiting)
      ensures View() == old(View()).(closed := old(Vals(closed)) + [old(s.Val()).(out := old(s.out) + [OomChunk()])])
    {
      s.out := s.out + [OomChunk()];
      closed := closed + [s];
      ValsAppend(old(closed), s);
      ValsSame(waiting);
      ValsSame(active);
      ValsSame(old(closed));
    }

    /** The branch in which the allocation succeeded. */
    method Enroll(s: Sequence, victims: nat)
      modifies this`active, this`evicted
      ensures active == old(active) + [s]
      ensures View() == old(View()).(active := old(Vals(active)) + [s.Val()], evicted := old(evicted) + victims)
    {
      evicted := evicted + victims;
      active := active + [s];
      ValsAppend(old(active), s);
    }

    /** One turn of the `_admit` loop. */
    method AdmitNext(t0: real, t1: real)
      requires Valid() && |waiting| > 0
      modifies this, memory, waiting[0]
      ensures Valid()
      ensures waiting == old(waiting)[1..]
      ensures forall s :: s in active ==> s in old(active) || s == old(waiting[0])
      ensures View() == AdmitOne(old(View()), t0, t1)
    {
      ghost var n := View();
      Apart();
      var s := waiting[0];
      ValsTail(waiting);
      waiting := waiting[1..];
      assert View() == n.(waiting := n.waiting[1..]);
      var outcome := memory.Allocate(s.req.kv, s.req.session, s.req.promptTokens, s.req.size, t0, t1);
      assert View() == n.(waiting := n.waiting[1..], pool := memory.View());
      match outcome {
        case OutOfMemory => Reject(s);
        case Placed(victims) => Enroll(s, |victims|);
      }
      assert View() == AdmitOne(n, t0, t1);
      assert Unique(View()) by {
        AdmitOneKnows(n, t0, t1);
      }
    }

    /** `_admit`, with the clock readings it makes. */
    method Admit(clock: nat -> real)
      requires Valid()
      modifies this, memory, waiting
      ensures Valid()
      ensures forall s :: s in waiting || s in active ==> s in old(waiting) || s in old(active)
      ensures View() == Admitted(cfg, old(View()), clock, 0)
    {
      var at: nat := 0;
      while |waiting| > 0 && |active| < cfg.cap
        invariant Valid()
        invariant forall s :: s in waiting ==> s in old(waiting)
        invariant forall s :: s in active ==> s in old(waiting) || s in old(active)
        invariant Admitted(cfg, View(), clock, at) == Admitted(cfg, old(View()), clock, 0)
        decreases |waiting|
      {
        assert waiting[0] in old(waiting);
        AdmitNext(clock(at), clock(at + 1));
        at := at + 2;
      }
    }

    /** One sequence's share of a forward pass; true once it has all its tokens. */
    method Step(s: Sequence) returns (done: bool)
      modifies s
      ensures s.Val() == Emit(cfg, old(s.Val())) && done == Finished(s.Val())
    {
      var token := cfg.model(s.req.session, s.req.promptTokens + s.generated);
      s.generated := s.generated + 1;
      s.out := s.out + [Chunk(token, s.generated - 1, None)];
      done := s.generated >= s.req.maxTokens;
      if done {
        s.out := s.out + [Chunk("", s.generated, Some("length"))];
      }
    }

    /** One turn of the first loop: touch the block, emit the token. */
    method EmitOne(i: nat, t: real) returns (done: bool)
      requires memory.Valid() && i < |active| && Unique(View())
      modifies memory, this`tokens, active[i]
      ensures memory.Valid()
      ensures var n := old(View()); var s := n.active[i];
        && View() == n.(pool := Touched(n.pool, s.req.kv, t), active := n.active[i := Emit(cfg, s)], tokens := n.tokens + 1)
        && done == Finished(Emit(cfg, s))
    {
      Apart();
      var s := active[i];
      ghost var before := Vals(active);
      var present := memory.Touch(s.req.kv, t);
      done := Step(s);
      tokens := tokens + 1;
      ValsSame(waiting);
      ValsSame(closed);
      assert Vals(active) == before[i := s.Val()];
    }

    method EmitNext(i: nat, clock: nat -> real, before: seq<string>, ghost n: Node) returns (finished: seq<string>)
      requires memory.Valid() && i < |active| && i < |n.active| && Unique(n)
      requires View() == Midway(cfg, n, i, clock) && before == Noted(cfg, n, i)
      modifies memory, this`tokens, active[i]
      ensures memory.Valid() && active == old(active)
      ensures View() == Midway(cfg, n, i + 1, clock) && finished == Noted(cfg, n, i + 1)
    {
      NotedNext(cfg, n, i);
      MidwayTurn(cfg, n, i, clock);
      MidwayUnique(cfg, n, i, clock);
      var done := EmitOne(i, clock(i));
      finished := before + if done then [active[i].req.id] else [];
    }

    /** The first loop of the token pass: one token for everyone, and a note of who has finished. */
    method EmitTokens(clock: nat -> real) returns (finished: seq<string>)
      requires memory.Valid() && Unique(View())
      modifies memory, this`tokens, active
      ensures memory.Valid()
      ensures View() == Emitted(cfg, old(View()), clock)
      ensures finished == SeqIds(Over(Emitted(cfg, old(View()), clock).active))
    {
      ghost var n := View();
      finished := [];
      assert Midway(cfg, n, 0, clock) == n && Noted(cfg, n, 0) == [] by {
        MidwayEnds(cfg, n, clock);
      }
      for i := 0 to |active|
        invariant memory.Valid() && active == old(active)
        invariant View() == Midway(cfg, n, i, clock) && finished == Noted(cfg, n, i)
      {
        finished := EmitNext(i, clock, finished, n);
      }
      MidwayEnds(cfg, n, clock);
    }

    /** `self._active.pop(id)`, then `free`. */
    method RetireOne(id: string)
      requires memory.Valid() && FindSeq(Vals(active), id) < |active|
      modifies memory, this`active, this`closed
      ensures memory.Valid()
      ensures forall s :: s in active ==> s in old(active)
      ensures View() == RetiredOnly(old(View()), id)
    {
      FindSequenceAgrees(active, id);
      var i := FindSequence(active, id);
      var s := active[i];
      ValsRemoveAt(active, i);
      ValsAppend(closed, s);
      active := RemoveAt(active, i);
      closed := closed + [s];
      var present := memory.Free(s.req.kv);
    }

    /** The second loop: let go of the finished sequences and free their blocks. */
    method Retire(finished: seq<string>)
      requires memory.Valid() && DistinctSeqs(Vals(active)) && finished == SeqIds(Over(Vals(active)))
      modifies memory, this`active, this`closed
      ensures memory.Valid()
      ensures forall s :: s in active ==> s in old(active)
      ensures View() == Retired(old(View()))
    {
      ghost var n := View();
      for k := 0 to |finished|
        invariant memory.Valid() && DistinctSeqs(Vals(active))
        invariant finished[k..] == SeqIds(Over(Vals(active)))
        invariant forall s :: s in active ==> s in old(active)
        invariant Retired(View()) == Retired(n)
      {
        RetiredTurn(View());
        assert finished[k..][0] == finished[k] && finished[k..][1..] == finished[k + 1..];
        RetireOne(finished[k]);
      }
      SeqIdsAt(Over(Vals(active)));
      RetireNone(View());
    }

    /** The token pass of `_run`. */
    method Pass(clock: nat -> real)
      requires Valid()
      modifies memory, this`active, this`closed, this`tokens, active
      ensures Valid()
      ensures forall s :: s in active ==> s in old(active)
      ensures View() == Passed(cfg, old(View()), clock)
    {
      ghost var n := View();
      assert DistinctSeqs(Emitted(cfg, n, clock).active) by {
        PassStaysDistinct(cfg, n, clock);
      }
      var finished := EmitTokens(clock);
      Retire(finished);
      assert View() == Passed(cfg, n, clock);
      assert Unique(View()) by {
        PassStaysDistinct(cfg, n, clock);
      }
    }
  }
}
