/** Backend selection: least-loaded prefill, sticky decode, and the fallback choice. */
module Routing {
  import opened Prelude
  import opened Ordering

  datatype Backend = Backend(name: string, url: string, queueDepth: int, activeBatch: int, utilization: real)

  /** session id to backend name, as the shared store holds it. */
  type Pins = map<string, string>

  datatype Decision = CacheHit | CacheMiss

  datatype Choice = Choice(backend: Backend, decision: Decision, pins: Pins)

  function LoadScore(b: Backend): real {
    (b.queueDepth + b.activeBatch) as real + b.utilization
  }

  function ByLoad(): Backend -> real { (b: Backend) => LoadScore(b) }

  // ------------------------------------------------------ candidate discovery

  function Decimal(n: nat): (s: string)
    ensures |s| >= 1
    ensures n >= 10 ==> |s| >= 2
  {
    var digit := ['0' + (n % 10) as char];
    if n < 10 then digit else Decimal(n / 10) + digit
  }

  function Static(role: string, urls: seq<string>): seq<Backend> {
    seq(|urls|, i requires 0 <= i < |urls| => Backend(role + "-" + Decimal(i), urls[i], 0, 0, 0.0))
  }

  function Candidates(role: string, listed: seq<Backend>, urls: seq<string>): seq<Backend> {
    if |listed| > 0 then listed else Static(role, urls)
  }

  ghost predicate DistinctNames(cs: seq<Backend>) {
    forall i, j :: 0 <= i < j < |cs| ==> cs[i].name != cs[j].name
  }

  lemma {:induction false} DecimalInjective(a: nat, b: nat)
    requires Decimal(a) == Decimal(b)
    ensures a == b
  {
    var s, t := Decimal(a), Decimal(b);
    assert s[|s| - 1] == '0' + (a % 10) as char && t[|t| - 1] == '0' + (b % 10) as char;
    if a >= 10 && b >= 10 {
      assert s[..|s| - 1] == Decimal(a / 10) && t[..|t| - 1] == Decimal(b / 10);
      DecimalInjective(a / 10, b / 10);
    } else {
      assert |s| == |t|;
    }
  }

  /** What a string of digits stands for. */
  function Value(s: string): int {
    var n := |s| - 1;
    if n < 0 then 0 else 10 * Value(s[..n]) + (s[n] as int - '0' as int)
  }

  /** Decimal writes n in digits, without a leading zero. */
  lemma {:induction false} DecimalReads(n: nat)
    ensures Value(Decimal(n)) == n
    ensures forall i :: 0 <= i < |Decimal(n)| ==> '0' <= Decimal(n)[i] <= '9'
    ensures Decimal(n)[0] == '0' ==> n == 0 && Decimal(n) == "0"
  {
    var s := Decimal(n);
    var last := |s| - 1;
    assert s[last] == '0' + (n % 10) as char;
    if n < 10 {
      assert s[..last] == "";
    } else {
      assert s[..last] == Decimal(n / 10);
      DecimalReads(n / 10);
    }
  }

  /** Names made up for configured urls never clash. */
  lemma StaticNamesDistinct(role: string, urls: seq<string>)
    ensures DistinctNames(Static(role, urls))
  {
    var cs := Static(role, urls);
    forall i, j | 0 <= i < j < |cs| ensures cs[i].name != cs[j].name {
      if cs[i].name == cs[j].name {
        var prefix := role + "-";
        assert cs[i].name[|prefix|..] == Decimal(i) && cs[j].name[|prefix|..] == Decimal(j);
        DecimalInjective(i, j);
      }
    }
  }

  // -------------------------------------------------------------- prefill

  /** The candidates that share the least score, in listing order. */
  function Tied(cs: seq<Backend>): (tied: seq<Backend>)
    requires |cs| > 0
    ensures |tied| > 0
  {
    var sorted := Sort(cs, ByLoad());
    var tied := WithKey(sorted, ByLoad(), LoadScore(sorted[0]));
    assert tied[0] == sorted[0];
    tied
  }

  function PickPrefill(cs: seq<Backend>, counter: nat): Backend
    requires |cs| > 0
  {
    var tied := Tied(cs);
    tied[counter % |tied|]
  }

  /** Queue depth, active batch and utilization of a come to no more than those of b. */
  ghost predicate NoBusier(a: Backend, b: Backend) {
    (a.queueDepth + a.activeBatch) as real + a.utilization <= (b.queueDepth + b.activeBatch) as real + b.utilization
  }

  ghost predicate IsLeastLoaded(cs: seq<Backend>, b: Backend) {
    b in cs && forall c :: c in cs ==> NoBusier(b, c)
  }

  /** The candidate at k is least loaded, and the first such. */
  ghost predicate IsFirstLeast(cs: seq<Backend>, k: nat) {
    k < |cs| && IsLeastLoaded(cs, cs[k]) && forall j :: 0 <= j < k ==> !NoBusier(cs[j], cs[k])
  }

  /** The positions of the least-loaded candidates, in listing order. */
  ghost predicate IsTied(cs: seq<Backend>, places: seq<nat>) {
    && |places| > 0 && Ascending(places) && (forall i :: 0 <= i < |places| ==> places[i] < |cs|)
    && (forall k: nat :: k in places <==> k < |cs| && IsLeastLoaded(cs, cs[k]))
  }

  lemma {:induction false} WithKeyMembers(xs: seq<Backend>, v: real)
    ensures forall b :: b in WithKey(xs, ByLoad(), v) <==> b in xs && LoadScore(b) == v
  {
    if |xs| == 0 {
    } else {
      WithKeyMembers(xs[1..], v);
      assert forall b :: b in xs <==> b == xs[0] || b in xs[1..];
    }
  }

  lemma SortedHead(cs: seq<Backend>)
    requires |cs| > 0
    ensures Sort(cs, ByLoad())[0] == cs[MinIndex(cs, ByLoad())]
    ensures IsLeastLoaded(cs, Sort(cs, ByLoad())[0])
    ensures IsFirstLeast(cs, MinIndex(cs, ByLoad()))
  {
    var m := MinIndex(cs, ByLoad());
    forall c | c in cs ensures NoBusier(cs[m], c) {
      var k :| 0 <= k < |cs| && cs[k] == c;
      assert ByLoad()(cs[m]) <= ByLoad()(cs[k]);
    }
    forall j | 0 <= j < m ensures !NoBusier(cs[j], cs[m]) {
      assert ByLoad()(cs[m]) < ByLoad()(cs[j]);
    }
  }

  /** The tied set is exactly the least-loaded candidates, in listing order. */
  lemma TiedIsLeast(cs: seq<Backend>)
    requires |cs| > 0
    ensures Tied(cs) == WithKey(cs, ByLoad(), LoadScore(cs[MinIndex(cs, ByLoad())]))
    ensures forall b :: b in Tied(cs) <==> IsLeastLoaded(cs, b)
  {
    SortedHead(cs);
    SortIsStable(cs, ByLoad());
    var v := LoadScore(cs[MinIndex(cs, ByLoad())]);
    assert WithKey(cs, ByLoad(), v) == WithKey(Sort(cs, ByLoad()), ByLoad(), v);
    WithKeyMembers(cs, v);
  }

  /** `select_prefill` never picks a busier backend than it has to. */
  lemma PrefillIsLeastLoaded(cs: seq<Backend>, counter: nat)
    requires |cs| > 0
    ensures IsLeastLoaded(cs, PickPrefill(cs, counter))
  {
    TiedIsLeast(cs);
    assert PickPrefill(cs, counter) in Tied(cs);
  }

  /** Which one of them: they take turns in listing order, as the counter goes. */
  lemma PrefillTakesTurns(cs: seq<Backend>, counter: nat)
    requires |cs| > 0
    ensures exists places :: IsTied(cs, places) && PickPrefill(cs, counter) == cs[places[counter % |places|]]
  {
    TiedIsLeast(cs);
    var m := MinIndex(cs, ByLoad());
    var places := WithKeyPlaces(cs, ByLoad(), LoadScore(cs[m]));
    SortedHead(cs);
    forall k: nat ensures k in places <==> k < |cs| && IsLeastLoaded(cs, cs[k]) {
      if k < |cs| {
        assert cs[k] in cs && (IsLeastLoaded(cs, cs[k]) <==> NoBusier(cs[k], cs[m]) && NoBusier(cs[m], cs[k]));
      }
    }
    assert IsTied(cs, places);
  }

  lemma AllIdle(urls: seq<string>, role: string, places: seq<nat>)
    requires IsTied(Static(role, urls), places)
    ensures |places| == |urls| && forall i :: 0 <= i < |urls| ==> places[i] == i
  {
    var cs := Static(role, urls);
    forall k: nat ensures k in places <==> k < |urls| {
      assert k < |cs| ==> cs[k] in cs && IsLeastLoaded(cs, cs[k]);
    }
    AllPlaces(places, |urls|);
  }

  /** With no one registered, prefill goes round the configured urls. */
  lemma PrefillGoesRound(urls: seq<string>, counter: nat)
    requires |urls| > 0
    ensures var i := counter % |urls|;
      PickPrefill(Candidates("prefill", [], urls), counter) == Backend("prefill-" + Decimal(i), urls[i], 0, 0, 0.0)
  {
    var cs := Static("prefill", urls);
    var i := counter % |urls|;
    assert PickPrefill(cs, counter) == cs[i] by {
      PrefillTakesTurns(cs, counter);
      var places :| IsTied(cs, places) && PickPrefill(cs, counter) == cs[places[counter % |places|]];
      AllIdle(urls, "prefill", places);
      assert places[i] == i;
    }
  }

  /** n consecutive picks from a fixed list. */
  function Picks(cs: seq<Backend>, counter: nat, n: nat): seq<Backend>
    requires |cs| > 0
  {
    if n == 0 then [] else Picks(cs, counter, n - 1) + [PickPrefill(cs, counter + n - 1)]
  }

  lemma ModNext(c: nat, n: nat)
    requires n > 0
    ensures (c + 1) % n == if c % n + 1 == n then 0 else c % n + 1
  {
    var q, r := c / n, c % n;
    assert c + 1 == n * q + (r + 1);
    if r + 1 == n {
      assert c + 1 == n * (q + 1) + 0;
      ModUnique(c + 1, n, q + 1, 0);
    } else {
      ModUnique(c + 1, n, q, r + 1);
    }
  }

  lemma {:induction false} OneStep(n: nat, q: int, q': int)
    requires q < q'
    ensures n * q + n <= n * q'
    decreases q' - q
  {
    assert n * (q' - 1) == n * q' - n;
    if q < q' - 1 {
      OneStep(n, q, q' - 1);
    }
  }

  lemma ModUnique(x: nat, n: nat, q: nat, r: nat)
    requires n > 0 && x == n * q + r && r < n
    ensures x % n == r
  {
    var q' := x / n;
    if q < q' {
      OneStep(n, q, q');
    } else if q' < q {
      OneStep(n, q', q);
    }
  }

  /** Where a counter that started at c stands after i steps around a ring of n places. */
  lemma {:induction false} RingPosition(c: nat, i: nat, n: nat)
    requires i < n
    ensures (c + i) % n == if c % n + i < n then c % n + i else c % n + i - n
  {
    if i == 0 {
    } else {
      RingPosition(c, i - 1, n);
      ModNext(c + i - 1, n);
    }
  }

  function Stretch(tied: seq<Backend>, r: nat, n: nat): seq<Backend>
    requires r < |tied| && n <= |tied|
  {
    if r + n <= |tied| then tied[r..r + n] else tied[r..] + tied[..r + n - |tied|]
  }

  lemma StretchNext(tied: seq<Backend>, r: nat, n: nat)
    requires r < |tied| && n < |tied|
    ensures Stretch(tied, r, n + 1) == Stretch(tied, r, n) + [tied[if r + n < |tied| then r + n else r + n - |tied|]]
  {
  }

  function Place(tied: seq<Backend>, counter: nat): Backend
    requires |tied| > 0
  {
    tied[counter % |tied|]
  }

  lemma PlaceIs(tied: seq<Backend>, counter: nat, r: nat, i: nat)
    requires i < |tied| && r == counter % |tied|
    ensures Place(tied, counter + i) == tied[if r + i < |tied| then r + i else r + i - |tied|]
  {
    RingPosition(counter, i, |tied|);
  }

  /** n consecutive places of the ring. */
  function Ring(tied: seq<Backend>, counter: nat, n: nat): seq<Backend>
    requires |tied| > 0
  {
    if n == 0 then [] else Ring(tied, counter, n - 1) + [Place(tied, counter + n - 1)]
  }

  /** They are a stretch of the tied list, wrapped around at its end. */
  lemma {:induction false} RingIsStretch(tied: seq<Backend>, counter: nat, r: nat, n: nat)
    requires |tied| > 0 && r == counter % |tied| && n <= |tied|
    ensures r < |tied| && Ring(tied, counter, n) == Stretch(tied, r, n)
  {
    if n == 0 {
    } else {
      RingIsStretch(tied, counter, r, n - 1);
      PlaceIs(tied, counter, r, n - 1);
      StretchNext(tied, r, n - 1);
    }
  }

  lemma {:induction false} PicksAreRing(cs: seq<Backend>, counter: nat, n: nat)
    requires |cs| > 0
    ensures Picks(cs, counter, n) == Ring(Tied(cs), counter, n)
  {
    if n == 0 {
    } else {
      PicksAreRing(cs, counter, n - 1);
    }
  }

  /** Fairness: any n consecutive picks, n the number tied, choose each tied backend exactly once,
      from whatever value the counter has. */
  lemma PrefillIsFair(cs: seq<Backend>, counter: nat)
    requires |cs| > 0
    ensures multiset(Picks(cs, counter, |Tied(cs)|)) == multiset(Tied(cs))
  {
    var tied := Tied(cs);
    var r := counter % |tied|;
    PicksAreRing(cs, counter, |tied|);
    RingIsStretch(tied, counter, r, |tied|);
    assert tied == tied[..r] + tied[r..];
    assert Stretch(tied, r, |tied|) == tied[r..] + tied[..r];
  }

  // --------------------------------------------------------------- decode

  ghost predicate IsLastNamed(cs: seq<Backend>, name: string, i: nat) {
    i < |cs| && cs[i].name == name && forall j :: i < j < |cs| ==> cs[j].name != name
  }

  /** `{c.name: c for c in candidates}[name]`: the last candidate of that name. */
  function Named(cs: seq<Backend>, name: string): (b: Option<Backend>)
    ensures b.Some? <==> exists i :: 0 <= i < |cs| && cs[i].name == name
    ensures b.Some? ==> exists i :: 0 <= i < |cs| && b.value == cs[i] && IsLastNamed(cs, name, i)
  {
    var n := |cs| - 1;
    if n < 0 then None
    else if cs[n].name == name then Some(cs[n])
    else
      var r := Named(cs[..n], name);
      assert forall i :: 0 <= i < n ==> cs[..n][i] == cs[i];
      assert r.Some? ==> exists i :: 0 <= i < n && r.value == cs[i] && IsLastNamed(cs[..n], name, i) && IsLastNamed(cs, name, i);
      r
  }

  function Pinned(pins: Pins, session: string): string {
    if session in pins then pins[session] else ""
  }

  function PickDecode(cs: seq<Backend>, pins: Pins, session: string): Choice
    requires |cs| > 0
  {
    var pinned := Named(cs, Pinned(pins, session));
    if Pinned(pins, session) != "" && pinned.Some? then Choice(pinned.value, CacheHit, pins)
    else
      var chosen := Sort(cs, ByLoad())[0];
      Choice(chosen, CacheMiss, pins[session := chosen.name])
  }

  function Others(cs: seq<Backend>, exclude: string): seq<Backend> {
    if |cs| == 0 then [] else (if cs[0].name == exclude then [] else [cs[0]]) + Others(cs[1..], exclude)
  }

  function PickFallback(cs: seq<Backend>, exclude: string): Option<Backend> {
    var rest := Others(cs, exclude);
    if |rest| == 0 then None else Some(Sort(rest, ByLoad())[0])
  }

  lemma {:induction false} OthersMembers(cs: seq<Backend>, exclude: string)
    ensures forall b :: b in Others(cs, exclude) <==> b in cs && b.name != exclude
  {
    if |cs| == 0 {
    } else {
      OthersMembers(cs[1..], exclude);
      assert forall b :: b in cs <==> b == cs[0] || b in cs[1..];
    }
  }

  /** Others by positions: all but those of that name, in order. */
  lemma {:induction false} OthersPlaces(cs: seq<Backend>, exclude: string) returns (places: seq<nat>)
    ensures StandsAt(cs, places, Others(cs, exclude)) && Ascending(places)
    ensures forall k: nat :: k in places <==> k < |cs| && cs[k].name != exclude
  {
    if |cs| == 0 {
      places := [];
    } else {
      var rest := OthersPlaces(cs[1..], exclude);
      ShiftedStands(cs, rest, Others(cs[1..], exclude));
      places := if cs[0].name != exclude then [0] + Shifted(rest) else Shifted(rest);
      forall k: nat ensures k in places <==> k < |cs| && cs[k].name != exclude {
        assert k > 0 ==> (k - 1 in rest <==> k - 1 < |cs[1..]| && cs[1..][k - 1].name != exclude);
      }
    }
  }

  /** The candidate at k goes by another name, is no busier than any other such, and is the first of
      the least busy. */
  ghost predicate IsFirstOther(cs: seq<Backend>, exclude: string, k: nat) {
    && k < |cs| && cs[k].name != exclude
    && forall j :: 0 <= j < |cs| && cs[j].name != exclude ==> NoBusier(cs[k], cs[j]) && (j < k ==> !NoBusier(cs[j], cs[k]))
  }

  /** The first of the least busy others is the first of the least busy once the rest is left out. */
  lemma FirstOther(cs: seq<Backend>, exclude: string, m: nat) returns (k: nat)
    requires IsFirstLeast(Others(cs, exclude), m)
    ensures IsFirstOther(cs, exclude, k) && cs[k] == Others(cs, exclude)[m]
  {
    var rest := Others(cs, exclude);
    var places := OthersPlaces(cs, exclude);
    k := places[m];
    assert k in places;
    forall j | 0 <= j < |cs| && cs[j].name != exclude
      ensures NoBusier(cs[k], cs[j]) && (j < k ==> !NoBusier(cs[j], cs[k]))
    {
      assert j in places;
      var i :| 0 <= i < |places| && places[i] == j;
      assert rest[i] == cs[j] && rest[i] in rest;
      assert j < k ==> i < m;
    }
  }

  /** The fallback is the least-loaded candidate other than the failed one, the first if several are
      level; there is none exactly when nothing else is listed. */
  lemma FallbackIsLeastLoadedOther(cs: seq<Backend>, exclude: string)
    ensures PickFallback(cs, exclude).None? <==> forall b :: b in cs ==> b.name == exclude
    ensures PickFallback(cs, exclude).Some? ==>
      var b := PickFallback(cs, exclude).value;
      && b in cs && b.name != exclude && (forall c :: c in cs && c.name != exclude ==> NoBusier(b, c))
      && exists k :: 0 <= k < |cs| && b == cs[k] && IsFirstOther(cs, exclude, k)
  {
    var rest := Others(cs, exclude);
    OthersMembers(cs, exclude);
    if |rest| > 0 {
      SortedHead(rest);
      assert rest[0] in rest;
      var k := FirstOther(cs, exclude, MinIndex(rest, ByLoad()));
    } else {
      assert forall b :: b in cs && b.name != exclude ==> b in rest;
    }
  }

  /** After any decode selection the session is pinned to what was selected; a hit keeps a pin
      that names a listed backend, a miss takes the first of the least loaded. */
  lemma DecodeIsSticky(cs: seq<Backend>, pins: Pins, session: string)
    requires |cs| > 0
    ensures var c := PickDecode(cs, pins, session);
      && c.backend in cs
      && Pinned(c.pins, session) == c.backend.name
      && (c.decision.CacheHit? <==> Pinned(pins, session) != "" && exists b :: b in cs && b.name == Pinned(pins, session))
      && (c.decision.CacheHit? ==> c.pins == pins)
      && (c.decision.CacheMiss? ==> IsLeastLoaded(cs, c.backend))
      && forall s :: s != session ==> Pinned(c.pins, s) == Pinned(pins, s)
    ensures var c := PickDecode(cs, pins, session);
      && (c.decision.CacheHit? ==> exists i :: 0 <= i < |cs| && c.backend == cs[i] && IsLastNamed(cs, Pinned(pins, session), i))
      && (c.decision.CacheMiss? ==> exists i :: 0 <= i < |cs| && c.backend == cs[i] && IsFirstLeast(cs, i))
  {
    SortedHead(cs);
    var name := Pinned(pins, session);
    if Named(cs, name).Some? {
      var i :| 0 <= i < |cs| && Named(cs, name).value == cs[i] && IsLastNamed(cs, name, i);
    } else {
      forall b | b in cs ensures b.name != name {
        var i :| 0 <= i < |cs| && cs[i] == b;
      }
    }
  }

  /** With no one registered, a miss takes the first configured url ... */
  lemma MissGoesFirst(urls: seq<string>, pins: Pins, session: string)
    requires |urls| > 0 && PickDecode(Static("decode", urls), pins, session).decision.CacheMiss?
    ensures PickDecode(Static("decode", urls), pins, session).backend == Backend("decode-0", urls[0], 0, 0, 0.0)
  {
    var cs := Static("decode", urls);
    DecodeIsSticky(cs, pins, session);
    var i :| 0 <= i < |cs| && PickDecode(cs, pins, session).backend == cs[i] && IsFirstLeast(cs, i);
    assert i > 0 ==> NoBusier(cs[0], cs[i]);
    assert Decimal(0) == "0";
  }

  /** ... and a fallback that one too, or the second after a failure of the first. */
  lemma FallbackGoesNext(urls: seq<string>, exclude: string)
    ensures var fb := PickFallback(Static("decode", urls), exclude);
      var i := if exclude == "decode-0" then 1 else 0;
      fb == if i < |urls| then Some(Backend("decode-" + Decimal(i), urls[i], 0, 0, 0.0)) else None
  {
    var cs := Static("decode", urls);
    var fb := PickFallback(cs, exclude);
    FallbackIsLeastLoadedOther(cs, exclude);
    StaticNamesDistinct("decode", urls);
    assert Decimal(0) == "0" && "decode" + "-" + "0" == "decode-0";
    assert |cs| > 0 ==> cs[0] in cs && cs[0].name == "decode-0";
    assert |cs| > 1 ==> cs[1] in cs && cs[1].name != cs[0].name;
    if fb.Some? {
      var k :| 0 <= k < |cs| && fb.value == cs[k] && IsFirstOther(cs, exclude, k);
      var i := if exclude == "decode-0" then 1 else 0;
      assert k > i ==> NoBusier(cs[i], cs[k]);
      assert k == i && fb == Some(cs[i]);
      assert "decode" + "-" == "decode-";
      assert cs[i] == Backend("decode-" + Decimal(i), urls[i], 0, 0, 0.0);
    }
  }

  // ------------------------------------------------------------- the class

  class RoutingPolicy {
    const prefillUrls: seq<string>
    const decodeUrls: seq<string>
    var rrPrefill: nat
    var pins: Pins

    constructor (prefillUrls: seq<string>, decodeUrls: seq<string>, pins: Pins)
      ensures this.prefillUrls == prefillUrls && this.decodeUrls == decodeUrls
      ensures rrPrefill == 0 && this.pins == pins
    {
      this.prefillUrls, this.decodeUrls, rrPrefill, this.pins := prefillUrls, decodeUrls, 0, pins;
    }

    /** `select_prefill`; None stands for NoBackendError, which leaves the counter alone. */
    method SelectPrefill(listed: seq<Backend>) returns (r: Option<Backend>)
      modifies this`rrPrefill
      ensures var cs := Candidates("prefill", listed, prefillUrls);
        && (r.None? <==> |cs| == 0)
        && (r.None? ==> rrPrefill == old(rrPrefill))
        && (r.Some? ==> r.value == PickPrefill(cs, old(rrPrefill)) && rrPrefill == old(rrPrefill) + 1)
      ensures r.None? <==> |listed| == 0 && |prefillUrls| == 0
      ensures |listed| > 0 ==> r.value in listed && forall c :: c in listed ==>
        (r.value.queueDepth + r.value.activeBatch) as real + r.value.utilization <= (c.queueDepth + c.activeBatch) as real + c.utilization
      ensures |listed| > 0 ==>
        exists places :: IsTied(listed, places) && r.value == listed[places[old(rrPrefill) % |places|]]
      ensures |listed| == 0 && r.Some? ==>
        var i := old(rrPrefill) % |prefillUrls|; r.value == Backend("prefill-" + Decimal(i), prefillUrls[i], 0, 0, 0.0)
    {
      var candidates := Candidates("prefill", listed, prefillUrls);
      if |candidates| == 0 {
        return None;
      }
      var tied := Tied(candidates);
      r := Some(tied[rrPrefill % |tied|]);
      PrefillIsLeastLoaded(candidates, rrPrefill);
      PrefillTakesTurns(candidates, rrPrefill);
      if |listed| == 0 {
        PrefillGoesRound(prefillUrls, rrPrefill);
      }
      rrPrefill := rrPrefill + 1;
    }

    /** `select_decode`; None stands for NoBackendError. */
    method SelectDecode(session: string, listed: seq<Backend>) returns (r: Option<(Backend, Decision)>)
      modifies this`pins
      ensures var cs := Candidates("decode", listed, decodeUrls);
        && (r.None? <==> |cs| == 0)
        && (r.None? ==> pins == old(pins))
        && (r.Some? ==> Choice(r.value.0, r.value.1, pins) == PickDecode(cs, old(pins), session))
      ensures r.None? <==> |listed| == 0 && |decodeUrls| == 0
      ensures |listed| > 0 ==> var b := r.value.0;
        && b in listed
        && (r.value.1.CacheHit? <==>
            session in old(pins) && old(pins)[session] != "" && exists c :: c in listed && c.name == old(pins)[session])
        && (r.value.1.CacheHit? ==> b.name == old(pins)[session] && pins == old(pins))
        && (r.value.1.CacheMiss? ==> pins == old(pins)[session := b.name] && forall c :: c in listed ==>
          (b.queueDepth + b.activeBatch) as real + b.utilization <= (c.queueDepth + c.activeBatch) as real + c.utilization)
      ensures |listed| > 0 && r.value.1.CacheHit? ==>
        exists i :: 0 <= i < |listed| && r.value.0 == listed[i] && IsLastNamed(listed, old(pins)[session], i)
      ensures |listed| > 0 && r.value.1.CacheMiss? ==>
        exists i :: 0 <= i < |listed| && r.value.0 == listed[i] && IsFirstLeast(listed, i)
      ensures |listed| == 0 && r.Some? && r.value.1.CacheMiss? ==> r.value.0 == Backend("decode-0", decodeUrls[0], 0, 0, 0.0)
    {
      var candidates := Candidates("decode", listed, decodeUrls);
      if |candidates| == 0 {
        return None;
      }
      DecodeIsSticky(candidates, pins, session);
      var pinned := Pinned(pins, session);
      var hit := Named(candidates, pinned);
      if pinned != "" && hit.Some? {
        return Some((hit.value, CacheHit));
      }
      candidates := Sort(candidates, ByLoad());
      pins := pins[session := candidates[0].name];
      r := Some((candidates[0], CacheMiss));
      if |listed| == 0 {
        MissGoesFirst(decodeUrls, old(pins), session);
      }
    }

    /** `fallback_decode`. */
    method FallbackDecode(session: string, exclude: string, listed: seq<Backend>) returns (r: Option<Backend>)
      modifies this`pins
      ensures r == PickFallback(Candidates("decode", listed, decodeUrls), exclude)
      ensures pins == if r.Some? then old(pins)[session := r.value.name] else old(pins)
      ensures |listed| > 0 ==>
        && (r.None? <==> forall c :: c in listed ==> c.name == exclude)
        && (r.Some? ==> var b := r.value;
          b in listed && b.name != exclude && forall c :: c in listed && c.name != exclude ==>
            (b.queueDepth + b.activeBatch) as real + b.utilization <= (c.queueDepth + c.activeBatch) as real + c.utilization)
      ensures |listed| > 0 && r.Some? ==> exists k :: 0 <= k < |listed| && r.value == listed[k] && IsFirstOther(listed, exclude, k)
      ensures |listed| == 0 ==> var i := if exclude == "decode-0" then 1 else 0;
        r == if i < |decodeUrls| then Some(Backend("decode-" + Decimal(i), decodeUrls[i], 0, 0, 0.0)) else None
    {
      FallbackIsLeastLoadedOther(Candidates("decode", listed, decodeUrls), exclude);
      if |listed| == 0 {
        FallbackGoesNext(decodeUrls, exclude);
      }
      var candidates := Others(Candidates("decode", listed, decodeUrls), exclude);
      if |candidates| == 0 {
        return None;
      }
      candidates := Sort(candidates, ByLoad());
      pins := pins[session := candidates[0].name];
      r := Some(candidates[0]);
    }
  }
}
