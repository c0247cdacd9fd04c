/** Request latencies: a bounded window of samples per route and the nearest-rank P95 of it. */
module Desempenho {
  import opened Basics
  import opened Ordenacao

  datatype Snapshot = Snapshot(route: string, count: nat, p95: real, budget: real)

  datatype Observacao = Observou(route: string, ms: real) | Limpou

  /** A route's samples since the last reset, oldest first. */
  function Amostras(os: seq<Observacao>, route: string): seq<real> {
    if os == [] then []
    else match os[|os| - 1]
      case Limpou => []
      case Observou(r, ms) => Amostras(os[..|os| - 1], route) + if r == route then [ms] else []
  }

  function Ultimas(s: seq<real>, n: nat): seq<real> {
    if |s| <= n then s else s[|s| - n..]
  }

  /** How many samples are at or below `v`. */
  function AteOnde(s: seq<real>, v: real): nat {
    if s == [] then 0 else (if s[0] <= v then 1 else 0) + AteOnde(s[1..], v)
  }

  /** The least sample that at least 95% of the samples do not exceed. */
  ghost predicate EhP95(s: seq<real>, v: real) {
    && v in s
    && 100 * AteOnde(s, v) >= 95 * |s|
    && forall w :: w in s && 100 * AteOnde(s, w) >= 95 * |s| ==> v <= w
  }

  /** Only one value is. */
  lemma P95Unique(s: seq<real>, v: real, w: real)
    requires EhP95(s, v) && EhP95(s, w)
    ensures v == w
  {
  }

  function RealLeq(a: real, b: real): bool {
    a <= b
  }

  lemma {:induction false} CountInserted(x: real, s: seq<real>, v: real)
    ensures AteOnde(Insert(RealLeq, x, s), v) == AteOnde(s, v) + if x <= v then 1 else 0
  {
    var r := Insert(RealLeq, x, s);
    if s == [] || x <= s[0] {
      assert r[1..] == s;
    } else {
      CountInserted(x, s[1..], v);
      assert r[1..] == Insert(RealLeq, x, s[1..]);
    }
  }

  lemma {:induction false} CountSorted(s: seq<real>, v: real)
    ensures AteOnde(Sort(RealLeq, s), v) == AteOnde(s, v)
  {
    if s != [] {
      CountSorted(s[1..], v);
      CountInserted(s[0], Sort(RealLeq, s[1..]), v);
    }
  }

  /** In a sorted list the i-th sample tells how many are at or below a value. */
  lemma {:induction false} CountByRank(o: seq<real>, i: nat, v: real)
    requires SortedBy(RealLeq, o) && i < |o|
    ensures AteOnde(o, v) >= i + 1 <==> o[i] <= v
  {
    if |o| > 1 {
      assert RealLeq(o[0], o[1]) && (i > 0 ==> RealLeq(o[0], o[i]));
      assert forall a, b :: 0 <= a < b < |o[1..]| ==> RealLeq(o[1..][a], o[1..][b]) by {
        forall a, b | 0 <= a < b < |o[1..]| ensures RealLeq(o[1..][a], o[1..][b]) {
          assert RealLeq(o[a + 1], o[b + 1]);
        }
      }
      CountByRank(o[1..], if i > 0 && o[0] <= v then i - 1 else 0, v);
    }
  }

  /** `max(0, ceil(n * 0.95) - 1)`. */
  function Rank(n: nat): int {
    Max(0, (95 * n + 99) / 100 - 1)
  }

  lemma RankIsP95(s: seq<real>)
    requires s != []
    ensures 0 <= Rank(|s|) < |Sort(RealLeq, s)| == |s| && EhP95(s, Sort(RealLeq, s)[Rank(|s|)])
  {
    var o, n := Sort(RealLeq, s), |s|;
    SortCorrect(RealLeq, s);
    var k := Rank(n);
    assert 1 <= n ==> (95 * n + 99) / 100 >= 1;
    var v := o[k];
    assert v in o;
    CountByRank(o, k, v);
    CountSorted(s, v);
    forall w | w in s && 100 * AteOnde(s, w) >= 95 * n ensures v <= w {
      CountSorted(s, w);
      CountByRank(o, k, w);
    }
  }

  lemma WindowAppend(s: seq<real>, x: real, n: nat)
    requires n > 0
    ensures Ultimas(s + [x], n) == if |Ultimas(s, n)| == n then Ultimas(s, n)[1..] + [x] else Ultimas(s, n) + [x]
  {
  }

  class PerformanceRecorder {
    const budget: real
    const windowSize: nat
    var samples: map<string, seq<real>>
    ghost var log: seq<Observacao>

    ghost predicate Valid()
      reads this
    {
      windowSize > 0 && Todas(samples, log, windowSize)
    }

    constructor (budget: real, windowSize: nat)
      requires windowSize > 0
      ensures Valid() && log == [] && this.budget == budget && this.windowSize == windowSize
    {
      this.budget, this.windowSize := budget, windowSize;
      samples, log := map[], [];
    }

    /** After any history: the window is the route's last samples, and the value is the P95 of that window. */
    method Observe(route: string, ms: real) returns (r: Snapshot)
      requires Valid()
      modifies this
      ensures Valid() && log == old(log) + [Observou(route, ms)]
      ensures var w := Ultimas(Amostras(log, route), windowSize);
        r.route == route && r.count == |w| && r.budget == budget && EhP95(w, r.p95) && w[|w| - 1] == ms
    {
      assert Cauda(samples, log, route, windowSize);
      var s := if route in samples then samples[route] else [];
      s := if |s| == windowSize then s[1..] + [ms] else s + [ms];
      ObserveKeeps(samples, log, route, ms, windowSize, s);
      samples := samples[route := s];
      log := log + [Observou(route, ms)];
      assert Cauda(samples, log, route, windowSize);
      r := Tira(route, s);
    }

    method Tira(route: string, s: seq<real>) returns (r: Snapshot)
      requires s != []
      ensures r.route == route && r.count == |s| && r.budget == budget && EhP95(s, r.p95)
    {
      var ordered := Sort(RealLeq, s);
      RankIsP95(s);
      r := Snapshot(route, |ordered|, ordered[Rank(|ordered|)], budget);
    }

    method SnapshotOf(route: string) returns (r: Option<Snapshot>)
      requires Valid()
      ensures r == None <==> Amostras(log, route) == []
      ensures r.Some? ==>
        var w := Ultimas(Amostras(log, route), windowSize);
        r.value.route == route && r.value.count == |w| && r.value.budget == budget && EhP95(w, r.value.p95)
    {
      assert Cauda(samples, log, route, windowSize);
      if route !in samples || samples[route] == [] { return None; }
      var s := Tira(route, samples[route]);
      r := Some(s);
    }

    method Reset()
      requires Valid()
      modifies this
      ensures Valid() && log == old(log) + [Limpou] && samples == map[]
    {
      samples, log := map[], log + [Limpou];
      forall r ensures Cauda(samples, log, r, windowSize) {
        assert Amostras(log, r) == [];
      }
    }
  }

  /** A route's bounded deque is the tail of its samples. */
  ghost predicate Cauda(samples: map<string, seq<real>>, log: seq<Observacao>, route: string, n: nat) {
    && (route in samples <==> Amostras(log, route) != [])
    && (route in samples ==> samples[route] == Ultimas(Amostras(log, route), n))
  }

  ghost predicate Todas(samples: map<string, seq<real>>, log: seq<Observacao>, n: nat) {
    forall r :: Cauda(samples, log, r, n)
  }

  lemma ObserveKeeps(samples: map<string, seq<real>>, log: seq<Observacao>, route: string, ms: real, n: nat, s: seq<real>)
    requires n > 0 && Todas(samples, log, n)
    requires var a := if route in samples then samples[route] else []; s == if |a| == n then a[1..] + [ms] else a + [ms]
    ensures s == Ultimas(Amostras(log + [Observou(route, ms)], route), n) && s != [] && s[|s| - 1] == ms
    ensures Todas(samples[route := s], log + [Observou(route, ms)], n)
  {
    var log', samples' := log + [Observou(route, ms)], samples[route := s];
    assert log'[..|log|] == log;
    WindowAppend(Amostras(log, route), ms, n);
    assert Cauda(samples, log, route, n);
    forall r ensures Cauda(samples', log', r, n) {
      assert Cauda(samples, log, r, n);
    }
  }

  /** Both arguments are checked before a recorder exists. */
  method Criar(budget: real, windowSize: int) returns (r: PerformanceRecorder?)
    ensures r != null <==> budget > 0.0 && windowSize > 0
    ensures r != null ==> fresh(r) && r.Valid() && r.log == [] && r.budget == budget && r.windowSize == windowSize
  {
    if budget <= 0.0 || windowSize <= 0 { return null; }
    r := new PerformanceRecorder(budget, windowSize);
  }
}
