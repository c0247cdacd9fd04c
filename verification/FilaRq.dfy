/**
 * Deliveries in Redis: the idempotent `_enqueue_unique`, and the maintenance round that
 * returns abandoned executions to the queue and redelivers every waiting job.
 */
module FilaRq {
  import opened Basics
  import opened Ordenacao
  import opened IngestJob

  datatype StatusRq = Queued | Deferred | Scheduled | Started | Finished | Failed | Stopped | Canceled

  /** The explicit RQ id: job and attempt. */
  datatype RqId = RqId(job: int, tentativa: nat)

  datatype Entrega = Entrega(status: StatusRq, worker: Option<string>)

  /** The columns of a job row that the queue looks at. */
  datatype JobSql = JobSql(id: int, status: Status, tentativas: nat, iniciadoEm: Option<int>, criadoEm: int)

  const HEARTBEAT_TOLERANCIA_SEGUNDOS: int := 150
  const LIMITE_RECONCILIACAO: nat := 1000
  const LIMITE_RECUPERACAO: nat := 10000

  function RqJobId(job: JobSql): RqId {
    RqId(job.id, job.tentativas + 1)
  }

  /** A snapshot of Redis, for contracts. */
  datatype Fila = Fila(hashes: map<RqId, Entrega>, lista: seq<RqId>, batimentos: map<string, int>)

  predicate WorkerVivo(f: Fila, e: Entrega, agora: int) {
    e.worker.Some? && e.worker.value != "" && e.worker.value in f.batimentos
    && f.batimentos[e.worker.value] >= agora - HEARTBEAT_TOLERANCIA_SEGUNDOS
  }

  /** A delivery somebody will still pick up, or is running. */
  predicate Viva(f: Fila, id: RqId, agora: int) {
    id in f.hashes &&
    match f.hashes[id].status
    case Queued => id in f.lista
    case Deferred => true
    case Scheduled => true
    case Started => WorkerVivo(f, f.hashes[id], agora)
    case _ => false
  }

  /** Nothing about `id` differs between two snapshots. */
  predicate Igual(f: Fila, g: Fila, id: RqId) {
    && f.batimentos == g.batimentos
    && (id in f.hashes <==> id in g.hashes)
    && (id in f.hashes ==> f.hashes[id] == g.hashes[id])
    && (id in f.lista <==> id in g.lista)
  }

  function SemId(lista: seq<RqId>, id: RqId): (r: seq<RqId>)
    ensures forall x :: x in r <==> x in lista && x != id
  {
    if lista == [] then []
    else
      assert forall x :: x in lista <==> x == lista[0] || x in lista[1..];
      (if lista[0] == id then [] else [lista[0]]) + SemId(lista[1..], id)
  }

  lemma OutrosIguais(f: Fila, g: Fila, h: Fila, id: RqId)
    requires forall x :: x != id ==> Igual(f, g, x)
    requires forall x :: x != id ==> Igual(g, h, x)
    ensures forall x :: x != id ==> Igual(f, h, x)
  {
    forall x | x != id ensures Igual(f, h, x) {
      assert Igual(f, g, x) && Igual(g, h, x);
    }
  }

  class Redis {
    var hashes: map<RqId, Entrega>
    var lista: seq<RqId>
    var batimentos: map<string, int>

    function Estado(): Fila
      reads this
    {
      Fila(hashes, lista, batimentos)
    }

    constructor ()
      ensures Estado() == Fila(map[], [], map[])
    {
      hashes, lista, batimentos := map[], [], map[];
    }

    /** `enqueue_call(unique=True)`; false stands for DuplicateJobError. */
    method EnqueueCall(id: RqId) returns (ok: bool)
      modifies this
      ensures ok <==> id !in old(hashes)
      ensures Estado() == if ok then Fila(old(hashes)[id := Entrega(Queued, None)], old(lista) + [id], old(batimentos))
                          else old(Estado())
      ensures forall x :: x != id ==> Igual(old(Estado()), Estado(), x)
    {
      ok := id !in hashes;
      if ok {
        hashes := hashes[id := Entrega(Queued, None)];
        lista := lista + [id];
      }
    }

    /** `existing.delete(remove_from_queue=True)`, or Redis dropping an expired key. */
    method Delete(id: RqId)
      modifies this
      ensures Estado() == Fila(old(hashes) - {id}, SemId(old(lista), id), old(batimentos))
      ensures forall x :: x != id ==> Igual(old(Estado()), Estado(), x)
    {
      hashes := hashes - {id};
      lista := SemId(lista, id);
    }

    /**
     * `_enqueue_unique`. A live delivery is left alone, a tombstone is replaced. `ttlVence`
     * says that a terminal key expires between the duplicate error and the fetch.
     */
    method EnqueueUnique(job: JobSql, agora: int, ttlVence: bool) returns (id: RqId)
      modifies this
      ensures id == RqJobId(job)
      ensures Viva(Estado(), id, agora)
      ensures id == RqId(job.id, job.tentativas + 1)
      // kept: listed, deferred, scheduled, or started under a worker heard of in the last 150 seconds
      ensures old(id in hashes && (
                  || (hashes[id].status == Queued && id in lista)
                  || hashes[id].status == Deferred || hashes[id].status == Scheduled
                  || (&& hashes[id].status == Started && hashes[id].worker.Some? && hashes[id].worker.value != ""
                      && hashes[id].worker.value in batimentos && agora - batimentos[hashes[id].worker.value] <= 150)))
              ==> Estado() == old(Estado())
      // anything else, a tombstone or nothing, gives way to a new delivery
      ensures Estado() == old(Estado()) || (hashes[id] == Entrega(Queued, None) && id in lista)
      ensures old(id !in hashes || hashes[id].status in {Finished, Failed, Stopped, Canceled}
                  || (hashes[id].status == Queued && id !in lista)
                  || (hashes[id].status == Started
                      && (hashes[id].worker == None || hashes[id].worker == Some("") || hashes[id].worker.value !in batimentos
                          || agora - batimentos[hashes[id].worker.value] > 150)))
              ==> hashes[id] == Entrega(Queued, None) && id in lista
      ensures old(Viva(Estado(), id, agora)) ==> Estado() == old(Estado())
      ensures forall x :: x != id ==> Igual(old(Estado()), Estado(), x)
    {
      id := RqJobId(job);
      var tentativa := 0;
      while tentativa < 2
        invariant 0 <= tentativa <= 2
        invariant tentativa == 0 ==> Estado() == old(Estado())
        invariant tentativa > 0 ==> id !in hashes && !old(Viva(Estado(), id, agora))
        invariant forall x :: x != id ==> Igual(old(Estado()), Estado(), x)
      {
        tentativa := tentativa + 1;
        ghost var meio := Estado();
        var ok := EnqueueCall(id);
        OutrosIguais(old(Estado()), meio, Estado(), id);
        if ok { return; }
        if ttlVence && hashes[id].status in {Finished, Failed, Stopped, Canceled} { Delete(id); }
        if id !in hashes { continue; }
        var existing := hashes[id];
        if existing.status == Queued && id !in lista {
          Delete(id);
          continue;
        }
        if existing.status in {Queued, Deferred, Scheduled} { return; }
        if existing.status == Started && WorkerVivo(Estado(), existing, agora) { return; }
        Delete(id);
      }
      ghost var meio := Estado();
      var entregue := EnqueueCall(id);
      OutrosIguais(old(Estado()), meio, Estado(), id);
    }

    /** `recover_pending`, with no Redis error. */
    method RecoverPending(jobs: seq<JobSql>, agora: int, ttlVence: bool) returns (recuperados: nat)
      requires IdsDistintos(jobs)
      modifies this
      ensures recuperados == |ListQueuedJobs(jobs)|
      ensures forall j :: j in ListQueuedJobs(jobs) ==> Viva(Estado(), RqJobId(j), agora)
      ensures forall x: RqId :: (forall j :: j in ListQueuedJobs(jobs) ==> RqJobId(j) != x) ==> Igual(old(Estado()), Estado(), x)
      ensures forall x: RqId :: old(Viva(Estado(), x, agora)) ==> Igual(old(Estado()), Estado(), x)
    {
      var fila := ListQueuedJobs(jobs);
      recuperados := 0;
      while recuperados < |fila|
        invariant 0 <= recuperados <= |fila|
        invariant forall k :: 0 <= k < recuperados ==> Viva(Estado(), RqJobId(fila[k]), agora)
        invariant forall x: RqId :: (forall k :: 0 <= k < recuperados ==> RqJobId(fila[k]) != x) ==> Igual(old(Estado()), Estado(), x)
        invariant forall x: RqId :: old(Viva(Estado(), x, agora)) ==> Igual(old(Estado()), Estado(), x)
      {
        ghost var antes, meio := old(Estado()), Estado();
        var id := EnqueueUnique(fila[recuperados], agora, ttlVence);
        ghost var depois := Estado();
        assert forall x: RqId :: x != id ==> Igual(meio, depois, x);
        forall k | 0 <= k < recuperados ensures Viva(depois, RqJobId(fila[k]), agora) {
          assert RqJobId(fila[k]) == id || Igual(meio, depois, RqJobId(fila[k]));
        }
        forall x: RqId | Viva(antes, x, agora) ensures Igual(antes, depois, x) {
          assert Igual(antes, meio, x);
          assert x == id || Igual(meio, depois, x);
        }
        forall x: RqId | forall k :: 0 <= k <= recuperados ==> RqJobId(fila[k]) != x ensures Igual(antes, depois, x) {
          assert RqJobId(fila[recuperados]) != x;
          assert Igual(antes, meio, x) && Igual(meio, depois, x);
        }
        recuperados := recuperados + 1;
      }
    }

    /** `maintain_durable_queue`, with no concurrent activity and no Redis error. */
    method MaintainDurableQueue(jobs: seq<JobSql>, agora: int, cutoff: int, ttlVence: bool)
      returns (jobs': seq<JobSql>, abandonados: nat, recuperados: nat)
      requires IdsDistintos(jobs)
      modifies this
      ensures jobs' == ReconcileAbandoned(jobs, cutoff)
      ensures |jobs'| == |jobs| && forall i :: 0 <= i < |jobs| ==>
        || jobs'[i] == jobs[i]
        || (&& jobs[i].status == Executando && jobs[i].iniciadoEm.Some? && jobs[i].iniciadoEm.value < cutoff
            && jobs'[i] == jobs[i].(status := NaFila))
      ensures abandonados == |RequeueAbandoned(jobs, cutoff)| && recuperados == |ListQueuedJobs(jobs')|
      ensures forall j :: j in ListQueuedJobs(jobs') ==> Viva(Estado(), RqJobId(j), agora)
      ensures forall x: RqId :: old(Viva(Estado(), x, agora)) ==> Igual(old(Estado()), Estado(), x) && Viva(Estado(), x, agora)
      ensures |NaFilaOrdenados(jobs')| <= LIMITE_RECUPERACAO ==>
        forall j :: j in jobs' && j.status == NaFila ==> Viva(Estado(), RqJobId(j), agora)
      ensures (forall j :: j in jobs' && j.status == NaFila ==> Viva(Estado(), RqJobId(j), agora))
         <==> (forall j :: j in ForaDoLimite(jobs') ==> old(Viva(Estado(), RqJobId(j), agora)))
    {
      abandonados := |RequeueAbandoned(jobs, cutoff)|;
      jobs' := ReconcileAbandoned(jobs, cutoff);
      ReconcileKeepsIds(jobs, cutoff);
      forall i | 0 <= i < |jobs| ensures jobs'[i] == jobs[i] || (Abandonado(jobs[i], cutoff) && jobs'[i] == jobs[i].(status := NaFila)) {
        ReconcileEffect(jobs, cutoff, i);
      }
      recuperados := RecoverPending(jobs', agora, ttlVence);
      QueuedSplit(jobs');
      ghost var antes, depois := old(Estado()), Estado();
      forall j | j in ForaDoLimite(jobs')
        ensures Viva(depois, RqJobId(j), agora) <==> Viva(antes, RqJobId(j), agora)
      {
        BeyondIsUntouched(jobs', j);
        assert Igual(antes, depois, RqJobId(j));
      }
    }
  }

  // ---------------------------------------------------------------- the SQL side

  /** `id` is the primary key. */
  ghost predicate IdsDistintos(jobs: seq<JobSql>) {
    forall i, j :: 0 <= i < j < |jobs| ==> jobs[i].id != jobs[j].id
  }

  predicate Abandonado(j: JobSql, cutoff: int) {
    j.status == Executando && j.iniciadoEm.Some? && j.iniciadoEm.value < cutoff
  }

  function Filtra(jobs: seq<JobSql>, f: JobSql -> bool): (r: seq<JobSql>)
    ensures forall x :: x in r <==> x in jobs && f(x)
    ensures |r| <= |jobs|
  {
    if jobs == [] then []
    else
      assert forall x :: x in jobs <==> x == jobs[0] || x in jobs[1..];
      (if f(jobs[0]) then [jobs[0]] else []) + Filtra(jobs[1..], f)
  }

  predicate EmEspera(j: JobSql) {
    j.status == NaFila
  }

  function Abandonados(jobs: seq<JobSql>, cutoff: int): (r: seq<JobSql>)
    ensures forall x :: x in r <==> x in jobs && Abandonado(x, cutoff)
  {
    Filtra(jobs, (j: JobSql) => Abandonado(j, cutoff))
  }

  function PorInicio(): (JobSql, JobSql) -> bool {
    (a: JobSql, b: JobSql) =>
      var x, y := if a.iniciadoEm.Some? then a.iniciadoEm.value else 0, if b.iniciadoEm.Some? then b.iniciadoEm.value else 0;
      x < y || (x == y && a.id <= b.id)
  }

  function PorCriacao(): (JobSql, JobSql) -> bool {
    (a: JobSql, b: JobSql) => a.criadoEm < b.criadoEm || (a.criadoEm == b.criadoEm && a.id <= b.id)
  }

  function Primeiros(xs: seq<JobSql>, n: nat): seq<JobSql> {
    if |xs| <= n then xs else xs[..n]
  }

  /** The rows `requeue_abandoned_jobs` locks: oldest first, at most a thousand. */
  function RequeueAbandoned(jobs: seq<JobSql>, cutoff: int): seq<JobSql> {
    Primeiros(Sort(PorInicio(), Abandonados(jobs, cutoff)), LIMITE_RECONCILIACAO)
  }

  function ReconcileAbandoned(jobs: seq<JobSql>, cutoff: int): seq<JobSql> {
    var alvo := RequeueAbandoned(jobs, cutoff);
    seq(|jobs|, i requires 0 <= i < |jobs| => if jobs[i] in alvo then jobs[i].(status := NaFila) else jobs[i])
  }

  function NaFilaOrdenados(jobs: seq<JobSql>): seq<JobSql> {
    Sort(PorCriacao(), Filtra(jobs, EmEspera))
  }

  /** `list_queued_jobs`: waiting jobs in creation order, at most ten thousand. */
  function ListQueuedJobs(jobs: seq<JobSql>): seq<JobSql> {
    Primeiros(NaFilaOrdenados(jobs), LIMITE_RECUPERACAO)
  }

  /** The waiting jobs a round does not look at. */
  function ForaDoLimite(jobs: seq<JobSql>): seq<JobSql> {
    NaFilaOrdenados(jobs)[|ListQueuedJobs(jobs)|..]
  }

  lemma ReconcileKeepsIds(jobs: seq<JobSql>, cutoff: int)
    requires IdsDistintos(jobs)
    ensures IdsDistintos(ReconcileAbandoned(jobs, cutoff))
  {
    var r := ReconcileAbandoned(jobs, cutoff);
    assert forall i :: 0 <= i < |jobs| ==> r[i].id == jobs[i].id;
  }

  lemma QueuedSplit(jobs: seq<JobSql>)
    ensures forall j :: j in jobs && j.status == NaFila <==> j in ListQueuedJobs(jobs) || j in ForaDoLimite(jobs)
  {
    var todos := NaFilaOrdenados(jobs);
    SortCorrect(PorCriacao(), Filtra(jobs, EmEspera));
    assert todos == ListQueuedJobs(jobs) + ForaDoLimite(jobs);
    forall j ensures j in jobs && j.status == NaFila <==> j in ListQueuedJobs(jobs) || j in ForaDoLimite(jobs) {
      assert j in todos <==> j in jobs && j.status == NaFila;
      assert j in todos <==> j in ListQueuedJobs(jobs) || j in ForaDoLimite(jobs);
    }
  }

  lemma {:induction false} FiltraNoDup(jobs: seq<JobSql>, f: JobSql -> bool)
    requires NoDup(jobs)
    ensures NoDup(Filtra(jobs, f))
  {
    if jobs != [] {
      assert jobs == [jobs[0]] + jobs[1..];
      NoDupConcat([jobs[0]], jobs[1..]);
      FiltraNoDup(jobs[1..], f);
      if f(jobs[0]) { NoDupConcat([jobs[0]], Filtra(jobs[1..], f)); }
    }
  }

  /** A job beyond the limit shares its delivery id with none that was listed. */
  lemma BeyondIsUntouched(jobs: seq<JobSql>, j: JobSql)
    requires IdsDistintos(jobs) && j in ForaDoLimite(jobs)
    ensures forall k :: k in ListQueuedJobs(jobs) ==> RqJobId(k) != RqJobId(j)
  {
    FiltraNoDup(jobs, EmEspera);
    SortNoDup(PorCriacao(), Filtra(jobs, EmEspera));
    assert NaFilaOrdenados(jobs) == ListQueuedJobs(jobs) + ForaDoLimite(jobs);
    NoDupConcat(ListQueuedJobs(jobs), ForaDoLimite(jobs));
    QueuedSplit(jobs);
    forall k | k in ListQueuedJobs(jobs) ensures RqJobId(k) != RqJobId(j) {
      assert k != j && k in jobs && j in jobs;
      var a :| 0 <= a < |jobs| && jobs[a] == k;
      var b :| 0 <= b < |jobs| && jobs[b] == j;
    }
  }

  /**
   * Reconciliation takes executions that started before the cutoff and no other row, all of them unless
   * they are more than a thousand, and then the oldest thousand.
   */
  lemma ReconcileEffect(jobs: seq<JobSql>, cutoff: int, i: nat)
    requires i < |jobs|
    ensures var j, r := jobs[i], ReconcileAbandoned(jobs, cutoff)[i];
      var velha := j.status == Executando && j.iniciadoEm.Some? && j.iniciadoEm.value < cutoff;
      && (!velha ==> r == j)
      && (r == j || r == j.(status := NaFila))
      && (velha && |Abandonados(jobs, cutoff)| <= LIMITE_RECONCILIACAO ==> r.status == NaFila)
  {
    SortCorrect(PorInicio(), Abandonados(jobs, cutoff));
    var j := jobs[i];
    if j in RequeueAbandoned(jobs, cutoff) {
      assert j in Sort(PorInicio(), Abandonados(jobs, cutoff));
    }
  }

  /** What was taken started no later than what was left; and nothing is left below a thousand. */
  lemma OldestAreTaken(jobs: seq<JobSql>, cutoff: int, a: JobSql, b: JobSql)
    requires a in RequeueAbandoned(jobs, cutoff) && b in jobs && b !in RequeueAbandoned(jobs, cutoff)
    requires b.status == Executando && b.iniciadoEm.Some? && b.iniciadoEm.value < cutoff
    ensures a.iniciadoEm.Some? && a.iniciadoEm.value <= b.iniciadoEm.value
    ensures a.iniciadoEm == b.iniciadoEm ==> a.id <= b.id
    ensures |RequeueAbandoned(jobs, cutoff)| == 1000
  {
    var todos := Sort(PorInicio(), Abandonados(jobs, cutoff));
    SortCorrect(PorInicio(), Abandonados(jobs, cutoff));
    assert b in todos && a in todos;
    var x :| 0 <= x < |RequeueAbandoned(jobs, cutoff)| && RequeueAbandoned(jobs, cutoff)[x] == a;
    var y :| 0 <= y < |todos| && todos[y] == b;
    assert y >= LIMITE_RECONCILIACAO > x && todos[x] == a;
    assert PorInicio()(todos[x], todos[y]);
  }

  /** Waiting jobs are listed first come, first served, and none is left out below ten thousand. */
  lemma OldestAreListed(jobs: seq<JobSql>, a: JobSql, b: JobSql)
    requires a in ListQueuedJobs(jobs) && b in ForaDoLimite(jobs)
    ensures a.criadoEm < b.criadoEm || (a.criadoEm == b.criadoEm && a.id <= b.id)
    ensures |ListQueuedJobs(jobs)| == 10000
  {
    var todos, n := NaFilaOrdenados(jobs), |ListQueuedJobs(jobs)|;
    SortCorrect(PorCriacao(), Filtra(jobs, EmEspera));
    var x :| 0 <= x < n && todos[x] == a;
    var y :| 0 <= y < |todos| - n && todos[n..][y] == b;
    assert PorCriacao()(todos[x], todos[n + y]);
  }
}
