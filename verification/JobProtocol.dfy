/**
 * The protocol around one job: any number of executors, deliveries, callbacks, maintenance
 * rounds and users act on the same row. Every event is one committed transaction, the death
 * of an executor, or the passing of time, so a crash may fall between any two of them.
 */
module JobProtocol {
  import opened Basics
  import opened IngestJob

  /** What a running `_processar` keeps in memory after its first commit. */
  datatype Executor = Executor(inicio: int, plano: Plano, novos: seq<Item>)

  datatype Sistema = Sistema(job: Job, vivos: map<nat, Executor>, agora: int)

  /** `timeout` is JOB_TIMEOUT; `lease` is the age at which an execution counts as abandoned. */
  datatype Protocolo = Protocolo(todas: seq<Unidade>, timeout: nat, lease: nat)

  datatype Evento =
    | Claim(id: nat, iniciadoEm: int)            // claim and first checkpoint, one transaction
    | CommitUnidade(id: nat, ok: bool)           // one unit succeeded or failed
    | CommitFinal(id: nat, timeoutDepois: bool)  // last commit; the timeout may still fire after it
    | Aborta(id: nat, fase: Fase)                // exception after the first commit
    | Morre(id: nat)                             // killed: nothing is written
    | FalhaAntesDoCommit(fase: Fase)             // exception before the first commit
    | Callback(fase: Fase)                       // rq_failure_callback, rq_work_horse_killed
    | FalhaDeFila                                // _queue_failure
    | Reconcilia                                 // reconcile_abandoned
    | Retry
    | Cancela
    | Avanca(dt: nat)

  /** The value of `stage` an executor can be in when its handler runs. */
  predicate FaseDoExecutor(ex: Executor, fase: Fase) {
    var n, us := |ex.novos|, ex.plano.unidades;
    match fase
    case FasePreparacao => n == 0
    case FaseUnidade(u) => (n < |us| && u == us[n]) || (0 < n <= |us| && u == us[n - 1])
    case FasePosJob => n == |us|
    case _ => false
  }

  /** One event; None when it cannot happen in this state. */
  function Passo(p: Protocolo, s: Sistema, e: Evento): Option<Sistema> {
    match e
    case Claim(id, iniciadoEm) =>
      if s.job.status == NaFila && id !in s.vivos && 0 <= s.agora - iniciadoEm <= p.timeout then
        var plano := RetryPlan(p.todas, s.job);
        Some(Sistema(AposClaim(p.todas, s.job, iniciadoEm),
                     s.vivos[id := Executor(iniciadoEm, plano, [])], s.agora))
      else None
    case CommitUnidade(id, ok) =>
      if id in s.vivos && |s.vivos[id].novos| < |s.vivos[id].plano.unidades| then
        var ex := s.vivos[id];
        var novos := ex.novos + [Item(ex.plano.unidades[|ex.novos|], ok)];
        Some(s.(job := AposUnidade(s.job, ex.plano, novos), vivos := s.vivos[id := ex.(novos := novos)]))
      else None
    case CommitFinal(id, timeoutDepois) =>
      if id in s.vivos && |s.vivos[id].novos| == |s.vivos[id].plano.unidades| then
        var job := AposFinal(s.job, s.vivos[id].plano.base + s.vivos[id].novos);
        Some(s.(job := if timeoutDepois then ComFalha(job, FasePosJob) else job, vivos := s.vivos - {id}))
      else None
    case Aborta(id, fase) =>
      if id in s.vivos && FaseDoExecutor(s.vivos[id], fase) then
        Some(s.(job := ComFalha(s.job, fase), vivos := s.vivos - {id}))
      else None
    case Morre(id) =>
      if id in s.vivos then Some(s.(vivos := s.vivos - {id})) else None
    case FalhaAntesDoCommit(fase) =>
      if fase == FaseClaim || fase == FaseInicializacao then Some(s.(job := ComFalha(s.job, fase))) else None
    case Callback(fase) =>
      if (fase == FaseFailureCallback || fase == FaseWorkHorseKilled)
        && (s.job.status == NaFila || s.job.status == Executando)
      then Some(s.(job := ComFalha(s.job, fase))) else None
    case FalhaDeFila =>
      if s.job.status == NaFila then Some(s.(job := ComFalha(s.job, FaseFila))) else None
    case Reconcilia =>
      if s.job.status == Executando && s.job.iniciadoEm.Some? && s.job.iniciadoEm.value < s.agora - p.lease
      then Some(s.(job := AposReconciliacao(s.job))) else None
    case Retry =>
      if s.job.status == Falhou && Retentavel(s.job) then Some(s.(job := AposRetry(p.todas, s.job))) else None
    case Cancela =>
      if s.job.status == NaFila then Some(s.(job := s.job.(status := Cancelado))) else None
    case Avanca(dt) =>
      if forall id :: id in s.vivos ==> s.agora + dt - s.vivos[id].inicio <= p.timeout
      then Some(s.(agora := s.agora + dt)) else None
  }

  function Executar(p: Protocolo, s: Sistema, evs: seq<Evento>): Option<Sistema>
    decreases |evs|
  {
    if evs == [] then Some(s)
    else match Passo(p, s, evs[0])
      case None => None
      case Some(t) => Executar(p, t, evs[1..])
  }

  /** A new row; its total is an estimate made before the units are known. */
  function Inicial(p: Protocolo, agora: int, total: nat): Sistema {
    Sistema(NovoJob(total), map[], agora)
  }

  /** A failure written by someone who is not the executor that owns the row. */
  predicate Alheia(e: Evento) {
    e.FalhaAntesDoCommit? || e.Callback?
  }

  predicate Inofensivo(s: Sistema, e: Evento) {
    Alheia(e) ==> s.vivos == map[]
  }

  /** `evs` leads from `s` to `t`, and no foreign failure hits a live executor on the way. */
  ghost predicate Chega(p: Protocolo, s: Sistema, evs: seq<Evento>, t: Sistema)
    decreases |evs|
  {
    if evs == [] then s == t
    else Inofensivo(s, evs[0]) && Passo(p, s, evs[0]).Some? && Chega(p, Passo(p, s, evs[0]).value, evs[1..], t)
  }

  ghost predicate Alcancavel(p: Protocolo, t: Sistema) {
    exists agora: int, total: nat, evs: seq<Evento> :: Chega(p, Inicial(p, agora, total), evs, t)
  }

  lemma {:induction false} ChegaExecuta(p: Protocolo, s: Sistema, evs: seq<Evento>, t: Sistema)
    requires Chega(p, s, evs, t)
    ensures Executar(p, s, evs) == Some(t)
    decreases |evs|
  {
    if evs != [] { ChegaExecuta(p, Passo(p, s, evs[0]).value, evs[1..], t); }
  }

  lemma {:induction false} ChegaConcat(p: Protocolo, s: Sistema, a: seq<Evento>, t: Sistema, b: seq<Evento>, r: Sistema)
    requires Chega(p, s, a, t) && Chega(p, t, b, r)
    ensures Chega(p, s, a + b, r)
    decreases |a|
  {
    if a == [] {
      assert a + b == b;
    } else {
      assert (a + b)[0] == a[0] && (a + b)[1..] == a[1..] + b;
      ChegaConcat(p, Passo(p, s, a[0]).value, a[1..], t, b, r);
    }
  }

  lemma AlcancavelMais(p: Protocolo, s: Sistema, evs: seq<Evento>, t: Sistema)
    requires Alcancavel(p, s) && Chega(p, s, evs, t)
    ensures Alcancavel(p, t)
  {
    var agora: int, total: nat, ini: seq<Evento> :| Chega(p, Inicial(p, agora, total), ini, s);
    ChegaConcat(p, Inicial(p, agora, total), ini, s, evs, t);
  }

  /** One more event at the beginning of a run. */
  lemma ChegaCons(p: Protocolo, s: Sistema, e: Evento, m: Sistema, evs: seq<Evento>, t: Sistema)
    requires Passo(p, s, e) == Some(m) && Inofensivo(s, e) && Chega(p, m, evs, t)
    ensures Chega(p, s, [e] + evs, t)
  {
    assert ([e] + evs)[1..] == evs;
  }

  /**
   * The phase an exception leaves behind: before any report the preparation, after all of them what follows the
   * units, and a unit only if it is the one being run or the one just reported.
   */
  lemma PhaseOfAbort(p: Protocolo, s: Sistema, id: nat, fase: Fase)
    requires id in s.vivos && |s.vivos[id].novos| <= |s.vivos[id].plano.unidades|
    ensures var n, us := |s.vivos[id].novos|, s.vivos[id].plano.unidades;
      Passo(p, s, Aborta(id, fase)).Some? <==>
        || (fase == FasePreparacao && n == 0)
        || (fase == FasePosJob && n == |us|)
        || (n < |us| && fase == FaseUnidade(us[n]))
        || (n > 0 && fase == FaseUnidade(us[n - 1]))
  {
  }

  /** A run of a single event. */
  lemma ChegaUm(p: Protocolo, s: Sistema, e: Evento)
    requires Passo(p, s, e).Some? && Inofensivo(s, e)
    ensures Chega(p, s, [e], Passo(p, s, e).value)
  {
    assert [e][1..] == [];
    assert Chega(p, Passo(p, s, e).value, [], Passo(p, s, e).value);
  }
}
