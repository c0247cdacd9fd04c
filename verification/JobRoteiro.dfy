/**
 * One delivery of a job: what may happen around it, the events this gives in the protocol, and the
 * row that it leaves behind, read off the plan and the outcomes of the units alone, wherever the
 * process dies.
 */
module JobRoteiro {
  import opened Basics
  import opened IngestJob
  import opened JobProtocol

  /** How one unit ends for the executor. */
  datatype Desfecho = Sucesso | ErroFuncional | Timeout | Morte

  datatype Preparacao = Pronto | PreparacaoFalha | MorteAntes

  datatype PosJob = Conclui | PosJobFalha | TimeoutAposCommit | MorteNoPosJob

  /** What happens around one delivery; missing outcomes mean the process died there. */
  datatype Ambiente = Ambiente(
    claimLevanta: bool, inicializacaoLevanta: bool,
    preparacao: Preparacao, desfechos: seq<Desfecho>, posJob: PosJob)

  /** The events of an executor that has reported on `k` units. */
  function Restantes(amb: Ambiente, us: seq<Unidade>, k: nat): seq<Evento>
    requires k <= |us|
    decreases |us| - k
  {
    if k == |us| then
      match amb.posJob
      case Conclui => [CommitFinal(0, false)]
      case TimeoutAposCommit => [CommitFinal(0, true)]
      case PosJobFalha => [Aborta(0, FasePosJob)]
      case MorteNoPosJob => [Morre(0)]
    else if k >= |amb.desfechos| then [Morre(0)]
    else match amb.desfechos[k]
      case Sucesso => [CommitUnidade(0, true)] + Restantes(amb, us, k + 1)
      case ErroFuncional => [CommitUnidade(0, false)] + Restantes(amb, us, k + 1)
      case Timeout => [Aborta(0, FaseUnidade(us[k]))]
      case Morte => [Morre(0)]
  }

  /** The events of one delivery of the job, from the claim to the end of the executor. */
  function Roteiro(todas: seq<Unidade>, job: Job, agora: int, amb: Ambiente): seq<Evento> {
    if amb.claimLevanta then [FalhaAntesDoCommit(FaseClaim)]
    else if job.status != NaFila then []
    else if amb.inicializacaoLevanta then [FalhaAntesDoCommit(FaseInicializacao)]
    else
      [Claim(0, agora)] + DepoisDoClaim(amb, RetryPlan(todas, job).unidades)
  }

  /** What follows the first commit of a claimed delivery. */
  function DepoisDoClaim(amb: Ambiente, us: seq<Unidade>): seq<Evento> {
    match amb.preparacao
    case Pronto => Restantes(amb, us, 0)
    case PreparacaoFalha => [Aborta(0, FasePreparacao)]
    case MorteAntes => [Morre(0)]
  }

  /** The row together with its only executor. */
  function ComExecutor(job: Job, plano: Plano, novos: seq<Item>, agora: int): Sistema {
    Sistema(job, map[0 := Executor(agora, plano, novos)], agora)
  }

  // ---------------------------------------------------------------- executing event by event

  lemma ExecutarUm(p: Protocolo, s: Sistema, e: Evento)
    ensures Executar(p, s, [e]) == Passo(p, s, e)
  {
    assert [e][1..] == [];
  }

  lemma ExecutarPrimeiro(p: Protocolo, s: Sistema, e: Evento, t: Sistema, evs: seq<Evento>)
    requires Passo(p, s, e) == Some(t)
    ensures Executar(p, s, [e] + evs) == Executar(p, t, evs)
  {
    assert ([e] + evs)[1..] == evs;
  }

  lemma ExecutarClaim(p: Protocolo, inicio: Sistema, s: Sistema, amb: Ambiente)
    requires inicio.job.status == NaFila && inicio.vivos == map[]
    requires !amb.claimLevanta && !amb.inicializacaoLevanta
    requires s == ComExecutor(AposClaim(p.todas, inicio.job, inicio.agora), RetryPlan(p.todas, inicio.job), [], inicio.agora)
    ensures Executar(p, inicio, Roteiro(p.todas, inicio.job, inicio.agora, amb))
         == Executar(p, s, DepoisDoClaim(amb, RetryPlan(p.todas, inicio.job).unidades))
  {
    var ex := Executor(inicio.agora, RetryPlan(p.todas, inicio.job), []);
    assert inicio.vivos[0 := ex] == map[0 := ex];
    ExecutarPrimeiro(p, inicio, Claim(0, inicio.agora), s, DepoisDoClaim(amb, RetryPlan(p.todas, inicio.job).unidades));
  }

  /** The executor's last event leaves no executor and this row. */
  lemma ExecutarFim(p: Protocolo, s: Sistema, e: Evento, job: Job)
    requires s.vivos.Keys == {0} && (e.Morre? || e.Aborta? || e.CommitFinal?) && e.id == 0
    requires Passo(p, s, e).Some? && Passo(p, s, e).value.job == job
    ensures Executar(p, s, [e]) == Some(Sistema(job, map[], s.agora))
  {
    ExecutarUm(p, s, e);
    assert s.vivos - {0} == map[];
  }

  lemma ExecutarUnidade(p: Protocolo, s: Sistema, ok: bool, job: Job, evs: seq<Evento>)
    requires s.vivos.Keys == {0}
    requires |s.vivos[0].novos| < |s.vivos[0].plano.unidades|
    requires var ex := s.vivos[0];
      job == AposUnidade(s.job, ex.plano, ex.novos + [Item(ex.plano.unidades[|ex.novos|], ok)])
    ensures var ex := s.vivos[0];
      var novos := ex.novos + [Item(ex.plano.unidades[|ex.novos|], ok)];
      Executar(p, s, [CommitUnidade(0, ok)] + evs)
      == Executar(p, Sistema(job, map[0 := ex.(novos := novos)], s.agora), evs)
  {
    var ex := s.vivos[0];
    var novos := ex.novos + [Item(ex.plano.unidades[|ex.novos|], ok)];
    assert s.vivos[0 := ex.(novos := novos)] == map[0 := ex.(novos := novos)];
    ExecutarPrimeiro(p, s, CommitUnidade(0, ok), Sistema(job, map[0 := ex.(novos := novos)], s.agora), evs);
  }

  // ---------------------------------------------------------------- what a delivery leaves

  /** How many of `m` units get reported: those before the first that times out, dies or has no outcome. */
  function Relatadas(ds: seq<Desfecho>, m: nat): (n: nat)
    ensures n <= m && n <= |ds|
    ensures forall i :: 0 <= i < n ==> ds[i] == Sucesso || ds[i] == ErroFuncional
    ensures n < m && n < |ds| ==> ds[n] == Timeout || ds[n] == Morte
  {
    if m == 0 || ds == [] || ds[0] == Timeout || ds[0] == Morte then 0 else 1 + Relatadas(ds[1..], m - 1)
  }

  /** The reports on the first `n` units. */
  function Relatos(us: seq<Unidade>, ds: seq<Desfecho>, n: nat): (r: seq<Item>)
    requires n <= |us| && n <= |ds|
    ensures |r| == n && forall i :: 0 <= i < n ==> r[i] == Item(us[i], ds[i] == Sucesso)
  {
    seq(n, i requires 0 <= i < n => Item(us[i], ds[i] == Sucesso))
  }

  ghost predicate Ficou(r: Job, status: Status, erro: Option<Fase>) {
    r.status == status && r.erroSistema == erro
  }

  /** The attempt, its start, the items in order, their counts and the size of the plan. */
  ghost predicate Contado(job: Job, agora: int, plano: Plano, itens: seq<Item>, r: Job) {
    && r.tentativas == job.tentativas + 1 && r.iniciadoEm == Some(agora)
    && r.itens == itens && r.itensOk == |Sucessos(itens)| && r.itensErro == |Falhos(itens)|
    && r.itensTotal == (if |plano.base| + |plano.unidades| == 0 then 1 else |plano.base| + |plano.unidades|)
  }

  /** The row a delivery leaves that claimed the job. */
  ghost predicate Executada(job: Job, agora: int, plano: Plano, amb: Ambiente, r: Job) {
    var us, ds := plano.unidades, amb.desfechos;
    var n := if amb.preparacao == Pronto then Relatadas(ds, |us|) else 0;
    var itens := plano.base + Relatos(us, ds, n);
    var fim := amb.preparacao == Pronto && n == |us|;
    && Contado(job, agora, plano, itens, r)
    && r.progresso == (if fim && (amb.posJob == Conclui || amb.posJob == TimeoutAposCommit) then 100
                       else |itens| * 90 / r.itensTotal)
    && (amb.preparacao == MorteAntes ==> Ficou(r, Executando, None))
    && (amb.preparacao == PreparacaoFalha ==> Ficou(r, Falhou, Some(FasePreparacao)))
    && (amb.preparacao == Pronto && n < |us| ==>
          if n < |ds| && ds[n] == Timeout then Ficou(r, Falhou, Some(FaseUnidade(us[n]))) else Ficou(r, Executando, None))
    && (fim && amb.posJob == Conclui ==> Ficou(r, if Falhos(itens) == [] then Concluido else Falhou, None))
    && (fim && (amb.posJob == PosJobFalha || amb.posJob == TimeoutAposCommit) ==> Ficou(r, Falhou, Some(FasePosJob)))
    && (fim && amb.posJob == MorteNoPosJob ==> Ficou(r, Executando, None))
  }

  /**
   * The row a delivery leaves: a claim that raised marks even a row that was not waiting, a row that is
   * not waiting is otherwise left alone, and a claimed job gets what its plan and outcomes give.
   */
  ghost predicate Entregue(todas: seq<Unidade>, job: Job, agora: int, amb: Ambiente, r: Job) {
    if amb.claimLevanta then r == job.(status := Falhou, erroSistema := Some(FaseClaim))
    else if job.status != NaFila then r == job
    else if amb.inicializacaoLevanta then r == job.(status := Falhou, erroSistema := Some(FaseInicializacao))
    else Executada(job, agora, RetryPlan(todas, job), amb, r)
  }

  /** After the reports on `k` units. */
  ghost predicate EmCurso(job: Job, agora: int, plano: Plano, amb: Ambiente, r: Job, k: nat) {
    && k <= |plano.unidades| && k <= |amb.desfechos|
    && (forall it :: it in plano.base ==> it.ok)
    && Contado(job, agora, plano, plano.base + Relatos(plano.unidades, amb.desfechos, k), r)
    && r.progresso == (|plano.base| + k) * 90 / r.itensTotal
    && Ficou(r, Executando, None)
  }

  lemma ProgressCapped(a: nat, total: nat)
    requires 0 < total && a <= total
    ensures a * 90 / total <= 90
  {
    var q := a * 90 / total;
    assert a * 90 == q * total + (a * 90) % total;
    assert a * 90 <= 90 * total;
    assert q >= 91 ==> q * total >= 91 * total;
  }

  lemma ReportGrows(us: seq<Unidade>, ds: seq<Desfecho>, k: nat)
    requires k < |us| && k < |ds|
    ensures Relatos(us, ds, k + 1) == Relatos(us, ds, k) + [Item(us[k], ds[k] == Sucesso)]
  {
  }

  lemma UnitGoesOn(job: Job, agora: int, plano: Plano, amb: Ambiente, r: Job, k: nat)
    requires EmCurso(job, agora, plano, amb, r, k) && k < |plano.unidades| && k < |amb.desfechos|
    ensures EmCurso(job, agora, plano, amb, AposUnidade(r, plano, Relatos(plano.unidades, amb.desfechos, k + 1)), k + 1)
  {
    var novos := Relatos(plano.unidades, amb.desfechos, k + 1);
    FalhosConcat(plano.base, novos);
    AllOkKeepsAll(plano.base);
    ProgressCapped(|plano.base| + k + 1, TotalDoPlano(plano));
  }

  lemma {:induction false} ReportedUpTo(ds: seq<Desfecho>, m: nat, k: nat)
    requires k <= m && k <= |ds| && forall i :: 0 <= i < k ==> ds[i] == Sucesso || ds[i] == ErroFuncional
    requires k == m || k == |ds| || ds[k] == Timeout || ds[k] == Morte
    ensures Relatadas(ds, m) == k
  {
    if k > 0 {
      assert ds[0] == Sucesso || ds[0] == ErroFuncional;
      ReportedUpTo(ds[1..], m - 1, k - 1);
    }
  }

  /** All units were reported: where the executor stands before the last commit. */
  ghost predicate Relatou(job: Job, agora: int, plano: Plano, amb: Ambiente, r: Job) {
    && amb.preparacao == Pronto && Relatadas(amb.desfechos, |plano.unidades|) == |plano.unidades|
    && EmCurso(job, agora, plano, amb, r, |plano.unidades|)
  }

  lemma LastCommit(p: Protocolo, job: Job, agora: int, plano: Plano, amb: Ambiente, r: Job)
    requires Relatou(job, agora, plano, amb, r) && (amb.posJob == Conclui || amb.posJob == TimeoutAposCommit)
    ensures var s := ComExecutor(r, plano, Relatos(plano.unidades, amb.desfechos, |plano.unidades|), agora);
      var t := Passo(p, s, CommitFinal(0, amb.posJob == TimeoutAposCommit));
      t.Some? && Executada(job, agora, plano, amb, t.value.job)
  {
  }

  lemma NoLastCommit(p: Protocolo, job: Job, agora: int, plano: Plano, amb: Ambiente, r: Job)
    requires Relatou(job, agora, plano, amb, r) && (amb.posJob == PosJobFalha || amb.posJob == MorteNoPosJob)
    ensures var s := ComExecutor(r, plano, Relatos(plano.unidades, amb.desfechos, |plano.unidades|), agora);
      var t := Passo(p, s, if amb.posJob == PosJobFalha then Aborta(0, FasePosJob) else Morre(0));
      t.Some? && Executada(job, agora, plano, amb, t.value.job)
  {
  }

  lemma PostJob(p: Protocolo, job: Job, agora: int, plano: Plano, amb: Ambiente, r: Job)
    requires Relatou(job, agora, plano, amb, r)
    ensures var us := plano.unidades;
      var t := Executar(p, ComExecutor(r, plano, Relatos(us, amb.desfechos, |us|), agora), Restantes(amb, us, |us|));
      t.Some? && Executada(job, agora, plano, amb, t.value.job)
  {
    var us := plano.unidades;
    ExecutarUm(p, ComExecutor(r, plano, Relatos(us, amb.desfechos, |us|), agora), Restantes(amb, us, |us|)[0]);
    if amb.posJob == Conclui || amb.posJob == TimeoutAposCommit {
      LastCommit(p, job, agora, plano, amb, r);
    } else {
      NoLastCommit(p, job, agora, plano, amb, r);
    }
  }

  lemma CutShort(p: Protocolo, job: Job, agora: int, plano: Plano, amb: Ambiente, r: Job, k: nat)
    requires EmCurso(job, agora, plano, amb, r, k) && amb.preparacao == Pronto
    requires k == Relatadas(amb.desfechos, |plano.unidades|) < |plano.unidades|
    ensures var us := plano.unidades;
      var t := Executar(p, ComExecutor(r, plano, Relatos(us, amb.desfechos, k), agora), Restantes(amb, us, k));
      t.Some? && Executada(job, agora, plano, amb, t.value.job)
  {
    var us := plano.unidades;
    ExecutarUm(p, ComExecutor(r, plano, Relatos(us, amb.desfechos, k), agora), Restantes(amb, us, k)[0]);
  }

  lemma {:induction false} UnitsOutcome(p: Protocolo, job: Job, agora: int, plano: Plano, amb: Ambiente, r: Job, k: nat)
    requires EmCurso(job, agora, plano, amb, r, k) && amb.preparacao == Pronto
    requires forall i :: 0 <= i < k ==> amb.desfechos[i] == Sucesso || amb.desfechos[i] == ErroFuncional
    ensures var us := plano.unidades;
      var t := Executar(p, ComExecutor(r, plano, Relatos(us, amb.desfechos, k), agora), Restantes(amb, us, k));
      t.Some? && Executada(job, agora, plano, amb, t.value.job)
    decreases |plano.unidades| - k
  {
    var us, ds := plano.unidades, amb.desfechos;
    if k == |us| {
      ReportedUpTo(ds, |us|, k);
      PostJob(p, job, agora, plano, amb, r);
    } else if k == |ds| || ds[k] == Timeout || ds[k] == Morte {
      ReportedUpTo(ds, |us|, k);
      CutShort(p, job, agora, plano, amb, r, k);
    } else {
      var s := ComExecutor(r, plano, Relatos(us, ds, k), agora);
      var depois := AposUnidade(r, plano, Relatos(us, ds, k + 1));
      ReportGrows(us, ds, k);
      UnitGoesOn(job, agora, plano, amb, r, k);
      ExecutarUnidade(p, s, ds[k] == Sucesso, depois, Restantes(amb, us, k + 1));
      UnitsOutcome(p, job, agora, plano, amb, depois, k + 1);
    }
  }

  lemma ClaimStarts(todas: seq<Unidade>, job: Job, agora: int, amb: Ambiente)
    ensures EmCurso(job, agora, RetryPlan(todas, job), amb, AposClaim(todas, job, agora), 0)
  {
    var plano := RetryPlan(todas, job);
    SucessosMembers(job.itens);
    AllOkKeepsAll(plano.base);
    assert plano.base + Relatos(plano.unidades, amb.desfechos, 0) == plano.base;
  }
}
