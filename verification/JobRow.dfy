/**
 * The row of `op.ingest_job` as the code updates it, field by field. Each method is proved to
 * take exactly the step, or the sequence of steps, that the protocol gives for it.
 */
module JobRow {
  import opened Basics
  import opened IngestJob
  import opened Texto
  import opened JobProtocol
  import opened JobRoteiro

  /** Who asks for a retry: the organisation, its subscription if any, and the codes in its scope. */
  datatype Solicitante = Solicitante(temOrg: bool, assinatura: Option<string>, permitidos: set<string>)
  {
    predicate PodeIniciar() {
      temOrg && (assinatura.Some? ==> assinatura.value == "ativa")
    }
  }

  datatype RespostaRetry =
    | Reenfileirado
    | SemOrganizacao
    | AssinaturaInativa
    | ForaDoEscopo(ente: string)
    | NaoReexecutavel
    | SemItens

  /** A source grouped by state asks for states; any other for codes, and `BR` is open to all. */
  predicate NoEscopo(quem: Solicitante, porUf: bool, ente: string) {
    if porUf then exists c :: c in quem.permitidos && CodigoDeUf(c) && c[..2] == ente
    else ente == "BR" || ente in quem.permitidos
  }

  predicate CodigoDeUf(c: string) {
    (|c| == 2 || |c| == 7) && forall i :: 0 <= i < |c| ==> Digito(c[i])
  }

  predicate TodosNoEscopo(quem: Solicitante, porUf: bool, entes: seq<string>) {
    forall i :: 0 <= i < |entes| ==> NoEscopo(quem, porUf, entes[i])
  }

  /** `_validar_entes_no_escopo`: the first entity outside the scope, if there is one. */
  method ValidarEntesNoEscopo(quem: Solicitante, porUf: bool, entes: seq<string>) returns (fora: Option<string>)
    ensures fora.None? <==> TodosNoEscopo(quem, porUf, entes)
    ensures !porUf ==> (fora.None? <==> forall i :: 0 <= i < |entes| ==> entes[i] == "BR" || entes[i] in quem.permitidos)
    ensures porUf ==> (fora.None? <==> forall i :: 0 <= i < |entes| ==>
      exists c :: c in quem.permitidos && (|c| == 2 || |c| == 7) && (forall k :: 0 <= k < |c| ==> '0' <= c[k] <= '9') && c[..2] == entes[i])
    ensures fora.Some? ==> exists i ::
      0 <= i < |entes| && fora.value == entes[i] && !NoEscopo(quem, porUf, entes[i])
      && TodosNoEscopo(quem, porUf, entes[..i])
  {
    var ufsPermitidas := set c | c in quem.permitidos && CodigoDeUf(c) :: c[..2];
    for i := 0 to |entes|
      invariant TodosNoEscopo(quem, porUf, entes[..i])
    {
      var dentro := if porUf then entes[i] in ufsPermitidas else entes[i] == "BR" || entes[i] in quem.permitidos;
      assert dentro == NoEscopo(quem, porUf, entes[i]);
      if !dentro { return Some(entes[i]); }
      assert entes[..i + 1] == entes[..i] + [entes[i]];
    }
    assert entes[..|entes|] == entes;
    return None;
  }

  class IngestJobRow {
    var status: Status
    var tentativas: nat
    var iniciadoEm: Option<int>
    var itens: seq<Item>
    var erroSistema: Option<Fase>
    var itensTotal: nat
    var itensOk: nat
    var itensErro: nat
    var progresso: nat

    function Linha(): Job
      reads this
    {
      Job(status, tentativas, iniciadoEm, itens, erroSistema, itensTotal, itensOk, itensErro, progresso)
    }

    constructor (total: nat)
      ensures Linha() == NovoJob(total)
      ensures status == NaFila && tentativas == 0 && iniciadoEm == None && itens == [] && erroSistema == None
      ensures itensTotal == total && itensOk == 0 && itensErro == 0 && progresso == 0
    {
      status, tentativas, iniciadoEm := NaFila, 0, None;
      itens, erroSistema := [], None;
      itensTotal, itensOk, itensErro, progresso := total, 0, 0, 0;
    }

    /** The body every failure writer shares. */
    method GravaFalha(fase: Fase)
      modifies this
      ensures Linha() == ComFalha(old(Linha()), fase)
    {
      erroSistema := Some(fase);
      status := Falhou;
    }

    method MarkActiveFailure(p: Protocolo, fase: Fase, ghost s: Sistema) returns (gravou: bool)
      requires fase == FaseFailureCallback || fase == FaseWorkHorseKilled
      requires s.job == Linha()
      modifies this
      ensures gravou == Passo(p, s, Callback(fase)).Some?
      ensures Linha() == (if gravou then Passo(p, s, Callback(fase)).value.job else old(Linha()))
      ensures gravou <==> old(status) == NaFila || old(status) == Executando
      ensures Linha() == if gravou then old(Linha()).(status := Falhou, erroSistema := Some(fase)) else old(Linha())
    {
      gravou := status == NaFila || status == Executando;
      if gravou { GravaFalha(fase); }
    }

    method QueueFailure(p: Protocolo, ghost s: Sistema) returns (gravou: bool)
      requires s.job == Linha()
      modifies this
      ensures gravou == Passo(p, s, FalhaDeFila).Some?
      ensures Linha() == (if gravou then Passo(p, s, FalhaDeFila).value.job else old(Linha()))
      ensures gravou <==> old(status) == NaFila
      ensures Linha() == if gravou then old(Linha()).(status := Falhou, erroSistema := Some(FaseFila)) else old(Linha())
    {
      gravou := status == NaFila;
      if gravou { GravaFalha(FaseFila); }
    }

    method RequeueAbandoned(p: Protocolo, agora: int, ghost s: Sistema) returns (recuperou: bool)
      requires s.job == Linha() && s.agora == agora
      modifies this
      ensures recuperou == Passo(p, s, Reconcilia).Some?
      ensures Linha() == (if recuperou then Passo(p, s, Reconcilia).value.job else old(Linha()))
      ensures recuperou <==> old(status) == Executando && old(iniciadoEm).Some? && agora - old(iniciadoEm).value > p.lease
      ensures Linha() == if recuperou then old(Linha()).(status := NaFila, erroSistema := Some(FaseAbandonado)) else old(Linha())
    {
      recuperou := status == Executando && iniciadoEm.Some? && iniciadoEm.value < agora - p.lease;
      if recuperou {
        status := NaFila;
        erroSistema := Some(FaseAbandonado);
      }
    }

    /** `retry`: who asks is judged again, on the scope of now, before the row is looked at. */
    method RetryJob(p: Protocolo, quem: Solicitante, porUf: bool, entes: seq<string>, ghost s: Sistema)
      returns (r: RespostaRetry)
      requires s.job == Linha()
      modifies this
      ensures r == Reenfileirado <==> quem.PodeIniciar() && TodosNoEscopo(quem, porUf, entes) && Passo(p, s, Retry).Some?
      ensures r == SemOrganizacao <==> !quem.temOrg
      ensures r == AssinaturaInativa <==> quem.temOrg && quem.assinatura.Some? && quem.assinatura.value != "ativa"
      ensures r.ForaDoEscopo? <==> quem.PodeIniciar() && !TodosNoEscopo(quem, porUf, entes)
      ensures r.ForaDoEscopo? ==> r.ente in entes && !NoEscopo(quem, porUf, r.ente)
      ensures r == NaoReexecutavel ==> old(status) != Falhou
      ensures r == SemItens ==> old(status) == Falhou && old(erroSistema) == None && forall it :: it in old(itens) ==> it.ok
      ensures r == Reenfileirado ==>
        && old(status) == Falhou && (old(erroSistema).Some? || exists it :: it in old(itens) && !it.ok)
        && Linha() == old(Linha()).(status := NaFila, progresso := 0, itensOk := 0, itensErro := 0,
                                    itensTotal := |RetryPlan(p.todas, old(Linha())).unidades|)
      ensures Linha() == (if r == Reenfileirado then Passo(p, s, Retry).value.job else old(Linha()))
    {
      if !quem.temOrg { return SemOrganizacao; }
      if quem.assinatura.Some? && quem.assinatura.value != "ativa" { return AssinaturaInativa; }
      var fora := ValidarEntesNoEscopo(quem, porUf, entes);
      if fora.Some? { return ForaDoEscopo(fora.value); }
      if status != Falhou { return NaoReexecutavel; }
      var retryTotal := |RetryPlan(p.todas, Linha()).unidades|;
      NoFailureIff(itens);
      if Falhos(itens) == [] && erroSistema == None { return SemItens; }
      status, progresso, itensTotal, itensOk, itensErro := NaFila, 0, retryTotal, 0, 0;
      return Reenfileirado;
    }

    method CancelJob(p: Protocolo, ghost s: Sistema) returns (cancelado: bool)
      requires s.job == Linha()
      modifies this
      ensures cancelado == Passo(p, s, Cancela).Some?
      ensures Linha() == (if cancelado then Passo(p, s, Cancela).value.job else old(Linha()))
      ensures cancelado <==> old(status) == NaFila
      ensures Linha() == if cancelado then old(Linha()).(status := Cancelado) else old(Linha())
    {
      cancelado := status == NaFila;
      if cancelado { status := Cancelado; }
    }

    /** The claim and the first checkpoint, committed together. */
    method ClaimEInicia(todas: seq<Unidade>, agora: int) returns (plano: Plano)
      modifies this
      ensures plano == RetryPlan(todas, old(Linha()))
      ensures Linha() == AposClaim(todas, old(Linha()), agora)
      ensures var total := if |plano.base| + |plano.unidades| == 0 then 1 else |plano.base| + |plano.unidades|;
        Linha() == Job(Executando, old(tentativas) + 1, Some(agora), plano.base, None, total, |plano.base|, 0, |plano.base| * 90 / total)
    {
      plano := RetryPlan(todas, Linha());
      status, iniciadoEm, tentativas := Executando, Some(agora), tentativas + 1;
      var total := TotalDoPlano(plano);
      itensTotal, itensOk, itensErro := total, |plano.base|, 0;
      progresso := |plano.base| * 90 / total;
      itens, erroSistema := plano.base, None;
    }

    /** The last commit of an attempt. */
    method Encerra(todosItens: seq<Item>)
      modifies this
      ensures Linha() == AposFinal(old(Linha()), todosItens)
      ensures itens == todosItens && erroSistema == None && progresso == 100
      ensures status == if forall it :: it in todosItens ==> it.ok then Concluido else Falhou
    {
      NoFailureIff(todosItens);
      itens, erroSistema := todosItens, None;
      itensOk, itensErro := |Sucessos(todosItens)|, |Falhos(todosItens)|;
      status := if itensErro == 0 then Concluido else Falhou;
      progresso := 100;
    }

    /** The loop of `_processar`: one commit per unit, until all are done or the executor is gone. */
    method ExecutaUnidades(p: Protocolo, agora: int, amb: Ambiente, plano: Plano) returns (vivo: bool, novos: seq<Item>)
      modifies this
      ensures vivo ==> |novos| == |plano.unidades|
      ensures Executar(p, ComExecutor(old(Linha()), plano, [], agora), Restantes(amb, plano.unidades, 0))
           == if vivo then Executar(p, ComExecutor(Linha(), plano, novos, agora),
                                    Restantes(amb, plano.unidades, |plano.unidades|))
              else Some(Sistema(Linha(), map[], agora))
    {
      var us := plano.unidades;
      var total := TotalDoPlano(plano);
      novos := [];
      var okNovos, errosNovos, indice := 0, 0, 0;
      while indice < |us|
        invariant 0 <= indice == |novos| <= |us|
        invariant okNovos == |Sucessos(novos)| && errosNovos == |Falhos(novos)|
        invariant Executar(p, ComExecutor(old(Linha()), plano, [], agora), Restantes(amb, us, 0))
               == Executar(p, ComExecutor(Linha(), plano, novos, agora), Restantes(amb, us, indice))
      {
        ghost var s := ComExecutor(Linha(), plano, novos, agora);
        if indice >= |amb.desfechos| || amb.desfechos[indice] == Morte {
          ExecutarFim(p, s, Morre(0), Linha());
          return false, novos;
        }
        if amb.desfechos[indice] == Timeout {
          GravaFalha(FaseUnidade(us[indice]));
          ExecutarFim(p, s, Aborta(0, FaseUnidade(us[indice])), Linha());
          return false, novos;
        }
        var ok := amb.desfechos[indice] == Sucesso;
        var item := Item(us[indice], ok);
        SucessosAppend(novos, item);
        novos := novos + [item];
        if ok { okNovos := okNovos + 1; } else { errosNovos := errosNovos + 1; }
        indice := indice + 1;
        GravaUnidade(plano, novos, okNovos, errosNovos, total);
        ExecutarUnidade(p, s, ok, Linha(), Restantes(amb, us, indice));
      }
      return true, novos;
    }

    /** The commit of one unit: whole columns rewritten from the executor's memory. */
    method GravaUnidade(plano: Plano, novos: seq<Item>, okNovos: nat, errosNovos: nat, total: nat)
      requires total == TotalDoPlano(plano)
      requires okNovos == |Sucessos(novos)| && errosNovos == |Falhos(novos)|
      modifies this
      ensures Linha() == AposUnidade(old(Linha()), plano, novos)
    {
      var processados := |plano.base| + |novos|;
      itensOk, itensErro := |plano.base| + okNovos, errosNovos;
      progresso := Min(processados * 90 / total, 90);
      itens, erroSistema := plano.base + novos, None;
    }

    /** From `stage = "pos_job"` to the end of the delivery. */
    method FasePosterior(p: Protocolo, agora: int, amb: Ambiente, plano: Plano, novos: seq<Item>)
      requires |novos| == |plano.unidades|
      modifies this
      ensures Executar(p, ComExecutor(old(Linha()), plano, novos, agora),
                       Restantes(amb, plano.unidades, |plano.unidades|))
           == Some(Sistema(Linha(), map[], agora))
    {
      ghost var s := ComExecutor(Linha(), plano, novos, agora);
      match amb.posJob {
        case MorteNoPosJob =>
          ExecutarFim(p, s, Morre(0), Linha());
        case PosJobFalha =>
          GravaFalha(FasePosJob);
          ExecutarFim(p, s, Aborta(0, FasePosJob), Linha());
        case Conclui =>
          Encerra(plano.base + novos);
          ExecutarFim(p, s, CommitFinal(0, false), Linha());
        case TimeoutAposCommit =>
          Encerra(plano.base + novos);
          GravaFalha(FasePosJob);
          ExecutarFim(p, s, CommitFinal(0, true), Linha());
      }
    }

    /**
     * `_processar`: one delivery from the claim to its end, with a commit per unit. Wherever
     * the process dies, the row left behind is the one the protocol reaches by these events.
     */
    method Processar(p: Protocolo, agora: int, amb: Ambiente)
      modifies this
      ensures Executar(p, Sistema(old(Linha()), map[], agora), Roteiro(p.todas, old(Linha()), agora, amb))
           == Some(Sistema(Linha(), map[], agora))
      ensures Entregue(p.todas, old(Linha()), agora, amb, Linha())
    {
      DeliveryOutcome(p, Linha(), agora, amb);
      ghost var inicio := Sistema(Linha(), map[], agora);
      if amb.claimLevanta {
        GravaFalha(FaseClaim);
        ExecutarUm(p, inicio, FalhaAntesDoCommit(FaseClaim));
        return;
      }
      if status != NaFila { return; }
      if amb.inicializacaoLevanta {
        GravaFalha(FaseInicializacao);
        ExecutarUm(p, inicio, FalhaAntesDoCommit(FaseInicializacao));
        return;
      }
      var plano := ClaimEInicia(p.todas, agora);
      ghost var s := ComExecutor(Linha(), plano, [], agora);
      ExecutarClaim(p, inicio, s, amb);
      if amb.preparacao == PreparacaoFalha {
        GravaFalha(FasePreparacao);
        ExecutarFim(p, s, Aborta(0, FasePreparacao), Linha());
        return;
      }
      if amb.preparacao == MorteAntes {
        ExecutarFim(p, s, Morre(0), Linha());
        return;
      }
      var vivo, novos := ExecutaUnidades(p, agora, amb, plano);
      if vivo { FasePosterior(p, agora, amb, plano, novos); }
    }
  }

  // ---------------------------------------------------------------- the loop and the run

  lemma NoFailureIff(itens: seq<Item>)
    ensures Falhos(itens) == [] <==> forall it :: it in itens ==> it.ok
  {
    FalhosMembers(itens);
    if Falhos(itens) == [] {
      forall it | it in itens ensures it.ok {
        assert it.ok || it == Item(it.unidade, false);
      }
    } else {
      assert Falhos(itens)[0] in Falhos(itens);
    }
  }

  lemma SucessosAppend(itens: seq<Item>, item: Item)
    ensures |Sucessos(itens + [item])| == |Sucessos(itens)| + (if item.ok then 1 else 0)
    ensures |Falhos(itens + [item])| == |Falhos(itens)| + (if item.ok then 0 else 1)
  {
    FalhosConcat(itens, [item]);
  }

  /**
   * A single delivery is a run of the protocol that hits no live executor, so everything proved
   * of reachable states holds of the row `Processar` leaves, whatever happens to the process.
   */
  lemma DeliveryIsARun(p: Protocolo, s: Sistema, amb: Ambiente, t: Sistema)
    requires Alcancavel(p, s) && s.vivos == map[]
    requires Executar(p, s, Roteiro(p.todas, s.job, s.agora, amb)) == Some(t)
    ensures Alcancavel(p, t)
  {
    var evs := Roteiro(p.todas, s.job, s.agora, amb);
    RestantesTame(amb, RetryPlan(p.todas, s.job).unidades, 0);
    TameRuns(p, s, evs, t);
    AlcancavelMais(p, s, evs, t);
  }

  /** Only the first event may be a foreign failure, and only with no executor alive. */
  lemma {:induction false} TameRuns(p: Protocolo, s: Sistema, evs: seq<Evento>, t: Sistema)
    requires Executar(p, s, evs) == Some(t)
    requires forall k :: 0 <= k < |evs| ==> Alheia(evs[k]) ==> k == 0 && s.vivos == map[]
    ensures Chega(p, s, evs, t)
    decreases |evs|
  {
    if evs != [] {
      TameRuns(p, Passo(p, s, evs[0]).value, evs[1..], t);
    }
  }

  lemma {:induction false} RestantesTame(amb: Ambiente, us: seq<Unidade>, k: nat)
    requires k <= |us|
    ensures forall i :: 0 <= i < |Restantes(amb, us, k)| ==> !Alheia(Restantes(amb, us, k)[i])
    decreases |us| - k
  {
    if k < |us| && k < |amb.desfechos| { RestantesTame(amb, us, k + 1); }
  }

  /** Whatever happens around a delivery, it leaves that row. */
  lemma DeliveryOutcome(p: Protocolo, job: Job, agora: int, amb: Ambiente)
    ensures var t := Executar(p, Sistema(job, map[], agora), Roteiro(p.todas, job, agora, amb));
      t.Some? && Entregue(p.todas, job, agora, amb, t.value.job)
  {
    var inicio := Sistema(job, map[], agora);
    if amb.claimLevanta {
      ExecutarUm(p, inicio, FalhaAntesDoCommit(FaseClaim));
    } else if job.status != NaFila {
    } else if amb.inicializacaoLevanta {
      ExecutarUm(p, inicio, FalhaAntesDoCommit(FaseInicializacao));
    } else {
      var plano := RetryPlan(p.todas, job);
      var s := ComExecutor(AposClaim(p.todas, job, agora), plano, [], agora);
      ClaimStarts(p.todas, job, agora, amb);
      ExecutarClaim(p, inicio, s, amb);
      assert Relatos(plano.unidades, amb.desfechos, 0) == [];
      match amb.preparacao
      case Pronto => UnitsOutcome(p, job, agora, plano, amb, s.job, 0);
      case PreparacaoFalha => ExecutarUm(p, s, Aborta(0, FasePreparacao));
      case MorteAntes => ExecutarUm(p, s, Morre(0));
    }
  }
}
