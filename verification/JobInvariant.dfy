/** What every reachable state of the protocol satisfies, and what the plan therefore is. */
module JobInvariant {
  import opened Basics
  import opened IngestJob
  import opened JobProtocol

  /** Every unit of the job has an item, and failed items are exactly what is still to do. */
  ghost predicate Completo(todas: seq<Unidade>, itens: seq<Item>) {
    && (forall u :: u in todas ==> exists it :: it in itens && it.unidade == u)
    && (NoDup(todas) ==> Falhos(itens) == Pendentes(todas, SucessoKeys(itens)))
  }

  /** The checkpoint can be resumed without losing a unit, whatever branch `_retry_plan` takes. */
  ghost predicate Retomavel(todas: seq<Unidade>, job: Job) {
    && (forall it :: it in job.itens ==> it.unidade in todas)
    && (job.status != Executando && job.erroSistema == None ==>
          (job.itens == [] && (job.status == NaFila || job.status == Cancelado))
          || (Completo(todas, job.itens)
              && (job.status != Concluido ==> Falhos(job.itens) != [])))
    && (job.status != Executando && job.erroSistema == Some(FasePosJob) ==> Completo(todas, job.itens))
    && (job.status == Executando ==> job.erroSistema == None && job.iniciadoEm.Some?)
    && (job.status == Concluido ==> job.erroSistema == None && Falhos(job.itens) == [])
  }

  /** A live executor owns the row: the row is what the executor last committed. */
  ghost predicate Acoplado(p: Protocolo, s: Sistema, ex: Executor) {
    var base, us := ex.plano.base, ex.plano.unidades;
    && s.job.status == Executando
    && s.job.iniciadoEm == Some(ex.inicio)
    && ex.inicio <= s.agora <= ex.inicio + p.timeout
    && s.job.itens == base + ex.novos
    && Reports(ex.novos, us)
    && (forall it :: it in base ==> it.ok)
    && (forall u :: u in us ==> u in p.todas)
    && (forall u :: u in p.todas ==> u in SucessoKeys(base) || u in us)
    && (NoDup(p.todas) ==> us == Pendentes(p.todas, SucessoKeys(base)))
  }

  /** At most one executor is alive. */
  ghost predicate Exclusivo(s: Sistema) {
    forall a, b :: a in s.vivos && b in s.vivos ==> a == b
  }

  ghost predicate Inv(p: Protocolo, s: Sistema) {
    && Exclusivo(s)
    && Retomavel(p.todas, s.job)
    && (forall id :: id in s.vivos ==> Acoplado(p, s, s.vivos[id]))
  }

  /**
   * The units of a pending or failed job that its next attempt will run: every unit without a
   * success is there and nothing foreign is; without repeated units, those and no other, in order.
   */
  lemma PlanCovers(todas: seq<Unidade>, job: Job)
    requires Retomavel(todas, job)
    requires job.status == NaFila || job.status == Falhou
    ensures var plano := RetryPlan(todas, job);
      && (forall it :: it in plano.base <==> it in job.itens && it.ok)
      && SucessoKeys(plano.base) == SucessoKeys(job.itens)
      && (forall u :: u in plano.unidades ==> u in todas)
      && (forall u :: u in todas && u !in SucessoKeys(job.itens) ==> u in plano.unidades)
      && (NoDup(todas) ==> plano.unidades == Pendentes(todas, SucessoKeys(job.itens)))
  {
    SucessosMembers(job.itens);
    FalhosMembers(job.itens);
    PendentesMembers(todas, SucessoKeys(job.itens));
    if Completo(todas, job.itens) {
      forall u | u in todas && u !in SucessoKeys(job.itens) ensures u in Falhos(job.itens) {
        var it :| it in job.itens && it.unidade == u;
        assert it == Item(u, it.ok);
      }
    }
  }

  /** A failed job can always be retried: the guard of `retry` never refuses one. */
  lemma FailedIsRetriable(p: Protocolo, s: Sistema)
    requires Inv(p, s) && s.job.status == Falhou
    ensures Retentavel(s.job)
  {
  }

  lemma ClaimKeepsInv(p: Protocolo, s: Sistema, id: nat, iniciadoEm: int)
    requires Inv(p, s) && Passo(p, s, Claim(id, iniciadoEm)).Some?
    ensures Inv(p, Passo(p, s, Claim(id, iniciadoEm)).value)
    ensures SucessoKeys(Passo(p, s, Claim(id, iniciadoEm)).value.job.itens) == SucessoKeys(s.job.itens)
  {
    var t := Passo(p, s, Claim(id, iniciadoEm)).value;
    PlanCovers(p.todas, s.job);
    assert s.vivos == map[];
    assert t.job.itens == t.vivos[id].plano.base + t.vivos[id].novos;
  }

  lemma UnitKeepsInv(p: Protocolo, s: Sistema, id: nat, ok: bool)
    requires Inv(p, s) && Passo(p, s, CommitUnidade(id, ok)).Some?
    ensures Inv(p, Passo(p, s, CommitUnidade(id, ok)).value)
    ensures SucessoKeys(s.job.itens) <= SucessoKeys(Passo(p, s, CommitUnidade(id, ok)).value.job.itens)
  {
    var t := Passo(p, s, CommitUnidade(id, ok)).value;
    var item := t.vivos[id].novos[|s.vivos[id].novos|];
    assert t.job.itens == s.job.itens + [item];
    assert Acoplado(p, t, t.vivos[id]);
    FalhosConcat(s.job.itens, [item]);
  }

  /** When an executor has reported on all its units, the checkpoint is complete. */
  lemma CompleteAtEnd(p: Protocolo, s: Sistema, ex: Executor)
    requires Acoplado(p, s, ex) && |ex.novos| == |ex.plano.unidades|
    ensures Completo(p.todas, s.job.itens)
  {
    var base, us := ex.plano.base, ex.plano.unidades;
    forall u | u in p.todas ensures exists it :: it in s.job.itens && it.unidade == u {
      if u in SucessoKeys(base) {
        var it :| it in base && it.ok && it.unidade == u;
        assert it in s.job.itens;
      } else {
        var k :| 0 <= k < |us| && us[k] == u;
        assert ex.novos[k] in s.job.itens;
      }
    }
    if NoDup(p.todas) {
      PendentesNoDup(p.todas, SucessoKeys(base));
      FalhosOfReport(ex.novos, us);
      AllOkKeepsAll(base);
      FalhosConcat(base, ex.novos);
      PendentesTwice(p.todas, SucessoKeys(base), SucessoKeys(ex.novos));
    }
  }

  lemma ExecutorEndKeepsInv(p: Protocolo, s: Sistema, e: Evento)
    requires Inv(p, s) && Passo(p, s, e).Some?
    requires e.CommitFinal? || e.Aborta? || e.Morre?
    ensures Inv(p, Passo(p, s, e).value)
    ensures SucessoKeys(Passo(p, s, e).value.job.itens) == SucessoKeys(s.job.itens)
  {
    var t := Passo(p, s, e).value;
    var ex := s.vivos[e.id];
    assert t.vivos == map[];
    if |ex.novos| == |ex.plano.unidades| { CompleteAtEnd(p, s, ex); }
  }

  lemma OtherKeepsInv(p: Protocolo, s: Sistema, e: Evento)
    requires Inv(p, s) && Passo(p, s, e).Some? && Inofensivo(s, e) && p.lease >= p.timeout
    requires !e.Claim? && !e.CommitUnidade? && !e.CommitFinal? && !e.Aborta? && !e.Morre?
    ensures Inv(p, Passo(p, s, e).value)
    ensures Passo(p, s, e).value.job.itens == s.job.itens
  {
    var t := Passo(p, s, e).value;
    assert forall id :: id in s.vivos ==> Acoplado(p, s, s.vivos[id]);
    if !e.Avanca? { assert s.vivos == map[]; }
  }

  lemma StepKeepsInv(p: Protocolo, s: Sistema, e: Evento)
    requires Inv(p, s) && Passo(p, s, e).Some? && Inofensivo(s, e) && p.lease >= p.timeout
    ensures Inv(p, Passo(p, s, e).value)
    ensures SucessoKeys(s.job.itens) <= SucessoKeys(Passo(p, s, e).value.job.itens)
  {
    if e.Claim? { ClaimKeepsInv(p, s, e.id, e.iniciadoEm); }
    else if e.CommitUnidade? { UnitKeepsInv(p, s, e.id, e.ok); }
    else if e.CommitFinal? || e.Aborta? || e.Morre? { ExecutorEndKeepsInv(p, s, e); }
    else { OtherKeepsInv(p, s, e); }
  }

  /** Successes are only ever added, over any run. */
  lemma {:induction false} RunKeepsInv(p: Protocolo, s: Sistema, evs: seq<Evento>, t: Sistema)
    requires Inv(p, s) && Chega(p, s, evs, t) && p.lease >= p.timeout
    ensures Inv(p, t)
    ensures SucessoKeys(s.job.itens) <= SucessoKeys(t.job.itens)
    decreases |evs|
  {
    if evs != [] {
      StepKeepsInv(p, s, evs[0]);
      RunKeepsInv(p, Passo(p, s, evs[0]).value, evs[1..], t);
    }
  }

  /** A new job satisfies the invariant. */
  lemma InitialInv(p: Protocolo, agora: int, total: nat)
    ensures Inv(p, Inicial(p, agora, total))
  {
  }

  lemma ReachableInv(p: Protocolo, s: Sistema)
    requires Alcancavel(p, s) && p.lease >= p.timeout
    ensures Inv(p, s)
  {
    var agora: int, total: nat, evs: seq<Evento> :| Chega(p, Inicial(p, agora, total), evs, s);
    RunKeepsInv(p, Inicial(p, agora, total), evs, s);
  }

  // ---------------------------------------------------------------- main results

  /**
   * No unit is lost: in every reachable state where the job waits or has failed, the next
   * attempt runs every unit without a recorded success and keeps every recorded success.
   */
  lemma NoUnitLost(p: Protocolo, s: Sistema)
    requires Alcancavel(p, s) && p.lease >= p.timeout
    requires s.job.status == NaFila || s.job.status == Falhou
    ensures forall u :: u in p.todas && u !in SucessoKeys(s.job.itens) ==> u in RetryPlan(p.todas, s.job).unidades
    ensures forall u :: u in RetryPlan(p.todas, s.job).unidades ==> u in p.todas
    ensures forall it :: it in RetryPlan(p.todas, s.job).base <==> it in s.job.itens && it.ok
  {
    ReachableInv(p, s);
    PlanCovers(p.todas, s.job);
  }

  /** Without repeated units the plan is exactly what has no success, in the job's order. */
  lemma PlanExact(p: Protocolo, s: Sistema)
    requires Alcancavel(p, s) && p.lease >= p.timeout && NoDup(p.todas)
    requires s.job.status == NaFila || s.job.status == Falhou
    ensures RetryPlan(p.todas, s.job).unidades == Pendentes(p.todas, SucessoKeys(s.job.itens))
  {
    ReachableInv(p, s);
    PlanCovers(p.todas, s.job);
  }

  /** The unit an executor runs next has no recorded success. */
  lemma NoSuccessRedone(p: Protocolo, s: Sistema, id: nat)
    requires Alcancavel(p, s) && p.lease >= p.timeout && NoDup(p.todas)
    requires id in s.vivos && |s.vivos[id].novos| < |s.vivos[id].plano.unidades|
    ensures s.vivos[id].plano.unidades[|s.vivos[id].novos|] !in SucessoKeys(s.job.itens)
  {
    ReachableInv(p, s);
    var ex := s.vivos[id];
    var us, n := ex.plano.unidades, |ex.novos|;
    assert Acoplado(p, s, ex);
    PendentesMembers(p.todas, SucessoKeys(ex.plano.base));
    PendentesNoDup(p.todas, SucessoKeys(ex.plano.base));
    assert us[n] in us;
    forall it | it in s.job.itens && it.ok ensures it.unidade != us[n] {
      if it in ex.novos {
        var k :| 0 <= k < n && ex.novos[k] == it;
        assert us[k] != us[n];
      } else {
        assert it.unidade in SucessoKeys(ex.plano.base);
      }
    }
  }

  /** A concluded job has a success for every one of its units, and its checkpoint never loses one. */
  lemma ConcludedMeansAllDone(p: Protocolo, s: Sistema)
    requires Alcancavel(p, s) && p.lease >= p.timeout && s.job.status == Concluido
    ensures forall u :: u in p.todas ==> u in SucessoKeys(s.job.itens)
    ensures forall it :: it in s.job.itens ==> it.ok
  {
    ReachableInv(p, s);
    FalhosMembers(s.job.itens);
    forall it | it in s.job.itens ensures it.ok {
      assert it == Item(it.unidade, it.ok);
    }
    if s.job.itens == [] {
      assert Completo(p.todas, s.job.itens);
    }
  }

  lemma SuccessesAreMonotone(p: Protocolo, s: Sistema, evs: seq<Evento>, t: Sistema)
    requires Alcancavel(p, s) && Chega(p, s, evs, t) && p.lease >= p.timeout
    ensures SucessoKeys(s.job.itens) <= SucessoKeys(t.job.itens)
  {
    ReachableInv(p, s);
    RunKeepsInv(p, s, evs, t);
  }
}
