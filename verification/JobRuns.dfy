/**
 * Results about whole runs: when two executors can meet, what a foreign failure write costs,
 * when a success is redone, the counters, and that no state is a dead end.
 */
module JobRuns {
  import opened Basics
  import opened IngestJob
  import opened JobProtocol
  import opened JobInvariant
  import opened JobTentativas

  // ---------------------------------------------------------------- exclusion

  /** With a lease shorter than the timeout, a live executor is overtaken. */
  lemma ShortLeaseOverlaps(p: Protocolo) returns (t: Sistema)
    requires p.lease < p.timeout
    ensures Alcancavel(p, t) && !Exclusivo(t)
  {
    var s2 := OutlivesLease(p);
    var s3 := Passo(p, s2, Reconcilia).value;
    t := Passo(p, s3, Claim(1, p.lease + 1)).value;
    ChegaUm(p, s2, Reconcilia);
    AlcancavelMais(p, s2, [Reconcilia], s3);
    ChegaUm(p, s3, Claim(1, p.lease + 1));
    AlcancavelMais(p, s3, [Claim(1, p.lease + 1)], t);
    assert 0 in t.vivos && 1 in t.vivos;
  }

  /**
   * Two executors never meet, over every run of claims, duplicate deliveries, crashes, queue
   * failures, recoveries and retries, exactly when the lease is at least the job timeout.
   */
  lemma ExclusionIffLease(p: Protocolo)
    ensures (forall s :: Alcancavel(p, s) ==> Exclusivo(s)) <==> p.lease >= p.timeout
  {
    if p.lease >= p.timeout {
      forall s | Alcancavel(p, s) ensures Exclusivo(s) { ReachableInv(p, s); }
    } else {
      var t := ShortLeaseOverlaps(p);
    }
  }

  const JOB_TIMEOUT: nat := 60 * 60
  const ABANDONED_GRACE_SECONDS: nat := 60

  /** The deployed constants satisfy the condition. */
  lemma DeployedLeaseExcludes(todas: seq<Unidade>, s: Sistema)
    requires Alcancavel(Protocolo(todas, JOB_TIMEOUT, JOB_TIMEOUT + ABANDONED_GRACE_SECONDS), s)
    ensures Exclusivo(s)
    ensures s.vivos != map[] ==> s.job.status == Executando
  {
    ReachableInv(Protocolo(todas, JOB_TIMEOUT, JOB_TIMEOUT + ABANDONED_GRACE_SECONDS), s);
  }

  /** Some continuation reaches two live executors of the job. */
  ghost predicate TwoCanMeet(p: Protocolo, t: Sistema) {
    exists evs: seq<Evento>, r: Sistema :: Chega(p, t, evs, r) && !Exclusivo(r)
  }

  /**
   * A failure written by someone else (a claim that raised, the callback of an old delivery)
   * lets two executors meet later exactly when it falls on a job with a live executor.
   */
  lemma ForeignFailureIffLive(p: Protocolo, s: Sistema, e: Evento)
    requires Alcancavel(p, s) && p.lease >= p.timeout && Alheia(e) && Passo(p, s, e).Some?
    ensures TwoCanMeet(p, Passo(p, s, e).value) <==> s.vivos != map[]
  {
    var t := Passo(p, s, e).value;
    ReachableInv(p, s);
    if s.vivos == map[] {
      StepKeepsInv(p, s, e);
      forall evs: seq<Evento>, r: Sistema | Chega(p, t, evs, r) ensures Exclusivo(r) {
        RunKeepsInv(p, t, evs, r);
      }
    } else {
      var id :| id in s.vivos;
      assert id + 1 !in s.vivos;
      var r := RetryThenClaim(p, t, id + 1);
      var evs := [Retry, Claim(id + 1, t.agora)];
      assert Chega(p, t, evs, r);
      assert !Exclusivo(r) by {
        assert id in r.vivos && id + 1 in r.vivos && id != id + 1;
      }
    }
  }

  /** Such a write also loses work: a unit with no success that the next attempt would skip. */
  lemma ForeignFailureLosesUnits(u: Unidade, v: Unidade) returns (p: Protocolo, s: Sistema, t: Sistema)
    requires u != v
    ensures p.todas == [u, v] && p.lease >= p.timeout && Alcancavel(p, s) && s.vivos != map[]
    ensures Executar(p, s, [FalhaAntesDoCommit(FaseClaim), CommitUnidade(0, false)]) == Some(t)
    ensures t.job.status == Falhou && v !in SucessoKeys(t.job.itens)
    ensures v !in RetryPlan(p.todas, t.job).unidades
  {
    p := Protocolo([u, v], 3600, 3660);
    var s0 := Inicial(p, 0, 1);
    s := Passo(p, s0, Claim(0, 0)).value;
    assert Chega(p, s0, [], s0);
    assert Alcancavel(p, s0);
    ChegaUm(p, s0, Claim(0, 0));
    AlcancavelMais(p, s0, [Claim(0, 0)], s);
    var m := Passo(p, s, FalhaAntesDoCommit(FaseClaim)).value;
    assert s.vivos[0] == Executor(0, Plano([], [u, v]), []);
    assert s.vivos[0] == m.vivos[0];
    t := Passo(p, m, CommitUnidade(0, false)).value;
    var evs := [FalhaAntesDoCommit(FaseClaim), CommitUnidade(0, false)];
    assert evs[1..] == [CommitUnidade(0, false)];
    assert evs[1..][1..] == [];
    assert Executar(p, m, evs[1..]) == Executar(p, t, []);
    assert t.job.itens == [Item(u, false)];
    assert Falhos(t.job.itens) == [u] + Falhos([]);
  }

  // ---------------------------------------------------------------- repeated units

  /** A job that names a unit twice can reach a state whose next attempt redoes a success. */
  lemma RepeatedUnitIsRedone(p: Protocolo, i: nat, j: nat) returns (t: Sistema)
    requires i < j < |p.todas| && p.todas[i] == p.todas[j]
    ensures Alcancavel(p, t) && t.job.status == Falhou
    ensures p.todas[j] in RetryPlan(p.todas, t.job).unidades && p.todas[j] in SucessoKeys(t.job.itens)
  {
    var oks := seq(|p.todas|, k => k != j);
    t := FirstAttempt(p, oks);
    MixedReport(p.todas, oks, i, j);
  }

  /** No success is ever planned again exactly when the job names no unit twice. */
  lemma NothingRedoneIffNoDup(p: Protocolo)
    requires p.lease >= p.timeout
    ensures (forall s, u | Alcancavel(p, s) && (s.job.status == NaFila || s.job.status == Falhou) ::
               u in RetryPlan(p.todas, s.job).unidades ==> u !in SucessoKeys(s.job.itens))
            <==> NoDup(p.todas)
  {
    if NoDup(p.todas) {
      forall s, u | Alcancavel(p, s) && (s.job.status == NaFila || s.job.status == Falhou)
                    && u in RetryPlan(p.todas, s.job).unidades
        ensures u !in SucessoKeys(s.job.itens)
      {
        PlanExact(p, s);
        PendentesMembers(p.todas, SucessoKeys(s.job.itens));
      }
    } else {
      var i, j :| 0 <= i < j < |p.todas| && p.todas[i] == p.todas[j];
      var t := RepeatedUnitIsRedone(p, i, j);
    }
  }

  // ---------------------------------------------------------------- no dead end

  /** From any reachable state of a job nobody cancelled, the job waits in the queue again or is done. */
  lemma BackToQueue(p: Protocolo, s: Sistema) returns (evs: seq<Evento>, t: Sistema)
    requires Inv(p, s) && p.lease >= p.timeout
    requires s.job.status != Cancelado && s.job.status != Concluido
    ensures Chega(p, s, evs, t) && t.job.status == NaFila && t.vivos == map[]
  {
    assert forall a :: a in s.vivos ==> Acoplado(p, s, s.vivos[a]);
    if s.job.status == NaFila {
      evs, t := [], s;
    } else if s.job.status == Falhou {
      evs, t := [Retry], Passo(p, s, Retry).value;
      ChegaUm(p, s, Retry);
    } else {
      var m := s;
      evs := [];
      if s.vivos != map[] {
        var id :| id in s.vivos;
        evs, m := [Morre(id)], Passo(p, s, Morre(id)).value;
        ChegaUm(p, s, Morre(id));
        assert m.vivos == map[];
      }
      var dt: nat := Max(0, m.job.iniciadoEm.value + p.lease + 1 - m.agora);
      var q := Passo(p, m, Avanca(dt)).value;
      ChegaUm(p, m, Avanca(dt));
      ChegaConcat(p, s, evs, m, [Avanca(dt)], q);
      t := Passo(p, q, Reconcilia).value;
      ChegaUm(p, q, Reconcilia);
      ChegaConcat(p, s, evs + [Avanca(dt)], q, [Reconcilia], t);
      evs := evs + [Avanca(dt)] + [Reconcilia];
    }
  }

  /**
   * Crashes, failures and timeouts never leave a dead end: from every reachable state of a job
   * that was not cancelled, some run concludes it, and its last attempt runs only its plan.
   */
  lemma CanAlwaysConclude(p: Protocolo, s: Sistema) returns (evs: seq<Evento>, t: Sistema)
    requires Alcancavel(p, s) && p.lease >= p.timeout && s.job.status != Cancelado
    ensures Chega(p, s, evs, t) && t.job.status == Concluido
    ensures forall u :: u in p.todas ==> u in SucessoKeys(t.job.itens)
  {
    ReachableInv(p, s);
    if s.job.status == Concluido {
      evs, t := [], s;
    } else {
      var prep, m := BackToQueue(p, s);
      RunKeepsInv(p, s, prep, m);
      PlanCovers(p.todas, m.job);
      var plano := RetryPlan(p.todas, m.job);
      var oks := seq(|plano.unidades|, _ => true);
      t := RunAttempt(p, m, 0, oks);
      AllOkKeepsAll(t.job.itens);
      evs := prep + Tentativa(0, m.agora, oks);
      ChegaConcat(p, s, prep, m, Tentativa(0, m.agora, oks), t);
    }
    AlcancavelMais(p, s, evs, t);
    ConcludedMeansAllDone(p, t);
  }

  // ---------------------------------------------------------------- counters and progress

  /** Counters stay truthful at every commit, and within an attempt progress never falls. */
  lemma StepKeepsCounters(p: Protocolo, s: Sistema, e: Evento)
    requires Inv(p, s) && Contabil(s) && Passo(p, s, e).Some?
    ensures Contabil(Passo(p, s, e).value)
    ensures !e.Claim? && !e.Retry? ==> s.job.progresso <= Passo(p, s, e).value.job.progresso
    ensures !e.CommitFinal? && s.job.progresso <= 90 ==> Passo(p, s, e).value.job.progresso <= 90
  {
    if e.Claim? { ClaimCounters(p, s, e.id, e.iniciadoEm); }
    else if e.CommitUnidade? { UnitCounters(p, s, e.id, e.ok); }
    else if e.CommitFinal? { FinalCounters(p, s, e); }
    else { OtherCounters(p, s, e); }
  }

  lemma {:induction false} RunKeepsCounters(p: Protocolo, s: Sistema, evs: seq<Evento>, t: Sistema)
    requires Inv(p, s) && Contabil(s) && Chega(p, s, evs, t) && p.lease >= p.timeout
    ensures Contabil(t)
    decreases |evs|
  {
    if evs != [] {
      StepKeepsInv(p, s, evs[0]);
      StepKeepsCounters(p, s, evs[0]);
      RunKeepsCounters(p, Passo(p, s, evs[0]).value, evs[1..], t);
    }
  }

  /** The table's CHECK constraints hold in every reachable state. */
  lemma CountersAlwaysHold(p: Protocolo, s: Sistema)
    requires Alcancavel(p, s) && p.lease >= p.timeout
    ensures s.job.itensOk + s.job.itensErro <= s.job.itensTotal && s.job.progresso <= 100
    ensures s.job.status == Executando ==>
      s.job.itensOk == |Sucessos(s.job.itens)| && s.job.itensErro == |Falhos(s.job.itens)| && s.job.progresso <= 90
  {
    var agora: int, total: nat, evs: seq<Evento> :| Chega(p, Inicial(p, agora, total), evs, s);
    RunKeepsCounters(p, Inicial(p, agora, total), evs, s);
  }
}
