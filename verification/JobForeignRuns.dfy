/**
 * Runs after a failure that someone else wrote: the three attempts by which a late executor makes
 * the plan miss a unit and forget a success, and the states from which no run does so because every
 * unit has a success and nobody has anything left to report.
 */
module JobForeignRuns {
  import opened Basics
  import opened IngestJob
  import opened JobProtocol
  import opened JobInvariant

  ghost predicate Parado(job: Job) {
    job.status == NaFila || job.status == Falhou
  }

  /** The next attempt would not run a unit that has no success. */
  ghost predicate PerdeUnidade(p: Protocolo, r: Sistema) {
    Parado(r.job)
    && exists u :: u in p.todas && u !in SucessoKeys(r.job.itens) && u !in RetryPlan(p.todas, r.job).unidades
  }

  /** The next attempt would discard a recorded success. */
  ghost predicate EsqueceSucesso(p: Protocolo, r: Sistema) {
    Parado(r.job) && exists it :: it in r.job.itens && it.ok && it !in RetryPlan(p.todas, r.job).base
  }

  ghost predicate PodePerder(p: Protocolo, t: Sistema) {
    exists evs: seq<Evento>, r: Sistema :: Chega(p, t, evs, r) && PerdeUnidade(p, r)
  }

  ghost predicate PodeEsquecer(p: Protocolo, t: Sistema) {
    exists evs: seq<Evento>, r: Sistema :: Chega(p, t, evs, r) && EsqueceSucesso(p, r)
  }

  /** The executor has a unit to report, or reported a failure. */
  predicate Inacabado(ex: Executor) {
    |ex.novos| < |ex.plano.unidades| || Falhos(ex.novos) != []
  }

  ghost predicate AlgumInacabado(s: Sistema) {
    exists id :: id in s.vivos && Inacabado(s.vivos[id])
  }

  // ---------------------------------------------------------------- runs of one executor

  ghost predicate BaseOk(ex: Executor) {
    (forall it :: it in ex.plano.base ==> it.ok) && |ex.novos| <= |ex.plano.unidades|
  }

  /** An unfinished executor fails what it has left and commits a failed job with no system error. */
  lemma {:induction false} FinishFailing(p: Protocolo, s: Sistema, id: nat) returns (evs: seq<Evento>, t: Sistema)
    requires id in s.vivos && BaseOk(s.vivos[id]) && Inacabado(s.vivos[id])
    ensures Chega(p, s, evs, t) && t.vivos == s.vivos - {id} && t.agora == s.agora
    ensures t.job.status == Falhou && t.job.erroSistema == None && Falhos(t.job.itens) != []
    decreases |s.vivos[id].plano.unidades| - |s.vivos[id].novos|
  {
    var ex := s.vivos[id];
    if |ex.novos| < |ex.plano.unidades| {
      var e := CommitUnidade(id, false);
      var m := Passo(p, s, e).value;
      FalhosConcat(ex.novos, [Item(ex.plano.unidades[|ex.novos|], false)]);
      var resto;
      resto, t := FinishFailing(p, m, id);
      evs := [e] + resto;
      ChegaCons(p, s, e, m, resto, t);
      assert m.vivos - {id} == s.vivos - {id};
    } else {
      t := Passo(p, s, CommitFinal(id, false)).value;
      evs := [CommitFinal(id, false)];
      ChegaUm(p, s, CommitFinal(id, false));
      FalhosConcat(ex.plano.base, ex.novos);
    }
  }

  /** An executor with units left succeeds on all of them; the row says so, under whatever status it has. */
  lemma {:induction false} FinishOk(p: Protocolo, s: Sistema, id: nat) returns (evs: seq<Evento>, t: Sistema)
    requires id in s.vivos && BaseOk(s.vivos[id])
    requires |s.vivos[id].novos| < |s.vivos[id].plano.unidades| && Falhos(s.vivos[id].novos) == []
    ensures Chega(p, s, evs, t) && t.agora == s.agora && t.vivos.Keys == s.vivos.Keys
    ensures |t.vivos[id].novos| == |t.vivos[id].plano.unidades|
    ensures t.job.status == s.job.status && t.job.erroSistema == None
    ensures Falhos(t.job.itens) == [] && t.job.itens != []
    decreases |s.vivos[id].plano.unidades| - |s.vivos[id].novos|
  {
    var ex := s.vivos[id];
    var e := CommitUnidade(id, true);
    var m := Passo(p, s, e).value;
    var novos := m.vivos[id].novos;
    FalhosConcat(ex.novos, [Item(ex.plano.unidades[|ex.novos|], true)]);
    if |novos| < |ex.plano.unidades| {
      var resto;
      resto, t := FinishOk(p, m, id);
      evs := [e] + resto;
      ChegaCons(p, s, e, m, resto, t);
    } else {
      t := m;
      evs := [e];
      ChegaUm(p, s, e);
      AllOkKeepsAll(ex.plano.base);
      FalhosConcat(ex.plano.base, novos);
    }
  }

  // ---------------------------------------------------------------- the three stages of the loss

  lemma PlanBaseOk(todas: seq<Unidade>, job: Job)
    ensures forall it :: it in RetryPlan(todas, job).base ==> it.ok
  {
    SucessosMembers(job.itens);
  }

  lemma RetryAndClaim(p: Protocolo, s: Sistema, id: nat) returns (evs: seq<Evento>, t: Sistema)
    requires s.job.status == Falhou && Retentavel(s.job) && id !in s.vivos
    ensures Chega(p, s, evs, t) && t.agora == s.agora && t.job.status == Executando
    ensures var plano := RetryPlan(p.todas, AposRetry(p.todas, s.job)); t.vivos == s.vivos[id := Executor(s.agora, plano, [])]
    ensures RetryPlan(p.todas, AposRetry(p.todas, s.job)) == RetryPlan(p.todas, s.job)
    ensures BaseOk(t.vivos[id])
  {
    var m := Passo(p, s, Retry).value;
    t := Passo(p, m, Claim(id, m.agora)).value;
    ChegaUm(p, s, Retry);
    ChegaUm(p, m, Claim(id, m.agora));
    ChegaConcat(p, s, [Retry], m, [Claim(id, m.agora)], t);
    evs := [Retry] + [Claim(id, m.agora)];
    PlanBaseOk(p.todas, m.job);
  }

  /** A second executor starts, and the first one finishes with failures under it. */
  lemma StageOne(p: Protocolo, s: Sistema, a: nat) returns (evs: seq<Evento>, t: Sistema, b: nat)
    requires s.job.status == Falhou && s.job.erroSistema.Some? && s.vivos.Keys == {a}
    requires BaseOk(s.vivos[a]) && Inacabado(s.vivos[a])
    ensures Chega(p, s, evs, t) && t.vivos.Keys == {b} && t.vivos[b].novos == []
    ensures t.job.status == Falhou && t.job.erroSistema == None && Falhos(t.job.itens) != []
  {
    b := a + 1;
    var antes, m := RetryAndClaim(p, s, b);
    assert m.vivos[a] == s.vivos[a];
    var depois;
    depois, t := FinishFailing(p, m, a);
    evs := antes + depois;
    ChegaConcat(p, s, antes, m, depois, t);
    assert t.vivos.Keys == m.vivos.Keys - {a};
  }

  /** A third one starts, the second aborts, the job is retried under the third, which succeeds: a waiting row that looks fresh. */
  lemma StageTwo(p: Protocolo, s: Sistema, b: nat) returns (evs: seq<Evento>, t: Sistema, c: nat)
    requires s.vivos.Keys == {b} && s.vivos[b].novos == []
    requires s.job.status == Falhou && s.job.erroSistema == None && Falhos(s.job.itens) != []
    ensures Chega(p, s, evs, t) && t.vivos.Keys == {c} && |t.vivos[c].novos| == |t.vivos[c].plano.unidades|
    ensures t.job.status == NaFila && t.job.erroSistema == None && Falhos(t.job.itens) == [] && t.job.itens != []
  {
    c := b + 1;
    var e1, s1 := RetryAndClaim(p, s, c);
    assert s1.vivos[c].plano.unidades == Falhos(s.job.itens) && s1.vivos[b] == s.vivos[b];
    var s2 := Passo(p, s1, Aborta(b, FasePreparacao)).value;
    assert s2.vivos.Keys == {c};
    ChegaUm(p, s1, Aborta(b, FasePreparacao));
    ChegaConcat(p, s, e1, s1, [Aborta(b, FasePreparacao)], s2);
    var s3 := Passo(p, s2, Retry).value;
    ChegaUm(p, s2, Retry);
    ChegaConcat(p, s, e1 + [Aborta(b, FasePreparacao)], s2, [Retry], s3);
    assert s3.vivos[c] == s1.vivos[c];
    var e4;
    e4, t := FinishOk(p, s3, c);
    evs := e1 + [Aborta(b, FasePreparacao)] + [Retry] + e4;
    ChegaConcat(p, s, e1 + [Aborta(b, FasePreparacao)] + [Retry], s3, e4, t);
  }

  /** That row forgets its successes at the next claim, and the late failure of the third executor then hides every unit. */
  lemma StageThree(p: Protocolo, s: Sistema, c: nat) returns (evs: seq<Evento>, t: Sistema)
    requires s.vivos.Keys == {c} && |s.vivos[c].novos| == |s.vivos[c].plano.unidades| && p.todas != []
    requires s.job.status == NaFila && s.job.erroSistema == None && Falhos(s.job.itens) == [] && s.job.itens != []
    ensures EsqueceSucesso(p, s)
    ensures Chega(p, s, evs, t) && PerdeUnidade(p, t)
  {
    FirstIsOk(s.job.itens);
    assert s.job.itens[0] in s.job.itens && s.job.itens[0] !in RetryPlan(p.todas, s.job).base;
    var d := c + 1;
    var m := Passo(p, s, Claim(d, s.agora)).value;
    ChegaUm(p, s, Claim(d, s.agora));
    assert m.vivos[c] == s.vivos[c];
    t := Passo(p, m, Aborta(c, FasePosJob)).value;
    ChegaUm(p, m, Aborta(c, FasePosJob));
    evs := [Claim(d, s.agora)] + [Aborta(c, FasePosJob)];
    ChegaConcat(p, s, [Claim(d, s.agora)], m, [Aborta(c, FasePosJob)], t);
    assert t.job.itens == [] && p.todas[0] in p.todas;
  }

  lemma FirstIsOk(itens: seq<Item>)
    requires Falhos(itens) == [] && itens != []
    ensures itens[0].ok
  {
  }

  // ---------------------------------------------------------------- when nothing can be lost

  /** Every unit has a success, nothing failed, and no executor has anything left to report. */
  ghost predicate TudoFeito(p: Protocolo, itens: seq<Item>) {
    (forall it :: it in itens ==> it.ok) && (forall u :: u in p.todas ==> u in SucessoKeys(itens))
  }

  ghost predicate SoFaltaEncerrar(p: Protocolo, ex: Executor) {
    |ex.novos| == |ex.plano.unidades| && TudoFeito(p, ex.plano.base + ex.novos)
  }

  ghost predicate Pronto(p: Protocolo, s: Sistema) {
    && TudoFeito(p, s.job.itens)
    && (Parado(s.job) ==> s.job.erroSistema.Some?)
    && (forall id :: id in s.vivos ==> SoFaltaEncerrar(p, s.vivos[id]))
  }

  lemma {:induction false} DonePlan(todas: seq<Unidade>, job: Job)
    requires forall it :: it in job.itens ==> it.ok
    requires forall u :: u in todas ==> u in SucessoKeys(job.itens)
    requires job.erroSistema.Some?
    ensures RetryPlan(todas, job) == Plano(job.itens, [])
  {
    AllOkKeepsAll(job.itens);
    NothingPending(todas, SucessoKeys(job.itens));
  }

  lemma DoneClaimKeeps(p: Protocolo, s: Sistema, id: nat, iniciadoEm: int)
    requires Pronto(p, s) && Passo(p, s, Claim(id, iniciadoEm)).Some?
    ensures Pronto(p, Passo(p, s, Claim(id, iniciadoEm)).value)
  {
    DonePlan(p.todas, s.job);
    assert s.job.itens + [] == s.job.itens;
  }

  lemma DoneFinalKeeps(p: Protocolo, s: Sistema, id: nat, timeoutDepois: bool)
    requires Pronto(p, s) && Passo(p, s, CommitFinal(id, timeoutDepois)).Some?
    ensures Pronto(p, Passo(p, s, CommitFinal(id, timeoutDepois)).value)
  {
    assert SoFaltaEncerrar(p, s.vivos[id]);
    AllOkKeepsAll(s.vivos[id].plano.base + s.vivos[id].novos);
  }

  lemma DoneStepKeeps(p: Protocolo, s: Sistema, e: Evento)
    requires Pronto(p, s) && Passo(p, s, e).Some?
    ensures Pronto(p, Passo(p, s, e).value)
  {
    if e.Claim? {
      DoneClaimKeeps(p, s, e.id, e.iniciadoEm);
    } else if e.CommitFinal? {
      DoneFinalKeeps(p, s, e.id, e.timeoutDepois);
    }
  }

  lemma {:induction false} DoneRunKeeps(p: Protocolo, s: Sistema, evs: seq<Evento>, t: Sistema)
    requires Pronto(p, s) && Chega(p, s, evs, t)
    ensures Pronto(p, t)
    decreases |evs|
  {
    if evs != [] {
      DoneStepKeeps(p, s, evs[0]);
      DoneRunKeeps(p, Passo(p, s, evs[0]).value, evs[1..], t);
    }
  }

  // ---------------------------------------------------------------- what an executor still owes

  lemma {:induction false} NoFailureAllOk(itens: seq<Item>)
    requires Falhos(itens) == []
    ensures forall it :: it in itens ==> it.ok
  {
    if itens != [] {
      assert itens == [itens[0]] + itens[1..];
      NoFailureAllOk(itens[1..]);
    }
  }

  /** A live executor that has nothing left and failed nothing has done every unit. */
  lemma FinishedIsDone(p: Protocolo, s: Sistema, ex: Executor)
    requires Acoplado(p, s, ex) && !Inacabado(ex)
    ensures SoFaltaEncerrar(p, ex) && TudoFeito(p, s.job.itens)
  {
    var itens := ex.plano.base + ex.novos;
    NoFailureAllOk(ex.novos);
    assert forall it :: it in itens ==> it in ex.plano.base || it in ex.novos;
    forall u | u in p.todas ensures u in SucessoKeys(itens) {
      if u in SucessoKeys(ex.plano.base) {
        var it :| it in ex.plano.base && it.ok && it.unidade == u;
        assert it in itens;
      } else {
        var k :| 0 <= k < |ex.plano.unidades| && ex.plano.unidades[k] == u;
        assert ex.novos[k] in itens && ex.novos[k].unidade == u;
      }
    }
  }

  lemma UnfinishedHasUnits(p: Protocolo, s: Sistema, ex: Executor)
    requires Acoplado(p, s, ex) && Inacabado(ex)
    ensures p.todas != [] && BaseOk(ex)
  {
    assert ex.plano.unidades != [];
    assert ex.plano.unidades[0] in p.todas;
  }

  /** A unit it has not reported, or reported as failed. */
  lemma OwedIndex(ex: Executor) returns (k: nat)
    requires Inacabado(ex) && Reports(ex.novos, ex.plano.unidades)
    ensures k < |ex.plano.unidades| && (k < |ex.novos| ==> !ex.novos[k].ok)
  {
    k := |ex.novos|;
    if k == |ex.plano.unidades| {
      FalhosMembers(ex.novos);
      var f := Falhos(ex.novos)[0];
      assert f in Falhos(ex.novos);
      k :| 0 <= k < |ex.novos| && ex.novos[k] == Item(f, false);
    }
  }

  /** Without repeats no other report is about the owed unit. */
  lemma OthersReported(novos: seq<Item>, us: seq<Unidade>, k: nat, it: Item)
    requires Reports(novos, us) && NoDup(us) && k < |us| && (k < |novos| ==> !novos[k].ok)
    requires it in novos && it.ok
    ensures it.unidade != us[k]
  {
    var j :| 0 <= j < |novos| && novos[j] == it;
    assert us[j] == it.unidade && j != k;
  }

  /** The unit an unfinished executor still owes. */
  lemma UnfinishedUnit(p: Protocolo, s: Sistema, ex: Executor) returns (u: Unidade)
    requires Acoplado(p, s, ex) && Inacabado(ex) && NoDup(p.todas)
    ensures u in p.todas && u !in SucessoKeys(s.job.itens)
  {
    var us := ex.plano.unidades;
    var k := OwedIndex(ex);
    u := us[k];
    PendentesNoDup(p.todas, SucessoKeys(ex.plano.base));
    PendentesMembers(p.todas, SucessoKeys(ex.plano.base));
    assert u in us && NoDup(us);
    forall it | it in s.job.itens && it.ok ensures it.unidade != u {
      if it in ex.novos {
        OthersReported(ex.novos, us, k, it);
      } else {
        assert it.unidade in SucessoKeys(ex.plano.base);
      }
    }
  }
}
