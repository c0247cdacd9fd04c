/**
 * What a failure written by someone else (the handler of a claim that raised, the callback of
 * an old delivery) can cost, and exactly when.
 */
module JobForeign {
  import opened Basics
  import opened IngestJob
  import opened JobProtocol
  import opened JobInvariant
  import opened JobForeignRuns

  lemma UnfinishedCanLose(p: Protocolo, t: Sistema, a: nat)
    requires t.job.status == Falhou && t.job.erroSistema.Some? && t.vivos.Keys == {a} && p.todas != []
    requires BaseOk(t.vivos[a]) && Inacabado(t.vivos[a])
    ensures PodePerder(p, t) && PodeEsquecer(p, t)
  {
    var e1, s1, b := StageOne(p, t, a);
    var e2, s2, c := StageTwo(p, s1, b);
    ChegaConcat(p, t, e1, s1, e2, s2);
    var e3, s3 := StageThree(p, s2, c);
    ChegaConcat(p, t, e1 + e2, s2, e3, s3);
  }

  lemma DoneLosesNothing(p: Protocolo, t: Sistema)
    requires Pronto(p, t)
    ensures !PodePerder(p, t) && !PodeEsquecer(p, t)
  {
    forall evs: seq<Evento>, r: Sistema | Chega(p, t, evs, r) ensures !PerdeUnidade(p, r) && !EsqueceSucesso(p, r) {
      DoneRunKeeps(p, t, evs, r);
      if Parado(r.job) { DonePlan(p.todas, r.job); }
    }
  }

  lemma TameLosesNothing(p: Protocolo, t: Sistema)
    requires Inv(p, t) && p.lease >= p.timeout
    ensures !PodePerder(p, t) && !PodeEsquecer(p, t)
  {
    forall evs: seq<Evento>, r: Sistema | Chega(p, t, evs, r) ensures !PerdeUnidade(p, r) && !EsqueceSucesso(p, r) {
      RunKeepsInv(p, t, evs, r);
      if Parado(r.job) { PlanCovers(p.todas, r.job); }
    }
  }

  // ---------------------------------------------------------------- the exact condition

  /**
   * After a failure written by someone else, some continuation misses a unit without a success, and
   * some continuation drops a success, exactly when it fell on a live executor that has a unit to
   * report or a failure reported. On any other state it costs nothing.
   */
  lemma ForeignFailureLosesIff(p: Protocolo, s: Sistema, e: Evento)
    requires Alcancavel(p, s) && p.lease >= p.timeout && Alheia(e) && Passo(p, s, e).Some?
    ensures PodePerder(p, Passo(p, s, e).value) <==> AlgumInacabado(s)
    ensures PodeEsquecer(p, Passo(p, s, e).value) <==> AlgumInacabado(s)
  {
    var t := Passo(p, s, e).value;
    ReachableInv(p, s);
    if s.vivos == map[] {
      StepKeepsInv(p, s, e);
      TameLosesNothing(p, t);
    } else {
      var a :| a in s.vivos;
      var ex := s.vivos[a];
      assert Acoplado(p, s, ex);
      assert forall id :: id in s.vivos ==> id == a;
      assert t.vivos.Keys == {a};
      if Inacabado(ex) {
        UnfinishedHasUnits(p, s, ex);
        UnfinishedCanLose(p, t, a);
      } else {
        FinishedIsDone(p, s, ex);
        DoneLosesNothing(p, t);
      }
    }
  }

  /** Without repeated units that condition says: a live executor, and some unit still without a success. */
  lemma UnfinishedIffPending(p: Protocolo, s: Sistema)
    requires Alcancavel(p, s) && p.lease >= p.timeout && NoDup(p.todas)
    ensures AlgumInacabado(s) <==> s.vivos != map[] && exists u :: u in p.todas && u !in SucessoKeys(s.job.itens)
  {
    ReachableInv(p, s);
    if s.vivos != map[] {
      var a :| a in s.vivos;
      var ex := s.vivos[a];
      assert Acoplado(p, s, ex);
      assert forall id :: id in s.vivos ==> id == a;
      if Inacabado(ex) {
        var u := UnfinishedUnit(p, s, ex);
        assert u in p.todas && u !in SucessoKeys(s.job.itens);
      } else {
        FinishedIsDone(p, s, ex);
      }
    }
  }
}
