/**
 * What a run of the batch loop did, read off its units and their outcomes alone: which units were
 * skipped, stored or refused, what was counted on the way, where the run stopped and how, and
 * which saves it made.
 */
module BackfillDesfechos {
  import opened Basics
  import opened BackfillRun

  // ---------------------------------------------------------------- units and outcomes

  /** The session committed and the key was recorded. */
  predicate Guardou(v: Visita) {
    v.Executa? || v.ProgressoLevanta? || v.MorreAntesDeSalvar?
  }

  function IngeridosDe(v: Visita): nat {
    if Guardou(v) then v.ingeridos else 0
  }

  function SilverDe(v: Visita): nat {
    if Guardou(v) then v.silverRows else 0
  }

  datatype Entrada = Entrada(units: seq<string>, visitas: seq<Visita>, force: bool, salvo: set<string>)
  {
    /** Its key was in the file, or an earlier unit stored it. */
    predicate Pulada(i: nat)
      requires i < |units|
    {
      !force && (units[i] in salvo || exists j :: 0 <= j < i && j < |visitas| && units[j] == units[i] && Guardou(visitas[j]))
    }

    predicate Executada(i: nat)
      requires i < |units|
    {
      !Pulada(i) && i < |visitas| && Guardou(visitas[i])
    }

    predicate Recusada(i: nat)
      requires i < |units|
    {
      !Pulada(i) && i < |visitas| && visitas[i] == Falha
    }

    /** The keys stored among the first `n` units, in order. */
    function Executadas(n: nat): seq<string>
      requires n <= |units|
    {
      if n == 0 then [] else Executadas(n - 1) + if Executada(n - 1) then [units[n - 1]] else []
    }

    function Recusas(n: nat): seq<string>
      requires n <= |units|
    {
      if n == 0 then [] else Recusas(n - 1) + if Recusada(n - 1) then [units[n - 1]] else []
    }

    function Puladas(n: nat): nat
      requires n <= |units|
    {
      if n == 0 then 0 else Puladas(n - 1) + if Pulada(n - 1) then 1 else 0
    }

    function Ingeridos(n: nat): nat
      requires n <= |units|
    {
      if n == 0 then 0 else Ingeridos(n - 1) + if Executada(n - 1) then IngeridosDe(visitas[n - 1]) else 0
    }

    function SilverRows(n: nat): nat
      requires n <= |units|
    {
      if n == 0 then 0 else SilverRows(n - 1) + if Executada(n - 1) then SilverDe(visitas[n - 1]) else 0
    }

    /** Unit `i` is stored as the last of a period, its callback having returned. */
    predicate FechaPeriodo(i: nat, saveEvery: int)
      requires i < |units|
    {
      Executada(i) && visitas[i].Executa? && saveEvery != 0 && |Executadas(i + 1)| % saveEvery == 0
    }

    function Periodicas(n: nat, saveEvery: int): seq<Gravacao>
      requires n <= |units|
    {
      if n == 0 then []
      else Periodicas(n - 1, saveEvery) + if FechaPeriodo(n - 1, saveEvery) then [visitas[n - 1].gravacao] else []
    }

    /** The loop goes on after unit `i`. */
    predicate Segue(i: nat, saveEvery: int)
      requires i < |units|
    {
      || Pulada(i)
      || Recusada(i)
      || (Executada(i) && visitas[i].Executa? && saveEvery != 0
          && (FechaPeriodo(i, saveEvery) ==> visitas[i].gravacao == Inteira))
    }

    ghost predicate Seguem(n: nat, saveEvery: int)
      requires n <= |units|
    {
      forall i :: 0 <= i < n ==> Segue(i, saveEvery)
    }

    /** What happens at unit `i`; a missing outcome is a kill before the commit. */
    function Em(i: nat): Visita {
      if i < |visitas| then visitas[i] else MorreAntes
    }
  }

  // ---------------------------------------------------------------- a run described by them

  /** Counters, refusals, stored keys and memory after `n` units. */
  ghost predicate Fez(en: Entrada, e: Estado, n: nat) {
    && n == e.r.visitadas <= |en.units|
    && e.executadas == en.Executadas(n) && e.r.erros == en.Recusas(n)
    && e.r.executados == |en.Executadas(n)| && e.r.falhas == |en.Recusas(n)| && e.r.pulados == en.Puladas(n)
    && e.r.ingeridos == en.Ingeridos(n) && e.r.silverRows == en.SilverRows(n)
    && e.done == en.salvo + Chaves(en.Executadas(n))
  }

  /** The `finally` block ran, meaning to end as `fim`. */
  ghost predicate Saiu(en: Entrada, saveEvery: int, final: Gravacao, e: Estado, n: nat, fim: Fim)
    requires n <= |en.units|
  {
    && e.gravacoes == en.Periodicas(n, saveEvery) + [final]
    && e.r.fim == if Matou(final) then Morto else if Levantou(final) then Propagado else fim
  }

  /** The process died in the loop. */
  ghost predicate Morreu(en: Entrada, saveEvery: int, e: Estado, n: nat)
    requires n <= |en.units|
  {
    e.gravacoes == en.Periodicas(n, saveEvery) && e.r.fim == Morto
  }

  /** All units were visited. */
  ghost predicate ChegouAoFim(en: Entrada, saveEvery: int, final: Gravacao, antes: set<string>, e: Estado) {
    var n := |en.units|;
    && Fez(en, e, n) && en.Seguem(n, saveEvery) && e.commits == antes + Chaves(en.Executadas(n))
    && Saiu(en, saveEvery, final, e, n, Completo)
  }

  /** The run stopped at a unit that it neither stored nor refused. */
  ghost predicate ParouAntes(en: Entrada, saveEvery: int, final: Gravacao, antes: set<string>, e: Estado) {
    var n := e.r.visitadas;
    && n < |en.units| && Fez(en, e, n) && en.Seguem(n, saveEvery) && !en.Pulada(n)
    && e.commits == antes + Chaves(en.Executadas(n))
         + (if en.Em(n) == InterrompeDepois || en.Em(n) == MorreDepois then {en.units[n]} else {})
    && (en.Em(n) == DiscoCheio ==> Saiu(en, saveEvery, final, e, n, Interrompido))
    && (en.Em(n) == InterrompeAntes || en.Em(n) == InterrompeDepois ==> Saiu(en, saveEvery, final, e, n, Propagado))
    && (en.Em(n) == MorreAntes || en.Em(n) == MorreDepois ==> Morreu(en, saveEvery, e, n))
    && en.Em(n) in {DiscoCheio, InterrompeAntes, InterrompeDepois, MorreAntes, MorreDepois}
  }

  /** The run stopped at a unit that it stored: in the callback, before the save, or in it. */
  ghost predicate ParouDepois(en: Entrada, saveEvery: int, final: Gravacao, antes: set<string>, e: Estado) {
    var n := e.r.visitadas;
    && 0 < n <= |en.units| && Fez(en, e, n) && en.Seguem(n - 1, saveEvery)
    && en.Executada(n - 1) && !en.Segue(n - 1, saveEvery)
    && e.commits == antes + Chaves(en.Executadas(n))
    && var v := en.visitas[n - 1];
      if v.MorreAntesDeSalvar? || (en.FechaPeriodo(n - 1, saveEvery) && Matou(v.gravacao))
      then Morreu(en, saveEvery, e, n) else Saiu(en, saveEvery, final, e, n, Propagado)
  }

  ghost predicate Acabou(en: Entrada, saveEvery: int, final: Gravacao, antes: set<string>, e: Estado) {
    || ChegouAoFim(en, saveEvery, final, antes, e)
    || ParouAntes(en, saveEvery, final, antes, e)
    || ParouDepois(en, saveEvery, final, antes, e)
  }

  // ---------------------------------------------------------------- the loop does that

  ghost predicate EmDia(en: Entrada, saveEvery: int, antes: set<string>, e: Estado) {
    && e.r.fim == EmCurso && Fez(en, e, e.r.visitadas) && en.Seguem(e.r.visitadas, saveEvery)
    && e.commits == antes + Chaves(en.Executadas(e.r.visitadas))
    && e.gravacoes == en.Periodicas(e.r.visitadas, saveEvery)
  }

  lemma {:induction false} StoredKeys(en: Entrada, n: nat, k: string)
    requires n <= |en.units|
    ensures k in en.Executadas(n) <==> exists j :: 0 <= j < n && en.Executada(j) && en.units[j] == k
  {
    if n > 0 {
      StoredKeys(en, n - 1, k);
      if en.Executada(n - 1) && en.units[n - 1] == k { assert en.Executada(n - 1); }
    }
  }

  lemma {:induction false} RefusedKeys(en: Entrada, n: nat, i: nat)
    requires i < n <= |en.units| && en.Recusada(i)
    ensures en.units[i] in en.Recusas(n)
  {
    if i < n - 1 { RefusedKeys(en, n - 1, i); }
  }

  /** A key that some visited outcome would store is in the file or was stored. */
  lemma {:induction false} StoringOutcomeStores(en: Entrada, n: nat, j: nat)
    requires j < n <= |en.units| && j < |en.visitas| && Guardou(en.visitas[j]) && !en.force
    ensures en.units[j] in en.salvo || en.units[j] in en.Executadas(n)
    decreases j
  {
    StoredKeys(en, n, en.units[j]);
    if !en.Pulada(j) {
      assert en.Executada(j);
    } else if en.units[j] !in en.salvo {
      var h :| 0 <= h < j && h < |en.visitas| && en.units[h] == en.units[j] && Guardou(en.visitas[h]);
      StoringOutcomeStores(en, n, h);
    }
  }

  /** The code's test, on what memory holds, is the one on outcomes. */
  lemma SkippedIff(en: Entrada, n: nat)
    requires n < |en.units|
    ensures en.Pulada(n) <==> !en.force && en.units[n] in en.salvo + Chaves(en.Executadas(n))
  {
    StoredKeys(en, n, en.units[n]);
    if !en.force && exists j :: 0 <= j < n && j < |en.visitas| && en.units[j] == en.units[n] && Guardou(en.visitas[j]) {
      var j :| 0 <= j < n && j < |en.visitas| && en.units[j] == en.units[n] && Guardou(en.visitas[j]);
      StoringOutcomeStores(en, n, j);
    }
  }

  lemma TurnSkips(en: Entrada, saveEvery: int, antes: set<string>, e: Estado)
    requires EmDia(en, saveEvery, antes, e) && e.r.visitadas < |en.units| && en.Pulada(e.r.visitadas)
    ensures EmDia(en, saveEvery, antes, Pular(e))
  {
  }

  lemma TurnRefuses(en: Entrada, saveEvery: int, final: Gravacao, antes: set<string>, e: Estado)
    requires EmDia(en, saveEvery, antes, e) && e.r.visitadas < |en.units| && en.Recusada(e.r.visitadas)
    ensures EmDia(en, saveEvery, antes, Visitar(e, en.units[e.r.visitadas], saveEvery, Falha, final))
  {
  }

  /** Unit `n - 1` was stored and nothing was saved yet. */
  ghost predicate RecemGuardada(en: Entrada, saveEvery: int, antes: set<string>, m: Estado, n: nat) {
    && 0 < n <= |en.units| && Fez(en, m, n) && m.r.fim == EmCurso && en.Executada(n - 1) && en.Seguem(n - 1, saveEvery)
    && m.commits == antes + Chaves(en.Executadas(n))
    && m.gravacoes == en.Periodicas(n - 1, saveEvery)
  }

  lemma TurnStores(en: Entrada, saveEvery: int, antes: set<string>, e: Estado)
    requires EmDia(en, saveEvery, antes, e) && e.r.visitadas < |en.units| && en.Executada(e.r.visitadas)
    ensures var i, v := e.r.visitadas, en.visitas[e.r.visitadas];
      RecemGuardada(en, saveEvery, antes, Registrada(e, en.units[i], v.ingeridos, v.silverRows), i + 1)
  {
    ChavesAppend(en.Executadas(e.r.visitadas), en.units[e.r.visitadas]);
  }

  lemma CallbackEnds(en: Entrada, saveEvery: int, final: Gravacao, antes: set<string>, m: Estado, n: nat)
    requires RecemGuardada(en, saveEvery, antes, m, n) && !en.visitas[n - 1].Executa?
    ensures ParouDepois(en, saveEvery, final, antes,
                        if en.visitas[n - 1].MorreAntesDeSalvar? then Acaba(m, Morto) else Sair(m, Propagado, final))
  {
  }

  ghost predicate SegueOuParou(en: Entrada, saveEvery: int, final: Gravacao, antes: set<string>, f: Estado) {
    if f.r.fim == EmCurso then EmDia(en, saveEvery, antes, f) else ParouDepois(en, saveEvery, final, antes, f)
  }

  lemma SaveOrGoOn(en: Entrada, saveEvery: int, final: Gravacao, antes: set<string>, m: Estado, n: nat)
    requires RecemGuardada(en, saveEvery, antes, m, n) && en.visitas[n - 1].Executa?
    ensures SegueOuParou(en, saveEvery, final, antes, SalvaPeriodica(m, saveEvery, en.visitas[n - 1].gravacao, final))
  {
    var g := en.visitas[n - 1].gravacao;
    assert en.FechaPeriodo(n - 1, saveEvery) <==> saveEvery != 0 && m.r.executados % saveEvery == 0;
    if saveEvery != 0 && (!en.FechaPeriodo(n - 1, saveEvery) || g == Inteira) { assert en.Segue(n - 1, saveEvery); }
  }

  lemma TurnExecutes(en: Entrada, saveEvery: int, final: Gravacao, antes: set<string>, e: Estado)
    requires EmDia(en, saveEvery, antes, e) && e.r.visitadas < |en.units| && en.Executada(e.r.visitadas)
    ensures SegueOuParou(en, saveEvery, final, antes,
                         Visitar(e, en.units[e.r.visitadas], saveEvery, en.visitas[e.r.visitadas], final))
  {
    var i, v := e.r.visitadas, en.visitas[e.r.visitadas];
    var m := Registrada(e, en.units[i], v.ingeridos, v.silverRows);
    TurnStores(en, saveEvery, antes, e);
    StoredThen(e, en.units[i], saveEvery, v, final);
    if v.Executa? {
      SaveOrGoOn(en, saveEvery, final, antes, m, i + 1);
    } else {
      CallbackEnds(en, saveEvery, final, antes, m, i + 1);
    }
  }

  lemma StoredThen(e: Estado, key: string, saveEvery: int, v: Visita, final: Gravacao)
    requires Guardou(v)
    ensures var m := Registrada(e, key, v.ingeridos, v.silverRows);
      Visitar(e, key, saveEvery, v, final)
        == if v.Executa? then SalvaPeriodica(m, saveEvery, v.gravacao, final)
           else if v.MorreAntesDeSalvar? then Acaba(m, Morto) else Sair(m, Propagado, final)
  {
  }

  lemma TurnStops(en: Entrada, saveEvery: int, final: Gravacao, antes: set<string>, e: Estado)
    requires EmDia(en, saveEvery, antes, e) && e.r.visitadas < |en.units| && !en.Pulada(e.r.visitadas)
    requires !Guardou(en.Em(e.r.visitadas)) && en.Em(e.r.visitadas) != Falha
    ensures ParouAntes(en, saveEvery, final, antes,
                       Visitar(e, en.units[e.r.visitadas], saveEvery, en.Em(e.r.visitadas), final))
  {
  }

  lemma {:induction false} LoopFollowsOutcomes(en: Entrada, saveEvery: int, final: Gravacao, antes: set<string>, e: Estado)
    requires EmDia(en, saveEvery, antes, e)
    ensures Acabou(en, saveEvery, final, antes, Continua(en.units, en.visitas, final, en.force, saveEvery, e))
    decreases |en.units| - e.r.visitadas
  {
    var i := e.r.visitadas;
    if i < |en.units| {
      TurnMovesOn(en.units, en.visitas, final, en.force, saveEvery, e);
      SkippedIff(en, i);
      var f := Volta(en.units, en.visitas, final, en.force, saveEvery, e);
      if en.Pulada(i) {
        TurnSkips(en, saveEvery, antes, e);
      } else if en.Em(i) == Falha {
        TurnRefuses(en, saveEvery, final, antes, e);
      } else if Guardou(en.Em(i)) {
        TurnExecutes(en, saveEvery, final, antes, e);
      } else {
        TurnStops(en, saveEvery, final, antes, e);
      }
      if f.r.fim == EmCurso { LoopFollowsOutcomes(en, saveEvery, final, antes, f); }
    }
  }
}
