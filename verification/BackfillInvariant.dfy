/**
 * The turns of the batch loop: what every visit keeps of the counters, the commits and the file,
 * whether the unit is skipped, refused or stored, and whether the save after it is whole, fails
 * or never ends.
 */
module BackfillInvariant {
  import opened Basics
  import opened BackfillRun

  // ---------------------------------------------------------------- the invariant of the loop

  /** The keys executed since the last periodic save. */
  function Pendentes(executadas: seq<string>, saveEvery: int): seq<string> {
    if saveEvery == 0 then [] else executadas[|executadas| - |executadas| % Abs(saveEvery)..]
  }

  /** Before a unit is visited. */
  ghost predicate Coerente(units: seq<string>, force: bool, saveEvery: int, o: Inicio, e: Estado) {
    && Contagem(units, force, o, e) && e.r.fim == EmCurso
    && e.arquivo != Ilegivel && UltimaInteira(e.gravacoes)
    && o.salvo <= Lidas(e.arquivo) <= e.done
    && e.commits - o.commits <= e.done <= Lidas(e.arquivo) + Chaves(Pendentes(e.executadas, saveEvery))
    && Chaves(units[..e.r.visitadas]) <= e.done + Recusadas(e.r)
  }

  /** On the way out: memory misses at most one committed key, and the file, if readable, one period of them. */
  ghost predicate Saindo(units: seq<string>, force: bool, saveEvery: int, o: Inicio, e: Estado) {
    && Contagem(units, force, o, e)
    && Perdidas(e.commits - o.commits, e.done, 1)
    && (e.arquivo == Ilegivel <==> !UltimaInteira(e.gravacoes))
    && (e.arquivo != Ilegivel ==>
          o.salvo <= Lidas(e.arquivo) <= e.done
          && Perdidas(e.commits - o.commits, Lidas(e.arquivo), Max(Abs(saveEvery), 1)))
  }

  /** The end of a run: counted in any case, and the promise holds exactly when the file was not left cut. */
  ghost predicate Cumpre(units: seq<string>, force: bool, saveEvery: int, o: Inicio, e: Estado) {
    && Contagem(units, force, o, e) && e.r.fim != EmCurso && e.r.fim != NaoLeu
    && (Promessa(units, saveEvery, o, e) <==> UltimaInteira(e.gravacoes))
    && (e.arquivo == Ilegivel <==> !UltimaInteira(e.gravacoes))
  }

  lemma PerdidasMais(novas: set<string>, salvo: set<string>, n: nat, m: nat)
    requires Perdidas(novas, salvo, n) && n <= m
    ensures Perdidas(novas, salvo, m)
  {
  }

  lemma SavesAppend(gs: seq<Gravacao>, g: Gravacao)
    ensures UltimaInteira(gs + [g]) == if Cortou(g) then false else Completou(g) || UltimaInteira(gs)
  {
    assert (gs + [g])[..|gs|] == gs;
  }

  /** Any save, whole or not, keeps what holds on the way out. */
  lemma SaveOnTheWayOut(units: seq<string>, force: bool, saveEvery: int, o: Inicio, e: Estado, g: Gravacao)
    requires Saindo(units, force, saveEvery, o, e)
    ensures Saindo(units, force, saveEvery, o, Gravar(e, g))
  {
    SavesAppend(e.gravacoes, g);
    PerdidasMais(e.commits - o.commits, e.done, 1, Max(Abs(saveEvery), 1));
  }

  /** Dying or raising with no further save. */
  lemma DyingKeepsPromise(units: seq<string>, force: bool, saveEvery: int, o: Inicio, e: Estado)
    requires Saindo(units, force, saveEvery, o, e)
    ensures Cumpre(units, force, saveEvery, o, Acaba(e, Morto))
  {
  }

  /** The save of `finally`, after an exception. */
  lemma LeaveRaising(units: seq<string>, force: bool, saveEvery: int, o: Inicio, e: Estado, final: Gravacao)
    requires Saindo(units, force, saveEvery, o, e)
    ensures Cumpre(units, force, saveEvery, o, Sair(e, Propagado, final))
  {
    SaveOnTheWayOut(units, force, saveEvery, o, e, final);
    var f := Sair(e, Propagado, final);
    assert f.gravacoes[|f.gravacoes| - 1] == final;
  }

  /** The save of `finally`, at the end of the loop or when the disk guard stops it. */
  lemma LeaveRegularly(units: seq<string>, force: bool, saveEvery: int, o: Inicio, e: Estado, fim: Fim, final: Gravacao)
    requires Coerente(units, force, saveEvery, o, e)
    requires fim == Interrompido || (fim == Completo && e.r.visitadas == |units|)
    ensures Cumpre(units, force, saveEvery, o, Sair(e, fim, final))
  {
    CoherentMayLeave(units, force, saveEvery, o, e);
    SaveOnTheWayOut(units, force, saveEvery, o, e, final);
    if final == Inteira {
      PerdidasPor(e.commits - o.commits, e.done, [], 0);
      assert units[..|units|] == units;
    } else {
      LeaveRaising(units, force, saveEvery, o, e, final);
    }
  }

  lemma PendingBound(executadas: seq<string>, saveEvery: int)
    ensures |Pendentes(executadas, saveEvery)| < Max(Abs(saveEvery), 1)
  {
    if saveEvery != 0 { ModuloSuccessor(|executadas|, Abs(saveEvery)); }
  }

  /** `commits` may already hold the unit being visited. */
  lemma CommittedMayLeave(units: seq<string>, force: bool, saveEvery: int, o: Inicio, e: Estado, key: string)
    requires Coerente(units, force, saveEvery, o, e) && key in units
    ensures Saindo(units, force, saveEvery, o, e.(commits := e.commits + {key}))
  {
    var ps := Pendentes(e.executadas, saveEvery);
    PendingBound(e.executadas, saveEvery);
    ChavesAppend(ps, key);
    ChavesAppend([], key);
    assert [] + [key] == [key];
    PerdidasPor(e.commits + {key} - o.commits, e.done, [key], 1);
    PerdidasPor(e.commits + {key} - o.commits, Lidas(e.arquivo), ps + [key], Max(Abs(saveEvery), 1));
  }

  lemma CoherentMayLeave(units: seq<string>, force: bool, saveEvery: int, o: Inicio, e: Estado)
    requires Coerente(units, force, saveEvery, o, e)
    ensures Saindo(units, force, saveEvery, o, e)
  {
    PendingBound(e.executadas, saveEvery);
    PerdidasPor(e.commits - o.commits, e.done, [], 1);
    PerdidasPor(e.commits - o.commits, Lidas(e.arquivo), Pendentes(e.executadas, saveEvery), Max(Abs(saveEvery), 1));
  }

  // ---------------------------------------------------------------- one turn

  lemma SkipKeeps(units: seq<string>, force: bool, saveEvery: int, o: Inicio, e: Estado)
    requires Coerente(units, force, saveEvery, o, e) && e.r.visitadas < |units| && units[e.r.visitadas] in e.done
    ensures Coerente(units, force, saveEvery, o, Pular(e))
  {
    var i := e.r.visitadas;
    assert units[..i + 1] == units[..i] + [units[i]];
    ChavesAppend(units[..i], units[i]);
  }

  lemma RefusalKeeps(units: seq<string>, force: bool, saveEvery: int, o: Inicio, e: Estado)
    requires Coerente(units, force, saveEvery, o, e) && e.r.visitadas < |units|
    ensures var key := units[e.r.visitadas];
      Coerente(units, force, saveEvery, o,
               e.(r := e.r.(visitadas := e.r.visitadas + 1, falhas := e.r.falhas + 1, erros := e.r.erros + [key])))
  {
    var i := e.r.visitadas;
    assert units[..i + 1] == units[..i] + [units[i]];
    ChavesAppend(units[..i], units[i]);
    ChavesAppend(e.r.erros, units[i]);
  }

  /** Once recorded, the unit is counted, in memory, and at most one period is missing from the file. */
  lemma RecordedCounts(units: seq<string>, force: bool, saveEvery: int, o: Inicio, e: Estado, i: nat, s: nat)
    requires Coerente(units, force, saveEvery, o, e) && e.r.visitadas < |units|
    requires force || units[e.r.visitadas] !in e.done
    ensures var m := Registrada(e, units[e.r.visitadas], i, s);
      && Contagem(units, force, o, m) && m.commits - o.commits <= m.done
      && Chaves(units[..m.r.visitadas]) <= m.done + Recusadas(m.r)
  {
    var k := e.r.visitadas;
    var key := units[k];
    assert units[..k + 1] == units[..k] + [key];
    ChavesAppend(units[..k], key);
    ChavesAppend(e.executadas, key);
    NoDupConcat(e.executadas, [key]);
    assert forall x :: x in e.executadas + [key] <==> x in e.executadas || x == key;
  }

  lemma RecordedMayLeave(units: seq<string>, force: bool, saveEvery: int, o: Inicio, e: Estado, i: nat, s: nat)
    requires Coerente(units, force, saveEvery, o, e) && e.r.visitadas < |units|
    requires force || units[e.r.visitadas] !in e.done
    ensures Saindo(units, force, saveEvery, o, Registrada(e, units[e.r.visitadas], i, s))
  {
    var key := units[e.r.visitadas];
    var m := Registrada(e, key, i, s);
    RecordedCounts(units, force, saveEvery, o, e, i, s);
    CommittedMayLeave(units, force, saveEvery, o, e, key);
    PerdidasPor(m.commits - o.commits, m.done, [], 1);
  }

  lemma PendingGrows(executadas: seq<string>, key: string, saveEvery: int)
    requires saveEvery != 0
    ensures Pendentes(executadas + [key], saveEvery)
         == if (|executadas| + 1) % saveEvery == 0 then [] else Pendentes(executadas, saveEvery) + [key]
  {
    var n, m := |executadas|, Abs(saveEvery);
    ModuloSuccessor(n, m);
    SameMultiples(n + 1, saveEvery);
    var todas := executadas + [key];
    if (n + 1) % saveEvery != 0 {
      assert todas[n - n % m..] == executadas[n - n % m..] + [key];
    }
  }

  /** Between saves the key is one more to be written. */
  lemma PendingKeys(executadas: seq<string>, key: string, saveEvery: int)
    requires saveEvery != 0 && (|executadas| + 1) % saveEvery != 0
    ensures Chaves(Pendentes(executadas + [key], saveEvery)) == Chaves(Pendentes(executadas, saveEvery)) + {key}
  {
    PendingGrows(executadas, key, saveEvery);
    ChavesAppend(Pendentes(executadas, saveEvery), key);
  }

  lemma BetweenSaves(units: seq<string>, force: bool, saveEvery: int, o: Inicio, e: Estado, i: nat, s: nat)
    requires Coerente(units, force, saveEvery, o, e) && e.r.visitadas < |units|
    requires force || units[e.r.visitadas] !in e.done
    requires saveEvery != 0 && (e.r.executados + 1) % saveEvery != 0
    ensures Coerente(units, force, saveEvery, o, Registrada(e, units[e.r.visitadas], i, s))
  {
    RecordedCounts(units, force, saveEvery, o, e, i, s);
    PendingKeys(e.executadas, units[e.r.visitadas], saveEvery);
  }

  lemma WholePeriodicSave(units: seq<string>, force: bool, saveEvery: int, o: Inicio, e: Estado, i: nat, s: nat)
    requires Coerente(units, force, saveEvery, o, e) && e.r.visitadas < |units|
    requires force || units[e.r.visitadas] !in e.done
    requires saveEvery != 0 && (e.r.executados + 1) % saveEvery == 0
    ensures Coerente(units, force, saveEvery, o, Gravar(Registrada(e, units[e.r.visitadas], i, s), Inteira))
  {
    RecordedCounts(units, force, saveEvery, o, e, i, s);
    PendingGrows(e.executadas, units[e.r.visitadas], saveEvery);
    SavesAppend(e.gravacoes, Inteira);
  }

  /** The periodic save fails or is killed. */
  lemma FailedPeriodicSave(units: seq<string>, force: bool, saveEvery: int, o: Inicio, m: Estado, g: Gravacao, final: Gravacao)
    requires Saindo(units, force, saveEvery, o, m)
    ensures Matou(g) ==> Cumpre(units, force, saveEvery, o, Acaba(Gravar(m, g), Morto))
    ensures Levantou(g) ==> Cumpre(units, force, saveEvery, o, Sair(Gravar(m, g), Propagado, final))
  {
    SaveOnTheWayOut(units, force, saveEvery, o, m, g);
    DyingKeepsPromise(units, force, saveEvery, o, Gravar(m, g));
    LeaveRaising(units, force, saveEvery, o, Gravar(m, g), final);
  }

  ghost predicate SegueOuCumpre(units: seq<string>, force: bool, saveEvery: int, o: Inicio, f: Estado) {
    if f.r.fim == EmCurso then Coerente(units, force, saveEvery, o, f) else Cumpre(units, force, saveEvery, o, f)
  }

  /** A unit that ran, with its periodic save: the loop goes on coherent, or the run ends as promised. */
  lemma ExecutionKeeps(units: seq<string>, force: bool, saveEvery: int, o: Inicio, e: Estado,
                       i: nat, s: nat, g: Gravacao, final: Gravacao)
    requires Coerente(units, force, saveEvery, o, e) && e.r.visitadas < |units|
    requires force || units[e.r.visitadas] !in e.done
    ensures SegueOuCumpre(units, force, saveEvery, o,
                          SalvaPeriodica(Registrada(e, units[e.r.visitadas], i, s), saveEvery, g, final))
  {
    var m := Registrada(e, units[e.r.visitadas], i, s);
    if saveEvery != 0 && m.r.executados % saveEvery != 0 {
      BetweenSaves(units, force, saveEvery, o, e, i, s);
    } else if saveEvery != 0 && g == Inteira {
      WholePeriodicSave(units, force, saveEvery, o, e, i, s);
    } else {
      RecordedMayLeave(units, force, saveEvery, o, e, i, s);
      LeaveRaising(units, force, saveEvery, o, m, final);
      FailedPeriodicSave(units, force, saveEvery, o, m, g, final);
    }
  }

  /** The visits that end the run. */
  lemma EndingKeeps(units: seq<string>, force: bool, saveEvery: int, o: Inicio, e: Estado, v: Visita, final: Gravacao)
    requires Coerente(units, force, saveEvery, o, e) && e.r.visitadas < |units|
    requires force || units[e.r.visitadas] !in e.done
    requires !v.Executa? && !v.Falha?
    ensures Cumpre(units, force, saveEvery, o, Visitar(e, units[e.r.visitadas], saveEvery, v, final))
  {
    var key := units[e.r.visitadas];
    if v.DiscoCheio? {
      LeaveRegularly(units, force, saveEvery, o, e, Interrompido, final);
    } else {
      var m := if v.InterrompeDepois? || v.MorreDepois? then e.(commits := e.commits + {key})
               else if v.MorreAntesDeSalvar? || v.ProgressoLevanta? then Registrada(e, key, v.ingeridos, v.silverRows)
               else e;
      if v.InterrompeDepois? || v.MorreDepois? {
        CommittedMayLeave(units, force, saveEvery, o, e, key);
      } else if v.MorreAntesDeSalvar? || v.ProgressoLevanta? {
        RecordedMayLeave(units, force, saveEvery, o, e, v.ingeridos, v.silverRows);
      } else {
        CoherentMayLeave(units, force, saveEvery, o, e);
      }
      LeaveRaising(units, force, saveEvery, o, m, final);
      DyingKeepsPromise(units, force, saveEvery, o, m);
    }
  }

  lemma TurnKeeps(units: seq<string>, visitas: seq<Visita>, final: Gravacao, force: bool, saveEvery: int, o: Inicio, e: Estado)
    requires Coerente(units, force, saveEvery, o, e) && e.r.visitadas < |units|
    ensures SegueOuCumpre(units, force, saveEvery, o, Volta(units, visitas, final, force, saveEvery, e))
  {
    var n := e.r.visitadas;
    if !force && units[n] in e.done {
      SkipKeeps(units, force, saveEvery, o, e);
    } else {
      var v := if n < |visitas| then visitas[n] else MorreAntes;
      if v.Executa? {
        ExecutionKeeps(units, force, saveEvery, o, e, v.ingeridos, v.silverRows, v.gravacao, final);
      } else if v.Falha? {
        RefusalKeeps(units, force, saveEvery, o, e);
      } else {
        EndingKeeps(units, force, saveEvery, o, e, v, final);
      }
    }
  }

  lemma {:induction false} LoopKeeps(units: seq<string>, visitas: seq<Visita>, final: Gravacao, force: bool, saveEvery: int,
                                     o: Inicio, e: Estado)
    requires Coerente(units, force, saveEvery, o, e)
    ensures Cumpre(units, force, saveEvery, o, Continua(units, visitas, final, force, saveEvery, e))
    decreases |units| - e.r.visitadas
  {
    if e.r.visitadas == |units| {
      LeaveRegularly(units, force, saveEvery, o, e, Completo, final);
    } else {
      TurnMovesOn(units, visitas, final, force, saveEvery, e);
      TurnKeeps(units, visitas, final, force, saveEvery, o, e);
      var f := Volta(units, visitas, final, force, saveEvery, e);
      if f.r.fim == EmCurso { LoopKeeps(units, visitas, final, force, saveEvery, o, f); }
    }
  }

  lemma ModuloSuccessor(n: nat, m: nat)
    requires m > 0
    ensures (n + 1) % m == (if n % m + 1 == m then 0 else n % m + 1)
    ensures n % m < m
  {
    assert n == n / m * m + n % m;
    if n % m + 1 == m {
      assert n + 1 == (n / m + 1) * m;
      assert (n + 1) % m == 0 by { MultipleModulo(n / m + 1, m); }
    } else {
      assert n + 1 == n / m * m + (n % m + 1);
      RemainderModulo(n / m, m, n % m + 1);
    }
  }

  /** A negative step divides what its opposite divides. */
  lemma SameMultiples(n: nat, s: int)
    requires s != 0
    ensures n % s == 0 <==> n % Abs(s) == 0
  {
    if s < 0 {
      var q := n / s;
      assert n == s * q + n % s;
      assert s * q == (-q) * (-s);
      assert q >= 1 ==> s * q <= s;
      RemainderModulo(-q, -s, n % s);
    }
  }

  lemma MultipleModulo(q: nat, m: nat)
    requires m > 0
    ensures (q * m) % m == 0
  {
    RemainderModulo(q, m, 0);
  }

  lemma RemainderModulo(q: nat, m: nat, k: nat)
    requires k < m
    ensures (q * m + k) % m == k
  {
    var x := q * m + k;
    var d := q - x / m;
    assert x == x / m * m + x % m;
    assert d * m == q * m - x / m * m;
    assert d >= 1 ==> d * m >= m;
    assert d <= -1 ==> d * m + m <= 0;
  }

  // ---------------------------------------------------------------- whole saves

  lemma TurnWithoutCut(units: seq<string>, visitas: seq<Visita>, final: Gravacao, force: bool, saveEvery: int, e: Estado)
    requires e.r.visitadas < |units| && UltimaInteira(e.gravacoes) && !Cortou(final)
    requires forall v :: v in visitas && v.Executa? ==> !Cortou(v.gravacao)
    ensures UltimaInteira(Volta(units, visitas, final, force, saveEvery, e).gravacoes)
  {
    var n := e.r.visitadas;
    var v := if n < |visitas| then visitas[n] else MorreAntes;
    SavesAppend(e.gravacoes, final);
    if v.Executa? {
      assert v in visitas;
      SavesAppend(e.gravacoes, v.gravacao);
      SavesAppend(e.gravacoes + [v.gravacao], final);
    }
  }

  lemma {:induction false} NoCutIsWhole(units: seq<string>, visitas: seq<Visita>, final: Gravacao, force: bool, saveEvery: int, e: Estado)
    requires UltimaInteira(e.gravacoes) && !Cortou(final)
    requires forall v :: v in visitas && v.Executa? ==> !Cortou(v.gravacao)
    ensures UltimaInteira(Continua(units, visitas, final, force, saveEvery, e).gravacoes)
    decreases |units| - e.r.visitadas
  {
    if e.r.fim == EmCurso && e.r.visitadas < |units| {
      TurnMovesOn(units, visitas, final, force, saveEvery, e);
      TurnWithoutCut(units, visitas, final, force, saveEvery, e);
      var f := Volta(units, visitas, final, force, saveEvery, e);
      if f.r.fim == EmCurso { NoCutIsWhole(units, visitas, final, force, saveEvery, f); }
    } else {
      SavesAppend(e.gravacoes, final);
    }
  }

  lemma TurnNeverCompletes(units: seq<string>, visitas: seq<Visita>, final: Gravacao, force: bool, saveEvery: int, e: Estado)
    requires e.r.visitadas < |units| && e.r.fim == EmCurso
    ensures Volta(units, visitas, final, force, saveEvery, e).r.fim != Completo
  {
  }

  lemma {:induction false} CompletedIsWhole(units: seq<string>, visitas: seq<Visita>, final: Gravacao, force: bool, saveEvery: int, e: Estado)
    requires e.r.fim == EmCurso
    ensures var f := Continua(units, visitas, final, force, saveEvery, e); f.r.fim == Completo ==> UltimaInteira(f.gravacoes)
    decreases |units| - e.r.visitadas
  {
    if e.r.visitadas < |units| {
      TurnMovesOn(units, visitas, final, force, saveEvery, e);
      TurnNeverCompletes(units, visitas, final, force, saveEvery, e);
      var f := Volta(units, visitas, final, force, saveEvery, e);
      if f.r.fim == EmCurso { CompletedIsWhole(units, visitas, final, force, saveEvery, f); }
    } else {
      SavesAppend(e.gravacoes, final);
    }
  }
}
