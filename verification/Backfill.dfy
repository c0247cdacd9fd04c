/**
 * The resumable batch loop: a checkpoint file, a commit per unit, a disk guard, and a process
 * that may be killed at any instant, also while it writes the file.
 */
module Backfill {
  import opened Basics
  import opened BackfillRun
  import opened BackfillInvariant
  import opened BackfillDesfechos

  // ---------------------------------------------------------------- results

  /**
   * Over every run from a readable file, whatever fails and whenever the process dies: everything is
   * counted, and the promise of the file holds if and only if the last save that opened it finished.
   */
  lemma PromiseIffLastSaveWhole(units: seq<string>, visitas: seq<Visita>, final: Gravacao, force: bool, saveEvery: int,
                                arquivo: Arquivo, commits: set<string>)
    requires arquivo != Ilegivel && Lidas(arquivo) <= commits
    ensures var e, o := Corrida(units, visitas, final, force, saveEvery, arquivo, commits), Inicio(Lidas(arquivo), commits);
      && Contagem(units, force, o, e)
      && (Promessa(units, saveEvery, o, e) <==> UltimaInteira(e.gravacoes))
      && (e.arquivo == Ilegivel <==> !UltimaInteira(e.gravacoes))
  {
    var o := Inicio(Lidas(arquivo), commits);
    var e := Estado(arquivo, Lidas(arquivo), commits, [], [], ZERADO);
    assert units[..0] == [] && Chaves([]) == {};
    assert Pendentes([], saveEvery) == [];
    LoopKeeps(units, visitas, final, force, saveEvery, o, e);
  }

  /** In particular a run whose saves are never cut short keeps the promise, however it ends. */
  lemma WholeSavesKeepPromise(units: seq<string>, visitas: seq<Visita>, final: Gravacao, force: bool, saveEvery: int,
                              arquivo: Arquivo, commits: set<string>)
    requires arquivo != Ilegivel && Lidas(arquivo) <= commits
    requires !Cortou(final) && forall v :: v in visitas && v.Executa? ==> !Cortou(v.gravacao)
    ensures Promessa(units, saveEvery, Inicio(Lidas(arquivo), commits),
                     Corrida(units, visitas, final, force, saveEvery, arquivo, commits))
  {
    var e := Estado(arquivo, Lidas(arquivo), commits, [], [], ZERADO);
    PromiseIffLastSaveWhole(units, visitas, final, force, saveEvery, arquivo, commits);
    NoCutIsWhole(units, visitas, final, force, saveEvery, e);
  }

  /**
   * Over every run from a readable file, what it did is what its units and their outcomes say: skipped,
   * stored and refused units, the counters and sums, the commits, where it stopped and how, and its saves.
   */
  lemma RunFollowsOutcomes(units: seq<string>, visitas: seq<Visita>, final: Gravacao, force: bool, saveEvery: int,
                           arquivo: Arquivo, commits: set<string>)
    requires arquivo != Ilegivel
    ensures Acabou(Entrada(units, visitas, force, Lidas(arquivo)), saveEvery, final, commits,
                   Corrida(units, visitas, final, force, saveEvery, arquivo, commits))
  {
    LoopFollowsOutcomes(Entrada(units, visitas, force, Lidas(arquivo)), saveEvery, final, commits,
                        Estado(arquivo, Lidas(arquivo), commits, [], [], ZERADO));
  }

  /** A unit that was refused is listed as such, and its key enters neither memory nor database unless another unit brings it. */
  lemma RefusedStaysOut(units: seq<string>, visitas: seq<Visita>, final: Gravacao, force: bool, saveEvery: int,
                        arquivo: Arquivo, commits: set<string>, i: nat)
    requires arquivo != Ilegivel && i < |units| && i < |visitas| && visitas[i] == Falha
    requires force || units[i] !in Lidas(arquivo)
    requires forall j :: 0 <= j < |units| && j != i ==> units[j] != units[i]
    ensures var e := Corrida(units, visitas, final, force, saveEvery, arquivo, commits);
      && units[i] !in e.executadas
      && (units[i] in e.done <==> units[i] in Lidas(arquivo))
      && (units[i] in e.commits <==> units[i] in commits)
      && (i < e.r.visitadas ==> units[i] in e.r.erros)
  {
    var en := Entrada(units, visitas, force, Lidas(arquivo));
    var e := Corrida(units, visitas, final, force, saveEvery, arquivo, commits);
    RunFollowsOutcomes(units, visitas, final, force, saveEvery, arquivo, commits);
    StoredKeys(en, e.r.visitadas, units[i]);
    assert en.Recusada(i);
    if i < e.r.visitadas { RefusedKeys(en, e.r.visitadas, i); }
  }

  /** A refused unit is tried again, whatever the first run wrote. */
  lemma RefusedExample()
    ensures var e := Corrida(["a"], [Falha], Inteira, false, 5, SemArquivo, {});
      && e.arquivo == Legivel({}) && e.executadas == [] && e.commits == {}
      && e.r == Resultado(Completo, 1, 0, 0, 1, 0, 0, ["a"])
  {
    var e0 := Estado(SemArquivo, {}, {}, [], [], ZERADO);
    var e1 := e0.(r := Resultado(EmCurso, 1, 0, 0, 1, 0, 0, ["a"]));
    assert Volta(["a"], [Falha], Inteira, false, 5, e0) == e1;
    assert Continua(["a"], [Falha], Inteira, false, 5, e1) == Sair(e1, Completo, Inteira);
    assert Continua(["a"], [Falha], Inteira, false, 5, e0) == Sair(e1, Completo, Inteira);
  }

  /**
   * The promise fails: with a save after every unit, a kill inside the second one leaves a file that
   * cannot be read. Both keys are committed, the first was safely in the file, and no later run starts.
   */
  lemma CutSaveLosesFile(visitas: seq<Visita>, final: Gravacao)
    ensures var e := Corrida(["a", "b"], [Executa(1, 1, Inteira), Executa(1, 1, MorreNoMeio)], Inteira, false, 1, SemArquivo, {});
      && e.arquivo == Ilegivel && e.commits == {"a", "b"} && e.gravacoes == [Inteira, MorreNoMeio] && e.r.fim == Morto
      && !Promessa(["a", "b"], 1, Inicio({}, {}), e)
      && Corrida(["a", "b"], visitas, final, false, 1, e.arquivo, e.commits).executadas == []
  {
    var units, vs := ["a", "b"], [Executa(1, 1, Inteira), Executa(1, 1, MorreNoMeio)];
    var um: int := 1;
    var e1 := DepoisDaPrimeira();
    var e2 := Acaba(Gravar(Registrada(e1, "b", 1, 1), MorreNoMeio), Morto);
    CutTurns(units, vs);
    assert Continua(units, vs, Inteira, false, um, e1) == e2;
    assert Continua(units, vs, Inteira, false, um, Estado(SemArquivo, {}, {}, [], [], ZERADO)) == e2;
  }

  function DepoisDaPrimeira(): Estado {
    Gravar(Registrada(Estado(SemArquivo, {}, {}, [], [], ZERADO), "a", 1, 1), Inteira)
  }

  lemma CutTurns(units: seq<string>, vs: seq<Visita>)
    requires units == ["a", "b"] && vs == [Executa(1, 1, Inteira), Executa(1, 1, MorreNoMeio)]
    ensures Volta(units, vs, Inteira, false, 1, Estado(SemArquivo, {}, {}, [], [], ZERADO)) == DepoisDaPrimeira()
    ensures Volta(units, vs, Inteira, false, 1, DepoisDaPrimeira())
      == Acaba(Gravar(Registrada(DepoisDaPrimeira(), "b", 1, 1), MorreNoMeio), Morto)
  {
    assert DepoisDaPrimeira().done == {"a"};
  }

  /** After a cut no run does anything, whatever the environment. */
  lemma CutFileStopsEveryRun(units: seq<string>, visitas: seq<Visita>, final: Gravacao, force: bool, saveEvery: int, commits: set<string>)
    ensures var e := Corrida(units, visitas, final, force, saveEvery, Ilegivel, commits);
      e.r.fim == NaoLeu && e.executadas == [] && e.commits == commits && e.arquivo == Ilegivel
  {
  }

  /** After a run that reached the end, the next one executes only what that run refused. */
  lemma RerunRunsOnlyRefusals(units: seq<string>, saveEvery: int, arquivo: Arquivo, commits: set<string>,
                              visitas1: seq<Visita>, final1: Gravacao, visitas2: seq<Visita>, final2: Gravacao)
    requires arquivo != Ilegivel && Lidas(arquivo) <= commits
    ensures var e1 := Corrida(units, visitas1, final1, false, saveEvery, arquivo, commits);
      e1.r.fim == Completo ==>
        Chaves(Corrida(units, visitas2, final2, false, saveEvery, e1.arquivo, e1.commits).executadas) <= Recusadas(e1.r)
  {
    var e1 := Corrida(units, visitas1, final1, false, saveEvery, arquivo, commits);
    PromiseIffLastSaveWhole(units, visitas1, final1, false, saveEvery, arquivo, commits);
    if e1.r.fim == Completo {
      CompletedIsWhole(units, visitas1, final1, false, saveEvery, Estado(arquivo, Lidas(arquivo), commits, [], [], ZERADO));
      PromiseIffLastSaveWhole(units, visitas2, final2, false, saveEvery, e1.arquivo, e1.commits);
    }
  }

  // ---------------------------------------------------------------- the code

  class Checkpoint {
    var arquivo: Arquivo
    var done: set<string>
    /** What the database has committed, what this run executed, and how its saves ended. */
    ghost var commits: set<string>
    ghost var executadas: seq<string>
    ghost var gravacoes: seq<Gravacao>

    ghost function Agora(r: Resultado): Estado
      reads this
    {
      Estado(arquivo, done, commits, executadas, gravacoes, r)
    }

    constructor (arquivo: Arquivo, ghost commits: set<string>)
      ensures this.arquivo == arquivo && this.commits == commits
    {
      this.arquivo, this.done := arquivo, {};
      this.commits, executadas, gravacoes := commits, [], [];
    }

    /** `load`: false is the exception on text that is not JSON. */
    method Load() returns (ok: bool)
      modifies this`done
      ensures ok <==> arquivo != Ilegivel
      ensures done == if ok then Lidas(arquivo) else {}
    {
      ok := arquivo != Ilegivel;
      done := if ok then Lidas(arquivo) else {};
    }

    /** `save`, ending as `g` says. */
    method Save(g: Gravacao)
      modifies this`arquivo, this`gravacoes
      ensures forall r :: Agora(r) == Gravar(old(Agora(r)), g)
    {
      if Completou(g) {
        arquivo := Legivel(done);
      } else if Cortou(g) {
        arquivo := Ilegivel;
      }
      gravacoes := gravacoes + [g];
    }

    /** The session of one unit commits. */
    ghost method Commit(key: string)
      modifies this`commits
      ensures commits == old(commits) + {key}
    {
      commits := commits + {key};
    }

    /** `add`, once the unit is committed. */
    method Registra(key: string, ingeridos: nat, silverRows: nat, r: Resultado) returns (r': Resultado)
      modifies this`done, this`commits, this`executadas
      ensures Agora(r') == Registrada(old(Agora(r)), key, ingeridos, silverRows)
    {
      Commit(key);
      done := done + {key};
      executadas := executadas + [key];
      r' := r.(visitadas := r.visitadas + 1, executados := r.executados + 1,
               ingeridos := r.ingeridos + ingeridos, silverRows := r.silverRows + silverRows);
    }

    /** The `finally` block. */
    method Finaliza(fim: Fim, final: Gravacao, r: Resultado) returns (r': Resultado)
      modifies this`arquivo, this`gravacoes
      ensures Agora(r') == Sair(old(Agora(r)), fim, final)
    {
      Save(final);
      r' := r.(fim := if Matou(final) then Morto else if Levantou(final) then Propagado else fim);
    }

    /** One unit that is not skipped. */
    method VisitaUnidade(key: string, v: Visita, saveEvery: int, final: Gravacao, r: Resultado) returns (r': Resultado)
      modifies this
      ensures Agora(r') == Visitar(old(Agora(r)), key, saveEvery, v, final)
      ensures done == old(done) + if Guardou(v) then {key} else {}
      ensures executadas == old(executadas) + if Guardou(v) then [key] else []
      ensures commits == old(commits) + if Guardou(v) || v == InterrompeDepois || v == MorreDepois then {key} else {}
      ensures r'.erros == r.erros + if v == Falha then [key] else []
    {
      r' := r;
      match v {
        case DiscoCheio => r' := Finaliza(Interrompido, final, r);
        case InterrompeAntes => r' := Finaliza(Propagado, final, r);
        case InterrompeDepois =>
          Commit(key);
          r' := Finaliza(Propagado, final, r);
        case MorreAntes => r' := r.(fim := Morto);
        case MorreDepois =>
          Commit(key);
          r' := r.(fim := Morto);
        case Falha =>
          r' := r.(visitadas := r.visitadas + 1, falhas := r.falhas + 1, erros := r.erros + [key]);
        case MorreAntesDeSalvar(i, s) =>
          r' := Registra(key, i, s, r);
          r' := r'.(fim := Morto);
        case ProgressoLevanta(i, s) =>
          r' := Registra(key, i, s, r);
          r' := Finaliza(Propagado, final, r');
        case Executa(i, s, g) =>
          r' := Registra(key, i, s, r);
          if saveEvery == 0 {
            r' := Finaliza(Propagado, final, r');
          } else if r'.executados % saveEvery == 0 {
            Save(g);
            if Matou(g) {
              r' := r'.(fim := Morto);
            } else if Levantou(g) {
              r' := Finaliza(Propagado, final, r');
            }
          }
      }
    }

    /**
     * `run_backfill`. `visitas[i]` says what happens if unit i is visited and `final` how the last
     * save ends.
     */
    method RunBackfill(units: seq<string>, visitas: seq<Visita>, final: Gravacao, force: bool, saveEvery: int) returns (r: Resultado)
      modifies this
      ensures Agora(r) == Corrida(units, visitas, final, force, saveEvery, old(arquivo), old(commits))
      ensures old(arquivo) != Ilegivel ==>
        Acabou(Entrada(units, visitas, force, Lidas(old(arquivo))), saveEvery, final, old(commits), Agora(r))
    {
      if arquivo != Ilegivel { RunFollowsOutcomes(units, visitas, final, force, saveEvery, arquivo, commits); }
      ghost var a0, c0 := arquivo, commits;
      r := ZERADO;
      executadas, gravacoes := [], [];
      var ok := Load();
      if !ok { return r.(fim := NaoLeu); }
      while r.visitadas < |units|
        invariant r.fim == EmCurso && r.visitadas <= |units|
        invariant Continua(units, visitas, final, force, saveEvery, Agora(r)) == Corrida(units, visitas, final, force, saveEvery, a0, c0)
        decreases |units| - r.visitadas
      {
        ghost var e := Agora(r);
        TurnMovesOn(units, visitas, final, force, saveEvery, e);
        if !force && units[r.visitadas] in done {
          r := r.(visitadas := r.visitadas + 1, pulados := r.pulados + 1);
        } else {
          var v := if r.visitadas < |visitas| then visitas[r.visitadas] else MorreAntes;
          r := VisitaUnidade(units[r.visitadas], v, saveEvery, final, r);
        }
        assert Agora(r) == Volta(units, visitas, final, force, saveEvery, e);
        if r.fim != EmCurso { return; }
      }
      r := Finaliza(Completo, final, r);
    }
  }
}
