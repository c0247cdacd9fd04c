/**
 * One run of the resumable batch loop as a function: the checkpoint file, a commit per unit, the
 * ways a save can end, a disk guard, and what the file promises after it.
 */
module BackfillRun {
  import opened Basics

  // ---------------------------------------------------------------- the checkpoint file

  /** What the next `load` finds. A file cut short is not JSON: it ends before its closing brace. */
  datatype Arquivo = SemArquivo | Legivel(chaves: set<string>) | Ilegivel

  /**
   * How one `save` ends. `write_text` truncates the file and then writes it, so between the two
   * an error or a kill leaves it cut short.
   */
  datatype Gravacao =
    | Inteira             // written and closed
    | LevantaAntes        // error before the file is opened
    | LevantaNoMeio       // error after the truncation: no space, for one
    | MorreAntesDeAbrir   // killed before the file is opened
    | MorreNoMeio         // killed after the truncation, before the last byte
    | MorreLogoDepois     // killed once everything is written

  predicate Cortou(g: Gravacao) {
    g == LevantaNoMeio || g == MorreNoMeio
  }

  predicate Completou(g: Gravacao) {
    g == Inteira || g == MorreLogoDepois
  }

  predicate Levantou(g: Gravacao) {
    g == LevantaAntes || g == LevantaNoMeio
  }

  predicate Matou(g: Gravacao) {
    g == MorreAntesDeAbrir || g == MorreNoMeio || g == MorreLogoDepois
  }

  function AposGravar(a: Arquivo, done: set<string>, g: Gravacao): Arquivo {
    if Completou(g) then Legivel(done) else if Cortou(g) then Ilegivel else a
  }

  /** The last save that opened the file also finished it. */
  predicate UltimaInteira(gs: seq<Gravacao>) {
    if gs == [] then true
    else if Cortou(gs[|gs| - 1]) then false
    else Completou(gs[|gs| - 1]) || UltimaInteira(gs[..|gs| - 1])
  }

  function Lidas(a: Arquivo): set<string> {
    if a.Legivel? then a.chaves else {}
  }

  // ---------------------------------------------------------------- one run

  /** What happens while one unit is visited; `gravacao` is how its periodic save ends, if it has one. */
  datatype Visita =
    | Executa(ingeridos: nat, silverRows: nat, gravacao: Gravacao)  // session committed, callback returned
    | Falha                                      // exception inside the session: rolled back
    | DiscoCheio                                 // the guard stops the loop
    | InterrompeAntes                            // BaseException before the commit
    | InterrompeDepois                           // BaseException right after the commit
    | ProgressoLevanta(ingeridos: nat, silverRows: nat)  // on_progress raises after the checkpoint add
    | MorreAntes                                 // killed before the commit
    | MorreDepois                                // killed right after the commit
    | MorreAntesDeSalvar(ingeridos: nat, silverRows: nat) // killed after the add, before any save

  datatype Fim = EmCurso | Completo | Interrompido | Propagado | Morto | NaoLeu

  datatype Resultado = Resultado(
    fim: Fim, visitadas: nat, executados: nat, pulados: nat, falhas: nat,
    ingeridos: nat, silverRows: nat, erros: seq<string>)

  /** The file, the keys in memory, what the database has committed, and what this run did. */
  datatype Estado = Estado(
    arquivo: Arquivo, done: set<string>, commits: set<string>, executadas: seq<string>, gravacoes: seq<Gravacao>, r: Resultado)

  const ZERADO := Resultado(EmCurso, 0, 0, 0, 0, 0, 0, [])

  function Gravar(e: Estado, g: Gravacao): Estado {
    e.(arquivo := AposGravar(e.arquivo, e.done, g), gravacoes := e.gravacoes + [g])
  }

  function Acaba(e: Estado, fim: Fim): Estado {
    e.(r := e.r.(fim := fim))
  }

  /** Leaving through `finally`, whose save may itself fail or be killed. */
  function Sair(e: Estado, fim: Fim, final: Gravacao): Estado {
    Acaba(Gravar(e, final), if Matou(final) then Morto else if Levantou(final) then Propagado else fim)
  }

  /** The unit is committed and recorded in memory. */
  function Registrada(e: Estado, key: string, ingeridos: nat, silverRows: nat): Estado {
    e.(done := e.done + {key}, commits := e.commits + {key}, executadas := e.executadas + [key],
       r := e.r.(visitadas := e.r.visitadas + 1, executados := e.r.executados + 1,
                 ingeridos := e.r.ingeridos + ingeridos, silverRows := e.r.silverRows + silverRows))
  }

  /** The periodic save; a `saveEvery` of zero raises there. */
  function SalvaPeriodica(e: Estado, saveEvery: int, g: Gravacao, final: Gravacao): Estado {
    if saveEvery == 0 then Sair(e, Propagado, final)
    else if e.r.executados % saveEvery != 0 then e
    else if Matou(g) then Acaba(Gravar(e, g), Morto)
    else if Levantou(g) then Sair(Gravar(e, g), Propagado, final)
    else Gravar(e, g)
  }

  /** One unit that is not skipped. */
  function Visitar(e: Estado, key: string, saveEvery: int, v: Visita, final: Gravacao): Estado {
    match v
    case DiscoCheio => Sair(e, Interrompido, final)
    case InterrompeAntes => Sair(e, Propagado, final)
    case InterrompeDepois => Sair(e.(commits := e.commits + {key}), Propagado, final)
    case MorreAntes => Acaba(e, Morto)
    case MorreDepois => Acaba(e.(commits := e.commits + {key}), Morto)
    case Falha => e.(r := e.r.(visitadas := e.r.visitadas + 1, falhas := e.r.falhas + 1, erros := e.r.erros + [key]))
    case MorreAntesDeSalvar(i, s) => Acaba(Registrada(e, key, i, s), Morto)
    case ProgressoLevanta(i, s) => Sair(Registrada(e, key, i, s), Propagado, final)
    case Executa(i, s, g) => SalvaPeriodica(Registrada(e, key, i, s), saveEvery, g, final)
  }

  function Pular(e: Estado): Estado {
    e.(r := e.r.(visitadas := e.r.visitadas + 1, pulados := e.r.pulados + 1))
  }

  /** One turn of the loop; a missing outcome means that the process was killed there. */
  function Volta(units: seq<string>, visitas: seq<Visita>, final: Gravacao, force: bool, saveEvery: int, e: Estado): Estado
    requires e.r.visitadas < |units|
  {
    var i := e.r.visitadas;
    if !force && units[i] in e.done then Pular(e)
    else Visitar(e, units[i], saveEvery, if i < |visitas| then visitas[i] else MorreAntes, final)
  }

  lemma TurnMovesOn(units: seq<string>, visitas: seq<Visita>, final: Gravacao, force: bool, saveEvery: int, e: Estado)
    requires e.r.visitadas < |units| && e.r.fim == EmCurso
    ensures var f := Volta(units, visitas, final, force, saveEvery, e);
      f.r.fim == EmCurso ==> f.r.visitadas == e.r.visitadas + 1
  {
  }

  /** The loop from here on, and the save that ends it. */
  function Continua(units: seq<string>, visitas: seq<Visita>, final: Gravacao, force: bool, saveEvery: int, e: Estado): Estado
    decreases |units| - e.r.visitadas
  {
    if e.r.fim != EmCurso then e
    else if e.r.visitadas >= |units| then Sair(e, Completo, final)
    else
      TurnMovesOn(units, visitas, final, force, saveEvery, e);
      var f := Volta(units, visitas, final, force, saveEvery, e);
      if f.r.fim != EmCurso then f else Continua(units, visitas, final, force, saveEvery, f)
  }

  /** `run_backfill`: a file that cannot be read stops it before anything happens. */
  function Corrida(units: seq<string>, visitas: seq<Visita>, final: Gravacao, force: bool, saveEvery: int,
                   arquivo: Arquivo, commits: set<string>): Estado {
    if arquivo == Ilegivel then Estado(arquivo, {}, commits, [], [], ZERADO.(fim := NaoLeu))
    else Continua(units, visitas, final, force, saveEvery, Estado(arquivo, Lidas(arquivo), commits, [], [], ZERADO))
  }

  // ---------------------------------------------------------------- what a run promises

  ghost function Chaves(units: seq<string>): set<string> {
    set k | k in units
  }

  lemma ChavesAppend(s: seq<string>, k: string)
    ensures Chaves(s + [k]) == Chaves(s) + {k}
  {
    assert forall x :: x in s + [k] <==> x in s || x == k;
  }

  /** The keys of `erros`, as a set. */
  ghost function Recusadas(r: Resultado): set<string> {
    set k | k in r.erros
  }

  /** Where a run starts from: keys read and commits made before it. */
  datatype Inicio = Inicio(salvo: set<string>, commits: set<string>)

  /** What was done is accounted for, one by one, whatever happens to the file. */
  ghost predicate Contagem(units: seq<string>, force: bool, o: Inicio, e: Estado) {
    && e.r.visitadas == e.r.executados + e.r.pulados + e.r.falhas <= |units|
    && |e.executadas| == e.r.executados && |e.r.erros| == e.r.falhas
    && o.commits <= e.commits <= o.commits + Chaves(units)
    && e.done == o.salvo + Chaves(e.executadas) && e.done <= e.commits && Chaves(e.executadas) <= Chaves(units)
    // without force nothing already recorded is executed, and nothing is executed twice
    && (!force ==> (forall k :: k in e.executadas ==> k !in o.salvo) && NoDup(e.executadas))
  }

  /** At most `n` of the committed keys are missing from the file. */
  ghost predicate Perdidas(novas: set<string>, salvo: set<string>, n: nat) {
    exists ks: seq<string> :: |ks| <= n && novas <= salvo + Chaves(ks)
  }

  lemma PerdidasPor(novas: set<string>, salvo: set<string>, ks: seq<string>, n: nat)
    requires |ks| <= n && novas <= salvo + Chaves(ks)
    ensures Perdidas(novas, salvo, n)
  {
  }

  /** The most that may be missing: what one period holds, or only the unit an interruption fell on. */
  function Tolerancia(saveEvery: int, e: Estado): nat {
    if e.r.fim == Completo || e.r.fim == Interrompido then 0
    else if e.r.fim == Propagado && e.gravacoes != [] && e.gravacoes[|e.gravacoes| - 1] == Inteira then 1
    else Max(Abs(saveEvery), 1)
  }

  /** The promise of the checkpoint at the end of a run. */
  ghost predicate Promessa(units: seq<string>, saveEvery: int, o: Inicio, e: Estado) {
    // the file can be read, only grew, and holds only keys whose session committed
    && e.arquivo != Ilegivel && o.salvo <= Lidas(e.arquivo) <= e.commits
    && Perdidas(e.commits - o.commits, Lidas(e.arquivo), Tolerancia(saveEvery, e))
    // a run that is not cut short leaves every key in the file or among the refusals
    && (e.r.fim == Completo ==> e.r.visitadas == |units| && Chaves(units) <= Lidas(e.arquivo) + Recusadas(e.r))
    && (e.r.fim == Completo || e.r.fim == Interrompido ==> Lidas(e.arquivo) == o.salvo + Chaves(e.executadas))
  }
}
