/**
 * Runs of one attempt and what each event does to the counters: an executor that outlives its
 * lease, a retry with its claim, the reports on all units and the last commit, from a new row or
 * from one that was tried before.
 */
module JobTentativas {
  import opened Basics
  import opened IngestJob
  import opened JobProtocol
  import opened JobInvariant

  // ---------------------------------------------------------------- leases and retries

  /** With a lease shorter than the timeout, a live executor's row counts as abandoned. */
  lemma OutlivesLease(p: Protocolo) returns (s: Sistema)
    requires p.lease < p.timeout
    ensures Alcancavel(p, s) && s.vivos.Keys == {0} && s.agora == p.lease + 1
    ensures s.job.status == Executando && s.job.iniciadoEm == Some(0)
  {
    var s0 := Inicial(p, 0, 1);
    var s1 := Passo(p, s0, Claim(0, 0)).value;
    s := Passo(p, s1, Avanca(p.lease + 1)).value;
    assert Chega(p, s0, [], s0);
    assert Alcancavel(p, s0);
    ChegaUm(p, s0, Claim(0, 0));
    AlcancavelMais(p, s0, [Claim(0, 0)], s1);
    ChegaUm(p, s1, Avanca(p.lease + 1));
    AlcancavelMais(p, s1, [Avanca(p.lease + 1)], s);
  }

  /** A retry followed by a claim, wherever a job has failed with a system error. */
  lemma RetryThenClaim(p: Protocolo, t: Sistema, id: nat) returns (r: Sistema)
    requires t.job.status == Falhou && t.job.erroSistema.Some? && id !in t.vivos
    ensures Chega(p, t, [Retry, Claim(id, t.agora)], r)
    ensures id in r.vivos && forall k :: k in t.vivos ==> k in r.vivos
  {
    var m := Passo(p, t, Retry).value;
    r := Passo(p, m, Claim(id, t.agora)).value;
    ChegaUm(p, t, Retry);
    ChegaUm(p, m, Claim(id, t.agora));
    ChegaConcat(p, t, [Retry], m, [Claim(id, t.agora)], r);
    assert [Retry] + [Claim(id, t.agora)] == [Retry, Claim(id, t.agora)];
  }

  // ---------------------------------------------------------------- attempts

  function EventosDeUnidade(id: nat, oks: seq<bool>): seq<Evento> {
    seq(|oks|, i requires 0 <= i < |oks| => CommitUnidade(id, oks[i]))
  }

  function Relatorio(us: seq<Unidade>, oks: seq<bool>): (r: seq<Item>)
    requires |oks| <= |us|
    ensures Reports(r, us) && |r| == |oks|
  {
    seq(|oks|, i requires 0 <= i < |oks| => Item(us[i], oks[i]))
  }

  lemma RelatorioCons(us: seq<Unidade>, oks: seq<bool>)
    requires 0 < |oks| <= |us|
    ensures Relatorio(us, oks) == [Item(us[0], oks[0])] + Relatorio(us[1..], oks[1..])
  {
  }

  lemma RunOneUnit(p: Protocolo, s: Sistema, id: nat, ok: bool) returns (m: Sistema)
    requires id in s.vivos && |s.vivos[id].novos| < |s.vivos[id].plano.unidades|
    ensures Passo(p, s, CommitUnidade(id, ok)) == Some(m)
    ensures m.agora == s.agora && m.job.status == s.job.status
    ensures var ex := s.vivos[id];
      var novos := ex.novos + [Item(ex.plano.unidades[|ex.novos|], ok)];
      m.vivos == s.vivos[id := ex.(novos := novos)] && m.job.itens == ex.plano.base + novos
  {
    m := Passo(p, s, CommitUnidade(id, ok)).value;
  }

  /** The state after executor `id` reported its next units with these outcomes and nothing else happened. */
  ghost predicate Relatou(s: Sistema, t: Sistema, id: nat, oks: seq<bool>) {
    && t.agora == s.agora && t.job.status == s.job.status
    && id in s.vivos && |s.vivos[id].novos| + |oks| <= |s.vivos[id].plano.unidades|
    && var ex := s.vivos[id];
       var novos := ex.novos + Relatorio(ex.plano.unidades[|ex.novos|..], oks);
       t.vivos == s.vivos[id := ex.(novos := novos)] && t.job.itens == ex.plano.base + novos
  }

  lemma NothingReported(s: Sistema, id: nat)
    requires id in s.vivos && |s.vivos[id].novos| <= |s.vivos[id].plano.unidades|
    requires s.job.itens == s.vivos[id].plano.base + s.vivos[id].novos
    ensures Relatou(s, s, id, [])
  {
    var ex := s.vivos[id];
    assert ex.novos + Relatorio(ex.plano.unidades[|ex.novos|..], []) == ex.novos;
  }

  lemma ReportsAppend(novos: seq<Item>, us: seq<Unidade>, oks: seq<bool>)
    requires 0 < |oks| && |novos| + |oks| <= |us|
    ensures (novos + [Item(us[|novos|], oks[0])]) + Relatorio(us[|novos| + 1..], oks[1..]) == novos + Relatorio(us[|novos|..], oks)
  {
    RelatorioCons(us[|novos|..], oks);
    assert us[|novos|..][1..] == us[|novos| + 1..];
  }

  lemma ReportedMore(s: Sistema, m: Sistema, t: Sistema, id: nat, oks: seq<bool>)
    requires 0 < |oks| && id in s.vivos && |s.vivos[id].novos| + |oks| <= |s.vivos[id].plano.unidades|
    requires m.agora == s.agora && m.job.status == s.job.status
    requires m.vivos == s.vivos[id := s.vivos[id].(novos := s.vivos[id].novos + [Item(s.vivos[id].plano.unidades[|s.vivos[id].novos|], oks[0])])]
    requires Relatou(m, t, id, oks[1..])
    ensures Relatou(s, t, id, oks)
  {
    var ex := s.vivos[id];
    ReportsAppend(ex.novos, ex.plano.unidades, oks);
    assert m.vivos[id := t.vivos[id]] == s.vivos[id := t.vivos[id]];
  }

  lemma EventsCons(id: nat, oks: seq<bool>)
    requires oks != []
    ensures EventosDeUnidade(id, oks) == [CommitUnidade(id, oks[0])] + EventosDeUnidade(id, oks[1..])
  {
  }

  /** An executor left alone runs its next units with any given outcomes. */
  lemma {:induction false} RunUnits(p: Protocolo, s: Sistema, id: nat, oks: seq<bool>) returns (t: Sistema)
    requires id in s.vivos
    requires |s.vivos[id].novos| + |oks| <= |s.vivos[id].plano.unidades|
    requires s.job.itens == s.vivos[id].plano.base + s.vivos[id].novos
    ensures Chega(p, s, EventosDeUnidade(id, oks), t)
    ensures Relatou(s, t, id, oks)
    decreases |oks|
  {
    if oks == [] {
      t := s;
      NothingReported(s, id);
    } else {
      var m := RunOneUnit(p, s, id, oks[0]);
      t := RunUnits(p, m, id, oks[1..]);
      EventsCons(id, oks);
      ChegaCons(p, s, CommitUnidade(id, oks[0]), m, EventosDeUnidade(id, oks[1..]), t);
      ReportedMore(s, m, t, id, oks);
    }
  }

  /** One whole attempt on a waiting job, with any outcome for each planned unit. */
  function Tentativa(id: nat, agora: int, oks: seq<bool>): seq<Evento> {
    [Claim(id, agora)] + EventosDeUnidade(id, oks) + [CommitFinal(id, false)]
  }

  lemma RunAttempt(p: Protocolo, s: Sistema, id: nat, oks: seq<bool>) returns (t: Sistema)
    requires s.job.status == NaFila && id !in s.vivos
    requires |oks| == |RetryPlan(p.todas, s.job).unidades|
    ensures Chega(p, s, Tentativa(id, s.agora, oks), t)
    ensures var plano := RetryPlan(p.todas, s.job);
      t.job.itens == plano.base + Relatorio(plano.unidades, oks)
    ensures t.job.status == (if Falhos(t.job.itens) == [] then Concluido else Falhou)
    ensures t.job.erroSistema == None && t.vivos == s.vivos
  {
    var plano := RetryPlan(p.todas, s.job);
    var c := Passo(p, s, Claim(id, s.agora)).value;
    ChegaUm(p, s, Claim(id, s.agora));
    assert plano.base + [] == plano.base;
    var m := RunUnits(p, c, id, oks);
    assert plano.unidades[0..] == plano.unidades;
    assert m.vivos[id].novos == Relatorio(plano.unidades, oks);
    t := Passo(p, m, CommitFinal(id, false)).value;
    ChegaUm(p, m, CommitFinal(id, false));
    ChegaConcat(p, s, [Claim(id, s.agora)], c, EventosDeUnidade(id, oks), m);
    ChegaConcat(p, s, [Claim(id, s.agora)] + EventosDeUnidade(id, oks), m, [CommitFinal(id, false)], t);
    assert t.vivos == s.vivos;
  }

  lemma FreshStart(p: Protocolo, agora: int, total: nat)
    ensures Alcancavel(p, Inicial(p, agora, total))
    ensures RetryPlan(p.todas, Inicial(p, agora, total).job) == Plano([], p.todas)
  {
    assert Chega(p, Inicial(p, agora, total), [], Inicial(p, agora, total));
  }

  /** A unit reported once with success and once without is planned again. */
  lemma MixedReport(us: seq<Unidade>, oks: seq<bool>, i: nat, j: nat)
    requires i < |us| == |oks| && j < |us| && us[i] == us[j] && oks[i] && !oks[j]
    ensures us[j] in Falhos(Relatorio(us, oks)) && us[j] in SucessoKeys(Relatorio(us, oks))
  {
    var itens := Relatorio(us, oks);
    FalhosMembers(itens);
    assert itens[i] == Item(us[i], true) && itens[j] == Item(us[j], false);
  }

  /** The first attempt of a new job, with any outcomes. */
  lemma FirstAttempt(p: Protocolo, oks: seq<bool>) returns (t: Sistema)
    requires |oks| == |p.todas|
    ensures Alcancavel(p, t) && t.job.itens == Relatorio(p.todas, oks) && t.job.erroSistema == None
    ensures t.job.status == (if Falhos(t.job.itens) == [] then Concluido else Falhou)
  {
    FreshStart(p, 0, 1);
    t := RunAttempt(p, Inicial(p, 0, 1), 0, oks);
    AlcancavelMais(p, Inicial(p, 0, 1), Tentativa(0, 0, oks), t);
    assert t.job.itens == [] + Relatorio(p.todas, oks);
  }

  // ---------------------------------------------------------------- counters

  ghost predicate ContaItens(job: Job) {
    job.itensOk == |Sucessos(job.itens)| && job.itensErro == |Falhos(job.itens)|
  }

  /** The counters of the row: the CHECK constraints of the table, and what they count. */
  ghost predicate Contabil(s: Sistema) {
    && s.job.itensOk + s.job.itensErro <= s.job.itensTotal
    && s.job.progresso <= 100
    && (s.job.status == Executando ==> ContaItens(s.job) && s.job.progresso <= 90)
    && (s.job.status != Executando ==>
          ContaItens(s.job) || (s.job.itensOk == 0 && s.job.itensErro == 0 && s.job.progresso == 0))
    && (forall id :: id in s.vivos ==>
          var ex := s.vivos[id];
          s.job.itensTotal == TotalDoPlano(ex.plano)
          && s.job.progresso == Progresso(|ex.plano.base| + |ex.novos|, TotalDoPlano(ex.plano)))
  }

  lemma ProgressoBounds(a: nat, b: nat, total: nat)
    requires a <= b <= total && total > 0
    ensures a * 90 / total <= b * 90 / total <= 90
  {
    assert b * 90 <= total * 90;
    assert (total * 90) / total == 90;
    DivMonotone(a * 90, b * 90, total);
    DivMonotone(b * 90, total * 90, total);
  }

  lemma DivMonotone(x: nat, y: nat, d: nat)
    requires x <= y && d > 0
    ensures x / d <= y / d
  {
    var q, r := x / d, y / d;
    assert x == q * d + x % d && y == r * d + y % d;
    assert (q - r) * d == q * d - r * d;
    assert (q - r) * d < d;
    assert q - r >= 1 ==> (q - r) * d >= d;
  }

  lemma ClaimCounters(p: Protocolo, s: Sistema, id: nat, iniciadoEm: int)
    requires Inv(p, s) && Contabil(s) && Passo(p, s, Claim(id, iniciadoEm)).Some?
    ensures Contabil(Passo(p, s, Claim(id, iniciadoEm)).value)
  {
    var t := Passo(p, s, Claim(id, iniciadoEm)).value;
    var plano := RetryPlan(p.todas, s.job);
    PlanCovers(p.todas, s.job);
    AllOkKeepsAll(plano.base);
    ProgressoBounds(|plano.base|, |plano.base|, TotalDoPlano(plano));
    assert s.vivos == map[];
    assert t.vivos.Keys == {id};
  }

  lemma UnitRowCounts(job: Job, plano: Plano, novos: seq<Item>)
    requires forall it :: it in plano.base ==> it.ok
    requires 0 < |novos| <= |plano.unidades| && job.itensTotal == TotalDoPlano(plano)
    ensures var d := AposUnidade(job, plano, novos); ContaItens(d) && d.itensOk + d.itensErro <= d.itensTotal
  {
    AllOkKeepsAll(plano.base);
    FalhosConcat(plano.base, novos);
    SucessosMembers(novos);
  }

  lemma UnitRow(job: Job, plano: Plano, novos: seq<Item>)
    requires forall it :: it in plano.base ==> it.ok
    requires 0 < |novos| <= |plano.unidades| && job.itensTotal == TotalDoPlano(plano)
    requires job.progresso == Progresso(|plano.base| + |novos| - 1, TotalDoPlano(plano))
    ensures var d := AposUnidade(job, plano, novos);
      ContaItens(d) && d.itensOk + d.itensErro <= d.itensTotal && job.progresso <= d.progresso <= 90
  {
    UnitRowCounts(job, plano, novos);
    ProgressoBounds(|plano.base| + |novos| - 1, |plano.base| + |novos|, TotalDoPlano(plano));
  }

  lemma UnitCounters(p: Protocolo, s: Sistema, id: nat, ok: bool)
    requires Inv(p, s) && Contabil(s) && Passo(p, s, CommitUnidade(id, ok)).Some?
    ensures Contabil(Passo(p, s, CommitUnidade(id, ok)).value)
    ensures s.job.progresso <= Passo(p, s, CommitUnidade(id, ok)).value.job.progresso <= 90
  {
    var t := Passo(p, s, CommitUnidade(id, ok)).value;
    assert Acoplado(p, s, s.vivos[id]);
    UnitRow(s.job, s.vivos[id].plano, t.vivos[id].novos);
    assert t.vivos.Keys == {id};
  }

  lemma OtherCounters(p: Protocolo, s: Sistema, e: Evento)
    requires Inv(p, s) && Contabil(s) && Passo(p, s, e).Some?
    requires !e.Claim? && !e.CommitUnidade? && !e.CommitFinal?
    ensures Contabil(Passo(p, s, e).value)
    ensures !e.Retry? ==> s.job.progresso == Passo(p, s, e).value.job.progresso
    ensures e.Retry? ==> Passo(p, s, e).value.job.progresso == 0
  {
    assert forall id :: id in s.vivos ==> Acoplado(p, s, s.vivos[id]);
  }

  lemma FinalCounters(p: Protocolo, s: Sistema, e: Evento)
    requires Inv(p, s) && Contabil(s) && Passo(p, s, e).Some? && e.CommitFinal?
    ensures Contabil(Passo(p, s, e).value) && Passo(p, s, e).value.job.progresso == 100
  {
    assert Acoplado(p, s, s.vivos[e.id]);
    assert Passo(p, s, e).value.vivos == map[];
    SucessosMembers(s.job.itens);
  }
}
