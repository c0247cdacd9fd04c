/**
 * Without repeated units no unit is reported twice and every plan splits the job: the steps behind the
 * meaning of the total of an attempt, from the claim through each report to the last commit of it,
 * with whatever was done before.
 */
module JobDistintos {
  import opened Basics
  import opened IngestJob
  import opened JobProtocol
  import opened JobInvariant

  /** No two items are about one unit. */
  ghost predicate Distintos(itens: seq<Item>) {
    forall i, j :: 0 <= i < j < |itens| ==> itens[i].unidade != itens[j].unidade
  }

  ghost predicate TotalCerto(p: Protocolo, s: Sistema) {
    && Distintos(s.job.itens)
    && (forall id :: id in s.vivos ==> Distintos(s.vivos[id].plano.base))
    && (s.job.status == Executando || s.job.status == Concluido ==> s.job.itensTotal == Max(|p.todas|, 1))
  }

  lemma DistinctCons(it: Item, xs: seq<Item>)
    ensures Distintos([it] + xs) <==> Distintos(xs) && forall x :: x in xs ==> x.unidade != it.unidade
  {
    var ys := [it] + xs;
    assert forall k :: 0 <= k < |xs| ==> ys[k + 1] == xs[k];
    if Distintos(ys) {
      forall i, j | 0 <= i < j < |xs| ensures xs[i].unidade != xs[j].unidade { assert ys[i + 1].unidade != ys[j + 1].unidade; }
      forall x | x in xs ensures x.unidade != it.unidade {
        var k :| 0 <= k < |xs| && xs[k] == x;
        assert ys[0].unidade != ys[k + 1].unidade;
      }
    }
  }

  lemma KeysCons(it: Item, xs: seq<Item>)
    ensures SucessoKeys([it] + xs) == SucessoKeys(xs) + if it.ok then {it.unidade} else {}
  {
    KeysConcat([it], xs);
    assert SucessoKeys([it]) == if it.ok then {it.unidade} else {} by {
      if it.ok { assert it in [it]; }
    }
  }

  lemma {:induction false} SuccessesDistinct(itens: seq<Item>)
    requires Distintos(itens)
    ensures Distintos(Sucessos(itens)) && |SucessoKeys(itens)| == |Sucessos(itens)|
  {
    if itens != [] {
      var it, resto := itens[0], itens[1..];
      assert itens == [it] + resto;
      DistinctCons(it, resto);
      SuccessesDistinct(resto);
      SucessosMembers(resto);
      DistinctCons(it, Sucessos(resto));
      KeysCons(it, resto);
      assert it.unidade !in SucessoKeys(resto);
    }
  }

  lemma {:induction false} SizeOfSet<T>(xs: seq<T>, s: set<T>)
    requires NoDup(xs) && forall x :: x in xs <==> x in s
    ensures |xs| == |s|
  {
    if xs == [] {
      assert s == {};
    } else {
      var n := |xs| - 1;
      assert xs == xs[..n] + [xs[n]];
      NoDupConcat(xs[..n], [xs[n]]);
      SizeOfSet(xs[..n], s - {xs[n]});
    }
  }

  /** What was done and what is pending make up the job. */
  lemma DoneAndPending(todas: seq<Unidade>, itens: seq<Item>)
    requires NoDup(todas) && Distintos(itens) && forall it :: it in itens ==> it.unidade in todas
    ensures |Sucessos(itens)| + |Pendentes(todas, SucessoKeys(itens))| == |todas|
  {
    var todos := set u | u in todas;
    var feitas := SucessoKeys(itens);
    SuccessesDistinct(itens);
    PendentesNoDup(todas, feitas);
    PendentesMembers(todas, feitas);
    SizeOfSet(todas, todos);
    SizeOfSet(Pendentes(todas, feitas), todos - feitas);
    assert feitas <= todos && |todos - feitas| == |todos| - |feitas|;
  }

  /** The plan of a resumable row splits the job. */
  lemma PlanSplits(todas: seq<Unidade>, job: Job)
    requires NoDup(todas) && Retomavel(todas, job) && Distintos(job.itens)
    requires job.status == NaFila || job.status == Falhou
    ensures var plano := RetryPlan(todas, job);
      |plano.base| + |plano.unidades| == |todas| && Distintos(plano.base)
  {
    SuccessesDistinct(job.itens);
    DoneAndPending(todas, job.itens);
    PlanExactOf(todas, job);
  }

  lemma PlanExactOf(todas: seq<Unidade>, job: Job)
    requires NoDup(todas) && Retomavel(todas, job)
    requires job.status == NaFila || job.status == Falhou
    ensures RetryPlan(todas, job).unidades == Pendentes(todas, SucessoKeys(job.itens))
    ensures RetryPlan(todas, job).base == Sucessos(job.itens)
  {
    PlanCovers(todas, job);
    PendentesMembers(todas, {});
    if job.itens == [] { assert SucessoKeys(job.itens) == {}; }
  }

  lemma NotYetReported(base: seq<Item>, novos: seq<Item>, us: seq<Unidade>, it: Item)
    requires Reports(novos, us) && |novos| < |us| && NoDup(us) && it in base + novos
    requires forall b :: b in base ==> b.ok
    requires forall u :: u in us ==> u !in SucessoKeys(base)
    ensures it.unidade != us[|novos|]
  {
    if it in base {
      assert it.unidade in SucessoKeys(base);
    } else {
      var k :| 0 <= k < |novos| && novos[k] == it;
    }
  }

  lemma DistinctAppend(itens: seq<Item>, novo: Item)
    requires Distintos(itens) && forall it :: it in itens ==> it.unidade != novo.unidade
    ensures Distintos(itens + [novo])
  {
  }

  /** One more report of a pending unit repeats none. */
  lemma ReportIsNew(p: Protocolo, s: Sistema, ex: Executor, ok: bool)
    requires Acoplado(p, s, ex) && NoDup(p.todas) && Distintos(s.job.itens) && |ex.novos| < |ex.plano.unidades|
    ensures Distintos(s.job.itens + [Item(ex.plano.unidades[|ex.novos|], ok)])
  {
    var us, base, n := ex.plano.unidades, ex.plano.base, |ex.novos|;
    PendentesNoDup(p.todas, SucessoKeys(base));
    PendentesMembers(p.todas, SucessoKeys(base));
    forall it | it in s.job.itens ensures it.unidade != us[n] { NotYetReported(base, ex.novos, us, it); }
    DistinctAppend(s.job.itens, Item(us[n], ok));
  }

  lemma ClaimKeepsTotal(p: Protocolo, s: Sistema, id: nat, iniciadoEm: int)
    requires Inv(p, s) && TotalCerto(p, s) && NoDup(p.todas) && Passo(p, s, Claim(id, iniciadoEm)).Some?
    ensures TotalCerto(p, Passo(p, s, Claim(id, iniciadoEm)).value)
  {
    PlanSplits(p.todas, s.job);
    assert s.vivos == map[] by {
      if x :| x in s.vivos { assert Acoplado(p, s, s.vivos[x]); }
    }
  }

  lemma UnitKeepsTotal(p: Protocolo, s: Sistema, id: nat, ok: bool)
    requires Inv(p, s) && TotalCerto(p, s) && NoDup(p.todas) && Passo(p, s, CommitUnidade(id, ok)).Some?
    ensures TotalCerto(p, Passo(p, s, CommitUnidade(id, ok)).value)
  {
    var ex := s.vivos[id];
    assert Acoplado(p, s, ex);
    ReportIsNew(p, s, ex, ok);
    var item := Item(ex.plano.unidades[|ex.novos|], ok);
    assert ex.plano.base + (ex.novos + [item]) == s.job.itens + [item];
  }

  lemma StepKeepsTotal(p: Protocolo, s: Sistema, e: Evento)
    requires Inv(p, s) && TotalCerto(p, s) && NoDup(p.todas) && Passo(p, s, e).Some?
    ensures TotalCerto(p, Passo(p, s, e).value)
  {
    if e.Claim? {
      ClaimKeepsTotal(p, s, e.id, e.iniciadoEm);
    } else if e.CommitUnidade? {
      UnitKeepsTotal(p, s, e.id, e.ok);
    } else if e.CommitFinal? {
      assert Acoplado(p, s, s.vivos[e.id]);
    }
  }
}
