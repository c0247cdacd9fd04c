/**
 * The maintenance round seen from the protocol: on each row it does nothing or takes the
 * protocol's own step, so what holds of reachable rows carries over.
 */
module RodadaFila {
  import opened Basics
  import opened IngestJob
  import opened JobProtocol
  import opened JobInvariant
  import opened JobTentativas
  import opened FilaRq

  /** A row of the table with everything around its job. */
  datatype Linha = Linha(id: int, criadoEm: int, p: Protocolo, s: Sistema)

  function Colunas(l: Linha, job: Job): JobSql {
    JobSql(l.id, job.status, job.tentativas, job.iniciadoEm, l.criadoEm)
  }

  function Tabela(ls: seq<Linha>): seq<JobSql> {
    seq(|ls|, i requires 0 <= i < |ls| => Colunas(ls[i], ls[i].s.job))
  }

  /** One clock and one lease for all rows. */
  ghost predicate Sincronas(ls: seq<Linha>, agora: int, lease: nat) {
    forall i :: 0 <= i < |ls| ==> ls[i].s.agora == agora && ls[i].p.lease == lease
  }

  /** The protocol can reconcile the row now. */
  predicate Reconciliavel(l: Linha) {
    Passo(l.p, l.s, Reconcilia).Some?
  }

  /** How many of the first `n` rows the protocol can reconcile. */
  function Quantas(ls: seq<Linha>, n: nat): nat
    requires n <= |ls|
  {
    if n == 0 then 0 else Quantas(ls, n - 1) + if Reconciliavel(ls[n - 1]) then 1 else 0
  }

  lemma AbandonedIff(l: Linha)
    ensures Abandonado(Colunas(l, l.s.job), l.s.agora - l.p.lease) <==> Reconciliavel(l)
  {
  }

  lemma {:induction false} FiltraAppend(a: seq<JobSql>, x: JobSql, f: JobSql -> bool)
    ensures |Filtra(a + [x], f)| == |Filtra(a, f)| + if f(x) then 1 else 0
  {
    if a != [] {
      assert (a + [x])[1..] == a[1..] + [x];
      FiltraAppend(a[1..], x, f);
    }
  }

  lemma {:induction false} AsManyAbandoned(ls: seq<Linha>, agora: int, lease: nat, n: nat)
    requires Sincronas(ls, agora, lease) && n <= |ls|
    ensures |Abandonados(Tabela(ls)[..n], agora - lease)| == Quantas(ls, n)
  {
    if n > 0 {
      AsManyAbandoned(ls, agora, lease, n - 1);
      AbandonedIff(ls[n - 1]);
      assert Tabela(ls)[..n] == Tabela(ls)[..n - 1] + [Tabela(ls)[n - 1]];
      FiltraAppend(Tabela(ls)[..n - 1], Tabela(ls)[n - 1], (j: JobSql) => Abandonado(j, agora - lease));
    }
  }

  /**
   * A round changes a row only by the protocol's `Reconcilia`, and when at most a thousand rows can take
   * that step, each of them does.
   */
  lemma RoundIsProtocol(ls: seq<Linha>, agora: int, lease: nat, i: nat)
    requires Sincronas(ls, agora, lease) && i < |ls|
    ensures var l, r := ls[i], ReconcileAbandoned(Tabela(ls), agora - lease)[i];
      && (r == Colunas(l, l.s.job)
          || (Reconciliavel(l) && r == Colunas(l, Passo(l.p, l.s, Reconcilia).value.job)))
      && (Reconciliavel(l) && Quantas(ls, |ls|) <= 1000 ==> r == Colunas(l, Passo(l.p, l.s, Reconcilia).value.job))
  {
    AbandonedIff(ls[i]);
    ReconcileEffect(Tabela(ls), agora - lease, i);
    AsManyAbandoned(ls, agora, lease, |ls|);
    assert Tabela(ls)[..|ls|] == Tabela(ls);
  }

  /** So the table after the round is again one of reachable rows. */
  lemma RoundStaysReachable(ls: seq<Linha>, agora: int, lease: nat, i: nat) returns (t: Sistema)
    requires Sincronas(ls, agora, lease) && i < |ls| && Alcancavel(ls[i].p, ls[i].s)
    ensures Alcancavel(ls[i].p, t) && t.vivos == ls[i].s.vivos
    ensures ReconcileAbandoned(Tabela(ls), agora - lease)[i] == Colunas(ls[i], t.job)
  {
    var l := ls[i];
    RoundIsProtocol(ls, agora, lease, i);
    t := l.s;
    if ReconcileAbandoned(Tabela(ls), agora - lease)[i] != Colunas(l, l.s.job) {
      t := Passo(l.p, l.s, Reconcilia).value;
      ChegaUm(l.p, l.s, Reconcilia);
      AlcancavelMais(l.p, l.s, [Reconcilia], t);
    }
  }

  /** No round touches the row of a live executor, if the lease covers the timeout. */
  lemma RoundSparesLive(ls: seq<Linha>, agora: int, lease: nat, i: nat)
    requires Sincronas(ls, agora, lease) && i < |ls|
    requires Alcancavel(ls[i].p, ls[i].s) && lease >= ls[i].p.timeout && ls[i].s.vivos != map[]
    ensures ReconcileAbandoned(Tabela(ls), agora - lease)[i] == Tabela(ls)[i]
  {
    var l := ls[i];
    ReachableInv(l.p, l.s);
    RoundIsProtocol(ls, agora, lease, i);
    var id :| id in l.s.vivos;
    assert Acoplado(l.p, l.s, l.s.vivos[id]);
  }

  /** With a shorter lease some reachable live execution is taken. */
  lemma ShortLeaseTakesLive(p: Protocolo) returns (l: Linha)
    requires p.lease < p.timeout
    ensures l.p == p && Alcancavel(p, l.s) && l.s.vivos != map[]
    ensures ReconcileAbandoned(Tabela([l]), l.s.agora - p.lease)[0].status == NaFila
  {
    var s := OutlivesLease(p);
    l := Linha(1, 0, p, s);
    RoundIsProtocol([l], l.s.agora, p.lease, 0);
    assert Quantas([l], 0) == 0 && Quantas([l], 1) <= 1;
  }
}
