/**
 * What the counters of a job mean over whole runs: attempts count claims, and without repeated
 * units the total of an attempt is the size of the job.
 */
module JobTotais {
  import opened Basics
  import opened IngestJob
  import opened JobProtocol
  import opened JobInvariant
  import opened JobDistintos

  // ---------------------------------------------------------------- attempts

  function Claims(evs: seq<Evento>): nat {
    if evs == [] then 0 else (if evs[0].Claim? then 1 else 0) + Claims(evs[1..])
  }

  /** The start of the last claim of the run, if it has one. */
  function UltimoInicio(evs: seq<Evento>, antes: Option<int>): Option<int> {
    if evs == [] then antes else UltimoInicio(evs[1..], if evs[0].Claim? then Some(evs[0].iniciadoEm) else antes)
  }

  /** In any run `tentativas` counts the claims, and the row's start is that of the last of them. */
  lemma {:induction false} AttemptsAreClaims(p: Protocolo, s: Sistema, evs: seq<Evento>, t: Sistema)
    requires Executar(p, s, evs) == Some(t)
    ensures t.job.tentativas == s.job.tentativas + Claims(evs)
    ensures t.job.iniciadoEm == UltimoInicio(evs, s.job.iniciadoEm)
    decreases |evs|
  {
    if evs != [] { AttemptsAreClaims(p, Passo(p, s, evs[0]).value, evs[1..], t); }
  }

  // ---------------------------------------------------------------- totals

  lemma {:induction false} RunKeepsTotal(p: Protocolo, s: Sistema, evs: seq<Evento>, t: Sistema)
    requires Inv(p, s) && TotalCerto(p, s) && NoDup(p.todas) && Chega(p, s, evs, t) && p.lease >= p.timeout
    ensures TotalCerto(p, t)
    decreases |evs|
  {
    if evs != [] {
      StepKeepsInv(p, s, evs[0]);
      StepKeepsTotal(p, s, evs[0]);
      RunKeepsTotal(p, Passo(p, s, evs[0]).value, evs[1..], t);
    }
  }

  /**
   * In every reachable state of a job without repeated units no unit is reported twice, and the total
   * of a running or concluded attempt is the number of units of the job; when it concluded, the items
   * are as many as the units and each is a success.
   */
  lemma TotalIsJobSize(p: Protocolo, s: Sistema)
    requires Alcancavel(p, s) && p.lease >= p.timeout && NoDup(p.todas)
    ensures Distintos(s.job.itens)
    ensures s.job.status == Executando || s.job.status == Concluido ==> s.job.itensTotal == Max(|p.todas|, 1)
    ensures s.job.status == Concluido ==> |s.job.itens| == |p.todas| && forall it :: it in s.job.itens ==> it.ok
  {
    var agora: int, total: nat, evs: seq<Evento> :| Chega(p, Inicial(p, agora, total), evs, s);
    RunKeepsTotal(p, Inicial(p, agora, total), evs, s);
    ReachableInv(p, s);
    if s.job.status == Concluido {
      ConcludedMeansAllDone(p, s);
      DoneAndPending(p.todas, s.job.itens);
      PendentesMembers(p.todas, SucessoKeys(s.job.itens));
      SucessosMembers(s.job.itens);
      NothingPending(p.todas, SucessoKeys(s.job.itens));
    }
  }
}
