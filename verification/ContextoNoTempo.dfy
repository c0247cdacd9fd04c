/**
 * The accounting context over the table of deliveries: asking for the present instant by name gives
 * the context of the current state.
 */
module ContextoNoTempo {
  import opened Basics
  import opened Texto
  import E = Entregas
  import C = ContextoCache

  /** The periods of the year's MSC: `LIKE '{ano}-M%'`. */
  predicate DoAno(periodo: string, ano: nat) {
    Str(ano) + "-M" <= periodo
  }

  /** The key of a delivery that the identity of the year looks at. */
  predicate Relevante(k: E.Chave, cod: string, ano: nat) {
    k.codIbge == cod && ((k.relatorio == "MSC" && DoAno(k.periodo, ano)) || (k.relatorio == "DCA" && k.periodo == Str(ano)))
  }

  /** `e` is a row in force of the year. */
  ghost predicate NaIdentidade(ls: seq<E.Entrega>, cod: string, ano: nat, e: C.Entrega) {
    exists i :: 0 <= i < |ls| && ls[i].vigente && Relevante(ls[i].chave, cod, ano)
      && e == C.Entrega(ls[i].chave.relatorio, ls[i].chave.periodo, ls[i].versao)
  }

  function Em(m: map<string, Option<string>>, p: string): Option<string> {
    if p in m then m[p] else None
  }

  /** What the database answers when it holds these deliveries and is asked about the instant `t`. */
  ghost predicate DoBanco(ls: seq<E.Entrega>, cod: string, ano: nat, t: int, q: C.Consulta) {
    && (forall e :: e in q.identidade <==> NaIdentidade(ls, cod, ano, e))
    && E.Pode(ls, E.Chave(cod, "DCA", Str(ano)), t, q.dcaAsOf)
    && (forall p :: p in q.periodos ==> DoAno(p, ano) && E.Pode(ls, E.Chave(cod, "MSC", p), t, Em(q.mscAsOf, p)))
  }

  /** Nothing of the key is later than `t`, and no instant is shared by the most recent ones. */
  ghost predicate Definido(ls: seq<E.Entrega>, k: E.Chave, t: int) {
    E.Ate(ls, k, t) && !E.Empate(ls, k, t)
  }

  lemma InForceIsAnswer(ls: seq<E.Entrega>, k: E.Chave, t: int, r: Option<string>, cod: string, ano: nat)
    requires E.Coerente(ls) && Definido(ls, k, t) && E.Pode(ls, k, t, r) && Relevante(k, cod, ano)
    ensures r.Some? ==> NaIdentidade(ls, cod, ano, C.Entrega(k.relatorio, k.periodo, r.value))
    ensures forall v :: NaIdentidade(ls, cod, ano, C.Entrega(k.relatorio, k.periodo, v)) ==> r == Some(v)
  {
    if E.Tem(ls, k) {
      var i := E.OneInForce(ls, k);
      E.NowIsInForceIff(ls, k, t, ls[i].versao, i);
      assert r == Some(ls[i].versao);
      assert NaIdentidade(ls, cod, ano, C.Entrega(k.relatorio, k.periodo, ls[i].versao));
      forall v | NaIdentidade(ls, cod, ano, C.Entrega(k.relatorio, k.periodo, v)) ensures r == Some(v) {
        var j :| 0 <= j < |ls| && ls[j].vigente && Relevante(ls[j].chave, cod, ano)
          && C.Entrega(k.relatorio, k.periodo, v) == C.Entrega(ls[j].chave.relatorio, ls[j].chave.periodo, ls[j].versao);
        assert E.Da(ls, j, k);
      }
    } else {
      forall v ensures !NaIdentidade(ls, cod, ano, C.Entrega(k.relatorio, k.periodo, v)) {
        if NaIdentidade(ls, cod, ano, C.Entrega(k.relatorio, k.periodo, v)) {
          var j :| 0 <= j < |ls| && ls[j].vigente && Relevante(ls[j].chave, cod, ano)
            && C.Entrega(k.relatorio, k.periodo, v) == C.Entrega(ls[j].chave.relatorio, ls[j].chave.periodo, ls[j].versao);
          assert E.Da(ls, j, k);
        }
      }
    }
  }

  lemma SameDca(ls: seq<E.Entrega>, cod: string, ano: nat, t: int, q: C.Consulta)
    requires E.Coerente(ls) && DoBanco(ls, cod, ano, t, q) && Definido(ls, E.Chave(cod, "DCA", Str(ano)), t)
    ensures C.DcaDe(q.identidade, Str(ano)) == q.dcaAsOf
  {
    InForceIsAnswer(ls, E.Chave(cod, "DCA", Str(ano)), t, q.dcaAsOf, cod, ano);
    assert q.dcaAsOf.Some? ==> C.Entrega("DCA", Str(ano), q.dcaAsOf.value) in q.identidade;
  }

  lemma SameMonth(ls: seq<E.Entrega>, cod: string, ano: nat, t: int, q: C.Consulta, p: string)
    requires E.Coerente(ls) && DoBanco(ls, cod, ano, t, q) && p in q.periodos && Definido(ls, E.Chave(cod, "MSC", p), t)
    ensures Em(C.VersoesDe(q.identidade), p) == Em(q.mscAsOf, p)
  {
    InForceIsAnswer(ls, E.Chave(cod, "MSC", p), t, Em(q.mscAsOf, p), cod, ano);
    assert Em(q.mscAsOf, p).Some? ==> C.Entrega("MSC", p, Em(q.mscAsOf, p).value) in q.identidade;
  }

  lemma {:induction false} SameMonths(ps: seq<string>, a: map<string, Option<string>>, b: map<string, Option<string>>)
    requires forall p :: p in ps ==> Em(a, p) == Em(b, p)
    ensures C.MesesDe(ps, a) == C.MesesDe(ps, b)
  {
    if ps != [] {
      var n := |ps| - 1;
      assert ps == ps[..n] + [ps[n]];
      SameMonths(ps[..n], a, b);
      assert Em(a, ps[n]) == Em(b, ps[n]);
    }
  }

  /**
   * With no delivery of the entity's year later than `t` and no two sharing the last instant, the context at
   * `t` is the current one in everything but the instant it carries, and one call raises when the other does.
   */
  lemma NowIsCurrent(ls: seq<E.Entrega>, cod: string, ano: nat, t: int, q: C.Consulta)
    requires E.Coerente(ls) && DoBanco(ls, cod, ano, t, q)
    requires forall k :: Relevante(k, cod, ano) ==> Definido(ls, k, t)
    ensures var a, b := C.ResolverDe(cod, ano, None, q), C.ResolverDe(cod, ano, Some(t), q);
      (a == None <==> b == None) && (a.Some? ==> b == Some(a.value.(asOf := Some(t))))
  {
    SameDca(ls, cod, ano, t, q);
    forall p | p in q.periodos ensures Em(C.VersoesDe(q.identidade), p) == Em(q.mscAsOf, p) {
      SameMonth(ls, cod, ano, t, q, p);
    }
    SameMonths(q.periodos, C.VersoesDe(q.identidade), q.mscAsOf);
  }
}
