/**
 * The tenant scope: which entities a user may look at. A gate answers one at a time, a set all
 * of them, both from values memorised for a request.
 */
module Escopo {
  import opened Basics

  type Org = int
  type Dia = int

  const TIPO_CONTA_ESTADO := "estado"
  const ESFERA_ESTADUAL := "estadual"
  const LICENCA_ATIVA := "ativa"

  datatype Licenca = Licenca(
    tipo: string, codIbge: Option<string>, uf: Option<string>, vigenciaInicio: Dia, vigenciaFim: Option<Dia>, status: string)

  /** The rows a session sees: account types, portfolios, licences, and the catalogue's sphere of each code. */
  datatype Banco = Banco(
    contas: map<Org, string>, carteiras: map<Org, seq<string>>, licencas: map<Org, seq<Licenca>>, catalogo: map<string, string>)

  datatype Cobertura = Cobertura(global: bool, entes: set<string>, ufs: set<string>)

  /** What `session.info` holds. */
  datatype Memo = Memo(
    licenca: map<(Org, Dia), Cobertura>, carteira: map<Org, seq<string>>, prefixos: map<Org, set<string>>, estado: map<Org, bool>)

  datatype Principal = Principal(org: Option<Org>, escopoIbges: Option<set<string>>)

  datatype Erro = ForaDoEscopo(ente: string) | NaoLicenciado(ente: string)

  function Pref2(s: string): string {
    if |s| <= 2 then s else s[..2]
  }

  // ---------------------------------------------------------------- what it means

  predicate VigenteEm(l: Licenca, dia: Dia) {
    l.status == LICENCA_ATIVA && l.vigenciaInicio <= dia && (l.vigenciaFim == None || dia <= l.vigenciaFim.value)
  }

  predicate Abrange(l: Licenca, ente: string) {
    || l.tipo == "global"
    || (l.tipo == "ente" && l.codIbge == Some(ente) && ente != "")
    || (l.tipo == "uf" && l.uf == Some(Pref2(ente)) && ente != "")
  }

  ghost predicate AlgumaCobre(ls: seq<Licenca>, ente: string, dia: Dia) {
    exists l :: l in ls && VigenteEm(l, dia) && Abrange(l, ente)
  }

  function Carteira(b: Banco, org: Org): seq<string> {
    if org in b.carteiras then b.carteiras[org] else []
  }

  function Licencas(b: Banco, org: Org): seq<Licenca> {
    if org in b.licencas then b.licencas[org] else []
  }

  predicate ContaEstado(b: Banco, org: Org) {
    org in b.contas && b.contas[org] == TIPO_CONTA_ESTADO
  }

  /** A code of the portfolio that stands for a whole state. */
  predicate DeEstado(b: Banco, c: string) {
    |c| == 2 || (c in b.catalogo && b.catalogo[c] == ESFERA_ESTADUAL)
  }

  ghost predicate Licenciado(b: Banco, org: Org, ente: string, dia: Dia) {
    AlgumaCobre(Licencas(b, org), ente, dia)
  }

  /** A municipality of a state that a state account has in its portfolio. */
  ghost predicate PorEstado(b: Banco, org: Org, ente: string) {
    ContaEstado(b, org) && |ente| == 7 && exists c :: c in Carteira(b, org) && DeEstado(b, c) && Pref2(c) == Pref2(ente)
  }

  ghost predicate Restrito(p: Principal, ente: string) {
    p.escopoIbges.Some? && ente !in p.escopoIbges.value
  }

  /** What the gate is for. */
  ghost predicate Alcanca(b: Banco, p: Principal, ente: string, dia: Dia) {
    && p.org.Some? && !Restrito(p, ente)
    && (ente in Carteira(b, p.org.value) || PorEstado(b, p.org.value, ente))
    && Licenciado(b, p.org.value, ente, dia)
  }

  /** What the set is for: it can only list codes that some table holds. */
  ghost predicate Listado(b: Banco, p: Principal, ente: string, dia: Dia) {
    Alcanca(b, p, ente, dia) && (ente in Carteira(b, p.org.value) || ente in b.catalogo)
  }

  /** The two agree on an entity unless it is in neither table and the state expansion alone lets it in. */
  lemma GateMeetsSetIff(b: Banco, p: Principal, ente: string, dia: Dia)
    ensures (Alcanca(b, p, ente, dia) <==> Listado(b, p, ente, dia))
       <==> !(&& p.org.Some? && ente !in Carteira(b, p.org.value) && ente !in b.catalogo
              && PorEstado(b, p.org.value, ente) && !Restrito(p, ente) && Licenciado(b, p.org.value, ente, dia))
  {
  }

  /** A licence counts on a day when it is active and inside its dates, for everything, the entity or its state. */
  lemma LicenceSpelledOut(ls: seq<Licenca>, ente: string, dia: Dia)
    ensures AlgumaCobre(ls, ente, dia) <==>
      exists l :: l in ls && l.status == "ativa" && l.vigenciaInicio <= dia
        && (l.vigenciaFim.Some? ==> dia <= l.vigenciaFim.value)
        && (|| l.tipo == "global"
            || (l.tipo == "ente" && ente != "" && l.codIbge == Some(ente))
            || (l.tipo == "uf" && ente != "" && l.uf == Some(if |ente| <= 2 then ente else ente[..2])))
  {
    forall l ensures VigenteEm(l, dia) && Abrange(l, ente) <==>
        && l.status == "ativa" && l.vigenciaInicio <= dia && (l.vigenciaFim.Some? ==> dia <= l.vigenciaFim.value)
        && (|| l.tipo == "global"
            || (l.tipo == "ente" && ente != "" && l.codIbge == Some(ente))
            || (l.tipo == "uf" && ente != "" && l.uf == Some(if |ente| <= 2 then ente else ente[..2])))
    {
    }
  }

  /** The state expansion: seven digits, an account of type state, and its state in the portfolio. */
  lemma ExpansionSpelledOut(b: Banco, org: Org, ente: string)
    ensures PorEstado(b, org, ente) <==>
      && org in b.contas && b.contas[org] == "estado" && |ente| == 7
      && exists c :: c in Carteira(b, org)
           && (|c| == 2 || (c in b.catalogo && b.catalogo[c] == "estadual"))
           && (if |c| <= 2 then c else c[..2]) == ente[..2]
  {
    forall c ensures DeEstado(b, c) && Pref2(c) == Pref2(ente) <==>
        && (|c| == 2 || (c in b.catalogo && b.catalogo[c] == "estadual"))
        && (if |c| <= 2 then c else c[..2]) == (if |ente| <= 2 then ente else ente[..2])
    {
    }
  }

  /** The effective scope: portfolio or expansion, within the user's own codes if there are any, under a licence. */
  lemma ScopeIsIntersection(b: Banco, p: Principal, ente: string, dia: Dia)
    ensures p.org == None ==> !Alcanca(b, p, ente, dia)
    ensures p.org.Some? ==> (Alcanca(b, p, ente, dia) <==>
      && (ente in Carteira(b, p.org.value) || PorEstado(b, p.org.value, ente))
      && (p.escopoIbges.Some? ==> ente in p.escopoIbges.value)
      && AlgumaCobre(Licencas(b, p.org.value), ente, dia))
    ensures p.org.Some? ==>
      Carteira(b, p.org.value) == if p.org.value in b.carteiras then b.carteiras[p.org.value] else []
  {
  }

  /** Past the end of every licence, or before its start, nothing is in scope, whatever the portfolio. */
  lemma OutsideTheirDatesNothing(b: Banco, p: Principal, ente: string, dia: Dia)
    requires p.org.Some? && p.org.value in b.licencas
    requires forall l :: l in b.licencas[p.org.value] ==>
      l.status != "ativa" || dia < l.vigenciaInicio || (l.vigenciaFim.Some? && l.vigenciaFim.value < dia)
    ensures !Alcanca(b, p, ente, dia) && !Listado(b, p, ente, dia)
  {
  }

  /** Such an entity exists: seven digits of a monitored state, not yet in the catalogue. */
  lemma GateWithoutSetExample()
    ensures var b := Banco(map[1 := TIPO_CONTA_ESTADO], map[1 := ["35"]], map[1 := [Licenca("global", None, None, 0, None, LICENCA_ATIVA)]], map[]);
      var p := Principal(Some(1), None);
      Alcanca(b, p, "3599999", 0) && !Listado(b, p, "3599999", 0)
  {
    var l := Licenca("global", None, None, 0, None, LICENCA_ATIVA);
    var b := Banco(map[1 := TIPO_CONTA_ESTADO], map[1 := ["35"]], map[1 := [l]], map[]);
    assert l in Licencas(b, 1) && VigenteEm(l, 0) && Abrange(l, "3599999");
    assert "35" in Carteira(b, 1) && DeEstado(b, "35") && Pref2("35") == Pref2("3599999");
  }

  /** A licence taken away, suspended or shortened never lets anyone see more. */
  lemma FewerLicencesNeverMore(b: Banco, org: Org, novas: seq<Licenca>, p: Principal, ente: string, dia: Dia)
    requires forall l :: l in novas && VigenteEm(l, dia) && Abrange(l, ente) ==>
               exists m :: m in Licencas(b, org) && VigenteEm(m, dia) && Abrange(m, ente)
    ensures var b' := b.(licencas := b.licencas[org := novas]);
      && (Alcanca(b', p, ente, dia) ==> Alcanca(b, p, ente, dia))
      && (Listado(b', p, ente, dia) ==> Listado(b, p, ente, dia))
  {
    var b' := b.(licencas := b.licencas[org := novas]);
    forall o ensures Carteira(b', o) == Carteira(b, o) && (PorEstado(b', o, ente) <==> PorEstado(b, o, ente)) {
      if PorEstado(b', o, ente) {
        var c :| c in Carteira(b', o) && DeEstado(b', c) && Pref2(c) == Pref2(ente);
        assert DeEstado(b, c);
      }
      if PorEstado(b, o, ente) {
        var c :| c in Carteira(b, o) && DeEstado(b, c) && Pref2(c) == Pref2(ente);
        assert DeEstado(b', c);
      }
    }
  }

  // ---------------------------------------------------------------- coverage

  predicate Cobre(c: Cobertura, ente: string) {
    c.global || ente in c.entes || Pref2(ente) in c.ufs
  }

  function Filtrar(c: Cobertura, cods: set<string>): set<string> {
    if c.global then cods else set x | x in cods && Cobre(c, x)
  }

  /** What `cobertura_licenca` gathers from the licences in force. */
  ghost function CoberturaDe(ls: seq<Licenca>, dia: Dia): Cobertura {
    Cobertura(
      exists l :: l in ls && VigenteEm(l, dia) && l.tipo == "global",
      set l | l in ls && VigenteEm(l, dia) && l.tipo == "ente" && l.codIbge.Some? && l.codIbge.value != "" :: l.codIbge.value,
      set l | l in ls && VigenteEm(l, dia) && l.tipo == "uf" && l.uf.Some? && l.uf.value != "" :: l.uf.value)
  }

  /** The summary covers an entity exactly when some licence in force does. */
  lemma CoverageIsLicence(ls: seq<Licenca>, dia: Dia, ente: string)
    ensures Cobre(CoberturaDe(ls, dia), ente) <==> AlgumaCobre(ls, ente, dia)
  {
    var c := CoberturaDe(ls, dia);
    if Cobre(c, ente) {
      if c.global {
        var l :| l in ls && VigenteEm(l, dia) && l.tipo == "global";
        assert Abrange(l, ente);
      } else if ente in c.entes {
        var l :| l in ls && VigenteEm(l, dia) && l.tipo == "ente" && l.codIbge == Some(ente) && ente != "";
        assert Abrange(l, ente);
      } else {
        var l :| l in ls && VigenteEm(l, dia) && l.tipo == "uf" && l.uf == Some(Pref2(ente)) && Pref2(ente) != "";
        assert Abrange(l, ente);
      }
    }
    if AlgumaCobre(ls, ente, dia) {
      var l :| l in ls && VigenteEm(l, dia) && Abrange(l, ente);
      if l.tipo == "ente" {
        assert l.codIbge.value in c.entes;
      } else if l.tipo == "uf" {
        assert l.uf.value in c.ufs;
      }
    }
  }

  lemma OneMoreLicence(ls: seq<Licenca>, l: Licenca, dia: Dia)
    ensures var c := CoberturaDe(ls, dia);
      CoberturaDe(ls + [l], dia) ==
        if !VigenteEm(l, dia) then c
        else if l.tipo == "global" then c.(global := true)
        else if l.tipo == "ente" && l.codIbge.Some? && l.codIbge.value != "" then c.(entes := c.entes + {l.codIbge.value})
        else if l.tipo == "uf" && l.uf.Some? && l.uf.value != "" then c.(ufs := c.ufs + {l.uf.value})
        else c
  {
    var c, d := CoberturaDe(ls, dia), CoberturaDe(ls + [l], dia);
    forall m | m in ls + [l] ensures m in ls || m == l {
    }
    assert l in ls + [l] && forall m :: m in ls ==> m in ls + [l];
    assert d.global <==> c.global || (VigenteEm(l, dia) && l.tipo == "global");
    assert d.entes == c.entes + if VigenteEm(l, dia) && l.tipo == "ente" && l.codIbge.Some? && l.codIbge.value != "" then {l.codIbge.value} else {};
    assert d.ufs == c.ufs + if VigenteEm(l, dia) && l.tipo == "uf" && l.uf.Some? && l.uf.value != "" then {l.uf.value} else {};
  }

  /** The loop of `cobertura_licenca`. */
  method ResolveCobertura(ls: seq<Licenca>, dia: Dia) returns (r: Cobertura)
    ensures r == CoberturaDe(ls, dia)
  {
    var entes: set<string>, ufs: set<string>, global := {}, {}, false;
    for i := 0 to |ls|
      invariant Cobertura(global, entes, ufs) == CoberturaDe(ls[..i], dia)
    {
      var lic := ls[i];
      assert ls[..i + 1] == ls[..i] + [lic];
      OneMoreLicence(ls[..i], lic, dia);
      if VigenteEm(lic, dia) {
        if lic.tipo == "global" {
          global := true;
        } else if lic.tipo == "ente" && lic.codIbge.Some? && lic.codIbge.value != "" {
          entes := entes + {lic.codIbge.value};
        } else if lic.tipo == "uf" && lic.uf.Some? && lic.uf.value != "" {
          ufs := ufs + {lic.uf.value};
        }
      }
    }
    assert ls[..|ls|] == ls;
    r := Cobertura(global, entes, ufs);
  }

  // ---------------------------------------------------------------- the expansion of state accounts

  function PrefixosDe(b: Banco, carteira: seq<string>): set<string> {
    set c | c in carteira && DeEstado(b, c) :: Pref2(c)
  }

  /** The two queries of `_estado_prefixes`: two-digit codes, then the state-sphere ones among the rest. */
  method ResolvePrefixos(b: Banco, carteira: seq<string>) returns (r: set<string>)
    ensures r == PrefixosDe(b, carteira)
  {
    r := set c | c in carteira && |c| == 2;
    ghost var curtos := r;
    for i := 0 to |carteira|
      invariant r == curtos + PrefixosDe(b, carteira[..i])
    {
      var c := carteira[i];
      assert carteira[..i + 1] == carteira[..i] + [c];
      MorePrefixes(b, carteira[..i], c);
      assert |c| == 2 ==> c in curtos;
      if |c| != 2 && c in b.catalogo && b.catalogo[c] == ESFERA_ESTADUAL {
        r := r + {Pref2(c)};
      }
    }
    assert carteira[..|carteira|] == carteira;
    forall c | c in curtos ensures c in PrefixosDe(b, carteira) {
      assert DeEstado(b, c) && Pref2(c) == c;
    }
  }

  lemma MorePrefixes(b: Banco, carteira: seq<string>, c: string)
    ensures PrefixosDe(b, carteira + [c]) == PrefixosDe(b, carteira) + if DeEstado(b, c) then {Pref2(c)} else {}
  {
    forall x | x in PrefixosDe(b, carteira) ensures x in PrefixosDe(b, carteira + [c]) {
      var d :| d in carteira && DeEstado(b, d) && Pref2(d) == x;
      assert d in carteira + [c];
    }
    assert c in carteira + [c];
  }

  /** `list_ibges_by_prefixes`. */
  function IbgesPorPrefixos(b: Banco, prefixos: set<string>): set<string> {
    set c | c in b.catalogo && |c| == 7 && Pref2(c) in prefixos
  }

  // ---------------------------------------------------------------- what a session sees

  function VCarteira(b: Banco, m: Memo, org: Org): seq<string> {
    if org in m.carteira then m.carteira[org] else Carteira(b, org)
  }

  function VPrefixos(b: Banco, m: Memo, org: Org): set<string> {
    if org in m.prefixos then m.prefixos[org] else PrefixosDe(b, VCarteira(b, m, org))
  }

  function VEstado(b: Banco, m: Memo, org: Org): bool {
    if org in m.estado then m.estado[org] else ContaEstado(b, org)
  }

  ghost function VCobertura(b: Banco, m: Memo, org: Org, dia: Dia): Cobertura {
    if (org, dia) in m.licenca then m.licenca[(org, dia)] else CoberturaDe(Licencas(b, org), dia)
  }

  /** Two memos through which one organisation looks the same. */
  ghost predicate MesmaVista(b: Banco, m: Memo, b': Banco, m': Memo, org: Org) {
    && VCarteira(b, m, org) == VCarteira(b', m', org)
    && VPrefixos(b, m, org) == VPrefixos(b', m', org)
    && VEstado(b, m, org) == VEstado(b', m', org)
    && forall dia :: VCobertura(b, m, org, dia) == VCobertura(b', m', org, dia)
  }

  /** From one memo to another nothing looks different: the second only remembers more. */
  ghost predicate SoLembrou(b: Banco, m: Memo, m': Memo) {
    forall o :: MesmaVista(b, m, b, m', o)
  }

  lemma RememberTwice(b: Banco, m: Memo, m': Memo, m'': Memo)
    requires SoLembrou(b, m, m') && SoLembrou(b, m', m'')
    ensures SoLembrou(b, m, m'')
  {
    forall o ensures MesmaVista(b, m, b, m'', o) {
      assert MesmaVista(b, m, b, m', o) && MesmaVista(b, m', b, m'', o);
    }
  }

  lemma SeesTheSame(b: Banco, m: Memo, m': Memo, org: Org)
    requires SoLembrou(b, m, m')
    ensures MesmaVista(b, m, b, m', org)
  {
  }

  lemma RememberKeepsFresh(b: Banco, m: Memo, m': Memo)
    requires SoLembrou(b, m, m') && forall org :: Fresca(b, m, org)
    ensures forall org :: Fresca(b, m', org)
  {
    forall org ensures Fresca(b, m', org) {
      assert Fresca(b, m, org) && MesmaVista(b, m, b, m', org);
    }
  }

  const VAZIO := Memo(map[], map[], map[], map[])

  /** What is memorised of an organisation is what a fresh session would compute. */
  ghost predicate Fresca(b: Banco, m: Memo, org: Org) {
    MesmaVista(b, m, b, VAZIO, org)
  }

  /** The gate, as it sees the session: the portfolio row is always read afresh. */
  ghost predicate Portao(b: Banco, m: Memo, p: Principal, ente: string) {
    && p.org.Some? && !Restrito(p, ente)
    && (ente in Carteira(b, p.org.value)
        || (VEstado(b, m, p.org.value) && |ente| == 7 && Pref2(ente) in VPrefixos(b, m, p.org.value)))
  }

  /** The set, as it sees the session, before licences. */
  ghost predicate Conjunto(b: Banco, m: Memo, p: Principal, ente: string) {
    && p.org.Some? && !Restrito(p, ente)
    && (ente in VCarteira(b, m, p.org.value)
        || (VEstado(b, m, p.org.value) && ente in IbgesPorPrefixos(b, VPrefixos(b, m, p.org.value))))
  }

  /**
   * Whatever else the session remembers wrongly, gate and set agree on every entity of the portfolio
   * or the catalogue as long as the remembered portfolio holds it exactly when the real one does.
   */
  lemma GateEqualsSetUnderMemo(b: Banco, m: Memo, p: Principal, ente: string)
    requires p.org.Some? ==>
               && (ente in VCarteira(b, m, p.org.value) <==> ente in Carteira(b, p.org.value))
               && (ente in Carteira(b, p.org.value) || ente in b.catalogo)
    ensures Portao(b, m, p, ente) <==> Conjunto(b, m, p, ente)
  {
  }

  /** With a fresh memo they are what the gate and the set are for. */
  lemma FreshMeansMeant(b: Banco, m: Memo, p: Principal, ente: string, dia: Dia)
    requires p.org.Some? ==> Fresca(b, m, p.org.value)
    ensures Portao(b, m, p, ente) && Cobre(VCobertura(b, m, p.org.value, dia), ente) <==> Alcanca(b, p, ente, dia)
    ensures Conjunto(b, m, p, ente) && Cobre(VCobertura(b, m, p.org.value, dia), ente) <==> Listado(b, p, ente, dia)
  {
    if p.org.Some? {
      var org := p.org.value;
      assert VCobertura(b, m, org, dia) == VCobertura(b, VAZIO, org, dia);
      CoverageIsLicence(Licencas(b, org), dia, ente);
      PrefixIsState(b, org, ente);
    }
  }

  lemma ScopeAndLicence(b: Banco, m: Memo, p: Principal, ente: string, dia: Dia)
    requires p.org.Some? && Fresca(b, m, p.org.value)
    ensures Portao(b, m, p, ente) <==>
      !Restrito(p, ente) && (ente in Carteira(b, p.org.value) || PorEstado(b, p.org.value, ente))
    ensures Cobre(VCobertura(b, m, p.org.value, dia), ente) <==> Licenciado(b, p.org.value, ente, dia)
  {
    var org := p.org.value;
    assert VCobertura(b, m, org, dia) == VCobertura(b, VAZIO, org, dia);
    CoverageIsLicence(Licencas(b, org), dia, ente);
    PrefixIsState(b, org, ente);
  }

  lemma PrefixIsState(b: Banco, org: Org, ente: string)
    ensures PorEstado(b, org, ente) <==> ContaEstado(b, org) && |ente| == 7 && Pref2(ente) in PrefixosDe(b, Carteira(b, org))
  {
  }

  class Sessao {
    var banco: Banco
    var memo: Memo

    /** Nothing memorised contradicts the rows. */
    ghost predicate Coerente()
      reads this
    {
      forall org :: Fresca(banco, memo, org)
    }

    constructor (banco: Banco)
      ensures this.banco == banco && memo == VAZIO && Coerente()
    {
      this.banco, memo := banco, VAZIO;
    }

    method CoberturaLicenca(org: Org, dia: Dia) returns (r: Cobertura)
      modifies this`memo
      ensures r == old(VCobertura(banco, memo, org, dia))
      ensures SoLembrou(banco, old(memo), memo)
    {
      if (org, dia) in memo.licenca { return memo.licenca[(org, dia)]; }
      r := ResolveCobertura(Licencas(banco, org), dia);
      memo := memo.(licenca := memo.licenca[(org, dia) := r]);
    }

    method CarteiraIbges(org: Org) returns (r: seq<string>)
      modifies this`memo
      ensures r == old(VCarteira(banco, memo, org))
      ensures SoLembrou(banco, old(memo), memo)
    {
      if org in memo.carteira { return memo.carteira[org]; }
      r := Carteira(banco, org);
      memo := memo.(carteira := memo.carteira[org := r]);
    }

    method EstadoPrefixes(org: Org) returns (r: set<string>)
      modifies this`memo
      ensures r == old(VPrefixos(banco, memo, org))
      ensures SoLembrou(banco, old(memo), memo)
    {
      if org in memo.prefixos { return memo.prefixos[org]; }
      var carteira := CarteiraIbges(org);
      ghost var antes := memo;
      SeesTheSame(banco, old(memo), antes, org);
      r := ResolvePrefixos(banco, carteira);
      memo := memo.(prefixos := memo.prefixos[org := r]);
      assert SoLembrou(banco, antes, memo);
      RememberTwice(banco, old(memo), antes, memo);
    }

    method IsEstado(org: Org) returns (r: bool)
      modifies this`memo
      ensures r == old(VEstado(banco, memo, org))
      ensures SoLembrou(banco, old(memo), memo)
    {
      if org in memo.estado { return memo.estado[org]; }
      r := ContaEstado(banco, org);
      memo := memo.(estado := memo.estado[org := r]);
    }

    /** The gate. Out of scope comes before out of licence, so the second only names entities in scope. */
    method AssertEnteInScope(p: Principal, ente: string, dia: Dia) returns (r: Option<Erro>)
      modifies this`memo
      ensures r == old(if !Portao(banco, memo, p, ente) then Some(ForaDoEscopo(ente))
                       else if !Cobre(VCobertura(banco, memo, p.org.value, dia), ente) then Some(NaoLicenciado(ente))
                       else None)
      ensures SoLembrou(banco, old(memo), memo)
    {
      if p.org == None { return Some(ForaDoEscopo(ente)); }
      if p.escopoIbges.Some? && ente !in p.escopoIbges.value { return Some(ForaDoEscopo(ente)); }
      var org := p.org.value;
      var noEscopo := ente in Carteira(banco, org);
      if !noEscopo { noEscopo := MunicipioMonitorado(org, ente); }
      if !noEscopo { return Some(ForaDoEscopo(ente)); }
      ghost var m := memo;
      SeesTheSame(banco, old(memo), m, org);
      var c := CoberturaLicenca(org, dia);
      RememberTwice(banco, old(memo), m, memo);
      r := if Cobre(c, ente) then None else Some(NaoLicenciado(ente));
    }

    /** The state part of the gate, evaluated left to right as far as needed. */
    method MunicipioMonitorado(org: Org, ente: string) returns (r: bool)
      modifies this`memo
      ensures r == old(VEstado(banco, memo, org) && |ente| == 7 && Pref2(ente) in VPrefixos(banco, memo, org))
      ensures SoLembrou(banco, old(memo), memo)
    {
      r := IsEstado(org);
      ghost var m := memo;
      if !r || |ente| != 7 { return false; }
      SeesTheSame(banco, old(memo), m, org);
      var prefixos := EstadoPrefixes(org);
      RememberTwice(banco, old(memo), m, memo);
      r := Pref2(ente) in prefixos;
    }

    /** Every entity in scope at once. */
    method CarteiraScopeIbges(p: Principal, dia: Dia) returns (r: set<string>)
      modifies this`memo
      ensures forall e :: e in r <==> old(Conjunto(banco, memo, p, e) && Cobre(VCobertura(banco, memo, p.org.value, dia), e))
      ensures SoLembrou(banco, old(memo), memo)
    {
      if p.org == None { return {}; }
      var org := p.org.value;
      r := EscopoSemLicenca(org);
      ghost var m := memo;
      SeesTheSame(banco, old(memo), m, org);
      if p.escopoIbges.Some? { r := r * p.escopoIbges.value; }
      var c := CoberturaLicenca(org, dia);
      RememberTwice(banco, old(memo), m, memo);
      r := Filtrar(c, r);
    }

    method EscopoSemLicenca(org: Org) returns (r: set<string>)
      modifies this`memo
      ensures r == old((set c | c in VCarteira(banco, memo, org))
                       + if VEstado(banco, memo, org) then IbgesPorPrefixos(banco, VPrefixos(banco, memo, org)) else {})
      ensures SoLembrou(banco, old(memo), memo)
    {
      var carteira := CarteiraIbges(org);
      ghost var m1 := memo;
      SeesTheSame(banco, old(memo), m1, org);
      r := set c | c in carteira;
      var estado := IsEstado(org);
      ghost var m2 := memo;
      RememberTwice(banco, old(memo), m1, m2);
      SeesTheSame(banco, old(memo), m2, org);
      if estado {
        var prefixos := EstadoPrefixes(org);
        RememberTwice(banco, old(memo), m2, memo);
        r := r + IbgesPorPrefixos(banco, prefixos);
      }
    }

    /** The dependency of every route on one entity: in a coherent session it accepts exactly what is in scope. */
    method RequireEnteScope(ente: string, p: Principal, dia: Dia) returns (r: Result<string, Erro>)
      requires Coerente()
      modifies this`memo
      ensures Coerente()
      ensures r.Ok? <==> Alcanca(banco, p, ente, dia)
      ensures r.Ok? ==> r.value == ente
      ensures r.Err? && r.error.NaoLicenciado? <==>
        p.org.Some? && !Restrito(p, ente) && !Licenciado(banco, p.org.value, ente, dia)
        && (ente in Carteira(banco, p.org.value) || PorEstado(banco, p.org.value, ente))
    {
      ghost var m := memo;
      FreshMeansMeant(banco, m, p, ente, dia);
      if p.org.Some? { ScopeAndLicence(banco, m, p, ente, dia); }
      var erro := AssertEnteInScope(p, ente, dia);
      RememberKeepsFresh(banco, m, memo);
      r := if erro == None then Ok(ente) else Err(erro.value);
    }

    /** The aggregate views, in a coherent session: exactly the listed entities. */
    method EscopoDaCarteira(p: Principal, dia: Dia) returns (r: set<string>)
      requires Coerente()
      modifies this`memo
      ensures Coerente()
      ensures forall e :: e in r <==> Listado(banco, p, e, dia)
    {
      ghost var m := memo;
      r := CarteiraScopeIbges(p, dia);
      RememberKeepsFresh(banco, m, memo);
      forall e ensures e in r <==> Listado(banco, p, e, dia) {
        FreshMeansMeant(banco, m, p, e, dia);
      }
    }

    method InvalidarEscopoCarteira(org: Org)
      modifies this`memo
      ensures memo == old(memo).(carteira := old(memo).carteira - {org}, prefixos := old(memo).prefixos - {org})
    {
      memo := memo.(carteira := memo.carteira - {org}, prefixos := memo.prefixos - {org});
    }

    method InvalidarCobertura(org: Org)
      modifies this`memo
      ensures memo == SemOrg(old(memo), org)
    {
      memo := SemOrg(memo, org);
    }

    /** A change of the portfolio followed by its invalidator. */
    method AlterarCarteira(org: Org, nova: seq<string>)
      requires Coerente()
      modifies this
      ensures banco == old(banco).(carteiras := old(banco).carteiras[org := nova]) && Coerente()
    {
      banco := banco.(carteiras := banco.carteiras[org := nova]);
      InvalidarEscopoCarteira(org);
      forall o ensures Fresca(banco, memo, o) {
        assert old(Fresca(banco, memo, o));
        PortfolioChange(old(banco), old(memo), org, nova, o);
      }
    }

    /** A licence granted or altered, or the account type changed, followed by its invalidator. */
    method AlterarLicencas(org: Org, novas: seq<Licenca>)
      requires Coerente()
      modifies this
      ensures banco == old(banco).(licencas := old(banco).licencas[org := novas]) && Coerente()
    {
      banco := banco.(licencas := banco.licencas[org := novas]);
      InvalidarCobertura(org);
      forall o ensures Fresca(banco, memo, o) {
        assert old(Fresca(banco, memo, o));
        LicenceChange(old(banco), old(memo), org, novas, o);
      }
    }
  }

  function SemOrg(m: Memo, org: Org): Memo {
    Memo(map k | k in m.licenca && k.0 != org :: m.licenca[k], m.carteira - {org}, m.prefixos - {org}, m.estado - {org})
  }

  lemma PortfolioChange(b: Banco, m: Memo, org: Org, nova: seq<string>, o: Org)
    requires Fresca(b, m, o)
    ensures Fresca(b.(carteiras := b.carteiras[org := nova]), m.(carteira := m.carteira - {org}, prefixos := m.prefixos - {org}), o)
  {
    var b', m' := b.(carteiras := b.carteiras[org := nova]), m.(carteira := m.carteira - {org}, prefixos := m.prefixos - {org});
    assert forall c :: PrefixosDe(b', c) == PrefixosDe(b, c);
    forall dia ensures VCobertura(b', m', o, dia) == VCobertura(b', VAZIO, o, dia) {
      assert VCobertura(b, m, o, dia) == VCobertura(b, VAZIO, o, dia);
    }
  }

  lemma LicenceChange(b: Banco, m: Memo, org: Org, novas: seq<Licenca>, o: Org)
    requires Fresca(b, m, o)
    ensures Fresca(b.(licencas := b.licencas[org := novas]), SemOrg(m, org), o)
  {
    var b', m' := b.(licencas := b.licencas[org := novas]), SemOrg(m, org);
    assert forall c :: PrefixosDe(b', c) == PrefixosDe(b, c);
    forall dia ensures VCobertura(b', m', o, dia) == VCobertura(b', VAZIO, o, dia) {
      assert VCobertura(b, m, o, dia) == VCobertura(b, VAZIO, o, dia);
    }
  }

  /** Without the invalidator the set keeps an entity that the gate already refuses. */
  lemma StalePortfolioDiverges()
    ensures exists b, m, p, ente ::
      Conjunto(b, m, p, ente) && Cobre(VCobertura(b, m, p.org.value, 0), ente) && ente in b.catalogo && !Portao(b, m, p, ente)
  {
    var ente := "3550308";
    var l := Licenca("global", None, None, 0, None, LICENCA_ATIVA);
    var b := Banco(map[], map[1 := []], map[1 := [l]], map[ente := "municipal"]);
    var m := VAZIO.(carteira := map[1 := [ente]]);
    var p := Principal(Some(1), None);
    assert l in Licencas(b, 1) && VigenteEm(l, 0) && Abrange(l, ente);
    CoverageIsLicence(Licencas(b, 1), 0, ente);
    assert Conjunto(b, m, p, ente) && Cobre(VCobertura(b, m, p.org.value, 0), ente) && !Portao(b, m, p, ente);
  }

  // ---------------------------------------------------------------- batches

  /**
   * `carteira_lote`: what is covered and new enters, what is named and held leaves, in that order;
   * the memo is dropped exactly when something changed.
   */
  method CarteiraLote(s: Sessao, org: Org, adicionar: seq<string>, remover: seq<string>, dia: Dia)
    returns (adicionados: seq<string>, naoLicenciados: seq<string>, removidos: seq<string>)
    requires s.Coerente()
    modifies s
    ensures s.Coerente()
    ensures var antes := Carteira(old(s.banco), org);
      && (forall c :: c in adicionados <==> c in adicionar && c !in antes && Licenciado(old(s.banco), org, c, dia))
      && (forall c :: c in naoLicenciados <==> c in adicionar && c !in antes && !Licenciado(old(s.banco), org, c, dia))
      && (forall c :: c in removidos <==> c in remover && (c in antes || c in adicionados))
      && NoDup(adicionados)
    ensures forall c :: c in Carteira(s.banco, org) <==>
      c !in remover && (c in Carteira(old(s.banco), org) || c in adicionados)
    ensures forall o :: o != org ==> Carteira(s.banco, o) == Carteira(old(s.banco), o)
    ensures adicionados == [] && removidos == [] ==> s.banco == old(s.banco)
    ensures s.banco.licencas == old(s.banco).licencas && s.banco.catalogo == old(s.banco).catalogo && s.banco.contas == old(s.banco).contas
  {
    ghost var b0 := s.banco;
    ghost var m0 := s.memo;
    assert Fresca(s.banco, s.memo, org);
    var cobertura := s.CoberturaLicenca(org, dia);
    RememberKeepsFresh(b0, m0, s.memo);
    assert cobertura == VCobertura(b0, VAZIO, org, dia);
    var carteira := Carteira(s.banco, org);
    adicionados, naoLicenciados := AdicionaLote(carteira, adicionar, cobertura);
    forall c ensures Cobre(cobertura, c) <==> Licenciado(b0, org, c, dia) {
      CoverageIsLicence(Licencas(b0, org), dia, c);
    }
    var resto;
    resto, removidos := RemoveLote(carteira + adicionados, remover);
    if adicionados != [] || removidos != [] {
      s.AlterarCarteira(org, resto);
    } else {
      assert forall c :: c in remover ==> c !in removidos;
    }
  }

  method AdicionaLote(carteira: seq<string>, adicionar: seq<string>, cobertura: Cobertura)
    returns (adicionados: seq<string>, naoLicenciados: seq<string>)
    ensures forall c :: c in adicionados <==> c in adicionar && c !in carteira && Cobre(cobertura, c)
    ensures forall c :: c in naoLicenciados <==> c in adicionar && c !in carteira && !Cobre(cobertura, c)
    ensures NoDup(adicionados)
  {
    adicionados, naoLicenciados := [], [];
    for i := 0 to |adicionar|
      invariant forall c :: c in adicionados <==> c in adicionar[..i] && c !in carteira && Cobre(cobertura, c)
      invariant forall c :: c in naoLicenciados <==> c in adicionar[..i] && c !in carteira && !Cobre(cobertura, c)
      invariant NoDup(adicionados)
    {
      var c := adicionar[i];
      assert adicionar[..i + 1] == adicionar[..i] + [c];
      if c !in carteira && c !in adicionados {
        if !Cobre(cobertura, c) {
          naoLicenciados := naoLicenciados + [c];
        } else {
          NoDupConcat(adicionados, [c]);
          adicionados := adicionados + [c];
        }
      }
    }
    assert adicionar[..|adicionar|] == adicionar;
  }

  method RemoveLote(carteira: seq<string>, remover: seq<string>) returns (resto: seq<string>, removidos: seq<string>)
    ensures forall c :: c in resto <==> c in carteira && c !in remover
    ensures forall c :: c in removidos <==> c in carteira && c in remover
  {
    resto, removidos := carteira, [];
    for i := 0 to |remover|
      invariant forall c :: c in resto <==> c in carteira && c !in remover[..i]
      invariant forall c :: c in removidos <==> c in carteira && c in remover[..i]
    {
      var c := remover[i];
      assert remover[..i + 1] == remover[..i] + [c];
      if c in resto {
        resto := Retira(resto, c);
        removidos := removidos + [c];
      }
    }
    assert remover[..|remover|] == remover;
  }

  function Retira(s: seq<string>, c: string): (r: seq<string>)
    ensures forall x :: x in r <==> x in s && x != c
  {
    if s == [] then []
    else
      assert forall x :: x in s <==> x == s[0] || x in s[1..];
      (if s[0] == c then [] else [s[0]]) + Retira(s[1..], c)
  }
}
