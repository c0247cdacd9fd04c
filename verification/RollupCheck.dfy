/** The stored rows of the rollup, and the reconciliation that compares each parent with its children. */
module RollupCheck {
  import opened Basics
  import opened Pcasp
  import opened Rollup

  /** One row of the rollup table. */
  datatype No = No(
    conta: string, pai: Option<string>, nivel: nat, classe: nat, devedora: bool,
    saldoInicial: Option<int>, saldoFinal: Option<int>, temFilhos: bool)

  /** One currency unit, in cents. */
  const TOL: int := 100

  // ---------------------------------------------------------------- the checker, on any table

  /** The balance the checker reads for an account: its last row, or zero. */
  function SaldoDe(nos: seq<No>, conta: string): int {
    if nos == [] then 0
    else if nos[|nos| - 1].conta == conta then OuZero(nos[|nos| - 1].saldoFinal)
    else SaldoDe(nos[..|nos| - 1], conta)
  }

  /** The rows with this parent; None sums the roots. */
  function SomaDosFilhos(nos: seq<No>, pai: Option<string>): int {
    if nos == [] then 0
    else
      var n := nos[|nos| - 1];
      SomaDosFilhos(nos[..|nos| - 1], pai) + if n.pai == pai then OuZero(n.saldoFinal) else 0
  }

  function Diferenca(nos: seq<No>, conta: string): nat {
    Abs(SaldoDe(nos, conta) - SomaDosFilhos(nos, Some(conta)))
  }

  predicate EhPai(nos: seq<No>, conta: string) {
    exists i :: 0 <= i < |nos| && nos[i].pai == Some(conta)
  }

  ghost function Divergentes(nos: seq<No>): set<string> {
    set n | n in nos && n.pai.Some? && Diferenca(nos, n.pai.value) > TOL :: n.pai.value
  }

  /** The listed parents that are off. */
  ghost function Ruins(nos: seq<No>, pais: seq<string>): set<string> {
    set p | p in pais && Diferenca(nos, p) > TOL
  }

  lemma RuinsAppend(nos: seq<No>, pais: seq<string>, p: string)
    requires p !in pais
    ensures Ruins(nos, pais + [p]) == Ruins(nos, pais) + if Diferenca(nos, p) > TOL then {p} else {}
    ensures |Ruins(nos, pais + [p])| == |Ruins(nos, pais)| + if Diferenca(nos, p) > TOL then 1 else 0
  {
    assert forall x :: x in pais + [p] <==> x in pais || x == p;
    assert Ruins(nos, pais + [p]) == Ruins(nos, pais) + if Diferenca(nos, p) > TOL then {p} else {};
  }

  /** A parent and its only child are objected to exactly when their closing balances are more than one unit apart. */
  lemma ToleranceIsOneUnit(pai: No, filho: No, v: int, w: int)
    requires pai.conta != filho.conta && pai.pai == None && filho.pai == Some(pai.conta)
    requires pai.saldoFinal == Some(v) && filho.saldoFinal == Some(w)
    ensures Divergentes([pai, filho]) == if v - w > 100 || w - v > 100 then {pai.conta} else {}
  {
    var nos := [pai, filho];
    assert nos[..1] == [pai] && [pai][..0] == [];
    assert SaldoDe(nos, pai.conta) == SaldoDe([pai], pai.conta) == v;
    assert SomaDosFilhos(nos, Some(pai.conta)) == SomaDosFilhos([pai], Some(pai.conta)) + w == w;
    assert filho in nos;
  }

  /** A parent that has no row counts as zero. */
  lemma MissingParentIsZero(filho: No, w: int, p: string)
    requires filho.conta != p && filho.pai == Some(p) && filho.saldoFinal == Some(w)
    ensures Divergentes([filho]) == if w > 100 || w < -100 then {p} else {}
  {
    var nos := [filho];
    assert nos[..0] == [] && SaldoDe(nos, p) == SaldoDe([], p) == 0;
    assert SomaDosFilhos(nos, Some(p)) == w && filho in nos;
  }

  /** The first loop: what hangs below each parent, in order of appearance, and each own balance. */
  method AgrupaPorPai(nos: seq<No>) returns (pais: seq<string>, porPai: map<string, int>, saldos: map<string, int>)
    ensures NoDup(pais) && forall p :: p in pais <==> p in porPai
    ensures forall p :: p in porPai <==> EhPai(nos, p)
    ensures forall p :: p in porPai ==> porPai[p] == SomaDosFilhos(nos, Some(p))
    ensures forall c :: (if c in saldos then saldos[c] else 0) == SaldoDe(nos, c)
  {
    pais, porPai, saldos := [], map[], map[];
    for i := 0 to |nos|
      invariant NoDup(pais) && forall p :: p in pais <==> p in porPai
      invariant forall p :: p in porPai <==> EhPai(nos[..i], p)
      invariant forall p :: (if p in porPai then porPai[p] else 0) == SomaDosFilhos(nos[..i], Some(p))
      invariant forall c :: (if c in saldos then saldos[c] else 0) == SaldoDe(nos[..i], c)
    {
      var n := nos[i];
      ghost var antes := nos[..i];
      assert nos[..i + 1] == antes + [n];
      PrefixStep(antes, n);
      saldos := saldos[n.conta := OuZero(n.saldoFinal)];
      if n.pai.Some? {
        var p := n.pai.value;
        if p !in porPai {
          NoDupConcat(pais, [p]);
          pais := pais + [p];
        }
        porPai := porPai[p := (if p in porPai then porPai[p] else 0) + OuZero(n.saldoFinal)];
      }
    }
    assert nos[..|nos|] == nos;
  }

  lemma PrefixStep(antes: seq<No>, n: No)
    ensures forall p :: EhPai(antes + [n], p) <==> EhPai(antes, p) || n.pai == Some(p)
    ensures forall p :: SomaDosFilhos(antes + [n], Some(p)) == SomaDosFilhos(antes, Some(p)) + if n.pai == Some(p) then OuZero(n.saldoFinal) else 0
    ensures forall c :: SaldoDe(antes + [n], c) == if n.conta == c then OuZero(n.saldoFinal) else SaldoDe(antes, c)
  {
    var depois := antes + [n];
    assert depois[..|depois| - 1] == antes && depois[|antes|] == n;
    forall p ensures EhPai(depois, p) <==> EhPai(antes, p) || n.pai == Some(p) {
      if EhPai(antes, p) {
        var i :| 0 <= i < |antes| && antes[i].pai == Some(p);
        assert depois[i] == antes[i];
      }
    }
  }

  /**
   * `_rollup_check` is exact on any table: how many parents are off by more than the tolerance,
   * the worst gap, and a parent that has it.
   */
  method Check(nos: seq<No>) returns (divergencias: nat, pior: nat, exemplo: Option<string>)
    ensures divergencias == |Divergentes(nos)|
    ensures exemplo == None <==> Divergentes(nos) == {}
    ensures exemplo == None ==> pior == 0
    ensures exemplo.Some? ==> exemplo.value in Divergentes(nos) && Diferenca(nos, exemplo.value) == pior
    ensures forall p :: p in Divergentes(nos) ==> TOL < Diferenca(nos, p) <= pior
  {
    var pais, porPai, saldos := AgrupaPorPai(nos);
    divergencias, pior, exemplo := 0, 0, None;
    for i := 0 to |pais|
      invariant Achado(nos, Ruins(nos, pais[..i]), divergencias, pior, exemplo)
    {
      var cod := pais[i];
      assert cod in pais && cod in porPai;
      var dif := Abs((if cod in saldos then saldos[cod] else 0) - porPai[cod]);
      FoundStep(nos, pais, i, divergencias, pior, exemplo, dif);
      if dif > TOL {
        divergencias := divergencias + 1;
        if dif > pior {
          pior := dif;
          exemplo := Some(cod);
        }
      }
    }
    assert pais[..|pais|] == pais;
    DivergentesAreParents(nos, pais);
    forall p | p in Divergentes(nos) ensures TOL < Diferenca(nos, p) { assert p in Ruins(nos, pais); }
  }

  /** Count, worst gap and example of a set of parents that are off. */
  ghost predicate Achado(nos: seq<No>, ruins: set<string>, divergencias: nat, pior: nat, exemplo: Option<string>) {
    && divergencias == |ruins|
    && (exemplo == None ==> pior == 0 && ruins == {})
    && (exemplo.Some? ==> exemplo.value in ruins && Diferenca(nos, exemplo.value) == pior)
    && (forall p :: p in ruins ==> Diferenca(nos, p) <= pior)
  }

  lemma FoundStep(nos: seq<No>, pais: seq<string>, i: nat, divergencias: nat, pior: nat, exemplo: Option<string>, dif: nat)
    requires i < |pais| && NoDup(pais) && dif == Diferenca(nos, pais[i])
    requires Achado(nos, Ruins(nos, pais[..i]), divergencias, pior, exemplo)
    ensures if dif > TOL
      then Achado(nos, Ruins(nos, pais[..i + 1]), divergencias + 1, if dif > pior then dif else pior, if dif > pior then Some(pais[i]) else exemplo)
      else Achado(nos, Ruins(nos, pais[..i + 1]), divergencias, pior, exemplo)
  {
    assert pais[..i + 1] == pais[..i] + [pais[i]] && pais[i] !in pais[..i];
    RuinsAppend(nos, pais[..i], pais[i]);
  }

  lemma DivergentesAreParents(nos: seq<No>, pais: seq<string>)
    requires forall p :: p in pais <==> EhPai(nos, p)
    ensures Divergentes(nos) == Ruins(nos, pais)
  {
    forall p ensures p in Divergentes(nos) <==> p in Ruins(nos, pais) {
      if p in pais {
        var i :| 0 <= i < |nos| && nos[i].pai == Some(p);
        assert nos[i] in nos;
      }
      if p in Divergentes(nos) {
        var n :| n in nos && n.pai == Some(p);
        var i :| 0 <= i < |nos| && nos[i] == n;
      }
    }
  }

  // ---------------------------------------------------------------- the rows the materialiser writes

  function PaiDe(codigo: string): Option<string> {
    Mascara(Pai(CodigoDe(codigo)))
  }

  function Mascara(d: Option<D9>): Option<string> {
    match d case None => None case Some(p) => Some(Mask(p))
  }

  function NoDaConta(nos: Dict, codigo: string, temFilhos: bool): No {
    var d := CodigoDe(codigo);
    No(codigo, PaiDe(codigo), Nivel(d), Classe(d), Devedora(Classe(d)),
       Some(Get(nos, codigo, SI)), Some(Get(nos, codigo, SF)), temFilhos)
  }

  ghost predicate PaiNaOrdem(ordem: seq<string>, p: string) {
    exists j :: 0 <= j < |ordem| && PaiDe(ordem[j]) == Some(p)
  }

  lemma PaiNaOrdemAppend(ordem: seq<string>, c: string)
    ensures forall p :: PaiNaOrdem(ordem + [c], p) <==> PaiNaOrdem(ordem, p) || PaiDe(c) == Some(p)
  {
    var o := ordem + [c];
    forall p ensures PaiNaOrdem(o, p) <==> PaiNaOrdem(ordem, p) || PaiDe(c) == Some(p) {
      if PaiNaOrdem(ordem, p) {
        var j :| 0 <= j < |ordem| && PaiDe(ordem[j]) == Some(p);
        assert o[j] == ordem[j];
      }
      assert o[|ordem|] == c;
    }
  }

  /** `filhos_por_pai`: how many children each parent has. */
  method ContaFilhos(ordem: seq<string>) returns (filhosPorPai: map<string, nat>)
    ensures forall p :: (p in filhosPorPai && filhosPorPai[p] > 0) <==> PaiNaOrdem(ordem, p)
  {
    filhosPorPai := map[];
    for i := 0 to |ordem|
      invariant forall p :: (p in filhosPorPai && filhosPorPai[p] > 0) <==> PaiNaOrdem(ordem[..i], p)
    {
      assert ordem[..i + 1] == ordem[..i] + [ordem[i]];
      PaiNaOrdemAppend(ordem[..i], ordem[i]);
      var pai := PaiDe(ordem[i]);
      if pai.Some? {
        filhosPorPai := filhosPorPai[pai.value := (if pai.value in filhosPorPai then filhosPorPai[pai.value] else 0) + 1];
      }
    }
    assert ordem[..|ordem|] == ordem;
  }

  /** The last loops of `_materializar_msc_mes`: parent, level and whether something hangs below. */
  method MontaLinhas(nos: Dict) returns (rows: seq<No>)
    ensures |rows| == |nos.ordem|
    ensures forall i :: 0 <= i < |rows| ==> rows[i] == NoDaConta(nos, nos.ordem[i], PaiNaOrdem(nos.ordem, nos.ordem[i]))
  {
    var filhosPorPai := ContaFilhos(nos.ordem);
    rows := [];
    for i := 0 to |nos.ordem|
      invariant |rows| == i
      invariant forall k :: 0 <= k < i ==> rows[k] == NoDaConta(nos, nos.ordem[k], PaiNaOrdem(nos.ordem, nos.ordem[k]))
    {
      var cod := nos.ordem[i];
      rows := rows + [NoDaConta(nos, cod, cod in filhosPorPai && filhosPorPai[cod] > 0)];
    }
  }

  /** `has_children` is true exactly on rows that some row names as its parent. */
  lemma HasChildrenIsExact(nos: Dict, rows: seq<No>, i: nat)
    requires |rows| == |nos.ordem| && i < |rows|
    requires forall k :: 0 <= k < |rows| ==> rows[k] == NoDaConta(nos, nos.ordem[k], PaiNaOrdem(nos.ordem, nos.ordem[k]))
    ensures rows[i].temFilhos <==> EhPai(rows, rows[i].conta)
  {
    var p := rows[i].conta;
    if EhPai(rows, p) {
      var j :| 0 <= j < |rows| && rows[j].pai == Some(p);
      assert PaiDe(nos.ordem[j]) == Some(p);
    }
    if rows[i].temFilhos {
      var j :| 0 <= j < |nos.ordem| && PaiDe(nos.ordem[j]) == Some(p);
      assert rows[j].pai == Some(p);
    }
  }

  /** The row of one node. */
  ghost predicate LinhaDoNo(r: No, n: D9, linhas: seq<Linha>) {
    && r.conta == Mask(n) && r.pai == Mascara(Pai(n))
    && r.nivel == Nivel(n) && r.classe == Classe(n) && r.devedora == Devedora(Classe(n))
    && r.saldoInicial == Some(ComMultiplicidade(n, linhas, SI))
    && r.saldoFinal == Some(ComMultiplicidade(n, linhas, SF))
  }

  /** What the materialiser leaves for a set of lines: one row for each node. */
  ghost predicate LinhasDe(rows: seq<No>, ns: seq<D9>, linhas: seq<Linha>) {
    && |rows| == |ns| && NoDup(ns)
    && (forall n: D9 :: n in ns <==> EhNo(n, linhas))
    && (forall i :: 0 <= i < |rows| ==> LinhaDoNo(rows[i], ns[i], linhas) && (rows[i].temFilhos <==> EhPai(rows, rows[i].conta)))
  }

  /** The accounts of some rows. */
  function NosDasLinhas(rows: seq<No>): (ns: seq<D9>)
    ensures |ns| == |rows|
  {
    seq(|rows|, i requires 0 <= i < |rows| => CodigoDe(rows[i].conta))
  }

  lemma RowsAreNodes(nos: Dict, rows: seq<No>, linhas: seq<Linha>, i: nat)
    requires |rows| == |nos.ordem| && i < |rows|
    requires forall k :: 0 <= k < |rows| ==> rows[k] == NoDaConta(nos, nos.ordem[k], PaiNaOrdem(nos.ordem, nos.ordem[k]))
    requires exists n: D9 :: nos.ordem[i] == Mask(n) && EhNo(n, linhas)
    ensures var n := CodigoDe(nos.ordem[i]);
      nos.ordem[i] == Mask(n) && EhNo(n, linhas) && (rows[i].temFilhos <==> EhPai(rows, rows[i].conta))
  {
    var n: D9 :| nos.ordem[i] == Mask(n) && EhNo(n, linhas);
    MaskRoundTrip(n);
    HasChildrenIsExact(nos, rows, i);
  }

  /** From the monthly lines to the stored rows. */
  method MaterializarMscMes(linhas: seq<Linha>) returns (rows: seq<No>)
    ensures LinhasDe(rows, NosDasLinhas(rows), linhas)
  {
    var nos := Materializa(linhas);
    rows := MontaLinhas(nos);
    ghost var ns := NosDasLinhas(rows);
    forall i | 0 <= i < |ns|
      ensures nos.ordem[i] == Mask(ns[i]) && LinhaDoNo(rows[i], ns[i], linhas) && EhNo(ns[i], linhas)
           && (rows[i].temFilhos <==> EhPai(rows, rows[i].conta))
    {
      assert nos.ordem[i] in nos.ordem;
      RowsAreNodes(nos, rows, linhas, i);
    }
    forall n: D9 | EhNo(n, linhas) ensures n in ns {
      var i :| 0 <= i < |nos.ordem| && nos.ordem[i] == Mask(n);
      MaskInjective(ns[i], n);
    }
  }
}
