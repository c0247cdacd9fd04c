/**
 * What the checker finds on the materialiser's own rows: the gap at each node, and the charts of
 * posted accounts for which it is silent whatever the amounts.
 */
module RollupGap {
  import opened Basics
  import opened Pcasp
  import opened Rollup
  import opened RollupCheck
  import opened RollupPeso

  // ---------------------------------------------------------------- the checker's gap

  lemma RowsListAncestors(ns: seq<D9>, linhas: seq<Linha>)
    requires forall n: D9 :: n in ns <==> EhNo(n, linhas)
    ensures ListaAncestrais(ns, linhas)
  {
    forall i, a | 0 <= i < |linhas| && Digits9(linhas[i].conta).Some? && a in Ancestrais(Digits9(linhas[i].conta).value)
      ensures a in ns
    {
      assert TemConta(Digits9(linhas[i].conta).value, linhas);
      assert EhNo(a, linhas);
    }
  }

  /** The checker's two sums are the rollup's, while it walks the rows. */
  lemma {:induction false} CheckerSums(rows: seq<No>, ns: seq<D9>, linhas: seq<Linha>, n: D9, k: nat)
    requires |rows| == |ns| && k <= |rows|
    requires forall i :: 0 <= i < |rows| ==> LinhaDoNo(rows[i], ns[i], linhas)
    ensures SomaDosFilhos(rows[..k], Some(Mask(n))) == SomaFilhosGuardados(n, ns[..k], linhas)
  {
    if k > 0 {
      var j: nat := k - 1;
      CheckerSums(rows, ns, linhas, n, j);
      assert rows[..k][..j] == rows[..j] && ns[..k][..j] == ns[..j];
      assert LinhaDoNo(rows[j], ns[j], linhas);
      if Pai(ns[j]).Some? { MaskInjective(Pai(ns[j]).value, n); }
    }
  }

  lemma {:induction false} UniqueBalance(rows: seq<No>, ns: seq<D9>, j: nat, k: nat)
    requires |rows| == |ns| && NoDup(ns) && j < k <= |rows|
    requires forall i :: 0 <= i < |rows| ==> rows[i].conta == Mask(ns[i])
    ensures SaldoDe(rows[..k], Mask(ns[j])) == OuZero(rows[j].saldoFinal)
  {
    var m: nat := k - 1;
    assert rows[..k][..m] == rows[..m];
    MaskInjective(ns[m], ns[j]);
    if j < m {
      assert ns[j] != ns[m];
      UniqueBalance(rows, ns, j, m);
    }
  }

  /** For any lines the gap the checker sees at a node is exactly its excess over its children. */
  lemma GapIsExcess(rows: seq<No>, ns: seq<D9>, linhas: seq<Linha>, n: D9)
    requires LinhasDe(rows, ns, linhas) && n in ns
    ensures Diferenca(rows, Mask(n)) == Abs(Excesso(n, linhas))
  {
    var j :| 0 <= j < |ns| && ns[j] == n;
    assert forall i :: 0 <= i < |rows| ==> LinhaDoNo(rows[i], ns[i], linhas);
    UniqueBalance(rows, ns, j, |rows|);
    CheckerSums(rows, ns, linhas, n, |rows|);
    assert rows[..|rows|] == rows && ns[..|ns|] == ns;
    RowsListAncestors(ns, linhas);
    StoredChildren(n, ns, linhas);
    ExcessIsDifference(n, linhas);
  }

  /** An internal node: some node's parent. */
  ghost predicate Interno(n: D9, linhas: seq<Linha>) {
    exists c: D9 :: EhNo(c, linhas) && Pai(c) == Some(n)
  }

  /** The parent of a node is a node. */
  lemma ParentsAreNodes(c: D9, linhas: seq<Linha>)
    requires EhNo(c, linhas) && Pai(c).Some?
    ensures EhNo(Pai(c).value, linhas)
  {
    var d: D9 :| TemConta(d, linhas) && c in Ancestrais(d);
    ParentIsAncestor(c, d);
  }

  lemma ParentsInRows(rows: seq<No>, ns: seq<D9>, linhas: seq<Linha>, n: D9)
    requires LinhasDe(rows, ns, linhas)
    ensures EhPai(rows, Mask(n)) <==> Interno(n, linhas)
  {
    if EhPai(rows, Mask(n)) {
      var i :| 0 <= i < |rows| && rows[i].pai == Some(Mask(n));
      assert LinhaDoNo(rows[i], ns[i], linhas);
      MaskInjective(Pai(ns[i]).value, n);
      assert ns[i] in ns;
    }
    if Interno(n, linhas) {
      var c: D9 :| EhNo(c, linhas) && Pai(c) == Some(n);
      var i :| 0 <= i < |ns| && ns[i] == c;
      assert LinhaDoNo(rows[i], ns[i], linhas);
      assert rows[i].pai == Some(Mask(n));
    }
  }

  /** Every internal node's excess is within the tolerance. */
  ghost predicate Silencia(linhas: seq<Linha>) {
    forall n: D9 :: Interno(n, linhas) ==> Abs(Excesso(n, linhas)) <= TOL
  }

  lemma DivergesIff(rows: seq<No>, ns: seq<D9>, linhas: seq<Linha>, n: D9)
    requires LinhasDe(rows, ns, linhas)
    ensures Mask(n) in Divergentes(rows) <==> Interno(n, linhas) && Abs(Excesso(n, linhas)) > TOL
  {
    ParentsInRows(rows, ns, linhas, n);
    if EhPai(rows, Mask(n)) {
      var c: D9 :| EhNo(c, linhas) && Pai(c) == Some(n);
      ParentsAreNodes(c, linhas);
      GapIsExcess(rows, ns, linhas, n);
      var i :| 0 <= i < |rows| && rows[i].pai == Some(Mask(n));
      assert rows[i] in rows;
    }
  }

  /** On the materialiser's own rows the checker objects exactly to internal nodes with a large excess. */
  lemma CheckerFindsExcess(rows: seq<No>, ns: seq<D9>, linhas: seq<Linha>)
    requires LinhasDe(rows, ns, linhas)
    ensures forall n: D9 :: Mask(n) in Divergentes(rows) <==> Interno(n, linhas) && Abs(Excesso(n, linhas)) > TOL
    ensures Divergentes(rows) == {} <==> Silencia(linhas)
  {
    forall n: D9 ensures Mask(n) in Divergentes(rows) <==> Interno(n, linhas) && Abs(Excesso(n, linhas)) > TOL {
      DivergesIff(rows, ns, linhas, n);
    }
    if Silencia(linhas) {
      forall p ensures p !in Divergentes(rows) {
        if p in Divergentes(rows) {
          var n := DivergentIsNode(rows, ns, linhas, p);
        }
      }
    }
  }

  lemma DivergentIsNode(rows: seq<No>, ns: seq<D9>, linhas: seq<Linha>, p: string) returns (n: D9)
    requires LinhasDe(rows, ns, linhas) && p in Divergentes(rows)
    ensures p == Mask(n)
  {
    var r :| r in rows && r.pai == Some(p);
    var i :| 0 <= i < |rows| && rows[i] == r;
    assert LinhaDoNo(rows[i], ns[i], linhas);
    n := Pai(ns[i]).value;
  }

  // ---------------------------------------------------------------- clean codes

  lemma {:induction false} CleanExcess(n: D9, linhas: seq<Linha>)
    requires SemZerosInteriores(linhas)
    ensures Excesso(n, linhas) == Proprio(n, linhas, SF)
  {
    if linhas != [] {
      var antes, l := linhas[..|linhas| - 1], linhas[|linhas| - 1];
      assert forall i :: 0 <= i < |antes| ==> antes[i] == linhas[i];
      CleanExcess(n, antes);
      if Digits9(l.conta).Some? { CleanWeight(n, Digits9(l.conta).value); }
    }
  }

  /** For clean codes the gap is exactly what was posted on the node itself. */
  lemma GapIsOwnPosting(rows: seq<No>, ns: seq<D9>, linhas: seq<Linha>, n: D9)
    requires LinhasDe(rows, ns, linhas) && SemZerosInteriores(linhas) && n in ns
    ensures Diferenca(rows, Mask(n)) == Abs(Proprio(n, linhas, SF))
  {
    GapIsExcess(rows, ns, linhas, n);
    CleanExcess(n, linhas);
  }

  /** The class rows together hold every line posted on clean codes. */
  lemma ClassRowsConserve(rows: seq<No>, ns: seq<D9>, linhas: seq<Linha>)
    requires LinhasDe(rows, ns, linhas) && SemZerosInteriores(linhas)
    ensures SomaDosFilhos(rows, None) == TotalGeral(linhas, SF)
  {
    ClassSums(rows, ns, linhas, |rows|);
    assert rows[..|rows|] == rows && ns[..|ns|] == ns;
    RowsListAncestors(ns, linhas);
    ClassesConserve(ns, linhas, SF);
  }

  lemma {:induction false} ClassSums(rows: seq<No>, ns: seq<D9>, linhas: seq<Linha>, k: nat)
    requires |rows| == |ns| && k <= |rows| && SemZerosInteriores(linhas)
    requires forall i :: 0 <= i < |rows| ==> LinhaDoNo(rows[i], ns[i], linhas)
    ensures SomaDosFilhos(rows[..k], None) == SomaFilhos(None, ns[..k], linhas, SF)
  {
    if k > 0 {
      var j: nat := k - 1;
      ClassSums(rows, ns, linhas, j);
      assert rows[..k][..j] == rows[..j] && ns[..k][..j] == ns[..j];
      assert LinhaDoNo(rows[j], ns[j], linhas);
      ValueIsTotalBelow(ns[j], linhas, SF);
    }
  }

  /** A single line: the gap at each ancestor of its account. */
  lemma OneLineGap(d: D9, n: D9, v: int, rows: seq<No>, ns: seq<D9>)
    requires LinhasDe(rows, ns, [Linha(Some(d), None, Some(v))]) && n in Ancestrais(d)
    ensures Diferenca(rows, Mask(n)) == Abs(Peso(n, d) * v)
    ensures n != d ==> Proprio(n, [Linha(Some(d), None, Some(v))], SF) == 0
  {
    var ls := [Linha(Some(d), None, Some(v))];
    MaskRoundTrip(d);
    assert ls[..0] == [] && Digits9(ls[0].conta) == Some(d);
    assert TemConta(d, ls) && EhNo(n, ls);
    GapIsExcess(rows, ns, ls, n);
    assert SoUma(ls, 0, v);
    ExcessOfOne(n, ls, 0, d, v);
    if n != d { NothingPosted(n, ls, SF); }
  }

  /** 101000000 alone: its class is off by the whole amount, though nothing was posted on it. */
  lemma InteriorZeroGapExample(v: int, rows: seq<No>, ns: seq<D9>) returns (d: D9, n: D9)
    ensures d == "101000000" && n == "100000000"
    ensures LinhasDe(rows, ns, [Linha(Some(d), None, Some(v))]) ==>
      Diferenca(rows, Mask(n)) == Abs(v) && Proprio(n, [Linha(Some(d), None, Some(v))], SF) == 0
  {
    d, n := ExampleWeight();
    if LinhasDe(rows, ns, [Linha(Some(d), None, Some(v))]) { OneLineGap(d, n, v, rows, ns); }
  }

  lemma ExampleWeight() returns (d: D9, n: D9)
    ensures d == "101000000" && n == "100000000"
    ensures Peso(n, d) == 1 && n in Ancestrais(d) && n != d
  {
    d, n := "101000000", "100000000";
    InteriorZeroExample();
    ZeroOneChild(d, n);
    assert Ancestrais(d)[0] == n;
  }

  lemma ZeroOneChild(d: D9, n: D9)
    requires d == "101000000" && n == "100000000" && Nivel(d) == 3
    ensures MultFilhos(n, d) == 1
  {
    var um: nat := 1;
    var dois: nat := um + 1;
    var tres: nat := dois + 1;
    assert Truncate(d, um) == n && Truncate(d, dois) == n && Truncate(d, tres) == d;
    assert Pai(d) == Some(n);
    NivelOfTruncate(d, um);
    assert Pai(n) == None;
    assert FilhosAte(n, d, um) == FilhosAte(n, d, 0) && FilhosAte(n, d, dois) == FilhosAte(n, d, um);
    assert FilhosAte(n, d, tres) == FilhosAte(n, d, dois) + 1;
  }

  // ---------------------------------------------------------------- silent whatever the amounts

  /** The same accounts with given closing balances. */
  function ComValores(contas: seq<Option<string>>, vs: seq<int>): (r: seq<Linha>)
    requires |vs| == |contas|
    ensures |r| == |contas|
  {
    seq(|contas|, i requires 0 <= i < |contas| => Linha(contas[i], None, Some(vs[i])))
  }

  ghost predicate Lancada(d: D9, contas: seq<Option<string>>) {
    exists i :: 0 <= i < |contas| && Digits9(contas[i]) == Some(d)
  }

  ghost predicate TemFilhoLancado(n: D9, contas: seq<Option<string>>) {
    exists d: D9, c: D9 :: Lancada(d, contas) && c in Ancestrais(d) && Pai(c) == Some(n)
  }

  lemma AccountsDecide(contas: seq<Option<string>>, vs: seq<int>)
    requires |vs| == |contas|
    ensures forall d: D9 :: TemConta(d, ComValores(contas, vs)) <==> Lancada(d, contas)
    ensures forall n: D9 :: Interno(n, ComValores(contas, vs)) <==> TemFilhoLancado(n, contas)
  {
    var ls := ComValores(contas, vs);
    forall d: D9 ensures TemConta(d, ls) <==> Lancada(d, contas) {
      if Lancada(d, contas) {
        var i :| 0 <= i < |contas| && Digits9(contas[i]) == Some(d);
        assert ls[i].conta == contas[i];
      }
    }
    forall n: D9 ensures Interno(n, ls) <==> TemFilhoLancado(n, contas) {
      if Interno(n, ls) {
        var c: D9 :| EhNo(c, ls) && Pai(c) == Some(n);
        var d: D9 :| TemConta(d, ls) && c in Ancestrais(d);
      }
      if TemFilhoLancado(n, contas) {
        var d: D9, c: D9 :| Lancada(d, contas) && c in Ancestrais(d) && Pai(c) == Some(n);
        assert TemConta(d, ls) && EhNo(c, ls);
      }
    }
  }

  /** What the chart of posted accounts must be for the checker never to object. */
  ghost predicate ContasLimpas(contas: seq<Option<string>>) {
    forall d: D9 :: Lancada(d, contas) ==> SemZeroInterior(d) && !TemFilhoLancado(d, contas)
  }

  lemma CleanChartIsSilent(contas: seq<Option<string>>, vs: seq<int>)
    requires |vs| == |contas| && ContasLimpas(contas)
    ensures Silencia(ComValores(contas, vs))
  {
    var ls := ComValores(contas, vs);
    AccountsDecide(contas, vs);
    forall i | 0 <= i < |ls| && Digits9(ls[i].conta).Some? ensures SemZeroInterior(Digits9(ls[i].conta).value) {
      assert Lancada(Digits9(contas[i]).value, contas);
    }
    forall n: D9 | Interno(n, ls) ensures Abs(Excesso(n, ls)) <= TOL {
      CleanExcess(n, ls);
      NothingPosted(n, ls, SF);
    }
  }

  lemma LoudNode(contas: seq<Option<string>>, d: D9) returns (n: D9)
    requires Lancada(d, contas) && !(SemZeroInterior(d) && !TemFilhoLancado(d, contas))
    ensures Peso(n, d) >= 1 && TemFilhoLancado(n, contas)
  {
    n := d;
    if SemZeroInterior(d) {
      CleanWeight(d, d);
    } else {
      var c;
      n, c := DirtyWeight(d);
    }
  }

  function SoNaPosicao(m: nat, i: nat, v: int): (r: seq<int>)
    ensures |r| == m && forall k :: 0 <= k < m ==> r[k] == if k == i then v else 0
  {
    seq(m, k => if k == i then v else 0)
  }

  /** A posted account that is not clean, or not a leaf, has amounts that the checker objects to. */
  lemma LoudAmounts(contas: seq<Option<string>>, d: D9) returns (vs: seq<int>)
    requires Lancada(d, contas) && !(SemZeroInterior(d) && !TemFilhoLancado(d, contas))
    ensures |vs| == |contas| && !Silencia(ComValores(contas, vs))
  {
    var n := LoudNode(contas, d);
    var i: nat :| 0 <= i < |contas| && Digits9(contas[i]) == Some(d);
    vs := SoNaPosicao(|contas|, i, TOL + 1);
    var ls := ComValores(contas, vs);
    LoudLine(contas, vs, i, d, n);
    AccountsDecide(contas, vs);
    assert Interno(n, ls) && Abs(Excesso(n, ls)) > TOL;
  }

  lemma LoudLine(contas: seq<Option<string>>, vs: seq<int>, i: nat, d: D9, n: D9)
    requires i < |contas| && Digits9(contas[i]) == Some(d) && vs == SoNaPosicao(|contas|, i, TOL + 1) && Peso(n, d) >= 1
    ensures Abs(Excesso(n, ComValores(contas, vs))) > TOL
  {
    var ls := ComValores(contas, vs);
    assert ls[i].conta == contas[i] && SoUma(ls, i, TOL + 1);
    ExcessOfOne(n, ls, i, d, TOL + 1);
  }

  /**
   * For any posted accounts, materialise-then-check objects to no amounts at all if and only if no
   * code has an interior zero and no posted account is above another.
   */
  lemma AlwaysSilentIff(contas: seq<Option<string>>)
    ensures (forall vs: seq<int> | |vs| == |contas| :: Silencia(ComValores(contas, vs))) <==> ContasLimpas(contas)
  {
    if ContasLimpas(contas) {
      forall vs: seq<int> | |vs| == |contas| ensures Silencia(ComValores(contas, vs)) {
        CleanChartIsSilent(contas, vs);
      }
    } else {
      var d: D9 :| Lancada(d, contas) && !(SemZeroInterior(d) && !TemFilhoLancado(d, contas));
      var vs := LoudAmounts(contas, d);
    }
  }

  /** A single posted account: silent for every amount if and only if its code has no interior zero. */
  lemma OneAccountSilentIff(d: D9)
    ensures (forall vs: seq<int> | |vs| == 1 :: Silencia(ComValores([Some(d)], vs))) <==> SemZeroInterior(d)
  {
    var s: string := d;
    var contas := [Some(s)];
    MaskRoundTrip(d);
    AlwaysSilentIff(contas);
    assert Lancada(d, contas) by { assert Digits9(contas[0]) == Some(d); }
    assert forall e: D9 :: Lancada(e, contas) ==> e == d;
    if SemZeroInterior(d) && TemFilhoLancado(d, contas) {
      var c: D9 :| c in Ancestrais(d) && Pai(c) == Some(d);
      DeeperThanItself(d, c);
    }
  }

  lemma DeeperThanItself(d: D9, c: D9)
    requires c in Ancestrais(d)
    ensures Pai(c) != Some(d)
  {
    var l :| 0 <= l < |Ancestrais(d)| && Ancestrais(d)[l] == c;
    NivelOfTruncate(d, l + 1);
    if Pai(c).Some? { ParentIsAbove(c); }
  }

  /**
   * Materialise and check, for any lines: the reconciliation reports (0, 0, none) exactly when no
   * internal node exceeds its children by more than the tolerance.
   */
  method MaterializaEConfere(linhas: seq<Linha>) returns (divergencias: nat, pior: nat, exemplo: Option<string>)
    ensures (divergencias == 0 && pior == 0 && exemplo == None) <==> Silencia(linhas)
    ensures SemZerosInteriores(linhas) && (forall n: D9 :: Interno(n, linhas) ==> !TemConta(n, linhas)) ==>
      divergencias == 0 && pior == 0 && exemplo == None
  {
    var rows := MaterializarMscMes(linhas);
    divergencias, pior, exemplo := Check(rows);
    CheckerFindsExcess(rows, NosDasLinhas(rows), linhas);
    if SemZerosInteriores(linhas) && forall n: D9 :: Interno(n, linhas) ==> !TemConta(n, linhas) {
      forall n: D9 | Interno(n, linhas) ensures Abs(Excesso(n, linhas)) <= TOL {
        CleanExcess(n, linhas);
        NothingPosted(n, linhas, SF);
      }
    }
  }
}
