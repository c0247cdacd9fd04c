/**
 * The weight of an account at a node: how much more often a posting on it reaches the node than
 * the node's children, with any zeros in the code, and what this adds up to over all lines and
 * over the rows that are stored.
 */
module RollupPeso {
  import opened Basics
  import opened Pcasp
  import opened Rollup

  // ---------------------------------------------------------------- one posting, one node

  /** Among the first `k` ancestors of `d`, those whose parent is `n`. */
  function FilhosAte(n: D9, d: D9, k: nat): nat
    requires k <= 7
  {
    if k == 0 then 0 else FilhosAte(n, d, k - 1) + (if Pai(Truncate(d, k)) == Some(n) then 1 else 0)
  }

  /** How often a posting on `d` reaches children of `n`. */
  function MultFilhos(n: D9, d: D9): nat {
    FilhosAte(n, d, Nivel(d))
  }

  /** How much more often a posting on `d` reaches `n` than the children of `n`. */
  function Peso(n: D9, d: D9): int {
    Mult(n, d) - MultFilhos(n, d)
  }

  /** On a clean line the parent of each member is the member before it. */
  lemma CleanParent(d: D9, k: nat)
    requires SemZeroInterior(d) && 1 <= k <= Nivel(d)
    ensures Pai(Truncate(d, k)) == if k == 1 then None else Some(Truncate(d, k - 1))
    ensures k > 1 ==> Nivel(Truncate(d, k - 1)) == k - 1
  {
    CleanTruncate(d, k);
    if k > 1 {
      TruncateTwice(d, k, k - 1);
      CleanTruncate(d, k - 1);
    }
  }

  lemma {:induction false} ChildrenClean(n: D9, d: D9, k: nat)
    requires SemZeroInterior(d) && k <= Nivel(d)
    ensures FilhosAte(n, d, k) == (if Nivel(n) < k && Abaixo(n, d) then 1 else 0)
  {
    if k > 0 {
      ChildrenClean(n, d, k - 1);
      CleanParent(d, k);
    }
  }

  /** Without interior zeros only the account itself is reached more often than its children. */
  lemma CleanWeight(n: D9, d: D9)
    requires SemZeroInterior(d)
    ensures Peso(n, d) == (if n == d then 1 else 0)
  {
    MultClean(n, d);
    ChildrenClean(n, d, Nivel(d));
    TruncateAtNivel(d, Nivel(d));
    if Abaixo(n, d) && Nivel(n) >= Nivel(d) { TruncateAtNivel(d, Nivel(n)); }
  }

  lemma {:induction false} FilhosAtMost(n: D9, d: D9, l: nat, k: nat)
    requires k <= 7 && forall i :: 1 <= i <= k && Pai(Truncate(d, i)) == Some(n) ==> i == l
    ensures FilhosAte(n, d, k) <= (if l <= k then 1 else 0)
  {
    if k > 0 {
      var j: nat := k - 1;
      FilhosAtMost(n, d, l, j);
    }
  }

  /** The last interior zero. */
  lemma {:induction false} LastInteriorZero(d: D9, i: nat) returns (j: nat)
    requires 1 <= i < Nivel(d) - 1 && SegZero(d, i)
    ensures 1 <= j < Nivel(d) - 1 && SegZero(d, j)
    ensures forall m :: j < m < Nivel(d) - 1 ==> !SegZero(d, m)
    decreases 7 - i
  {
    j := i;
    if m: nat :| i < m < Nivel(d) - 1 && SegZero(d, m) {
      j := LastInteriorZero(d, m);
    }
  }

  lemma TruncatedNotDeeper(a: D9, l: nat)
    requires 1 <= l <= 7
    ensures Nivel(Truncate(a, l)) <= Nivel(a)
  {
    if l >= Nivel(a) { TruncateAtNivel(a, l); } else { NivelOfTruncate(a, l); }
  }

  /** Below the last interior zero every ancestor has its own level. */
  lemma OwnLevel(d: D9, j: nat, l: nat)
    requires 1 <= j < Nivel(d) - 1 && j + 2 <= l <= Nivel(d)
    requires forall m :: j < m < Nivel(d) - 1 ==> !SegZero(d, m)
    ensures Nivel(Truncate(d, l)) == l
  {
    NivelSegments(d);
    NivelOfTruncate(d, l);
    assert !SegZero(d, l - 1);
  }

  lemma NotChildAbove(d: D9, j: nat, l: nat)
    requires j < 7 && 1 <= l <= j + 1 && 1 <= Nivel(d)
    ensures Pai(Truncate(d, l)) != Some(Truncate(d, j + 1))
  {
    var k: nat := j + 1;
    TruncateTwice(d, k, l);
    TruncatedNotDeeper(Truncate(d, k), l);
    if Pai(Truncate(d, l)).Some? { ParentIsAbove(Truncate(d, l)); }
  }

  lemma ChildBelowIff(d: D9, j: nat, l: nat)
    requires 1 <= j < Nivel(d) - 1 && SegZero(d, j) && j + 2 <= l <= Nivel(d)
    requires forall m :: j < m < Nivel(d) - 1 ==> !SegZero(d, m)
    ensures Pai(Truncate(d, l)) == Some(Truncate(d, j + 1)) <==> l == j + 2
  {
    var k: nat := l - 1;
    OwnLevel(d, j, l);
    TruncateTwice(d, l, k);
    NivelOfTruncate(d, j + 1);
    if k > j + 1 { OwnLevel(d, j, k); }
  }

  /** Only the ancestor just below the last interior zero has the node above it as parent. */
  lemma OnlyChildBelowZero(d: D9, j: nat, l: nat)
    requires 1 <= j < Nivel(d) - 1 && SegZero(d, j) && 1 <= l <= Nivel(d)
    requires forall m :: j < m < Nivel(d) - 1 ==> !SegZero(d, m)
    ensures Pai(Truncate(d, l)) == Some(Truncate(d, j + 1)) <==> l == j + 2
  {
    if l >= j + 2 { ChildBelowIff(d, j, l); } else { NotChildAbove(d, j, l); }
  }

  /** An interior zero gives its line a node that is reached more often than its only child on the line. */
  lemma DirtyWeight(d: D9) returns (n: D9, c: D9)
    requires !SemZeroInterior(d)
    ensures Peso(n, d) >= 1 && n != d && c in Ancestrais(d) && Pai(c) == Some(n)
  {
    var i: nat :| 1 <= i < Nivel(d) - 1 && SegZero(d, i);
    var j := LastInteriorZero(d, i);
    TruncateStep(d, j);
    var l: nat := j + 2;
    n, c := Truncate(d, j + 1), Truncate(d, l);
    OcorrenciasTwice(n, d, j, j + 1, Nivel(d));
    forall m | 1 <= m <= Nivel(d) && Pai(Truncate(d, m)) == Some(n) ensures m == l {
      OnlyChildBelowZero(d, j, m);
    }
    FilhosAtMost(n, d, l, Nivel(d));
    OnlyChildBelowZero(d, j, l);
    assert Ancestrais(d)[l - 1] == c;
    NivelOfTruncate(d, j + 1);
  }

  // ---------------------------------------------------------------- all postings, one node

  /** The gap at a node: what its own value has beyond its children's. */
  function Excesso(n: D9, linhas: seq<Linha>): int {
    if linhas == [] then 0
    else
      var l := linhas[|linhas| - 1];
      Excesso(n, linhas[..|linhas| - 1])
      + match Digits9(l.conta) case None => 0 case Some(d) => Peso(n, d) * DaLinha(l, SF)
  }

  /** What reaches the children of a node. */
  function NosFilhos(n: D9, linhas: seq<Linha>): int {
    if linhas == [] then 0
    else
      var l := linhas[|linhas| - 1];
      NosFilhos(n, linhas[..|linhas| - 1])
      + match Digits9(l.conta) case None => 0 case Some(d) => MultFilhos(n, d) * DaLinha(l, SF)
  }

  lemma DistributesOverDifference(a: int, b: int, x: int)
    ensures (a - b) * x == a * x - b * x
  {
  }

  lemma {:induction false} ExcessIsDifference(n: D9, linhas: seq<Linha>)
    ensures Excesso(n, linhas) == ComMultiplicidade(n, linhas, SF) - NosFilhos(n, linhas)
  {
    if linhas != [] {
      var l := linhas[|linhas| - 1];
      ExcessIsDifference(n, linhas[..|linhas| - 1]);
      match Digits9(l.conta) {
        case None =>
        case Some(d) => DistributesOverDifference(Mult(n, d), MultFilhos(n, d), DaLinha(l, SF));
      }
    }
  }

  /** The stored values of the listed children of `n`. */
  function SomaFilhosGuardados(n: D9, ns: seq<D9>, linhas: seq<Linha>): int {
    if ns == [] then 0
    else
      var c := ns[|ns| - 1];
      SomaFilhosGuardados(n, ns[..|ns| - 1], linhas) + if Pai(c) == Some(n) then ComMultiplicidade(c, linhas, SF) else 0
  }

  /** How often the first `k` ancestors of `d` are listed children of `n`. */
  function Alcance(n: D9, ns: seq<D9>, d: D9, k: nat): nat
    requires k <= 7
  {
    if ns == [] then 0
    else
      var c := ns[|ns| - 1];
      Alcance(n, ns[..|ns| - 1], d, k) + if Pai(c) == Some(n) then Ocorrencias(c, d, k) else 0
  }

  lemma {:induction false} ReachStep(n: D9, ns: seq<D9>, d: D9, k: nat)
    requires NoDup(ns) && 1 <= k <= 7
    ensures Alcance(n, ns, d, k)
         == Alcance(n, ns, d, k - 1) + if Truncate(d, k) in ns && Pai(Truncate(d, k)) == Some(n) then 1 else 0
  {
    if ns != [] {
      var ns', c := ns[..|ns| - 1], ns[|ns| - 1];
      assert ns == ns' + [c];
      NoDupConcat(ns', [c]);
      ReachStep(n, ns', d, k);
    }
  }

  lemma {:induction false} ReachNothing(n: D9, ns: seq<D9>, d: D9)
    ensures Alcance(n, ns, d, 0) == 0
  {
    if ns != [] { ReachNothing(n, ns[..|ns| - 1], d); }
  }

  /** Child by child or level by level, the count is the same. */
  lemma {:induction false} ReachIsByLevel(n: D9, ns: seq<D9>, d: D9, k: nat)
    requires NoDup(ns) && k <= 7 && forall l :: 1 <= l <= k ==> Truncate(d, l) in ns
    ensures Alcance(n, ns, d, k) == FilhosAte(n, d, k)
  {
    if k == 0 {
      ReachNothing(n, ns, d);
    } else {
      var j: nat := k - 1;
      ReachIsByLevel(n, ns, d, j);
      ReachStep(n, ns, d, k);
    }
  }

  lemma DistributesOverSum(a: int, b: int, x: int)
    ensures (a + b) * x == a * x + b * x
  {
  }

  lemma {:induction false} StoredChildrenLine(n: D9, ns: seq<D9>, antes: seq<Linha>, l: Linha)
    ensures SomaFilhosGuardados(n, ns, antes + [l]) == SomaFilhosGuardados(n, ns, antes)
      + match Digits9(l.conta) case None => 0 case Some(d) => Alcance(n, ns, d, Nivel(d)) * DaLinha(l, SF)
  {
    var depois := antes + [l];
    assert depois[..|depois| - 1] == antes && depois[|depois| - 1] == l;
    if ns != [] {
      var ns', c := ns[..|ns| - 1], ns[|ns| - 1];
      StoredChildrenLine(n, ns', antes, l);
      match Digits9(l.conta) {
        case None =>
        case Some(d) =>
          DistributesOverSum(Alcance(n, ns', d, Nivel(d)), if Pai(c) == Some(n) then Mult(c, d) else 0, DaLinha(l, SF));
      }
    }
  }

  lemma {:induction false} StoredChildrenEmpty(n: D9, ns: seq<D9>)
    ensures SomaFilhosGuardados(n, ns, []) == 0
  {
    if ns != [] { StoredChildrenEmpty(n, ns[..|ns| - 1]); }
  }

  /** The children listed hold exactly what reaches them. */
  lemma {:induction false} StoredChildren(n: D9, ns: seq<D9>, linhas: seq<Linha>)
    requires NoDup(ns) && ListaAncestrais(ns, linhas)
    ensures SomaFilhosGuardados(n, ns, linhas) == NosFilhos(n, linhas)
    decreases |linhas|
  {
    if linhas == [] {
      StoredChildrenEmpty(n, ns);
    } else {
      var antes, l := linhas[..|linhas| - 1], linhas[|linhas| - 1];
      assert linhas == antes + [l];
      forall i, a | 0 <= i < |antes| && Digits9(antes[i].conta).Some? && a in Ancestrais(Digits9(antes[i].conta).value) ensures a in ns {
        assert antes[i] == linhas[i];
      }
      StoredChildren(n, ns, antes);
      StoredChildrenLine(n, ns, antes, l);
      match Digits9(l.conta) {
        case None =>
        case Some(d) =>
          LineListed(ns, linhas, d);
          ReachIsByLevel(n, ns, d, Nivel(d));
      }
    }
  }

  lemma LineListed(ns: seq<D9>, linhas: seq<Linha>, d: D9)
    requires ListaAncestrais(ns, linhas) && linhas != [] && Digits9(linhas[|linhas| - 1].conta) == Some(d)
    ensures forall l :: 1 <= l <= Nivel(d) ==> Truncate(d, l) in ns
  {
    var i: nat := |linhas| - 1;
    forall l | 1 <= l <= Nivel(d) ensures Truncate(d, l) in ns {
      assert Ancestrais(d)[l - 1] == Truncate(d, l);
      assert Digits9(linhas[i].conta).Some?;
    }
  }

  // ---------------------------------------------------------------- a single amount, or none

  /** Only the i-th line has an amount. */
  ghost predicate SoUma(linhas: seq<Linha>, i: nat, v: int) {
    i < |linhas| && forall k :: 0 <= k < |linhas| ==> DaLinha(linhas[k], SF) == if k == i then v else 0
  }

  lemma {:induction false} ExcessOfZeros(n: D9, linhas: seq<Linha>)
    requires forall k :: 0 <= k < |linhas| ==> DaLinha(linhas[k], SF) == 0
    ensures Excesso(n, linhas) == 0
  {
    if linhas != [] {
      var j: nat := |linhas| - 1;
      ExcessOfZeros(n, linhas[..j]);
      if Digits9(linhas[j].conta).Some? { TimesZero(Peso(n, Digits9(linhas[j].conta).value)); }
    }
  }

  lemma TimesZero(x: int)
    ensures x * 0 == 0
  {
  }

  lemma {:induction false} ExcessOfOne(n: D9, linhas: seq<Linha>, i: nat, d: D9, v: int)
    requires SoUma(linhas, i, v) && Digits9(linhas[i].conta) == Some(d)
    ensures Excesso(n, linhas) == Peso(n, d) * v
  {
    var j: nat := |linhas| - 1;
    var antes := linhas[..j];
    assert forall k :: 0 <= k < j ==> antes[k] == linhas[k];
    assert DaLinha(linhas[j], SF) == if j == i then v else 0;
    if i == j {
      ExcessOfZeros(n, antes);
    } else {
      ExcessOfOne(n, antes, i, d, v);
      if Digits9(linhas[j].conta).Some? { TimesZero(Peso(n, Digits9(linhas[j].conta).value)); }
    }
  }

  lemma {:induction false} NothingPosted(n: D9, linhas: seq<Linha>, col: Coluna)
    requires !TemConta(n, linhas)
    ensures Proprio(n, linhas, col) == 0
  {
    if linhas != [] {
      var j: nat := |linhas| - 1;
      var antes := linhas[..j];
      assert forall i :: 0 <= i < |antes| ==> antes[i] == linhas[i];
      NothingPosted(n, antes, col);
      assert Digits9(linhas[j].conta) != Some(n);
    }
  }
}
