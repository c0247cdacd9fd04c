/**
 * The dimension of accounts: ltree paths built from the ancestors, and registration of a set
 * of codes with all their ancestors, parents before children.
 */
module Contas {
  import opened Basics
  import opened Ordenacao
  import opened Pcasp
  import opened Texto

  // ---------------------------------------------------------------- ltree labels and paths

  predicate LabelSafe(c: char) {
    ('A' <= c <= 'Z') || ('a' <= c <= 'z') || Digito(c) || c == '_'
  }

  function LtreeLabel(codigo: string): (r: string)
    ensures |r| == |codigo| && forall i :: 0 <= i < |r| ==> LabelSafe(r[i])
  {
    seq(|codigo|, i requires 0 <= i < |codigo| => if LabelSafe(codigo[i]) then codigo[i] else '_')
  }

  function MakePath(parentPath: Option<string>, codigo: string): string {
    if parentPath.Some? && parentPath.value != "" then parentPath.value + "." + LtreeLabel(codigo)
    else LtreeLabel(codigo)
  }

  /** The labels of the path of an account, from its class down. */
  function Labels(d: D9): (r: seq<string>)
    ensures |r| == Nivel(d) && forall i :: 0 <= i < |r| ==> r[i] == LtreeLabel(Mask(Truncate(d, i + 1)))
  {
    seq(Nivel(d), i requires 0 <= i < Nivel(d) => LtreeLabel(Mask(Truncate(d, i + 1))))
  }

  /** What `path @> other` compares: the labels between the dots. */
  function SplitDots(s: string): (r: seq<string>)
    ensures r != []
  {
    if s == "" then [""]
    else if s[0] == '.' then [""] + SplitDots(s[1..])
    else
      var rest := SplitDots(s[1..]);
      [[s[0]] + rest[0]] + rest[1..]
  }

  ghost predicate Dotless(s: string) {
    forall i :: 0 <= i < |s| ==> s[i] != '.'
  }

  lemma {:induction false} SplitOne(a: string)
    requires Dotless(a)
    ensures SplitDots(a) == [a]
  {
    if a != "" {
      SplitOne(a[1..]);
      assert a == [a[0]] + a[1..];
    }
  }

  lemma {:induction false} SplitHead(a: string, rest: string)
    requires Dotless(a)
    ensures SplitDots(a + "." + rest) == [a] + SplitDots(rest)
  {
    var s := a + "." + rest;
    if a == "" {
      assert s[1..] == rest;
    } else {
      SplitHead(a[1..], rest);
      assert s[1..] == a[1..] + "." + rest;
      assert a == [a[0]] + a[1..];
    }
  }

  /** Labels survive being joined and split again. */
  lemma {:induction false} SplitInvertsJoin(ls: seq<string>)
    requires ls != [] && forall i :: 0 <= i < |ls| ==> Dotless(ls[i])
    ensures SplitDots(JoinWith(ls, ".")) == ls
  {
    if |ls| == 1 {
      SplitOne(ls[0]);
    } else {
      SplitInvertsJoin(ls[1..]);
      SplitHead(ls[0], JoinWith(ls[1..], "."));
      assert ls == [ls[0]] + ls[1..];
    }
  }

  lemma {:induction false} JoinAppend(ls: seq<string>, l: string)
    requires ls != []
    ensures JoinWith(ls + [l], ".") == JoinWith(ls, ".") + "." + l
  {
    var all := ls + [l];
    assert all[1..] == ls[1..] + [l];
    if |ls| == 1 {
      assert all[1..] == [l];
    } else {
      JoinAppend(ls[1..], l);
    }
  }

  /** The stored path of an account. */
  function PathDe(d: D9): string {
    JoinWith(Labels(d), ".")
  }

  /** The path down to the i-th ancestor, extended by the next one. */
  lemma PathStep(d: D9, i: nat, pp: string)
    requires i < Nivel(d) && pp == JoinWith(Labels(d)[..i], ".") && (i > 0 ==> pp != "")
    ensures MakePath(if pp != "" then Some(pp) else None, Mask(Truncate(d, i + 1))) == JoinWith(Labels(d)[..i + 1], ".")
    ensures JoinWith(Labels(d)[..i + 1], ".") != ""
  {
    var labels := Labels(d);
    LabelsNonEmpty(d, i);
    LabelsNonEmpty(d, 0);
    assert labels[..i + 1] == labels[..i] + [labels[i]];
    if i > 0 { JoinAppend(labels[..i], labels[i]); }
  }

  /** The loop of `_upsert_conta` over the ancestors above the account. */
  method ComputeParentPath(d: D9) returns (pp: string)
    ensures pp == JoinWith(Labels(d)[..Nivel(d) - 1], ".") && (Nivel(d) > 1 ==> pp != "")
  {
    pp := "";
    var i, n := 0, Nivel(d) - 1;
    ghost var labels := Labels(d);
    while i < n
      invariant 0 <= i <= n < |labels|
      invariant pp == JoinWith(labels[..i], ".") && (i > 0 ==> pp != "")
    {
      var mascara := Mask(Truncate(d, i + 1));
      PathStep(d, i, pp);
      pp := MakePath(if pp != "" then Some(pp) else None, mascara);
      i := i + 1;
    }
  }

  /** The path of an account: its parent's, when there is one, and its own label. */
  method ComputePath(d: D9) returns (path: string)
    ensures path == PathDe(d)
  {
    var pp := ComputeParentPath(d);
    var n := Nivel(d);
    PathStep(d, n - 1, pp);
    TruncateAtNivel(d, n);
    assert Labels(d)[..n] == Labels(d);
    path := MakePath(if n > 1 then Some(pp) else None, Mask(d));
  }

  lemma LabelsNonEmpty(d: D9, i: nat)
    requires i < Nivel(d)
    ensures Labels(d)[i] != ""
  {
    MaskKeepsDigits(Truncate(d, i + 1));
  }

  lemma {:induction false} LabelKeepsDigits(s: string)
    ensures OnlyDigits(LtreeLabel(s)) == OnlyDigits(s)
  {
    if s != "" {
      LabelKeepsDigits(s[1..]);
      assert LtreeLabel(s)[1..] == LtreeLabel(s[1..]);
    }
  }

  /** Different accounts have different labels. */
  lemma LabelInjective(a: D9, b: D9)
    requires LtreeLabel(Mask(a)) == LtreeLabel(Mask(b))
    ensures a == b
  {
    LabelKeepsDigits(Mask(a));
    LabelKeepsDigits(Mask(b));
    MaskKeepsDigits(a);
    MaskKeepsDigits(b);
  }

  lemma PathLabels(d: D9)
    ensures SplitDots(PathDe(d)) == Labels(d)
  {
    SplitInvertsJoin(Labels(d));
  }

  lemma LabelsExtendParent(d: D9)
    requires Pai(d).Some? && Nivel(Pai(d).value) == Nivel(d) - 1
    ensures Labels(d) == Labels(Pai(d).value) + [LtreeLabel(Mask(d))]
  {
    var p := Pai(d).value;
    TruncateAtNivel(d, Nivel(d));
    forall i | 0 <= i < Nivel(p) ensures Labels(p)[i] == Labels(d)[i] {
      TruncateTwice(d, Nivel(d) - 1, i + 1);
    }
  }

  /**
   * A path is the parent's path plus the account's own label exactly when the parent sits one
   * level above, that is, when no zero segment separates them.
   */
  lemma PathExtendsParentIff(d: D9)
    requires Pai(d).Some?
    ensures PathDe(d) == PathDe(Pai(d).value) + "." + LtreeLabel(Mask(d)) <==> Nivel(Pai(d).value) == Nivel(d) - 1
  {
    var p := Pai(d).value;
    var l := LtreeLabel(Mask(d));
    JoinAppend(Labels(p), l);
    if Nivel(p) == Nivel(d) - 1 {
      LabelsExtendParent(d);
    }
    if PathDe(d) == PathDe(p) + "." + l {
      LabelDotless(Mask(d));
      SplitInvertsJoin(Labels(p) + [l]);
      PathLabels(d);
      assert |Labels(d)| == |Labels(p) + [l]|;
    }
  }

  lemma LabelDotless(s: string)
    ensures Dotless(LtreeLabel(s))
  {
  }

  /** For clean codes the parent always sits one level above. */
  lemma CleanPathExtendsParent(d: D9)
    requires Pai(d).Some? && SemZeroInterior(d)
    ensures PathDe(d) == PathDe(Pai(d).value) + "." + LtreeLabel(Mask(d))
  {
    CleanTruncate(d, Nivel(d) - 1);
    PathExtendsParentIff(d);
  }

  lemma AncestorLabels(a: D9, d: D9)
    requires Nivel(a) <= Nivel(d) && Truncate(d, Nivel(a)) == a
    ensures Labels(a) <= Labels(d)
  {
    forall i | 0 <= i < Nivel(a) ensures Labels(a)[i] == Labels(d)[i] {
      TruncateTwice(d, Nivel(a), i + 1);
    }
  }

  lemma PrefixLabels(a: D9, d: D9)
    requires Labels(a) <= Labels(d)
    ensures Nivel(a) <= Nivel(d) && Truncate(d, Nivel(a)) == a
  {
    var l: nat := Nivel(a) - 1;
    assert Labels(a)[l] == Labels(d)[l];
    TruncateAtNivel(a, Nivel(a));
    LabelInjective(a, Truncate(d, Nivel(a)));
  }

  /** One stored path is a label-prefix of another exactly when its account is the other or above it. */
  lemma PathPrefixIffAncestor(a: D9, d: D9)
    requires SemZeroInterior(a) && SemZeroInterior(d)
    ensures SplitDots(PathDe(a)) <= SplitDots(PathDe(d)) <==> Abaixo(a, d)
  {
    PathLabels(a);
    PathLabels(d);
    if Labels(a) <= Labels(d) { PrefixLabels(a, d); }
    if Abaixo(a, d) {
      if Nivel(a) > Nivel(d) { TruncateAtNivel(d, Nivel(a)); }
      AncestorLabels(a, d);
    }
  }

  // ---------------------------------------------------------------- registration

  predicate NivelCodigoLeq(a: D9, b: D9) {
    Nivel(a) < Nivel(b) || (Nivel(a) == Nivel(b) && LexLeq(Mask(a), Mask(b)))
  }

  lemma NivelCodigoOrder()
    ensures TotalPreorder(NivelCodigoLeq)
  {
    forall a: D9, b: D9 ensures NivelCodigoLeq(a, b) || NivelCodigoLeq(b, a) { LexTotal(Mask(a), Mask(b)); }
    forall a: D9, b: D9, c: D9 | NivelCodigoLeq(a, b) && NivelCodigoLeq(b, c) ensures NivelCodigoLeq(a, c) {
      if Nivel(a) == Nivel(b) == Nivel(c) { LexTransitive(Mask(a), Mask(b), Mask(c)); }
    }
  }

  /** Some raw code normalises to an account on or below `a`'s line. */
  ghost predicate NaLinhagem(a: D9, codigos: seq<string>) {
    exists i :: 0 <= i < |codigos| && Digits9(Some(codigos[i])).Some? && a in Ancestrais(Digits9(Some(codigos[i])).value)
  }

  /** The ancestors of all codes, without repetition. */
  method TodaLinhagem(codigos: seq<string>) returns (todos: seq<D9>)
    ensures NoDup(todos) && forall a: D9 :: a in todos <==> NaLinhagem(a, codigos)
  {
    todos := [];
    for i := 0 to |codigos|
      invariant NoDup(todos) && forall a: D9 :: a in todos <==> NaLinhagem(a, codigos[..i])
    {
      ghost var antes := codigos[..i];
      LinhagemStep(antes, codigos[i]);
      assert codigos[..i + 1] == antes + [codigos[i]];
      match Digits9(Some(codigos[i])) {
        case None =>
        case Some(d) =>
          todos := AcrescentaAncestrais(todos, d);
      }
    }
    assert codigos[..|codigos|] == codigos;
  }

  lemma LinhagemStep(antes: seq<string>, c: string)
    ensures forall a: D9 ::
      (NaLinhagem(a, antes + [c]) <==> NaLinhagem(a, antes) || (Digits9(Some(c)).Some? && a in Ancestrais(Digits9(Some(c)).value)))
  {
    var depois := antes + [c];
    assert depois[|antes|] == c && forall i :: 0 <= i < |antes| ==> depois[i] == antes[i];
  }

  method AcrescentaAncestrais(todos: seq<D9>, d: D9) returns (r: seq<D9>)
    requires NoDup(todos)
    ensures NoDup(r) && forall a: D9 :: a in r <==> a in todos || a in Ancestrais(d)
  {
    r := todos;
    var anc := Ancestrais(d);
    for k := 0 to |anc|
      invariant NoDup(r) && forall a: D9 :: a in r <==> a in todos || a in anc[..k]
    {
      assert anc[..k + 1] == anc[..k] + [anc[k]];
      if anc[k] !in r {
        NoDupConcat(r, [anc[k]]);
        r := r + [anc[k]];
      }
    }
    assert anc[..|anc|] == anc;
  }

  /** A lineage contains the parent of each of its members, interior zeros included. */
  lemma LineageIsParentClosed(a: D9, codigos: seq<string>)
    requires NaLinhagem(a, codigos) && Pai(a).Some?
    ensures NaLinhagem(Pai(a).value, codigos)
  {
    var i :| 0 <= i < |codigos| && Digits9(Some(codigos[i])).Some? && a in Ancestrais(Digits9(Some(codigos[i])).value);
    ParentIsAncestor(a, Digits9(Some(codigos[i])).value);
  }

  /** A row of dim_conta_pcasp. */
  datatype Conta = Conta(
    pai: Option<string>, nivel: nat, path: string, classe: nat, natureza: char, descricao: string, fonte: string)

  const NOMES_CLASSE: seq<string> := [
    "Ativo", "Passivo e Patrimônio Líquido", "Variação Patrimonial Diminutiva (VPD)",
    "Variação Patrimonial Aumentativa (VPA)", "Controles da Aprovação do Planejamento e Orçamento",
    "Controles da Execução do Planejamento e Orçamento", "Controles Devedores", "Controles Credores"]

  const NOMES_NIVEL: seq<string> := ["Classe", "Grupo", "Subgrupo", "Título", "Subtítulo", "Item", "Subitem"]

  /** The name of an account that nothing names. */
  function NomeNo(d: D9): (r: string)
    ensures r != ""
  {
    if Nivel(d) > 1 then Mask(d) + " · " + NOMES_NIVEL[Nivel(d) - 1]
    else if 1 <= Classe(d) <= 8 then NOMES_CLASSE[Classe(d) - 1]
    else "Classe " + d[..1]
  }

  function NaturezaClasse(classe: nat): char {
    if Devedora(classe) then 'D' else 'C'
  }

  /** The generic name of a class is its own, known or not; that of any other account begins with its code. */
  lemma GenericName(d: D9)
    ensures Nivel(d) > 1 ==> NomeNo(d) == Mask(d) + " · " + NOMES_NIVEL[Nivel(d) - 1]
    ensures Nivel(d) == 1 && d[0] == '1' ==> NomeNo(d) == "Ativo"
    ensures Nivel(d) == 1 && d[0] == '8' ==> NomeNo(d) == "Controles Credores"
    ensures Nivel(d) == 1 && (d[0] == '0' || d[0] == '9') ==> NomeNo(d) == "Classe " + [d[0]]
  {
    assert d[..1] == [d[0]];
  }

  /** The letters and digits of a code stay in its label, and anything else becomes an underscore. */
  lemma LabelOfCode(codigo: string, i: nat)
    requires i < |codigo|
    ensures var c := codigo[i];
      LtreeLabel(codigo)[i] == if '0' <= c <= '9' || 'A' <= c <= 'Z' || 'a' <= c <= 'z' || c == '_' then c else '_'
  {
  }

  /** One call of `_registrar_contas`: the given names, the static glossary and the source. */
  datatype Lote = Lote(nomes: map<string, Option<string>>, glossario: map<string, string>, fonte: string)
  {
    /** The name that overwrites; empty when there is none. */
    function Nome(d: D9): string {
      var cod := Mask(d);
      if cod in nomes && nomes[cod].Some? && nomes[cod].value != "" then nomes[cod].value
      else if cod in glossario then glossario[cod]
      else ""
    }

    /** The row of `d` after the upsert, given the row before it. */
    function ContaDe(d: D9, anterior: Option<Conta>): Conta {
      Conta(match Pai(d) case None => None case Some(p) => Some(Mask(p)), Nivel(d), PathDe(d), Classe(d),
            NaturezaClasse(Classe(d)),
            if Nome(d) != "" then Nome(d) else if anterior.Some? then anterior.value.descricao else NomeNo(d),
            fonte)
    }
  }

  function LinhaEm(contas: map<string, Conta>, cod: string): Option<Conta> {
    if cod in contas then Some(contas[cod]) else None
  }

  /** Every parent was written strictly before its child. */
  ghost predicate PaisAntes(escritas: seq<D9>) {
    forall i :: 0 <= i < |escritas| && Pai(escritas[i]).Some? ==>
      exists j :: 0 <= j < i && escritas[j] == Pai(escritas[i]).value
  }

  /**
   * The row of an account: its level, path, class and nature, and for all but a class the parent, which is
   * the last of its ancestors before itself and is in the table.
   */
  ghost predicate NoLugar(contas: map<string, Conta>, d: D9)
    requires Mask(d) in contas
  {
    var r := contas[Mask(d)];
    && r.nivel == Nivel(d) && r.path == PathDe(d) && r.classe == (d[0] - '0') as int
    && r.natureza == (if d[0] in {'1', '3', '5', '7', '9'} then 'D' else 'C')
    && (Nivel(d) == 1 ==> r.pai == None)
    && (Nivel(d) > 1 ==> r.pai == Some(Mask(Ancestrais(d)[Nivel(d) - 2])) && r.pai.value in contas)
  }

  /** Every row is the row of an account, in its place. */
  ghost predicate Arvore(contas: map<string, Conta>) {
    && (forall k :: k in contas ==> exists d: D9 :: k == Mask(d))
    && (forall d: D9 :: Mask(d) in contas ==> NoLugar(contas, d))
  }

  lemma RowInPlace(contas: map<string, Conta>, d: D9, lote: Lote, anterior: Option<Conta>)
    requires Pai(d).Some? ==> Mask(Pai(d).value) in contas
    ensures NoLugar(contas[Mask(d) := lote.ContaDe(d, anterior)], d)
  {
    NatureOfClass(d);
    if Nivel(d) > 1 { assert Ancestrais(d)[Nivel(d) - 2] == Pai(d).value; }
  }

  lemma UpsertKeepsTree(contas: map<string, Conta>, d: D9, lote: Lote, anterior: Option<Conta>)
    requires Arvore(contas) && (Pai(d).Some? ==> Mask(Pai(d).value) in contas)
    ensures Arvore(contas[Mask(d) := lote.ContaDe(d, anterior)])
  {
    var depois := contas[Mask(d) := lote.ContaDe(d, anterior)];
    forall e: D9 | Mask(e) in depois ensures NoLugar(depois, e) {
      MaskInjective(d, e);
      if e == d { RowInPlace(contas, d, lote, anterior); } else { assert NoLugar(contas, e); }
    }
  }

  /** From any row the parents lead, level by level, up to a class. */
  lemma TreeClimbs(contas: map<string, Conta>, k: string)
    requires Arvore(contas) && k in contas
    ensures contas[k].pai == None <==> contas[k].nivel == 1
    ensures contas[k].pai.Some? ==> contas[k].pai.value in contas && contas[contas[k].pai.value].nivel < contas[k].nivel
  {
    var d: D9 :| k == Mask(d);
    assert NoLugar(contas, d);
    if Nivel(d) > 1 {
      assert Ancestrais(d)[Nivel(d) - 2] == Pai(d).value;
      ParentIsAbove(d);
      assert NoLugar(contas, Pai(d).value);
    }
  }

  class Catalogo {
    const glossario: map<string, string>
    var contas: map<string, Conta>

    constructor (glossario: map<string, string>)
      ensures contas == map[] && this.glossario == glossario && Arvore(contas)
    {
      this.glossario, contas := glossario, map[];
    }

    /**
     * `_upsert_conta` with its INSERT or UPDATE; false is the foreign key refusing a row whose
     * parent is missing. Only a name, not the generic one, overwrites a description.
     */
    method UpsertConta(d: D9, descricao: Option<string>, fonte: string, ghost lote: Lote) returns (ok: bool)
      requires lote.glossario == glossario && lote.fonte == fonte
      requires descricao == Autoritativa(lote.nomes, Mask(d))
      modifies this
      ensures ok <==> (Pai(d).Some? ==> Mask(Pai(d).value) in old(contas))
      ensures contas == if ok then old(contas)[Mask(d) := lote.ContaDe(d, LinhaEm(old(contas), Mask(d)))] else old(contas)
      ensures old(Arvore(contas)) ==> Arvore(contas)
      ensures ok ==> Mask(d) in contas && contas[Mask(d)].fonte == fonte
      // only a name, given or from the glossary, replaces a description
      ensures ok ==> (contas[Mask(d)].descricao ==
          if descricao.Some? then descricao.value
          else if Mask(d) in glossario && glossario[Mask(d)] != "" then glossario[Mask(d)]
          else if Mask(d) in old(contas) then old(contas)[Mask(d)].descricao
          else NomeNo(d))
    {
      if Arvore(contas) && (Pai(d).Some? ==> Mask(Pai(d).value) in contas) {
        UpsertKeepsTree(contas, d, lote, LinhaEm(contas, Mask(d)));
      }
      ok := Pai(d).None? || Mask(Pai(d).value) in contas;
      if ok {
        var cod := Mask(d);
        var path := ComputePath(d);
        var pai := match Pai(d) case None => None case Some(p) => Some(Mask(p));
        var nome := if descricao.Some? then descricao.value else "";
        if nome == "" && cod in glossario { nome := glossario[cod]; }
        var nova := Conta(pai, Nivel(d), path, Classe(d), NaturezaClasse(Classe(d)), if nome != "" then nome else NomeNo(d), fonte);
        if cod in contas && nome == "" { nova := nova.(descricao := contas[cod].descricao); }
        contas := contas[cod := nova];
      }
    }

    /**
     * `_registrar_contas`: for any raw codes, what is written is closed under parents, each
     * parent comes strictly before its children, and the foreign key is never violated.
     */
    method RegistrarContas(codigos: seq<string>, nomes: map<string, Option<string>>, fonte: string)
      returns (ok: bool, escritas: seq<D9>)
      modifies this
      ensures ok
      ensures contas == Escrever(old(contas), escritas, Lote(nomes, glossario, fonte))
      ensures NoDup(escritas) && PaisAntes(escritas)
      ensures forall a: D9 :: a in escritas <==> NaLinhagem(a, codigos)
      ensures old(Arvore(contas)) ==> Arvore(contas)
    {
      var todos := TodaLinhagem(codigos);
      escritas := Sort(NivelCodigoLeq, todos);
      SortCorrect(NivelCodigoLeq, todos);
      SortNoDup(NivelCodigoLeq, todos);
      NivelCodigoOrder();
      SortedParentsFirst(escritas, codigos);
      ok := EscreveTodas(escritas, nomes, fonte);
    }

    /**
     * The registration inside `_materializar_msc_mes`: the nodes of the rollup, each with the
     * description it already has, which thereby counts as a given name.
     */
    method RegistrarMsc(nos: seq<D9>) returns (ok: bool, escritas: seq<D9>)
      requires forall n, a: D9 :: n in nos && a in Ancestrais(n) ==> a in nos
      modifies this
      ensures ok
      ensures contas == Escrever(old(contas), escritas, Lote(NomesEm(old(contas), nos), glossario, "msc"))
      ensures NoDup(escritas) && PaisAntes(escritas)
      ensures forall a: D9 :: a in escritas <==> a in nos
      ensures old(Arvore(contas)) ==> Arvore(contas)
    {
      var codigos: seq<string>, nomes: map<string, Option<string>> := [], map[];
      for i := 0 to |nos|
        invariant contas == old(contas) && nomes == NomesEm(contas, nos[..i])
        invariant |codigos| == i && forall k :: 0 <= k < i ==> codigos[k] == Mask(nos[k])
      {
        var cod := Mask(nos[i]);
        assert nos[..i + 1][..i] == nos[..i];
        nomes := nomes[cod := if cod in contas then Some(contas[cod].descricao) else None];
        codigos := codigos + [cod];
      }
      assert nos[..|nos|] == nos;
      ok, escritas := RegistrarContas(codigos, nomes, "msc");
      ClosedLineage(nos, codigos);
    }

    /** The writing loop: in an order with parents first no row is refused. */
    method EscreveTodas(escritas: seq<D9>, nomes: map<string, Option<string>>, fonte: string) returns (ok: bool)
      requires PaisAntes(escritas)
      modifies this
      ensures ok && contas == Escrever(old(contas), escritas, Lote(nomes, glossario, fonte))
      ensures old(Arvore(contas)) ==> Arvore(contas)
    {
      ghost var lote := Lote(nomes, glossario, fonte);
      ok := true;
      var i := 0;
      while i < |escritas| && ok
        invariant 0 <= i <= |escritas| && ok
        invariant contas == Escrever(old(contas), escritas[..i], lote)
        invariant old(Arvore(contas)) ==> Arvore(contas)
      {
        WriteStep(old(contas), escritas, lote, i);
        ok := UpsertConta(escritas[i], Autoritativa(nomes, Mask(escritas[i])), fonte, lote);
        i := i + 1;
      }
      assert escritas[..|escritas|] == escritas;
    }
  }

  /** What `autoritativas.get` finds: a given name that is not empty. */
  function Autoritativa(nomes: map<string, Option<string>>, cod: string): Option<string> {
    if cod in nomes && nomes[cod].Some? && nomes[cod].value != "" then nomes[cod] else None
  }

  /** The names `_materializar_msc_mes` passes: for each node what the table says of it. */
  function NomesEm(contas: map<string, Conta>, nos: seq<D9>): map<string, Option<string>> {
    if nos == [] then map[]
    else
      var n := |nos| - 1;
      var linha := LinhaEm(contas, Mask(nos[n]));
      NomesEm(contas, nos[..n])[Mask(nos[n]) := if linha.Some? then Some(linha.value.descricao) else None]
  }

  lemma {:induction false} NamesAreTheirs(contas: map<string, Conta>, nos: seq<D9>, d: D9)
    requires d in nos
    ensures Mask(d) in NomesEm(contas, nos)
    ensures NomesEm(contas, nos)[Mask(d)]
      == if Mask(d) in contas then Some(contas[Mask(d)].descricao) else None
  {
    var n := |nos| - 1;
    MaskInjective(nos[n], d);
    if d != nos[n] { NamesAreTheirs(contas, nos[..n], d); }
  }

  /** A set of nodes that holds its ancestors is its own lineage. */
  lemma ClosedLineage(nos: seq<D9>, codigos: seq<string>)
    requires |codigos| == |nos| && forall k :: 0 <= k < |nos| ==> codigos[k] == Mask(nos[k])
    requires forall n, a: D9 :: n in nos && a in Ancestrais(n) ==> a in nos
    ensures forall a: D9 :: NaLinhagem(a, codigos) <==> a in nos
  {
    forall k | 0 <= k < |nos| ensures Digits9(Some(codigos[k])) == Some(nos[k]) { MaskRoundTrip(nos[k]); }
    forall a: D9 | a in nos ensures NaLinhagem(a, codigos) {
      var k :| 0 <= k < |nos| && nos[k] == a;
      SelfIsAncestor(a);
      assert a in Ancestrais(nos[k]) && Digits9(Some(codigos[k])) == Some(a);
    }
  }

  /** The table after these rows were written, one after the other. */
  function Escrever(contas: map<string, Conta>, escritas: seq<D9>, lote: Lote): map<string, Conta> {
    if escritas == [] then contas
    else
      var d := escritas[|escritas| - 1];
      var antes := Escrever(contas, escritas[..|escritas| - 1], lote);
      antes[Mask(d) := lote.ContaDe(d, LinhaEm(antes, Mask(d)))]
  }

  lemma WriteStep(contas: map<string, Conta>, escritas: seq<D9>, lote: Lote, i: nat)
    requires PaisAntes(escritas) && i < |escritas|
    ensures Pai(escritas[i]).Some? ==> Mask(Pai(escritas[i]).value) in Escrever(contas, escritas[..i], lote)
    ensures var antes, cod := Escrever(contas, escritas[..i], lote), Mask(escritas[i]);
      Escrever(contas, escritas[..i + 1], lote) == antes[cod := lote.ContaDe(escritas[i], LinhaEm(antes, cod))]
  {
    assert escritas[..i + 1][..i] == escritas[..i];
    if Pai(escritas[i]).Some? {
      var j :| 0 <= j < i && escritas[j] == Pai(escritas[i]).value;
      assert escritas[..i][j] == escritas[j];
      WrittenIsThere(contas, escritas[..i], lote, escritas[j]);
    }
  }

  /** What one more write does to one row. */
  lemma LastWrite(contas: map<string, Conta>, escritas: seq<D9>, lote: Lote, d: D9)
    requires escritas != []
    ensures var n := |escritas| - 1;
      var antes := LinhaEm(Escrever(contas, escritas[..n], lote), Mask(d));
      LinhaEm(Escrever(contas, escritas, lote), Mask(d))
        == if escritas[n] == d then Some(lote.ContaDe(d, antes)) else antes
  {
    MaskInjective(escritas[|escritas| - 1], d);
  }

  /** A second write of the same call changes nothing. */
  lemma WriteTwice(d: D9, lote: Lote, anterior: Option<Conta>)
    ensures lote.ContaDe(d, Some(lote.ContaDe(d, anterior))) == lote.ContaDe(d, anterior)
  {
  }

  /**
   * Every account written holds the row that a single write on the first table would give it,
   * and no other row is touched.
   */
  lemma {:induction false} WrittenIsThere(contas: map<string, Conta>, escritas: seq<D9>, lote: Lote, d: D9)
    ensures var antes := LinhaEm(contas, Mask(d));
      LinhaEm(Escrever(contas, escritas, lote), Mask(d))
        == if d in escritas then Some(lote.ContaDe(d, antes)) else antes
  {
    if escritas != [] {
      var n := |escritas| - 1;
      LastWrite(contas, escritas, lote, d);
      WrittenIsThere(contas, escritas[..n], lote, d);
      WriteTwice(d, lote, LinhaEm(contas, Mask(d)));
      assert d in escritas <==> d in escritas[..n] || d == escritas[n];
    }
  }

  lemma SortedParentsFirst(escritas: seq<D9>, codigos: seq<string>)
    requires SortedBy(NivelCodigoLeq, escritas)
    requires forall a: D9 :: a in escritas <==> NaLinhagem(a, codigos)
    ensures PaisAntes(escritas)
  {
    forall i | 0 <= i < |escritas| && Pai(escritas[i]).Some?
      ensures exists j :: 0 <= j < i && escritas[j] == Pai(escritas[i]).value
    {
      var p := Pai(escritas[i]).value;
      LineageIsParentClosed(escritas[i], codigos);
      var j :| 0 <= j < |escritas| && escritas[j] == p;
      ParentIsAbove(escritas[i]);
      assert i == j || NivelCodigoLeq(escritas[Min(i, j)], escritas[Max(i, j)]);
    }
  }
}
