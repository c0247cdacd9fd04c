/**
 * The monthly rollup: balances are added per account, every account is posted to all its
 * ancestors, and the resulting nodes carry the value of everything below them.
 */
module Rollup {
  import opened Basics
  import opened Pcasp

  /** One line of the monthly balances: raw code and two amounts in cents, each possibly absent. */
  datatype Linha = Linha(conta: Option<string>, saldoInicial: Option<int>, saldoFinal: Option<int>)

  datatype Saldos = Saldos(si: int, sf: int)

  datatype Coluna = SI | SF

  function OuZero(v: Option<int>): int {
    if v.Some? then v.value else 0
  }

  function DaLinha(l: Linha, col: Coluna): int {
    if col == SI then OuZero(l.saldoInicial) else OuZero(l.saldoFinal)
  }

  function DosSaldos(s: Saldos, col: Coluna): int {
    if col == SI then s.si else s.sf
  }

  /** A Python dictionary: insertion order, and the two amounts kept under each key. */
  datatype Dict = Dict(ordem: seq<string>, si: map<string, int>, sf: map<string, int>)

  ghost predicate DictOk(d: Dict) {
    NoDup(d.ordem) && d.si.Keys == d.sf.Keys && forall k :: k in d.ordem <==> k in d.si
  }

  function Valores(d: Dict, col: Coluna): map<string, int> {
    if col == SI then d.si else d.sf
  }

  function Get(d: Dict, k: string, col: Coluna): int {
    var m := Valores(d, col);
    if k in m then m[k] else 0
  }

  /** `setdefault(k, zero)` followed by adding to both amounts. */
  function Acumula(d: Dict, k: string, v: Saldos): Dict {
    Dict(if k in d.si then d.ordem else d.ordem + [k],
         d.si[k := Get(d, k, SI) + v.si], d.sf[k := Get(d, k, SF) + v.sf])
  }

  lemma AcumulaChaves(d: Dict, k: string, v: Saldos)
    requires DictOk(d)
    ensures DictOk(Acumula(d, k, v))
    ensures Acumula(d, k, v).si.Keys == d.si.Keys + {k}
  {
    NoDupConcat(d.ordem, [k]);
  }

  lemma AcumulaOk(d: Dict, k: string, v: Saldos)
    requires DictOk(d)
    ensures DictOk(Acumula(d, k, v))
    ensures forall x :: x in Acumula(d, k, v).si <==> x in d.si || x == k
    ensures forall x, col :: Get(Acumula(d, k, v), x, col) == Get(d, x, col) + if x == k then DosSaldos(v, col) else 0
  {
    AcumulaChaves(d, k, v);
  }

  // ---------------------------------------------------------------- what the values should be

  /** What was posted on the account itself. */
  function Proprio(n: D9, linhas: seq<Linha>, col: Coluna): int {
    if linhas == [] then 0
    else
      var l := linhas[|linhas| - 1];
      Proprio(n, linhas[..|linhas| - 1], col) + if Digits9(l.conta) == Some(n) then DaLinha(l, col) else 0
  }

  /** Every line, as often as the ancestors of its code mention the node. */
  function ComMultiplicidade(n: D9, linhas: seq<Linha>, col: Coluna): int {
    if linhas == [] then 0
    else
      var l := linhas[|linhas| - 1];
      ComMultiplicidade(n, linhas[..|linhas| - 1], col)
      + match Digits9(l.conta) case None => 0 case Some(d) => Mult(n, d) * DaLinha(l, col)
  }

  /** Every line whose code truncates to the node. */
  function TotalAbaixo(n: D9, linhas: seq<Linha>, col: Coluna): int {
    if linhas == [] then 0
    else
      var l := linhas[|linhas| - 1];
      TotalAbaixo(n, linhas[..|linhas| - 1], col)
      + match Digits9(l.conta) case None => 0 case Some(d) => if Abaixo(n, d) then DaLinha(l, col) else 0
  }

  /** Every line that is a PCASP account at all. */
  function TotalGeral(linhas: seq<Linha>, col: Coluna): int {
    if linhas == [] then 0
    else
      var l := linhas[|linhas| - 1];
      TotalGeral(linhas[..|linhas| - 1], col) + if Digits9(l.conta).Some? then DaLinha(l, col) else 0
  }

  /** A single line counts with its opening balance in one column and its closing balance in the other; absent is zero. */
  lemma OneLine(n: D9, l: Linha, d: D9)
    requires Digits9(l.conta) == Some(d)
    ensures ComMultiplicidade(n, [l], SI) == Mult(n, d) * (if l.saldoInicial.Some? then l.saldoInicial.value else 0)
    ensures ComMultiplicidade(n, [l], SF) == Mult(n, d) * (if l.saldoFinal.Some? then l.saldoFinal.value else 0)
    ensures Proprio(d, [l], SI) == if l.saldoInicial.Some? then l.saldoInicial.value else 0
    ensures Proprio(d, [l], SF) == if l.saldoFinal.Some? then l.saldoFinal.value else 0
    ensures TotalGeral([l], SI) == if l.saldoInicial.Some? then l.saldoInicial.value else 0
    ensures TotalGeral([l], SF) == if l.saldoFinal.Some? then l.saldoFinal.value else 0
  {
    assert [l][..0] == [];
  }

  ghost predicate TemConta(n: D9, linhas: seq<Linha>) {
    exists i :: 0 <= i < |linhas| && Digits9(linhas[i].conta) == Some(n)
  }

  /** The node is an ancestor of some account, or one itself. */
  ghost predicate EhNo(n: D9, linhas: seq<Linha>) {
    exists d: D9 :: TemConta(d, linhas) && n in Ancestrais(d)
  }

  ghost predicate SemZerosInteriores(linhas: seq<Linha>) {
    forall i :: 0 <= i < |linhas| && Digits9(linhas[i].conta).Some? ==> SemZeroInterior(Digits9(linhas[i].conta).value)
  }

  // ---------------------------------------------------------------- the fold

  ghost predicate FolhaDe(folhas: Dict, linhas: seq<Linha>, d: D9) {
    && (TemConta(d, linhas) <==> Mask(d) in folhas.si)
    && Get(folhas, Mask(d), SI) == Proprio(d, linhas, SI)
    && Get(folhas, Mask(d), SF) == Proprio(d, linhas, SF)
  }

  ghost predicate EhMascara(k: string) {
    exists d: D9 :: k == Mask(d)
  }

  /** First loop: one entry per account, in order of first appearance. */
  ghost predicate FolhasDe(folhas: Dict, linhas: seq<Linha>) {
    && DictOk(folhas)
    && (forall k :: k in folhas.si ==> EhMascara(k))
    && (forall d: D9 :: FolhaDe(folhas, linhas, d))
  }

  method AgregaFolhas(linhas: seq<Linha>) returns (folhas: Dict)
    ensures FolhasDe(folhas, linhas)
  {
    folhas := Dict([], map[], map[]);
    for i := 0 to |linhas|
      invariant FolhasDe(folhas, linhas[..i])
    {
      var l := linhas[i];
      ghost var antes := linhas[..i];
      assert linhas[..i + 1] == antes + [l];
      match Digits9(l.conta) {
        case None =>
          IgnoraUma(folhas, antes, l);
        case Some(d) =>
          var v := Saldos(OuZero(l.saldoInicial), OuZero(l.saldoFinal));
          AgregaUma(folhas, antes, l, d);
          folhas := Acumula(folhas, Mask(d), v);
      }
    }
    assert linhas[..|linhas|] == linhas;
  }

  lemma NovaLinha(antes: seq<Linha>, l: Linha, d: D9)
    ensures TemConta(d, antes + [l]) <==> TemConta(d, antes) || Digits9(l.conta) == Some(d)
    ensures forall col ::
      (Proprio(d, antes + [l], col) == Proprio(d, antes, col) + if Digits9(l.conta) == Some(d) then DaLinha(l, col) else 0)
  {
    var depois := antes + [l];
    assert depois[..|depois| - 1] == antes && depois[|antes|] == l;
    if TemConta(d, antes) {
      var i :| 0 <= i < |antes| && Digits9(antes[i].conta) == Some(d);
      assert depois[i] == antes[i];
    }
  }

  lemma AgregaUma(folhas: Dict, antes: seq<Linha>, l: Linha, d: D9)
    requires FolhasDe(folhas, antes) && Digits9(l.conta) == Some(d)
    ensures FolhasDe(Acumula(folhas, Mask(d), Saldos(OuZero(l.saldoInicial), OuZero(l.saldoFinal))), antes + [l])
  {
    var v := Saldos(OuZero(l.saldoInicial), OuZero(l.saldoFinal));
    var depois := Acumula(folhas, Mask(d), v);
    AcumulaOk(folhas, Mask(d), v);
    assert EhMascara(Mask(d));
    var linhas := antes + [l];
    forall x: D9 ensures FolhaDe(depois, linhas, x) {
      NovaLinha(antes, l, x);
      MaskInjective(x, d);
      assert FolhaDe(folhas, antes, x);
    }
  }

  lemma IgnoraUma(folhas: Dict, antes: seq<Linha>, l: Linha)
    requires FolhasDe(folhas, antes) && Digits9(l.conta) == None
    ensures FolhasDe(folhas, antes + [l])
  {
    var linhas := antes + [l];
    forall x: D9 ensures FolhaDe(folhas, linhas, x) {
      NovaLinha(antes, l, x);
      assert FolhaDe(folhas, antes, x);
    }
  }

  /** `v` added `k` times. */
  function SomaRepetida(k: nat, v: int): int {
    if k == 0 then 0 else SomaRepetida(k - 1, v) + v
  }

  lemma {:induction false} RepeatedSumIsProduct(k: nat, v: int)
    ensures SomaRepetida(k, v) == k * v
  {
    if k > 0 { RepeatedSumIsProduct(k - 1, v); }
  }

  /** One amount of one node after posting to the first `k` ancestors, relative to before. */
  ghost predicate SomadoEm(antes: Dict, depois: Dict, d: D9, k: nat, v: Saldos, n: D9)
    requires k <= 7
  {
    && Get(depois, Mask(n), SI) == Get(antes, Mask(n), SI) + SomaRepetida(Ocorrencias(n, d, k), v.si)
    && Get(depois, Mask(n), SF) == Get(antes, Mask(n), SF) + SomaRepetida(Ocorrencias(n, d, k), v.sf)
  }

  /** The keys of the first `k` ancestors. */
  function ChavesAte(d: D9, k: nat): set<string>
    requires k <= 7
  {
    if k == 0 then {} else ChavesAte(d, k - 1) + {Mask(Truncate(d, k))}
  }

  lemma {:induction false} ChavesAteMembers(d: D9, k: nat, c: string)
    requires k <= 7
    ensures c in ChavesAte(d, k) <==> exists l: nat :: 1 <= l <= k && c == Mask(Truncate(d, l))
  {
    if k > 0 {
      ChavesAteMembers(d, k - 1, c);
    }
  }

  ghost predicate Somado(antes: Dict, depois: Dict, d: D9, k: nat, v: Saldos)
    requires k <= 7
  {
    && DictOk(depois)
    && (forall n: D9 :: SomadoEm(antes, depois, d, k, v, n))
    && depois.si.Keys == antes.si.Keys + ChavesAte(d, k)
  }

  /** Inner loop: one account's balances reach each of its ancestors. */
  method AcumulaFolha(nos: Dict, d: D9, v: Saldos) returns (r: Dict)
    requires DictOk(nos)
    ensures Somado(nos, r, d, Nivel(d), v)
  {
    r := nos;
    var lvl := 0;
    while lvl < Nivel(d)
      invariant 0 <= lvl <= Nivel(d)
      invariant Somado(nos, r, d, lvl, v)
    {
      SomaUm(nos, r, d, lvl, v);
      lvl := lvl + 1;
      r := Acumula(r, Mask(Truncate(d, lvl)), v);
    }
  }

  lemma SomaUm(nos: Dict, r: Dict, d: D9, lvl: nat, v: Saldos)
    requires lvl < 7 && Somado(nos, r, d, lvl, v)
    ensures Somado(nos, Acumula(r, Mask(Truncate(d, lvl + 1)), v), d, lvl + 1, v)
  {
    SomaUmaChave(nos, r, ChavesAte(d, lvl), Mask(Truncate(d, lvl + 1)), v);
    SomaUmValores(nos, r, d, lvl, v);
  }

  lemma SomaUmaChave(nos: Dict, r: Dict, chaves: set<string>, m: string, v: Saldos)
    requires DictOk(r) && r.si.Keys == nos.si.Keys + chaves
    ensures DictOk(Acumula(r, m, v)) && Acumula(r, m, v).si.Keys == nos.si.Keys + (chaves + {m})
  {
    AcumulaChaves(r, m, v);
  }

  lemma SomaUmValores(nos: Dict, r: Dict, d: D9, lvl: nat, v: Saldos)
    requires lvl < 7 && DictOk(r) && forall n: D9 :: SomadoEm(nos, r, d, lvl, v, n)
    ensures var r', k := Acumula(r, Mask(Truncate(d, lvl + 1)), v), lvl + 1; forall n: D9 :: SomadoEm(nos, r', d, k, v, n)
  {
    var r', k := Acumula(r, Mask(Truncate(d, lvl + 1)), v), lvl + 1;
    forall n: D9 ensures SomadoEm(nos, r', d, k, v, n) { SomaUmEm(nos, r, d, lvl, v, n); }
  }

  lemma SomaUmEm(nos: Dict, r: Dict, d: D9, lvl: nat, v: Saldos, n: D9)
    requires lvl < 7 && DictOk(r) && SomadoEm(nos, r, d, lvl, v, n)
    ensures SomadoEm(nos, Acumula(r, Mask(Truncate(d, lvl + 1)), v), d, lvl + 1, v, n)
  {
    MaskInjective(n, Truncate(d, lvl + 1));
    AcumulaOk(r, Mask(Truncate(d, lvl + 1)), v);
  }

  /** The codes of a dictionary whose keys are masks. */
  ghost predicate Mascaras(ordem: seq<string>, codigos: seq<D9>) {
    |ordem| == |codigos| && forall i :: 0 <= i < |ordem| ==> ordem[i] == Mask(codigos[i])
  }

  /** The amount that accounts `cs` bring to the node. */
  function SomaFolhas(n: D9, cs: seq<D9>, linhas: seq<Linha>, col: Coluna): int {
    if cs == [] then 0
    else
      var d := cs[|cs| - 1];
      SomaFolhas(n, cs[..|cs| - 1], linhas, col) + Mult(n, d) * Proprio(d, linhas, col)
  }

  lemma SomaFolhasAppend(n: D9, cs: seq<D9>, d: D9, linhas: seq<Linha>, col: Coluna)
    ensures SomaFolhas(n, cs + [d], linhas, col) == SomaFolhas(n, cs, linhas, col) + Mult(n, d) * Proprio(d, linhas, col)
  {
    assert (cs + [d])[..|cs|] == cs;
  }

  ghost predicate NoDe(nos: Dict, cs: seq<D9>, linhas: seq<Linha>, n: D9) {
    Get(nos, Mask(n), SI) == SomaFolhas(n, cs, linhas, SI) && Get(nos, Mask(n), SF) == SomaFolhas(n, cs, linhas, SF)
  }

  ghost predicate SobreAlguma(c: string, cs: seq<D9>) {
    exists d: D9 :: d in cs && c in ChavesAte(d, Nivel(d))
  }

  ghost predicate NosDe(nos: Dict, cs: seq<D9>, linhas: seq<Linha>) {
    && DictOk(nos)
    && (forall n: D9 :: NoDe(nos, cs, linhas, n))
    && (forall c :: c in nos.si <==> SobreAlguma(c, cs))
  }

  lemma NosStep(nos: Dict, depois: Dict, cs: seq<D9>, d: D9, linhas: seq<Linha>)
    requires NosDe(nos, cs, linhas)
    requires Somado(nos, depois, d, Nivel(d), Saldos(Proprio(d, linhas, SI), Proprio(d, linhas, SF)))
    ensures NosDe(depois, cs + [d], linhas)
  {
    var v := Saldos(Proprio(d, linhas, SI), Proprio(d, linhas, SF));
    var cs' := cs + [d];
    forall n: D9 ensures NoDe(depois, cs', linhas, n) {
      assert NoDe(nos, cs, linhas, n) && SomadoEm(nos, depois, d, Nivel(d), v, n);
      NoStep(nos, depois, cs, d, linhas, n);
    }
    forall c ensures SobreAlguma(c, cs') <==> SobreAlguma(c, cs) || c in ChavesAte(d, Nivel(d)) {
      MaisUmaConta(c, cs, d);
    }
  }

  lemma NoStep(nos: Dict, depois: Dict, cs: seq<D9>, d: D9, linhas: seq<Linha>, n: D9)
    requires NoDe(nos, cs, linhas, n)
    requires SomadoEm(nos, depois, d, Nivel(d), Saldos(Proprio(d, linhas, SI), Proprio(d, linhas, SF)), n)
    ensures NoDe(depois, cs + [d], linhas, n)
  {
    RepeatedSumIsProduct(Mult(n, d), Proprio(d, linhas, SI));
    RepeatedSumIsProduct(Mult(n, d), Proprio(d, linhas, SF));
    SomaFolhasAppend(n, cs, d, linhas, SI);
    SomaFolhasAppend(n, cs, d, linhas, SF);
  }

  lemma MaisUmaConta(c: string, cs: seq<D9>, d: D9)
    ensures SobreAlguma(c, cs + [d]) <==> SobreAlguma(c, cs) || c in ChavesAte(d, Nivel(d))
  {
    var cs' := cs + [d];
    if SobreAlguma(c, cs) {
      var e: D9 :| e in cs && c in ChavesAte(e, Nivel(e));
      assert e in cs';
    }
    assert d in cs' && forall e :: e in cs' ==> e in cs || e == d;
  }

  /** The account a mask stands for. */
  function CodigoDe(k: string): D9 {
    match Digits9(Some(k)) case Some(d) => d case None => "000000000"
  }

  /** The accounts of a dictionary of leaves, in order. */
  function Codigos(ordem: seq<string>): (cs: seq<D9>) {
    seq(|ordem|, i requires 0 <= i < |ordem| => CodigoDe(ordem[i]))
  }

  function SaldosDe(folhas: Dict, k: string): Saldos {
    Saldos(Get(folhas, k, SI), Get(folhas, k, SF))
  }

  lemma CodigosDasFolhas(folhas: Dict, linhas: seq<Linha>)
    requires FolhasDe(folhas, linhas)
    ensures Mascaras(folhas.ordem, Codigos(folhas.ordem)) && NoDup(Codigos(folhas.ordem))
    ensures forall d: D9 :: d in Codigos(folhas.ordem) <==> TemConta(d, linhas)
  {
    var cs := Codigos(folhas.ordem);
    forall i | 0 <= i < |cs| ensures folhas.ordem[i] == Mask(cs[i]) && TemConta(cs[i], linhas) {
      assert folhas.ordem[i] in folhas.ordem;
      var d: D9 :| folhas.ordem[i] == Mask(d);
      MaskRoundTrip(d);
      assert FolhaDe(folhas, linhas, d);
    }
    forall d: D9 | TemConta(d, linhas) ensures d in cs {
      assert FolhaDe(folhas, linhas, d);
      var i :| 0 <= i < |folhas.ordem| && folhas.ordem[i] == Mask(d);
      MaskInjective(cs[i], d);
    }
  }

  lemma LeafBalance(folhas: Dict, linhas: seq<Linha>, i: nat)
    requires FolhasDe(folhas, linhas) && i < |folhas.ordem|
    ensures var d := CodigoDe(folhas.ordem[i]);
      SaldosDe(folhas, folhas.ordem[i]) == Saldos(Proprio(d, linhas, SI), Proprio(d, linhas, SF))
  {
    CodigosDasFolhas(folhas, linhas);
    var d := Codigos(folhas.ordem)[i];
    assert folhas.ordem[i] == Mask(d) && FolhaDe(folhas, linhas, d);
  }

  lemma CodesPrefix(ordem: seq<string>, i: nat)
    requires i < |ordem|
    ensures Codigos(ordem)[..i + 1] == Codigos(ordem)[..i] + [CodigoDe(ordem[i])]
  {
  }

  /** One account of the second loop. */
  lemma FolhaStep(nos: Dict, r: Dict, folhas: Dict, linhas: seq<Linha>, i: nat)
    requires FolhasDe(folhas, linhas) && i < |folhas.ordem|
    requires NosDe(nos, Codigos(folhas.ordem)[..i], linhas)
    requires Somado(nos, r, CodigoDe(folhas.ordem[i]), Nivel(CodigoDe(folhas.ordem[i])), SaldosDe(folhas, folhas.ordem[i]))
    ensures NosDe(r, Codigos(folhas.ordem)[..i + 1], linhas)
  {
    var ordem, d := folhas.ordem, CodigoDe(folhas.ordem[i]);
    LeafBalance(folhas, linhas, i);
    CodesPrefix(ordem, i);
    NosStep(nos, r, Codigos(ordem)[..i], d, linhas);
  }

  /** `_materializar_msc_mes`: the node values, in order of first posting. */
  method Materializa(linhas: seq<Linha>) returns (nos: Dict)
    ensures DictOk(nos)
    ensures forall n: D9 :: Mask(n) in nos.si <==> EhNo(n, linhas)
    ensures forall c :: c in nos.si ==> exists n: D9 :: c == Mask(n) && EhNo(n, linhas)
    ensures forall n: D9 :: Get(nos, Mask(n), SI) == ComMultiplicidade(n, linhas, SI) && Get(nos, Mask(n), SF) == ComMultiplicidade(n, linhas, SF)
  {
    var folhas := AgregaFolhas(linhas);
    CodigosDasFolhas(folhas, linhas);
    ghost var cs := Codigos(folhas.ordem);
    nos := Dict([], map[], map[]);
    for i := 0 to |folhas.ordem|
      invariant NosDe(nos, cs[..i], linhas)
    {
      var codigo := folhas.ordem[i];
      var r := AcumulaFolha(nos, CodigoDe(codigo), SaldosDe(folhas, codigo));
      FolhaStep(nos, r, folhas, linhas, i);
      nos := r;
    }
    assert cs[..|cs|] == cs;
    FoldExact(nos, cs, linhas);
  }

  lemma FoldExact(nos: Dict, cs: seq<D9>, linhas: seq<Linha>)
    requires NosDe(nos, cs, linhas) && NoDup(cs) && forall d: D9 :: d in cs <==> TemConta(d, linhas)
    ensures forall n: D9 :: Mask(n) in nos.si <==> EhNo(n, linhas)
    ensures forall c :: c in nos.si ==> exists n: D9 :: c == Mask(n) && EhNo(n, linhas)
    ensures forall n: D9 :: Get(nos, Mask(n), SI) == ComMultiplicidade(n, linhas, SI) && Get(nos, Mask(n), SF) == ComMultiplicidade(n, linhas, SF)
  {
    FoldKeys(nos, cs, linhas);
    FoldValues(nos, cs, linhas);
  }

  lemma KeyIsNode(c: string, cs: seq<D9>, linhas: seq<Linha>) returns (n: D9)
    requires SobreAlguma(c, cs) && forall d: D9 :: d in cs <==> TemConta(d, linhas)
    ensures c == Mask(n) && EhNo(n, linhas)
  {
    var d: D9 :| d in cs && c in ChavesAte(d, Nivel(d));
    ChavesAteMembers(d, Nivel(d), c);
    var l: nat :| 1 <= l <= Nivel(d) && c == Mask(Truncate(d, l));
    n := Truncate(d, l);
    assert Ancestrais(d)[l - 1] == n;
  }

  lemma NodeIsKey(n: D9, cs: seq<D9>, linhas: seq<Linha>)
    requires EhNo(n, linhas) && forall d: D9 :: d in cs <==> TemConta(d, linhas)
    ensures SobreAlguma(Mask(n), cs)
  {
    var d: D9 :| TemConta(d, linhas) && n in Ancestrais(d);
    var i :| 0 <= i < |Ancestrais(d)| && Ancestrais(d)[i] == n;
    var l: nat := i + 1;
    assert 1 <= l <= Nivel(d) && Mask(n) == Mask(Truncate(d, l));
    ChavesAteMembers(d, Nivel(d), Mask(n));
    assert d in cs && Mask(n) in ChavesAte(d, Nivel(d));
  }

  lemma FoldKeys(nos: Dict, cs: seq<D9>, linhas: seq<Linha>)
    requires forall c :: c in nos.si <==> SobreAlguma(c, cs)
    requires forall d: D9 :: d in cs <==> TemConta(d, linhas)
    ensures forall n: D9 :: Mask(n) in nos.si <==> EhNo(n, linhas)
    ensures forall c :: c in nos.si ==> exists n: D9 :: c == Mask(n) && EhNo(n, linhas)
  {
    forall c | c in nos.si ensures exists n: D9 :: c == Mask(n) && EhNo(n, linhas) {
      var n := KeyIsNode(c, cs, linhas);
    }
    forall n: D9 ensures Mask(n) in nos.si <==> EhNo(n, linhas) {
      if Mask(n) in nos.si {
        var m := KeyIsNode(Mask(n), cs, linhas);
        MaskInjective(n, m);
      }
      if EhNo(n, linhas) { NodeIsKey(n, cs, linhas); }
    }
  }

  lemma FoldValues(nos: Dict, cs: seq<D9>, linhas: seq<Linha>)
    requires forall n: D9 :: NoDe(nos, cs, linhas, n)
    requires NoDup(cs) && forall d: D9 :: d in cs <==> TemConta(d, linhas)
    ensures forall n: D9 :: Get(nos, Mask(n), SI) == ComMultiplicidade(n, linhas, SI) && Get(nos, Mask(n), SF) == ComMultiplicidade(n, linhas, SF)
  {
    forall n: D9
      ensures Get(nos, Mask(n), SI) == ComMultiplicidade(n, linhas, SI) && Get(nos, Mask(n), SF) == ComMultiplicidade(n, linhas, SF)
    {
      assert NoDe(nos, cs, linhas, n);
      Regroup(n, cs, linhas, SI);
      Regroup(n, cs, linhas, SF);
    }
  }

  /** Adding account by account equals adding line by line. */
  lemma {:induction false} Regroup(n: D9, cs: seq<D9>, linhas: seq<Linha>, col: Coluna)
    requires NoDup(cs)
    requires forall d: D9 :: TemConta(d, linhas) ==> d in cs
    ensures SomaFolhas(n, cs, linhas, col) == ComMultiplicidade(n, linhas, col)
    decreases |linhas|
  {
    if linhas == [] {
      SomaFolhasEmpty(n, cs, col);
    } else {
      var antes, l := linhas[..|linhas| - 1], linhas[|linhas| - 1];
      assert linhas == antes + [l];
      forall d: D9 ensures TemConta(d, linhas) <==> TemConta(d, antes) || Digits9(l.conta) == Some(d) {
        NovaLinha(antes, l, d);
      }
      Regroup(n, cs, antes, col);
      SomaFolhasLine(n, cs, antes, l, col);
    }
  }

  lemma {:induction false} SomaFolhasEmpty(n: D9, cs: seq<D9>, col: Coluna)
    ensures SomaFolhas(n, cs, [], col) == 0
  {
    if cs != [] { SomaFolhasEmpty(n, cs[..|cs| - 1], col); }
  }

  /** What one more line adds to one account's contribution. */
  function Acrescimo(n: D9, e: D9, l: Linha, col: Coluna): int {
    if Digits9(l.conta) == Some(e) then Mult(n, e) * DaLinha(l, col) else 0
  }

  lemma OneAccountLine(n: D9, e: D9, antes: seq<Linha>, l: Linha, col: Coluna)
    ensures Mult(n, e) * Proprio(e, antes + [l], col) == Mult(n, e) * Proprio(e, antes, col) + Acrescimo(n, e, l, col)
  {
    NovaLinha(antes, l, e);
    Distributes(Mult(n, e), Proprio(e, antes, col), DaLinha(l, col));
  }

  lemma Distributes(m: int, x: int, y: int)
    ensures m * (x + y) == m * x + m * y
  {
  }

  lemma {:induction false} SomaFolhasLine(n: D9, cs: seq<D9>, antes: seq<Linha>, l: Linha, col: Coluna)
    requires NoDup(cs)
    ensures SomaFolhas(n, cs, antes + [l], col) == SomaFolhas(n, cs, antes, col)
      + match Digits9(l.conta) case None => 0 case Some(d) => if d in cs then Mult(n, d) * DaLinha(l, col) else 0
  {
    if cs != [] {
      var cs', e := cs[..|cs| - 1], cs[|cs| - 1];
      assert cs == cs' + [e];
      NoDupConcat(cs', [e]);
      SomaFolhasLine(n, cs', antes, l, col);
      OneAccountLine(n, e, antes, l, col);
    }
  }

  // ---------------------------------------------------------------- exactness

  /** Without interior zeros a node's value is the sum of all lines whose code truncates to it. */
  lemma {:induction false} ValueIsTotalBelow(n: D9, linhas: seq<Linha>, col: Coluna)
    requires SemZerosInteriores(linhas)
    ensures ComMultiplicidade(n, linhas, col) == TotalAbaixo(n, linhas, col)
  {
    if linhas != [] {
      var antes, l := linhas[..|linhas| - 1], linhas[|linhas| - 1];
      ValueIsTotalBelow(n, antes, col);
      if Digits9(l.conta).Some? { MultClean(n, Digits9(l.conta).value); }
    }
  }

  /**
   * The rollup is exact for every amount exactly when no posted code has an interior zero:
   * one such code is enough for some amounts to be counted more than once.
   */
  lemma RollupExactIff(d: D9)
    ensures (forall n: D9, v: int ::
               ComMultiplicidade(n, [Linha(Some(d), None, Some(v))], SF) == TotalAbaixo(n, [Linha(Some(d), None, Some(v))], SF))
            <==> SemZeroInterior(d)
  {
    MaskRoundTrip(d);
    if SemZeroInterior(d) {
      forall n: D9, v: int
        ensures ComMultiplicidade(n, [Linha(Some(d), None, Some(v))], SF) == TotalAbaixo(n, [Linha(Some(d), None, Some(v))], SF)
      {
        ValueIsTotalBelow(n, [Linha(Some(d), None, Some(v))], SF);
      }
    } else {
      MultExactIff(d);
      var n: D9 :| Mult(n, d) > 1;
      var ls := [Linha(Some(d), None, Some(1))];
      assert ls[..0] == [];
      assert ComMultiplicidade(n, ls, SF) == Mult(n, d) * 1;
      assert TotalAbaixo(n, ls, SF) <= 1;
    }
  }

  /** The sum over listed nodes with a given parent; None sums the classes. */
  function SomaFilhos(pai: Option<D9>, nos: seq<D9>, linhas: seq<Linha>, col: Coluna): int {
    if nos == [] then 0
    else
      var c := nos[|nos| - 1];
      SomaFilhos(pai, nos[..|nos| - 1], linhas, col) + if Pai(c) == pai then TotalAbaixo(c, linhas, col) else 0
  }

  /** Does a posting on `d` count among the children of `pai`? */
  predicate EmAlgumFilho(pai: Option<D9>, d: D9) {
    pai == None || (Abaixo(pai.value, d) && d != pai.value)
  }

  function TotalEmFilhos(pai: Option<D9>, linhas: seq<Linha>, col: Coluna): int {
    if linhas == [] then 0
    else
      var l := linhas[|linhas| - 1];
      TotalEmFilhos(pai, linhas[..|linhas| - 1], col)
      + match Digits9(l.conta) case None => 0 case Some(d) => if EmAlgumFilho(pai, d) then DaLinha(l, col) else 0
  }

  /** The only child of `pai` above `d`. */
  function FilhoAcima(pai: Option<D9>, d: D9): D9 {
    match pai
    case None => Truncate(d, 1)
    case Some(n) => Truncate(d, Min(Nivel(n) + 1, 7))
  }

  lemma ChildIsFilhoAcima(d: D9, c: D9)
    requires SemZeroInterior(d) && Abaixo(c, d)
    ensures EmAlgumFilho(Pai(c), d) && c == FilhoAcima(Pai(c), d)
  {
    if Nivel(c) > Nivel(d) { TruncateAtNivel(d, Nivel(c)); }
    if Nivel(c) > 1 {
      var n := Pai(c).value;
      TruncateTwice(d, Nivel(c), Nivel(c) - 1);
      CleanTruncate(d, Nivel(c) - 1);
      assert Nivel(n) == Nivel(c) - 1;
    }
  }

  lemma FilhoAcimaIsChild(pai: Option<D9>, d: D9)
    requires SemZeroInterior(d) && EmAlgumFilho(pai, d)
    ensures Pai(FilhoAcima(pai, d)) == pai && Abaixo(FilhoAcima(pai, d), d)
  {
    match pai {
      case None => CleanTruncate(d, 1);
      case Some(n) =>
        BelowIsDeeper(n, d);
        CleanTruncate(d, Nivel(n) + 1);
        TruncateTwice(d, Nivel(n) + 1, Nivel(n));
    }
  }

  lemma BelowIsDeeper(n: D9, d: D9)
    requires Abaixo(n, d) && d != n
    ensures Nivel(n) < Nivel(d)
  {
    if Nivel(n) >= Nivel(d) { TruncateAtNivel(d, Nivel(n)); }
  }

  /** A clean code lies below exactly one child of each of its proper ancestors. */
  lemma OneChildAbove(pai: Option<D9>, d: D9, c: D9)
    requires SemZeroInterior(d)
    ensures (Pai(c) == pai && Abaixo(c, d)) <==> (EmAlgumFilho(pai, d) && c == FilhoAcima(pai, d))
  {
    if Abaixo(c, d) { ChildIsFilhoAcima(d, c); }
    if EmAlgumFilho(pai, d) { FilhoAcimaIsChild(pai, d); }
  }

  /** Every account's ancestors are listed. */
  ghost predicate ListaAncestrais(nos: seq<D9>, linhas: seq<Linha>) {
    forall i, a :: 0 <= i < |linhas| && Digits9(linhas[i].conta).Some? && a in Ancestrais(Digits9(linhas[i].conta).value) ==> a in nos
  }

  lemma {:induction false} SomaFilhosEmpty(pai: Option<D9>, nos: seq<D9>, col: Coluna)
    ensures SomaFilhos(pai, nos, [], col) == 0
  {
    if nos != [] { SomaFilhosEmpty(pai, nos[..|nos| - 1], col); }
  }

  lemma {:induction false} SomaFilhosLine(pai: Option<D9>, nos: seq<D9>, antes: seq<Linha>, l: Linha, col: Coluna)
    requires NoDup(nos) && (Digits9(l.conta).Some? ==> SemZeroInterior(Digits9(l.conta).value))
    ensures SomaFilhos(pai, nos, antes + [l], col) == SomaFilhos(pai, nos, antes, col)
      + match Digits9(l.conta) case None => 0
        case Some(d) => if EmAlgumFilho(pai, d) && FilhoAcima(pai, d) in nos then DaLinha(l, col) else 0
  {
    if nos != [] {
      var nos', c := nos[..|nos| - 1], nos[|nos| - 1];
      assert nos == nos' + [c];
      NoDupConcat(nos', [c]);
      SomaFilhosLine(pai, nos', antes, l, col);
      var depois := antes + [l];
      assert depois[..|depois| - 1] == antes;
      if Digits9(l.conta).Some? { OneChildAbove(pai, Digits9(l.conta).value, c); }
    }
  }

  lemma ChildIsAncestor(pai: Option<D9>, d: D9)
    requires SemZeroInterior(d) && EmAlgumFilho(pai, d)
    ensures FilhoAcima(pai, d) in Ancestrais(d)
  {
    match pai {
      case None => assert Ancestrais(d)[0] == Truncate(d, 1);
      case Some(n) =>
        BelowIsDeeper(n, d);
        assert Ancestrais(d)[Nivel(n)] == Truncate(d, Nivel(n) + 1);
    }
  }

  lemma {:induction false} ChildrenHoldTheRest(pai: Option<D9>, nos: seq<D9>, linhas: seq<Linha>, col: Coluna)
    requires NoDup(nos) && SemZerosInteriores(linhas) && ListaAncestrais(nos, linhas)
    ensures SomaFilhos(pai, nos, linhas, col) == TotalEmFilhos(pai, linhas, col)
    decreases |linhas|
  {
    if linhas == [] {
      SomaFilhosEmpty(pai, nos, col);
    } else {
      var antes, l := linhas[..|linhas| - 1], linhas[|linhas| - 1];
      assert linhas == antes + [l];
      forall i, a | 0 <= i < |antes| && Digits9(antes[i].conta).Some? && a in Ancestrais(Digits9(antes[i].conta).value) ensures a in nos {
        assert antes[i] == linhas[i];
      }
      ChildrenHoldTheRest(pai, nos, antes, col);
      SomaFilhosLine(pai, nos, antes, l, col);
      if Digits9(l.conta).Some? && EmAlgumFilho(pai, Digits9(l.conta).value) {
        ChildIsAncestor(pai, Digits9(l.conta).value);
        assert Digits9(linhas[|linhas| - 1].conta).Some?;
      }
    }
  }

  lemma {:induction false} SplitOwnAndBelow(n: D9, linhas: seq<Linha>, col: Coluna)
    ensures TotalAbaixo(n, linhas, col) == Proprio(n, linhas, col) + TotalEmFilhos(Some(n), linhas, col)
    ensures TotalGeral(linhas, col) == TotalEmFilhos(None, linhas, col)
  {
    if linhas != [] {
      SplitOwnAndBelow(n, linhas[..|linhas| - 1], col);
      TruncateAtNivel(n, Nivel(n));
    }
  }

  /** A node's value is its own posting plus the values of its children. */
  lemma NodeIsOwnPlusChildren(n: D9, nos: seq<D9>, linhas: seq<Linha>, col: Coluna)
    requires NoDup(nos) && SemZerosInteriores(linhas) && ListaAncestrais(nos, linhas)
    ensures TotalAbaixo(n, linhas, col) == Proprio(n, linhas, col) + SomaFilhos(Some(n), nos, linhas, col)
  {
    ChildrenHoldTheRest(Some(n), nos, linhas, col);
    SplitOwnAndBelow(n, linhas, col);
  }

  /** Nothing is lost or invented: the classes together hold every line. */
  lemma ClassesConserve(nos: seq<D9>, linhas: seq<Linha>, col: Coluna)
    requires NoDup(nos) && SemZerosInteriores(linhas) && ListaAncestrais(nos, linhas)
    ensures SomaFilhos(None, nos, linhas, col) == TotalGeral(linhas, col)
  {
    ChildrenHoldTheRest(None, nos, linhas, col);
    SplitOwnAndBelow("000000000", linhas, col);
  }
}
