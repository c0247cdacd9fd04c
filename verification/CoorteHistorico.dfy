/**
 * The history of cohort definitions: two row triggers keep a table of versions beside the live
 * table, so that any past instant can be answered with the row as it was then.
 */
module CoorteHistorico {
  import opened Basics
  import opened Ordenacao

  datatype Definicao = Definicao(
    codigo: string, criterio: string, faixa: string, rotulo: string, unidade: Option<string>,
    limiteInferior: Option<int>, limiteSuperior: Option<int>, inclusivoSuperior: bool,
    ordem: int, ativo: bool, sourceRef: string)

  /** A live row; instants are integers. */
  datatype Coorte = Coorte(def: Definicao, atualizadoEm: int)

  datatype Versao = Versao(coorteId: int, def: Definicao, desde: int, ate: Option<int>)

  /** What the live row of one cohort became, and when. */
  datatype Registro = Registro(em: int, def: Definicao)

  datatype Desfecho = Feito | Ausente | Duplicado

  // ---------------------------------------------------------------- the table of versions

  function DaCoorte(vs: seq<Versao>, id: int): seq<Versao> {
    if vs == [] then []
    else DaCoorte(vs[..|vs| - 1], id) + if vs[|vs| - 1].coorteId == id then [vs[|vs| - 1]] else []
  }

  /** The UPDATE of the history trigger: every open version of the cohort ends now. */
  function Fechar(vs: seq<Versao>, id: int, t: int): (r: seq<Versao>)
    ensures |r| == |vs|
  {
    seq(|vs|, i requires 0 <= i < |vs| =>
      if vs[i].coorteId == id && vs[i].ate == None then vs[i].(ate := Some(t)) else vs[i])
  }

  predicate Cobre(v: Versao, t: int) {
    v.desde <= t && (v.ate == None || v.ate.value > t)
  }

  /** Among the versions in force, the one that began last. */
  function Escolhe(antes: Option<Versao>, v: Versao, id: int, t: int): Option<Versao> {
    if v.coorteId == id && Cobre(v, t) && (antes == None || antes.value.desde < v.desde) then Some(v) else antes
  }

  /** `get_coorte(as_of)` by id. */
  function GetAsOf(vs: seq<Versao>, id: int, t: int): Option<Versao> {
    if vs == [] then None else Escolhe(GetAsOf(vs[..|vs| - 1], id, t), vs[|vs| - 1], id, t)
  }

  function DefinicaoDe(v: Option<Versao>): Option<Definicao> {
    if v == None then None else Some(v.value.def)
  }

  // ---------------------------------------------------------------- what it should hold

  /** The versions that a sequence of changes of one cohort calls for. */
  function Ladrilhos(id: int, h: seq<Registro>): (r: seq<Versao>)
    ensures |r| == |h|
  {
    seq(|h|, i requires 0 <= i < |h| =>
      Versao(id, h[i].def, h[i].em, if i + 1 < |h| then Some(h[i + 1].em) else None))
  }

  ghost predicate Crescente(h: seq<Registro>) {
    forall i, j :: 0 <= i < j < |h| ==> h[i].em < h[j].em
  }

  /** The row as it stood at an instant: the last change not after it. */
  function LinhaEm(h: seq<Registro>, t: int): Option<Definicao> {
    if h == [] then None
    else if h[|h| - 1].em <= t then Some(h[|h| - 1].def)
    else LinhaEm(h[..|h| - 1], t)
  }

  lemma {:induction false} FecharFilter(vs: seq<Versao>, id: int, t: int, x: int)
    ensures DaCoorte(Fechar(vs, id, t), x) == if x == id then Fechar(DaCoorte(vs, x), id, t) else DaCoorte(vs, x)
  {
    if vs != [] {
      var vs' := vs[..|vs| - 1];
      FecharFilter(vs', id, t, x);
      assert Fechar(vs, id, t)[..|vs| - 1] == Fechar(vs', id, t);
      if vs[|vs| - 1].coorteId == x == id {
        assert Fechar(DaCoorte(vs', x) + [vs[|vs| - 1]], id, t)
            == Fechar(DaCoorte(vs', x), id, t) + Fechar([vs[|vs| - 1]], id, t);
      }
    }
  }

  lemma DaCoorteAppend(vs: seq<Versao>, v: Versao, x: int)
    ensures DaCoorte(vs + [v], x) == DaCoorte(vs, x) + if v.coorteId == x then [v] else []
  {
    assert (vs + [v])[..|vs|] == vs;
  }

  /** Closing the open tile and appending one gives the tiles of the longer history. */
  lemma CloseAndAppend(id: int, h: seq<Registro>, r: Registro)
    requires h != []
    ensures Fechar(Ladrilhos(id, h), id, r.em) + [Versao(id, r.def, r.em, None)] == Ladrilhos(id, h + [r])
  {
  }

  /** The change in force at an instant: it has happened, and the next one has not. */
  ghost predicate Vigora(h: seq<Registro>, k: int, t: int) {
    0 <= k < |h| && h[k].em <= t && (k + 1 < |h| ==> h[k + 1].em > t)
  }

  lemma {:induction false} RowInForce(h: seq<Registro>, k: int, t: int)
    requires Crescente(h) && Vigora(h, k, t)
    ensures LinhaEm(h, t) == Some(h[k].def)
  {
    if k < |h| - 1 {
      assert h[k + 1].em <= h[|h| - 1].em;
      RowInForce(h[..|h| - 1], k, t);
    }
  }

  lemma {:induction false} SomeInForce(h: seq<Registro>, t: int) returns (k: int)
    requires Crescente(h) && h != [] && h[0].em <= t
    ensures Vigora(h, k, t)
  {
    k := |h| - 1;
    if h[k].em > t { k := SomeInForce(h[..k], t); }
  }

  lemma {:induction false} NoRowBefore(h: seq<Registro>, t: int)
    requires Crescente(h) && (h != [] ==> h[0].em > t)
    ensures LinhaEm(h, t) == None
  {
    if h != [] { NoRowBefore(h[..|h| - 1], t); }
  }

  /** A tile covers an instant exactly when its change is in force, so two tiles never overlap. */
  lemma TilesDoNotOverlap(id: int, h: seq<Registro>, t: int)
    requires Crescente(h)
    ensures forall i :: 0 <= i < |h| ==> (Cobre(Ladrilhos(id, h)[i], t) <==> Vigora(h, i, t))
    ensures SemSobreposicao(Ladrilhos(id, h), t)
  {
    forall i, j | 0 <= i < j < |h| && Vigora(h, i, t) ensures !Vigora(h, j, t) {
      var n := i + 1;
      assert h[n].em <= h[j].em;
    }
  }

  ghost predicate SemSobreposicao(vs: seq<Versao>, t: int) {
    forall i, j :: 0 <= i < j < |vs| && Cobre(vs[i], t) ==> !Cobre(vs[j], t)
  }

  lemma {:induction false} FilterMembers(vs: seq<Versao>, id: int)
    ensures forall v :: v in DaCoorte(vs, id) <==> v in vs && v.coorteId == id
  {
    if vs != [] {
      FilterMembers(vs[..|vs| - 1], id);
      assert vs == vs[..|vs| - 1] + [vs[|vs| - 1]];
    }
  }

  lemma LookupAppend(vs: seq<Versao>, v: Versao, id: int, t: int)
    ensures GetAsOf(vs + [v], id, t) == Escolhe(GetAsOf(vs, id, t), v, id, t)
  {
    assert (vs + [v])[..|vs|] == vs;
  }

  lemma {:induction false} LookupInFilter(vs: seq<Versao>, id: int, t: int)
    ensures GetAsOf(vs, id, t) == GetAsOf(DaCoorte(vs, id), id, t)
  {
    if vs != [] {
      var vs', v := vs[..|vs| - 1], vs[|vs| - 1];
      LookupInFilter(vs', id, t);
      if v.coorteId == id {
        LookupAppend(DaCoorte(vs', id), v, id, t);
      } else {
        assert DaCoorte(vs, id) == DaCoorte(vs', id);
      }
    }
  }

  lemma {:induction false} LookupInTiles(vs: seq<Versao>, id: int, t: int, k: int)
    requires forall i :: 0 <= i < |vs| ==> vs[i].coorteId == id
    requires forall i :: 0 <= i < |vs| ==> (Cobre(vs[i], t) <==> i == k)
    ensures GetAsOf(vs, id, t) == if 0 <= k < |vs| then Some(vs[k]) else None
  {
    if vs != [] {
      var n := |vs| - 1;
      assert Cobre(vs[n], t) <==> n == k;
      LookupInTiles(vs[..n], id, t, k);
    }
  }

  /** Looking up any instant returns the row as it stood then. */
  lemma LookupIsRowThen(vs: seq<Versao>, id: int, h: seq<Registro>, t: int)
    requires DaCoorte(vs, id) == Ladrilhos(id, h) && Crescente(h)
    ensures DefinicaoDe(GetAsOf(vs, id, t)) == LinhaEm(h, t)
  {
    LookupInFilter(vs, id, t);
    TilesDoNotOverlap(id, h, t);
    if h != [] && h[0].em <= t {
      var k := SomeInForce(h, t);
      RowInForce(h, k, t);
      LookupInTiles(Ladrilhos(id, h), id, t, k);
    } else {
      NoRowBefore(h, t);
      LookupInTiles(Ladrilhos(id, h), id, t, -1);
    }
  }

  /** What an UPDATE leaves of the table of versions. */
  function Alterada(vs: seq<Versao>, id: int, def: Definicao, t: int): seq<Versao> {
    Fechar(vs, id, t) + [Versao(id, def, t, None)]
  }

  lemma UpdateFilter(vs: seq<Versao>, id: int, h: seq<Registro>, r: Registro, x: int)
    requires h != [] && DaCoorte(vs, id) == Ladrilhos(id, h)
    ensures DaCoorte(Alterada(vs, id, r.def, r.em), x)
         == if x == id then Ladrilhos(id, h + [r]) else DaCoorte(vs, x)
  {
    FecharFilter(vs, id, r.em, x);
    DaCoorteAppend(Fechar(vs, id, r.em), Versao(id, r.def, r.em, None), x);
    CloseAndAppend(id, h, r);
  }

  /** The tiles of the longer history are a tiling of some history exactly when the clock advanced. */
  lemma UpdateTiles(id: int, h: seq<Registro>, r: Registro)
    requires h != [] && Crescente(h)
    ensures Crescente(h + [r]) <==> r.em > h[|h| - 1].em
    ensures r.em <= h[|h| - 1].em ==> forall g :: Crescente(g) ==> Ladrilhos(id, h + [r]) != Ladrilhos(id, g)
  {
    var n := |h|;
    var k := n - 1;
    assert (h + [r])[n] == r && (h + [r])[k] == h[k];
    if r.em <= h[k].em {
      forall g: seq<Registro> | Crescente(g) ensures Ladrilhos(id, h + [r]) != Ladrilhos(id, g) {
        var a, b := Ladrilhos(id, h + [r]), Ladrilhos(id, g);
        assert a[n].desde == r.em && a[k].desde == h[k].em;
        if |g| == n + 1 { assert b[k].desde == g[k].em && b[n].desde == g[n].em && g[k].em < g[n].em; }
      }
    }
  }

  /** The instant from which the initial configuration is taken to hold. */
  const INICIO_1900: int := -2208988800000000

  ghost predicate Desde1900(vs: seq<Versao>, id: int, ids: seq<int>, linhas: map<int, Coorte>) {
    if id in ids && id in linhas then vs == Ladrilhos(id, [Registro(INICIO_1900, linhas[id].def)]) else vs == []
  }

  /** One cohort's versions tile its history, and the open one is the live row. */
  ghost predicate EmDia(cs: map<int, Coorte>, vs: seq<Versao>, hs: map<int, seq<Registro>>, id: int) {
    id in cs && id in hs && Ladrilha(DaCoorte(vs, id), id, hs[id], cs[id].def)
  }

  ghost predicate Ladrilha(vs: seq<Versao>, id: int, h: seq<Registro>, atual: Definicao) {
    && h != [] && Crescente(h)
    && vs == Ladrilhos(id, h)
    && h[|h| - 1].def == atual
  }

  ghost predicate Coerente(cs: map<int, Coorte>, vs: seq<Versao>, hs: map<int, seq<Registro>>) {
    && hs.Keys == cs.Keys
    && (forall id :: id in cs ==> EmDia(cs, vs, hs, id))
    && (forall id :: id !in cs ==> DaCoorte(vs, id) == [])
  }

  /** What the unique constraint on cohort and start refuses. */
  predicate Repetida(vs: seq<Versao>, id: int, t: int) {
    exists i :: 0 <= i < |vs| && vs[i].coorteId == id && vs[i].desde == t
  }

  ghost predicate MudouEm(h: seq<Registro>, t: int) {
    exists k :: 0 <= k < |h| && h[k].em == t
  }

  lemma UniqueIsNoRepeat(vs: seq<Versao>, id: int, h: seq<Registro>, t: int)
    requires DaCoorte(vs, id) == Ladrilhos(id, h)
    ensures Repetida(vs, id, t) <==> MudouEm(h, t)
  {
    FilterMembers(vs, id);
    if Repetida(vs, id, t) {
      var i :| 0 <= i < |vs| && vs[i].coorteId == id && vs[i].desde == t;
      assert vs[i] in DaCoorte(vs, id);
    }
    if MudouEm(h, t) {
      var k :| 0 <= k < |h| && h[k].em == t;
      assert Ladrilhos(id, h)[k] in vs;
    }
  }

  ghost predicate MesmasVersoes(vs: seq<Versao>, vs': seq<Versao>, x: int) {
    DaCoorte(vs, x) == DaCoorte(vs', x)
  }

  /** Replacing one cohort's row, history and tiles: only its own decide whether all stay coherent. */
  lemma ReplaceKeepsIff(cs: map<int, Coorte>, vs: seq<Versao>, hs: map<int, seq<Registro>>,
                        id: int, c: Coorte, h: seq<Registro>, vs': seq<Versao>)
    requires Coerente(cs, vs, hs)
    requires forall x :: x != id ==> MesmasVersoes(vs, vs', x)
    ensures Coerente(cs[id := c], vs', hs[id := h]) <==> Ladrilha(DaCoorte(vs', id), id, h, c.def)
  {
    var cs', hs' := cs[id := c], hs[id := h];
    forall x | x in cs && x != id ensures EmDia(cs', vs', hs', x) {
      assert EmDia(cs, vs, hs, x) && MesmasVersoes(vs, vs', x);
    }
    forall x | x !in cs' ensures DaCoorte(vs', x) == [] {
      assert DaCoorte(vs, x) == [] && MesmasVersoes(vs, vs', x);
    }
    assert EmDia(cs', vs', hs', id) <==> Ladrilha(DaCoorte(vs', id), id, h, c.def);
  }

  lemma HasHistory(cs: map<int, Coorte>, vs: seq<Versao>, hs: map<int, seq<Registro>>, id: int)
    requires Coerente(cs, vs, hs) && id in cs
    ensures id in hs && hs[id] != [] && Crescente(hs[id]) && DaCoorte(vs, id) == Ladrilhos(id, hs[id])
  {
    assert EmDia(cs, vs, hs, id);
  }

  lemma InsertKeeps(cs: map<int, Coorte>, vs: seq<Versao>, hs: map<int, seq<Registro>>, id: int, c: Coorte)
    requires Coerente(cs, vs, hs) && id !in cs
    ensures Coerente(cs[id := c], vs + [Versao(id, c.def, c.atualizadoEm, None)], hs[id := [Registro(c.atualizadoEm, c.def)]])
  {
    var v := Versao(id, c.def, c.atualizadoEm, None);
    var vs' := vs + [v];
    forall x ensures x != id ==> MesmasVersoes(vs, vs', x) { DaCoorteAppend(vs, v, x); }
    DaCoorteAppend(vs, v, id);
    ReplaceKeepsIff(cs, vs, hs, id, c, [Registro(c.atualizadoEm, c.def)], vs + [v]);
  }

  /** An UPDATE keeps the tiling exactly when the clock has moved past the open version. */
  lemma UpdateKeepsIff(cs: map<int, Coorte>, vs: seq<Versao>, hs: map<int, seq<Registro>>, id: int, r: Registro, vs': seq<Versao>)
    requires Coerente(cs, vs, hs) && id in cs && hs[id] != []
    requires vs' == Alterada(vs, id, r.def, r.em)
    ensures Coerente(cs[id := Coorte(r.def, r.em)], vs', hs[id := hs[id] + [r]]) <==> r.em > hs[id][|hs[id]| - 1].em
  {
    assert EmDia(cs, vs, hs, id);
    UpdatedTiles(vs, id, hs[id], r);
    forall x | x != id ensures MesmasVersoes(vs, vs', x) { UpdateFilter(vs, id, hs[id], r, x); }
    ReplaceKeepsIff(cs, vs, hs, id, Coorte(r.def, r.em), hs[id] + [r], vs');
  }

  lemma UpdatedTiles(vs: seq<Versao>, id: int, h: seq<Registro>, r: Registro)
    requires h != [] && Crescente(h) && DaCoorte(vs, id) == Ladrilhos(id, h)
    ensures Ladrilha(DaCoorte(Alterada(vs, id, r.def, r.em), id), id, h + [r], r.def) <==> r.em > h[|h| - 1].em
  {
    UpdateFilter(vs, id, h, r, id);
    UpdateTiles(id, h, r);
  }

  /** A cohort's versions are the tiles of no history at all. */
  ghost predicate NaoLadrilha(vs: seq<Versao>, id: int) {
    forall h :: Crescente(h) ==> DaCoorte(vs, id) != Ladrilhos(id, h)
  }

  /** An UPDATE that the clock did not advance for leaves versions that tile no history at all. */
  lemma StuckClockTilesNothing(vs: seq<Versao>, id: int, h: seq<Registro>, r: Registro)
    requires h != [] && Crescente(h) && DaCoorte(vs, id) == Ladrilhos(id, h) && r.em <= h[|h| - 1].em
    ensures NaoLadrilha(Alterada(vs, id, r.def, r.em), id)
  {
    UpdateFilter(vs, id, h, r, id);
    UpdateTiles(id, h, r);
  }

  lemma DeleteKeeps(cs: map<int, Coorte>, vs: seq<Versao>, hs: map<int, seq<Registro>>, id: int, vs': seq<Versao>)
    requires Coerente(cs, vs, hs)
    requires DaCoorte(vs', id) == [] && forall x :: x != id ==> MesmasVersoes(vs, vs', x)
    ensures Coerente(cs - {id}, vs', hs - {id})
  {
    var cs', hs' := cs - {id}, hs - {id};
    assert hs'.Keys == hs.Keys - {id} == cs'.Keys;
    forall x | x in cs' ensures EmDia(cs', vs', hs', x) {
      assert EmDia(cs, vs, hs, x) && MesmasVersoes(vs, vs', x);
    }
    forall x | x !in cs' && x != id ensures DaCoorte(vs', x) == [] {
      assert DaCoorte(vs, x) == [] && MesmasVersoes(vs, vs', x);
    }
  }

  /** The foreign key's ON DELETE CASCADE. */
  function SemCoorte(vs: seq<Versao>, id: int): seq<Versao> {
    if vs == [] then []
    else SemCoorte(vs[..|vs| - 1], id) + if vs[|vs| - 1].coorteId == id then [] else [vs[|vs| - 1]]
  }

  lemma {:induction false} CascadeFilter(vs: seq<Versao>, id: int, x: int)
    ensures DaCoorte(SemCoorte(vs, id), x) == if x == id then [] else DaCoorte(vs, x)
  {
    if vs != [] {
      var vs', v := vs[..|vs| - 1], vs[|vs| - 1];
      CascadeFilter(vs', id, x);
      if v.coorteId == id {
        assert SemCoorte(vs, id) == SemCoorte(vs', id);
      } else {
        DaCoorteAppend(SemCoorte(vs', id), v, x);
      }
    }
  }

  class BaseCoortes {
    var coortes: map<int, Coorte>
    var versoes: seq<Versao>
    /** Every change of each live cohort, as it happened. */
    ghost var historia: map<int, seq<Registro>>

    ghost predicate Valid()
      reads this
    {
      Coerente(coortes, versoes, historia)
    }

    /** The last instant at which the cohort's current version began. */
    ghost function Abertura(id: int): int
      reads this
      requires Valid() && id in coortes
    {
      historia[id][|historia[id]| - 1].em
    }

    /** The migration: existing rows are valid since 1900. */
    constructor Upgrade(ids: seq<int>, linhas: map<int, Coorte>)
      requires NoDup(ids)
      requires forall k :: 0 <= k < |ids| ==> ids[k] in linhas
      requires forall id :: id in linhas ==> id in ids
      ensures Valid() && coortes == linhas
      ensures forall id :: id in linhas ==> historia[id] == [Registro(INICIO_1900, linhas[id].def)]
    {
      coortes := linhas;
      historia := map id | id in linhas :: [Registro(INICIO_1900, linhas[id].def)];
      versoes := [];
      new;
      for i := 0 to |ids|
        invariant coortes == linhas
        invariant forall id :: Desde1900(DaCoorte(versoes, id), id, ids[..i], linhas)
        invariant historia == map id | id in linhas :: [Registro(INICIO_1900, linhas[id].def)]
      {
        var v := Versao(ids[i], linhas[ids[i]].def, INICIO_1900, None);
        assert ids[..i + 1] == ids[..i] + [ids[i]];
        forall id ensures Desde1900(DaCoorte(versoes + [v], id), id, ids[..i + 1], linhas) {
          DaCoorteAppend(versoes, v, id);
          assert Desde1900(DaCoorte(versoes, id), id, ids[..i], linhas);
        }
        versoes := versoes + [v];
      }
      assert ids[..|ids|] == ids;
      assert forall id :: Desde1900(DaCoorte(versoes, id), id, ids, linhas);
    }

    /** INSERT: only the history trigger fires, with the row's own timestamp. */
    method Insert(id: int, def: Definicao, atualizadoEm: int) returns (r: Desfecho)
      requires Valid()
      modifies this
      ensures Valid()
      ensures r == (if id in old(coortes) then Duplicado else Feito)
      ensures r != Feito ==> coortes == old(coortes) && versoes == old(versoes) && historia == old(historia)
      ensures r == Feito ==>
        && coortes == old(coortes)[id := Coorte(def, atualizadoEm)]
        && versoes == old(versoes) + [Versao(id, def, atualizadoEm, None)]
        && historia == old(historia)[id := [Registro(atualizadoEm, def)]]
    {
      if id in coortes { return Duplicado; }
      InsertKeeps(coortes, versoes, historia, id, Coorte(def, atualizadoEm));
      coortes := coortes[id := Coorte(def, atualizadoEm)];
      versoes := versoes + [Versao(id, def, atualizadoEm, None)];
      historia := historia[id := [Registro(atualizadoEm, def)]];
      return Feito;
    }

    /**
     * UPDATE: the first trigger stamps the row, the second closes the open version and inserts
     * the new one. The table stays a tiling exactly when the clock has moved past the version
     * being closed; a repeated instant is refused by the unique constraint.
     */
    method Update(id: int, def: Definicao, relogio: int) returns (r: Desfecho)
      requires Valid()
      modifies this
      ensures id !in old(coortes) ==> r == Ausente
      ensures id in old(coortes) ==>
        r == if MudouEm(old(historia)[id], relogio) then Duplicado else Feito
      ensures r != Feito ==> Valid() && coortes == old(coortes) && versoes == old(versoes) && historia == old(historia)
      ensures r == Feito ==>
        && coortes == old(coortes)[id := Coorte(def, relogio)]
        && versoes == Alterada(old(versoes), id, def, relogio)
        && historia == old(historia)[id := old(historia)[id] + [Registro(relogio, def)]]
      ensures r == Feito ==> (Valid() <==> relogio > old(Abertura(id)))
      ensures r == Feito && relogio < old(Abertura(id)) ==> NaoLadrilha(versoes, id)
    {
      if id !in coortes { return Ausente; }
      HasHistory(coortes, versoes, historia, id);
      UniqueIsNoRepeat(versoes, id, historia[id], relogio);
      if Repetida(versoes, id, relogio) { return Duplicado; }
      if relogio < Abertura(id) { StuckClockTilesNothing(versoes, id, historia[id], Registro(relogio, def)); }
      Altera(id, def, relogio);
      return Feito;
    }

    /** The two triggers on a row that exists. */
    method Altera(id: int, def: Definicao, relogio: int)
      requires Valid() && id in coortes
      modifies this
      ensures coortes == old(coortes)[id := Coorte(def, relogio)]
      ensures versoes == Alterada(old(versoes), id, def, relogio)
      ensures id in old(historia) && historia == old(historia)[id := old(historia)[id] + [Registro(relogio, def)]]
      ensures Valid() <==> relogio > old(Abertura(id))
    {
      HasHistory(coortes, versoes, historia, id);
      var depois := Alterada(versoes, id, def, relogio);
      UpdateKeepsIff(coortes, versoes, historia, id, Registro(relogio, def), depois);
      coortes := coortes[id := Coorte(def, relogio)];
      versoes := depois;
      historia := historia[id := historia[id] + [Registro(relogio, def)]];
    }

    /** DELETE cascades to the versions. */
    method Delete(id: int) returns (r: Desfecho)
      requires Valid()
      modifies this
      ensures Valid()
      ensures r == (if id in old(coortes) then Feito else Ausente)
      ensures coortes == old(coortes) - {id} && historia == old(historia) - {id}
      ensures DaCoorte(versoes, id) == [] && forall x :: x != id ==> MesmasVersoes(old(versoes), versoes, x)
    {
      r := if id in coortes then Feito else Ausente;
      var sobram := SemCoorte(versoes, id);
      CascadeFilter(versoes, id, id);
      forall x | x != id ensures MesmasVersoes(versoes, sobram, x) { CascadeFilter(versoes, id, x); }
      DeleteKeeps(coortes, versoes, historia, id, sobram);
      coortes, versoes := coortes - {id}, sobram;
      historia := historia - {id};
    }

    /** Any instant is answered with the row as it stood then; before the first version, with nothing. */
    method GetCoorte(id: int, asOf: int) returns (r: Option<Definicao>)
      requires Valid()
      ensures r == if id in coortes then LinhaEm(historia[id], asOf) else None
    {
      var v := GetAsOf(versoes, id, asOf);
      r := DefinicaoDe(v);
      if id in coortes {
        assert EmDia(coortes, versoes, historia, id);
        LookupIsRowThen(versoes, id, historia[id], asOf);
      } else {
        LookupInFilter(versoes, id, asOf);
      }
    }

    /** `get_coorte(as_of)` by code: of the versions in force with the code, the one that began last. */
    method GetCoortePorCodigo(codigo: string, asOf: int) returns (r: Option<Versao>)
      requires Valid()
      ensures r == None <==> forall id :: id in coortes ==>
        LinhaEm(historia[id], asOf) == None || LinhaEm(historia[id], asOf).value.codigo != codigo
      ensures r.Some? ==>
        && r.value.coorteId in coortes && LinhaEm(historia[r.value.coorteId], asOf) == Some(r.value.def)
        && r.value.def.codigo == codigo
        && forall v :: v in versoes && v.def.codigo == codigo && Cobre(v, asOf) ==> v.desde <= r.value.desde
      ensures CodigosDistintos(versoes, asOf) && r.Some? ==>
        forall id :: id in coortes && LinhaEm(historia[id], asOf).Some? && LinhaEm(historia[id], asOf).value.codigo == codigo
          ==> id == r.value.coorteId
    {
      r := PorCodigo(versoes, codigo, asOf);
      CodeLookup(versoes, codigo, asOf);
      if r.Some? { VersionIsRow(r.value, asOf); }
      forall id | id in coortes && TemCodigo(LinhaEm(historia[id], asOf), codigo)
        ensures r.Some? && (CodigosDistintos(versoes, asOf) ==> id == r.value.coorteId)
      {
        var v := RowHasVersion(id, asOf);
        if CodigosDistintos(versoes, asOf) { SameCodeSameVersion(versoes, asOf, v, r.value); }
      }
    }

    lemma VersionIsRow(v: Versao, asOf: int)
      requires Valid() && v in versoes && Cobre(v, asOf)
      ensures v.coorteId in coortes && LinhaEm(historia[v.coorteId], asOf) == Some(v.def)
    {
      FilterMembers(versoes, v.coorteId);
      assert v in DaCoorte(versoes, v.coorteId);
      assert EmDia(coortes, versoes, historia, v.coorteId);
      TileIsRow(v, historia[v.coorteId], asOf);
    }

    lemma RowHasVersion(id: int, asOf: int) returns (v: Versao)
      requires Valid() && id in coortes && LinhaEm(historia[id], asOf).Some?
      ensures v in versoes && v.coorteId == id && Cobre(v, asOf) && LinhaEm(historia[id], asOf) == Some(v.def)
    {
      assert EmDia(coortes, versoes, historia, id);
      var h := historia[id];
      if h[0].em > asOf { NoRowBefore(h, asOf); }
      TilesDoNotOverlap(id, h, asOf);
      var k := SomeInForce(h, asOf);
      RowInForce(h, k, asOf);
      v := Ladrilhos(id, h)[k];
      FilterMembers(versoes, id);
      assert v in DaCoorte(versoes, id);
    }

    /** `list_coortes(as_of)`: one version, the one in force, for each cohort that had begun (and was active, if asked). */
    method ListAsOf(asOf: int, somenteAtivas: bool) returns (r: seq<Versao>)
      requires Valid()
      ensures forall v :: v in r ==>
        v.coorteId in coortes && LinhaEm(historia[v.coorteId], asOf) == Some(v.def) && (somenteAtivas ==> v.def.ativo)
      ensures forall i, j :: 0 <= i < j < |r| ==> r[i].coorteId != r[j].coorteId
      ensures forall id :: id in coortes && LinhaEm(historia[id], asOf).Some?
                && (somenteAtivas ==> LinhaEm(historia[id], asOf).value.ativo)
                ==> exists v :: v in r && v.coorteId == id
      ensures forall i, j :: 0 <= i < j < |r| ==>
        if r[i].def.criterio == r[j].def.criterio then r[i].def.ordem <= r[j].def.ordem
        else LexLeq(r[i].def.criterio, r[j].def.criterio)
    {
      var vigentes := VigentesEm(versoes, asOf, somenteAtivas);
      VigentesMembers(versoes, asOf, somenteAtivas);
      forall i, j | 0 <= i < j < |vigentes| ensures vigentes[i].coorteId != vigentes[j].coorteId {
        var id := vigentes[i].coorteId;
        assert vigentes[i] in vigentes;
        VersionIsRow(vigentes[i], asOf);
        assert EmDia(coortes, versoes, historia, id);
        TilesDoNotOverlap(id, historia[id], asOf);
        VigentesDistinct(versoes, asOf, somenteAtivas, id, i, j);
      }
      r := Sort(CriterioOrdem, vigentes);
      CriterioOrdemIsOrder();
      SortCorrect(CriterioOrdem, vigentes);
      SortKeepsCohortsApart(vigentes);
      forall v | v in r ensures v.coorteId in coortes && LinhaEm(historia[v.coorteId], asOf) == Some(v.def) {
        VersionIsRow(v, asOf);
      }
      forall id | id in coortes && LinhaEm(historia[id], asOf).Some? && (somenteAtivas ==> LinhaEm(historia[id], asOf).value.ativo)
        ensures exists v :: v in r && v.coorteId == id
      {
        var v := RowHasVersion(id, asOf);
        assert v in vigentes;
      }
    }
  }

  function CriterioOrdem(a: Versao, b: Versao): bool {
    (a.def.criterio != b.def.criterio && LexLeq(a.def.criterio, b.def.criterio))
    || (a.def.criterio == b.def.criterio && a.def.ordem <= b.def.ordem)
  }

  lemma CriterioOrdemIsOrder()
    ensures TotalPreorder(CriterioOrdem)
  {
    forall a: Versao, b: Versao ensures CriterioOrdem(a, b) || CriterioOrdem(b, a) { LexTotal(a.def.criterio, b.def.criterio); }
    forall a: Versao, b: Versao, c: Versao | CriterioOrdem(a, b) && CriterioOrdem(b, c) ensures CriterioOrdem(a, c) {
      LexTotal(a.def.criterio, b.def.criterio);
      if LexLeq(a.def.criterio, b.def.criterio) && LexLeq(b.def.criterio, c.def.criterio) {
        LexTransitive(a.def.criterio, b.def.criterio, c.def.criterio);
        if a.def.criterio == c.def.criterio { LexAntisymmetric(a.def.criterio, b.def.criterio); }
      }
    }
  }

  lemma SortKeepsCohortsApart(vs: seq<Versao>)
    requires forall i, j :: 0 <= i < j < |vs| ==> vs[i].coorteId != vs[j].coorteId
    ensures var r := Sort(CriterioOrdem, vs); forall i, j :: 0 <= i < j < |r| ==> r[i].coorteId != r[j].coorteId
  {
    var r := Sort(CriterioOrdem, vs);
    SortCorrect(CriterioOrdem, vs);
    SortNoDup(CriterioOrdem, vs);
    forall i, j | 0 <= i < j < |r| ensures r[i].coorteId != r[j].coorteId {
      assert r[i] in vs && r[j] in vs && r[i] != r[j];
      var a :| 0 <= a < |vs| && vs[a] == r[i];
      var b :| 0 <= b < |vs| && vs[b] == r[j];
    }
  }

  // ---------------------------------------------------------------- codes

  predicate TemCodigo(d: Option<Definicao>, codigo: string) {
    d.Some? && d.value.codigo == codigo
  }

  /** Of the versions in force with a code, the one that began last. */
  function PorCodigo(vs: seq<Versao>, codigo: string, t: int): Option<Versao> {
    if vs == [] then None
    else
      var v, antes := vs[|vs| - 1], PorCodigo(vs[..|vs| - 1], codigo, t);
      if v.def.codigo == codigo && Cobre(v, t) && (antes == None || antes.value.desde < v.desde) then Some(v) else antes
  }

  lemma {:induction false} CodeLookup(vs: seq<Versao>, codigo: string, t: int)
    ensures var r := PorCodigo(vs, codigo, t);
      && (r == None <==> forall v :: v in vs ==> !(v.def.codigo == codigo && Cobre(v, t)))
      && (r.Some? ==> r.value in vs && r.value.def.codigo == codigo && Cobre(r.value, t))
      && (r.Some? ==> forall v :: v in vs && v.def.codigo == codigo && Cobre(v, t) ==> v.desde <= r.value.desde)
  {
    if vs != [] {
      CodeLookup(vs[..|vs| - 1], codigo, t);
      assert vs == vs[..|vs| - 1] + [vs[|vs| - 1]];
    }
  }

  /** At one instant no two versions in force share a code. */
  ghost predicate CodigosDistintos(vs: seq<Versao>, t: int) {
    forall i, j :: 0 <= i < j < |vs| && Cobre(vs[i], t) && Cobre(vs[j], t) ==> vs[i].def.codigo != vs[j].def.codigo
  }

  lemma SameCodeSameVersion(vs: seq<Versao>, t: int, v: Versao, w: Versao)
    requires CodigosDistintos(vs, t) && v in vs && w in vs && Cobre(v, t) && Cobre(w, t) && v.def.codigo == w.def.codigo
    ensures v == w
  {
    var i :| 0 <= i < |vs| && vs[i] == v;
    var j :| 0 <= j < |vs| && vs[j] == w;
  }

  /** At every instant. */
  ghost predicate SempreDistintos(vs: seq<Versao>) {
    forall t :: CodigosDistintos(vs, t)
  }

  ghost predicate SemVazias(vs: seq<Versao>) {
    forall v :: v in vs && v.ate.Some? ==> v.desde < v.ate.value
  }

  /** No version with the code is in force at `t` or later. */
  ghost predicate CodigoLivre(vs: seq<Versao>, codigo: string, t: int) {
    forall w :: w in vs && w.def.codigo == codigo ==> w.ate.Some? && w.ate.value <= t
  }

  /** Opening a version keeps codes distinct at every instant if and only if its code is free from its start on. */
  lemma OpeningKeepsCodesIff(vs: seq<Versao>, v: Versao)
    requires SempreDistintos(vs) && SemVazias(vs) && v.ate == None
    ensures SempreDistintos(vs + [v]) <==> CodigoLivre(vs, v.def.codigo, v.desde)
  {
    var r, n := vs + [v], |vs|;
    if SempreDistintos(r) {
      forall w | w in vs && w.def.codigo == v.def.codigo ensures w.ate.Some? && w.ate.value <= v.desde {
        var i :| 0 <= i < n && vs[i] == w;
        var t := Max(w.desde, v.desde);
        assert CodigosDistintos(r, t) && r[i] == w && r[n] == v && Cobre(v, t);
      }
    }
    if CodigoLivre(vs, v.def.codigo, v.desde) {
      forall t ensures CodigosDistintos(r, t) {
        assert CodigosDistintos(vs, t);
        forall i, j | 0 <= i < j < |r| && Cobre(r[i], t) && Cobre(r[j], t) ensures r[i].def.codigo != r[j].def.codigo {
          if j == n { assert vs[i] in vs; }
        }
      }
    }
  }

  lemma ClosingKeepsCodes(vs: seq<Versao>, id: int, t: int)
    requires SempreDistintos(vs)
    ensures SempreDistintos(Fechar(vs, id, t))
  {
    var r := Fechar(vs, id, t);
    forall x ensures CodigosDistintos(r, x) {
      assert CodigosDistintos(vs, x);
      forall i, j | 0 <= i < j < |r| && Cobre(r[i], x) && Cobre(r[j], x) ensures r[i].def.codigo != r[j].def.codigo {
        assert Cobre(vs[i], x) && Cobre(vs[j], x);
      }
    }
  }

  /** With a unique code among live rows, and no version ending after `t`, a code no other row has is free at `t`. */
  lemma UniqueLiveCodeIsFree(cs: map<int, Coorte>, vs: seq<Versao>, hs: map<int, seq<Registro>>, id: int, codigo: string, t: int)
    requires Coerente(cs, vs, hs)
    requires forall x :: x in cs && x != id ==> cs[x].def.codigo != codigo
    requires forall w :: w in vs && w.ate.Some? ==> w.ate.value <= t
    ensures CodigoLivre(Fechar(vs, id, t), codigo, t)
  {
    var r := Fechar(vs, id, t);
    forall w | w in r && w.def.codigo == codigo ensures w.ate.Some? && w.ate.value <= t {
      var i :| 0 <= i < |r| && r[i] == w;
      assert vs[i] in vs;
      if vs[i].ate == None && vs[i].coorteId != id { VersionIsTile(cs, vs, hs, vs[i]); }
    }
  }

  lemma TileEnds(id: int, h: seq<Registro>, v: Versao)
    requires Crescente(h) && v in Ladrilhos(id, h)
    ensures v.ate == None ==> v.def == h[|h| - 1].def && v.desde == h[|h| - 1].em
    ensures v.ate.Some? ==> v.desde < v.ate.value
  {
    var ds := Ladrilhos(id, h);
    var k :| 0 <= k < |ds| && ds[k] == v;
    var n := k + 1;
    if n < |h| { assert h[k].em < h[n].em; }
  }

  /** Each version is a tile of its own cohort. */
  lemma VersionIsTile(cs: map<int, Coorte>, vs: seq<Versao>, hs: map<int, seq<Registro>>, v: Versao)
    requires Coerente(cs, vs, hs) && v in vs
    ensures v.coorteId in cs && v.coorteId in hs && hs[v.coorteId] != []
    ensures v.ate == None ==> cs[v.coorteId].def == v.def && v.desde == hs[v.coorteId][|hs[v.coorteId]| - 1].em
    ensures v.ate.Some? ==> v.desde < v.ate.value
  {
    var id := v.coorteId;
    FilterMembers(vs, id);
    assert v in DaCoorte(vs, id);
    assert EmDia(cs, vs, hs, id);
    TileEnds(id, hs[id], v);
  }

  /** With a unique code among the live rows and one clock for all cohorts, an UPDATE keeps codes distinct at every instant. */
  lemma UpdateKeepsCodes(cs: map<int, Coorte>, vs: seq<Versao>, hs: map<int, seq<Registro>>, id: int, def: Definicao, t: int)
    requires Coerente(cs, vs, hs) && SempreDistintos(vs) && id in cs && hs[id] != []
    requires forall x :: x in cs && x != id ==> cs[x].def.codigo != def.codigo
    requires t > hs[id][|hs[id]| - 1].em && forall w :: w in vs && w.ate.Some? ==> w.ate.value <= t
    ensures SempreDistintos(Alterada(vs, id, def, t))
  {
    var r := Fechar(vs, id, t);
    ClosingKeepsCodes(vs, id, t);
    UniqueLiveCodeIsFree(cs, vs, hs, id, def.codigo, t);
    forall v | v in r && v.ate.Some? ensures v.desde < v.ate.value {
      var i :| 0 <= i < |r| && r[i] == v;
      VersionIsTile(cs, vs, hs, vs[i]);
    }
    OpeningKeepsCodesIff(r, Versao(id, def, t, None));
  }

  /**
   * So one clock for all cohorts keeps codes distinct. A row inserted with an older timestamp, taken at
   * the start of its transaction, does not: here the code "A" was freed at 5 and is inserted from 3.
   */
  lemma OlderInsertSharesCode(d: Definicao, vs: seq<Versao>)
    requires vs == [Versao(1, d, 0, Some(5))]
    ensures SempreDistintos(vs) && !SempreDistintos(vs + [Versao(2, d, 3, None)])
  {
    var r := vs + [Versao(2, d, 3, None)];
    assert r[0] == vs[0] && Cobre(r[0], 4) && Cobre(r[1], 4);
    assert !CodigosDistintos(r, 4);
  }

  lemma TileIsRow(v: Versao, h: seq<Registro>, t: int)
    requires Crescente(h) && v in Ladrilhos(v.coorteId, h) && Cobre(v, t)
    ensures LinhaEm(h, t) == Some(v.def)
  {
    var k :| 0 <= k < |h| && Ladrilhos(v.coorteId, h)[k] == v;
    TilesDoNotOverlap(v.coorteId, h, t);
    RowInForce(h, k, t);
  }

  function VigentesEm(vs: seq<Versao>, t: int, somenteAtivas: bool): seq<Versao> {
    if vs == [] then []
    else
      var v := vs[|vs| - 1];
      VigentesEm(vs[..|vs| - 1], t, somenteAtivas) + if Cobre(v, t) && (somenteAtivas ==> v.def.ativo) then [v] else []
  }

  lemma {:induction false} VigentesMembers(vs: seq<Versao>, t: int, somenteAtivas: bool)
    ensures forall v :: v in VigentesEm(vs, t, somenteAtivas) <==> v in vs && Cobre(v, t) && (somenteAtivas ==> v.def.ativo)
  {
    if vs != [] {
      VigentesMembers(vs[..|vs| - 1], t, somenteAtivas);
      assert vs == vs[..|vs| - 1] + [vs[|vs| - 1]];
    }
  }

  /** Two listed versions are of different cohorts when no two versions of a cohort overlap. */
  lemma {:induction false} VigentesDistinct(vs: seq<Versao>, t: int, somenteAtivas: bool, id: int, i: nat, j: nat)
    requires i < j < |VigentesEm(vs, t, somenteAtivas)| && VigentesEm(vs, t, somenteAtivas)[i].coorteId == id
    requires SemSobreposicao(DaCoorte(vs, id), t)
    ensures VigentesEm(vs, t, somenteAtivas)[j].coorteId != id
  {
    var vs', v := vs[..|vs| - 1], vs[|vs| - 1];
    var r', ds', ds := VigentesEm(vs', t, somenteAtivas), DaCoorte(vs', id), DaCoorte(vs, id);
    assert ds[..|ds'|] == ds';
    if j < |r'| {
      VigentesDistinct(vs', t, somenteAtivas, id, i, j);
    } else {
      VigentesMembers(vs', t, somenteAtivas);
      FilterMembers(vs', id);
      assert r'[i] in r';
      var a :| 0 <= a < |ds'| && ds'[a] == r'[i];
      assert Cobre(ds[a], t) && Cobre(v, t);
    }
  }
}
