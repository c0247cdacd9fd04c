/**
 * One ingestion job: its units, the checkpoint kept in `resultado`, the plan of the next
 * attempt, and what each committed transaction does to the row.
 */
module IngestJob {
  import opened Basics

  /** One unit of work: an entity and a key (a year, a period or "global"). */
  datatype Unidade = Unidade(ente: string, chave: string)

  /** One entry of `resultado.itens`. */
  datatype Item = Item(unidade: Unidade, ok: bool)

  datatype Status = NaFila | Executando | Concluido | Falhou | Cancelado

  /** The `fase` recorded in `resultado.erro_sistema`. */
  datatype Fase =
    | FaseClaim | FaseInicializacao | FasePreparacao | FaseUnidade(unidade: Unidade) | FasePosJob
    | FaseFila | FaseAbandonado | FaseFailureCallback | FaseWorkHorseKilled

  datatype Job = Job(
    status: Status,
    tentativas: nat,
    iniciadoEm: Option<int>,
    itens: seq<Item>,
    erroSistema: Option<Fase>,
    itensTotal: nat,
    itensOk: nat,
    itensErro: nat,
    progresso: nat)

  // ---------------------------------------------------------------- units of a job

  datatype Tipo = Run | Backfill | Replay

  /** The immutable part of a job. `anos` is what the run request carries, possibly nothing. */
  datatype Pedido = Pedido(
    tipo: Tipo, fonte: string, entregaAgregada: bool,
    entes: seq<string>, periodos: seq<string>, anos: seq<string>)

  function Chaves(p: Pedido): seq<string> {
    if p.tipo == Replay then p.periodos
    else
      var anos := if p.anos != [] then p.anos else p.periodos;
      if anos != [] then anos else ["global"]
  }

  function PorEnte(ente: string, chaves: seq<string>): seq<Unidade> {
    seq(|chaves|, i requires 0 <= i < |chaves| => Unidade(ente, chaves[i]))
  }

  function Produto(entes: seq<string>, chaves: seq<string>): seq<Unidade> {
    if entes == [] then [] else PorEnte(entes[0], chaves) + Produto(entes[1..], chaves)
  }

  function AllUnits(p: Pedido): seq<Unidade> {
    if p.fonte == "bcb" then [Unidade("BR", "global")]
    else if p.entregaAgregada then PorEnte("BR", Chaves(p))
    else Produto(p.entes, Chaves(p))
  }

  /** Where the block of entity `i` starts when each has `m` keys. */
  function Bloco(i: nat, m: nat): (r: nat)
  {
    if i == 0 then 0 else Bloco(i - 1, m) + m
  }

  /** From `k` on, `us` holds the entity with each of the keys in turn. */
  ghost predicate BlocoDe(us: seq<Unidade>, k: nat, ente: string, chaves: seq<string>) {
    k + |chaves| <= |us| && forall j :: 0 <= j < |chaves| ==> us[k + j] == Unidade(ente, chaves[j])
  }

  /** `us` is every entity with every key, entity by entity, each in the order of the keys. */
  ghost predicate Grade(us: seq<Unidade>, entes: seq<string>, chaves: seq<string>) {
    && |us| == Bloco(|entes|, |chaves|)
    && forall i :: 0 <= i < |entes| ==> BlocoDe(us, Bloco(i, |chaves|), entes[i], chaves)
  }

  lemma {:induction false} BlockIsProduct(i: nat, m: nat)
    ensures Bloco(i, m) == i * m
  {
    if i > 0 {
      BlockIsProduct(i - 1, m);
      assert i * m == (i - 1) * m + m;
    }
  }

  lemma {:induction false} BlockShift(i: nat, m: nat)
    ensures Bloco(i + 1, m) == m + Bloco(i, m)
  {
  }

  lemma BlockMoves(head: seq<Unidade>, tail: seq<Unidade>, k: nat, ente: string, chaves: seq<string>)
    ensures BlocoDe(head + tail, |head| + k, ente, chaves) <==> BlocoDe(tail, k, ente, chaves)
  {
    if BlocoDe(head + tail, |head| + k, ente, chaves) {
      forall j | 0 <= j < |chaves| ensures tail[k + j] == Unidade(ente, chaves[j]) {
        assert (head + tail)[|head| + k + j] == tail[k + j];
      }
    }
  }

  /** A grid is its first block and the grid of the other entities. */
  lemma GridStep(head: seq<Unidade>, tail: seq<Unidade>, entes: seq<string>, chaves: seq<string>)
    requires entes != [] && |head| == |chaves|
    ensures Grade(head + tail, entes, chaves) <==> head == PorEnte(entes[0], chaves) && Grade(tail, entes[1..], chaves)
  {
    var m, n: nat := |chaves|, |entes| - 1;
    BlockShift(n, m);
    assert Bloco(0, m) == 0;
    forall i: nat | i < n
      ensures BlocoDe(head + tail, Bloco(i + 1, m), entes[1..][i], chaves) <==> BlocoDe(tail, Bloco(i, m), entes[1..][i], chaves)
    {
      BlockShift(i, m);
      BlockMoves(head, tail, Bloco(i, m), entes[i + 1], chaves);
    }
    FirstBlock(head, tail, entes[0], chaves);
    GridSplit(head + tail, entes, chaves);
  }

  lemma FirstBlock(head: seq<Unidade>, tail: seq<Unidade>, ente: string, chaves: seq<string>)
    requires |head| == |chaves|
    ensures BlocoDe(head + tail, 0, ente, chaves) <==> head == PorEnte(ente, chaves)
  {
    if BlocoDe(head + tail, 0, ente, chaves) {
      forall j | 0 <= j < |chaves| ensures head[j] == Unidade(ente, chaves[j]) {
        assert (head + tail)[0 + j] == head[j];
      }
    }
  }

  lemma GridSplit(us: seq<Unidade>, entes: seq<string>, chaves: seq<string>)
    requires entes != []
    ensures Grade(us, entes, chaves) <==>
      && |us| == Bloco(|entes|, |chaves|)
      && BlocoDe(us, 0, entes[0], chaves)
      && forall i: nat :: i < |entes| - 1 ==> BlocoDe(us, Bloco(i + 1, |chaves|), entes[1..][i], chaves)
  {
    if |us| == Bloco(|entes|, |chaves|) && BlocoDe(us, 0, entes[0], chaves)
      && forall i: nat :: i < |entes| - 1 ==> BlocoDe(us, Bloco(i + 1, |chaves|), entes[1..][i], chaves)
    {
      forall i | 0 <= i < |entes| ensures BlocoDe(us, Bloco(i, |chaves|), entes[i], chaves) {
        if i > 0 {
          var h: nat := i - 1;
          assert entes[1..][h] == entes[i] && BlocoDe(us, Bloco(h + 1, |chaves|), entes[i], chaves);
        }
      }
    }
  }

  lemma {:induction false} ProdutoIsGrid(entes: seq<string>, chaves: seq<string>)
    ensures Grade(Produto(entes, chaves), entes, chaves)
  {
    if entes != [] {
      ProdutoIsGrid(entes[1..], chaves);
      GridStep(PorEnte(entes[0], chaves), Produto(entes[1..], chaves), entes, chaves);
    }
  }

  /**
   * The units of a job from the fields of its request: bcb has one, and any other source has the grid
   * of its entities, or of `BR` alone when deliveries are aggregated, and its keys. A replay's keys are
   * its periods, whatever its years; those of any other job are its years, else its periods, else `global`.
   */
  lemma UnitsOfRequest(p: Pedido)
    ensures p.fonte == "bcb" ==> AllUnits(p) == [Unidade("BR", "global")]
    ensures p.fonte != "bcb" ==>
      var us, entes := AllUnits(p), if p.entregaAgregada then ["BR"] else p.entes;
      && (p.tipo == Replay ==> Grade(us, entes, p.periodos))
      && (p.tipo != Replay && p.anos != [] ==> Grade(us, entes, p.anos))
      && (p.tipo != Replay && p.anos == [] && p.periodos != [] ==> Grade(us, entes, p.periodos))
      && (p.tipo != Replay && p.anos == [] && p.periodos == [] ==> Grade(us, entes, ["global"]))
  {
    var entes := if p.entregaAgregada then ["BR"] else p.entes;
    ProdutoIsGrid(entes, Chaves(p));
    assert ["BR"][1..] == [];
    assert Produto(["BR"], Chaves(p)) == PorEnte("BR", Chaves(p));
  }

  /** The members of a grid; with the order it gives, this is all there is to say of it. */
  lemma GridMembers(us: seq<Unidade>, entes: seq<string>, chaves: seq<string>)
    requires Grade(us, entes, chaves)
    ensures us == Produto(entes, chaves)
    ensures forall u :: u in us <==> u.ente in entes && u.chave in chaves
  {
    GridIsUnique(us, entes, chaves);
    forall u ensures u in us <==> u.ente in entes && u.chave in chaves { ProdutoMembers(entes, chaves, u); }
  }

  lemma {:induction false} GridIsUnique(us: seq<Unidade>, entes: seq<string>, chaves: seq<string>)
    requires Grade(us, entes, chaves)
    ensures us == Produto(entes, chaves)
  {
    if entes != [] {
      var m := |chaves|;
      BlockShift(|entes| - 1, m);
      assert us == us[..m] + us[m..];
      GridStep(us[..m], us[m..], entes, chaves);
      GridIsUnique(us[m..], entes[1..], chaves);
    }
  }

  /** The periods of a replay are its keys, and its years are not looked at. */
  lemma ReplayExample()
    ensures AllUnits(Pedido(Replay, "siconfi_rreo", false, ["3550308"], ["2023-B6"], [])) == [Unidade("3550308", "2023-B6")]
    ensures AllUnits(Pedido(Run, "siconfi_rreo", false, ["35", "33"], ["2022"], ["2023", "2024"]))
      == [Unidade("35", "2023"), Unidade("35", "2024"), Unidade("33", "2023"), Unidade("33", "2024")]
  {
    var p, q := ["2023-B6"], ["2023", "2024"];
    assert ["3550308"][1..] == [] && ["35", "33"][1..] == ["33"] && ["33"][1..] == [];
    assert Produto(["3550308"], p) == PorEnte("3550308", p) + Produto([], p);
    assert Produto(["35", "33"], q) == PorEnte("35", q) + (PorEnte("33", q) + Produto([], q));
  }

  /** The total a new row gets, from the entities and the keys asked for. */
  function TotalCriado(p: Pedido): nat {
    var chaves := if p.tipo == Replay || p.anos == [] then p.periodos else p.anos;
    Max(|p.entes| * Max(|chaves|, 1), 1)
  }

  /**
   * Where each entity has its own deliveries, the total of a new row is the number of its units, or one,
   * exactly when it has a key or at most one entity: a replay of no periods counts its entities.
   */
  lemma NewTotalIff(p: Pedido)
    requires p.fonte != "bcb" && !p.entregaAgregada
    ensures TotalCriado(p) == Max(|AllUnits(p)|, 1) <==> p.tipo != Replay || p.periodos != [] || |p.entes| <= 1
  {
    UnitsOfRequest(p);
    BlockIsProduct(|p.entes|, |Chaves(p)|);
  }

  /** An aggregated delivery has one unit a period, and its new row counts one for each entity. */
  lemma AggregatedTotalExample()
    ensures var p := Pedido(Run, "capag", true, ["35", "33"], ["2023"], ["2023"]);
      TotalCriado(p) == 2 && AllUnits(p) == [Unidade("BR", "2023")]
  {
  }

  /** What a caller must check for a request to name no unit twice. */
  ghost predicate PedidoSemRepeticao(p: Pedido) {
    || p.fonte == "bcb"
    || (p.entregaAgregada && NoDup(Chaves(p)))
    || (!p.entregaAgregada && (p.entes == [] || Chaves(p) == [] || (NoDup(p.entes) && NoDup(Chaves(p)))))
  }

  lemma PorEnteNoDup(ente: string, chaves: seq<string>)
    ensures NoDup(PorEnte(ente, chaves)) <==> NoDup(chaves)
  {
    var us := PorEnte(ente, chaves);
    assert forall i :: 0 <= i < |chaves| ==> us[i] == Unidade(ente, chaves[i]);
    if NoDup(us) {
      forall i, j | 0 <= i < j < |chaves| ensures chaves[i] != chaves[j] {
        assert us[i] != us[j];
      }
    }
  }

  lemma {:induction false} ProdutoMembers(entes: seq<string>, chaves: seq<string>, u: Unidade)
    ensures u in Produto(entes, chaves) <==> u.ente in entes && u.chave in chaves
  {
    if entes != [] {
      ProdutoMembers(entes[1..], chaves, u);
      var us := PorEnte(entes[0], chaves);
      assert forall i :: 0 <= i < |chaves| ==> us[i] == Unidade(entes[0], chaves[i]);
      assert u in us <==> u.ente == entes[0] && u.chave in chaves;
      assert entes == [entes[0]] + entes[1..];
    }
  }

  lemma {:induction false} ProdutoNoDup(entes: seq<string>, chaves: seq<string>)
    ensures NoDup(Produto(entes, chaves)) <==> entes == [] || chaves == [] || (NoDup(entes) && NoDup(chaves))
  {
    if entes == [] {
    } else {
      var head, tail := PorEnte(entes[0], chaves), Produto(entes[1..], chaves);
      ProdutoNoDup(entes[1..], chaves);
      PorEnteNoDup(entes[0], chaves);
      NoDupConcat(head, tail);
      NoDupConcat([entes[0]], entes[1..]);
      assert [entes[0]] + entes[1..] == entes;
      assert forall u :: u in head ==> u.ente == entes[0];
      forall u | u in head ensures u in tail <==> entes[0] in entes[1..] {
        ProdutoMembers(entes[1..], chaves, u);
      }
      if chaves == [] {
        assert head == [];
        assert tail == [] by {
          if tail != [] { ProdutoMembers(entes[1..], chaves, tail[0]); }
        }
      } else {
        assert head[0] in head;
      }
    }
  }

  /** A job names a unit twice exactly when its request repeats an entity or a key. */
  lemma AllUnitsNoDup(p: Pedido)
    ensures NoDup(AllUnits(p)) <==> PedidoSemRepeticao(p)
  {
    PorEnteNoDup("BR", Chaves(p));
    ProdutoNoDup(p.entes, Chaves(p));
  }

  /** `dict.fromkeys`: the first occurrence of each. */
  function SemRepetir(s: seq<string>): (r: seq<string>)
    ensures forall x :: x in r <==> x in s
  {
    if s == [] then []
    else
      var n := |s| - 1;
      var r := SemRepetir(s[..n]);
      assert s == s[..n] + [s[n]];
      if s[n] in r then r else r + [s[n]]
  }

  lemma {:induction false} WithoutRepeats(s: seq<string>)
    ensures NoDup(SemRepetir(s))
  {
    if s != [] {
      var n := |s| - 1;
      WithoutRepeats(s[..n]);
      NoDupConcat(SemRepetir(s[..n]), [s[n]]);
    }
  }

  /** Entities are stored without repeats, so only years, or the periods of a replay, can repeat a unit. */
  lemma OnlyKeysRepeat(p: Pedido, pedidos: seq<string>)
    requires p.entes == SemRepetir(pedidos) && p.fonte != "bcb" && (p.entregaAgregada || p.entes != [])
    ensures NoDup(AllUnits(p)) <==> NoDup(Chaves(p))
  {
    AllUnitsNoDup(p);
    WithoutRepeats(pedidos);
  }

  /** A year asked for twice is two units. */
  lemma RepeatedYearExample()
    ensures var p := Pedido(Run, "siconfi_rreo", false, ["3550308"], [], ["2023", "2023"]);
      AllUnits(p) == [Unidade("3550308", "2023"), Unidade("3550308", "2023")] && !NoDup(AllUnits(p))
  {
    var p := Pedido(Run, "siconfi_rreo", false, ["3550308"], [], ["2023", "2023"]);
    assert p.entes[1..] == [] && Produto([], p.anos) == [];
    var us := AllUnits(p);
    assert us == PorEnte("3550308", p.anos);
    assert us[0] == us[1];
  }

  // ---------------------------------------------------------------- checkpoint and plan

  function Sucessos(itens: seq<Item>): seq<Item> {
    if itens == [] then []
    else (if itens[0].ok then [itens[0]] else []) + Sucessos(itens[1..])
  }

  function Falhos(itens: seq<Item>): seq<Unidade> {
    if itens == [] then []
    else (if itens[0].ok then [] else [itens[0].unidade]) + Falhos(itens[1..])
  }

  function SucessoKeys(itens: seq<Item>): set<Unidade> {
    set it | it in itens && it.ok :: it.unidade
  }

  function Pendentes(todas: seq<Unidade>, feitas: set<Unidade>): seq<Unidade> {
    if todas == [] then []
    else (if todas[0] in feitas then [] else [todas[0]]) + Pendentes(todas[1..], feitas)
  }

  /** `base` is kept as already done, `unidades` is what the attempt will run. */
  datatype Plano = Plano(base: seq<Item>, unidades: seq<Unidade>)

  function RetryPlan(todas: seq<Unidade>, job: Job): Plano {
    var sucessos := Sucessos(job.itens);
    var falhos := Falhos(job.itens);
    match job.erroSistema
    case Some(fase) =>
      if fase == FasePosJob then Plano(sucessos, falhos)
      else Plano(sucessos, Pendentes(todas, SucessoKeys(job.itens)))
    case None =>
      if falhos != [] then Plano(sucessos, falhos) else Plano([], todas)
  }

  lemma {:induction false} SucessosMembers(itens: seq<Item>)
    ensures forall it :: it in Sucessos(itens) <==> it in itens && it.ok
    ensures SucessoKeys(Sucessos(itens)) == SucessoKeys(itens)
    ensures |Sucessos(itens)| + |Falhos(itens)| == |itens|
  {
    if itens != [] {
      SucessosMembers(itens[1..]);
      assert itens == [itens[0]] + itens[1..];
    }
  }

  lemma {:induction false} FalhosMembers(itens: seq<Item>)
    ensures forall u :: u in Falhos(itens) <==> Item(u, false) in itens
  {
    if itens != [] {
      FalhosMembers(itens[1..]);
      assert itens == [itens[0]] + itens[1..];
      forall u ensures u in Falhos(itens) <==> Item(u, false) in itens {
        assert itens[0].ok || itens[0] == Item(itens[0].unidade, false);
      }
    }
  }

  lemma {:induction false} PendentesMembers(todas: seq<Unidade>, feitas: set<Unidade>)
    ensures forall u :: u in Pendentes(todas, feitas) <==> u in todas && u !in feitas
    ensures feitas == {} ==> Pendentes(todas, feitas) == todas
  {
    if todas != [] {
      PendentesMembers(todas[1..], feitas);
      assert todas == [todas[0]] + todas[1..];
    }
  }

  lemma {:induction false} PendentesTwice(todas: seq<Unidade>, a: set<Unidade>, b: set<Unidade>)
    ensures Pendentes(Pendentes(todas, a), b) == Pendentes(todas, a + b)
  {
    if todas != [] {
      PendentesTwice(todas[1..], a, b);
      var head := if todas[0] in a then [] else [todas[0]];
      PendentesConcat(head, Pendentes(todas[1..], a), b);
    }
  }

  lemma PendentesCons(u: Unidade, resto: seq<Unidade>, feitas: set<Unidade>)
    ensures Pendentes([u] + resto, feitas) == (if u in feitas then [] else [u]) + Pendentes(resto, feitas)
  {
    assert ([u] + resto)[1..] == resto;
  }

  lemma {:induction false} PendentesConcat(x: seq<Unidade>, y: seq<Unidade>, feitas: set<Unidade>)
    ensures Pendentes(x + y, feitas) == Pendentes(x, feitas) + Pendentes(y, feitas)
  {
    if x == [] {
      assert x + y == y;
    } else {
      PendentesConcat(x[1..], y, feitas);
      PendentesCons(x[0], x[1..] + y, feitas);
      assert x + y == [x[0]] + (x[1..] + y);
      var head := if x[0] in feitas then [] else [x[0]];
      assert head + (Pendentes(x[1..], feitas) + Pendentes(y, feitas))
          == (head + Pendentes(x[1..], feitas)) + Pendentes(y, feitas);
    }
  }

  lemma {:induction false} PendentesSame(todas: seq<Unidade>, a: set<Unidade>, b: set<Unidade>)
    requires forall u :: u in todas ==> (u in a <==> u in b)
    ensures Pendentes(todas, a) == Pendentes(todas, b)
  {
    if todas != [] {
      assert todas[0] in todas;
      PendentesSame(todas[1..], a, b);
    }
  }

  lemma {:induction false} PendentesNoDup(todas: seq<Unidade>, feitas: set<Unidade>)
    requires NoDup(todas)
    ensures NoDup(Pendentes(todas, feitas))
  {
    if todas != [] {
      assert todas == [todas[0]] + todas[1..];
      NoDupConcat([todas[0]], todas[1..]);
      PendentesNoDup(todas[1..], feitas);
      PendentesMembers(todas[1..], feitas);
      if todas[0] !in feitas {
        NoDupConcat([todas[0]], Pendentes(todas[1..], feitas));
      }
    }
  }

  lemma {:induction false} NothingPending(todas: seq<Unidade>, feitas: set<Unidade>)
    requires forall u :: u in todas ==> u in feitas
    ensures Pendentes(todas, feitas) == []
  {
    if todas != [] {
      assert todas[0] in todas;
      NothingPending(todas[1..], feitas);
    }
  }

  lemma KeysConcat(a: seq<Item>, b: seq<Item>)
    ensures SucessoKeys(a + b) == SucessoKeys(a) + SucessoKeys(b)
  {
  }

  lemma {:induction false} FailuresConcat(a: seq<Item>, b: seq<Item>)
    ensures Falhos(a + b) == Falhos(a) + Falhos(b)
  {
    if a == [] {
      assert a + b == b;
    } else {
      FailuresConcat(a[1..], b);
      assert (a + b)[1..] == a[1..] + b && (a + b)[0] == a[0];
      var head := if a[0].ok then [] else [a[0].unidade];
      assert head + (Falhos(a[1..]) + Falhos(b)) == (head + Falhos(a[1..])) + Falhos(b);
    }
  }

  lemma {:induction false} SuccessesConcat(a: seq<Item>, b: seq<Item>)
    ensures Sucessos(a + b) == Sucessos(a) + Sucessos(b)
  {
    if a == [] {
      assert a + b == b;
    } else {
      SuccessesConcat(a[1..], b);
      assert (a + b)[1..] == a[1..] + b && (a + b)[0] == a[0];
      var head := if a[0].ok then [a[0]] else [];
      assert head + (Sucessos(a[1..]) + Sucessos(b)) == (head + Sucessos(a[1..])) + Sucessos(b);
    }
  }

  lemma FalhosConcat(a: seq<Item>, b: seq<Item>)
    ensures Falhos(a + b) == Falhos(a) + Falhos(b)
    ensures Sucessos(a + b) == Sucessos(a) + Sucessos(b)
    ensures SucessoKeys(a + b) == SucessoKeys(a) + SucessoKeys(b)
  {
    KeysConcat(a, b);
    FailuresConcat(a, b);
    SuccessesConcat(a, b);
  }

  lemma {:induction false} AllOkKeepsAll(itens: seq<Item>)
    requires forall it :: it in itens ==> it.ok
    ensures Falhos(itens) == [] && Sucessos(itens) == itens
  {
    if itens != [] {
      assert itens[0] in itens;
      AllOkKeepsAll(itens[1..]);
      assert itens == [itens[0]] + itens[1..];
    }
  }

  /** `itens` reports, in order, on the first |itens| units of `us`. */
  ghost predicate Reports(itens: seq<Item>, us: seq<Unidade>) {
    |itens| <= |us| && forall k :: 0 <= k < |itens| ==> itens[k].unidade == us[k]
  }

  /** The failed units of a full report, in order, are the units it does not count as done. */
  lemma {:induction false} FalhosOfReport(itens: seq<Item>, us: seq<Unidade>)
    requires Reports(itens, us) && |itens| == |us| && NoDup(us)
    ensures Falhos(itens) == Pendentes(us, SucessoKeys(itens))
  {
    if us != [] {
      assert itens == [itens[0]] + itens[1..] && us == [us[0]] + us[1..];
      NoDupConcat([us[0]], us[1..]);
      assert Reports(itens[1..], us[1..]);
      FalhosOfReport(itens[1..], us[1..]);
      FalhosConcat([itens[0]], itens[1..]);
      forall u | u in us[1..]
        ensures u in SucessoKeys(itens) <==> u in SucessoKeys(itens[1..])
      {
        assert u != us[0];
      }
      PendentesSame(us[1..], SucessoKeys(itens), SucessoKeys(itens[1..]));
      forall it | it in itens[1..] ensures it.unidade != us[0] {
        var k :| 0 <= k < |itens[1..]| && itens[1..][k] == it;
        assert it.unidade == us[1..][k] && us[1..][k] in us[1..];
      }
      assert us[0] in SucessoKeys(itens) <==> itens[0].ok by {
        assert itens[0] in itens;
      }
    }
  }

  // ---------------------------------------------------------------- what each commit does to the row

  /** `_criar`: the row as inserted. */
  function NovoJob(total: nat): Job {
    Job(NaFila, 0, None, [], None, total, 0, 0, 0)
  }

  function TotalDoPlano(plano: Plano): nat {
    Max(Max(|plano.base| + |plano.unidades|, |plano.base|), 1)
  }

  function Progresso(processados: nat, total: nat): nat
    requires total > 0
  {
    Min(processados * 90 / total, 90)
  }

  /** The first commit of `_processar`: conditional claim plus the initial checkpoint. */
  function AposClaim(todas: seq<Unidade>, job: Job, iniciadoEm: int): Job {
    var plano := RetryPlan(todas, job);
    var total := TotalDoPlano(plano);
    Job(Executando, job.tentativas + 1, Some(iniciadoEm), plano.base, None,
        total, |plano.base|, 0, |plano.base| * 90 / total)
  }

  /** One unit's commit: whole columns are rewritten from the executor's memory. */
  function AposUnidade(job: Job, plano: Plano, novos: seq<Item>): Job {
    job.(itens := plano.base + novos, erroSistema := None,
         itensOk := |plano.base| + |Sucessos(novos)|, itensErro := |Falhos(novos)|,
         progresso := Progresso(|plano.base| + |novos|, TotalDoPlano(plano)))
  }

  /** The last commit of `_processar`. */
  function AposFinal(job: Job, itens: seq<Item>): Job {
    var erros := |Falhos(itens)|;
    job.(itens := itens, erroSistema := None,
         itensOk := |Sucessos(itens)|, itensErro := erros,
         status := if erros == 0 then Concluido else Falhou, progresso := 100)
  }

  /** Every terminal failure writer: items are kept, the phase is recorded. */
  function ComFalha(job: Job, fase: Fase): Job {
    job.(status := Falhou, erroSistema := Some(fase))
  }

  /** `reconcile_abandoned` on one selected row. */
  function AposReconciliacao(job: Job): Job {
    job.(status := NaFila, erroSistema := Some(FaseAbandonado))
  }

  /** `retry_job`: counters go back to zero, the checkpoint stays. */
  function AposRetry(todas: seq<Unidade>, job: Job): Job {
    job.(status := NaFila, progresso := 0, itensTotal := |RetryPlan(todas, job).unidades|,
         itensOk := 0, itensErro := 0)
  }

  /** The guard of `jobs_service.retry` besides the status. */
  predicate Retentavel(job: Job) {
    Falhos(job.itens) != [] || job.erroSistema.Some?
  }
}
