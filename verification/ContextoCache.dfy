/**
 * The cache of resolved accounting contexts: at most 64 of them, each good for 30 seconds, the
 * least recently touched leaving first, and keyed by the identity of the deliveries in force.
 */
module ContextoCache {
  import opened Basics
  import opened Ordenacao
  import opened Texto

  const TTL_SECONDS: real := 30.0
  const MAX_ENTRIES: nat := 64
  const MIN_MONTHS: nat := 6

  datatype Entrega = Entrega(relatorio: string, periodo: string, versao: string)

  datatype MscMes = MscMes(periodo: string, mes: int, versao: string)

  datatype Contexto = Contexto(
    codIbge: string, uf: string, ano: nat, esfera: Option<string>, dcaVersao: Option<string>,
    mscMeses: seq<MscMes>, asOf: Option<int>)

  datatype Chave = Chave(cod: string, ano: nat, identidade: seq<Entrega>)

  datatype Guardado = Guardado(storedAt: real, contexto: Contexto)

  /** One put, or one hit. */
  datatype Toque = Posto(chave: Chave, guardado: Guardado) | Servido(chave: Chave)

  // ---------------------------------------------------------------- what the log says

  /** The last thing put under a key. */
  function UltimoPosto(ts: seq<Toque>, k: Chave): Option<Guardado> {
    if ts == [] then None
    else if ts[|ts| - 1].Posto? && ts[|ts| - 1].chave == k then Some(ts[|ts| - 1].guardado)
    else UltimoPosto(ts[..|ts| - 1], k)
  }

  /** When a key was last touched, as a position in the log; -1 if never. */
  function UltimoToque(ts: seq<Toque>, k: Chave): (r: int)
    ensures -1 <= r < |ts|
  {
    if ts == [] then -1
    else if ts[|ts| - 1].chave == k then |ts| - 1
    else UltimoToque(ts[..|ts| - 1], k)
  }

  /** The keys touched after a position. */
  ghost function TocadasDepois(ts: seq<Toque>, i: int): set<Chave> {
    set n | 0 <= n < |ts| && i < n :: ts[n].chave
  }

  lemma {:induction false} LastTouchIsLast(ts: seq<Toque>, k: Chave)
    ensures var r := UltimoToque(ts, k); (r >= 0 ==> ts[r].chave == k) && forall i :: r < i < |ts| ==> ts[i].chave != k
  {
    if ts != [] { LastTouchIsLast(ts[..|ts| - 1], k); }
  }

  lemma LastTouchAppend(ts: seq<Toque>, t: Toque, k: Chave)
    ensures UltimoToque(ts + [t], k) == if t.chave == k then |ts| else UltimoToque(ts, k)
    ensures UltimoPosto(ts + [t], k) == if t.Posto? && t.chave == k then Some(t.guardado) else UltimoPosto(ts, k)
  {
    assert (ts + [t])[..|ts|] == ts;
  }

  lemma TouchedAfterGrows(ts: seq<Toque>, t: Toque, i: int)
    ensures TocadasDepois(ts, i) <= TocadasDepois(ts + [t], i)
    ensures |TocadasDepois(ts, i)| <= |TocadasDepois(ts + [t], i)|
  {
    forall k | k in TocadasDepois(ts, i) ensures k in TocadasDepois(ts + [t], i) {
      var n :| 0 <= n < |ts| && i < n && ts[n].chave == k;
      assert (ts + [t])[n].chave == k;
    }
    SubsetSize(TocadasDepois(ts, i), TocadasDepois(ts + [t], i));
  }

  lemma {:induction false} SubsetSize<T>(a: set<T>, b: set<T>)
    requires a <= b
    ensures |a| <= |b|
  {
    if a != {} {
      var x :| x in a;
      SubsetSize(a - {x}, b - {x});
    }
  }

  lemma {:induction false} DistinctCount<T>(s: seq<T>, x: set<T>)
    requires NoDup(s) && forall i :: 0 <= i < |s| ==> s[i] in x
    ensures |s| <= |x|
  {
    if s != [] {
      var n := |s| - 1;
      DistinctCount(s[..n], x - {s[n]});
    }
  }

  // ---------------------------------------------------------------- the invariant

  /** A key that was put and is gone had its time over, or 64 other keys have been touched since. */
  ghost predicate Justificada(ts: seq<Toque>, k: Chave, agora: real) {
    UltimoPosto(ts, k).Some? ==>
      || agora - UltimoPosto(ts, k).value.storedAt > 30.0
      || |TocadasDepois(ts, UltimoToque(ts, k))| >= 64
  }

  function Sem(ordem: seq<Chave>, k: Chave): (r: seq<Chave>)
    ensures |r| <= |ordem|
  {
    if ordem == [] then [] else Sem(ordem[..|ordem| - 1], k) + if ordem[|ordem| - 1] == k then [] else [ordem[|ordem| - 1]]
  }

  lemma {:induction false} WithoutKey(ordem: seq<Chave>, k: Chave)
    requires NoDup(ordem)
    ensures NoDup(Sem(ordem, k))
    ensures forall x :: x in Sem(ordem, k) <==> x in ordem && x != k
    ensures |Sem(ordem, k)| == if k in ordem then |ordem| - 1 else |ordem|
  {
    if ordem != [] {
      var n := |ordem| - 1;
      WithoutKey(ordem[..n], k);
      assert ordem == ordem[..n] + [ordem[n]];
      NoDupConcat(ordem[..n], [ordem[n]]);
      NoDupConcat(Sem(ordem[..n], k), if ordem[n] == k then [] else [ordem[n]]);
    }
  }

  ghost predicate PorToque(ordem: seq<Chave>, ts: seq<Toque>) {
    && (forall i :: 0 <= i < |ordem| ==> UltimoToque(ts, ordem[i]) >= 0)
    && (forall i, j :: 0 <= i < j < |ordem| ==> UltimoToque(ts, ordem[i]) < UltimoToque(ts, ordem[j]))
  }

  lemma TouchOrderAppend(ordem: seq<Chave>, k: Chave, ts: seq<Toque>)
    requires PorToque(ordem, ts) && UltimoToque(ts, k) >= 0
    requires forall x :: x in ordem ==> UltimoToque(ts, x) < UltimoToque(ts, k)
    ensures PorToque(ordem + [k], ts)
  {
    var r := ordem + [k];
    forall i, j | 0 <= i < j < |r| ensures UltimoToque(ts, r[i]) < UltimoToque(ts, r[j]) {
      assert r[i] in ordem;
    }
  }

  lemma {:induction false} WithoutKeyOrder(ordem: seq<Chave>, k: Chave, ts: seq<Toque>)
    requires NoDup(ordem) && PorToque(ordem, ts)
    ensures PorToque(Sem(ordem, k), ts)
  {
    if ordem != [] {
      var n := |ordem| - 1;
      WithoutKeyOrder(ordem[..n], k, ts);
      WithoutKey(ordem[..n], k);
      if ordem[n] != k { TouchOrderAppend(Sem(ordem[..n], k), ordem[n], ts); }
    }
  }

  /** Touching a key moves it to the end. */
  lemma TouchMovesToEnd(ordem: seq<Chave>, ts: seq<Toque>, t: Toque)
    requires NoDup(ordem) && PorToque(ordem, ts)
    ensures NoDup(Sem(ordem, t.chave) + [t.chave]) && PorToque(Sem(ordem, t.chave) + [t.chave], ts + [t])
    ensures forall x :: x in Sem(ordem, t.chave) + [t.chave] <==> x in ordem || x == t.chave
  {
    var s := Sem(ordem, t.chave);
    WithoutKey(ordem, t.chave);
    WithoutKeyOrder(ordem, t.chave, ts);
    NoDupConcat(s, [t.chave]);
    forall x { LastTouchAppend(ts, t, x); }
    assert forall i :: 0 <= i < |s| ==> s[i] in s;
  }

  lemma AbsentStays(ts: seq<Toque>, t: Toque, k: Chave, antes: real, agora: real)
    requires Justificada(ts, k, antes) && antes <= agora && t.chave != k
    ensures Justificada(ts + [t], k, agora)
  {
    LastTouchAppend(ts, t, k);
    TouchedAfterGrows(ts, t, UltimoToque(ts, k));
  }

  /** With more than 64 keys held, the first has 64 others touched after it. */
  lemma FirstMayGo(ordem: seq<Chave>, ts: seq<Toque>, agora: real)
    requires NoDup(ordem) && PorToque(ordem, ts) && |ordem| > MAX_ENTRIES
    ensures Justificada(ts, ordem[0], agora)
  {
    var k, resto := ordem[0], ordem[1..];
    forall i | 0 <= i < |resto| ensures resto[i] in TocadasDepois(ts, UltimoToque(ts, k)) {
      var n := UltimoToque(ts, ordem[i + 1]);
      LastTouchIsLast(ts, ordem[i + 1]);
      assert ts[n].chave == resto[i] && UltimoToque(ts, k) < n;
    }
    DistinctCount(resto, TocadasDepois(ts, UltimoToque(ts, k)));
  }

  /**
   * Keys in the order of their last touch, the oldest first, each with the last thing put under it;
   * and every absence has its reason.
   */
  ghost predicate Coerente(ordem: seq<Chave>, entradas: map<Chave, Guardado>, ts: seq<Toque>, agora: real) {
    && NoDup(ordem)
    && PorToque(ordem, ts)
    && (forall k :: k in entradas <==> k in ordem)
    && (forall k :: k in entradas ==> UltimoPosto(ts, k) == Some(entradas[k]))
    && (forall k :: k !in entradas ==> Justificada(ts, k, agora))
  }

  lemma HitKeeps(ordem: seq<Chave>, entradas: map<Chave, Guardado>, ts: seq<Toque>, antes: real, k: Chave, agora: real)
    requires Coerente(ordem, entradas, ts, antes) && antes <= agora && k in entradas
    ensures Coerente(Sem(ordem, k) + [k], entradas, ts + [Servido(k)], agora)
  {
    TouchMovesToEnd(ordem, ts, Servido(k));
    forall x { LastTouchAppend(ts, Servido(k), x); }
    forall x | x !in entradas ensures Justificada(ts + [Servido(k)], x, agora) {
      AbsentStays(ts, Servido(k), x, antes, agora);
    }
  }

  lemma StaleKeeps(ordem: seq<Chave>, entradas: map<Chave, Guardado>, ts: seq<Toque>, antes: real, k: Chave, agora: real)
    requires Coerente(ordem, entradas, ts, antes) && antes <= agora && k in entradas
    requires agora - entradas[k].storedAt > TTL_SECONDS
    ensures Coerente(Sem(ordem, k), entradas - {k}, ts, agora)
  {
    WithoutKey(ordem, k);
    WithoutKeyOrder(ordem, k, ts);
    assert Justificada(ts, k, agora);
  }

  lemma LaterKeeps(ordem: seq<Chave>, entradas: map<Chave, Guardado>, ts: seq<Toque>, antes: real, agora: real)
    requires Coerente(ordem, entradas, ts, antes) && antes <= agora
    ensures Coerente(ordem, entradas, ts, agora)
  {
  }

  lemma PutKeeps(ordem: seq<Chave>, entradas: map<Chave, Guardado>, ts: seq<Toque>, antes: real, k: Chave, g: Guardado, agora: real)
    requires Coerente(ordem, entradas, ts, antes) && antes <= agora
    ensures Coerente(Sem(ordem, k) + [k], entradas[k := g], ts + [Posto(k, g)], agora)
  {
    TouchMovesToEnd(ordem, ts, Posto(k, g));
    forall x { LastTouchAppend(ts, Posto(k, g), x); }
    forall x | x !in entradas && x != k ensures Justificada(ts + [Posto(k, g)], x, agora) {
      AbsentStays(ts, Posto(k, g), x, antes, agora);
    }
  }

  lemma EvictKeeps(ordem: seq<Chave>, entradas: map<Chave, Guardado>, ts: seq<Toque>, agora: real)
    requires Coerente(ordem, entradas, ts, agora) && |ordem| > MAX_ENTRIES
    ensures Coerente(ordem[1..], entradas - {ordem[0]}, ts, agora)
  {
    FirstMayGo(ordem, ts, agora);
    assert ordem == [ordem[0]] + ordem[1..];
    NoDupConcat([ordem[0]], ordem[1..]);
  }

  /** No other key held was touched as long ago. */
  ghost predicate MaisAntiga(v: Chave, entradas: map<Chave, Guardado>, ts: seq<Toque>) {
    forall x :: x in entradas && x != v ==> UltimoToque(ts, v) < UltimoToque(ts, x)
  }

  lemma OldestFirst(ordem: seq<Chave>, entradas: map<Chave, Guardado>, ts: seq<Toque>, agora: real)
    requires Coerente(ordem, entradas, ts, agora) && ordem != []
    ensures MaisAntiga(ordem[0], entradas, ts)
  {
    forall x | x in entradas && x != ordem[0] ensures UltimoToque(ts, ordem[0]) < UltimoToque(ts, x) {
      var i :| 0 <= i < |ordem| && ordem[i] == x;
    }
  }

  /** The new context is held; the only one that may go is the oldest, when a new key finds the cache full. */
  ghost predicate AposPut(ordem: seq<Chave>, antes: map<Chave, Guardado>, depois: map<Chave, Guardado>,
                          ts: seq<Toque>, k: Chave, g: Guardado) {
    && k in depois && depois[k] == g
    && (k in antes || |ordem| < 64 ==> depois == antes[k := g])
    && (k !in antes && |ordem| == 64 ==>
          depois == antes[k := g] - {ordem[0]} && MaisAntiga(ordem[0], antes, ts))
  }

  // ---------------------------------------------------------------- the cache

  class Cache {
    var ordem: seq<Chave>
    var entradas: map<Chave, Guardado>
    ghost var toques: seq<Toque>
    ghost var relogio: real

    ghost predicate Valid()
      reads this
    {
      |ordem| <= MAX_ENTRIES && Coerente(ordem, entradas, toques, relogio)
    }

    constructor (ghost agora: real)
      ensures Valid() && entradas == map[] && toques == [] && relogio == agora
    {
      ordem, entradas, toques, relogio := [], map[], [], agora;
    }

    /**
     * A hit is the last context put under the same entity, year and identity, at most 30 seconds
     * old. A miss means there was none, or it is older, or 64 other keys have been touched since.
     */
    method Get(cod: string, ano: nat, identidade: seq<Entrega>, agora: real) returns (r: Option<Contexto>)
      requires Valid() && relogio <= agora
      modifies this
      ensures Valid() && relogio == agora
      ensures var k := Chave(cod, ano, identidade);
        && (r.Some? ==>
              && UltimoPosto(old(toques), k).Some? && r.value == UltimoPosto(old(toques), k).value.contexto
              && agora - UltimoPosto(old(toques), k).value.storedAt <= TTL_SECONDS
              && toques == old(toques) + [Servido(k)] && entradas == old(entradas)
              && k in entradas && r.value == entradas[k].contexto)
        && (r == None ==> Justificada(old(toques), k, agora) && toques == old(toques) && entradas == old(entradas) - {k})
    {
      var k := Chave(cod, ano, identidade);
      if k !in entradas {
        LaterKeeps(ordem, entradas, toques, relogio, agora);
        relogio := agora;
        return None;
      }
      var cached := entradas[k];
      if agora - cached.storedAt > TTL_SECONDS {
        StaleKeeps(ordem, entradas, toques, relogio, k, agora);
        WithoutKey(ordem, k);
        ordem, entradas, relogio := Sem(ordem, k), entradas - {k}, agora;
        return None;
      }
      HitKeeps(ordem, entradas, toques, relogio, k, agora);
      WithoutKey(ordem, k);
      ordem, toques, relogio := Sem(ordem, k) + [k], toques + [Servido(k)], agora;
      return Some(cached.contexto);
    }

    /** When a new key finds the cache full, the one touched longest ago goes. */
    method Put(contexto: Contexto, identidade: seq<Entrega>, agora: real)
      requires Valid() && relogio <= agora
      modifies this
      ensures Valid() && relogio == agora
      ensures var k, g := Chave(contexto.codIbge, contexto.ano, identidade), Guardado(agora, contexto);
        && toques == old(toques) + [Posto(k, g)]
        && AposPut(old(ordem), old(entradas), entradas, old(toques), k, g)
    {
      var k, g := Chave(contexto.codIbge, contexto.ano, identidade), Guardado(agora, contexto);
      PutKeeps(ordem, entradas, toques, relogio, k, g, agora);
      PutAndTrim(ordem, entradas, toques, relogio, k, g);
      ordem, entradas := Sem(ordem, k) + [k], entradas[k := g];
      toques, relogio := toques + [Posto(k, g)], agora;
      Desalojar();
    }

    /** The trimming loop at the end of a put. */
    method Desalojar()
      requires |ordem| <= MAX_ENTRIES + 1 && Coerente(ordem, entradas, toques, relogio)
      modifies this`ordem, this`entradas
      ensures Valid()
      ensures |old(ordem)| <= MAX_ENTRIES ==> ordem == old(ordem) && entradas == old(entradas)
      ensures |old(ordem)| > MAX_ENTRIES ==> ordem == old(ordem)[1..] && entradas == old(entradas) - {old(ordem)[0]}
    {
      while |ordem| > MAX_ENTRIES
        invariant Coerente(ordem, entradas, toques, relogio)
        invariant if |old(ordem)| > MAX_ENTRIES && |ordem| <= MAX_ENTRIES
                  then ordem == old(ordem)[1..] && entradas == old(entradas) - {old(ordem)[0]}
                  else ordem == old(ordem) && entradas == old(entradas)
      {
        EvictKeeps(ordem, entradas, toques, relogio);
        entradas := entradas - {ordem[0]};
        ordem := ordem[1..];
      }
    }
  }

  /** What the trimming after a put of `k` leaves. */
  lemma PutAndTrim(ordem: seq<Chave>, entradas: map<Chave, Guardado>, ts: seq<Toque>, relogio: real, k: Chave, g: Guardado)
    requires Coerente(ordem, entradas, ts, relogio) && |ordem| <= MAX_ENTRIES
    ensures var ordem', entradas' := Sem(ordem, k) + [k], entradas[k := g];
      && |ordem'| <= MAX_ENTRIES + 1
      && (|ordem'| <= MAX_ENTRIES ==> AposPut(ordem, entradas, entradas', ts, k, g))
      && (|ordem'| > MAX_ENTRIES ==> AposPut(ordem, entradas, entradas' - {ordem'[0]}, ts, k, g))
  {
    WithoutKey(ordem, k);
    if ordem != [] && ordem[0] != k { FrontStays(ordem, k); }
    if ordem != [] { OldestFirst(ordem, entradas, ts, relogio); }
  }

  /** Another key in front stays in front. */
  lemma {:induction false} FrontStays(ordem: seq<Chave>, k: Chave)
    requires ordem != [] && ordem[0] != k
    ensures Sem(ordem, k) != [] && Sem(ordem, k)[0] == ordem[0]
  {
    if |ordem| > 1 { FrontStays(ordem[..|ordem| - 1], k); }
  }

  // ---------------------------------------------------------------- resolving a context

  const REL_MSC := "MSC"
  const REL_DCA := "DCA"

  function AteM(s: string): string {
    if s == "" || (|s| >= 2 && s[..2] == "-M") then "" else [s[0]] + AteM(s[1..])
  }

  /** `int(periodo.split("-M")[1])`; None is the exception. */
  function MesDe(periodo: string): Option<int> {
    if |periodo| < 2 then None
    else if periodo[..2] == "-M" then
      var t := Strip(AteM(periodo[2..]));
      if t != "" && forall i :: 0 <= i < |t| ==> Digito(t[i]) then Some(Inteiro(t)) else None
    else MesDe(periodo[1..])
  }

  ghost predicate SemMarca(s: string) {
    forall i :: 0 <= i < |s| - 1 ==> !(s[i] == '-' && s[i + 1] == 'M')
  }

  lemma {:induction false} UntilTheMark(s: string, resto: string)
    requires SemMarca(s) && (s == "" || s[|s| - 1] != '-') && (resto == "" || "-M" <= resto)
    ensures AteM(s + resto) == s
  {
    var t := s + resto;
    if s == "" {
      assert t == resto;
    } else {
      assert t[1..] == s[1..] + resto;
      if |t| >= 2 {
        assert t[..2] == [t[0], t[1]];
        if |s| == 1 { assert t[0] != '-'; } else { assert t[1] == s[1]; }
      }
      UntilTheMark(s[1..], resto);
    }
  }

  lemma {:induction false} StripDigits(t: string)
    requires t != "" && forall i :: 0 <= i < |t| ==> Digito(t[i])
    ensures Strip(t) == t
  {
  }

  /** A period is read as the number after its first `-M` and before the next. */
  lemma {:induction false} MonthIsAfterMark(antes: string, mes: string, resto: string)
    requires SemMarca(antes) && mes != "" && forall i :: 0 <= i < |mes| ==> Digito(mes[i])
    requires resto == "" || "-M" <= resto
    ensures MesDe(antes + "-M" + mes + resto) == Some(Inteiro(mes))
  {
    var s := antes + "-M" + mes + resto;
    if antes == "" {
      assert s[..2] == "-M" && s[2..] == mes + resto;
      UntilTheMark(mes, resto);
      StripDigits(mes);
    } else {
      assert s[..2] == [s[0], s[1]] && s[..2] != "-M" by {
        if |antes| == 1 { assert s[1] == '-'; } else { assert s[1] == antes[1] && s[0] == antes[0]; }
      }
      assert s[1..] == antes[1..] + "-M" + mes + resto;
      MonthIsAfterMark(antes[1..], mes, resto);
    }
  }

  /** A text without the mark has no month. */
  lemma {:induction false} NoMarkNoMonth(s: string)
    requires SemMarca(s)
    ensures MesDe(s) == None
  {
    if |s| >= 2 {
      assert s[..2] == [s[0], s[1]];
      NoMarkNoMonth(s[1..]);
    }
  }

  /** What the database answers during one call. */
  datatype Consulta = Consulta(
    identidade: seq<Entrega>, uf: string, esfera: Option<string>, periodos: seq<string>,
    dcaAsOf: Option<string>, mscAsOf: map<string, Option<string>>, dcaPresente: bool, presentes: set<(string, string)>)

  /** The first DCA delivery of the identity for the year. */
  function DcaDe(ident: seq<Entrega>, periodo: string): (r: Option<string>)
    ensures r == None <==> forall e :: e in ident ==> !(e.relatorio == REL_DCA && e.periodo == periodo)
    ensures r.Some? ==> Entrega(REL_DCA, periodo, r.value) in ident
  {
    if ident == [] then None
    else if ident[0].relatorio == REL_DCA && ident[0].periodo == periodo then Some(ident[0].versao)
    else
      assert forall e :: e in ident <==> e == ident[0] || e in ident[1..];
      DcaDe(ident[1..], periodo)
  }

  function MesLeq(a: MscMes, b: MscMes): bool {
    a.mes <= b.mes
  }

  /** The months are in order. */
  ghost predicate EmOrdem(meses: seq<MscMes>) {
    forall i, j :: 0 <= i < j < |meses| ==> meses[i].mes <= meses[j].mes
  }

  /** The first delivery of the identity that is the year's DCA. */
  ghost predicate PrimeiraDca(ident: seq<Entrega>, periodo: string, v: string) {
    exists i :: 0 <= i < |ident| && ident[i] == Entrega("DCA", periodo, v)
      && forall j :: 0 <= j < i ==> !(ident[j].relatorio == "DCA" && ident[j].periodo == periodo)
  }

  /** The last delivery of the identity that is the period's MSC. */
  ghost predicate UltimaMsc(ident: seq<Entrega>, periodo: string, v: string) {
    exists i :: 0 <= i < |ident| && ident[i] == Entrega("MSC", periodo, v)
      && forall j :: i < j < |ident| ==> !(ident[j].relatorio == "MSC" && ident[j].periodo == periodo)
  }

  lemma {:induction false} DcaIsFirst(ident: seq<Entrega>, periodo: string)
    ensures DcaDe(ident, periodo).Some? ==> PrimeiraDca(ident, periodo, DcaDe(ident, periodo).value)
  {
    if ident != [] && DcaDe(ident, periodo).Some? {
      if ident[0].relatorio == REL_DCA && ident[0].periodo == periodo {
        assert ident[0] == Entrega("DCA", periodo, ident[0].versao);
      } else {
        var v := DcaDe(ident, periodo).value;
        DcaIsFirst(ident[1..], periodo);
        var i :| 0 <= i < |ident[1..]| && ident[1..][i] == Entrega("DCA", periodo, v)
          && forall j :: 0 <= j < i ==> !(ident[1..][j].relatorio == "DCA" && ident[1..][j].periodo == periodo);
        assert ident[i + 1] == Entrega("DCA", periodo, v);
        forall j | 0 <= j < i + 1 ensures !(ident[j].relatorio == "DCA" && ident[j].periodo == periodo) {
          if j > 0 { assert ident[j] == ident[1..][j - 1]; }
        }
      }
    }
  }

  lemma {:induction false} VersionIsLast(ident: seq<Entrega>, periodo: string)
    ensures periodo in VersoesDe(ident) ==> UltimaMsc(ident, periodo, VersoesDe(ident)[periodo].value)
  {
    if ident != [] && periodo in VersoesDe(ident) {
      var n := |ident| - 1;
      if ident[n].relatorio == REL_MSC && ident[n].periodo == periodo {
        assert ident[n] == Entrega("MSC", periodo, ident[n].versao);
      } else {
        VersionIsLast(ident[..n], periodo);
        LastStays(ident, periodo, VersoesDe(ident)[periodo].value);
      }
    }
  }

  lemma LastStays(ident: seq<Entrega>, periodo: string, v: string)
    requires ident != [] && UltimaMsc(ident[..|ident| - 1], periodo, v)
    requires !(ident[|ident| - 1].relatorio == "MSC" && ident[|ident| - 1].periodo == periodo)
    ensures UltimaMsc(ident, periodo, v)
  {
    var n := |ident| - 1;
    var i :| 0 <= i < n && ident[..n][i] == Entrega("MSC", periodo, v)
      && forall j :: i < j < n ==> !(ident[..n][j].relatorio == "MSC" && ident[..n][j].periodo == periodo);
    assert ident[i] == Entrega("MSC", periodo, v);
    forall j | i < j < |ident| ensures !(ident[j].relatorio == "MSC" && ident[j].periodo == periodo) {
      if j < n { assert ident[j] == ident[..n][j]; }
    }
  }

  ghost predicate DosDados(meses: seq<MscMes>, versoes: map<string, Option<string>>, periodos: seq<string>) {
    && (forall m :: m in meses ==>
          m.periodo in periodos && m.periodo in versoes && versoes[m.periodo] == Some(m.versao) && MesDe(m.periodo) == Some(m.mes))
    && (forall p :: p in periodos && p in versoes && versoes[p].Some? ==> exists m :: m in meses && m.periodo == p)
  }

  /**
   * A context of the current state: the first DCA of the identity, for each month the last MSC of its
   * period, months read off their periods and in order.
   */
  ghost predicate Fiel(c: Contexto, k: Chave) {
    && c.codIbge == k.cod && c.ano == k.ano && c.asOf == None
    && (forall v :: c.dcaVersao == Some(v) ==> PrimeiraDca(k.identidade, Str(k.ano), v))
    && (c.dcaVersao == None ==> forall e :: e in k.identidade ==> !(e.relatorio == "DCA" && e.periodo == Str(k.ano)))
    && (forall m :: m in c.mscMeses ==> UltimaMsc(k.identidade, m.periodo, m.versao) && MesDe(m.periodo) == Some(m.mes))
    && EmOrdem(c.mscMeses)
  }

  /**
   * A context at an explicit instant: the DCA and the months are those of the database then, none of the
   * periods with a version is missing, and no period twice.
   */
  ghost predicate NoInstante(c: Contexto, cod: string, ano: nat, t: int, q: Consulta) {
    && c.codIbge == cod && c.ano == ano && c.uf == q.uf && c.esfera == q.esfera && c.asOf == Some(t)
    && c.dcaVersao == q.dcaAsOf
    && (forall m :: m in c.mscMeses ==>
          m.periodo in q.periodos && m.periodo in q.mscAsOf && q.mscAsOf[m.periodo] == Some(m.versao)
          && MesDe(m.periodo) == Some(m.mes))
    && (forall p :: p in q.periodos && p in q.mscAsOf && q.mscAsOf[p].Some? ==> exists m :: m in c.mscMeses && m.periodo == p)
    && EmOrdem(c.mscMeses)
    && (NoDup(q.periodos) ==> UmaVez(c.mscMeses))
  }

  ghost predicate UmaVez(meses: seq<MscMes>) {
    forall i, j :: 0 <= i < j < |meses| ==> meses[i].periodo != meses[j].periodo
  }

  /** A period with a version whose month cannot be read: the call raises. */
  ghost predicate MesIlegivel(periodos: seq<string>, versoes: map<string, Option<string>>) {
    exists p :: p in periodos && p in versoes && versoes[p].Some? && MesDe(p) == None
  }

  /** Every month of the silver layer that the identity has a delivery for is in the context. */
  ghost predicate Completo(c: Contexto, ident: seq<Entrega>, periodos: seq<string>) {
    forall e :: e in ident && e.relatorio == "MSC" && e.periodo in periodos
      ==> exists m :: m in c.mscMeses && m.periodo == e.periodo
  }

  // ---------------------------------------------------------------- the resolution as a function

  /** The dictionary of MSC versions of an identity; a later delivery of a period replaces an earlier one. */
  function VersoesDe(ident: seq<Entrega>): (r: map<string, Option<string>>)
    ensures forall p :: p in r ==> r[p].Some? && Entrega(REL_MSC, p, r[p].value) in ident
    ensures forall e :: e in ident && e.relatorio == REL_MSC ==> e.periodo in r
  {
    if ident == [] then map[]
    else
      var e, antes := ident[|ident| - 1], VersoesDe(ident[..|ident| - 1]);
      assert ident == ident[..|ident| - 1] + [e];
      if e.relatorio == REL_MSC then antes[e.periodo := Some(e.versao)] else antes
  }

  /** The months with a version, in the order of the periods; None is the exception for an unreadable month. */
  function MesesDe(periodos: seq<string>, versoes: map<string, Option<string>>): Option<seq<MscMes>> {
    if periodos == [] then Some([])
    else
      var p, antes := periodos[|periodos| - 1], MesesDe(periodos[..|periodos| - 1], versoes);
      if antes == None || p !in versoes || versoes[p] == None then antes
      else if MesDe(p) == None then None
      else Some(antes.value + [MscMes(p, MesDe(p).value, versoes[p].value)])
  }

  /** `ensure_materializado` without its cache. */
  function ResolverDe(cod: string, ano: nat, asOf: Option<int>, q: Consulta): Option<Contexto> {
    var dca := if asOf == None then DcaDe(q.identidade, Str(ano)) else q.dcaAsOf;
    match MesesDe(q.periodos, if asOf == None then VersoesDe(q.identidade) else q.mscAsOf)
    case None => None
    case Some(meses) => Some(Contexto(cod, q.uf, ano, q.esfera, dca, Sort(MesLeq, meses), asOf))
  }

  lemma MoreData(meses: seq<MscMes>, m: MscMes, versoes: map<string, Option<string>>, periodos: seq<string>, p: string)
    requires DosDados(meses, versoes, periodos)
    requires p in versoes && versoes[p] == Some(m.versao) && MesDe(p) == Some(m.mes) && m.periodo == p
    ensures DosDados(meses + [m], versoes, periodos + [p])
  {
    forall q | q in periodos + [p] && q in versoes && versoes[q].Some? ensures exists x :: x in meses + [m] && x.periodo == q {
      if q in periodos {
        var x :| x in meses && x.periodo == q;
        assert x in meses + [m];
      } else {
        assert m in meses + [m];
      }
    }
  }

  lemma {:induction false} MonthsFromData(periodos: seq<string>, versoes: map<string, Option<string>>)
    ensures MesesDe(periodos, versoes) == None
       <==> exists p :: p in periodos && p in versoes && versoes[p].Some? && MesDe(p) == None
    ensures MesesDe(periodos, versoes).Some? ==> DosDados(MesesDe(periodos, versoes).value, versoes, periodos)
  {
    if periodos != [] {
      var antes, p := periodos[..|periodos| - 1], periodos[|periodos| - 1];
      assert periodos == antes + [p];
      MonthsFromData(antes, versoes);
      var ms := MesesDe(antes, versoes);
      if ms.Some? && p in versoes && versoes[p].Some? && MesDe(p).Some? {
        MoreData(ms.value, MscMes(p, MesDe(p).value, versoes[p].value), versoes, antes, p);
      }
    }
  }

  lemma SortedFromData(meses: seq<MscMes>, versoes: map<string, Option<string>>, periodos: seq<string>)
    requires DosDados(meses, versoes, periodos)
    ensures DosDados(Sort(MesLeq, meses), versoes, periodos) && EmOrdem(Sort(MesLeq, meses))
  {
    SortCorrect(MesLeq, meses);
  }

  lemma {:induction false} MonthsOnce(periodos: seq<string>, versoes: map<string, Option<string>>)
    requires NoDup(periodos) && MesesDe(periodos, versoes).Some?
    ensures UmaVez(MesesDe(periodos, versoes).value)
  {
    if periodos != [] {
      var antes, p := periodos[..|periodos| - 1], periodos[|periodos| - 1];
      assert periodos == antes + [p];
      NoDupConcat(antes, [p]);
      MonthsOnce(antes, versoes);
      MonthsFromData(antes, versoes);
      var ms := MesesDe(antes, versoes).value;
      assert forall i :: 0 <= i < |ms| ==> ms[i] in ms;
    }
  }

  /** Each month once, before sorting and after. */
  lemma SortedOnce(meses: seq<MscMes>)
    requires UmaVez(meses)
    ensures UmaVez(Sort(MesLeq, meses))
  {
    assert NoDup(meses);
    SortNoDup(MesLeq, meses);
    SortCorrect(MesLeq, meses);
    var r := Sort(MesLeq, meses);
    forall i, j | 0 <= i < j < |r| ensures r[i].periodo != r[j].periodo {
      assert r[i] in meses && r[j] in meses;
      var a :| 0 <= a < |meses| && meses[a] == r[i];
      var b :| 0 <= b < |meses| && meses[b] == r[j];
    }
  }

  /** A resolved context of the current state is faithful to the identity and complete for the months present. */
  lemma ResolvedIsFaithful(cod: string, ano: nat, q: Consulta)
    ensures ResolverDe(cod, ano, None, q) == None <==> MesIlegivel(q.periodos, VersoesDe(q.identidade))
    ensures ResolverDe(cod, ano, None, q).Some? ==>
      var c := ResolverDe(cod, ano, None, q).value;
      && Fiel(c, Chave(cod, ano, q.identidade)) && Completo(c, q.identidade, q.periodos)
      && c.uf == q.uf && c.esfera == q.esfera && (NoDup(q.periodos) ==> UmaVez(c.mscMeses))
  {
    var versoes := VersoesDe(q.identidade);
    MonthsFromData(q.periodos, versoes);
    DcaIsFirst(q.identidade, Str(ano));
    forall p ensures p in versoes ==> UltimaMsc(q.identidade, p, versoes[p].value) { VersionIsLast(q.identidade, p); }
    if MesesDe(q.periodos, versoes).Some? {
      var ms := MesesDe(q.periodos, versoes).value;
      SortedFromData(ms, versoes, q.periodos);
      if NoDup(q.periodos) {
        MonthsOnce(q.periodos, versoes);
        SortedOnce(ms);
      }
    }
  }

  /** At an explicit instant it is the database of that instant, and the identity in force plays no part. */
  lemma ResolvedAtInstant(cod: string, ano: nat, t: int, q: Consulta)
    ensures ResolverDe(cod, ano, Some(t), q) == None <==> MesIlegivel(q.periodos, q.mscAsOf)
    ensures ResolverDe(cod, ano, Some(t), q).Some? ==> NoInstante(ResolverDe(cod, ano, Some(t), q).value, cod, ano, t, q)
    ensures forall ident :: ResolverDe(cod, ano, Some(t), q.(identidade := ident)) == ResolverDe(cod, ano, Some(t), q)
  {
    MonthsFromData(q.periodos, q.mscAsOf);
    if MesesDe(q.periodos, q.mscAsOf).Some? {
      var ms := MesesDe(q.periodos, q.mscAsOf).value;
      SortedFromData(ms, q.mscAsOf, q.periodos);
      if NoDup(q.periodos) {
        MonthsOnce(q.periodos, q.mscAsOf);
        SortedOnce(ms);
      }
    }
  }

  // ---------------------------------------------------------------- the resolution as the code runs it

  method VersoesMsc(ident: seq<Entrega>) returns (r: map<string, Option<string>>)
    ensures r == VersoesDe(ident)
  {
    r := map[];
    for i := 0 to |ident|
      invariant r == VersoesDe(ident[..i])
    {
      assert ident[..i + 1][..i] == ident[..i];
      if ident[i].relatorio == REL_MSC { r := r[ident[i].periodo := Some(ident[i].versao)]; }
    }
    assert ident[..|ident|] == ident;
  }

  /** The periods with a version that were not there, with that version. */
  ghost predicate SaoFeitos(feitos: seq<(string, string)>, periodos: seq<string>, versoes: map<string, Option<string>>,
                            presentes: set<(string, string)>) {
    forall p, v :: (p, v) in feitos <==> p in periodos && p in versoes && versoes[p] == Some(v) && (p, v) !in presentes
  }

  lemma MonthsStep(periodos: seq<string>, versoes: map<string, Option<string>>, i: nat)
    requires i < |periodos|
    ensures periodos[..i + 1] == periodos[..i] + [periodos[i]]
    ensures var p, antes := periodos[i], MesesDe(periodos[..i], versoes);
      MesesDe(periodos[..i + 1], versoes)
        == if antes == None || p !in versoes || versoes[p] == None then antes
           else if MesDe(p) == None then None
           else Some(antes.value + [MscMes(p, MesDe(p).value, versoes[p].value)])
  {
    assert periodos[..i + 1][..i] == periodos[..i];
  }

  lemma UnreadableStops(periodos: seq<string>, versoes: map<string, Option<string>>, p: string)
    requires p in periodos && p in versoes && versoes[p].Some? && MesDe(p) == None
    ensures MesesDe(periodos, versoes) == None && MesIlegivel(periodos, versoes)
  {
    MonthsFromData(periodos, versoes);
  }

  lemma OneMorePeriod(feitos: seq<(string, string)>, periodos: seq<string>, versoes: map<string, Option<string>>,
                      presentes: set<(string, string)>, p: string)
    requires SaoFeitos(feitos, periodos, versoes, presentes)
    ensures var novo := p in versoes && versoes[p].Some? && (p, versoes[p].value) !in presentes;
      SaoFeitos(if novo then feitos + [(p, versoes[p].value)] else feitos, periodos + [p], versoes, presentes)
  {
  }

  /** The months with a version, in order, materialising those not yet there. */
  method ResolveMeses(periodos: seq<string>, versoes: map<string, Option<string>>, presentes: set<(string, string)>)
    returns (r: Option<seq<MscMes>>, feitos: seq<(string, string)>)
    ensures r == match MesesDe(periodos, versoes) case None => None case Some(ms) => Some(Sort(MesLeq, ms))
    ensures r == None <==> MesIlegivel(periodos, versoes)
    ensures r.Some? ==> DosDados(r.value, versoes, periodos) && EmOrdem(r.value)
    ensures r.Some? ==> SaoFeitos(feitos, periodos, versoes, presentes)
  {
    var meses: seq<MscMes> := [];
    feitos := [];
    for i := 0 to |periodos|
      invariant MesesDe(periodos[..i], versoes) == Some(meses)
      invariant SaoFeitos(feitos, periodos[..i], versoes, presentes)
    {
      var p := periodos[i];
      MonthsStep(periodos, versoes, i);
      OneMorePeriod(feitos, periodos[..i], versoes, presentes, p);
      if p in versoes && versoes[p].Some? {
        if MesDe(p) == None {
          UnreadableStops(periodos, versoes, p);
          return None, feitos;
        }
        var m := MscMes(p, MesDe(p).value, versoes[p].value);
        if (p, m.versao) !in presentes { feitos := feitos + [(p, m.versao)]; }
        meses := meses + [m];
      }
    }
    assert periodos[..|periodos|] == periodos;
    MonthsFromData(periodos, versoes);
    SortedFromData(meses, versoes, periodos);
    r := Some(Sort(MesLeq, meses));
  }

  /** What a call materialised: the DCA or not, and which months. */
  datatype Feito = Feito(dca: bool, meses: seq<(string, string)>)

  /** The resolution itself, without the cache; None is the exception for an unreadable month. */
  method Resolver(cod: string, ano: nat, asOf: Option<int>, q: Consulta) returns (r: Option<Contexto>, f: Feito)
    ensures r == ResolverDe(cod, ano, asOf, q)
    ensures asOf == None && r.Some? ==> Fiel(r.value, Chave(cod, ano, q.identidade)) && Completo(r.value, q.identidade, q.periodos)
    ensures asOf.Some? && r.Some? ==> NoInstante(r.value, cod, ano, asOf.value, q)
    ensures r == None <==> MesIlegivel(q.periodos, if asOf == None then VersoesDe(q.identidade) else q.mscAsOf)
    ensures r.Some? ==> r.value.uf == q.uf && r.value.esfera == q.esfera
    ensures r.Some? ==> (f.dca <==> r.value.dcaVersao.Some? && !q.dcaPresente)
    ensures r.Some? ==> forall p, v :: (p, v) in f.meses <==>
      exists m :: m in r.value.mscMeses && m.periodo == p && m.versao == v && (p, v) !in q.presentes
  {
    var dca := if asOf == None then DcaDe(q.identidade, Str(ano)) else q.dcaAsOf;
    var dcaFeita := dca.Some? && !q.dcaPresente;
    var versoes := q.mscAsOf;
    if asOf == None { versoes := VersoesMsc(q.identidade); }
    var meses, feitos := ResolveMeses(q.periodos, versoes, q.presentes);
    f := Feito(dcaFeita, feitos);
    if asOf == None { ResolvedIsFaithful(cod, ano, q); } else { ResolvedAtInstant(cod, ano, asOf.value, q); }
    if meses == None { return None, f; }
    r := Some(Contexto(cod, q.uf, ano, q.esfera, dca, meses.value, asOf));
    MadeAreListed(meses.value, versoes, q.periodos, q.presentes, feitos);
  }

  lemma MadeAreListed(meses: seq<MscMes>, versoes: map<string, Option<string>>, periodos: seq<string>,
                      presentes: set<(string, string)>, feitos: seq<(string, string)>)
    requires DosDados(meses, versoes, periodos)
    requires SaoFeitos(feitos, periodos, versoes, presentes)
    ensures forall p, v :: (p, v) in feitos <==>
      exists m :: m in meses && m.periodo == p && m.versao == v && (p, v) !in presentes
  {
    forall p, v | (p, v) in feitos ensures exists m :: m in meses && m.periodo == p && m.versao == v && (p, v) !in presentes {
      var m :| m in meses && m.periodo == p;
      assert m.versao == v;
    }
  }

  // ---------------------------------------------------------------- with the cache

  /** A hit: the last context put under the key, not too old. */
  ghost predicate Acerto(ts: seq<Toque>, k: Chave, agora: real, c: Contexto) {
    && UltimoPosto(ts, k).Some? && c == UltimoPosto(ts, k).value.contexto
    && agora - UltimoPosto(ts, k).value.storedAt <= 30.0
  }

  /** Everything held is what resolving would give on the answers of the database at its put. */
  ghost predicate Lembra(entradas: map<Chave, Guardado>, origem: map<Chave, Consulta>) {
    forall k :: k in entradas ==> LembraDe(k, entradas[k].contexto, origem)
  }

  ghost predicate LembraDe(k: Chave, c: Contexto, origem: map<Chave, Consulta>) {
    && k in origem && origem[k].identidade == k.identidade
    && ResolverDe(k.cod, k.ano, None, origem[k]) == Some(c) && |c.mscMeses| >= MIN_MONTHS
  }

  lemma RememberLess(entradas: map<Chave, Guardado>, origem: map<Chave, Consulta>, k: Chave)
    requires Lembra(entradas, origem)
    ensures Lembra(entradas - {k}, origem)
  {
    assert forall x :: x in entradas - {k} ==> LembraDe(x, entradas[x].contexto, origem);
  }

  lemma RememberMore(antes: map<Chave, Guardado>, depois: map<Chave, Guardado>, origem: map<Chave, Consulta>, k: Chave, g: Guardado, q: Consulta)
    requires Lembra(antes, origem) && LembraDe(k, g.contexto, origem[k := q])
    requires depois.Keys <= antes.Keys + {k}
    requires forall x :: x in depois ==> depois[x] == if x == k then g else antes[k := g][x]
    ensures Lembra(depois, origem[k := q])
  {
    forall x | x in depois ensures LembraDe(x, depois[x].contexto, origem[k := q]) {
      if x != k { assert LembraDe(x, antes[x].contexto, origem); }
    }
  }

  /** The answer agrees with resolving again: on a hit for the database as it was at the put, on a miss as it is now. */
  ghost predicate Resolvido(k: Chave, q: Consulta, t1: real, t2: real, antes: seq<Toque>, depois: seq<Toque>,
                            origem: map<Chave, Consulta>, r: Option<Contexto>, f: Feito) {
    || (&& r.Some? && Acerto(antes, k, t1, r.value) && f == Feito(false, []) && depois == antes + [Servido(k)]
        && LembraDe(k, r.value, origem))
    || (&& Justificada(antes, k, t1) && r == ResolverDe(k.cod, k.ano, None, q)
        && depois == antes
           + if r.Some? && |r.value.mscMeses| >= 6 then [Posto(k, Guardado(t2, r.value))] else [])
  }

  class Materializador {
    const cache: Cache
    /** The answers of the database behind each context held. */
    ghost var origem: map<Chave, Consulta>

    ghost predicate Valid()
      reads this, cache
    {
      cache.Valid() && Lembra(cache.entradas, origem)
    }

    constructor (cache: Cache)
      requires cache.Valid() && cache.entradas == map[]
      ensures this.cache == cache && Valid()
    {
      this.cache, origem := cache, map[];
    }

    method EnsureAtual(cod: string, ano: nat, q: Consulta, t1: real, t2: real) returns (r: Option<Contexto>, f: Feito)
      requires Valid() && cache.relogio <= t1 <= t2
      modifies cache, this`origem
      ensures Valid()
      ensures Resolvido(Chave(cod, ano, q.identidade), q, t1, t2, old(cache.toques), cache.toques, old(origem), r, f)
    {
      var k := Chave(cod, ano, q.identidade);
      ghost var e0 := cache.entradas;
      r := cache.Get(cod, ano, q.identidade, t1);
      if r.Some? {
        assert LembraDe(k, e0[k].contexto, origem);
        return r, Feito(false, []);
      }
      RememberLess(e0, origem, k);
      r, f := Resolver(cod, ano, None, q);
      if r.Some? && |r.value.mscMeses| >= MIN_MONTHS {
        ghost var antes := cache.entradas;
        cache.Put(r.value, q.identidade, t2);
        RememberMore(antes, cache.entradas, origem, k, Guardado(t2, r.value), q);
        origem := origem[k := q];
      }
    }

    /**
     * `ensure_materializado`: an explicit instant neither reads nor feeds the cache; otherwise the
     * answer, cached or not, is what resolving gives, faithful to the identity in force, and only
     * one with at least six months is kept.
     */
    method EnsureMaterializado(cod: string, ano: nat, asOf: Option<int>, q: Consulta, t1: real, t2: real)
      returns (r: Option<Contexto>, f: Feito)
      requires Valid() && cache.relogio <= t1 <= t2
      modifies cache, this`origem
      ensures Valid()
      ensures asOf.Some? ==>
        && cache.toques == old(cache.toques) && cache.entradas == old(cache.entradas) && r == ResolverDe(cod, ano, asOf, q)
        && (r == None <==> MesIlegivel(q.periodos, q.mscAsOf))
        && (r.Some? ==> NoInstante(r.value, cod, ano, asOf.value, q))
      ensures asOf == None ==>
        Resolvido(Chave(cod, ano, q.identidade), q, t1, t2, old(cache.toques), cache.toques, old(origem), r, f)
      ensures asOf == None && r.Some? ==>
        var k := Chave(cod, ano, q.identidade);
        Responde(k, q, r.value) || (k in old(origem) && Responde(k, old(origem)[k], r.value))
    {
      if asOf.Some? {
        r, f := Resolver(cod, ano, asOf, q);
      } else {
        ghost var o := origem;
        r, f := EnsureAtual(cod, ano, q, t1, t2);
        ResolvedMeansFaithful(Chave(cod, ano, q.identidade), q, o, r);
      }
    }
  }

  /** The context is what the identity and these answers of the database say. */
  ghost predicate Responde(k: Chave, b: Consulta, c: Contexto) {
    && Fiel(c, k) && Completo(c, k.identidade, b.periodos)
    && c.uf == b.uf && c.esfera == b.esfera
    && (NoDup(b.periodos) ==> UmaVez(c.mscMeses))
  }

  lemma ResolvedMeansFaithful(k: Chave, q: Consulta, origem: map<Chave, Consulta>, r: Option<Contexto>)
    requires k.identidade == q.identidade
    requires r == ResolverDe(k.cod, k.ano, None, q) || (r.Some? && LembraDe(k, r.value, origem))
    ensures r.Some? ==> Responde(k, q, r.value) || (k in origem && Responde(k, origem[k], r.value))
  {
    if r.Some? {
      if r == ResolverDe(k.cod, k.ano, None, q) {
        ResolvedIsFaithful(k.cod, k.ano, q);
      } else {
        ResolvedIsFaithful(k.cod, k.ano, origem[k]);
      }
    }
  }
}
