/**
 * The brake on failed logins: a sliding window of failure instants per key, and the middleware
 * that consults it before each attempt and records the outcome after it.
 */
module Janela {
  import opened Basics

  // ---------------------------------------------------------------- the full history

  /** What was done to the window, in order. */
  datatype Operacao = Registrou(chave: string, em: real) | Limpou(qual: Option<string>)

  /** The key's registrations since the last time it was cleared. */
  function Desde(ops: seq<Operacao>, chave: string): seq<real> {
    if ops == [] then []
    else
      var antes := Desde(ops[..|ops| - 1], chave);
      match ops[|ops| - 1]
      case Registrou(c, t) => if c == chave then antes + [t] else antes
      case Limpou(c) => if c == None || c == Some(chave) then [] else antes
  }

  /** How many instants are not before `de`. */
  function Conta(ts: seq<real>, de: real): nat {
    if ts == [] then 0 else Conta(ts[..|ts| - 1], de) + if ts[|ts| - 1] >= de then 1 else 0
  }

  ghost predicate Ordenada(ts: seq<real>) {
    forall i, j :: 0 <= i < j < |ts| ==> ts[i] <= ts[j]
  }

  /** `r` is `ts` without some leading instants, all of them before `de`. */
  ghost predicate SoExpirou(r: seq<real>, ts: seq<real>, de: real) {
    && |r| <= |ts| && r == ts[|ts| - |r|..]
    && forall i :: 0 <= i < |ts| - |r| ==> ts[i] < de
  }

  lemma {:induction false} CountIsSuffix(ts: seq<real>, k: nat, de: real)
    requires Ordenada(ts) && k <= |ts|
    requires forall i :: 0 <= i < k ==> ts[i] < de
    requires k < |ts| ==> ts[k] >= de
    ensures Conta(ts, de) == |ts| - k
  {
    if ts == [] {
    } else if k == |ts| {
      CountIsSuffix(ts[..|ts| - 1], k - 1, de);
    } else {
      assert ts[k] <= ts[|ts| - 1];
      CountIsSuffix(ts[..|ts| - 1], k, de);
    }
  }

  lemma {:induction false} CountAtLeast(ts: seq<real>, n: nat, de: real)
    requires Ordenada(ts)
    ensures Conta(ts, de) <= |ts|
    ensures n > 0 ==> (Conta(ts, de) >= n <==> n <= |ts| && ts[|ts| - n] >= de)
  {
    if ts != [] {
      if n > 1 { CountAtLeast(ts[..|ts| - 1], n - 1, de); } else { CountAtLeast(ts[..|ts| - 1], n, de); }
      if 0 < n <= |ts| { assert ts[|ts| - n] <= ts[|ts| - 1] || n == 1; }
    }
  }

  lemma ExpiredTwice(r: seq<real>, s: seq<real>, ts: seq<real>, de: real, depois: real)
    requires SoExpirou(s, ts, de) && SoExpirou(r, s, depois) && de <= depois
    ensures SoExpirou(r, ts, depois)
  {
    var k := |ts| - |s|;
    forall i | 0 <= i < |ts| - |r| ensures ts[i] < depois {
      if i >= k { assert ts[i] == s[i - k]; }
    }
  }

  /** Python's `int`: toward zero. */
  function Trunca(x: real): int {
    if x >= 0.0 then x.Floor else -((-x).Floor)
  }

  /** After waiting `n` seconds the instant has left the window. */
  ghost predicate Saiu(instante: real, agora: real, n: nat, janela: real) {
    instante < agora + n as real - janela
  }

  /** Fewer than `limite` instants are in the window ending at `t`. */
  ghost predicate Livre(ts: seq<real>, t: real, limite: int, janela: real) {
    Conta(ts, t - janela) < limite
  }

  /** At any registration, the one `limite` places before it had left the window. */
  ghost predicate Espacada(ts: seq<real>, limite: int, janela: real) {
    forall i, j :: 0 <= i < j < |ts| && j == i + limite ==> ts[i] < ts[j] - janela
  }

  /** So no window of that length, wherever placed, holds more than `limite` of them. */
  lemma AnyWindowHoldsAtMost(ts: seq<real>, limite: int, janela: real, i: nat, j: nat)
    requires limite >= 1 && Ordenada(ts) && Espacada(ts, limite, janela)
    requires i <= j < |ts| && ts[i] >= ts[j] - janela
    ensures j - i + 1 <= limite
  {
    var m := i + limite;
    if m < |ts| {
      assert ts[i] < ts[m] - janela;
    }
  }

  // ---------------------------------------------------------------- the window

  function Fila(eventos: map<string, seq<real>>, chave: string): Option<seq<real>> {
    if chave in eventos then Some(eventos[chave]) else None
  }

  /** A queue is the key's history without a prefix that had expired; no queue means no history. */
  ghost predicate FilaCoerente(fila: Option<seq<real>>, d: seq<real>, relogio: real, janela: real) {
    && (fila == None <==> d == [])
    && (fila.Some? ==> SoExpirou(fila.value, d, relogio - janela))
    && Ordenada(d)
    && (d != [] ==> d[|d| - 1] <= relogio)
  }

  ghost predicate Todas(eventos: map<string, seq<real>>, ops: seq<Operacao>, relogio: real, janela: real) {
    forall c :: ChaveCoerente(eventos, ops, c, relogio, janela)
  }

  ghost predicate ChaveCoerente(eventos: map<string, seq<real>>, ops: seq<Operacao>, c: string, relogio: real, janela: real) {
    FilaCoerente(Fila(eventos, c), Desde(ops, c), relogio, janela)
  }

  /** Expiring one key's queue, at a later instant. */
  lemma ExpireKeepsAll(eventos: map<string, seq<real>>, ops: seq<Operacao>, antes: real, janela: real,
                       chave: string, fila: seq<real>, agora: real)
    requires Todas(eventos, ops, antes, janela) && antes <= agora
    requires chave in eventos && SoExpirou(fila, eventos[chave], agora - janela)
    requires fila != [] ==> fila[0] >= agora - janela
    ensures Todas(eventos[chave := fila], ops, agora, janela)
    ensures |fila| == Conta(Desde(ops, chave), agora - janela) && Desde(ops, chave) != []
  {
    var eventos' := eventos[chave := fila];
    forall c ensures ChaveCoerente(eventos', ops, c, agora, janela) {
      assert ChaveCoerente(eventos, ops, c, antes, janela);
      LaterStillCoherent(Fila(eventos, c), Desde(ops, c), antes, agora, janela);
      if c == chave { ExpiredIsCount(Fila(eventos, c), Desde(ops, c), antes, janela, fila, agora); }
    }
    assert ChaveCoerente(eventos, ops, chave, antes, janela);
    ExpiredIsCount(Fila(eventos, chave), Desde(ops, chave), antes, janela, fila, agora);
  }

  lemma RegisterKeepsAll(eventos: map<string, seq<real>>, ops: seq<Operacao>, antes: real, janela: real,
                         chave: string, fila: seq<real>, agora: real)
    requires Todas(eventos, ops, antes, janela) && antes <= agora
    requires SoExpirou(fila, if chave in eventos then eventos[chave] else [], agora - janela)
    requires fila != [] ==> fila[0] >= agora - janela
    ensures Todas(eventos[chave := fila + [agora]], ops + [Registrou(chave, agora)], agora, janela)
    ensures |fila| == Conta(Desde(ops, chave), agora - janela)
  {
    assert ChaveCoerente(eventos, ops, chave, antes, janela);
    ExpiredIsCount(Fila(eventos, chave), Desde(ops, chave), antes, janela, fila, agora);
    var eventos', ops' := eventos[chave := fila + [agora]], ops + [Registrou(chave, agora)];
    forall c ensures ChaveCoerente(eventos', ops', c, agora, janela) {
      assert ChaveCoerente(eventos, ops, c, antes, janela);
      HistoryGrows(ops, Registrou(chave, agora), c);
      if c == chave {
        RegisteredIsCoherent(fila, Desde(ops, c), agora, janela);
      } else {
        LaterStillCoherent(Fila(eventos, c), Desde(ops, c), antes, agora, janela);
      }
    }
  }

  lemma ClearKeepsAll(eventos: map<string, seq<real>>, ops: seq<Operacao>, relogio: real, janela: real, qual: Option<string>)
    requires Todas(eventos, ops, relogio, janela)
    ensures Todas(if qual == None then map[] else eventos - {qual.value}, ops + [Limpou(qual)], relogio, janela)
  {
    var eventos', ops' := if qual == None then map[] else eventos - {qual.value}, ops + [Limpou(qual)];
    forall c ensures ChaveCoerente(eventos', ops', c, relogio, janela) {
      assert ChaveCoerente(eventos, ops, c, relogio, janela);
      HistoryGrows(ops, Limpou(qual), c);
    }
  }

  /** The queue after expiry is as long as the history says. */
  lemma ExpiredIsCount(f: Option<seq<real>>, d: seq<real>, antes: real, janela: real, fila: seq<real>, agora: real)
    requires FilaCoerente(f, d, antes, janela) && antes <= agora
    requires SoExpirou(fila, if f == None then [] else f.value, agora - janela)
    requires fila != [] ==> fila[0] >= agora - janela
    ensures SoExpirou(fila, d, agora - janela)
    ensures |fila| == Conta(d, agora - janela)
  {
    if f.Some? {
      ExpiredTwice(fila, f.value, d, antes - janela, agora - janela);
      var k := |d| - |fila|;
      assert fila != [] ==> d[k] == fila[0];
      CountIsSuffix(d, k, agora - janela);
    }
  }

  lemma LaterStillCoherent(fila: Option<seq<real>>, d: seq<real>, antes: real, depois: real, janela: real)
    requires FilaCoerente(fila, d, antes, janela) && antes <= depois
    ensures FilaCoerente(fila, d, depois, janela)
  {
  }

  lemma RegisteredIsCoherent(fila: seq<real>, d: seq<real>, agora: real, janela: real)
    requires SoExpirou(fila, d, agora - janela) && Ordenada(d) && (d != [] ==> d[|d| - 1] <= agora)
    ensures FilaCoerente(Some(fila + [agora]), d + [agora], agora, janela)
  {
    var n := |d| - 1;
    forall i | 0 <= i < |d| ensures d[i] <= agora {
      assert i == n || d[i] <= d[n];
    }
    var f, e := fila + [agora], d + [agora];
    assert e[|e| - |f|..] == f;
  }

  lemma HistoryGrows(ops: seq<Operacao>, o: Operacao, c: string)
    ensures o.Registrou? ==> Desde(ops + [o], c) == if o.chave == c then Desde(ops, c) + [o.em] else Desde(ops, c)
    ensures o.Limpou? ==> Desde(ops + [o], c) == if o.qual == None || o.qual == Some(c) then [] else Desde(ops, c)
  {
    assert (ops + [o])[..|ops|] == ops;
  }

  class JanelaDeslizante {
    const limite: int
    const janela: real
    var eventos: map<string, seq<real>>
    /** Everything done so far, and the last reading of the clock. */
    ghost var ops: seq<Operacao>
    ghost var relogio: real

    ghost predicate Coerente(chave: string)
      reads this
    {
      ChaveCoerente(eventos, ops, chave, relogio, janela)
    }

    ghost predicate Valid()
      reads this
    {
      Todas(eventos, ops, relogio, janela)
    }

    constructor (limite: int, janela: real, ghost agora: real)
      ensures Valid() && this.limite == limite && this.janela == janela
      ensures ops == [] && eventos == map[] && relogio == agora
    {
      this.limite, this.janela := limite, janela;
      eventos, ops, relogio := map[], [], agora;
    }

    method Expirar(fila: seq<real>, agora: real) returns (r: seq<real>)
      ensures SoExpirou(r, fila, agora - janela)
      ensures r != [] ==> r[0] >= agora - janela
    {
      r := fila;
      while r != [] && r[0] < agora - janela
        invariant SoExpirou(r, fila, agora - janela)
      {
        assert r[0] == fila[|fila| - |r|];
        r := r[1..];
      }
    }

    /** Blocked exactly when the failures since the last clearing that lie in the window reach the limit. */
    method Bloqueado(chave: string, agora: real) returns (r: bool)
      requires Valid() && agora >= relogio
      modifies this`eventos, this`relogio
      ensures Valid() && relogio == agora
      ensures r <==> Desde(ops, chave) != [] && Conta(Desde(ops, chave), agora - janela) >= limite
      ensures eventos.Keys == old(eventos.Keys)
      ensures chave in eventos ==> eventos == old(eventos)[chave := eventos[chave]]
      ensures chave !in eventos ==> eventos == old(eventos)
      ensures chave in eventos ==>
        |eventos[chave]| == Conta(Desde(ops, chave), agora - janela) <= |old(eventos)[chave]|
    {
      if chave !in eventos {
        assert Coerente(chave);
        Adianta(agora);
        return false;
      }
      var fila := Expirar(eventos[chave], agora);
      ExpireKeepsAll(eventos, ops, relogio, janela, chave, fila, agora);
      eventos := eventos[chave := fila];
      relogio := agora;
      return |fila| >= limite;
    }

    /** Time passing changes nothing else. */
    ghost method Adianta(agora: real)
      requires Valid() && agora >= relogio
      modifies this`relogio
      ensures Valid() && relogio == agora
    {
      forall c ensures ChaveCoerente(eventos, ops, c, agora, janela) {
        assert Coerente(c);
        LaterStillCoherent(Fila(eventos, c), Desde(ops, c), relogio, agora, janela);
      }
      relogio := agora;
    }

    method Registrar(chave: string, agora: real) returns (n: nat)
      requires Valid() && agora >= relogio
      modifies this
      ensures Valid() && relogio == agora
      ensures ops == old(ops) + [Registrou(chave, agora)]
      ensures n == Conta(Desde(old(ops), chave), agora - janela) + 1
      ensures chave in eventos && n == |eventos[chave]|
      ensures eventos == old(eventos)[chave := eventos[chave]]
    {
      var fila := Expirar(if chave in eventos then eventos[chave] else [], agora);
      RegisterKeepsAll(eventos, ops, relogio, janela, chave, fila, agora);
      eventos := eventos[chave := fila + [agora]];
      ops, relogio := ops + [Registrou(chave, agora)], agora;
      return |fila| + 1;
    }

    method Limpar(chave: Option<string>)
      requires Valid()
      modifies this`eventos, this`ops
      ensures Valid()
      ensures ops == old(ops) + [Limpou(chave)]
      ensures eventos == if chave == None then map[] else old(eventos) - {chave.value}
    {
      ClearKeepsAll(eventos, ops, relogio, janela, chave);
      eventos := if chave == None then map[] else eventos - {chave.value};
      ops := ops + [Limpou(chave)];
    }

    /**
     * The wait always outlasts the oldest queued failure; and while that failure is still in the
     * window, it is the least number of whole seconds that does.
     */
    method SegundosParaLiberar(chave: string, agora: real) returns (espera: nat)
      ensures chave !in eventos || eventos[chave] == [] ==> espera == 0
      ensures chave in eventos && eventos[chave] != [] ==>
        var primeiro := eventos[chave][0];
        && Saiu(primeiro, agora, espera, janela)
        && (primeiro >= agora - janela ==> forall n: nat :: Saiu(primeiro, agora, n, janela) ==> n >= espera)
    {
      if chave !in eventos || eventos[chave] == [] { return 0; }
      var s := Trunca(janela - (agora - eventos[chave][0])) + 1;
      espera := if s > 0 then s else 0;
    }
  }

  /** Once blocked, waiting as told unblocks the key if and only if the `limite`-th newest failure has left too. */
  lemma WaitUnblocksIff(j: JanelaDeslizante, chave: string, depois: real)
    requires j.Valid() && j.limite >= 1 && chave in j.eventos && depois >= j.relogio
    ensures var fila := j.eventos[chave];
      Conta(Desde(j.ops, chave), depois - j.janela) < j.limite
      <==> |fila| < j.limite || fila[|fila| - j.limite] < depois - j.janela
  {
    assert j.Coerente(chave);
    var fila, d := j.eventos[chave], Desde(j.ops, chave);
    CountAtLeast(d, j.limite, depois - j.janela);
    if |fila| >= j.limite { assert fila[|fila| - j.limite] == d[|d| - j.limite]; }
    else if |d| >= j.limite { assert d[|d| - j.limite] < j.relogio - j.janela; }
  }

  /** With no more failures queued than the limit, outlasting the oldest is enough. */
  lemma WaitUnblocks(j: JanelaDeslizante, chave: string, agora: real, espera: nat)
    requires j.Valid() && j.limite >= 1 && chave in j.eventos && agora >= j.relogio
    requires 0 < |j.eventos[chave]| <= j.limite && Saiu(j.eventos[chave][0], agora, espera, j.janela)
    ensures forall depois: real :: depois >= agora + espera as real ==> Livre(Desde(j.ops, chave), depois, j.limite, j.janela)
  {
    forall depois: real | depois >= agora + espera as real ensures Livre(Desde(j.ops, chave), depois, j.limite, j.janela) {
      WaitUnblocksIff(j, chave, depois);
    }
  }

  // ---------------------------------------------------------------- the middleware

  ghost predicate ChaveFreada(eventos: map<string, seq<real>>, ops: seq<Operacao>, c: string, limite: int, janela: real) {
    (c in eventos ==> |eventos[c]| <= limite) && Espacada(Desde(ops, c), limite, janela)
  }

  datatype Resposta = Demais(espera: nat) | Resposta(status: int)

  /** A login request that reached the endpoint, and the answer it got. */
  datatype Atendido = Atendido(chave: string, status: int, em: real)

  /** Answer `i` is a refused credential of the key, with no success of the key after it. */
  ghost predicate EhFalha(rs: seq<Atendido>, i: int, chave: string)
    requires 0 <= i < |rs|
  {
    && rs[i].chave == chave && rs[i].status in {400, 401, 403, 422}
    && forall j :: i < j < |rs| && rs[j].chave == chave ==> rs[j].status != 200
  }

  ghost predicate AlgumaFalha(rs: seq<Atendido>, chave: string) {
    exists i :: 0 <= i < |rs| && EhFalha(rs, i, chave)
  }

  /** The key's failures since its last success that are not before `de`. */
  ghost function FalhasNaJanela(rs: seq<Atendido>, chave: string, de: real): set<int> {
    set i | 0 <= i < |rs| && EhFalha(rs, i, chave) && rs[i].em >= de
  }

  /** The same failures as a list of instants. */
  function Falhas(rs: seq<Atendido>, chave: string): seq<real> {
    if rs == [] then []
    else
      var n := |rs| - 1;
      if rs[n].chave != chave then Falhas(rs[..n], chave)
      else if rs[n].status == 200 then []
      else if rs[n].status in {400, 401, 403, 422} then Falhas(rs[..n], chave) + [rs[n].em]
      else Falhas(rs[..n], chave)
  }

  lemma LastAnswer(rs: seq<Atendido>, i: int, chave: string)
    requires 0 <= i < |rs| - 1
    ensures var u := rs[|rs| - 1];
      EhFalha(rs, i, chave) <==> EhFalha(rs[..|rs| - 1], i, chave) && (u.chave == chave ==> u.status != 200)
  {
    var n := |rs| - 1;
    if EhFalha(rs[..n], i, chave) && (rs[n].chave == chave ==> rs[n].status != 200) {
      forall j | i < j < |rs| && rs[j].chave == chave ensures rs[j].status != 200 {
        if j < n { assert rs[j] == rs[..n][j]; }
      }
    }
  }

  ghost predicate Tentou(u: Atendido, chave: string) {
    u.chave == chave && u.status in {400, 401, 403, 422}
  }

  /** What one more answer does to the failures in the window. */
  lemma OneMoreAnswer(rs: seq<Atendido>, chave: string, de: real)
    requires rs != []
    ensures var n := |rs| - 1;
      var antes := if rs[n].chave == chave && rs[n].status == 200 then {} else FalhasNaJanela(rs[..n], chave, de);
      FalhasNaJanela(rs, chave, de) == antes + if Tentou(rs[n], chave) && rs[n].em >= de then {n} else {}
  {
    var n := |rs| - 1;
    forall i | 0 <= i < n
      ensures EhFalha(rs, i, chave) <==> EhFalha(rs[..n], i, chave) && (rs[n].chave == chave ==> rs[n].status != 200)
    {
      LastAnswer(rs, i, chave);
    }
    assert EhFalha(rs, n, chave) <==> Tentou(rs[n], chave);
  }

  lemma SomeFailureGrows(rs: seq<Atendido>, chave: string)
    requires rs != []
    ensures var n := |rs| - 1;
      AlgumaFalha(rs, chave) <==>
        Tentou(rs[n], chave) || (AlgumaFalha(rs[..n], chave) && !(rs[n].chave == chave && rs[n].status == 200))
  {
    var n := |rs| - 1;
    assert EhFalha(rs, n, chave) <==> Tentou(rs[n], chave);
    if AlgumaFalha(rs[..n], chave) {
      var i :| 0 <= i < n && EhFalha(rs[..n], i, chave);
      LastAnswer(rs, i, chave);
    }
    if AlgumaFalha(rs, chave) {
      var i :| 0 <= i < |rs| && EhFalha(rs, i, chave);
      if i < n { LastAnswer(rs, i, chave); }
    }
  }

  /** Counting the list is counting the answers. */
  lemma {:induction false} FailuresCounted(rs: seq<Atendido>, chave: string, de: real)
    ensures Conta(Falhas(rs, chave), de) == |FalhasNaJanela(rs, chave, de)|
    ensures Falhas(rs, chave) != [] <==> AlgumaFalha(rs, chave)
  {
    if rs != [] {
      var n := |rs| - 1;
      FailuresCounted(rs[..n], chave, de);
      OneMoreAnswer(rs, chave, de);
      SomeFailureGrows(rs, chave);
      if Tentou(rs[n], chave) { assert (Falhas(rs[..n], chave) + [rs[n].em])[..|Falhas(rs[..n], chave)|] == Falhas(rs[..n], chave); }
    }
  }

  lemma AnswersGrow(rs: seq<Atendido>, a: Atendido, c: string)
    ensures Falhas(rs + [a], c)
      == if a.chave != c then Falhas(rs, c)
         else if a.status == 200 then []
         else if a.status in {400, 401, 403, 422} then Falhas(rs, c) + [a.em] else Falhas(rs, c)
  {
    assert (rs + [a])[..|rs|] == rs;
  }

  /** What the window remembers of a key is its failures since its last success. */
  ghost predicate Corresponde(ops: seq<Operacao>, rs: seq<Atendido>) {
    forall c :: Desde(ops, c) == Falhas(rs, c)
  }

  lemma RecordKeepsPace(ops: seq<Operacao>, rs: seq<Atendido>, chave: string, status: int, t: real)
    requires Corresponde(ops, rs)
    ensures Corresponde(ops + Anotacao(chave, status, t), rs + [Atendido(chave, status, t)])
  {
    forall c ensures Desde(ops + Anotacao(chave, status, t), c) == Falhas(rs + [Atendido(chave, status, t)], c) {
      AnswersGrow(rs, Atendido(chave, status, t), c);
      assert Desde(ops, c) == Falhas(rs, c);
      if Anotacao(chave, status, t) == [] { assert ops + [] == ops; }
      else { HistoryGrows(ops, Anotacao(chave, status, t)[0], c); }
    }
  }

  class AuthRateLimit {
    const caminho: string
    const janela: JanelaDeslizante
    /** The login requests let through so far, with their answers. */
    ghost var respostas: seq<Atendido>

    /** Only this middleware has fed the window. */
    ghost predicate Acompanha()
      reads this, janela
    {
      Corresponde(janela.ops, respostas)
    }

    ghost predicate Valid()
      reads this, janela
    {
      janela.Valid()
    }

    /** No queue is longer than the limit, and no window ever let more failures through. */
    ghost predicate Freada()
      reads this, janela
    {
      TodasFreadas(janela.eventos, janela.ops, janela.limite, janela.janela)
    }

    constructor (caminho: string, janela: JanelaDeslizante)
      requires janela.Valid() && janela.ops == []
      ensures Valid() && Freada() && this.janela == janela && this.caminho == caminho
      ensures Acompanha() && respostas == []
    {
      this.caminho, this.janela, respostas := caminho, janela, [];
      new;
      forall c ensures ChaveFreada(janela.eventos, janela.ops, c, janela.limite, janela.janela) {
        assert janela.Coerente(c);
      }
    }

    /** The check before the attempt. */
    method Conferir(chave: string, t1: real, t2: real) returns (bloqueado: bool, espera: nat)
      requires Valid() && janela.relogio <= t1 <= t2
      modifies janela`eventos, janela`relogio
      ensures Valid() && janela.relogio == t1
      ensures bloqueado <==> (var d := Desde(janela.ops, chave); d != [] && Conta(d, t1 - janela.janela) >= janela.limite)
      ensures !bloqueado && chave in janela.eventos ==> |janela.eventos[chave]| < janela.limite
      ensures old(Freada()) ==> Freada()
      ensures bloqueado && janela.limite >= 1 && old(Freada()) ==>
        forall depois: real :: depois >= t2 + espera as real ==>
          Livre(Desde(janela.ops, chave), depois, janela.limite, janela.janela)
    {
      ghost var antes := janela.eventos;
      bloqueado := janela.Bloqueado(chave, t1);
      assert janela.Coerente(chave);
      if old(Freada()) { ShorterStillBraked(antes, janela.eventos, janela.ops, chave, janela.limite, janela.janela); }
      espera := janela.SegundosParaLiberar(chave, t2);
      if bloqueado && janela.limite >= 1 && old(Freada()) {
        assert ChaveFreada(janela.eventos, janela.ops, chave, janela.limite, janela.janela);
        WaitUnblocks(janela, chave, t2, espera);
      }
    }

    /** The record after it: a success gives the quota back, a refusal spends one. */
    method Anotar(chave: string, status: int, t: real)
      requires Valid() && janela.relogio <= t
      modifies janela
      ensures Valid()
      ensures janela.ops == old(janela.ops) + Anotacao(chave, status, t)
      ensures janela.limite >= 1 && old(Freada()) && (chave in old(janela.eventos) ==> |old(janela.eventos)[chave]| < janela.limite)
              ==> Freada()
    {
      ghost var eventos, ops := janela.eventos, janela.ops;
      if status == 200 {
        janela.Limpar(Some(chave));
        if old(Freada()) { ClearedStillBraked(eventos, ops, chave, janela.limite, janela.janela); }
      } else if status in {400, 401, 403, 422} {
        if janela.limite >= 1 && old(Freada()) && (chave in eventos ==> |eventos[chave]| < janela.limite) {
          assert ChaveFreada(eventos, ops, chave, janela.limite, janela.janela);
          SpacingKept(janela, chave, t);
        }
        var n := janela.Registrar(chave, t);
        if janela.limite >= 1 && old(Freada()) && (chave in eventos ==> |eventos[chave]| < janela.limite) {
          RegisteredStillBraked(eventos, janela.eventos, ops, chave, t, janela.limite, janela.janela);
        }
      }
    }

    /**
     * One request. `status` is what the endpoint answers if it is reached; the clock is read at the
     * check and once more, for the wait or for the record. A login is refused exactly when the refused
     * credentials of its key since the key's last success, as far as they lie in the window, reach the
     * limit. Waiting as told always unblocks a key that only this middleware has fed.
     */
    method Dispatch(metodo: string, alvo: string, origem: string, identidade: string, status: int, t1: real, t2: real)
      returns (r: Resposta)
      requires Valid() && janela.relogio <= t1 <= t2
      modifies this`respostas, janela
      ensures Valid()
      ensures metodo != "POST" || alvo != caminho ==>
        && r == Resposta(status) && respostas == old(respostas)
        && janela.ops == old(janela.ops) && janela.eventos == old(janela.eventos)
      ensures metodo == "POST" && alvo == caminho ==>
        var chave := origem + "|" + identidade;
        var d := Desde(old(janela.ops), chave);
        && (r.Demais? <==> d != [] && Conta(d, t1 - janela.janela) >= janela.limite)
        && (!r.Demais? ==> r == Resposta(status))
        && respostas == old(respostas) + (if r.Demais? then [] else [Atendido(chave, status, t2)])
        && janela.ops == old(janela.ops)
             + (if r.Demais? then []
                else if status == 200 then [Limpou(Some(chave))]
                else if status == 400 || status == 401 || status == 403 || status == 422 then [Registrou(chave, t2)]
                else [])
        && (old(Acompanha()) ==>
             (r.Demais? <==> AlgumaFalha(old(respostas), chave)
                             && |FalhasNaJanela(old(respostas), chave, t1 - janela.janela)| >= janela.limite))
        && (r.Demais? && janela.limite >= 1 && old(Freada()) ==>
             forall depois: real :: depois >= t2 + r.espera as real ==> Livre(d, depois, janela.limite, janela.janela))
      ensures old(Acompanha()) ==> Acompanha()
      ensures janela.limite >= 1 && old(Freada()) ==> Freada()
      ensures janela.limite >= 1 && old(Freada()) && old(Acompanha()) ==>
        forall c :: Espacada(Falhas(respostas, c), janela.limite, janela.janela)
    {
      if metodo == "POST" && alvo == caminho {
        var chave := origem + "|" + identidade;
        ghost var ops, rs := janela.ops, respostas;
        FailuresCounted(rs, chave, t1 - janela.janela);
        var bloqueado, espera := Conferir(chave, t1, t2);
        if bloqueado {
          r := Demais(espera);
        } else {
          Anotar(chave, status, t2);
          respostas := respostas + [Atendido(chave, status, t2)];
          if old(Acompanha()) { RecordKeepsPace(ops, rs, chave, status, t2); }
          r := Resposta(status);
        }
      } else {
        r := Resposta(status);
      }
      if janela.limite >= 1 && old(Freada()) && old(Acompanha()) {
        BrakedAnswers(janela.eventos, janela.ops, respostas, janela.limite, janela.janela);
      }
    }
  }

  lemma BrakedAnswers(eventos: map<string, seq<real>>, ops: seq<Operacao>, rs: seq<Atendido>, limite: int, janela: real)
    requires TodasFreadas(eventos, ops, limite, janela) && Corresponde(ops, rs)
    ensures forall c :: Espacada(Falhas(rs, c), limite, janela)
  {
    forall c ensures Espacada(Falhas(rs, c), limite, janela) {
      assert ChaveFreada(eventos, ops, c, limite, janela) && Desde(ops, c) == Falhas(rs, c);
    }
  }

  function Anotacao(chave: string, status: int, t: real): seq<Operacao> {
    if status == 200 then [Limpou(Some(chave))]
    else if status in {400, 401, 403, 422} then [Registrou(chave, t)]
    else []
  }

  ghost predicate TodasFreadas(eventos: map<string, seq<real>>, ops: seq<Operacao>, limite: int, janela: real) {
    forall c :: ChaveFreada(eventos, ops, c, limite, janela)
  }

  lemma ShorterStillBraked(antes: map<string, seq<real>>, depois: map<string, seq<real>>, ops: seq<Operacao>, chave: string,
                           limite: int, janela: real)
    requires TodasFreadas(antes, ops, limite, janela) && depois.Keys == antes.Keys
    requires forall c :: c in antes && c != chave ==> depois[c] == antes[c]
    requires chave in antes ==> |depois[chave]| <= |antes[chave]|
    ensures TodasFreadas(depois, ops, limite, janela)
  {
    forall c ensures ChaveFreada(depois, ops, c, limite, janela) {
      assert ChaveFreada(antes, ops, c, limite, janela);
    }
  }

  lemma ClearedStillBraked(eventos: map<string, seq<real>>, ops: seq<Operacao>, chave: string, limite: int, janela: real)
    requires TodasFreadas(eventos, ops, limite, janela)
    ensures TodasFreadas(eventos - {chave}, ops + [Limpou(Some(chave))], limite, janela)
  {
    var eventos', ops' := eventos - {chave}, ops + [Limpou(Some(chave))];
    forall c ensures ChaveFreada(eventos', ops', c, limite, janela) {
      assert ChaveFreada(eventos, ops, c, limite, janela);
      HistoryGrows(ops, Limpou(Some(chave)), c);
    }
  }

  lemma RegisteredStillBraked(antes: map<string, seq<real>>, depois: map<string, seq<real>>, ops: seq<Operacao>, chave: string,
                              t: real, limite: int, janela: real)
    requires TodasFreadas(antes, ops, limite, janela)
    requires chave in depois && depois == antes[chave := depois[chave]] && |depois[chave]| <= limite
    requires Espacada(Desde(ops, chave) + [t], limite, janela)
    ensures TodasFreadas(depois, ops + [Registrou(chave, t)], limite, janela)
  {
    var ops' := ops + [Registrou(chave, t)];
    forall c ensures ChaveFreada(depois, ops', c, limite, janela) {
      assert ChaveFreada(antes, ops, c, limite, janela);
      HistoryGrows(ops, Registrou(chave, t), c);
    }
  }

  /** A registration let through with room in the queue stays clear of the `limite`-th before it. */
  lemma SpacingKept(j: JanelaDeslizante, chave: string, t: real)
    requires j.Valid() && j.limite >= 1 && t >= j.relogio
    requires chave in j.eventos ==> |j.eventos[chave]| < j.limite
    requires Espacada(Desde(j.ops, chave), j.limite, j.janela)
    ensures Espacada(Desde(j.ops, chave) + [t], j.limite, j.janela)
    ensures Conta(Desde(j.ops, chave), t - j.janela) < j.limite
  {
    assert j.Coerente(chave);
    var d := Desde(j.ops, chave);
    CountAtLeast(d, j.limite, t - j.janela);
    if |d| >= j.limite {
      assert d[|d| - j.limite] < j.relogio - j.janela;
    }
  }
}
