/**
 * The deliveries of a report: registration keeps every version and marks one as in force, and
 * any instant can be asked for the version that was.
 */
module Entregas {
  import opened Basics

  datatype Chave = Chave(codIbge: string, relatorio: string, periodo: string)

  /** A row of gold.dim_entrega. */
  datatype Entrega = Entrega(chave: Chave, versao: string, homologadaEm: int, vigente: bool, hashPayload: Option<string>)

  /** What is to be registered; without an instant of its own it gets that of the registration. */
  datatype Job = Job(chave: Chave, versao: string, homologadaEm: Option<int>)

  datatype EntregaInfo = EntregaInfo(versao: string, vigente: bool)

  // ---------------------------------------------------------------- what the rows say

  predicate Da(ls: seq<Entrega>, i: int, k: Chave) {
    0 <= i < |ls| && ls[i].chave == k
  }

  ghost predicate Tem(ls: seq<Entrega>, k: Chave) {
    exists i :: Da(ls, i, k)
  }

  /** Row `i` is the last registered of those with the greatest instant of its key. */
  ghost predicate Domina(ls: seq<Entrega>, i: int)
    requires 0 <= i < |ls|
  {
    forall j :: Da(ls, j, ls[i].chave) ==>
      ls[j].homologadaEm <= ls[i].homologadaEm && (j > i ==> ls[j].homologadaEm < ls[i].homologadaEm)
  }

  /** Versions of a key are distinct, and exactly the dominating row is in force. */
  ghost predicate Coerente(ls: seq<Entrega>) {
    && (forall i, j :: 0 <= i < j < |ls| && ls[i].chave == ls[j].chave ==> ls[i].versao != ls[j].versao)
    && (forall i :: 0 <= i < |ls| ==> (ls[i].vigente <==> Domina(ls, i)))
  }

  /** Row `i` may answer for its key at `t`: nothing else of the key is more recent by then. */
  ghost predicate Responde(ls: seq<Entrega>, i: int, k: Chave, t: int) {
    && Da(ls, i, k) && ls[i].homologadaEm <= t
    && forall j :: Da(ls, j, k) && ls[j].homologadaEm <= t ==> ls[j].homologadaEm <= ls[i].homologadaEm
  }

  /** What the query at `t` may return: it orders by instant alone, so equal instants leave it open. */
  ghost predicate Pode(ls: seq<Entrega>, k: Chave, t: int, r: Option<string>) {
    match r
    case Some(v) => exists i :: Responde(ls, i, k, t) && ls[i].versao == v
    case None => forall i :: Da(ls, i, k) ==> ls[i].homologadaEm > t
  }

  /** The rows of `k` up to `t` include two with the greatest instant. */
  ghost predicate Empate(ls: seq<Entrega>, k: Chave, t: int) {
    exists i, j :: 0 <= i < j && Responde(ls, i, k, t) && Responde(ls, j, k, t)
  }

  // ---------------------------------------------------------------- one row is in force

  lemma {:induction false} SomeDominates(ls: seq<Entrega>, k: Chave) returns (i: nat)
    requires Tem(ls, k)
    ensures Da(ls, i, k) && Domina(ls, i)
  {
    var n: nat := |ls| - 1;
    if Tem(ls[..n], k) {
      var a :| Da(ls[..n], a, k);
      i := SomeDominates(ls[..n], k);
      forall j | 0 <= j < n ensures ls[..n][j] == ls[j] {}
      if ls[n].chave == k && ls[n].homologadaEm >= ls[i].homologadaEm {
        forall j | Da(ls, j, k) ensures ls[j].homologadaEm <= ls[n].homologadaEm {
          if j < n { assert Da(ls[..n], j, k); }
        }
        i := n;
      } else {
        forall j | Da(ls, j, k)
          ensures ls[j].homologadaEm <= ls[i].homologadaEm && (j > i ==> ls[j].homologadaEm < ls[i].homologadaEm)
        {
          if j < n { assert Da(ls[..n], j, k); }
        }
      }
    } else {
      var a :| Da(ls, a, k);
      assert a == n by { if a < n { assert Da(ls[..n], a, k); } }
      forall j | Da(ls, j, k) ensures j == n { if j < n { assert Da(ls[..n], j, k); } }
      i := n;
    }
  }

  /** Every key that has a delivery has exactly one in force. */
  lemma OneInForce(ls: seq<Entrega>, k: Chave) returns (i: nat)
    requires Coerente(ls) && Tem(ls, k)
    ensures Da(ls, i, k) && ls[i].vigente && forall j :: Da(ls, j, k) && ls[j].vigente ==> j == i
  {
    i := SomeDominates(ls, k);
    forall j | Da(ls, j, k) && ls[j].vigente ensures j == i {
      assert Domina(ls, i) && Domina(ls, j) && Da(ls, i, k);
    }
  }

  // ---------------------------------------------------------------- registration

  /** The rows after a new delivery with this instant. */
  function ComNova(ls: seq<Entrega>, k: Chave, versao: string, h: int, vence: bool, hash: string): seq<Entrega> {
    seq(|ls|, i requires 0 <= i < |ls| => if vence && ls[i].chave == k then ls[i].(vigente := false) else ls[i])
    + [Entrega(k, versao, h, vence, Some(hash))]
  }

  /** The new delivery is not older than any of its key. */
  ghost predicate Vence(ls: seq<Entrega>, k: Chave, h: int) {
    forall i :: Da(ls, i, k) ==> ls[i].homologadaEm <= h
  }

  lemma NewRows(ls: seq<Entrega>, k: Chave, versao: string, h: int, vence: bool, hash: string)
    ensures var r := ComNova(ls, k, versao, h, vence, hash);
      && |r| == |ls| + 1 && r[|ls|] == Entrega(k, versao, h, vence, Some(hash))
      && forall i :: 0 <= i < |ls| ==> (
           && r[i].chave == ls[i].chave && r[i].versao == ls[i].versao && r[i].homologadaEm == ls[i].homologadaEm
           && r[i].vigente == (ls[i].vigente && !(vence && ls[i].chave == k)))
  {
  }

  lemma NewKeepsCoherent(ls: seq<Entrega>, k: Chave, versao: string, h: int, vence: bool, hash: string)
    requires Coerente(ls) && (vence <==> Vence(ls, k, h))
    requires forall i :: Da(ls, i, k) ==> ls[i].versao != versao
    ensures Coerente(ComNova(ls, k, versao, h, vence, hash))
  {
    var r, n := ComNova(ls, k, versao, h, vence, hash), |ls|;
    NewRows(ls, k, versao, h, vence, hash);
    forall i, j | 0 <= i < j < |r| && r[i].chave == r[j].chave ensures r[i].versao != r[j].versao {
      if j == n { assert Da(ls, i, k); }
    }
    forall i | 0 <= i < |r| ensures r[i].vigente <==> Domina(r, i) { NewDominates(ls, k, versao, h, vence, hash, i); }
  }

  lemma NewDominates(ls: seq<Entrega>, k: Chave, versao: string, h: int, vence: bool, hash: string, i: nat)
    requires Coerente(ls) && (vence <==> Vence(ls, k, h)) && i <= |ls|
    ensures var r := ComNova(ls, k, versao, h, vence, hash); |r| == |ls| + 1 && (r[i].vigente <==> Domina(r, i))
  {
    var r, n := ComNova(ls, k, versao, h, vence, hash), |ls|;
    NewRows(ls, k, versao, h, vence, hash);
    if i == n {
      if vence {
        forall j | Da(r, j, k) ensures r[j].homologadaEm <= h { if j < n { assert Da(ls, j, k); } }
      } else {
        var j :| Da(ls, j, k) && ls[j].homologadaEm > h;
        assert Da(r, j, k);
      }
    } else if ls[i].chave != k {
      assert Domina(r, i) <==> Domina(ls, i) by { OtherKeySame(ls, r, i); }
    } else if vence {
      assert Da(ls, i, k) && Da(r, n, k);
    } else {
      OlderChangesNothing(ls, r, h, i);
    }
  }

  lemma OtherKeySame(ls: seq<Entrega>, r: seq<Entrega>, i: nat)
    requires |r| == |ls| + 1 && i < |ls| && ls[i].chave != r[|ls|].chave
    requires forall j :: 0 <= j < |ls| ==> r[j].chave == ls[j].chave && r[j].homologadaEm == ls[j].homologadaEm
    ensures Domina(r, i) <==> Domina(ls, i)
  {
    var k := ls[i].chave;
    forall j ensures Da(r, j, k) <==> Da(ls, j, k) {}
  }

  lemma OlderChangesNothing(ls: seq<Entrega>, r: seq<Entrega>, h: int, i: nat)
    requires |r| == |ls| + 1 && i < |ls| && r[|ls|].homologadaEm == h && r[|ls|].chave == ls[i].chave
    requires forall j :: 0 <= j < |ls| ==> r[j].chave == ls[j].chave && r[j].homologadaEm == ls[j].homologadaEm
    requires !Vence(ls, ls[i].chave, h)
    ensures Domina(r, i) <==> Domina(ls, i)
  {
    var k := ls[i].chave;
    forall j | 0 <= j < |ls| ensures Da(r, j, k) <==> Da(ls, j, k) {}
    if Domina(r, i) {
      forall j | Da(ls, j, k)
        ensures ls[j].homologadaEm <= ls[i].homologadaEm && (j > i ==> ls[j].homologadaEm < ls[i].homologadaEm)
      {
        assert Da(r, j, k);
      }
    }
    if Domina(ls, i) {
      var m :| Da(ls, m, k) && ls[m].homologadaEm > h;
      assert ls[m].homologadaEm <= ls[i].homologadaEm;
    }
  }

  /** Filling in a missing hash. */
  lemma HashKeepsCoherent(ls: seq<Entrega>, i: nat, hash: string)
    requires Coerente(ls) && i < |ls|
    ensures Coerente(ls[i := ls[i].(hashPayload := Some(hash))])
  {
    var r := ls[i := ls[i].(hashPayload := Some(hash))];
    forall a | 0 <= a < |r| ensures r[a].vigente <==> Domina(r, a) {
      assert forall j, k :: Da(r, j, k) <==> Da(ls, j, k);
      assert Domina(r, a) <==> Domina(ls, a) by {
        if Domina(r, a) { forall j | Da(ls, j, ls[a].chave) ensures ls[j].homologadaEm <= ls[a].homologadaEm && (j > a ==> ls[j].homologadaEm < ls[a].homologadaEm) { assert Da(r, j, r[a].chave); } }
        if Domina(ls, a) { forall j | Da(r, j, r[a].chave) ensures r[j].homologadaEm <= r[a].homologadaEm && (j > a ==> r[j].homologadaEm < r[a].homologadaEm) { assert Da(ls, j, ls[a].chave); } }
      }
    }
  }

  class DimEntrega {
    var linhas: seq<Entrega>

    ghost predicate Valid()
      reads this
    {
      Coerente(linhas)
    }

    constructor ()
      ensures Valid() && linhas == []
    {
      linhas := [];
    }

    /** The row of this key and version, if there is one. */
    method Procura(k: Chave, versao: string) returns (r: Option<nat>)
      ensures r.Some? ==> Da(linhas, r.value, k) && linhas[r.value].versao == versao
      ensures r == None ==> forall i :: Da(linhas, i, k) ==> linhas[i].versao != versao
    {
      for i := 0 to |linhas|
        invariant forall j :: Da(linhas, j, k) && j < i ==> linhas[j].versao != versao
      {
        if linhas[i].chave == k && linhas[i].versao == versao { return Some(i); }
      }
      return None;
    }

    /** `select max(homologada_em)`. */
    method MaxHomologada(k: Chave) returns (r: Option<int>)
      ensures r == None <==> !Tem(linhas, k)
      ensures r.Some? ==> forall i :: Da(linhas, i, k) ==> linhas[i].homologadaEm <= r.value
      ensures r.Some? ==> exists i :: Da(linhas, i, k) && linhas[i].homologadaEm == r.value
    {
      r := None;
      for i := 0 to |linhas|
        invariant r == None <==> forall j :: Da(linhas, j, k) ==> j >= i
        invariant r.Some? ==> forall j :: Da(linhas, j, k) && j < i ==> linhas[j].homologadaEm <= r.value
        invariant r.Some? ==> exists j :: Da(linhas, j, k) && j < i && linhas[j].homologadaEm == r.value
      {
        if linhas[i].chave == k && (r == None || linhas[i].homologadaEm > r.value) {
          r := Some(linhas[i].homologadaEm);
          assert Da(linhas, i, k);
        }
      }
    }

    /** The branch for a version already there. */
    method CompletaHash(i: nat, hash: string) returns (info: EntregaInfo)
      requires Valid() && i < |linhas|
      modifies this
      ensures Valid()
      ensures info == EntregaInfo(old(linhas)[i].versao, old(linhas)[i].vigente)
      ensures linhas == if old(linhas)[i].hashPayload.Some? then old(linhas)
                        else old(linhas)[i := old(linhas)[i].(hashPayload := Some(hash))]
    {
      if linhas[i].hashPayload == None {
        HashKeepsCoherent(linhas, i, hash);
        linhas := linhas[i := linhas[i].(hashPayload := Some(hash))];
      }
      info := EntregaInfo(linhas[i].versao, linhas[i].vigente);
    }

    /**
     * `register_entrega`, with the lock on the key held. A known version changes nothing but a missing
     * hash; a new one is kept beside the others and comes into force unless one of them is more recent.
     */
    method RegisterEntrega(job: Job, hash: string, agora: int) returns (info: EntregaInfo)
      requires Valid()
      modifies this
      ensures Valid()
      ensures forall i :: Da(old(linhas), i, job.chave) && old(linhas)[i].versao == job.versao ==>
        && info == EntregaInfo(job.versao, old(linhas)[i].vigente)
        && linhas == if old(linhas)[i].hashPayload.Some? then old(linhas)
                     else old(linhas)[i := old(linhas)[i].(hashPayload := Some(hash))]
      ensures (forall i :: Da(old(linhas), i, job.chave) ==> old(linhas)[i].versao != job.versao) ==>
        var h := if job.homologadaEm.Some? then job.homologadaEm.value else agora;
        && info.versao == job.versao && (info.vigente <==> Vence(old(linhas), job.chave, h))
        && linhas == ComNova(old(linhas), job.chave, job.versao, h, info.vigente, hash)
    {
      var existing := Procura(job.chave, job.versao);
      if existing.Some? {
        info := CompletaHash(existing.value, hash);
        return;
      }
      var homologada := if job.homologadaEm.Some? then job.homologadaEm.value else agora;
      var maximo := MaxHomologada(job.chave);
      var vence := maximo == None || homologada >= maximo.value;
      assert vence <==> Vence(linhas, job.chave, homologada);
      NewKeepsCoherent(linhas, job.chave, job.versao, homologada, vence, hash);
      linhas := ComNova(linhas, job.chave, job.versao, homologada, vence, hash);
      info := EntregaInfo(job.versao, vence);
    }

    /** `resolve_versao`: the version in force, or one that was at an instant. */
    method ResolveVersao(k: Chave, asOf: Option<int>) returns (r: Option<string>)
      requires Valid()
      ensures asOf == None ==> (r == None <==> !Tem(linhas, k))
      ensures asOf == None && r.Some? ==> exists i :: Da(linhas, i, k) && linhas[i].vigente && linhas[i].versao == r.value
      ensures asOf.Some? ==> Pode(linhas, k, asOf.value, r)
    {
      if asOf == None { r := EmVigor(k); } else { r := NoInstante(k, asOf.value); }
    }

    method EmVigor(k: Chave) returns (r: Option<string>)
      requires Valid()
      ensures r == None <==> !Tem(linhas, k)
      ensures r.Some? ==> exists i :: Da(linhas, i, k) && linhas[i].vigente && linhas[i].versao == r.value
    {
      for i := 0 to |linhas|
        invariant forall j :: Da(linhas, j, k) && j < i ==> !linhas[j].vigente
      {
        if linhas[i].chave == k && linhas[i].vigente {
          assert Da(linhas, i, k);
          return Some(linhas[i].versao);
        }
      }
      if Tem(linhas, k) { ghost var v := OneInForce(linhas, k); }
      return None;
    }

    method NoInstante(k: Chave, t: int) returns (r: Option<string>)
      ensures Pode(linhas, k, t, r)
    {
      var melhor: Option<nat> := None;
      for i := 0 to |linhas|
        invariant melhor == None ==> forall j :: Da(linhas, j, k) && j < i ==> linhas[j].homologadaEm > t
        invariant melhor.Some? ==> Da(linhas, melhor.value, k) && linhas[melhor.value].homologadaEm <= t
        invariant melhor.Some? ==> forall j :: Da(linhas, j, k) && j < i && linhas[j].homologadaEm <= t ==>
          linhas[j].homologadaEm <= linhas[melhor.value].homologadaEm
      {
        if linhas[i].chave == k && linhas[i].homologadaEm <= t
          && (melhor == None || linhas[i].homologadaEm > linhas[melhor.value].homologadaEm)
        {
          melhor := Some(i);
        }
      }
      if melhor == None { return None; }
      assert Responde(linhas, melhor.value, k, t);
      r := Some(linhas[melhor.value].versao);
    }
  }

  // ---------------------------------------------------------------- instants

  /** No delivery of the key is later than `t`. */
  ghost predicate Ate(ls: seq<Entrega>, k: Chave, t: int) {
    forall i :: Da(ls, i, k) ==> ls[i].homologadaEm <= t
  }

  /** Asked for an instant that no delivery is later than, the version in force is an answer, and the only one exactly without a tie. */
  lemma NowIsInForceIff(ls: seq<Entrega>, k: Chave, t: int, v: string, i: nat)
    requires Coerente(ls) && Da(ls, i, k) && ls[i].vigente && ls[i].versao == v && Ate(ls, k, t)
    ensures Pode(ls, k, t, Some(v)) && !Pode(ls, k, t, None)
    ensures (forall r :: Pode(ls, k, t, r) ==> r == Some(v)) <==> !Empate(ls, k, t)
  {
    assert Domina(ls, i) && Responde(ls, i, k, t);
    if !Empate(ls, k, t) {
      forall r | Pode(ls, k, t, r) ensures r == Some(v) {
        if r.Some? {
          var j :| Responde(ls, j, k, t) && ls[j].versao == r.value;
          assert i == j;
        }
      }
    } else {
      var a, b :| 0 <= a < b && Responde(ls, a, k, t) && Responde(ls, b, k, t);
      assert Pode(ls, k, t, Some(ls[a].versao)) && Pode(ls, k, t, Some(ls[b].versao));
      assert ls[a].versao != ls[b].versao;
    }
  }

  /** A delivery of a later instant never changes what an earlier one is answered. */
  lemma LaterKeepsThePast(ls: seq<Entrega>, k: Chave, versao: string, h: int, vence: bool, hash: string, x: Chave, t: int, r: Option<string>)
    requires x != k || h > t
    ensures Pode(ComNova(ls, k, versao, h, vence, hash), x, t, r) <==> Pode(ls, x, t, r)
  {
    var d, n := ComNova(ls, k, versao, h, vence, hash), |ls|;
    NewRows(ls, k, versao, h, vence, hash);
    forall i ensures Responde(d, i, x, t) <==> Responde(ls, i, x, t) {
      forall j | Da(d, j, x) && d[j].homologadaEm <= t ensures Da(ls, j, x) {}
      forall j | Da(ls, j, x) ensures Da(d, j, x) {}
    }
    if r.Some? {
      forall i ensures Responde(d, i, x, t) && d[i].versao == r.value <==> Responde(ls, i, x, t) && ls[i].versao == r.value {}
    } else {
      forall j | Da(ls, j, x) ensures Da(d, j, x) {}
    }
  }

  /** Registered with an instant up to `t`, a new version becomes an answer there exactly when none up to `t` is more recent. */
  lemma NewAnswersIff(ls: seq<Entrega>, k: Chave, versao: string, h: int, vence: bool, hash: string, t: int)
    requires h <= t && forall i :: Da(ls, i, k) ==> ls[i].versao != versao
    ensures Pode(ComNova(ls, k, versao, h, vence, hash), k, t, Some(versao))
      <==> forall i :: Da(ls, i, k) && ls[i].homologadaEm <= t ==> ls[i].homologadaEm <= h
  {
    var d, n := ComNova(ls, k, versao, h, vence, hash), |ls|;
    NewRows(ls, k, versao, h, vence, hash);
    if Pode(d, k, t, Some(versao)) {
      var i :| Responde(d, i, k, t) && d[i].versao == versao;
      assert i == n by { if i < n { assert Da(ls, i, k); } }
      forall j | Da(ls, j, k) && ls[j].homologadaEm <= t ensures ls[j].homologadaEm <= h { assert Da(d, j, k); }
    }
    if forall i :: Da(ls, i, k) && ls[i].homologadaEm <= t ==> ls[i].homologadaEm <= h {
      forall j | Da(d, j, k) && d[j].homologadaEm <= t ensures d[j].homologadaEm <= h { if j < n { assert Da(ls, j, k); } }
      assert Responde(d, n, k, t);
    }
  }

  /**
   * The instant of the version in force can be pinned: at it that version is the one answer, if it is without
   * a tie, and stays so through any registration of another version exactly when that one has another instant.
   */
  lemma PinHoldsIff(ls: seq<Entrega>, k: Chave, i: nat, versao: string, h: int, vence: bool, hash: string)
    requires Coerente(ls) && Da(ls, i, k) && ls[i].vigente && !Empate(ls, k, ls[i].homologadaEm)
    requires forall j :: Da(ls, j, k) ==> ls[j].versao != versao
    ensures var t := ls[i].homologadaEm;
      && (forall r :: Pode(ls, k, t, r) <==> r == Some(ls[i].versao))
      && ((forall r :: Pode(ComNova(ls, k, versao, h, vence, hash), k, t, r) ==> r == Some(ls[i].versao)) <==> h != t)
  {
    var t, d, n, v := ls[i].homologadaEm, ComNova(ls, k, versao, h, vence, hash), |ls|, ls[i].versao;
    assert Domina(ls, i);
    NowIsInForceIff(ls, k, t, v, i);
    NewRows(ls, k, versao, h, vence, hash);
    if h > t {
      forall r | Pode(d, k, t, r) ensures r == Some(v) { LaterKeepsThePast(ls, k, versao, h, vence, hash, k, t, r); }
    } else if h < t {
      forall r | Pode(d, k, t, r) ensures r == Some(v) { OlderIsNoAnswer(ls, k, i, versao, h, vence, hash, r); }
    } else {
      NewAnswersIff(ls, k, versao, h, vence, hash, t);
      assert Pode(d, k, t, Some(versao)) && versao != v;
    }
  }

  lemma OlderIsNoAnswer(ls: seq<Entrega>, k: Chave, i: nat, versao: string, h: int, vence: bool, hash: string, r: Option<string>)
    requires Coerente(ls) && Da(ls, i, k) && ls[i].vigente && !Empate(ls, k, ls[i].homologadaEm) && h < ls[i].homologadaEm
    requires Pode(ComNova(ls, k, versao, h, vence, hash), k, ls[i].homologadaEm, r)
    ensures r == Some(ls[i].versao)
  {
    var t, d, n := ls[i].homologadaEm, ComNova(ls, k, versao, h, vence, hash), |ls|;
    NewRows(ls, k, versao, h, vence, hash);
    assert Domina(ls, i) && Da(d, i, k);
    assert Responde(ls, i, k, t);
    if r.Some? {
      var j :| Responde(d, j, k, t) && d[j].versao == r.value;
      assert d[j].homologadaEm >= t;
      assert j < n && Da(ls, j, k);
      assert Responde(ls, j, k, t);
      assert i == j;
    }
  }
}
