/**
 * Which name an account bears after any history of registrations: a DCA, the MSC of a month and
 * the static glossary all write the one description of dim_conta_pcasp.
 */
module Descricoes {
  import opened Basics
  import opened Pcasp
  import opened Contas
  import Rollup

  // ---------------------------------------------------------------- one account

  /** How one registration met one account; an account that is only implied has an empty name. */
  datatype Encontro = PorDca(nome: string) | PorMsc

  /** The name an encounter brings that may replace another one. */
  function Voz(e: Encontro, oficial: string): string {
    match e
    case PorDca(nome) => if nome != "" then nome else oficial
    case PorMsc => ""
  }

  /** One write: an MSC passes the present description on as a given name. */
  function Apos(antes: Option<string>, e: Encontro, oficial: string, generico: string): string {
    var dado := match e
      case PorDca(nome) => nome
      case PorMsc => if antes.Some? then antes.value else "";
    var nome := if dado != "" then dado else oficial;
    if nome != "" then nome else if antes.Some? then antes.value else generico
  }

  function Descricao(hist: seq<Encontro>, oficial: string, generico: string): Option<string> {
    if hist == [] then None
    else
      var n := |hist| - 1;
      Some(Apos(Descricao(hist[..n], oficial, generico), hist[n], oficial, generico))
  }

  /** From `de` on, no encounter brings a name. */
  ghost predicate Calados(hist: seq<Encontro>, oficial: string, de: nat) {
    forall j :: de <= j < |hist| ==> Voz(hist[j], oficial) == ""
  }

  /** Without any name brought it is the glossary's name and, for want of that, the generic one. */
  lemma {:induction false} SilentHistory(hist: seq<Encontro>, oficial: string, generico: string)
    requires hist != [] && Calados(hist, oficial, 0)
    ensures Descricao(hist, oficial, generico) == Some(if oficial != "" then oficial else generico)
  {
    var n := |hist| - 1;
    assert Voz(hist[n], oficial) == "";
    if n > 0 {
      assert Calados(hist[..n], oficial, 0);
      SilentHistory(hist[..n], oficial, generico);
    }
  }

  /**
   * The last DCA that brings a name, its own or the glossary's, decides, whatever any MSC does
   * later.
   */
  lemma {:induction false} LastVoiceDecides(hist: seq<Encontro>, oficial: string, generico: string, i: nat)
    requires i < |hist| && Voz(hist[i], oficial) != "" && Calados(hist, oficial, i + 1)
    ensures Descricao(hist, oficial, generico) == Some(Voz(hist[i], oficial))
  {
    var n := |hist| - 1;
    if i < n {
      var antes := hist[..n];
      assert Voz(hist[n], oficial) == "";
      assert antes[i] == hist[i] && Calados(antes, oficial, i + 1);
      LastVoiceDecides(antes, oficial, generico, i);
    }
  }

  /** Later registrations that give the account no name of their own. */
  ghost predicate SemNome(depois: seq<Encontro>) {
    forall j :: 0 <= j < |depois| ==> depois[j] == PorMsc || depois[j] == PorDca("")
  }

  /**
   * A name from a DCA stays through registrations that bring none exactly when the glossary has
   * no other name for the account or every one of them is an MSC.
   */
  lemma DcaNameStaysIff(
    antes: seq<Encontro>, nome: string, depois: seq<Encontro>, oficial: string, generico: string)
    requires nome != "" && generico != "" && SemNome(depois)
    ensures Descricao(antes + [PorDca(nome)] + depois, oficial, generico) == Some(nome)
      <==> oficial == "" || oficial == nome || PorDca("") !in depois
  {
    var hist := antes + [PorDca(nome)] + depois;
    var k := |antes|;
    assert hist[k] == PorDca(nome) && forall j :: 0 <= j < |depois| ==> hist[k + 1 + j] == depois[j];
    if oficial == "" || PorDca("") !in depois {
      forall i | k + 1 <= i < |hist| ensures Voz(hist[i], oficial) == "" {
        assert hist[i] == depois[i - k - 1];
      }
      LastVoiceDecides(hist, oficial, generico, k);
    } else {
      var i := LastImplied(depois);
      forall j | k + 2 + i <= j < |hist| ensures Voz(hist[j], oficial) == "" {
        assert hist[j] == depois[j - k - 1];
      }
      assert hist[k + 1 + i] == PorDca("");
      LastVoiceDecides(hist, oficial, generico, k + 1 + i);
    }
  }

  /** The last DCA that only implies the account. */
  lemma LastImplied(depois: seq<Encontro>) returns (i: nat)
    requires PorDca("") in depois
    ensures i < |depois| && depois[i] == PorDca("") && PorDca("") !in depois[i + 1..]
  {
    var n := |depois| - 1;
    if depois[n] == PorDca("") {
      i := n;
    } else {
      i := LastImplied(depois[..n]);
      assert depois[i + 1..] == depois[..n][i + 1..] + [depois[n]];
    }
  }

  // ---------------------------------------------------------------- the table

  /** One run of `_registrar_contas`, from a DCA or from the MSC of a month, with the rows it wrote. */
  datatype Registro =
    | Dca(nomes: map<string, Option<string>>, escritas: seq<D9>)
    | Msc(nos: seq<D9>, escritas: seq<D9>)
  {
    ghost predicate Valido() {
      Msc? ==> forall a: D9 :: a in escritas <==> a in nos
    }

    function LoteEm(contas: map<string, Conta>, glossario: map<string, string>): Lote {
      match this
      case Dca(nomes, _) => Lote(nomes, glossario, "dca")
      case Msc(nos, _) => Lote(NomesEm(contas, nos), glossario, "msc")
    }

    function EncontroDe(d: D9): Encontro {
      match this
      case Dca(nomes, _) => PorDca(var a := Autoritativa(nomes, Mask(d)); if a.Some? then a.value else "")
      case Msc(_, _) => PorMsc
    }
  }

  /** The table after these registrations, from an empty one. */
  function Tabela(regs: seq<Registro>, glossario: map<string, string>): map<string, Conta> {
    if regs == [] then map[]
    else
      var n := |regs| - 1;
      var antes := Tabela(regs[..n], glossario);
      Escrever(antes, regs[n].escritas, regs[n].LoteEm(antes, glossario))
  }

  /** The registrations that wrote the account. */
  function Historico(regs: seq<Registro>, d: D9): seq<Encontro> {
    if regs == [] then []
    else
      var n := |regs| - 1;
      Historico(regs[..n], d) + if d in regs[n].escritas then [regs[n].EncontroDe(d)] else []
  }

  function Oficial(glossario: map<string, string>, d: D9): string {
    if Mask(d) in glossario then glossario[Mask(d)] else ""
  }

  function DescricaoEm(contas: map<string, Conta>, d: D9): Option<string> {
    if Mask(d) in contas then Some(contas[Mask(d)].descricao) else None
  }

  /** One registration writes, of each account, what one encounter says. */
  lemma RegistrationStep(contas: map<string, Conta>, r: Registro, glossario: map<string, string>, d: D9)
    requires r.Valido() && d in r.escritas
    ensures DescricaoEm(Escrever(contas, r.escritas, r.LoteEm(contas, glossario)), d)
      == Some(Apos(DescricaoEm(contas, d), r.EncontroDe(d), Oficial(glossario, d), NomeNo(d)))
  {
    WrittenIsThere(contas, r.escritas, r.LoteEm(contas, glossario), d);
    if r.Msc? { NamesAreTheirs(contas, r.nos, d); }
  }

  /** After any registrations the table holds, of each account, what its own history says. */
  lemma {:induction false} TableFollowsHistory(regs: seq<Registro>, glossario: map<string, string>, d: D9)
    requires forall i :: 0 <= i < |regs| ==> regs[i].Valido()
    ensures DescricaoEm(Tabela(regs, glossario), d)
      == Descricao(Historico(regs, d), Oficial(glossario, d), NomeNo(d))
  {
    if regs != [] {
      var n := |regs| - 1;
      var antes, r := Tabela(regs[..n], glossario), regs[n];
      TableFollowsHistory(regs[..n], glossario, d);
      if d in r.escritas {
        RegistrationStep(antes, r, glossario, d);
        var h := Historico(regs[..n], d);
        assert (h + [r.EncontroDe(d)])[..|h|] == h;
      } else {
        WrittenIsThere(antes, r.escritas, r.LoteEm(antes, glossario), d);
        assert Historico(regs, d) == Historico(regs[..n], d);
      }
    }
  }

  /** The source of a row is the kind of the last registration that wrote it. */
  lemma LastSource(regs: seq<Registro>, glossario: map<string, string>, d: D9)
    requires regs != [] && d in regs[|regs| - 1].escritas
    ensures var t := Tabela(regs, glossario);
      Mask(d) in t && t[Mask(d)].fonte == if regs[|regs| - 1].Msc? then "msc" else "dca"
  {
    var n := |regs| - 1;
    var antes := Tabela(regs[..n], glossario);
    WrittenIsThere(antes, regs[n].escritas, regs[n].LoteEm(antes, glossario), d);
  }

  /** The nodes of a rollup hold their ancestors, as the registration of an MSC needs. */
  lemma RollupNodesAreClosed(n: D9, a: D9, linhas: seq<Rollup.Linha>)
    requires Rollup.EhNo(n, linhas) && a in Ancestrais(n)
    ensures Rollup.EhNo(a, linhas)
  {
    var d: D9 :| Rollup.TemConta(d, linhas) && n in Ancestrais(d);
    AncestorsNest(a, n, d);
  }
}
