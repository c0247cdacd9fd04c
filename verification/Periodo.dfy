/**
 * Fiscal periods: a year or a part of it. Their text form, what precedes them, and the two
 * translations between bimesters and the cadences of the RGF.
 */
module Periodo {
  import opened Basics
  import opened Ordenacao
  import opened Texto

  datatype Tipo = B | Q | S | M

  datatype Periodo = Anual(ano: int) | Parte(ano: int, tipo: Tipo, num: int)

  function PorAno(t: Tipo): (r: int)
    ensures r in {2, 3, 6, 12}
  {
    match t case B => 6 case Q => 3 case S => 2 case M => 12
  }

  function Letra(t: Tipo): char {
    match t case B => 'B' case Q => 'Q' case S => 'S' case M => 'M'
  }

  function TipoDe(c: char): Option<Tipo> {
    if c == 'B' then Some(B) else if c == 'Q' then Some(Q) else if c == 'S' then Some(S) else if c == 'M' then Some(M) else None
  }

  predicate SoDigitos(s: string) {
    forall i :: 0 <= i < |s| ==> Digito(s[i])
  }

  /** What the pattern accepts, once stripped. */
  function ParseLimpo(s: string): Option<Periodo> {
    if |s| < 4 || !SoDigitos(s[..4]) then None
    else if |s| == 4 then Some(Anual(Inteiro(s)))
    else if |s| !in {7, 8} || s[4] != '-' || TipoDe(s[5]) == None || !SoDigitos(s[6..]) then None
    else Some(Parte(Inteiro(s[..4]), TipoDe(s[5]).value, Inteiro(s[6..])))
  }

  /** `parse`; None is the ValueError. */
  function Parse(periodo: string): Option<Periodo> {
    ParseLimpo(Strip(periodo))
  }

  /** Months are written with two digits, the other numbers as they are. */
  function NumTexto(t: Tipo, num: int): string {
    if t == M && 0 <= num < 10 then "0" + Nat(num) else Str(num)
  }

  function Formatar(p: Periodo): string {
    if p.Anual? then Str(p.ano) else Str(p.ano) + ['-', Letra(p.tipo)] + NumTexto(p.tipo, p.num)
  }

  /** Years and numbers that the text form can carry. */
  predicate Representavel(p: Periodo) {
    1000 <= p.ano <= 9999 && (p.Parte? ==> 0 <= p.num <= 99)
  }

  /** A part that the calendar has. */
  predicate DoCalendario(p: Periodo) {
    p.Parte? ==> 1 <= p.num <= PorAno(p.tipo)
  }

  // ---------------------------------------------------------------- text round trip

  lemma StrOfYear(n: int)
    ensures 1000 <= n <= 9999 <==> |Str(n)| == 4 && SoDigitos(Str(n))
    ensures 0 <= n ==> Str(n) == Nat(n)
    ensures n < 0 ==> Str(n)[0] == '-'
  {
    if n >= 0 { NatLength(n); } else { assert !Digito(Str(n)[0]); }
  }

  lemma NumberText(t: Tipo, num: int)
    ensures var n := NumTexto(t, num);
      && n != "" && Digito(n[|n| - 1])
      && (SoDigitos(n) && |n| <= 2 <==> 0 <= num <= 99)
      && (num >= 0 ==> SoDigitos(n) && Inteiro(n) == num)
  {
    if num >= 0 {
      NatLength(num);
      LeadingZero(Nat(num));
    } else {
      assert !Digito(NumTexto(t, num)[0]);
    }
  }

  lemma {:induction false} LeadingZero(s: string)
    requires SoDigitos(s)
    ensures SoDigitos("0" + s) && Inteiro("0" + s) == Inteiro(s)
  {
    var z := "0" + s;
    if s == "" {
      assert z[..0] == "" && Inteiro(z[..0]) == 0;
    } else {
      LeadingZero(s[..|s| - 1]);
      assert z[..|z| - 1] == "0" + s[..|s| - 1];
    }
  }

  lemma FormatNoSpace(p: Periodo)
    ensures Strip(Formatar(p)) == Formatar(p)
  {
    var s, a := Formatar(p), Str(p.ano);
    assert s[0] == a[0];
    if p.Parte? {
      NumberText(p.tipo, p.num);
      assert s[|s| - 1] == NumTexto(p.tipo, p.num)[|NumTexto(p.tipo, p.num)| - 1];
    }
    StripNothing(s);
  }

  lemma YearOnly(ano: int)
    ensures ParseLimpo(Str(ano)) == if 1000 <= ano <= 9999 then Some(Anual(ano)) else None
  {
    var a := Str(ano);
    StrOfYear(ano);
    if ano < 0 {
      assert !Digito(a[0]);
    } else if |a| == 4 {
      assert a[..4] == a;
    } else if |a| > 4 {
      assert Digito(a[4]);
    }
  }

  lemma GoodYearAndPart(a: string, t: Tipo, n: string)
    requires |a| == 4 && SoDigitos(a) && n != ""
    ensures ParseLimpo(a + ['-', Letra(t)] + n)
         == if |n| <= 2 && SoDigitos(n) then Some(Parte(Inteiro(a), t, Inteiro(n))) else None
  {
    var s := a + ['-', Letra(t)] + n;
    assert s[..4] == a && s[6..] == n && s[4] == '-' && s[5] == Letra(t);
  }

  lemma BadYearAndPart(a: string, ano: int, t: Tipo, n: string)
    requires a == Str(ano) && !(1000 <= ano <= 9999) && n != ""
    ensures ParseLimpo(a + ['-', Letra(t)] + n) == None
  {
    var s := a + ['-', Letra(t)] + n;
    StrOfYear(ano);
    if ano < 0 {
      assert !Digito(s[0]);
    } else if |a| > 4 {
      assert Digito(a[4]) && s[4] == a[4];
    } else {
      assert s[|a|] == '-' && !Digito(s[|a|]);
    }
  }

  /** Reading back what was written gives the same period exactly when the text form can carry it. */
  lemma FormatParseIff(p: Periodo)
    ensures Parse(Formatar(p)) == if Representavel(p) then Some(p) else None
  {
    FormatNoSpace(p);
    if p.Anual? {
      YearOnly(p.ano);
    } else {
      NumberText(p.tipo, p.num);
      StrOfYear(p.ano);
      if 1000 <= p.ano <= 9999 {
        GoodYearAndPart(Str(p.ano), p.tipo, NumTexto(p.tipo, p.num));
      } else {
        BadYearAndPart(Str(p.ano), p.ano, p.tipo, NumTexto(p.tipo, p.num));
      }
    }
  }

  lemma DigitsBound(s: string)
    requires SoDigitos(s) && |s| <= 4
    ensures Inteiro(s) <= (if |s| == 0 then 0 else if |s| == 1 then 9 else if |s| == 2 then 99 else if |s| == 3 then 999 else 9999)
  {
    if |s| > 0 { DigitsBound(s[..|s| - 1]); }
  }

  lemma ParseRange(s: string, p: Periodo)
    requires Parse(s) == Some(p)
    ensures 0 <= p.ano <= 9999 && (p.Parte? ==> 0 <= p.num <= 99)
  {
    var t := Strip(s);
    DigitsBound(t[..4]);
    if p.Parte? { DigitsBound(t[6..]); } else { assert t[..4] == t; }
  }

  lemma YearPrefix(p: Periodo, q: Periodo)
    requires p.ano >= 0 && q.ano >= 0 && p.Parte? && q.Parte? && Formatar(p) == Formatar(q)
    ensures |Str(p.ano)| <= |Str(q.ano)|
  {
    var a, b := Str(p.ano), Str(q.ano);
    assert forall i :: 0 <= i < |a| ==> Digito(Formatar(p)[i]);
    assert Formatar(q)[|b|] == '-' && !Digito('-');
  }

  /** Different periods of years not before zero are never written alike. */
  lemma FormatInjective(p: Periodo, q: Periodo)
    requires p.ano >= 0 && q.ano >= 0 && p.Parte? && q.Parte? && p.num >= 0 && q.num >= 0
    requires Formatar(p) == Formatar(q)
    ensures p == q
  {
    YearPrefix(p, q);
    YearPrefix(q, p);
    var n := |Str(p.ano)|;
    assert Str(p.ano) == Formatar(p)[..n] == Formatar(q)[..n] == Str(q.ano);
    assert Formatar(p)[n + 1] == Letra(p.tipo) && Formatar(q)[n + 1] == Letra(q.tipo);
    assert NumTexto(p.tipo, p.num) == Formatar(p)[n + 2..] == Formatar(q)[n + 2..] == NumTexto(q.tipo, q.num);
    NumberText(p.tipo, p.num);
    NumberText(q.tipo, q.num);
  }

  /** A month is always written with two digits, any other part with as many as it has. */
  lemma FormattedLength(p: Periodo)
    requires Representavel(p)
    ensures |Formatar(p)| == if p.Anual? then 4 else if p.tipo == M || p.num >= 10 then 8 else 7
  {
    NatLength(p.ano);
    if p.Parte? { NatLength(p.num); }
  }

  // ---------------------------------------------------------------- going back

  function AnteriorDe(p: Periodo): Periodo {
    if p.Anual? then Anual(p.ano - 1)
    else if p.num > 1 then p.(num := p.num - 1)
    else Parte(p.ano - 1, p.tipo, PorAno(p.tipo))
  }

  function UmAnoAntes(p: Periodo): Periodo {
    p.(ano := p.ano - 1)
  }

  function Anterior(periodo: string): Option<string> {
    match Parse(periodo) case None => None case Some(p) => Some(Formatar(AnteriorDe(p)))
  }

  function MesmoPeriodoExercicioAnterior(periodo: string): Option<string> {
    match Parse(periodo) case None => None case Some(p) => Some(Formatar(UmAnoAntes(p)))
  }

  /** A partial step taken `k` times. */
  function Vezes(passo: string -> Option<string>, s: string, k: nat): Option<string> {
    if k == 0 then Some(s)
    else match Vezes(passo, s, k - 1) case None => None case Some(x) => passo(x)
  }

  /** Where `k` steps back lead, for at most a year of steps. */
  function Atras(p: Periodo, k: nat): Periodo
    requires p.Parte?
  {
    if k < p.num then p.(num := p.num - k) else Parte(p.ano - 1, p.tipo, p.num + PorAno(p.tipo) - k)
  }

  /** A step on text that is the calendar's step on what the text says, and fails on unreadable text. */
  ghost predicate SegueCalendario(passo: string -> Option<string>, texto: Periodo -> string) {
    forall q :: passo(texto(q)) == if Representavel(q) then Some(texto(AnteriorDe(q))) else None
  }

  lemma AnteriorFollows()
    ensures SegueCalendario(Anterior, Formatar)
  {
    forall q ensures Anterior(Formatar(q)) == if Representavel(q) then Some(Formatar(AnteriorDe(q))) else None {
      FormatParseIff(q);
    }
  }

  /** The steps go where the calendar says while the last period read can be written. */
  lemma {:induction false} StepsBack(passo: string -> Option<string>, texto: Periodo -> string, s: string, p: Periodo, k: nat)
    requires SegueCalendario(passo, texto) && passo(s) == Some(texto(AnteriorDe(p)))
    requires p.Parte? && DoCalendario(p) && p.ano <= 9999 && 0 < k <= PorAno(p.tipo)
    requires k == 1 || Representavel(Atras(p, k - 1))
    ensures Vezes(passo, s, k) == Some(texto(Atras(p, k)))
  {
    var antes: nat := k - 1;
    if k > 1 {
      StepsBack(passo, texto, s, p, antes);
      assert AnteriorDe(Atras(p, antes)) == Atras(p, k);
    } else {
      assert Vezes(passo, s, antes) == Some(s);
    }
  }

  lemma {:induction false} NoneStays(passo: string -> Option<string>, s: string, j: nat, k: nat)
    requires j <= k && Vezes(passo, s, j) == None
    ensures Vezes(passo, s, k) == None
  {
    if j < k {
      var antes: nat := k - 1;
      NoneStays(passo, s, j, antes);
    }
  }

  lemma StepsOfGoodYear(passo: string -> Option<string>, texto: Periodo -> string, s: string, p: Periodo)
    requires SegueCalendario(passo, texto) && passo(s) == Some(texto(AnteriorDe(p)))
    requires p.Parte? && DoCalendario(p) && p.ano <= 9999
    requires p.ano >= 1001 || (p.ano == 1000 && p.num == PorAno(p.tipo))
    ensures Vezes(passo, s, PorAno(p.tipo)) == Some(texto(UmAnoAntes(p)))
  {
    var k: nat := PorAno(p.tipo);
    StepsBack(passo, texto, s, p, k);
    assert Atras(p, k) == UmAnoAntes(p);
  }

  lemma StepsOfBadYear(passo: string -> Option<string>, texto: Periodo -> string, s: string, p: Periodo)
    requires SegueCalendario(passo, texto) && passo(s) == Some(texto(AnteriorDe(p)))
    requires p.Parte? && DoCalendario(p) && p.ano <= 1000 && (p.ano == 1000 ==> p.num < PorAno(p.tipo))
    ensures Vezes(passo, s, PorAno(p.tipo)) == None
  {
    var k: nat := PorAno(p.tipo);
    var m: nat := if p.ano == 1000 then p.num else 1;
    StepsBack(passo, texto, s, p, m);
    var q, depois: nat := Atras(p, m), m + 1;
    assert !Representavel(q) && passo(texto(q)) == None;
    assert Vezes(passo, s, depois) == None;
    NoneStays(passo, s, depois, k);
  }

  /**
   * As many steps back as the year has parts is the same period of the year before, exactly while
   * every year passed through still has four digits. `str` does not pad: year 999 is written "999".
   */
  lemma YearOfStepsIff(s: string, p: Periodo)
    requires Parse(s) == Some(p) && p.Parte? && DoCalendario(p)
    ensures Vezes(Anterior, s, PorAno(p.tipo)) == MesmoPeriodoExercicioAnterior(s)
            <==> p.ano >= 1001 || (p.ano == 1000 && p.num == PorAno(p.tipo))
  {
    ParseRange(s, p);
    AnteriorFollows();
    if p.ano >= 1001 || (p.ano == 1000 && p.num == PorAno(p.tipo)) {
      StepsOfGoodYear(Anterior, Formatar, s, p);
    } else {
      StepsOfBadYear(Anterior, Formatar, s, p);
    }
  }

  /** On a year both questions have one answer, the year before, and no translation to a part of a year exists. */
  lemma AnnualText(s: string, ano: int, c: Cadencia, quando: Quando)
    requires Parse(s) == Some(Anual(ano))
    ensures Anterior(s) == Some(Str(ano - 1)) && MesmoPeriodoExercicioAnterior(s) == Some(Str(ano - 1))
    ensures MesFinal(s) == Some(12) && EmBimestre(s) == None && EmPeriodoRgf(s, c, quando) == None
    ensures ChaveTexto(s) == (ano, 0)
  {
  }

  /** On unreadable text there is no answer to any of them. */
  lemma UnreadableText(s: string, c: Cadencia, quando: Quando)
    requires Parse(s) == None
    ensures Anterior(s) == None && MesmoPeriodoExercicioAnterior(s) == None
    ensures MesFinal(s) == None && EmBimestre(s) == None && EmPeriodoRgf(s, c, quando) == None
    ensures ChaveTexto(s) == (9999, 99)
  {
  }

  // ---------------------------------------------------------------- chronological order

  /** `ordenar_chave` on a part of a year: the year and the month it ends in. */
  function OrdenarChave(p: Periodo): (int, int)
    requires p.Parte?
  {
    (p.ano, 12 * p.num / PorAno(p.tipo))
  }

  predicate Antes(p: Periodo, q: Periodo)
    requires p.Parte? && q.Parte?
  {
    var a, b := OrdenarChave(p), OrdenarChave(q);
    a.0 < b.0 || (a.0 == b.0 && a.1 < b.1)
  }

  /** What `anterior` gives is the latest period of its type that comes before. */
  lemma AnteriorIsImmediate(p: Periodo, q: Periodo)
    requires p.Parte? && DoCalendario(p) && q.Parte? && q.tipo == p.tipo && DoCalendario(q)
    ensures DoCalendario(AnteriorDe(p)) && Antes(AnteriorDe(p), p)
    ensures Antes(q, p) <==> q == AnteriorDe(p) || Antes(q, AnteriorDe(p))
  {
  }

  /** `ordenar_chave` on any text: a year comes before its parts, unreadable text at the very end. */
  function ChaveTexto(s: string): (int, int) {
    match Parse(s)
    case None => (9999, 99)
    case Some(p) => if p.Anual? then (p.ano, 0) else OrdenarChave(p)
  }

  predicate ChaveLeq(s: string, t: string) {
    var a, b := ChaveTexto(s), ChaveTexto(t);
    a.0 < b.0 || (a.0 == b.0 && a.1 <= b.1)
  }

  function NaoVazios(ps: seq<string>): (r: seq<string>)
    ensures forall s :: s in r <==> s in ps && s != ""
  {
    if ps == [] then []
    else
      assert forall s :: s in ps <==> s == ps[0] || s in ps[1..];
      (if ps[0] == "" then [] else [ps[0]]) + NaoVazios(ps[1..])
  }

  function MaisRecente(ps: seq<string>): Option<string> {
    var validos := NaoVazios(ps);
    if validos == [] then None else Some(Sort(ChaveLeq, validos)[|Sort(ChaveLeq, validos)| - 1])
  }

  lemma KeyOrder()
    ensures TotalPreorder(ChaveLeq)
  {
  }

  lemma SameKeyIff(s: string, t: string)
    ensures Equivale(ChaveLeq, s, t) <==> ChaveTexto(s) == ChaveTexto(t)
  {
  }

  /** The text with the greatest key, and of those with that key the last one listed. */
  lemma MostRecentIsLastGreatest(ps: seq<string>) returns (i: nat)
    requires NaoVazios(ps) != []
    ensures var v := NaoVazios(ps);
      && i < |v| && MaisRecente(ps) == Some(v[i])
      && (forall s :: s in ps && s != "" ==> ChaveLeq(s, v[i]))
      && (forall j :: i < j < |v| ==> ChaveTexto(v[j]) != ChaveTexto(v[i]))
  {
    KeyOrder();
    var v := NaoVazios(ps);
    i := LastOfSorted(ChaveLeq, v);
    forall j | i < j < |v| ensures ChaveTexto(v[j]) != ChaveTexto(v[i]) { SameKeyIff(v[i], v[j]); }
  }

  /** Among years below 9999 the answer cannot be read exactly when some text cannot. */
  lemma MostRecentReadableIff(ps: seq<string>)
    requires NaoVazios(ps) != []
    requires forall s :: s in ps && Parse(s).Some? ==> Parse(s).value.ano < 9999
    ensures Parse(MaisRecente(ps).value).Some? <==> forall s :: s in ps && s != "" ==> Parse(s).Some?
  {
    var i := MostRecentIsLastGreatest(ps);
    var x := MaisRecente(ps).value;
    assert x in NaoVazios(ps);
    if s :| s in ps && s != "" && Parse(s) == None { assert ChaveLeq(s, x); }
  }

  /** Among parts of a year that the calendar has, it is one after which none ends. */
  lemma MostRecentEndsLast(ps: seq<string>)
    requires NaoVazios(ps) != []
    requires forall s :: s in ps && s != "" ==> Parse(s).Some? && Parse(s).value.Parte? && DoCalendario(Parse(s).value)
    ensures MaisRecente(ps).Some? && MaisRecente(ps).value in ps
    ensures forall s :: s in ps && s != "" ==> TerminaAte(s, MaisRecente(ps).value)
  {
    var i := MostRecentIsLastGreatest(ps);
    var x := MaisRecente(ps).value;
    assert x in NaoVazios(ps);
    forall s | s in ps && s != "" ensures TerminaAte(s, x) {
      assert ChaveLeq(s, x);
      EndsInYear(Parse(s).value);
      EndsInYear(Parse(x).value);
    }
  }

  /** Both have a last month, and the first's is not after the second's. */
  ghost predicate TerminaAte(s: string, t: string) {
    && Parse(s).Some? && Parse(t).Some? && MesFinal(s).Some? && MesFinal(t).Some?
    && 12 * Parse(s).value.ano + MesFinal(s).value <= 12 * Parse(t).value.ano + MesFinal(t).value
  }

  lemma EndsInYear(p: Periodo)
    requires p.Parte? && DoCalendario(p)
    ensures MesFinalDe(p) == Some(OrdenarChave(p).1) && 1 <= OrdenarChave(p).1 <= 12
  {
  }

  // ---------------------------------------------------------------- bimesters and the RGF

  datatype Cadencia = Quadrimestral | Semestral

  datatype Quando = Fechado | Corrente

  function TipoAlvo(c: Cadencia): Tipo {
    if c == Quadrimestral then Q else S
  }

  function BimestreDe(p: Periodo): Option<Periodo> {
    if p.Anual? || p.tipo == M then None
    else if p.tipo == B then Some(p)
    else
      var b := (if p.tipo == Q then 2 else 3) * p.num;
      if 1 <= b <= PorAno(B) then Some(Parte(p.ano, B, b)) else None
  }

  /** A bimester comes back as it was written, whatever its number. */
  function EmBimestre(periodo: string): Option<string> {
    match Parse(periodo)
    case None => None
    case Some(p) => if p.Parte? && p.tipo == B then Some(periodo) else Escrito(BimestreDe(p))
  }

  function Escrito(p: Option<Periodo>): Option<string> {
    match p case None => None case Some(x) => Some(Formatar(x))
  }

  function RgfDe(p: Periodo, c: Cadencia, quando: Quando): Option<Periodo> {
    var alvo := TipoAlvo(c);
    if p.Anual? then None
    else if p.tipo == alvo then if 1 <= p.num <= PorAno(alvo) then Some(p) else None
    else if p.tipo != B || !(1 <= p.num <= PorAno(B)) then None
    else
      var fator := PorAno(B) / PorAno(alvo);
      if quando == Fechado then
        if p.num % fator == 0 then Some(Parte(p.ano, alvo, p.num / fator)) else None
      else Some(Parte(p.ano, alvo, -((-p.num) / fator)))
  }

  /** An unknown cadence or question is a ValueError in the original; the types exclude both here. */
  function EmPeriodoRgf(periodo: string, c: Cadencia, quando: Quando): Option<string> {
    match Parse(periodo)
    case None => None
    case Some(p) => if RgfDe(p, c, quando) == Some(p) then Some(periodo) else Escrito(RgfDe(p, c, quando))
  }

  function MesFinalDe(p: Periodo): Option<int> {
    if p.Anual? then Some(12)
    else if 1 <= p.num <= PorAno(p.tipo) then Some(12 * p.num / PorAno(p.tipo))
    else None
  }

  function MesFinal(periodo: string): Option<int> {
    match Parse(periodo) case None => None case Some(p) => MesFinalDe(p)
  }

  /** On canonical text every translation is the one on periods, written out. */
  lemma OnCanonicalText(p: Periodo, c: Cadencia, quando: Quando)
    requires Representavel(p)
    ensures EmBimestre(Formatar(p)) == Escrito(BimestreDe(p))
    ensures EmPeriodoRgf(Formatar(p), c, quando) == Escrito(RgfDe(p, c, quando))
    ensures MesFinal(Formatar(p)) == MesFinalDe(p)
  {
    FormatParseIff(p);
    OnReadText(Formatar(p), p, c, quando);
  }

  lemma OnReadText(s: string, p: Periodo, c: Cadencia, quando: Quando)
    requires Parse(s) == Some(p) && s == Formatar(p)
    ensures EmBimestre(s) == Escrito(BimestreDe(p))
    ensures EmPeriodoRgf(s, c, quando) == Escrito(RgfDe(p, c, quando))
    ensures MesFinal(s) == MesFinalDe(p)
  {
  }

  /**
   * A period already in the cadence asked for stays as it is if the calendar has it; months, years and the
   * other cadence have none. A bimester is its own bimester, and a month has none.
   */
  lemma OwnCadence(s: string, p: Periodo, c: Cadencia, quando: Quando)
    requires Parse(s) == Some(p) && p.Parte?
    ensures p.tipo == TipoAlvo(c) ==>
      EmPeriodoRgf(s, c, quando) == if 1 <= p.num <= (if c == Quadrimestral then 3 else 2) then Some(s) else None
    ensures p.tipo != TipoAlvo(c) && p.tipo != B ==> EmPeriodoRgf(s, c, quando) == None
    ensures p.tipo == B && !(1 <= p.num <= 6) ==> EmPeriodoRgf(s, c, quando) == None
    ensures p.tipo == B ==> EmBimestre(s) == Some(s)
    ensures p.tipo == M ==> EmBimestre(s) == None
  {
  }

  /** Not after, among parts of one type. */
  ghost predicate NaoDepois(p: Periodo, q: Periodo)
    requires p.Parte? && q.Parte?
  {
    p.ano < q.ano || (p.ano == q.ano && p.num <= q.num)
  }

  ghost predicate Parcela(p: Periodo, t: Tipo) {
    p.Parte? && p.tipo == t && DoCalendario(p)
  }

  lemma BimestersPerPart(c: Cadencia)
    ensures PorAno(B) / PorAno(TipoAlvo(c)) == if c == Quadrimestral then 2 else 3
  {
  }

  /**
   * The cycle a bimester is in is the left adjoint of the bimester that ends a cycle; both always
   * answer, and the bimester of a cycle ends in the same month as the cycle.
   */
  lemma CurrentIsLeftAdjoint(b: Periodo, r: Periodo, c: Cadencia)
    requires Parcela(b, B) && Parcela(r, TipoAlvo(c))
    ensures RgfDe(b, c, Corrente).Some? && Parcela(RgfDe(b, c, Corrente).value, TipoAlvo(c))
    ensures BimestreDe(r).Some? && Parcela(BimestreDe(r).value, B)
    ensures MesFinalDe(BimestreDe(r).value) == MesFinalDe(r)
    ensures NaoDepois(RgfDe(b, c, Corrente).value, r) <==> NaoDepois(b, BimestreDe(r).value)
  {
    BimestersPerPart(c);
  }

  /** The cycle a bimester closes is the exact partial inverse: it answers `r` for the bimester of `r`, and only then. */
  lemma ClosedIsPartialInverse(b: Periodo, r: Periodo, c: Cadencia)
    requires Parcela(b, B) && Parcela(r, TipoAlvo(c))
    ensures RgfDe(b, c, Fechado) == Some(r) <==> BimestreDe(r) == Some(b)
  {
    BimestersPerPart(c);
  }

  /** The two questions agree exactly on the bimesters that close a cycle. */
  lemma QuestionsAgreeIff(b: Periodo, c: Cadencia)
    requires Parcela(b, B)
    ensures RgfDe(b, c, Fechado) == RgfDe(b, c, Corrente)
            <==> exists r :: Parcela(r, TipoAlvo(c)) && BimestreDe(r) == Some(b)
  {
    BimestersPerPart(c);
    CurrentIsLeftAdjoint(b, RgfDe(b, c, Corrente).value, c);
    ClosedIsPartialInverse(b, RgfDe(b, c, Corrente).value, c);
  }

  lemma OnTextRead(s: string, p: Periodo, c: Cadencia, quando: Quando)
    requires Parse(s) == Some(p) && p.Parte?
    ensures p.tipo != B ==> EmBimestre(s) == Escrito(BimestreDe(p))
    ensures p.tipo == B ==> EmPeriodoRgf(s, c, quando) == Escrito(RgfDe(p, c, quando))
  {
  }

  lemma SameText(x: Option<Periodo>, q: Periodo)
    requires q.Parte? && q.ano >= 0 && q.num >= 0
    requires x.Some? ==> x.value.Parte? && x.value.ano >= 0 && x.value.num >= 0
    ensures Escrito(x) == Some(Formatar(q)) <==> x == Some(q)
  {
    if x.Some? && Formatar(x.value) == Formatar(q) { FormatInjective(x.value, q); }
  }

  /** The partial inverse on any text that can be read. */
  lemma ClosedInverseOnText(tb: string, b: Periodo, tr: string, r: Periodo, c: Cadencia)
    requires Parse(tb) == Some(b) && Parse(tr) == Some(r) && Parcela(b, B) && Parcela(r, TipoAlvo(c))
    ensures EmPeriodoRgf(tb, c, Fechado) == Some(Formatar(r)) <==> EmBimestre(tr) == Some(Formatar(b))
  {
    ParseRange(tb, b);
    ParseRange(tr, r);
    CurrentIsLeftAdjoint(b, r, c);
    ClosedIsPartialInverse(b, r, c);
    OnTextRead(tb, b, c, Fechado);
    OnTextRead(tr, r, c, Fechado);
    BimestersPerPart(c);
    SameText(RgfDe(b, c, Fechado), r);
    SameText(BimestreDe(r), b);
  }

  /** The adjunction on any text that can be read. */
  lemma CurrentAdjointOnText(tb: string, b: Periodo, tr: string, r: Periodo, c: Cadencia)
    requires Parse(tb) == Some(b) && Parse(tr) == Some(r) && Parcela(b, B) && Parcela(r, TipoAlvo(c))
    ensures exists x, y :: EmPeriodoRgf(tb, c, Corrente) == Some(Formatar(x)) && EmBimestre(tr) == Some(Formatar(y))
                        && Parcela(x, TipoAlvo(c)) && Parcela(y, B) && (NaoDepois(x, r) <==> NaoDepois(b, y))
  {
    CurrentIsLeftAdjoint(b, r, c);
    OnTextRead(tb, b, c, Corrente);
    OnTextRead(tr, r, c, Corrente);
    var x, y := RgfDe(b, c, Corrente).value, BimestreDe(r).value;
    assert EmPeriodoRgf(tb, c, Corrente) == Some(Formatar(x)) && EmBimestre(tr) == Some(Formatar(y));
  }

  /**
   * There and back on text: `parse` accepts the years 0000 to 0999, but what is written for them can
   * no longer be read, so the round trip closes exactly from the year 1000 on.
   */
  lemma RoundTripOnTextIff(tr: string, r: Periodo, c: Cadencia)
    requires Parse(tr) == Some(r) && Parcela(r, TipoAlvo(c))
    ensures EmBimestre(tr).Some?
    ensures EmPeriodoRgf(EmBimestre(tr).value, c, Fechado) == Some(Formatar(r)) <==> r.ano >= 1000
    ensures r.ano < 1000 ==> EmPeriodoRgf(EmBimestre(tr).value, c, Fechado) == None
  {
    ParseRange(tr, r);
    CurrentIsLeftAdjoint(r.(tipo := B, num := 1), r, c);
    OnTextRead(tr, r, c, Fechado);
    var b := BimestreDe(r).value;
    FormatParseIff(b);
    ClosedIsPartialInverse(b, r, c);
    if r.ano >= 1000 { OnTextRead(Formatar(b), b, c, Fechado); }
  }

  // ---------------------------------------------------------------- what has ended

  datatype Data = Data(year: int, month: int, day: int)

  function Passo(t: Tipo): int {
    match t case B => 2 case Q => 4 case S => 6 case M => 1
  }

  function MaiusculaTipo(tipo: string): Option<Tipo> {
    if |tipo| != 1 then None
    else
      var c := tipo[0];
      TipoDe(if 'a' <= c <= 'z' then c - 'a' + 'A' else c)
  }

  /** The types are one letter, in either case. */
  lemma TypesAreLetters(tipo: string)
    ensures MaiusculaTipo(tipo) == Some(B) <==> tipo == "B" || tipo == "b"
    ensures MaiusculaTipo(tipo) == Some(Q) <==> tipo == "Q" || tipo == "q"
    ensures MaiusculaTipo(tipo) == Some(S) <==> tipo == "S" || tipo == "s"
    ensures MaiusculaTipo(tipo) == Some(M) <==> tipo == "M" || tipo == "m"
  {
    if |tipo| == 1 { assert tipo == [tipo[0]]; }
  }

  /** `list(range(1, n + 1))`. */
  function Ate(n: nat): seq<int> {
    if n == 0 then [] else Ate(n - 1) + [n]
  }

  /** The same, filtered. */
  function Filtra(n: nat, passo: int, mes: int): seq<int> {
    if n == 0 then [] else Filtra(n - 1, passo, mes) + if n * passo < mes then [n] else []
  }

  /** None is the ValueError for an unknown type. */
  function PeriodosPossiveis(ano: int, tipo: string, hoje: Data): Option<seq<int>> {
    match MaiusculaTipo(tipo)
    case None => None
    case Some(t) =>
      if ano < hoje.year then Some(Ate(PorAno(t)))
      else if ano > hoje.year then Some([])
      else Some(Filtra(PorAno(t), Passo(t), hoje.month))
  }

  lemma {:induction false} FiltraMembers(n: nat, passo: int, mes: int)
    ensures forall x :: x in Filtra(n, passo, mes) <==> 1 <= x <= n && x * passo < mes
    ensures forall i, j :: 0 <= i < j < |Filtra(n, passo, mes)| ==> Filtra(n, passo, mes)[i] < Filtra(n, passo, mes)[j]
  {
    if n > 0 {
      FiltraMembers(n - 1, passo, mes);
      var f := Filtra(n - 1, passo, mes);
      assert forall i :: 0 <= i < |f| ==> f[i] in f;
    }
  }

  lemma {:induction false} AteMembers(n: nat)
    ensures forall x :: x in Ate(n) <==> 1 <= x <= n
    ensures forall i, j :: 0 <= i < j < |Ate(n)| ==> Ate(n)[i] < Ate(n)[j]
  {
    if n > 0 {
      AteMembers(n - 1);
      var f := Ate(n - 1);
      assert forall i :: 0 <= i < |f| ==> f[i] in f;
    }
  }

  /** The last month of the n-th period falls inside its year. */
  lemma StepsFill(t: Tipo, n: int)
    ensures 1 <= n <= PorAno(t) ==> n * Passo(t) <= 12 && MesFinalDe(Parte(0, t, n)) == Some(n * Passo(t))
    ensures n >= 1 ==> n * Passo(t) >= 1
  {
  }

  /** Exactly the periods whose last month is over, in order; and that month is the one `mes_final` gives. */
  lemma PossibleIffEnded(ano: int, tipo: string, t: Tipo, hoje: Data)
    requires 1 <= hoje.month <= 12 && MaiusculaTipo(tipo) == Some(t)
    ensures PeriodosPossiveis(ano, tipo, hoje).Some?
    ensures var r := PeriodosPossiveis(ano, tipo, hoje).value;
      && (forall n :: n in r <==> 1 <= n <= PorAno(t) && 12 * ano + n * Passo(t) < 12 * hoje.year + hoje.month)
      && (forall i, j :: 0 <= i < j < |r| ==> r[i] < r[j])
    ensures forall n :: 1 <= n <= PorAno(t) ==> MesFinalDe(Parte(ano, t, n)) == Some(n * Passo(t))
  {
    var r := PeriodosPossiveis(ano, tipo, hoje).value;
    FiltraMembers(PorAno(t), Passo(t), hoje.month);
    AteMembers(PorAno(t));
    forall n ensures n in r <==> 1 <= n <= PorAno(t) && 12 * ano + n * Passo(t) < 12 * hoje.year + hoje.month {
      StepsFill(t, n);
    }
    forall n | 1 <= n <= PorAno(t) ensures MesFinalDe(Parte(ano, t, n)) == Some(n * Passo(t)) { StepsFill(t, n); }
  }
}
