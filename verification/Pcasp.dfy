/**
 * The PCASP chart of accounts: nine-digit positional codes, their dotted mask, levels,
 * truncation and ancestors. Segments are one digit wide down to the fifth, then two.
 */
module Pcasp {
  import opened Basics
  import opened Texto

  /** A normalised code. */
  type D9 = s: string | |s| == 9 && forall i :: 0 <= i < 9 ==> Digito(s[i]) witness "000000000"

  const SEG_WIDTHS: seq<nat> := [1, 1, 1, 1, 1, 2, 2]

  /** Where segment `i` starts; segment 7 would start past the end. */
  function Inicio(i: nat): (r: nat)
    requires i <= 7
    ensures r <= 9
  {
    if i <= 5 then i else 2 * i - 5
  }

  function Segmento(d: D9, i: nat): (r: string)
    requires i < 7
    ensures |r| == SEG_WIDTHS[i] && forall k :: 0 <= k < |r| ==> Digito(r[k])
  {
    d[Inicio(i)..Inicio(i + 1)]
  }

  /** `_segments`: the seven segments. */
  function Segmentos(d: D9): seq<string> {
    seq(7, i requires 0 <= i < 7 => Segmento(d, i))
  }

  predicate SegZero(d: D9, i: nat)
    requires i < 7
  {
    Inteiro(Segmento(d, i)) == 0
  }

  /** The level if only the first `k` segments existed. */
  function NivelAte(d: D9, k: nat): (r: nat)
    requires k <= 7
    ensures 1 <= r <= 7 && (k > 0 ==> r <= k)
  {
    if k == 0 then 1 else if !SegZero(d, k - 1) then k else NivelAte(d, k - 1)
  }

  function Nivel(d: D9): (r: nat)
    ensures 1 <= r <= 7
  {
    NivelAte(d, 7)
  }

  function Zeros(n: nat): (r: string)
    ensures |r| == n && forall i :: 0 <= i < n ==> r[i] == '0'
  {
    seq(n, _ => '0')
  }

  function Truncate(d: D9, level: nat): (r: D9)
    requires level <= 7
  {
    d[..Inicio(level)] + Zeros(9 - Inicio(level))
  }

  /** The code of the level just above, none for a class. */
  function Pai(d: D9): Option<D9> {
    if Nivel(d) <= 1 then None else Some(Truncate(d, Nivel(d) - 1))
  }

  /** `ancestral_d9s`: from the class down to the code itself. */
  function Ancestrais(d: D9): (r: seq<D9>)
    ensures |r| == Nivel(d) && forall i :: 0 <= i < |r| ==> r[i] == Truncate(d, i + 1)
  {
    seq(Nivel(d), i requires 0 <= i < Nivel(d) => Truncate(d, i + 1))
  }

  /** No zero segment lies between the class and the deepest significant segment. */
  predicate SemZeroInterior(d: D9) {
    forall i :: 1 <= i < Nivel(d) - 1 ==> !SegZero(d, i)
  }

  // ---------------------------------------------------------------- the loops of the source

  method Segments(d: D9) returns (segs: seq<string>)
    ensures |segs| == 7 && forall i :: 0 <= i < 7 ==> segs[i] == Segmento(d, i)
  {
    segs := [];
    var pos := 0;
    for i := 0 to 7
      invariant pos == Inicio(i) && |segs| == i
      invariant forall k :: 0 <= k < i ==> segs[k] == Segmento(d, k)
    {
      segs := segs + [d[pos..pos + SEG_WIDTHS[i]]];
      pos := pos + SEG_WIDTHS[i];
    }
  }

  /** The deepest non-zero segment, or one when there is none. */
  method ComputeNivel(d: D9) returns (lvl: nat)
    ensures lvl == Nivel(d)
    ensures 1 <= lvl <= 7
    ensures forall i :: lvl <= i < 7 ==> SegZero(d, i)
    ensures lvl > 1 ==> !SegZero(d, lvl - 1)
  {
    var segs := Segments(d);
    lvl := 1;
    for i := 0 to 7
      invariant lvl == NivelAte(d, i)
    {
      if Inteiro(segs[i]) != 0 { lvl := i + 1; }
    }
    NivelSegments(d);
  }

  function Concatena(segs: seq<string>): string {
    if segs == [] then "" else segs[0] + Concatena(segs[1..])
  }

  method ComputeTruncate(d: D9, level: nat) returns (r: string)
    requires level <= 7
    ensures r == Truncate(d, level)
  {
    var segs := Segments(d);
    for i := level to 7
      invariant |segs| == 7
      invariant forall k :: 0 <= k < 7 ==> segs[k] == (if level <= k < i then Zeros(SEG_WIDTHS[k]) else Segmento(d, k))
    {
      segs := segs[i := Zeros(SEG_WIDTHS[i])];
    }
    var t := Truncate(d, level);
    forall k | 0 <= k < 7 ensures segs[k] == Segmento(t, k) {
      TruncateSegment(d, level, k);
    }
    JoinSegments(t, segs, 0);
    assert t[0..] == t;
    assert segs[0..] == segs;
    r := Concatena(segs);
  }

  lemma {:induction false} JoinSegments(d: D9, segs: seq<string>, i: nat)
    requires i <= 7 && |segs| == 7 && forall k :: 0 <= k < 7 ==> segs[k] == Segmento(d, k)
    ensures Concatena(segs[i..]) == d[Inicio(i)..]
    decreases 7 - i
  {
    if i < 7 {
      JoinSegments(d, segs, i + 1);
      assert segs[i..][0] == segs[i] && segs[i..][1..] == segs[i + 1..];
      assert d[Inicio(i)..] == Segmento(d, i) + d[Inicio(i + 1)..];
    }
  }

  // ---------------------------------------------------------------- truncation algebra

  lemma TruncateSegment(d: D9, level: nat, i: nat)
    requires level <= 7 && i < 7
    ensures Segmento(Truncate(d, level), i) == (if i < level then Segmento(d, i) else Zeros(SEG_WIDTHS[i]))
  {
    var t := Truncate(d, level);
    assert Segmento(t, i) == t[Inicio(i)..Inicio(i + 1)];
    if i < level {
      assert forall k :: Inicio(i) <= k < Inicio(i + 1) ==> t[k] == d[k];
    } else {
      assert forall k :: Inicio(i) <= k < Inicio(i + 1) ==> t[k] == '0';
    }
  }

  /** Truncating twice keeps the shorter prefix. */
  lemma TruncateTwice(d: D9, a: nat, b: nat)
    requires a <= 7 && b <= 7
    ensures Truncate(Truncate(d, a), b) == Truncate(d, Min(a, b))
  {
  }

  lemma NivelSegments(d: D9)
    ensures forall i :: Nivel(d) <= i < 7 ==> SegZero(d, i)
    ensures Nivel(d) > 1 ==> !SegZero(d, Nivel(d) - 1)
  {
    var k: nat := 7;
    forall i | Nivel(d) <= i < 7 ensures SegZero(d, i) { ZeroBelowLevel(d, k, i); }
    NonZeroAtLevel(d, k);
  }

  lemma {:induction false} ZeroBelowLevel(d: D9, k: nat, i: nat)
    requires k <= 7 && NivelAte(d, k) <= i < k
    ensures SegZero(d, i)
  {
    var j: nat := k - 1;
    if i < j { ZeroBelowLevel(d, j, i); }
  }

  lemma {:induction false} NonZeroAtLevel(d: D9, k: nat)
    requires k <= 7
    ensures NivelAte(d, k) > 1 ==> !SegZero(d, NivelAte(d, k) - 1)
  {
    if k > 0 {
      var j: nat := k - 1;
      if SegZero(d, j) { NonZeroAtLevel(d, j); }
    }
  }

  /** The level is pinned by the segments: the deepest non-zero one, or one. */
  lemma NivelIs(d: D9, l: nat)
    requires 1 <= l <= 7 && (forall i :: l <= i < 7 ==> SegZero(d, i)) && (l > 1 ==> !SegZero(d, l - 1))
    ensures Nivel(d) == l
  {
    NivelSegments(d);
  }

  lemma ZeroSegmentChars(d: D9, i: nat)
    requires i < 7
    ensures SegZero(d, i) <==> forall k :: Inicio(i) <= k < Inicio(i + 1) ==> d[k] == '0'
  {
    var s := Segmento(d, i);
    assert forall k :: 0 <= k < |s| ==> s[k] == d[Inicio(i) + k];
    if SegZero(d, i) {
      forall k | Inicio(i) <= k < Inicio(i + 1) ensures d[k] == '0' {
        assert d[k] == s[k - Inicio(i)];
      }
    }
  }

  /** Truncating at two adjacent levels differs exactly when the segment between is not zero. */
  lemma TruncateStep(d: D9, l: nat)
    requires l < 7
    ensures Truncate(d, l) == Truncate(d, l + 1) <==> SegZero(d, l)
  {
    ZeroSegmentChars(d, l);
    var a, b := Truncate(d, l), Truncate(d, l + 1);
    assert forall k :: Inicio(l) <= k < Inicio(l + 1) ==> a[k] == '0' && b[k] == d[k];
  }

  /** Nothing is lost below the level. */
  lemma TruncateAtNivel(d: D9, l: nat)
    requires Nivel(d) <= l <= 7
    ensures Truncate(d, l) == d
    decreases 7 - l
  {
    if l == 7 {
    } else {
      TruncateAtNivel(d, l + 1);
      NivelSegments(d);
      TruncateStep(d, l);
    }
  }

  lemma NivelOfTruncate(d: D9, l: nat)
    requires 1 <= l <= Nivel(d)
    ensures Nivel(Truncate(d, l)) <= l
    ensures (l == 1 || !SegZero(d, l - 1)) ==> Nivel(Truncate(d, l)) == l
  {
    var t := Truncate(d, l);
    forall i | 0 <= i < 7 ensures Segmento(t, i) == (if i < l then Segmento(d, i) else Zeros(SEG_WIDTHS[i])) {
      TruncateSegment(d, l, i);
    }
    NivelSegments(t);
    assert forall i :: l <= i < 7 ==> SegZero(t, i);
    if l == 1 || !SegZero(d, l - 1) { NivelIs(t, l); }
  }

  /** Without interior zeros, truncation at a level yields a code of that level, again without them. */
  lemma CleanTruncate(d: D9, l: nat)
    requires SemZeroInterior(d) && 1 <= l <= Nivel(d)
    ensures Nivel(Truncate(d, l)) == l && SemZeroInterior(Truncate(d, l))
  {
    NivelSegments(d);
    NivelOfTruncate(d, l);
    forall i | 1 <= i < l - 1 ensures !SegZero(Truncate(d, l), i) {
      TruncateSegment(d, l, i);
      assert !SegZero(d, i);
    }
  }

  // ---------------------------------------------------------------- ancestors

  /** The parent is strictly above, whatever zeros the code has. */
  lemma ParentIsAbove(d: D9)
    requires Pai(d).Some?
    ensures Nivel(Pai(d).value) < Nivel(d)
  {
    NivelOfTruncate(d, Nivel(d) - 1);
  }

  /** An ancestor is listed twice exactly when the code has an interior zero. */
  lemma AncestorsDistinctIff(d: D9)
    ensures NoDup(Ancestrais(d)) <==> SemZeroInterior(d)
  {
    var a := Ancestrais(d);
    if SemZeroInterior(d) {
      forall i, j | 0 <= i < j < |a| ensures a[i] != a[j] {
        CleanTruncate(d, i + 1);
        CleanTruncate(d, j + 1);
      }
    }
    if NoDup(a) {
      forall i | 1 <= i < Nivel(d) - 1 ensures !SegZero(d, i) {
        assert a[i - 1] != a[i];
        TruncateStep(d, i);
      }
    }
  }

  /** Being an ancestor is being a truncation at a level of the code. */
  lemma AncestorIff(a: D9, d: D9)
    ensures a in Ancestrais(d) <==> exists l: nat :: 1 <= l <= Nivel(d) && Truncate(d, l) == a
  {
    if l: nat :| 1 <= l <= Nivel(d) && Truncate(d, l) == a { assert Ancestrais(d)[l - 1] == a; }
  }

  /** Ancestors are closed under parents, whatever zeros the code has. */
  lemma ParentIsAncestor(a: D9, d: D9)
    requires a in Ancestrais(d) && Pai(a).Some?
    ensures Pai(a).value in Ancestrais(d)
  {
    AncestorIff(a, d);
    AncestorIff(Pai(a).value, d);
    var l: nat :| 1 <= l <= Nivel(d) && Truncate(d, l) == a;
    NivelOfTruncate(d, l);
    TruncateTwice(d, l, Nivel(a) - 1);
    assert Truncate(d, Nivel(a) - 1) == Pai(a).value;
  }

  /** An account ends its own line, and a line holds the lines of its members. */
  lemma AncestorsNest(a: D9, n: D9, d: D9)
    requires a in Ancestrais(n) && n in Ancestrais(d)
    ensures a in Ancestrais(d)
  {
    AncestorIff(n, d);
    AncestorIff(a, n);
    AncestorIff(a, d);
    var k: nat :| 1 <= k <= Nivel(d) && Truncate(d, k) == n;
    var j: nat :| 1 <= j <= Nivel(n) && Truncate(n, j) == a;
    NivelOfTruncate(d, k);
    TruncateTwice(d, k, j);
    assert Truncate(d, j) == a;
  }

  lemma SelfIsAncestor(d: D9)
    ensures d in Ancestrais(d)
  {
    TruncateAtNivel(d, Nivel(d));
    assert Ancestrais(d)[Nivel(d) - 1] == d;
  }

  /** How often `n` occurs among the first `k` ancestors of `d`. */
  function Ocorrencias(n: D9, d: D9, k: nat): nat
    requires k <= 7
  {
    if k == 0 then 0 else Ocorrencias(n, d, k - 1) + (if Truncate(d, k) == n then 1 else 0)
  }

  /** How often a posting on `d` reaches the node `n`. */
  function Mult(n: D9, d: D9): nat {
    Ocorrencias(n, d, Nivel(d))
  }

  /** `d` is `n` or lies below it. */
  predicate Abaixo(n: D9, d: D9) {
    Truncate(d, Nivel(n)) == n
  }

  lemma {:induction false} OcorrenciasClean(n: D9, d: D9, k: nat)
    requires SemZeroInterior(d) && k <= Nivel(d)
    ensures Ocorrencias(n, d, k) == (if Nivel(n) <= k && Abaixo(n, d) then 1 else 0)
  {
    if k > 0 {
      OcorrenciasClean(n, d, k - 1);
      CleanTruncate(d, k);
    }
  }

  /** Without interior zeros a posting reaches each node above it once, and no other. */
  lemma MultClean(n: D9, d: D9)
    requires SemZeroInterior(d)
    ensures Mult(n, d) == (if Abaixo(n, d) then 1 else 0)
  {
    OcorrenciasClean(n, d, Nivel(d));
    if Abaixo(n, d) && Nivel(n) > Nivel(d) {
      TruncateAtNivel(d, Nivel(n));
    }
  }

  lemma {:induction false} OcorrenciasTwice(n: D9, d: D9, i: nat, j: nat, k: nat)
    requires 1 <= i < j <= k <= 7 && Truncate(d, i) == n && Truncate(d, j) == n
    ensures Ocorrencias(n, d, k) >= 2
  {
    if k == j {
      OcorrenciasOnce(n, d, i, k - 1);
    } else {
      OcorrenciasTwice(n, d, i, j, k - 1);
    }
  }

  lemma {:induction false} OcorrenciasOnce(n: D9, d: D9, i: nat, k: nat)
    requires 1 <= i <= k <= 7 && Truncate(d, i) == n
    ensures Ocorrencias(n, d, k) >= 1
  {
    if k > i { OcorrenciasOnce(n, d, i, k - 1); }
  }

  /** A posting reaches each node on its line once, and no other node, exactly when its code has no interior zero. */
  lemma MultExactIff(d: D9)
    ensures (forall n: D9 :: Mult(n, d) == (if Abaixo(n, d) then 1 else 0)) <==> SemZeroInterior(d)
    ensures (forall n: D9 :: Mult(n, d) <= 1) <==> SemZeroInterior(d)
  {
    if SemZeroInterior(d) {
      forall n: D9 ensures Mult(n, d) == (if Abaixo(n, d) then 1 else 0) { MultClean(n, d); }
    } else {
      var i :| 1 <= i < Nivel(d) - 1 && SegZero(d, i);
      TruncateStep(d, i);
      var n := Truncate(d, i);
      OcorrenciasTwice(n, d, i, i + 1, Nivel(d));
      assert Mult(n, d) >= 2;
    }
  }

  /** For instance 101000000 reaches its class twice. */
  lemma InteriorZeroExample()
    ensures Mult("100000000", "101000000") == 2 && Nivel("101000000") == 3
  {
    var d: D9, n: D9 := "101000000", "100000000";
    ExampleLevel();
    assert Truncate(d, 1) == n && Truncate(d, 2) == n;
    assert Inicio(3) == 3 && Truncate(d, 3) == d[..3] + Zeros(6);
    assert Truncate(d, 3)[2] == d[2] && d[2] == '1' && n[2] == '0';
    assert Ocorrencias(n, d, 3) == Ocorrencias(n, d, 2);
    assert Ocorrencias(n, d, 2) == Ocorrencias(n, d, 1) + 1;
    assert Ocorrencias(n, d, 1) == Ocorrencias(n, d, 0) + 1;
  }

  lemma ExampleLevel()
    ensures Nivel("101000000") == 3
  {
    var d: D9 := "101000000";
    assert Segmento(d, 0) == "1" && Segmento(d, 1) == "0" && Segmento(d, 2) == "1";
    assert Inteiro("1") == Inteiro("") * 10 + 1;
    forall i | 3 <= i < 7 ensures SegZero(d, i) { ZeroSegmentChars(d, i); }
    NivelIs(d, 3);
  }

  // ---------------------------------------------------------------- text forms

  function OnlyDigits(s: string): (r: string)
    ensures forall i :: 0 <= i < |r| ==> Digito(r[i])
  {
    if s == "" then "" else (if Digito(s[0]) then [s[0]] else "") + OnlyDigits(s[1..])
  }

  /** `digits9`: strip, drop a leading P, keep digits, pad or cut to nine. */
  function Digits9(raw: Option<string>): Option<D9> {
    match raw
    case None => None
    case Some(texto) =>
      var s := StripRight(StripLeft(texto));
      var t := if s != "" && (s[0] == 'P' || s[0] == 'p') then s[1..] else s;
      var ds := OnlyDigits(t);
      if ds == "" then None else Some((ds + "000000000")[..9])
  }

  function JoinWith(segs: seq<string>, sep: string): string {
    if segs == [] then "" else if |segs| == 1 then segs[0] else segs[0] + sep + JoinWith(segs[1..], sep)
  }

  /** The dotted mask C.G.SG.T.ST.II.SS. */
  function Mask(d: D9): string {
    JoinWith(Segmentos(d), ".")
  }

  /** `mask`: reading it back, with or without the prefix, gives the code. */
  method ComputeMask(d: D9) returns (r: string)
    ensures r == Mask(d)
    ensures Digits9(Some(r)) == Some(d) && Digits9(Some("P" + r)) == Some(d)
  {
    var segs := Segments(d);
    assert segs == Segmentos(d);
    r := JoinWith(segs, ".");
    MaskRoundTrip(d);
  }

  lemma {:induction false} OnlyDigitsConcat(a: string, b: string)
    ensures OnlyDigits(a + b) == OnlyDigits(a) + OnlyDigits(b)
  {
    if a == "" {
      assert a + b == b;
    } else {
      OnlyDigitsConcat(a[1..], b);
      assert (a + b)[1..] == a[1..] + b;
    }
  }

  lemma {:induction false} OnlyDigitsKeeps(s: string)
    requires forall i :: 0 <= i < |s| ==> Digito(s[i])
    ensures OnlyDigits(s) == s
  {
    if s != "" { OnlyDigitsKeeps(s[1..]); }
  }

  lemma DottedDigits(a: string, rest: string)
    requires OnlyDigits(a) == a
    ensures OnlyDigits(a + "." + rest) == a + OnlyDigits(rest)
  {
    assert a + "." + rest == a + ("." + rest) && ("." + rest)[1..] == rest;
    OnlyDigitsConcat(a, "." + rest);
  }

  lemma {:induction false} MaskDigits(d: D9, i: nat)
    requires i < 7
    ensures var m := JoinWith(Segmentos(d)[i..], ".");
      OnlyDigits(m) == d[Inicio(i)..] && m != "" && m[0] == d[Inicio(i)] && m[|m| - 1] == d[8]
    decreases 7 - i
  {
    var s := Segmentos(d);
    OnlyDigitsKeeps(s[i]);
    if i == 6 {
      assert s[6..] == [s[6]];
    } else {
      MaskDigits(d, i + 1);
      assert s[i..][0] == s[i] && s[i..][1..] == s[i + 1..];
      var rest := JoinWith(s[i + 1..], ".");
      DottedDigits(s[i], rest);
      assert JoinWith(s[i..], ".") == s[i] + "." + rest;
      assert d[Inicio(i)..] == s[i] + d[Inicio(i + 1)..];
    }
  }

  /** The mask keeps the digits, and begins and ends with one. */
  lemma MaskKeepsDigits(d: D9)
    ensures OnlyDigits(Mask(d)) == d && Mask(d) != "" && Mask(d)[0] == d[0] && Mask(d)[|Mask(d)| - 1] == d[8]
  {
    MaskDigits(d, 0);
    assert d[0..] == d && Segmentos(d)[0..] == Segmentos(d);
  }

  lemma {:induction false} StripLeftKeepsDigits(s: string)
    ensures OnlyDigits(StripLeft(s)) == OnlyDigits(s)
  {
    if s != "" && Espaco(s[0]) { StripLeftKeepsDigits(s[1..]); }
  }

  lemma {:induction false} StripRightKeepsDigits(s: string)
    ensures OnlyDigits(StripRight(s)) == OnlyDigits(s)
  {
    if s != "" && Espaco(s[|s| - 1]) {
      var n := |s| - 1;
      StripRightKeepsDigits(s[..n]);
      OnlyDigitsConcat(s[..n], [s[n]]);
      assert s == s[..n] + [s[n]];
      assert OnlyDigits([s[n]]) == OnlyDigits("");
    }
  }

  /** Only the digits of a text count: none make no code, and others are padded with zeros or cut to nine. */
  lemma OnlyDigitsCount(raw: string)
    ensures Digits9(Some(raw))
      == if OnlyDigits(raw) == "" then None else Some((OnlyDigits(raw) + "000000000")[..9])
  {
    StripLeftKeepsDigits(raw);
    StripRightKeepsDigits(StripLeft(raw));
    var s := StripRight(StripLeft(raw));
    if s != "" && (s[0] == 'P' || s[0] == 'p') { PrefixDropped(s); }
  }

  lemma PrefixDropped(s: string)
    requires s != "" && (s[0] == 'P' || s[0] == 'p')
    ensures OnlyDigits(s) == OnlyDigits(s[1..])
  {
    assert !Digito(s[0]);
  }

  /** And a text has none exactly when no character of it is one. */
  lemma {:induction false} NoDigitsIff(s: string)
    ensures OnlyDigits(s) == "" <==> forall i :: 0 <= i < |s| ==> !Digito(s[i])
  {
    if s != "" {
      NoDigitsIff(s[1..]);
      if !Digito(s[0]) && forall i :: 0 <= i < |s[1..]| ==> !Digito(s[1..][i]) {
        forall i | 0 <= i < |s| ensures !Digito(s[i]) { assert i == 0 || s[i] == s[1..][i - 1]; }
      }
    }
  }

  /** Five segments of one digit and two of two, with dots between. */
  lemma MaskLayout(d: D9)
    ensures Mask(d) == d[..1] + "." + d[1..2] + "." + d[2..3] + "." + d[3..4] + "." + d[4..5] + "." + d[5..7] + "." + d[7..]
  {
    var a, b, c, e, f, g, h := d[..1], d[1..2], d[2..3], d[3..4], d[4..5], d[5..7], d[7..];
    SegmentLayout(d);
    JoinTwo(g, h);
    JoinMore(f, [g, h]);
    JoinMore(e, [f, g, h]);
    JoinMore(c, [e, f, g, h]);
    JoinMore(b, [c, e, f, g, h]);
    JoinMore(a, [b, c, e, f, g, h]);
  }

  lemma SegmentLayout(d: D9)
    ensures Segmentos(d) == [d[..1], d[1..2], d[2..3], d[3..4], d[4..5], d[5..7], d[7..]]
  {
    assert Inicio(5) == 5 && Inicio(6) == 7 && Inicio(7) == 9;
    assert d[7..9] == d[7..];
  }

  lemma JoinTwo(a: string, b: string)
    ensures JoinWith([a, b], ".") == a + "." + b
  {
    assert [a, b][1..] == [b];
  }

  lemma JoinMore(a: string, segs: seq<string>)
    requires segs != []
    ensures JoinWith([a] + segs, ".") == a + "." + JoinWith(segs, ".")
  {
    assert ([a] + segs)[1..] == segs;
  }

  /** Normalising inverts masking: the MSC form, the mask, and the DCA form with its P agree. */
  lemma MaskRoundTrip(d: D9)
    ensures Digits9(Some(Mask(d))) == Some(d)
    ensures Digits9(Some("P" + Mask(d))) == Some(d) && Digits9(Some("p" + Mask(d))) == Some(d)
    ensures Digits9(Some(d)) == Some(d)
  {
    MaskKeepsDigits(d);
    OnlyDigitsKeeps(d);
    assert ("P" + Mask(d))[1..] == Mask(d) && ("p" + Mask(d))[1..] == Mask(d);
    assert (d + "000000000")[..9] == d;
    OnlyDigitsCount(Mask(d));
    OnlyDigitsCount("P" + Mask(d));
    OnlyDigitsCount("p" + Mask(d));
    OnlyDigitsCount(d);
  }

  lemma MaskInjective(a: D9, b: D9)
    ensures Mask(a) == Mask(b) <==> a == b
  {
    MaskKeepsDigits(a);
    MaskKeepsDigits(b);
  }

  /** Any text that normalises at all normalises to the same code as its own mask. */
  lemma NormalFormIsStable(raw: string)
    requires Digits9(Some(raw)).Some?
    ensures Digits9(Some(Mask(Digits9(Some(raw)).value))) == Digits9(Some(raw))
  {
    MaskRoundTrip(Digits9(Some(raw)).value);
  }

  // ---------------------------------------------------------------- class and nature

  function Classe(d: D9): nat {
    (d[0] - '0') as int
  }

  /** The nature is that of the first digit, and one line has one class. */
  lemma NatureOfClass(d: D9)
    ensures Devedora(Classe(d)) <==> d[0] in {'1', '3', '5', '7', '9'}
    ensures Truncate(d, 1) == [d[0]] + Zeros(8)
    ensures forall a :: a in Ancestrais(d) ==> Classe(a) == Classe(d)
  {
    forall a | a in Ancestrais(d) ensures Classe(a) == Classe(d) {
      var i :| 0 <= i < |Ancestrais(d)| && Ancestrais(d)[i] == a;
      assert a == Truncate(d, i + 1) && a[0] == d[0];
    }
  }

  predicate Devedora(classe: int) {
    classe % 2 == 1
  }
}
