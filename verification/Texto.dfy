/** The little text the model needs: decimal digits, whitespace, Python's `int`, `str` and `strip` on ASCII. */
module Texto {

  predicate Digito(c: char) {
    '0' <= c <= '9'
  }

  /** Python's `int` of decimal digits. */
  function Inteiro(s: string): (r: nat)
    requires forall k :: 0 <= k < |s| ==> Digito(s[k])
    ensures r == 0 <==> forall k :: 0 <= k < |s| ==> s[k] == '0'
  {
    if s == "" then 0
    else
      assert s == s[..|s| - 1] + [s[|s| - 1]] && Digito(s[|s| - 1]);
      Inteiro(s[..|s| - 1]) * 10 + (s[|s| - 1] - '0') as int
  }

  predicate Espaco(c: char) {
    c == ' ' || ('\t' <= c <= '\r') || (0x1c as char <= c <= 0x1f as char)
  }

  function StripLeft(s: string): string {
    if s != "" && Espaco(s[0]) then StripLeft(s[1..]) else s
  }

  function StripRight(s: string): string {
    if s != "" && Espaco(s[|s| - 1]) then StripRight(s[..|s| - 1]) else s
  }

  function Strip(s: string): string {
    StripRight(StripLeft(s))
  }

  /** Python's `str` of an integer. */
  function Nat(n: nat): (r: string)
    ensures r != "" && forall i :: 0 <= i < |r| ==> Digito(r[i])
    ensures Inteiro(r) == n
  {
    var d := [(n % 10) as char + '0'];
    if n < 10 then
      assert Inteiro(d[..0]) == 0;
      d
    else
      var r := Nat(n / 10) + d;
      assert r[..|r| - 1] == Nat(n / 10);
      r
  }

  function Str(n: int): (r: string)
    ensures r != ""
  {
    if n < 0 then "-" + Nat(-n) else Nat(n)
  }

  lemma {:induction false} NatLength(n: nat)
    ensures |Nat(n)| == 1 <==> n < 10
    ensures |Nat(n)| <= 2 <==> n < 100
    ensures |Nat(n)| <= 3 <==> n < 1000
    ensures |Nat(n)| <= 4 <==> n < 10000
  {
    if n >= 10 { NatLength(n / 10); }
  }

  lemma StripNothing(s: string)
    requires s != "" && !Espaco(s[0]) && !Espaco(s[|s| - 1])
    ensures Strip(s) == s
  {
  }
}
