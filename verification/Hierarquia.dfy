/**
 * Drill-down and drill-up over any hierarchy stored as rows that name their parent: children,
 * breadcrumbs that survive cycles, and the envelope that carries both.
 */
module Hierarquia {
  import opened Basics
  import opened Ordenacao

  datatype Node = Node(codigo: string, descricao: string, parentCodigo: Option<string>, nivel: int, medidas: map<string, int>)

  /** `_index`: for a repeated code the last row wins. */
  function Index(nodes: seq<Node>): map<string, Node> {
    if nodes == [] then map[]
    else Index(nodes[..|nodes| - 1])[nodes[|nodes| - 1].codigo := nodes[|nodes| - 1]]
  }

  lemma {:induction false} IndexMembers(nodes: seq<Node>)
    ensures forall c :: c in Index(nodes) ==> Index(nodes)[c] in nodes && Index(nodes)[c].codigo == c
    ensures forall n :: n in nodes ==> n.codigo in Index(nodes)
  {
    if nodes != [] {
      IndexMembers(nodes[..|nodes| - 1]);
      assert nodes == nodes[..|nodes| - 1] + [nodes[|nodes| - 1]];
    }
  }

  ghost predicate CodigosUnicos(nodes: seq<Node>) {
    forall i, j :: 0 <= i < j < |nodes| ==> nodes[i].codigo != nodes[j].codigo
  }

  /** The parent relation between codes that are both indexed. */
  function Pais(idx: map<string, Node>): map<string, string> {
    map c | c in idx && idx[c].parentCodigo.Some? && idx[c].parentCodigo.value in idx :: idx[c].parentCodigo.value
  }

  // ---------------------------------------------------------------- walking up

  /** `k` steps up. */
  function Sobe(pais: map<string, string>, c: string, k: nat): Option<string> {
    if k == 0 then Some(c)
    else match Sobe(pais, c, k - 1) case None => None case Some(x) => if x in pais then Some(pais[x]) else None
  }

  /** Reached by one step up or more. */
  ghost predicate Ancestral(pais: map<string, string>, a: string, c: string) {
    exists k: nat :: k > 0 && Sobe(pais, c, k) == Some(a)
  }

  ghost predicate Aciclica(pais: map<string, string>) {
    forall c :: !Ancestral(pais, c, c)
  }

  /** The walk from parent to root, stopping before a code already seen. */
  function Trilha(pais: map<string, string>, c: string, vistos: set<string>): seq<string>
    decreases pais.Values - vistos
  {
    if c !in pais || pais[c] in vistos then []
    else
      assert pais[c] in pais.Values;
      [pais[c]] + Trilha(pais, pais[c], vistos + {pais[c]})
  }

  ghost predicate Encadeada(pais: map<string, string>, c: string, t: seq<string>) {
    forall i :: 0 <= i < |t| ==> Degrau(pais, c, t, i)
  }

  /** The i-th code of a walk from `c` is the parent of the one before it. */
  predicate Degrau(pais: map<string, string>, c: string, t: seq<string>, i: nat)
    requires i < |t|
  {
    var antes := if i == 0 then c else t[i - 1];
    antes in pais && pais[antes] == t[i]
  }

  function Topo(c: string, t: seq<string>): string {
    if t == [] then c else t[|t| - 1]
  }

  /** The walk visits a chain of parents, none twice, and stops only at a root or at something seen. */
  lemma {:induction false} TrailIs(pais: map<string, string>, c: string, vistos: set<string>)
    ensures var t := Trilha(pais, c, vistos);
      && Encadeada(pais, c, t) && NoDup(t)
      && (forall x :: x in t ==> x !in vistos)
      && (Topo(c, t) in pais ==> pais[Topo(c, t)] in vistos || pais[Topo(c, t)] in t)
    decreases pais.Values - vistos
  {
    if c in pais && pais[c] !in vistos {
      var p := pais[c];
      assert p in pais.Values;
      TrailIs(pais, p, vistos + {p});
      var r := Trilha(pais, p, vistos + {p});
      NoDupConcat([p], r);
      assert Topo(c, [p] + r) == Topo(p, r);
      var t := [p] + r;
      forall i | 0 <= i < |t| ensures Degrau(pais, c, t, i) {
        if i > 0 {
          var j := i - 1;
          assert Degrau(pais, p, r, j);
        }
      }
    }
  }

  /** The i-th code of a chain is i + 1 steps up. */
  lemma {:induction false} ChainIsSteps(pais: map<string, string>, c: string, t: seq<string>, i: nat)
    requires Encadeada(pais, c, t) && i < |t|
    ensures Sobe(pais, c, i + 1) == Some(t[i])
  {
    assert Degrau(pais, c, t, i);
    if i > 0 {
      ChainIsSteps(pais, c, t, i - 1);
    } else {
      assert Sobe(pais, c, 0) == Some(c);
    }
  }

  /** When the walk ended because it met itself, everything above is in it; when it ended at a root, nothing is beyond. */
  lemma {:induction false} NothingBeyond(pais: map<string, string>, c: string, k: nat)
    requires k > 0
    ensures Sobe(pais, c, k) == None || Sobe(pais, c, k).value in Trilha(pais, c, {})
  {
    var t := Trilha(pais, c, {});
    TrailIs(pais, c, {});
    var antes: nat := k - 1;
    if antes == 0 {
      assert Sobe(pais, c, antes) == Some(c);
      if c in pais { assert t[0] == pais[c]; }
    } else {
      NothingBeyond(pais, c, antes);
      if Sobe(pais, c, antes).Some? {
        var i :| 0 <= i < |t| && t[i] == Sobe(pais, c, antes).value;
        var j := i + 1;
        if j < |t| {
          assert Degrau(pais, c, t, j);
        }
      }
    }
  }

  /** On any graph, cycles included, the walk is exactly the set of ancestors, each once, nearest first. */
  lemma TrailIsAncestors(pais: map<string, string>, c: string)
    ensures var t := Trilha(pais, c, {});
      NoDup(t) && Encadeada(pais, c, t) && forall a :: a in t <==> Ancestral(pais, a, c)
  {
    TrailIs(pais, c, {});
    var t := Trilha(pais, c, {});
    forall a ensures a in t <==> Ancestral(pais, a, c) {
      if a in t {
        var i :| 0 <= i < |t| && t[i] == a;
        ChainIsSteps(pais, c, t, i);
        var k: nat := i + 1;
        assert Sobe(pais, c, k) == Some(a);
      }
      if Ancestral(pais, a, c) {
        var k: nat :| k > 0 && Sobe(pais, c, k) == Some(a);
        NothingBeyond(pais, c, k);
      }
    }
  }

  lemma {:induction false} StepsAdd(pais: map<string, string>, c: string, j: nat, k: nat)
    requires Sobe(pais, c, j).Some?
    ensures Sobe(pais, c, j + k) == Sobe(pais, Sobe(pais, c, j).value, k)
  {
    if k > 0 {
      var antes: nat := k - 1;
      StepsAdd(pais, c, j, antes);
      assert j + k - 1 == j + antes;
    }
  }

  /** A walk that could go on has come back to its own tracks. */
  lemma WalkMeetsCycle(pais: map<string, string>, c: string)
    requires Topo(c, Trilha(pais, c, {})) in pais
    ensures var x := pais[Topo(c, Trilha(pais, c, {}))]; Ancestral(pais, x, c) && Ancestral(pais, x, x)
  {
    TrailIsAncestors(pais, c);
    TrailIs(pais, c, {});
    var t := Trilha(pais, c, {});
    var topo := Topo(c, t);
    var i :| 0 <= i < |t| && t[i] == pais[topo];
    var n: nat := |t| - 1 - i;
    ChainIsSteps(pais, c, t, i);
    ChainIsSteps(pais, c, t, |t| - 1);
    StepsAdd(pais, c, i + 1, n);
    assert Sobe(pais, t[i], n) == Some(topo);
    var m: nat := n + 1;
    assert Sobe(pais, t[i], m) == Some(t[i]);
  }

  /** Without cycles the walk ends at a code that has no indexed parent. */
  lemma AcyclicEndsAtRoot(pais: map<string, string>, c: string)
    requires Aciclica(pais)
    ensures Topo(c, Trilha(pais, c, {})) !in pais
  {
    if Topo(c, Trilha(pais, c, {})) in pais { WalkMeetsCycle(pais, c); }
  }

  /** One level down the walk is one longer, exactly when the parent is not on a cycle. */
  lemma ParentTrailIff(pais: map<string, string>, c: string)
    requires c in pais
    ensures Trilha(pais, c, {}) == [pais[c]] + Trilha(pais, pais[c], {}) <==> !Ancestral(pais, pais[c], pais[c])
  {
    var p := pais[c];
    TrailIsAncestors(pais, p);
    TrailIsAncestors(pais, c);
    if !Ancestral(pais, p, p) {
      IgnoreUnmet(pais, p, {}, p);
      assert {} + {p} == {p};
    } else {
      var t := [p] + Trilha(pais, p, {});
      var i :| 0 <= i < |Trilha(pais, p, {})| && Trilha(pais, p, {})[i] == p;
      assert t[0] == t[i + 1];
    }
  }

  /** A code the walk never meets may as well count as seen. */
  lemma {:induction false} IgnoreUnmet(pais: map<string, string>, c: string, vistos: set<string>, x: string)
    requires x !in Trilha(pais, c, vistos)
    ensures Trilha(pais, c, vistos + {x}) == Trilha(pais, c, vistos)
    decreases pais.Values - vistos
  {
    if c in pais && pais[c] !in vistos {
      var p := pais[c];
      assert p in pais.Values && p in Trilha(pais, c, vistos);
      IgnoreUnmet(pais, p, vistos + {p}, x);
      assert vistos + {p} + {x} == vistos + {x} + {p};
    }
  }

  // ---------------------------------------------------------------- the operations

  function Reverso<T>(s: seq<T>): (r: seq<T>)
    ensures |r| == |s| && forall i :: 0 <= i < |s| ==> r[i] == s[|s| - 1 - i]
  {
    if s == [] then [] else Reverso(s[1..]) + [s[0]]
  }

  lemma {:induction false} TrailIndexed(idx: map<string, Node>, c: string, vistos: set<string>)
    ensures forall x :: x in Trilha(Pais(idx), c, vistos) ==> x in idx
    decreases Pais(idx).Values - vistos
  {
    var pais := Pais(idx);
    if c in pais && pais[c] !in vistos {
      assert pais[c] in pais.Values;
      TrailIndexed(idx, pais[c], vistos + {pais[c]});
    }
  }

  /** The breadcrumb of a code: its ancestors from the root down to the parent. */
  ghost function Breadcrumb(nodes: seq<Node>, codigo: string): (r: seq<string>)
  {
    Reverso(Trilha(Pais(Index(nodes)), codigo, {}))
  }

  ghost function Codigos(ns: seq<Node>): (r: seq<string>)
    ensures |r| == |ns|
  {
    seq(|ns|, i requires 0 <= i < |ns| => ns[i].codigo)
  }

  /** The rows collected so far are indexed ones, and what is still to be walked continues them. */
  ghost predicate Andamento(idx: map<string, Node>, codigo: string, trail: seq<Node>, c: string, seen: set<string>) {
    && Trilha(Pais(idx), codigo, {}) == Codigos(trail) + Trilha(Pais(idx), c, seen)
    && forall n :: n in trail ==> n.codigo in idx && idx[n.codigo] == n
  }

  lemma WalkStep(idx: map<string, Node>, codigo: string, trail: seq<Node>, c: string, seen: set<string>, p: string)
    requires Andamento(idx, codigo, trail, c, seen)
    requires c in idx && idx[c].parentCodigo == Some(p) && p in idx && idx[p].codigo == p && p !in seen
    ensures Andamento(idx, codigo, trail + [idx[p]], p, seen + {p})
    ensures Pais(idx).Values - (seen + {p}) < Pais(idx).Values - seen
  {
    assert c in Pais(idx) && Pais(idx)[c] == p && p in Pais(idx).Values;
    assert Codigos(trail + [idx[p]]) == Codigos(trail) + [p];
  }

  lemma WalkEnds(idx: map<string, Node>, codigo: string, trail: seq<Node>, c: string, seen: set<string>)
    requires Andamento(idx, codigo, trail, c, seen)
    requires c in idx && idx[c].parentCodigo.Some? ==> idx[c].parentCodigo.value !in idx || idx[c].parentCodigo.value in seen
    ensures Codigos(trail) == Trilha(Pais(idx), codigo, {})
  {
  }

  lemma ReversedCodes(trail: seq<Node>)
    ensures Codigos(Reverso(trail)) == Reverso(Codigos(trail))
  {
  }

  /** The loop terminates on every parent graph, and walks exactly `Breadcrumb`. */
  method BreadcrumbOf(nodes: seq<Node>, codigo: string) returns (r: seq<Node>)
    ensures Codigos(r) == Breadcrumb(nodes, codigo)
    ensures forall n :: n in r ==> n.codigo in Index(nodes) && Index(nodes)[n.codigo] == n
  {
    var idx := Index(nodes);
    IndexMembers(nodes);
    var trail: seq<Node> := [];
    var current: Option<Node> := if codigo in idx then Some(idx[codigo]) else None;
    var seen: set<string> := {};
    ghost var c := codigo;
    while current.Some? && current.value.parentCodigo.Some?
      invariant current == if c in idx then Some(idx[c]) else None
      invariant Andamento(idx, codigo, trail, c, seen)
      decreases Pais(idx).Values - seen
    {
      var p := current.value.parentCodigo.value;
      if p !in idx || p in seen { break; }
      WalkStep(idx, codigo, trail, c, seen, p);
      seen := seen + {p};
      trail := trail + [idx[p]];
      current := Some(idx[p]);
      c := p;
    }
    WalkEnds(idx, codigo, trail, c, seen);
    r := Reverso(trail);
    ReversedCodes(trail);
    ReversedSame(trail);
  }

  /** On any rows at all: no code twice, and exactly the ancestors; so the node itself is there if and only if it is on a cycle. */
  lemma BreadcrumbIsAncestors(nodes: seq<Node>, codigo: string)
    ensures var r, pais := Breadcrumb(nodes, codigo), Pais(Index(nodes));
      && NoDup(r)
      && (forall a :: a in r <==> Ancestral(pais, a, codigo))
      && (codigo in r <==> Ancestral(pais, codigo, codigo))
  {
    var pais := Pais(Index(nodes));
    var t := Trilha(pais, codigo, {});
    TrailIsAncestors(pais, codigo);
    ReversedSame(t);
  }

  lemma ReversedSame<T>(s: seq<T>)
    ensures forall x :: x in Reverso(s) <==> x in s
    ensures NoDup(s) ==> NoDup(Reverso(s))
  {
    var r := Reverso(s);
    forall x ensures x in r <==> x in s {
      if x in r { var i :| 0 <= i < |r| && r[i] == x; assert s[|s| - 1 - i] == x; }
      if x in s { var i :| 0 <= i < |s| && s[i] == x; assert r[|s| - 1 - i] == x; }
    }
  }

  /** Every parent named is present. */
  ghost predicate FechadaPorPais(nodes: seq<Node>) {
    forall n :: n in nodes && n.parentCodigo.Some? ==> n.parentCodigo.value in Index(nodes)
  }

  /** Without cycles, with all parents present, the breadcrumb starts at a root and is the whole chain. */
  lemma AcyclicBreadcrumbIsChain(nodes: seq<Node>, codigo: string)
    requires Aciclica(Pais(Index(nodes))) && FechadaPorPais(nodes) && codigo in Index(nodes)
    ensures var r, idx := Breadcrumb(nodes, codigo), Index(nodes);
      && (r == [] ==> idx[codigo].parentCodigo == None)
      && (r != [] ==> r[0] in idx && idx[r[0]].parentCodigo == None && idx[codigo].parentCodigo == Some(r[|r| - 1]))
      && (forall i :: 0 < i < |r| ==> r[i] in idx && idx[r[i]].parentCodigo == Some(r[i - 1]))
  {
    var idx := Index(nodes);
    IndexMembers(nodes);
    var pais := Pais(idx);
    var t := Trilha(pais, codigo, {});
    TrailIs(pais, codigo, {});
    TrailIndexed(idx, codigo, {});
    AcyclicEndsAtRoot(pais, codigo);
    var r := Breadcrumb(nodes, codigo);
    if r != [] {
      assert r[0] == Topo(codigo, t) && r[|r| - 1] == t[0] && Degrau(pais, codigo, t, 0);
    }
    forall i | 0 < i < |r| ensures r[i] in idx && idx[r[i]].parentCodigo == Some(r[i - 1]) {
      var j := |t| - i;
      assert Degrau(pais, codigo, t, j) && t[j] == r[i - 1] && t[j - 1] == r[i];
    }
  }

  function CodigoLeq(a: Node, b: Node): bool {
    LexLeq(a.codigo, b.codigo)
  }

  lemma CodigoOrder()
    ensures TotalPreorder(CodigoLeq)
  {
    forall a: Node, b: Node ensures CodigoLeq(a, b) || CodigoLeq(b, a) { LexTotal(a.codigo, b.codigo); }
    forall a: Node, b: Node, c: Node | CodigoLeq(a, b) && CodigoLeq(b, c) ensures CodigoLeq(a, c) {
      LexTransitive(a.codigo, b.codigo, c.codigo);
    }
  }

  function ComPai(nodes: seq<Node>, pai: Option<string>): (r: seq<Node>)
    ensures forall n :: n in r <==> n in nodes && n.parentCodigo == pai
  {
    if nodes == [] then []
    else
      assert nodes == [nodes[0]] + nodes[1..];
      (if nodes[0].parentCodigo == pai then [nodes[0]] else []) + ComPai(nodes[1..], pai)
  }

  /** Roots for None, direct children otherwise, by code. */
  function ChildrenOf(nodes: seq<Node>, codigo: Option<string>): seq<Node> {
    Sort(CodigoLeq, ComPai(nodes, codigo))
  }

  function HasChildren(nodes: seq<Node>, codigo: string): bool {
    exists n :: n in nodes && n.parentCodigo == Some(codigo)
  }

  /** The list is in order, and the flag says exactly whether drilling down would find anything. */
  lemma ChildrenSorted(nodes: seq<Node>, codigo: Option<string>)
    ensures var r := ChildrenOf(nodes, codigo); forall i, j :: 0 <= i < j < |r| ==> LexLeq(r[i].codigo, r[j].codigo)
    ensures forall n :: n in ChildrenOf(nodes, codigo) <==> n in nodes && n.parentCodigo == codigo
    ensures codigo.Some? ==> (HasChildren(nodes, codigo.value) <==> ChildrenOf(nodes, codigo) != [])
  {
    CodigoOrder();
    SortCorrect(CodigoLeq, ComPai(nodes, codigo));
    var r := ChildrenOf(nodes, codigo);
    if r != [] { assert r[0] in r; }
  }

  /** Down and up are inverse, cycles or not: a row is a child of another exactly when that one ends its breadcrumb. */
  lemma ChildIffLast(nodes: seq<Node>, filho: Node, pai: Node)
    requires CodigosUnicos(nodes) && filho in nodes && pai in nodes
    ensures filho in ChildrenOf(nodes, Some(pai.codigo))
       <==> var r := Breadcrumb(nodes, filho.codigo); r != [] && r[|r| - 1] == pai.codigo
  {
    ChildrenSorted(nodes, Some(pai.codigo));
    UniqueIndex(nodes, filho);
    UniqueIndex(nodes, pai);
    var pais := Pais(Index(nodes));
    var t := Trilha(pais, filho.codigo, {});
    TrailIs(pais, filho.codigo, {});
    if t != [] { assert Degrau(pais, filho.codigo, t, 0); }
  }

  lemma ReversedEqual<T>(s: seq<T>, t: seq<T>)
    ensures Reverso(s) == Reverso(t) <==> s == t
  {
    if Reverso(s) == Reverso(t) {
      forall i | 0 <= i < |s| ensures s[i] == t[i] {
        assert Reverso(s)[|s| - 1 - i] == Reverso(t)[|s| - 1 - i];
      }
    }
  }

  /** And the child's breadcrumb is the parent's with the parent at the end, exactly when the parent is on no cycle. */
  lemma DownOneLevelIff(nodes: seq<Node>, filho: Node, pai: Node)
    requires CodigosUnicos(nodes) && filho in nodes && pai in nodes && filho.parentCodigo == Some(pai.codigo)
    ensures Breadcrumb(nodes, filho.codigo) == Breadcrumb(nodes, pai.codigo) + [pai.codigo]
       <==> pai.codigo !in Breadcrumb(nodes, pai.codigo)
  {
    var n, pais := pai.codigo, Pais(Index(nodes));
    UniqueIndex(nodes, filho);
    UniqueIndex(nodes, pai);
    ParentTrailIff(pais, filho.codigo);
    BreadcrumbIsAncestors(nodes, n);
    var t, u := Trilha(pais, filho.codigo, {}), [n] + Trilha(pais, n, {});
    assert Reverso(u) == Breadcrumb(nodes, n) + [n];
    ReversedEqual(t, u);
  }

  lemma {:induction false} UniqueIndex(nodes: seq<Node>, n: Node)
    requires CodigosUnicos(nodes) && n in nodes
    ensures n.codigo in Index(nodes) && Index(nodes)[n.codigo] == n
  {
    var k := |nodes| - 1;
    if n != nodes[k] {
      var i :| 0 <= i < |nodes| && nodes[i] == n;
      assert nodes[..k][i] == n;
      UniqueIndex(nodes[..k], n);
    }
  }

  /** On the smallest cycle the breadcrumb of a node lists the node itself. */
  lemma CycleExample()
    ensures var a, b := Node("a", "", Some("b"), 1, map[]), Node("b", "", Some("a"), 1, map[]);
      Breadcrumb([a, b], "a") == ["a", "b"]
  {
    var a, b := Node("a", "", Some("b"), 1, map[]), Node("b", "", Some("a"), 1, map[]);
    var nodes := [a, b];
    assert nodes[..1] == [a] && nodes[..1][..0] == [];
    assert Index([a]) == map["a" := a];
    assert Index(nodes) == map["a" := a, "b" := b];
    var pais := Pais(Index(nodes));
    assert pais == map["a" := "b", "b" := "a"];
    var vistos: set<string> := {};
    var v1 := vistos + {"b"};
    var v2 := v1 + {"a"};
    assert Trilha(pais, "b", v2) == [] && Trilha(pais, "a", v2) == [];
    assert Trilha(pais, "b", v1) == ["a"];
    assert Trilha(pais, "a", vistos) == ["b", "a"];
    assert Reverso(["b", "a"]) == ["a", "b"];
  }

  // ---------------------------------------------------------------- the envelope

  datatype DrillChild = DrillChild(codigo: string, descricao: string, nivel: int, medidas: map<string, int>, hasChildren: bool)

  datatype DrillEnvelope = DrillEnvelope(
    node: Option<Node>, breadcrumb: seq<Node>, children: seq<DrillChild>, medidas: map<string, int>)

  /** A node's own measures overlaid with those computed elsewhere. */
  function MedidasDe(nodes: seq<Node>, extra: map<string, map<string, int>>, codigo: string): map<string, int> {
    (if codigo in Index(nodes) then Index(nodes)[codigo].medidas else map[]) + (if codigo in extra then extra[codigo] else map[])
  }

  /** Of several rows with one code the last is the one looked up. */
  lemma {:induction false} LastRowIsIndexed(nodes: seq<Node>, c: string)
    ensures c in Index(nodes) <==> exists n :: n in nodes && n.codigo == c
    ensures c in Index(nodes) ==> exists i :: 0 <= i < |nodes| && nodes[i] == Index(nodes)[c] && nodes[i].codigo == c
                                    && forall j :: i < j < |nodes| ==> nodes[j].codigo != c
  {
    if nodes != [] {
      var k := |nodes| - 1;
      LastRowIsIndexed(nodes[..k], c);
      assert nodes == nodes[..k] + [nodes[k]];
      if nodes[k].codigo == c {
        assert nodes[k] == Index(nodes)[c];
      } else if c in Index(nodes) {
        var i :| 0 <= i < k && nodes[..k][i] == Index(nodes[..k])[c] && nodes[..k][i].codigo == c
          && forall j :: i < j < k ==> nodes[..k][j].codigo != c;
        assert nodes[i] == Index(nodes)[c] && forall j :: i < j < |nodes| ==> j == k || nodes[j] == nodes[..k][j];
      }
    }
  }

  /** A measure computed elsewhere wins over the node's own; every other one is kept. */
  lemma OverlaidMeasures(nodes: seq<Node>, extra: map<string, map<string, int>>, codigo: string, m: string)
    ensures var r, fora, dele := MedidasDe(nodes, extra, codigo), codigo in extra && m in extra[codigo],
              codigo in Index(nodes) && m in Index(nodes)[codigo].medidas;
      && (m in r <==> fora || dele)
      && (fora ==> r[m] == extra[codigo][m])
      && (!fora && dele ==> r[m] == Index(nodes)[codigo].medidas[m])
  {
  }

  /** None is the KeyError for an unknown node. */
  method BuildDrillEnvelope(nodes: seq<Node>, codigo: Option<string>, extra: map<string, map<string, int>>)
    returns (r: Option<DrillEnvelope>)
    ensures r == None <==> codigo.Some? && codigo.value !in Index(nodes)
    ensures r.Some? ==>
      var f := ChildrenOf(nodes, codigo);
      && |r.value.children| == |f|
      && (forall i :: 0 <= i < |f| ==>
            r.value.children[i] == DrillChild(f[i].codigo, f[i].descricao, f[i].nivel, MedidasDe(nodes, extra, f[i].codigo),
                                              HasChildren(nodes, f[i].codigo)))
    ensures r.Some? && codigo == None ==> r.value.node == None && r.value.breadcrumb == [] && r.value.medidas == map[]
    ensures r.Some? && codigo.Some? ==>
      && r.value.node == Some(Index(nodes)[codigo.value])
      && Codigos(r.value.breadcrumb) == Breadcrumb(nodes, codigo.value)
      && r.value.medidas == MedidasDe(nodes, extra, codigo.value)
  {
    var f := ChildrenOf(nodes, codigo);
    var children: seq<DrillChild> := [];
    for i := 0 to |f|
      invariant |children| == i
      invariant forall k :: 0 <= k < i ==>
        children[k] == DrillChild(f[k].codigo, f[k].descricao, f[k].nivel, MedidasDe(nodes, extra, f[k].codigo),
                                  HasChildren(nodes, f[k].codigo))
    {
      var c := f[i];
      children := children
        + [DrillChild(c.codigo, c.descricao, c.nivel, MedidasDe(nodes, extra, c.codigo), HasChildren(nodes, c.codigo))];
    }
    if codigo == None { return Some(DrillEnvelope(None, [], children, map[])); }
    if codigo.value !in Index(nodes) { return None; }
    var trilha := BreadcrumbOf(nodes, codigo.value);
    r := Some(DrillEnvelope(Some(Index(nodes)[codigo.value]), trilha, children, MedidasDe(nodes, extra, codigo.value)));
  }
}
