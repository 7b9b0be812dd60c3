/**
 The chained hash table of dictionary.c, node by node. Keys are only compared by hash code,
 so the table is an association list ordered by insertion and looked up by hash: get returns
 the oldest surviving entry with the key's hash, remove takes out exactly that one, and
 doubling the table changes no look-up. The hash function is a parameter.
 */
module Diccionario {
  import opened Estructuras

  /** A node. Its key, hash code and data never change; `Nada` is a null data pointer. */
  class HashElement<V> {
    const key: string
    const hashcode: nat
    const data: Opcion<V>
    var next: HashElement?<V>

    constructor (key: string, hashcode: nat, data: Opcion<V>)
      ensures this.key == key && this.hashcode == hashcode && this.data == data && next == null
    {
      this.key, this.hashcode, this.data, this.next := key, hashcode, data, null;
    }
  }

  // ---------------------------------------------------------------- the specification

  /** The entries that fall in bucket b of m, oldest first. */
  function Filtra<V>(s: seq<HashElement<V>>, b: nat, m: nat): seq<HashElement<V>>
    requires m > 0
  {
    if s == [] then []
    else
      var e, f := s[|s| - 1], Filtra(s[..|s| - 1], b, m);
      if e.hashcode % m == b then f + [e] else f
  }

  /** The position of the oldest entry with a hash code, or the length. */
  function PosHash<V>(s: seq<HashElement<V>>, h: nat): (k: nat)
    ensures k <= |s| && (k < |s| ==> s[k].hashcode == h)
    ensures forall j :: 0 <= j < k ==> s[j].hashcode != h
  {
    if s == [] then 0
    else
      var k := PosHash(s[..|s| - 1], h);
      assert forall j :: 0 <= j < |s| - 1 ==> s[..|s| - 1][j] == s[j];
      if k < |s| - 1 || s[|s| - 1].hashcode == h then k else |s|
  }

  lemma PosHashUnica<V>(s: seq<HashElement<V>>, h: nat, k: nat)
    requires k <= |s| && (k < |s| ==> s[k].hashcode == h) && forall j :: 0 <= j < k ==> s[j].hashcode != h
    ensures PosHash(s, h) == k
  {
  }

  /** Inserting never replaces: a key whose hash code is already there still finds the old entry. */
  lemma PosHashFinal<V>(s: seq<HashElement<V>>, e: HashElement<V>, h: nat)
    ensures PosHash(s + [e], h) ==
      if PosHash(s, h) < |s| || e.hashcode == h then PosHash(s, h) else |s| + 1
  {
  }

  /** Removing the oldest entry with one hash code changes the look-up of no other hash code, and
      uncovers the next entry with that one. */
  lemma QuitarDescubre<V>(s: seq<HashElement<V>>, h: nat, g: nat)
    requires PosHash(s, h) < |s|
    ensures var p, q := PosHash(s, h), PosHash(s, g); var t := SinIndice(s, p); var q' := PosHash(t, g);
      && (g != h ==> (q' < |t| <==> q < |s|) && (q < |s| ==> t[q'] == s[q]))
      && (g == h ==> q' >= p && (forall j :: p < j <= q' ==> s[j].hashcode != h) && (q' < |t| ==> t[q'] == s[q' + 1]))
  {
    var p, q := PosHash(s, h), PosHash(s, g);
    var t := SinIndice(s, p);
    assert forall j :: 0 <= j < |t| ==> t[j] == if j < p then s[j] else s[j + 1];
    if g != h {
      PosHashUnica(t, g, if q < p then q else q - 1);
    } else {
      var q' := PosHash(t, g);
      forall j | p < j <= q'
        ensures s[j].hashcode != h
      {
        assert t[j - 1] == s[j];
      }
    }
  }

  /** Look-up in the bucket of a hash code is look-up in the whole list. */
  lemma {:induction false} PosHashEnCubeta<V>(s: seq<HashElement<V>>, h: nat, m: nat)
    requires m > 0
    ensures var f := Filtra(s, h % m, m); var p, q := PosHash(f, h), PosHash(s, h);
      (p < |f| <==> q < |s|) && (p < |f| ==> f[p] == s[q])
  {
    if s != [] {
      var r, e := s[..|s| - 1], s[|s| - 1];
      PosHashEnCubeta(r, h, m);
      assert s == r + [e];
      PosHashFinal(r, e, h);
      PosHashFinal(Filtra(r, h % m, m), e, h);
    }
  }

  lemma {:induction false} FiltraMiembros<V>(s: seq<HashElement<V>>, b: nat, m: nat)
    requires m > 0
    ensures forall e :: e in Filtra(s, b, m) <==> e in s && e.hashcode % m == b
    ensures SinRepetidos(s) ==> SinRepetidos(Filtra(s, b, m))
  {
    if s != [] {
      var r, e := s[..|s| - 1], s[|s| - 1];
      FiltraMiembros(r, b, m);
      assert s == r + [e];
      if SinRepetidos(s) {
        assert e !in r;
      }
    }
  }

  lemma FiltraFinal<V>(s: seq<HashElement<V>>, e: HashElement<V>, b: nat, m: nat)
    requires m > 0
    ensures Filtra(s + [e], b, m) == if e.hashcode % m == b then Filtra(s, b, m) + [e] else Filtra(s, b, m)
  {
  }

  /** Appending an entry after the first one with a hash code, and then taking that one out. */
  lemma SinIndiceFinal<V>(r: seq<HashElement<V>>, e: HashElement<V>, h: nat)
    requires PosHash(r, h) < |r|
    ensures PosHash(r + [e], h) == PosHash(r, h)
    ensures SinIndice(r + [e], PosHash(r, h)) == SinIndice(r, PosHash(r, h)) + [e]
  {
  }

  /** The same when the appended entry is the first with its hash code. */
  lemma SinUltimo<V>(r: seq<HashElement<V>>, e: HashElement<V>)
    requires PosHash(r, e.hashcode) == |r|
    ensures PosHash(r + [e], e.hashcode) == |r| && SinIndice(r + [e], |r|) == r
  {
  }

  /** Removing one entry removes it from its own bucket and no other. */
  lemma {:induction false} FiltraSinIndice<V>(s: seq<HashElement<V>>, h: nat, b: nat, m: nat)
    requires m > 0 && PosHash(s, h) < |s|
    ensures var p, f := PosHash(s, h), Filtra(s, b, m);
      if h % m == b then PosHash(f, h) < |f| && Filtra(SinIndice(s, p), b, m) == SinIndice(f, PosHash(f, h))
      else Filtra(SinIndice(s, p), b, m) == f
  {
    var r, e := s[..|s| - 1], s[|s| - 1];
    var p, fr := PosHash(r, h), Filtra(r, b, m);
    assert s == r + [e];
    if p == |r| {
      PosHashFinal(r, e, h);
      SinUltimo(r, e);
      if h % m == b {
        PosHashEnCubeta(r, h, m);
        SinUltimo(fr, e);
      }
    } else {
      FiltraSinIndice(r, h, b, m);
      SinIndiceFinal(r, e, h);
      FiltraFinal(SinIndice(r, p), e, b, m);
      if h % m == b {
        SinIndiceFinal(fr, e, h);
      }
    }
  }

  // ---------------------------------------------------------------- doubling

  lemma MultiploMayor(a: int, b: int, m: nat)
    requires a < b
    ensures a * m + m <= b * m
  {
    assert (b - a - 1) * m >= 0;
    assert (b - a - 1) * m == b * m - a * m - m;
  }

  lemma ModUnico(x: nat, m: nat, q: nat, r: nat)
    requires m > 0 && r < m && x == q * m + r
    ensures x % m == r
  {
    var q', r' := x / m, x % m;
    assert x == q' * m + r';
    if q' < q {
      MultiploMayor(q', q, m);
    } else if q' > q {
      MultiploMayor(q, q', m);
    }
  }

  lemma Reagrupa(q: nat, a: nat, c: nat, m: nat)
    ensures q * (2 * m) + (a * m + c) == (2 * q + a) * m + c
  {
  }

  lemma Division(h: nat, m: nat) returns (q: nat, r: nat)
    requires m > 0
    ensures h == q * m + r && r == h % m < m
  {
    q, r := h / m, h % m;
  }

  /** An entry of bucket b moves to bucket b or b + m of the doubled table. */
  lemma ModDoble(h: nat, m: nat)
    requires m > 0
    ensures (h % (2 * m)) % m == h % m && h % (2 * m) < 2 * m
  {
    var q, r := Division(h, 2 * m);
    var a, c := Division(r, m);
    Reagrupa(q, a, c, m);
    ModUnico(h, m, 2 * q + a, c);
  }

  /** When bucket i of n only takes entries of bucket b of m, filtering twice is filtering once. */
  lemma {:induction false} FiltraFiltra<V>(s: seq<HashElement<V>>, b: nat, m: nat, i: nat, n: nat)
    requires m > 0 && n > 0
    requires forall e :: e in s && e.hashcode % n == i ==> e.hashcode % m == b
    ensures Filtra(Filtra(s, b, m), i, n) == Filtra(s, i, n)
  {
    if s != [] {
      var r, e := s[..|s| - 1], s[|s| - 1];
      FiltraFiltra(r, b, m, i, n);
      var fr := Filtra(r, b, m);
      assert (fr + [e])[..|fr|] == fr;
    }
  }

  // ---------------------------------------------------------------- buckets

  function NoVacias<V>(cs: seq<seq<HashElement<V>>>): nat {
    if cs == [] then 0 else NoVacias(cs[..|cs| - 1]) + (if cs[|cs| - 1] == [] then 0 else 1)
  }

  lemma {:induction false} NoVaciasCambia<V>(cs: seq<seq<HashElement<V>>>, i: nat, q: seq<HashElement<V>>)
    requires i < |cs|
    ensures NoVacias(cs[i := q]) + (if cs[i] == [] then 0 else 1) == NoVacias(cs) + (if q == [] then 0 else 1)
  {
    if i < |cs| - 1 {
      assert cs[i := q][..|cs| - 1] == cs[..|cs| - 1][i := q];
      NoVaciasCambia(cs[..|cs| - 1], i, q);
    } else {
      assert cs[i := q][..|cs| - 1] == cs[..|cs| - 1];
    }
  }

  lemma NoVaciasAgrega<V>(cs: seq<seq<HashElement<V>>>, i: nat, x: HashElement<V>)
    requires i < |cs|
    ensures NoVacias(cs[i := cs[i] + [x]]) == NoVacias(cs) + if cs[i] == [] then 1 else 0
  {
    NoVaciasCambia(cs, i, cs[i] + [x]);
  }

  lemma {:induction false} NoVaciasNinguna<V>(cs: seq<seq<HashElement<V>>>)
    requires forall i :: 0 <= i < |cs| ==> cs[i] == []
    ensures NoVacias(cs) == 0
  {
    if cs != [] {
      NoVaciasNinguna(cs[..|cs| - 1]);
    }
  }

  function Sucesor<V>(q: seq<HashElement<V>>, k: nat): HashElement?<V> {
    if k + 1 < |q| then q[k + 1] else null
  }

  function Cabeza<V>(q: seq<HashElement<V>>): HashElement?<V> {
    if q == [] then null else q[0]
  }

  /** The nodes of a bucket are among `todos` and each is linked to the one after it. */
  ghost predicate Enlazada<V>(q: seq<HashElement<V>>, todos: seq<HashElement<V>>)
    reads todos`next
  {
    forall k {:trigger q[k]} :: 0 <= k < |q| ==> q[k] in todos && q[k].next == Sucesor(q, k)
  }

  ghost predicate Enlazadas<V>(cs: seq<seq<HashElement<V>>>, todos: seq<HashElement<V>>)
    reads todos`next
  {
    forall b :: 0 <= b < |cs| ==> Enlazada(cs[b], todos)
  }

  /** The last node of a bucket, as a set. */
  function Cola<V>(q: seq<HashElement<V>>): set<HashElement<V>> {
    if q == [] then {} else {q[|q| - 1]}
  }

  /** A table of bucket heads holds these buckets. */
  ghost predicate Ligada<V>(t: array<HashElement?<V>>, cs: seq<seq<HashElement<V>>>, todos: seq<HashElement<V>>)
    reads t, todos`next
  {
    && t.Length == |cs|
    && forall u {:trigger Abrir(Invariante, u)} :: Abrir(Invariante, u) ==>
      Enlazadas(cs, todos) && forall b :: 0 <= b < |cs| ==> t[b] == Cabeza(cs[b])
  }

  /** The same, but for the link of a node just hung at the end of one bucket. */
  ghost predicate CasiLigada<V>(t: array<HashElement?<V>>, cs: seq<seq<HashElement<V>>>, index: nat,
                                nuevo: HashElement<V>, todos: seq<HashElement<V>>)
    reads t, todos`next
  {
    && index < |cs| == t.Length
    && forall u {:trigger Abrir(Invariante, u)} :: Abrir(Invariante, u) ==>
      && (forall b :: 0 <= b < |cs| ==> t[b] == Cabeza(if b == index then cs[b] + [nuevo] else cs[b]))
      && (forall b :: 0 <= b < |cs| && b != index ==> Enlazada(cs[b], todos))
      && (forall k {:trigger cs[index][k]} :: 0 <= k < |cs[index]| ==>
            cs[index][k] in todos && cs[index][k].next == Sucesor(cs[index] + [nuevo], k))
  }

  /** The buckets split the entries by hash code, and the counter counts the non-empty ones. */
  ghost predicate Repartidas<V>(s: seq<HashElement<V>>, cs: seq<seq<HashElement<V>>>, hash: string -> nat,
                                actual: int) {
    && |cs| > 0
    && forall u {:trigger Abrir(Invariante, u)} :: Abrir(Invariante, u) ==>
      && SinRepetidos(s)
      && (forall i :: 0 <= i < |s| ==> s[i].hashcode == hash(s[i].key))
      && (forall b :: 0 <= b < |cs| ==> cs[b] == Filtra(s, b, |cs|))
      && actual == NoVacias(cs)
  }

  lemma RepartidasAgrega<V>(s: seq<HashElement<V>>, cs: seq<seq<HashElement<V>>>, hash: string -> nat, actual: int,
                            e: HashElement<V>, index: nat)
    requires Repartidas(s, cs, hash, actual) && index < |cs| && e !in s
    requires e.hashcode == hash(e.key) && e.hashcode % |cs| == index
    ensures Repartidas(s + [e], cs[index := cs[index] + [e]], hash, actual + if cs[index] == [] then 1 else 0)
  {
    assert Abrir(Invariante, 0);
    NoVaciasAgrega(cs, index, e);
    forall b | 0 <= b < |cs|
      ensures cs[index := cs[index] + [e]][b] == Filtra(s + [e], b, |cs|)
    {
      FiltraFinal(s, e, b, |cs|);
    }
  }

  lemma CubetasTrasQuitar<V>(s: seq<HashElement<V>>, cs: seq<seq<HashElement<V>>>, h: nat, index: nat, p: nat, k: nat)
    requires |cs| > 0 && index == h % |cs| && forall b :: 0 <= b < |cs| ==> cs[b] == Filtra(s, b, |cs|)
    requires p == PosHash(s, h) < |s| && k == PosHash(cs[index], h)
    ensures k < |cs[index]|
    ensures forall b :: 0 <= b < |cs| ==> cs[index := SinIndice(cs[index], k)][b] == Filtra(SinIndice(s, p), b, |cs|)
  {
    FiltraSinIndice(s, h, index, |cs|);
    forall b | 0 <= b < |cs|
      ensures cs[index := SinIndice(cs[index], k)][b] == Filtra(SinIndice(s, p), b, |cs|)
    {
      FiltraSinIndice(s, h, b, |cs|);
    }
  }

  lemma ClavesSinIndice<V>(s: seq<HashElement<V>>, p: nat, hash: string -> nat)
    requires p < |s| && SinRepetidos(s) && forall i :: 0 <= i < |s| ==> s[i].hashcode == hash(s[i].key)
    ensures var t := SinIndice(s, p); SinRepetidos(t) && forall i :: 0 <= i < |t| ==> t[i].hashcode == hash(t[i].key)
  {
  }

  lemma RepartidasQuita<V>(s: seq<HashElement<V>>, cs: seq<seq<HashElement<V>>>, hash: string -> nat, actual: int,
                           h: nat, index: nat)
    requires Repartidas(s, cs, hash, actual) && index == h % |cs|
    ensures var p, k := PosHash(s, h), PosHash(cs[index], h);
      if p == |s| then k == |cs[index]|
      else k < |cs[index]| && s[p] == cs[index][k] && Repartidas(SinIndice(s, p),
        cs[index := SinIndice(cs[index], k)], hash, actual - if |cs[index]| == 1 then 1 else 0)
  {
    assert Abrir(Invariante, 0);
    var p, k := PosHash(s, h), PosHash(cs[index], h);
    PosHashEnCubeta(s, h, |cs|);
    if p < |s| {
      ClavesSinIndice(s, p, hash);
      CubetasTrasQuitar(s, cs, h, index, p, k);
      NoVaciasCambia(cs, index, SinIndice(cs[index], k));
    }
  }

  lemma LigadaInicial<V>(t: array<HashElement?<V>>, cs: seq<seq<HashElement<V>>>,
                         t': array<HashElement?<V>>, nuevas: seq<seq<HashElement<V>>>, s: seq<HashElement<V>>)
    requires Ligada(t, cs, s) && t'.Length == |nuevas|
    requires forall b :: 0 <= b < |nuevas| ==> t'[b] == null && nuevas[b] == []
    ensures Ligada(t', nuevas, s) && Enlazadas(cs, s) && forall b :: 0 <= b < |cs| ==> t[b] == Cabeza(cs[b])
  {
    assert Abrir(Invariante, 0);
  }

  lemma LigadaConUltimo<V>(t: array<HashElement?<V>>, cs: seq<seq<HashElement<V>>>, index: nat, nuevo: HashElement<V>,
                           s: seq<HashElement<V>>, s': seq<HashElement<V>>)
    requires CasiLigada(t, cs, index, nuevo, s)
    requires nuevo.next == null && nuevo in s' && forall e :: e in s ==> e in s'
    ensures Ligada(t, cs[index := cs[index] + [nuevo]], s')
  {
    assert Abrir(Invariante, 0);
  }

  lemma LigadaCambia<V>(t: array<HashElement?<V>>, cs: seq<seq<HashElement<V>>>, index: nat, q: seq<HashElement<V>>,
                        s: seq<HashElement<V>>)
    requires index < |cs| == t.Length && t[index] == Cabeza(q) && Enlazada(q, s)
    requires forall b :: 0 <= b < |cs| && b != index ==> t[b] == Cabeza(cs[b])
    requires forall b :: 0 <= b < |cs| && b != index ==> Enlazada(cs[b], s)
    ensures Ligada(t, cs[index := q], s)
  {
  }

  lemma LigadaMenos<V>(t: array<HashElement?<V>>, cs: seq<seq<HashElement<V>>>, s: seq<HashElement<V>>,
                       s': seq<HashElement<V>>, hash: string -> nat, actual: int)
    requires Ligada(t, cs, s) && Repartidas(s', cs, hash, actual)
    ensures Ligada(t, cs, s')
  {
    assert Abrir(Invariante, 0);
    forall b | 0 <= b < |cs|
      ensures Enlazada(cs[b], s')
    {
      assert Enlazada(cs[b], s);
      FiltraMiembros(s', b, |cs|);
    }
  }

  /** The last node of a bucket is in no other place of the table. */
  ghost predicate ColaUnica<V>(cs: seq<seq<HashElement<V>>>, index: nat)
    requires index < |cs|
  {
    forall b, k :: 0 <= b < |cs| && 0 <= k < |cs[b]| && cs[b][k] in Cola(cs[index]) ==>
      b == index && k == |cs[index]| - 1
  }

  /** Buckets that come from filtering share no node. */
  lemma CubetasSeparadas<V>(s: seq<HashElement<V>>, cs: seq<seq<HashElement<V>>>, hash: string -> nat, actual: int,
                            index: nat)
    requires Repartidas(s, cs, hash, actual) && index < |cs|
    ensures ColaUnica(cs, index) && SinRepetidos(cs[index])
    ensures forall b, k :: 0 <= b < |cs| && 0 <= k < |cs[b]| && b != index ==> cs[b][k] !in cs[index]
    ensures forall b, k :: 0 <= b < |cs| && 0 <= k < |cs[b]| ==> cs[b][k] in s
  {
    assert Abrir(Invariante, 0);
    forall b | 0 <= b < |cs|
      ensures SinRepetidos(cs[b]) && forall k :: 0 <= k < |cs[b]| ==> cs[b][k].hashcode % |cs| == b && cs[b][k] in s
    {
      FiltraMiembros(s, b, |cs|);
    }
  }

  /** Halfway through a doubling: `pend` is what is left in the old buckets, `nuevas` the new
      buckets, and each new bucket only lacks what is still to move. */
  ghost predicate Reparto<V>(s: seq<HashElement<V>>, pend: seq<seq<HashElement<V>>>, nuevas: seq<seq<HashElement<V>>>)
  {
    && |nuevas| == 2 * |pend| > 0
    && forall u {:trigger Abrir(Invariante, u)} :: Abrir(Invariante, u) ==>
      && SinRepetidos(s)
      && (forall x :: 0 <= x < |pend| ==> SinRepetidos(pend[x]))
      && (forall x, k :: 0 <= x < |pend| && 0 <= k < |pend[x]| ==> pend[x][k].hashcode % |pend| == x)
      && (forall j :: 0 <= j < |nuevas| ==>
            nuevas[j] + Filtra(pend[j % |pend|], j, |nuevas|) == Filtra(s, j, |nuevas|))
  }

  lemma {:induction false} FiltraPrimero<V>(s: seq<HashElement<V>>, b: nat, m: nat)
    requires m > 0 && s != []
    ensures Filtra(s, b, m) == (if s[0].hashcode % m == b then [s[0]] else []) + Filtra(s[1..], b, m)
  {
    if |s| > 1 {
      FiltraPrimero(s[..|s| - 1], b, m);
      assert s[1..][..|s| - 2] == s[..|s| - 1][1..];
    }
  }

  lemma RepartoInicial<V>(s: seq<HashElement<V>>, cs: seq<seq<HashElement<V>>>, nuevas: seq<seq<HashElement<V>>>,
                          hash: string -> nat, actual: int)
    requires Repartidas(s, cs, hash, actual) && |nuevas| == 2 * |cs|
    requires forall j :: 0 <= j < |nuevas| ==> nuevas[j] == []
    ensures Reparto(s, cs, nuevas) && NoVacias(nuevas) == 0
  {
    assert Abrir(Invariante, 0);
    NoVaciasNinguna(nuevas);
    forall b | 0 <= b < |cs|
      ensures SinRepetidos(cs[b]) && forall k :: 0 <= k < |cs[b]| ==> cs[b][k].hashcode % |cs| == b
    {
      FiltraMiembros(s, b, |cs|);
    }
    forall j | 0 <= j < |nuevas|
      ensures nuevas[j] + Filtra(cs[j % |cs|], j, |nuevas|) == Filtra(s, j, |nuevas|)
    {
      forall e | e in s && e.hashcode % |nuevas| == j
        ensures e.hashcode % |cs| == j % |cs|
      {
        ModDoble(e.hashcode, |cs|);
      }
      FiltraFiltra(s, j % |cs|, |cs|, j, |nuevas|);
    }
  }

  lemma RepartoFinal<V>(s: seq<HashElement<V>>, pend: seq<seq<HashElement<V>>>, nuevas: seq<seq<HashElement<V>>>,
                        cs: seq<seq<HashElement<V>>>, hash: string -> nat, antes: int)
    requires Reparto(s, pend, nuevas) && Repartidas(s, cs, hash, antes) && forall x :: 0 <= x < |pend| ==> pend[x] == []
    ensures Repartidas(s, nuevas, hash, NoVacias(nuevas))
  {
    assert Abrir(Invariante, 0);
  }

  /** Nothing that already moved is still pending, and the new buckets share no node. */
  lemma RepartoSepara<V>(s: seq<HashElement<V>>, pend: seq<seq<HashElement<V>>>, nuevas: seq<seq<HashElement<V>>>,
                         j: nat, u: HashElement<V>)
    requires Reparto(s, pend, nuevas) && j < |nuevas| && u in nuevas[j]
    ensures u.hashcode % |nuevas| == j && u in s && SinRepetidos(nuevas[j])
    ensures forall x :: 0 <= x < |pend| ==> u !in pend[x]
  {
    assert Abrir(Invariante, 0);
    var m, n := |pend|, |nuevas|;
    var f := Filtra(pend[j % m], j, n);
    var todo := nuevas[j] + f;
    FiltraMiembros(s, j, n);
    FiltraMiembros(pend[j % m], j, n);
    assert SinRepetidos(todo) && u in todo;
    forall a, b | 0 <= a < b < |nuevas[j]|
      ensures nuevas[j][a] != nuevas[j][b]
    {
      assert todo[a] != todo[b];
    }
    ModDoble(u.hashcode, m);
    var a :| 0 <= a < |nuevas[j]| && nuevas[j][a] == u;
    forall b | 0 <= b < |f|
      ensures f[b] != u
    {
      assert todo[a] != todo[|nuevas[j]| + b];
    }
    assert u !in pend[j % m];
    assert forall x, k :: 0 <= x < m && 0 <= k < |pend[x]| && pend[x][k] == u ==> x == u.hashcode % m;
  }

  /** Moving the first pending node of a bucket to the end of its new bucket. */
  lemma RepartoMueve<V>(s: seq<HashElement<V>>, pend: seq<seq<HashElement<V>>>, nuevas: seq<seq<HashElement<V>>>,
                        i: nat)
    requires Reparto(s, pend, nuevas) && i < |pend| && pend[i] != []
    ensures var e := pend[i][0]; var j := e.hashcode % |nuevas|;
      Reparto(s, pend[i := pend[i][1..]], nuevas[j := nuevas[j] + [e]])
  {
    assert Abrir(Invariante, 0);
    var m, n, e := |pend|, |nuevas|, pend[i][0];
    var j := e.hashcode % n;
    var p', n' := pend[i := pend[i][1..]], nuevas[j := nuevas[j] + [e]];
    ModDoble(e.hashcode, m);
    forall y | 0 <= y < n
      ensures n'[y] + Filtra(p'[y % m], y, n) == Filtra(s, y, n)
    {
      if y % m == i {
        FiltraPrimero(pend[i], y, n);
        if y == j {
          assert nuevas[y] + ([e] + Filtra(pend[i][1..], y, n)) == n'[y] + Filtra(pend[i][1..], y, n);
        } else {
          assert [] + Filtra(pend[i][1..], y, n) == Filtra(pend[i][1..], y, n);
        }
      }
    }
  }

  /** What the move of pend[i][0] writes to: the node itself and the last node of its new
      bucket. No other bucket, old or new, holds either. */
  lemma RepartoAjeno<V>(s: seq<HashElement<V>>, pend: seq<seq<HashElement<V>>>, nuevas: seq<seq<HashElement<V>>>,
                        i: nat)
    requires Reparto(s, pend, nuevas) && i < |pend| && pend[i] != []
    ensures forall x, k :: 0 <= x < |nuevas| && 0 <= k < |nuevas[x]| ==> nuevas[x][k] != pend[i][0]
    ensures forall x, k :: 0 <= x < |pend| && 0 <= k < |pend[x]| && pend[x][k] == pend[i][0] ==> x == i && k == 0
    ensures var q := nuevas[pend[i][0].hashcode % |nuevas|]; q != [] ==>
      && (forall x, k :: 0 <= x < |nuevas| && 0 <= k < |nuevas[x]| && nuevas[x][k] == q[|q| - 1] ==>
            x == pend[i][0].hashcode % |nuevas| && k == |q| - 1)
      && (forall x, k :: 0 <= x < |pend| && 0 <= k < |pend[x]| ==> pend[x][k] != q[|q| - 1])
  {
    assert Abrir(Invariante, 0);
    var e := pend[i][0];
    var j := e.hashcode % |nuevas|;
    forall x, k | 0 <= x < |nuevas| && 0 <= k < |nuevas[x]|
      ensures nuevas[x][k] != e && nuevas[x][k].hashcode % |nuevas| == x
    {
      RepartoSepara(s, pend, nuevas, x, nuevas[x][k]);
    }
    var q := nuevas[j];
    if q != [] {
      RepartoSepara(s, pend, nuevas, j, q[|q| - 1]);
    }
  }

  // ---------------------------------------------------------------- the table

  class Diccionario<V> {
    const hash: string -> nat
    var elements: array<HashElement?<V>>
    var table_max_size: int
    var table_current_size: int
    var elements_amount: int
    // All the nodes, oldest first; the nodes of each bucket; and how many of the entries
    // removed so far had null data.
    ghost var entradas: seq<HashElement<V>>
    ghost var cubetas: seq<seq<HashElement<V>>>
    ghost var nulosQuitados: nat

    /** Everything but elements_amount, which is updated apart. */
    ghost predicate Estructura()
      reads this, elements, entradas`next
    {
      && table_max_size == |cubetas|
      && Repartidas(entradas, cubetas, hash, table_current_size)
      && Ligada(elements, cubetas, entradas)
    }

    ghost predicate Valid()
      reads this, elements, entradas`next
    {
      Estructura() && elements_amount == |entradas| + nulosQuitados
    }

    /** The table starts with DEFAULT_DICTIONARY_INITIAL_SIZE empty buckets. */
    constructor (hash: string -> nat, initialSize: nat)
      requires initialSize > 0
      ensures Valid() && entradas == [] && nulosQuitados == 0 && this.hash == hash && fresh(elements)
    {
      this.hash := hash;
      elements := new HashElement?<V>[initialSize](_ => null);
      table_max_size, table_current_size, elements_amount := initialSize, 0, 0;
      entradas, cubetas, nulosQuitados := [], seq(initialSize, _ => []), 0;
      new;
      NoVaciasNinguna(cubetas);
    }

    // -------------------------------------------------------------- look-up

    /** The oldest node with the key's hash code, or null. */
    method GetElement(key: string) returns (element: HashElement?<V>)
      requires Valid()
      ensures var k := PosHash(entradas, hash(key));
        element == if k < |entradas| then entradas[k] else null
    {
      assert Abrir(Invariante, 0);
      var key_hash := hash(key);
      var index := key_hash % table_max_size;
      element := RecorrerCubeta(elements[index], key_hash, cubetas[index], entradas);
      PosHashEnCubeta(entradas, key_hash, |cubetas|);
    }

    /** Walks a bucket from its head to the first node with a hash code. */
    static method RecorrerCubeta(cabeza: HashElement?<V>, key_hash: nat, ghost q: seq<HashElement<V>>,
                                 ghost todos: seq<HashElement<V>>) returns (element: HashElement?<V>)
      requires cabeza == Cabeza(q) && Enlazada(q, todos)
      ensures var k := PosHash(q, key_hash);
        element == if k < |q| then q[k] else null
    {
      element := cabeza;
      ghost var k := 0;
      while element != null && element.hashcode != key_hash
        invariant 0 <= k <= |q| && element == (if k < |q| then q[k] else null)
        invariant forall j :: 0 <= j < k ==> q[j].hashcode != key_hash
        decreases |q| - k
      {
        assert q[k].next == Sucesor(q, k);
        element := element.next;
        k := k + 1;
      }
      PosHashUnica(q, key_hash, k);
    }

    method Get(key: string) returns (data: Opcion<V>)
      requires Valid()
      ensures var k := PosHash(entradas, hash(key));
        data == if k < |entradas| then entradas[k].data else Nada
    {
      var element := GetElement(key);
      data := if element != null then element.data else Nada;
    }

    /** The keys themselves are never compared: a key is present as soon as one with the same
        hash code is. */
    method HasKey(key: string) returns (b: bool)
      requires Valid()
      ensures b <==> exists e :: e in entradas && hash(e.key) == hash(key)
    {
      var element := GetElement(key);
      assert Abrir(Invariante, 0);
      b := element != null;
    }

    method Size() returns (n: int)
      requires Valid()
      ensures n == |entradas| <==> nulosQuitados == 0
      ensures n == |entradas| + nulosQuitados
    {
      n := elements_amount;
    }

    // -------------------------------------------------------------- insertion

    /** The last node of a bucket that is not empty. */
    static method Ultimo(cabeza: HashElement<V>, ghost q: seq<HashElement<V>>, ghost todos: seq<HashElement<V>>)
      returns (element: HashElement<V>)
      requires q != [] && cabeza == q[0] && Enlazada(q, todos)
      ensures element == q[|q| - 1]
    {
      element := cabeza;
      ghost var k := 0;
      while element.next != null
        invariant 0 <= k < |q| && element == q[k]
        decreases |q| - k
      {
        element := element.next;
        k := k + 1;
      }
    }

    /** Adds an entry, even when the key is already present. The table doubles when the new
        entry opens a bucket and no bucket is left empty. */
    method Put(key: string, data: Opcion<V>)
      requires Valid()
      modifies this, elements, entradas`next
      ensures Valid() && nulosQuitados == old(nulosQuitados)
      ensures |entradas| == |old(entradas)| + 1 && entradas[..|old(entradas)|] == old(entradas)
      ensures var e := entradas[|old(entradas)|];
        e.key == key && e.hashcode == hash(key) && e.data == data && fresh(e)
      ensures elements == old(elements) || fresh(elements)
      ensures table_max_size ==
        if old(elements[hash(key) % table_max_size] == null && table_current_size + 1 >= table_max_size)
        then 2 * old(table_max_size) else old(table_max_size)
    {
      var key_hash := hash(key);
      var index := key_hash % table_max_size;
      var new_element := new HashElement(key, key_hash, data);
      var abre := Agregar(index, new_element);
      if abre && table_current_size >= table_max_size {
        Resize(table_max_size * 2);
      }
      elements_amount := elements_amount + 1;
    }

    /** Links the last node of a bucket, which is in no other place, to a new one. */
    static method Enlazar(t: array<HashElement?<V>>, index: nat, ultimo: HashElement<V>, nuevo: HashElement<V>,
                          ghost cs: seq<seq<HashElement<V>>>, ghost todos: seq<HashElement<V>>)
      requires index < |cs| && cs[index] != [] && ultimo == cs[index][|cs[index]| - 1]
      requires Ligada(t, cs, todos)
      requires forall b, k :: 0 <= b < |cs| && 0 <= k < |cs[b]| && cs[b][k] == ultimo ==>
        b == index && k == |cs[index]| - 1
      modifies ultimo`next
      ensures CasiLigada(t, cs, index, nuevo, todos)
    {
      assert Abrir(Invariante, 0);
      ghost var q := cs[index];
      assert Enlazada(q, todos);
      ultimo.next := nuevo;
      forall b | 0 <= b < |cs| && b != index
        ensures Enlazada(cs[b], todos)
      {
        assert old(Enlazada(cs[b], todos));
      }
      forall k | 0 <= k < |q|
        ensures q[k] in todos && q[k].next == Sucesor(q + [nuevo], k)
      {
        assert k < |q| - 1 ==> q[k] != ultimo;
      }
    }

    /** Hangs a node after the last one of a bucket that is not empty. */
    static method ColgarUltimo(t: array<HashElement?<V>>, index: nat, nuevo: HashElement<V>,
                               ghost cs: seq<seq<HashElement<V>>>,
                               ghost otras: seq<seq<HashElement<V>>>, ghost todos: seq<HashElement<V>>)
      requires index < |cs| && Ligada(t, cs, todos) && ColaUnica(cs, index) && Enlazadas(otras, todos)
      requires t[index] != null
      requires forall b, k :: 0 <= b < |otras| && 0 <= k < |otras[b]| ==> otras[b][k] !in Cola(cs[index])
      modifies Cola(cs[index])`next
      ensures cs[index] != [] && CasiLigada(t, cs, index, nuevo, todos) && Enlazadas(otras, todos)
    {
      assert t[index] == Cabeza(cs[index]) && Enlazada(cs[index], todos) by {
        assert Abrir(Invariante, 0);
      }
      var element := Ultimo(t[index], cs[index], todos);
      Enlazar(t, index, element, nuevo, cs, todos);
    }

    /** Hangs a node from the head of an empty bucket. */
    static method ColgarPrimero(t: array<HashElement?<V>>, index: nat, nuevo: HashElement<V>,
                                ghost cs: seq<seq<HashElement<V>>>,
                                ghost todos: seq<HashElement<V>>)
      requires index < |cs| && Ligada(t, cs, todos) && t[index] == null
      modifies t
      ensures cs[index] == [] && CasiLigada(t, cs, index, nuevo, todos)
    {
      assert Abrir(Invariante, 0);
      t[index] := nuevo;
    }

    /** Hangs a node at the end of a bucket; says whether the bucket was empty, and then counts it. */
    method Colgar(t: array<HashElement?<V>>, index: nat, nuevo: HashElement<V>, ghost cs: seq<seq<HashElement<V>>>,
                  ghost otras: seq<seq<HashElement<V>>>, ghost todos: seq<HashElement<V>>) returns (abre: bool)
      requires index < |cs| && Ligada(t, cs, todos) && ColaUnica(cs, index) && Enlazadas(otras, todos)
      requires forall b, k :: 0 <= b < |otras| && 0 <= k < |otras[b]| ==> otras[b][k] !in Cola(cs[index])
      modifies this`table_current_size, t, Cola(cs[index])`next
      ensures table_current_size == old(table_current_size) + (if abre then 1 else 0)
      ensures abre == (cs[index] == []) == (old(t[index]) == null)
      ensures CasiLigada(t, cs, index, nuevo, todos) && Enlazadas(otras, todos)
    {
      var element := t[index];
      abre := element == null;
      if abre {
        ColgarPrimero(t, index, nuevo, cs, todos);
        table_current_size := table_current_size + 1;
      } else {
        ColgarUltimo(t, index, nuevo, cs, otras, todos);
      }
    }

    /** A new node goes to the end of its bucket; says whether the bucket was empty. */
    method Enganchar(index: nat, new_element: HashElement<V>) returns (abre: bool)
      requires Estructura() && index < |cubetas| && new_element.next == null && new_element !in entradas
      requires new_element.hashcode == hash(new_element.key) && new_element.hashcode % |cubetas| == index
      modifies this`table_current_size, elements, entradas`next
      ensures abre == (old(elements[index]) == null)
      ensures table_current_size == old(table_current_size) + (if abre then 1 else 0)
      ensures Ligada(elements, cubetas[index := cubetas[index] + [new_element]], entradas + [new_element])
      ensures Repartidas(entradas + [new_element], cubetas[index := cubetas[index] + [new_element]], hash,
                         table_current_size)
    {
      ghost var s, cs := entradas, cubetas;
      CubetasSeparadas(s, cs, hash, table_current_size, index);
      RepartidasAgrega(s, cs, hash, table_current_size, new_element, index);
      abre := Colgar(elements, index, new_element, cs, [], s);
      LigadaConUltimo(elements, cs, index, new_element, s, s + [new_element]);
    }

    method Agregar(index: nat, new_element: HashElement<V>) returns (abre: bool)
      requires Estructura() && index < |cubetas| && new_element.next == null && new_element !in entradas
      requires new_element.hashcode == hash(new_element.key) && new_element.hashcode % |cubetas| == index
      modifies this`entradas, this`cubetas, this`table_current_size, elements, entradas`next
      ensures Estructura() && entradas == old(entradas) + [new_element]
      ensures abre == (old(elements[index]) == null)
      ensures table_current_size == old(table_current_size) + (if abre then 1 else 0)
    {
      abre := Enganchar(index, new_element);
      entradas, cubetas := entradas + [new_element], cubetas[index := cubetas[index] + [new_element]];
    }

    // -------------------------------------------------------------- doubling

    /** Cuts a moved node loose from the bucket it came from. */
    static method SoltarPrimero(t: array<HashElement?<V>>, e: HashElement<V>, ghost j: nat,
                                ghost pend: seq<seq<HashElement<V>>>,
                                ghost nuevas: seq<seq<HashElement<V>>>, ghost i: nat, ghost s: seq<HashElement<V>>)
      returns (next_element: HashElement?<V>)
      requires i < |pend| && pend[i] != [] && e == pend[i][0] && Enlazadas(pend, s) && CasiLigada(t, nuevas, j, e, s)
      requires forall x, k :: 0 <= x < |nuevas| && 0 <= k < |nuevas[x]| ==> nuevas[x][k] != e
      requires forall x, k :: 0 <= x < |pend| && 0 <= k < |pend[x]| && pend[x][k] == e ==> x == i && k == 0
      modifies e`next
      ensures next_element == Cabeza(pend[i][1..])
      ensures Ligada(t, nuevas[j := nuevas[j] + [e]], s) && Enlazadas(pend[i := pend[i][1..]], s)
    {
      assert Enlazada(pend[i], s);
      next_element := e.next;
      e.next := null;
      LigadaConUltimo(t, nuevas, j, e, s, s);
    }

    /** Moves one node to the end of its bucket of the new table. */
    method MoverNodo(t: array<HashElement?<V>>, e: HashElement<V>, n: int, ghost pend: seq<seq<HashElement<V>>>,
                     ghost nuevas: seq<seq<HashElement<V>>>, ghost i: nat, ghost s: seq<HashElement<V>>)
      returns (next_element: HashElement?<V>)
      requires Reparto(s, pend, nuevas) && n == |nuevas| && Ligada(t, nuevas, s) && Enlazadas(pend, s)
      requires i < |pend| && pend[i] != [] && e == pend[i][0]
      modifies this`table_current_size, t, s`next
      ensures next_element == Cabeza(pend[i][1..])
      ensures var j := e.hashcode % n;
        && table_current_size == old(table_current_size) + (if nuevas[j] == [] then 1 else 0)
        && Ligada(t, nuevas[j := nuevas[j] + [e]], s) && Enlazadas(pend[i := pend[i][1..]], s)
    {
      assert Abrir(Invariante, 0);
      RepartoAjeno(s, pend, nuevas, i);
      var j := e.hashcode % n;
      assert Enlazada(nuevas[j], s);
      var _ := Colgar(t, j, e, nuevas, pend, s);
      next_element := SoltarPrimero(t, e, j, pend, nuevas, i, s);
    }

    /** The state in the middle of a doubling. */
    ghost predicate AMedias(t: array<HashElement?<V>>, pend: seq<seq<HashElement<V>>>,
                            nuevas: seq<seq<HashElement<V>>>, s: seq<HashElement<V>>, actual: int)
      reads t, s`next
    {
      Reparto(s, pend, nuevas) && Ligada(t, nuevas, s) && Enlazadas(pend, s) && actual == NoVacias(nuevas)
    }

    /** Empties one bucket of the old table. */
    method VaciarCubeta(new_table: array<HashElement?<V>>, old_element: HashElement?<V>, new_max_size: int,
                        ghost pend0: seq<seq<HashElement<V>>>, ghost nuevas0: seq<seq<HashElement<V>>>, ghost i: nat)
      returns (ghost pend: seq<seq<HashElement<V>>>, ghost nuevas: seq<seq<HashElement<V>>>)
      requires AMedias(new_table, pend0, nuevas0, entradas, table_current_size) && new_max_size == |nuevas0|
      requires i < |pend0| && old_element == Cabeza(pend0[i])
      modifies this`table_current_size, new_table, entradas`next
      ensures |nuevas| == |nuevas0| && pend == pend0[i := []]
      ensures AMedias(new_table, pend, nuevas, entradas, table_current_size)
    {
      pend, nuevas := pend0, nuevas0;
      var element := old_element;
      while element != null
        invariant |nuevas| == new_max_size && i < |pend| && pend == pend0[i := pend[i]]
        invariant AMedias(new_table, pend, nuevas, entradas, table_current_size)
        invariant element == Cabeza(pend[i])
        decreases |pend[i]|
      {
        RepartoMueve(entradas, pend, nuevas, i);
        ghost var j := element.hashcode % new_max_size;
        NoVaciasAgrega(nuevas, j, element);
        var next_element := MoverNodo(new_table, element, new_max_size, pend, nuevas, i, entradas);
        nuevas, pend := nuevas[j := nuevas[j] + [element]], pend[i := pend[i][1..]];
        element := next_element;
      }
    }

    /** Empties every bucket of the old table. */
    method VaciarTabla(old_table: array<HashElement?<V>>, new_table: array<HashElement?<V>>, new_max_size: int,
                       ghost pend0: seq<seq<HashElement<V>>>, ghost nuevas0: seq<seq<HashElement<V>>>)
      returns (ghost pend: seq<seq<HashElement<V>>>, ghost nuevas: seq<seq<HashElement<V>>>)
      requires AMedias(new_table, pend0, nuevas0, entradas, table_current_size) && new_max_size == |nuevas0|
      requires table_max_size == old_table.Length == |pend0| && old_table != new_table
      requires forall x :: 0 <= x < |pend0| ==> old_table[x] == Cabeza(pend0[x])
      modifies this`table_current_size, new_table, entradas`next
      ensures |pend| == |pend0| && |nuevas| == |nuevas0| && forall x :: 0 <= x < |pend| ==> pend[x] == []
      ensures AMedias(new_table, pend, nuevas, entradas, table_current_size)
    {
      pend, nuevas := pend0, nuevas0;
      var table_index := 0;
      while table_index < table_max_size
        invariant 0 <= table_index <= table_max_size == |pend| && |nuevas| == new_max_size
        invariant AMedias(new_table, pend, nuevas, entradas, table_current_size)
        invariant forall x :: 0 <= x < |pend| ==> pend[x] == if x < table_index then [] else pend0[x]
      {
        pend, nuevas := VaciarCubeta(new_table, old_table[table_index], new_max_size, pend, nuevas, table_index);
        table_index := table_index + 1;
      }
    }

    /** A table of twice the size with every node moved to it, and its count of buckets in use. */
    method Mudar(new_max_size: int) returns (new_table: array<HashElement?<V>>, ghost nuevas: seq<seq<HashElement<V>>>)
      requires Estructura() && new_max_size == 2 * table_max_size
      modifies this`table_current_size, entradas`next
      ensures fresh(new_table) && |nuevas| == new_max_size && Ligada(new_table, nuevas, entradas)
      ensures Repartidas(entradas, nuevas, hash, table_current_size)
    {
      ghost var actual := table_current_size;
      new_table := new HashElement?<V>[new_max_size](_ => null);
      table_current_size := 0;
      nuevas := seq(new_max_size, _ => []);
      RepartoInicial(entradas, cubetas, nuevas, hash, actual);
      LigadaInicial(elements, cubetas, new_table, nuevas, entradas);
      ghost var pend;
      pend, nuevas := VaciarTabla(elements, new_table, new_max_size, cubetas, nuevas);
      RepartoFinal(entradas, pend, nuevas, cubetas, hash, actual);
    }

    /** Doubles the table: the entries, and so every look-up, stay as they were. */
    method Resize(new_max_size: int)
      requires Estructura() && new_max_size == 2 * table_max_size
      modifies this`elements, this`table_max_size, this`table_current_size, this`cubetas, entradas`next
      ensures Estructura() && table_max_size == new_max_size && fresh(elements)
    {
      elements, cubetas := Mudar(new_max_size);
      table_max_size := new_max_size;
    }

    // -------------------------------------------------------------- removal

    /** Unlinks the first node with a hash code after the head of a bucket. */
    static method QuitarDeCubeta(cabeza: HashElement<V>, key_hash: nat, ghost q: seq<HashElement<V>>,
                                 ghost todos: seq<HashElement<V>>) returns (data: Opcion<V>)
      requires q != [] && cabeza == q[0] && q[0].hashcode != key_hash && Enlazada(q, todos) && SinRepetidos(q)
      modifies q`next
      ensures var k := PosHash(q, key_hash);
        if k < |q| then k > 0 && data == q[k].data && Enlazada(SinIndice(q, k), todos)
        else data == Nada && Enlazada(q, todos)
    {
      var element := cabeza;
      ghost var k := 0;
      while element.next != null
        invariant 0 <= k < |q| && element == q[k] && Enlazada(q, todos)
        invariant forall j :: 0 <= j <= k ==> q[j].hashcode != key_hash
        decreases |q| - k
      {
        if element.next.hashcode == key_hash {
          PosHashUnica(q, key_hash, k + 1);
          data := element.next.data;
          element.next := element.next.next;
          return;
        }
        element := element.next;
        k := k + 1;
      }
      PosHashUnica(q, key_hash, |q|);
      data := Nada;
    }

    /** Takes the head out of its bucket; says whether the bucket is left empty. */
    static method QuitarCabeza(t: array<HashElement?<V>>, index: nat, element: HashElement<V>,
                               ghost cs: seq<seq<HashElement<V>>>,
                               ghost todos: seq<HashElement<V>>) returns (cierra: bool)
      requires index < |cs| && Ligada(t, cs, todos) && cs[index] != [] && element == cs[index][0]
      modifies t
      ensures cierra == (|cs[index]| == 1) && Ligada(t, cs[index := SinIndice(cs[index], 0)], todos)
    {
      assert Abrir(Invariante, 0);
      ghost var q := cs[index];
      assert Enlazada(q, todos);
      t[index] := element.next;
      cierra := t[index] == null;
      assert SinIndice(q, 0) == q[1..];
    }

    /** Takes out of its bucket the first node with a hash code, which is not the head. */
    static method QuitarDelResto(t: array<HashElement?<V>>, index: nat, element: HashElement<V>, key_hash: nat,
                                 ghost cs: seq<seq<HashElement<V>>>, ghost todos: seq<HashElement<V>>)
      returns (data: Opcion<V>)
      requires index < |cs| && Ligada(t, cs, todos) && SinRepetidos(cs[index])
      requires forall b, k :: 0 <= b < |cs| && 0 <= k < |cs[b]| && b != index ==> cs[b][k] !in cs[index]
      requires cs[index] != [] && element == cs[index][0] && element.hashcode != key_hash
      modifies cs[index]`next
      ensures var q := cs[index]; var k := PosHash(q, key_hash);
        if k < |q| then |q| > 1 && data == q[k].data && Ligada(t, cs[index := SinIndice(q, k)], todos)
        else data == Nada && Ligada(t, cs, todos)
    {
      assert Abrir(Invariante, 0);
      ghost var q := cs[index];
      assert Enlazada(q, todos);
      data := QuitarDeCubeta(element, key_hash, q, todos);
      forall b | 0 <= b < |cs| && b != index
        ensures Enlazada(cs[b], todos)
      {
        assert old(Enlazada(cs[b], todos));
      }
      ghost var k := PosHash(q, key_hash);
      if k < |q| {
        LigadaCambia(t, cs, index, SinIndice(q, k), todos);
      } else {
        LigadaCambia(t, cs, index, q, todos);
        assert cs[index := q] == cs;
      }
    }

    /** Takes the first node with a hash code out of a bucket. */
    static method QuitarDeTabla(t: array<HashElement?<V>>, index: nat, key_hash: nat,
                                ghost cs: seq<seq<HashElement<V>>>,
                                ghost todos: seq<HashElement<V>>) returns (data: Opcion<V>, cierra: bool)
      requires index < |cs| && Ligada(t, cs, todos) && SinRepetidos(cs[index]) && t[index] == Cabeza(cs[index])
      requires forall b, k :: 0 <= b < |cs| && 0 <= k < |cs[b]| && b != index ==> cs[b][k] !in cs[index]
      modifies t, cs[index]`next
      ensures var q := cs[index]; var k := PosHash(q, key_hash);
        if k < |q| then
          data == q[k].data && cierra == (|q| == 1) && Ligada(t, cs[index := SinIndice(q, k)], todos)
        else data == Nada && !cierra && Ligada(t, cs, todos)
    {
      var element := t[index];
      if element == null {
        return Nada, false;
      }
      if element.hashcode == key_hash {
        PosHashUnica(cs[index], key_hash, 0);
        data := element.data;
        cierra := QuitarCabeza(t, index, element, cs, todos);
      } else {
        data := QuitarDelResto(t, index, element, key_hash, cs, todos);
        cierra := false;
      }
    }

    /** The same for the table's own buckets, counting the bucket out when it is left empty. */
    method Desenganchar(index: nat, key_hash: nat) returns (data: Opcion<V>)
      requires Estructura() && index == key_hash % |cubetas|
      modifies this`table_current_size, elements, entradas`next
      ensures PosHash(entradas, key_hash) == |entradas| ==>
        data == Nada && Ligada(elements, cubetas, entradas) && table_current_size == old(table_current_size)
      ensures var p, k := PosHash(entradas, key_hash), PosHash(cubetas[index], key_hash); p < |entradas| ==>
        && k < |cubetas[index]| && data == entradas[p].data
        && Ligada(elements, cubetas[index := SinIndice(cubetas[index], k)], SinIndice(entradas, p))
        && Repartidas(SinIndice(entradas, p), cubetas[index := SinIndice(cubetas[index], k)], hash, table_current_size)
    {
      ghost var s, cs, actual := entradas, cubetas, table_current_size;
      ghost var p, k := PosHash(s, key_hash), PosHash(cs[index], key_hash);
      CubetasSeparadas(s, cs, hash, actual, index);
      RepartidasQuita(s, cs, hash, actual, key_hash, index);
      assert elements[index] == Cabeza(cs[index]) by {
        assert Abrir(Invariante, 0);
      }
      var cierra;
      data, cierra := QuitarDeTabla(elements, index, key_hash, cs, s);
      if cierra {
        table_current_size := table_current_size - 1;
      }
      if p < |s| {
        LigadaMenos(elements, cs[index := SinIndice(cs[index], k)], s, SinIndice(s, p), hash, table_current_size);
      }
    }

    /** Removes the oldest entry with the key's hash code, and no other. */
    method RemoveElement(key: string) returns (data: Opcion<V>)
      requires Estructura()
      modifies this`entradas, this`cubetas, this`table_current_size, elements, entradas`next
      ensures Estructura()
      ensures var k := PosHash(old(entradas), hash(key));
        if k < |old(entradas)| then data == old(entradas)[k].data && entradas == SinIndice(old(entradas), k)
        else data == Nada && entradas == old(entradas)
    {
      var key_hash := hash(key);
      var index := key_hash % table_max_size;
      ghost var p, k := PosHash(entradas, key_hash), PosHash(cubetas[index], key_hash);
      data := Desenganchar(index, key_hash);
      if p < |entradas| {
        entradas, cubetas := SinIndice(entradas, p), cubetas[index := SinIndice(cubetas[index], k)];
      }
    }

    /** elements_amount only goes down when the data removed was not null. */
    method Remove(key: string) returns (data: Opcion<V>)
      requires Valid()
      modifies this, elements, entradas`next
      ensures Valid()
      ensures var k := PosHash(old(entradas), hash(key));
        if k < |old(entradas)|
        then data == old(entradas)[k].data && entradas == SinIndice(old(entradas), k)
          && nulosQuitados == old(nulosQuitados) + (if data == Nada then 1 else 0)
        else data == Nada && entradas == old(entradas) && nulosQuitados == old(nulosQuitados)
    {
      ghost var antes := |entradas|;
      data := RemoveElement(key);
      if data != Nada {
        elements_amount := elements_amount - 1;
      } else {
        nulosQuitados := nulosQuitados + antes - |entradas|;
      }
    }
  }

  /** The count is not the number of entries once an entry with null data has been removed. */
  method QuitarNuloDescuenta(hash: string -> nat, initialSize: nat, key: string) returns (d: Diccionario<int>)
    requires initialSize > 1
    ensures d.Valid() && d.entradas == [] && d.elements_amount == 1
  {
    d := new Diccionario<int>(hash, initialSize);
    d.Put(key, Nada);
    PosHashUnica(d.entradas, hash(key), 0);
    var _ := d.Remove(key);
  }
}
