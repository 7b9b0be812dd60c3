/**
 The OSADA disk as a value, and the invariant its tables rest on.

 A disk is the free-block bitmap, the allocation table that links blocks into chains, the
 data blocks and the file table. The invariant `Consistente` ties them together through a
 ghost layout: the chain of every file and the place of every block. A block is free, on a
 chain, or lost: marked in the bitmap but on no chain.
 */
module OsadaDisco {
  const TAM_BLOQUE := 64
  const MAX_ARCHIVOS := 2048
  const BLOQUE_NULO: nat := 0xFFFF_FFFF
  const DIRECTORIO_NULO: nat := 0xFFFF
  const LARGO_NOMBRE := 17
  // A volume under 4 GiB, so that 32-bit sizes and block numbers never wrap.
  const MAX_BLOQUES := 0x400_0000

  type Byte = x: int | 0 <= x < 256
  type Bloque = b: seq<Byte> | |b| == TAM_BLOQUE witness seq(TAM_BLOQUE, _ => 0)
  type Nombre = n: seq<Byte> | |n| == LARGO_NOMBRE witness seq(LARGO_NOMBRE, _ => 0)

  datatype EstadoArchivo = Borrado | Regular | Directorio

  datatype Entrada = Entrada(estado: EstadoArchivo, nombre: Nombre, padre: nat, tam: nat, primero: nat)

  datatype Disco = Disco(admin: nat, bits: seq<bool>, fat: seq<nat>, datos: seq<Bloque>, tabla: seq<Entrada>) {
    /** The number of data blocks. */
    function N(): nat { |fat| }

    ghost predicate Forma() {
      && |bits| == admin + N() && |datos| == N() && |tabla| == MAX_ARCHIVOS
      && N() < MAX_BLOQUES
    }

    ghost predicate Ocupado(b: nat)
      requires Forma() && b < N()
    {
      bits[admin + b]
    }

    ghost function Libres(): set<nat>
      requires Forma()
    {
      set b: nat | b < N() && !Ocupado(b)
    }
  }

  function BloqueCero(): (b: Bloque)
    ensures forall i :: 0 <= i < TAM_BLOQUE ==> b[i] == 0
  {
    seq(TAM_BLOQUE, i => 0)
  }

  /** Where a block is: free, lost, or the k-th block of file f. */
  datatype Lugar = Libre | Perdido | En(f: nat, k: nat)

  datatype Plano = Plano(cadenas: seq<seq<nat>>, lugar: seq<Lugar>) {
    ghost function Perdidos(): set<nat> {
      set b: nat | b < |lugar| && lugar[b].Perdido?
    }
  }

  /** What follows position k of a chain. */
  function Siguiente(c: seq<nat>, k: nat): nat {
    if k + 1 < |c| then c[k + 1] else BLOQUE_NULO
  }

  /** `c` is the chain the allocation table links from `primero`. */
  ghost predicate EsCadena(fat: seq<nat>, primero: nat, c: seq<nat>) {
    && primero == (if c == [] then BLOQUE_NULO else c[0])
    && (forall k :: 0 <= k < |c| ==> c[k] < |fat|)
    && (forall k {:trigger fat[c[k]]} :: 0 <= k < |c| ==> fat[c[k]] == Siguiente(c, k))
  }

  ghost predicate Dimensiones(d: Disco, p: Plano) {
    d.Forma() && |p.cadenas| == MAX_ARCHIVOS && |p.lugar| == d.N()
  }

  ghost predicate Enlazadas(d: Disco, p: Plano)
    requires Dimensiones(d, p)
  {
    forall f :: 0 <= f < MAX_ARCHIVOS ==> EsCadena(d.fat, d.tabla[f].primero, p.cadenas[f])
  }

  /** Chains and places are inverse to each other, so chains are acyclic and disjoint. */
  ghost predicate Ubicados(d: Disco, p: Plano)
    requires Dimensiones(d, p)
  {
    && (forall f, k :: 0 <= f < MAX_ARCHIVOS && 0 <= k < |p.cadenas[f]| ==>
          p.cadenas[f][k] < d.N() && p.lugar[p.cadenas[f][k]] == En(f, k))
    && (forall b :: 0 <= b < d.N() && p.lugar[b].En? ==> EnSuCadena(p, b))
  }

  ghost predicate EnSuCadena(p: Plano, b: nat)
    requires b < |p.lugar| && p.lugar[b].En?
  {
    && p.lugar[b].f < |p.cadenas| && p.lugar[b].k < |p.cadenas[p.lugar[b].f]|
    && p.cadenas[p.lugar[b].f][p.lugar[b].k] == b
  }

  ghost predicate Marcados(d: Disco, p: Plano)
    requires Dimensiones(d, p)
  {
    forall b :: 0 <= b < d.N() ==> (d.Ocupado(b) <==> !p.lugar[b].Libre?)
  }

  /** Free blocks carry no link and lost blocks link only to lost blocks. */
  ghost predicate SinEnlacesAjenos(d: Disco, p: Plano)
    requires Dimensiones(d, p)
  {
    && (forall b :: 0 <= b < d.N() && p.lugar[b].Libre? ==> d.fat[b] == BLOQUE_NULO)
    && (forall b :: 0 <= b < d.N() && p.lugar[b].Perdido? ==>
          d.fat[b] == BLOQUE_NULO || (d.fat[b] < d.N() && p.lugar[d.fat[b]].Perdido?))
  }

  ghost predicate SoloRegulares(d: Disco, p: Plano)
    requires Dimensiones(d, p)
  {
    forall f :: 0 <= f < MAX_ARCHIVOS && !d.tabla[f].estado.Regular? ==> p.cadenas[f] == []
  }

  ghost predicate Consistente(d: Disco, p: Plano) {
    && Dimensiones(d, p) && Enlazadas(d, p) && Ubicados(d, p) && Marcados(d, p)
    && SinEnlacesAjenos(d, p) && SoloRegulares(d, p)
  }

  /** A disk that can be laid out with no lost block and with every size covered by its chain. */
  ghost predicate Sano(d: Disco, p: Plano) {
    && Consistente(d, p) && p.Perdidos() == {}
    && forall f :: 0 <= f < MAX_ARCHIVOS ==> d.tabla[f].tam <= TAM_BLOQUE * |p.cadenas[f]|
  }

  ghost predicate BienFormado(d: Disco) {
    exists p :: Sano(d, p)
  }

  // ---------------------------------------------------------------- uniqueness

  /** The allocation table determines each chain. */
  lemma {:induction false} CadenaUnica(fat: seq<nat>, primero: nat, c: seq<nat>, c': seq<nat>)
    requires EsCadena(fat, primero, c) && EsCadena(fat, primero, c') && |fat| <= BLOQUE_NULO
    ensures c == c'
    decreases |c|
  {
    if c != [] && c' != [] {
      assert fat[c[0]] == Siguiente(c, 0) == Siguiente(c', 0);
      CadenaResto(fat, primero, c);
      CadenaResto(fat, primero, c');
      CadenaUnica(fat, fat[primero], c[1..], c'[1..]);
      assert c == [c[0]] + c[1..] && c' == [c'[0]] + c'[1..];
    }
  }

  lemma CadenaResto(fat: seq<nat>, primero: nat, c: seq<nat>)
    requires EsCadena(fat, primero, c) && c != []
    ensures EsCadena(fat, fat[primero], c[1..])
  {
  }

  /** A layout is determined by the disk: same chains, same lost blocks. */
  lemma PlanoUnico(d: Disco, p: Plano, q: Plano)
    requires Consistente(d, p) && Consistente(d, q)
    ensures p.cadenas == q.cadenas && p.Perdidos() == q.Perdidos()
  {
    forall f | 0 <= f < MAX_ARCHIVOS
      ensures p.cadenas[f] == q.cadenas[f]
    {
      CadenaUnica(d.fat, d.tabla[f].primero, p.cadenas[f], q.cadenas[f]);
    }
    PerdidosIncluidos(d, p, q);
    PerdidosIncluidos(d, q, p);
  }

  lemma PerdidosIncluidos(d: Disco, p: Plano, q: Plano)
    requires Consistente(d, p) && Consistente(d, q) && p.cadenas == q.cadenas
    ensures p.Perdidos() <= q.Perdidos()
  {
  }

  /** Well-formedness does not depend on the layout at hand. */
  lemma BienFormadoSii(d: Disco, p: Plano)
    requires Consistente(d, p)
    ensures BienFormado(d) <==> Sano(d, p)
  {
    if BienFormado(d) {
      var q :| Sano(d, q);
      PlanoUnico(d, p, q);
    }
  }

  /** What a consistent layout says in plain terms: chains are in range, acyclic and
      pairwise disjoint, and a block that is marked is on exactly one chain unless lost. */
  lemma CadenasDisjuntas(d: Disco, p: Plano, f: nat, j: nat, g: nat, k: nat)
    requires Consistente(d, p) && f < MAX_ARCHIVOS && g < MAX_ARCHIVOS
    requires j < |p.cadenas[f]| && k < |p.cadenas[g]| && p.cadenas[f][j] == p.cadenas[g][k]
    ensures f == g && j == k
  {
  }

  lemma OcupadoSii(d: Disco, p: Plano, b: nat)
    requires Sano(d, p) && b < d.N()
    ensures d.Ocupado(b) <==> exists f, k :: 0 <= f < MAX_ARCHIVOS && 0 <= k < |p.cadenas[f]| && p.cadenas[f][k] == b
  {
    assert b !in p.Perdidos();
    if d.Ocupado(b) {
      assert p.cadenas[p.lugar[b].f][p.lugar[b].k] == b;
    }
  }

  /** The only entry that points at a chain's block is its true predecessor. */
  lemma PredecesorUnico(d: Disco, p: Plano, f: nat, k: nat, x: nat)
    requires Consistente(d, p) && f < MAX_ARCHIVOS && k < |p.cadenas[f]| && x < d.N()
    ensures d.fat[x] == p.cadenas[f][k] <==> k > 0 && x == p.cadenas[f][k - 1]
  {
  }

  /** The last block of a chain links to nothing, and the scan for what points at it can only
      hit the block before it. */
  lemma EnlaceAlUltimo(d: Disco, p: Plano, f: nat)
    requires Consistente(d, p) && f < MAX_ARCHIVOS && p.cadenas[f] != []
    ensures EsCadena(d.fat, d.tabla[f].primero, p.cadenas[f])
    ensures d.fat[p.cadenas[f][|p.cadenas[f]| - 1]] == BLOQUE_NULO
    ensures |p.cadenas[f]| > 1 ==> forall x :: 0 <= x < d.N() ==>
      (d.fat[x] == p.cadenas[f][|p.cadenas[f]| - 1] <==> x == p.cadenas[f][|p.cadenas[f]| - 2])
  {
  }

  // ---------------------------------------------------------------- table updates

  function ConEntrada(d: Disco, f: nat, e: Entrada): Disco
    requires f < |d.tabla|
  {
    Disco(d.admin, d.bits, d.fat, d.datos, d.tabla[f := e])
  }

  lemma LibresConEntrada(d: Disco, f: nat, e: Entrada)
    requires d.Forma() && f < MAX_ARCHIVOS
    ensures ConEntrada(d, f, e).Forma() && ConEntrada(d, f, e).Libres() == d.Libres()
  {
  }

  /** An entry may change in any way that keeps its chain, as long as only regular files own one. */
  lemma CambiarEntrada(d: Disco, p: Plano, f: nat, e: Entrada)
    requires Consistente(d, p) && f < MAX_ARCHIVOS
    requires e.primero == d.tabla[f].primero
    requires e.estado.Regular? || e.primero == BLOQUE_NULO
    ensures Consistente(ConEntrada(d, f, e), p)
  {
  }

  // ---------------------------------------------------------------- reserving

  /** The disk after `reservarNuevoBloque` picks block b. */
  function Reservado(d: Disco, anterior: int, b: nat): Disco
    requires anterior < d.N() && b < d.N() && |d.bits| == d.admin + d.N() && |d.datos| == d.N()
  {
    Disco(d.admin,
          d.bits[d.admin + b := true],
          (if anterior >= 0 then d.fat[anterior := b] else d.fat)[b := BLOQUE_NULO],
          d.datos[b := BloqueCero()],
          d.tabla)
  }

  lemma ReservarOcupa(d: Disco, anterior: int, b: nat) returns (d': Disco)
    requires d.Forma() && anterior < d.N() && b in d.Libres()
    ensures d' == Reservado(d, anterior, b) && d'.Forma()
    ensures forall x: nat :: x < d.N() ==> (d'.Ocupado(x) <==> d.Ocupado(x) || x == b)
    ensures d'.Libres() == d.Libres() - {b} && |d'.Libres()| == |d.Libres()| - 1
  {
    d' := Reservado(d, anterior, b);
    forall x: nat | x < d.N()
      ensures d'.Ocupado(x) <==> d.Ocupado(x) || x == b
    {
    }
    assert d'.Libres() == d.Libres() - {b};
  }

  function AlFinal(p: Plano, f: nat, b: nat): Plano
    requires f < |p.cadenas| && b < |p.lugar|
  {
    Plano(p.cadenas[f := p.cadenas[f] + [b]], p.lugar[b := En(f, |p.cadenas[f]|)])
  }

  lemma AlFinalUbica(d: Disco, p: Plano, f: nat, b: nat)
    requires Dimensiones(d, p) && Ubicados(d, p) && f < MAX_ARCHIVOS && b < d.N() && p.lugar[b].Libre?
    ensures Dimensiones(d, AlFinal(p, f, b)) && Ubicados(d, AlFinal(p, f, b))
    ensures AlFinal(p, f, b).Perdidos() == p.Perdidos()
  {
  }

  lemma MarcadosTrasReservar(d: Disco, p: Plano, f: nat, b: nat)
    requires Consistente(d, p) && f < MAX_ARCHIVOS && p.cadenas[f] != [] && b in d.Libres()
    ensures p.cadenas[f][|p.cadenas[f]| - 1] < d.N()
    ensures var d', p' := Reservado(d, p.cadenas[f][|p.cadenas[f]| - 1], b), AlFinal(p, f, b);
      Dimensiones(d', p') && Marcados(d', p') && SinEnlacesAjenos(d', p')
  {
  }

  /** Reserving a free block after the last block of a chain makes the chain one block longer. */
  lemma ReservarEnCadena(d: Disco, p: Plano, f: nat, b: nat)
    requires Consistente(d, p) && f < MAX_ARCHIVOS && p.cadenas[f] != [] && b in d.Libres()
    ensures p.cadenas[f][|p.cadenas[f]| - 1] < d.N()
    ensures Consistente(Reservado(d, p.cadenas[f][|p.cadenas[f]| - 1], b), AlFinal(p, f, b))
    ensures AlFinal(p, f, b).Perdidos() == p.Perdidos()
  {
    MarcadosTrasReservar(d, p, f, b);
    var d', p' := Reservado(d, p.cadenas[f][|p.cadenas[f]| - 1], b), AlFinal(p, f, b);
    assert p.lugar[b].Libre?;
    AlFinalUbica(d, p, f, b);
    assert Ubicados(d', p');
    forall g | 0 <= g < MAX_ARCHIVOS
      ensures EsCadena(d'.fat, d'.tabla[g].primero, p'.cadenas[g])
    {
      CadenaTrasReservar(d, p, f, b, g);
    }
    assert Enlazadas(d', p');
  }

  lemma CadenaTrasReservar(d: Disco, p: Plano, f: nat, b: nat, g: nat)
    requires Consistente(d, p) && f < MAX_ARCHIVOS && p.cadenas[f] != [] && b in d.Libres() && g < MAX_ARCHIVOS
    ensures EsCadena(Reservado(d, p.cadenas[f][|p.cadenas[f]| - 1], b).fat, d.tabla[g].primero,
                     AlFinal(p, f, b).cadenas[g])
  {
    var c := p.cadenas[f];
    var ult := c[|c| - 1];
    var d', p' := Reservado(d, ult, b), AlFinal(p, f, b);
    var cg := p'.cadenas[g];
    assert p.lugar[b].Libre? && p.lugar[ult] == En(f, |c| - 1);
    assert EsCadena(d.fat, d.tabla[g].primero, p.cadenas[g]);
    forall k | 0 <= k < |cg|
      ensures cg[k] < |d'.fat| && d'.fat[cg[k]] == Siguiente(cg, k)
    {
      if k < |p.cadenas[g]| {
        assert p.lugar[p.cadenas[g][k]] == En(g, k);
        assert d.fat[p.cadenas[g][k]] == Siguiente(p.cadenas[g], k);
      }
    }
  }

  /** A chain survives when no link of its blocks changes. */
  lemma CadenaIntacta(d: Disco, p: Plano, d': Disco, g: nat)
    requires Consistente(d, p) && g < MAX_ARCHIVOS && d'.N() == d.N() && |d'.tabla| == MAX_ARCHIVOS
    requires d'.tabla[g].primero == d.tabla[g].primero
    requires forall x :: 0 <= x < d.N() && p.lugar[x].En? && p.lugar[x].f == g ==> d'.fat[x] == d.fat[x]
    ensures EsCadena(d'.fat, d'.tabla[g].primero, p.cadenas[g])
  {
  }

  /** Reserving a free block after no block, or after a lost one, loses it. */
  lemma ReservarSuelto(d: Disco, p: Plano, anterior: int, b: nat)
    requires Consistente(d, p) && b in d.Libres() && anterior < d.N()
    requires anterior >= 0 ==> p.lugar[anterior].Perdido?
    ensures Consistente(Reservado(d, anterior, b), p.(lugar := p.lugar[b := Perdido]))
    ensures p.(lugar := p.lugar[b := Perdido]).Perdidos() == p.Perdidos() + {b}
  {
    var d' := ReservarOcupa(d, anterior, b);
    var p' := p.(lugar := p.lugar[b := Perdido]);
    assert p.lugar[b].Libre?;
    assert Ubicados(d', p') by {
      forall x | 0 <= x < d.N() && p'.lugar[x].En?
        ensures EnSuCadena(p', x)
      {
        assert EnSuCadena(p, x);
      }
    }
    assert Enlazadas(d', p') by {
      forall g | 0 <= g < MAX_ARCHIVOS
        ensures EsCadena(d'.fat, d'.tabla[g].primero, p'.cadenas[g])
      {
        CadenaIntacta(d, p, d', g);
      }
    }
    assert SinEnlacesAjenos(d', p');
    assert Marcados(d', p');
    assert p'.Perdidos() == p.Perdidos() + {b};
  }

  /** Reserving a block and making it the first of a file that had none. */
  lemma ReservarPrimero(d: Disco, p: Plano, f: nat, b: nat, e: Entrada)
    requires Consistente(d, p) && f < MAX_ARCHIVOS && p.cadenas[f] == [] && b in d.Libres()
    requires e.estado.Regular? && e.primero == b
    ensures AlFinal(p, f, b).Perdidos() == p.Perdidos()
    ensures Consistente(ConEntrada(Reservado(d, -1, b), f, e), AlFinal(p, f, b))
  {
    var r := ReservarOcupa(d, -1, b);
    var d', p' := ConEntrada(r, f, e), AlFinal(p, f, b);
    assert p.lugar[b].Libre?;
    AlFinalUbica(d, p, f, b);
    assert Ubicados(d', p');
    forall x: nat | x < d.N()
      ensures d'.Ocupado(x) == r.Ocupado(x)
    {
    }
    assert Enlazadas(d', p') by {
      forall g | 0 <= g < MAX_ARCHIVOS
        ensures EsCadena(d'.fat, d'.tabla[g].primero, p'.cadenas[g])
      {
        if g != f {
          CadenaIntacta(d, p, d', g);
        }
      }
    }
    assert SinEnlacesAjenos(d', p');
  }

  // ---------------------------------------------------------------- freeing

  function SinUltimo(p: Plano, f: nat): Plano
    requires f < |p.cadenas| && p.cadenas[f] != []
    requires p.cadenas[f][|p.cadenas[f]| - 1] < |p.lugar|
  {
    Plano(p.cadenas[f := p.cadenas[f][..|p.cadenas[f]| - 1]], p.lugar[p.cadenas[f][|p.cadenas[f]| - 1] := Libre])
  }

  function SinBloques(e: Entrada): Entrada {
    Entrada(e.estado, e.nombre, e.padre, e.tam, BLOQUE_NULO)
  }

  /** The disk after the last block of the chain c of file f is unlinked and unmarked. */
  function Liberado(d: Disco, f: nat, c: seq<nat>): Disco
    requires f < |d.tabla| && c != [] && |d.bits| == d.admin + d.N()
    requires forall k :: 0 <= k < |c| ==> c[k] < d.N()
  {
    Disco(d.admin,
          d.bits[d.admin + c[|c| - 1] := false],
          if |c| == 1 then d.fat else d.fat[c[|c| - 2] := BLOQUE_NULO],
          d.datos,
          if |c| == 1 then d.tabla[f := SinBloques(d.tabla[f])] else d.tabla)
  }

  lemma LiberarOcupa(d: Disco, p: Plano, f: nat) returns (d': Disco)
    requires Consistente(d, p) && f < MAX_ARCHIVOS && p.cadenas[f] != []
    ensures EsCadena(d.fat, d.tabla[f].primero, p.cadenas[f])
    ensures d' == Liberado(d, f, p.cadenas[f]) && d'.Forma()
    ensures forall x: nat :: x < d.N() ==> (d'.Ocupado(x) <==> d.Ocupado(x) && x != p.cadenas[f][|p.cadenas[f]| - 1])
    ensures d'.Libres() == d.Libres() + {p.cadenas[f][|p.cadenas[f]| - 1]} && |d'.Libres()| == |d.Libres()| + 1
  {
    var c := p.cadenas[f];
    var b := c[|c| - 1];
    assert EsCadena(d.fat, d.tabla[f].primero, c);
    d' := Liberado(d, f, c);
    assert d.Ocupado(b) by {
      assert p.lugar[b] == En(f, |c| - 1);
    }
    LibresConUnoMas(d, d', b);
  }

  lemma LibresConUnoMas(d: Disco, d': Disco, b: nat)
    requires d.Forma() && d'.Forma() && d'.N() == d.N() && d'.admin == d.admin
    requires b < d.N() && d.Ocupado(b) && d'.bits == d.bits[d.admin + b := false]
    ensures forall x: nat :: x < d.N() ==> (d'.Ocupado(x) <==> d.Ocupado(x) && x != b)
    ensures d'.Libres() == d.Libres() + {b} && |d'.Libres()| == |d.Libres()| + 1
  {
    forall x: nat | x < d.N()
      ensures d'.Ocupado(x) <==> d.Ocupado(x) && x != b
    {
      assert d'.bits[d.admin + x] == if x == b then false else d.bits[d.admin + x];
    }
    assert b !in d.Libres() && d'.Libres() == d.Libres() + {b};
  }

  lemma SinUltimoUbica(d: Disco, p: Plano, f: nat)
    requires Dimensiones(d, p) && Ubicados(d, p) && f < MAX_ARCHIVOS && p.cadenas[f] != []
    ensures p.cadenas[f][|p.cadenas[f]| - 1] < d.N()
    ensures Dimensiones(d, SinUltimo(p, f)) && Ubicados(d, SinUltimo(p, f))
    ensures SinUltimo(p, f).Perdidos() == p.Perdidos()
  {
    var c := p.cadenas[f];
    var b := c[|c| - 1];
    assert p.lugar[b] == En(f, |c| - 1);
    var p' := SinUltimo(p, f);
    forall g, k | 0 <= g < MAX_ARCHIVOS && 0 <= k < |p'.cadenas[g]|
      ensures p'.cadenas[g][k] < d.N() && p'.lugar[p'.cadenas[g][k]] == En(g, k)
    {
      assert p.lugar[p.cadenas[g][k]] == En(g, k);
    }
    forall x | 0 <= x < d.N() && p'.lugar[x].En?
      ensures EnSuCadena(p', x)
    {
      assert EnSuCadena(p, x);
    }
    assert p'.Perdidos() == p.Perdidos();
  }

  /** Freeing the last block of a chain makes the chain one block shorter. */
  lemma LiberarUltimo(d: Disco, p: Plano, f: nat)
    requires Consistente(d, p) && f < MAX_ARCHIVOS && p.cadenas[f] != []
    ensures EsCadena(d.fat, d.tabla[f].primero, p.cadenas[f])
    ensures Consistente(Liberado(d, f, p.cadenas[f]), SinUltimo(p, f))
    ensures SinUltimo(p, f).Perdidos() == p.Perdidos()
  {
    var c := p.cadenas[f];
    var b := c[|c| - 1];
    var d' := LiberarOcupa(d, p, f);
    var p' := SinUltimo(p, f);
    SinUltimoUbica(d, p, f);
    assert Ubicados(d', p');
    assert p.lugar[b] == En(f, |c| - 1);
    assert d.fat[b] == BLOQUE_NULO by {
      assert d.fat[c[|c| - 1]] == Siguiente(c, |c| - 1);
    }
    assert Enlazadas(d', p') by {
      forall g | 0 <= g < MAX_ARCHIVOS
        ensures EsCadena(d'.fat, d'.tabla[g].primero, p'.cadenas[g])
      {
        CadenaTrasLiberar(d, p, f, g);
      }
    }
    if |c| > 1 {
      assert p.lugar[c[|c| - 2]] == En(f, |c| - 2);
    }
    assert SinEnlacesAjenos(d', p');
    assert Marcados(d', p');
  }

  lemma CadenaTrasLiberar(d: Disco, p: Plano, f: nat, g: nat)
    requires Consistente(d, p) && f < MAX_ARCHIVOS && p.cadenas[f] != [] && g < MAX_ARCHIVOS
    requires EsCadena(d.fat, d.tabla[f].primero, p.cadenas[f])
    ensures EsCadena(Liberado(d, f, p.cadenas[f]).fat, Liberado(d, f, p.cadenas[f]).tabla[g].primero,
                     SinUltimo(p, f).cadenas[g])
  {
    var d', p' := Liberado(d, f, p.cadenas[f]), SinUltimo(p, f);
    var c, cg := p.cadenas[f], p'.cadenas[g];
    assert EsCadena(d.fat, d.tabla[g].primero, p.cadenas[g]);
    forall k | 0 <= k < |cg|
      ensures cg[k] < |d'.fat| && d'.fat[cg[k]] == Siguiente(cg, k)
    {
      assert p.lugar[p.cadenas[g][k]] == En(g, k);
      assert d.fat[p.cadenas[g][k]] == Siguiente(p.cadenas[g], k);
      if |c| > 1 {
        assert p.lugar[c[|c| - 2]] == En(f, |c| - 2);
      }
    }
  }
}
