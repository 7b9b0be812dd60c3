/**
 The bytes of a file as its chain of blocks holds them, and what a write does to them.
 */
module OsadaContenido {
  import opened OsadaDisco

  ghost predicate EnRango(d: Disco, c: seq<nat>) {
    forall k :: 0 <= k < |c| ==> c[k] < |d.datos|
  }

  /** Byte i of the blocks of chain c laid end to end. */
  function ByteEn(d: Disco, c: seq<nat>, i: nat): Byte
    requires EnRango(d, c) && i < TAM_BLOQUE * |c|
  {
    d.datos[c[i / TAM_BLOQUE]][i % TAM_BLOQUE]
  }

  ghost function Crudo(d: Disco, c: seq<nat>): (r: seq<Byte>)
    requires EnRango(d, c)
    ensures |r| == TAM_BLOQUE * |c|
  {
    seq(TAM_BLOQUE * |c|, i requires 0 <= i < TAM_BLOQUE * |c| => ByteEn(d, c, i))
  }

  /** The same byte, or zero past the end of the chain. */
  ghost function Rellenado(d: Disco, c: seq<nat>, i: nat): Byte
    requires EnRango(d, c)
  {
    if i < TAM_BLOQUE * |c| then ByteEn(d, c, i) else 0
  }

  /** What readers see of a file. */
  ghost function Contenido(d: Disco, p: Plano, f: nat): (r: seq<Byte>)
    requires f < |p.cadenas| && f < |d.tabla| && EnRango(d, p.cadenas[f])
    requires d.tabla[f].tam <= TAM_BLOQUE * |p.cadenas[f]|
    ensures |r| == d.tabla[f].tam
  {
    Crudo(d, p.cadenas[f])[..d.tabla[f].tam]
  }

  /** The chain grew from c to c' with zeroed blocks and then `nuevos` was laid over it at
      byte `pos`; every other byte is the old one. */
  ghost predicate Escrito(d: Disco, c: seq<nat>, d': Disco, c': seq<nat>, pos: nat, nuevos: seq<Byte>) {
    && c <= c' && EnRango(d, c) && EnRango(d', c')
    && pos + |nuevos| <= TAM_BLOQUE * |c'|
    && forall i: nat :: i < TAM_BLOQUE * |c'| ==>
         ByteEn(d', c', i) == if pos <= i < pos + |nuevos| then nuevos[i - pos] else Rellenado(d, c, i)
  }

  /** A file other than f keeps its chain and every byte of it. */
  ghost predicate MismoArchivo(d: Disco, p: Plano, d': Disco, p': Plano, g: nat)
    requires g < |p.cadenas| && g < |p'.cadenas|
  {
    && p'.cadenas[g] == p.cadenas[g]
    && EnRango(d, p.cadenas[g]) && EnRango(d', p.cadenas[g])
    && forall k :: 0 <= k < |p.cadenas[g]| ==> d'.datos[p.cadenas[g][k]] == d.datos[p.cadenas[g][k]]
  }

  ghost predicate OtrosIguales(d: Disco, p: Plano, d': Disco, p': Plano, f: nat) {
    && |p.cadenas| == |p'.cadenas| == MAX_ARCHIVOS
    && forall g :: 0 <= g < MAX_ARCHIVOS && g != f ==> MismoArchivo(d, p, d', p', g)
  }

  /** Only the blocks of f changed: blocks moved between the free set and f's chain, and
      nothing was lost. */
  ghost predicate SoloCambia(d: Disco, p: Plano, d': Disco, p': Plano, f: nat) {
    && f < MAX_ARCHIVOS && Consistente(d, p) && Consistente(d', p')
    && d'.admin == d.admin && d'.N() == d.N()
    && OtrosIguales(d, p, d', p', f)
    && p'.Perdidos() == p.Perdidos()
    && |d'.Libres()| + |p'.cadenas[f]| == |d.Libres()| + |p.cadenas[f]|
  }

  lemma SoloCambiaTrans(d: Disco, p: Plano, d': Disco, p': Plano, d'': Disco, p'': Plano, f: nat)
    requires SoloCambia(d, p, d', p', f) && SoloCambia(d', p', d'', p'', f)
    ensures SoloCambia(d, p, d'', p'', f)
  {
    forall g | 0 <= g < MAX_ARCHIVOS && g != f
      ensures MismoArchivo(d, p, d'', p'', g)
    {
      assert MismoArchivo(d, p, d', p', g) && MismoArchivo(d', p', d'', p'', g);
    }
  }

  lemma SoloCambiaRefl(d: Disco, p: Plano, f: nat)
    requires Consistente(d, p) && f < MAX_ARCHIVOS
    ensures SoloCambia(d, p, d, p, f)
    ensures EnRango(d, p.cadenas[f]) && Escrito(d, p.cadenas[f], d, p.cadenas[f], 0, [])
  {
  }

  /** Readers of a file that did not change see the same bytes. */
  lemma MismoContenido(d: Disco, p: Plano, d': Disco, p': Plano, g: nat)
    requires g < |p.cadenas| && g < |p'.cadenas| && g < |d.tabla| && g < |d'.tabla|
    requires MismoArchivo(d, p, d', p', g) && d'.tabla[g].tam == d.tabla[g].tam
    requires d.tabla[g].tam <= TAM_BLOQUE * |p.cadenas[g]|
    ensures Contenido(d', p', g) == Contenido(d, p, g)
  {
  }

  /** The number of blocks a write of `largo` bytes at byte `pos` reaches. */
  function BloquesHasta(pos: nat, largo: nat): nat {
    if largo == 0 then pos / TAM_BLOQUE + 1 else (pos + largo - 1) / TAM_BLOQUE + 1
  }

  /** `nuevos` written over `viejo` at `pos`, which is not past its end. */
  function Empalme(viejo: seq<Byte>, pos: nat, nuevos: seq<Byte>): seq<Byte>
    requires pos <= |viejo|
  {
    viejo[..pos] + nuevos + (if pos + |nuevos| <= |viejo| then viejo[pos + |nuevos|..] else [])
  }

  /** The bytes a reader sees after a write are the old ones with the new ones laid over. */
  lemma ContenidoEscrito(d: Disco, p: Plano, d': Disco, p': Plano, f: nat, pos: nat, nuevos: seq<Byte>)
    requires f < |p.cadenas| && f < |p'.cadenas| && f < |d.tabla| && f < |d'.tabla|
    requires Escrito(d, p.cadenas[f], d', p'.cadenas[f], pos, nuevos)
    requires pos <= d.tabla[f].tam <= TAM_BLOQUE * |p.cadenas[f]|
    requires d'.tabla[f].tam == if pos + |nuevos| > d.tabla[f].tam then pos + |nuevos| else d.tabla[f].tam
    ensures Contenido(d', p', f) == Empalme(Contenido(d, p, f), pos, nuevos)
  {
  }

  // ---------------------------------------------------------------- one step at a time

  lemma EscritoTrasExtender(d: Disco, c: seq<nat>, dm: Disco, cm: seq<nat>, d': Disco, c': seq<nat>, pos: nat,
                            nuevos: seq<Byte>)
    requires Escrito(d, c, dm, cm, 0, []) && Escrito(dm, cm, d', c', pos, nuevos)
    ensures Escrito(d, c, d', c', pos, nuevos)
  {
  }

  /** A reserved block reads as zeros after the old bytes, and disturbs no other file. */
  lemma ExtenderConCero(d: Disco, p: Plano, f: nat, b: nat)
    requires Consistente(d, p) && f < MAX_ARCHIVOS && p.cadenas[f] != [] && b in d.Libres()
    ensures p.cadenas[f][|p.cadenas[f]| - 1] < d.N()
    ensures SoloCambia(d, p, Reservado(d, p.cadenas[f][|p.cadenas[f]| - 1], b), AlFinal(p, f, b), f)
    ensures Escrito(d, p.cadenas[f], Reservado(d, p.cadenas[f][|p.cadenas[f]| - 1], b), AlFinal(p, f, b).cadenas[f], 0,
                    [])
  {
    var c := p.cadenas[f];
    var ult := c[|c| - 1];
    ReservarEnCadena(d, p, f, b);
    var d' := ReservarOcupa(d, ult, b);
    var p' := AlFinal(p, f, b);
    BloqueNuevoAparte(d, p, f, b, d', p');
  }

  lemma BloqueNuevoAparte(d: Disco, p: Plano, f: nat, b: nat, d': Disco, p': Plano)
    requires Consistente(d, p) && f < MAX_ARCHIVOS && b in d.Libres()
    requires d'.datos == d.datos[b := BloqueCero()] && p' == AlFinal(p, f, b)
    ensures OtrosIguales(d, p, d', p', f)
    ensures Escrito(d, p.cadenas[f], d', p'.cadenas[f], 0, [])
  {
  }

  /** The block `viejo` with `parte` copied over it at `desde`. */
  function Copiado(viejo: Bloque, desde: nat, parte: seq<Byte>): Bloque
    requires desde + |parte| <= TAM_BLOQUE
  {
    viejo[..desde] + parte + viejo[desde + |parte|..]
  }

  /** The disk after `guardarBloque`. */
  function Guardado(d: Disco, b: nat, dato: Bloque): Disco
    requires |d.bits| == d.admin + d.N() && |d.datos| == d.N() && b < d.N()
  {
    Disco(d.admin, d.bits[d.admin + b := true], d.fat, d.datos[b := dato], d.tabla)
  }

  /** Storing a block of f's own chain disturbs no other file and keeps every link. */
  lemma GuardarPropio(d: Disco, p: Plano, f: nat, k: nat, dato: Bloque)
    requires Consistente(d, p) && f < MAX_ARCHIVOS && k < |p.cadenas[f]|
    ensures p.cadenas[f][k] < d.N()
    ensures SoloCambia(d, p, Guardado(d, p.cadenas[f][k], dato), p, f)
  {
    var b := p.cadenas[f][k];
    assert p.lugar[b] == En(f, k);
    assert d.Ocupado(b);
    var d' := Guardado(d, b, dato);
    assert d'.bits == d.bits;
    forall x | 0 <= x < d.N()
      ensures d'.Ocupado(x) == d.Ocupado(x)
    {
    }
    assert d'.Libres() == d.Libres();
    assert Enlazadas(d', p);
    assert Consistente(d', p);
    forall g | 0 <= g < MAX_ARCHIVOS && g != f
      ensures MismoArchivo(d, p, d', p, g)
    {
      forall j | 0 <= j < |p.cadenas[g]|
        ensures p.cadenas[g][j] != b && p.cadenas[g][j] < d.N()
      {
        assert p.lugar[p.cadenas[g][j]] == En(g, j);
      }
    }
  }

  /** The bytes of `nuevos` that fit in a block from `desde` on. */
  function Caben(nuevos: seq<Byte>, desde: nat): nat
    requires desde < TAM_BLOQUE
  {
    if |nuevos| > TAM_BLOQUE - desde then TAM_BLOQUE - desde else |nuevos|
  }

  /** Storing the head of the data in block k, once the tail is in place from block k + 1 on,
      completes the write. */
  lemma EscribirCabeza(d: Disco, p: Plano, d2: Disco, p2: Plano, f: nat, k: nat, desde: nat, nuevos: seq<Byte>,
                       dato: Bloque)
    requires Consistente(d2, p2) && f < MAX_ARCHIVOS && f < |p.cadenas| && k < |p.cadenas[f]| && desde < TAM_BLOQUE
    requires EnRango(d, p.cadenas[f]) && p.cadenas[f] <= p2.cadenas[f]
    requires var m := Caben(nuevos, desde);
      && dato == Copiado(d.datos[p.cadenas[f][k]], desde, nuevos[..m])
      && Escrito(d, p.cadenas[f], d2, p2.cadenas[f], TAM_BLOQUE * (k + 1), nuevos[m..])
    ensures p2.cadenas[f][k] < d2.N()
    ensures Escrito(d, p.cadenas[f], Guardado(d2, p2.cadenas[f][k], dato), p2.cadenas[f], TAM_BLOQUE * k + desde,
                    nuevos)
  {
    var m := Caben(nuevos, desde);
    var c, c2 := p.cadenas[f], p2.cadenas[f];
    var d' := Guardado(d2, c2[k], dato);
    var pos := TAM_BLOQUE * k + desde;
    assert p2.lugar[c2[k]] == En(f, k);
    forall i: nat | i < TAM_BLOQUE * |c2|
      ensures ByteEn(d', c2, i) == if pos <= i < pos + |nuevos| then nuevos[i - pos] else Rellenado(d, c, i)
    {
      var j, r := i / TAM_BLOQUE, i % TAM_BLOQUE;
      if j == k {
        assert ByteEn(d', c2, i) == dato[r];
        assert Rellenado(d, c, i) == d.datos[c[k]][r];
      } else {
        assert p2.lugar[c2[j]] == En(f, j);
        assert ByteEn(d', c2, i) == ByteEn(d2, c2, i);
      }
    }
  }

  /** The bytes only depend on the data blocks. */
  lemma EscritoIgual(d: Disco, c: seq<nat>, d1: Disco, c1: seq<nat>, d2: Disco, pos: nat, nuevos: seq<Byte>)
    requires Escrito(d, c, d1, c1, pos, nuevos) && d2.datos == d1.datos
    ensures Escrito(d, c, d2, c1, pos, nuevos)
  {
    forall i: nat | i < TAM_BLOQUE * |c1|
      ensures ByteEn(d2, c1, i) == ByteEn(d1, c1, i)
    {
    }
  }

  lemma CambiarEntradaSolo(d: Disco, p: Plano, f: nat, e: Entrada)
    requires Consistente(d, p) && f < MAX_ARCHIVOS && e.primero == d.tabla[f].primero
    requires e.estado.Regular? || e.primero == BLOQUE_NULO
    ensures SoloCambia(d, p, ConEntrada(d, f, e), p, f)
  {
    CambiarEntrada(d, p, f, e);
    var d' := ConEntrada(d, f, e);
    assert d'.Libres() == d.Libres();
    SoloCambiaRefl(d, p, f);
  }

  /** The first block of a file that had none. */
  lemma PrimerBloque(d: Disco, p: Plano, f: nat, b: nat, e: Entrada)
    requires Consistente(d, p) && f < MAX_ARCHIVOS && p.cadenas[f] == [] && b in d.Libres()
    requires e.estado.Regular? && e.primero == b
    ensures SoloCambia(d, p, ConEntrada(Reservado(d, -1, b), f, e), AlFinal(p, f, b), f)
    ensures Escrito(d, [], ConEntrada(Reservado(d, -1, b), f, e), [b], 0, [])
  {
    ReservarPrimero(d, p, f, b, e);
    var r := ReservarOcupa(d, -1, b);
    var d' := ConEntrada(r, f, e);
    var p' := AlFinal(p, f, b);
    BloqueNuevoAparte(d, p, f, b, d', p');
    assert d'.Libres() == r.Libres();
    assert p'.cadenas[f] == [b];
  }

  // ---------------------------------------------------------------- what readers see

  /** The size of f is covered by its chain, so every read of f stays inside its blocks. */
  ghost predicate Cubierto(d: Disco, p: Plano, f: nat)
    requires f < |p.cadenas| && f < |d.tabla|
  {
    d.tabla[f].tam <= TAM_BLOQUE * |p.cadenas[f]|
  }

  /** Readers of g, if its size was covered, see what they saw. */
  ghost predicate SeLeeIgual(d: Disco, p: Plano, d': Disco, p': Plano, g: nat)
    requires g < |p.cadenas| && g < |d.tabla| && g < |p'.cadenas| && g < |d'.tabla|
  {
    Cubierto(d, p, g) ==>
      && EnRango(d, p.cadenas[g]) && EnRango(d', p'.cadenas[g])
      && Cubierto(d', p', g) && Contenido(d', p', g) == Contenido(d, p, g)
  }

  ghost predicate OtrosSeLeenIgual(d: Disco, p: Plano, d': Disco, p': Plano, f: nat) {
    && |p.cadenas| == |p'.cadenas| == |d.tabla| == |d'.tabla| == MAX_ARCHIVOS
    && forall g :: 0 <= g < MAX_ARCHIVOS && g != f ==> SeLeeIgual(d, p, d', p', g)
  }

  lemma OtrosContenidos(d: Disco, p: Plano, d': Disco, p': Plano, f: nat)
    requires OtrosIguales(d, p, d', p', f) && |d.tabla| == |d'.tabla| == MAX_ARCHIVOS
    requires forall g :: 0 <= g < MAX_ARCHIVOS && g != f ==> d'.tabla[g].tam == d.tabla[g].tam
    ensures OtrosSeLeenIgual(d, p, d', p', f)
  {
    forall g | 0 <= g < MAX_ARCHIVOS && g != f
      ensures SeLeeIgual(d, p, d', p', g)
    {
      assert MismoArchivo(d, p, d', p', g);
      if Cubierto(d, p, g) {
        MismoContenido(d, p, d', p', g);
      }
    }
  }

  /** A write that succeeds lays the new bytes over the old contents and no reader of another
      file notices; a write that fails is noticed by nobody, although the chain may have grown. */
  lemma EscrituraVista(d: Disco, p: Plano, d': Disco, p': Plano, f: nat, ok: bool, nuevos: seq<Byte>, offset: nat)
    requires SoloCambia(d, p, d', p', f)
    requires Escrito(d, p.cadenas[f], d', p'.cadenas[f], if ok then offset else 0, if ok then nuevos else [])
    requires forall g :: 0 <= g < MAX_ARCHIVOS && g != f ==> d'.tabla[g].tam == d.tabla[g].tam
    requires ok ==> offset <= d.tabla[f].tam
    requires d'.tabla[f].tam == if ok && offset + |nuevos| > d.tabla[f].tam then offset + |nuevos| else d.tabla[f].tam
    ensures OtrosSeLeenIgual(d, p, d', p', f)
    ensures Cubierto(d, p, f) ==>
      && Cubierto(d', p', f)
      && Contenido(d', p', f) == if ok then Empalme(Contenido(d, p, f), offset, nuevos) else Contenido(d, p, f)
  {
    OtrosContenidos(d, p, d', p', f);
    if Cubierto(d, p, f) {
      ContenidoEscrito(d, p, d', p', f, if ok then offset else 0, if ok then nuevos else []);
      if !ok {
        var v := Contenido(d, p, f);
        assert Empalme(v, 0, []) == v;
      }
    }
  }

  function Ceros(n: nat): seq<Byte> {
    seq(n, i => 0)
  }

  /** The blocks a file of a given size takes. */
  function Necesarios(size: nat): nat {
    size / TAM_BLOQUE + (if size % TAM_BLOQUE > 0 then 1 else 0)
  }

  /** After a chain is resized to n blocks and the size set to `tam`, which they cover, readers
      see the old blocks cut or padded with zeros: the bytes the old and the new size share are
      kept, and what a larger size exposes is whatever the last block held past the old size,
      then zeros. */
  lemma CambioDeTamVisto(d: Disco, p: Plano, d': Disco, p': Plano, f: nat, n: nat, tam: nat)
    requires SoloCambia(d, p, d', p', f) && EnRango(d, p.cadenas[f]) && tam <= TAM_BLOQUE * n
    requires d'.tabla[f].tam == tam && |p'.cadenas[f]| == n
    requires if n <= |p.cadenas[f]| then p'.cadenas[f] == p.cadenas[f][..n] && d'.datos == d.datos
             else Escrito(d, p.cadenas[f], d', p'.cadenas[f], 0, [])
    ensures Cubierto(d', p', f) && EnRango(d', p'.cadenas[f])
    ensures Contenido(d', p', f) == (Crudo(d, p.cadenas[f]) + Ceros(tam))[..tam]
    ensures Cubierto(d, p, f) ==>
      var m := if d.tabla[f].tam < tam then d.tabla[f].tam else tam;
      Contenido(d', p', f)[..m] == Contenido(d, p, f)[..m]
  {
    var c, c' := p.cadenas[f], p'.cadenas[f];
    var todo := Crudo(d, c) + Ceros(tam);
    forall i | 0 <= i < tam
      ensures Contenido(d', p', f)[i] == todo[i]
    {
      assert Contenido(d', p', f)[i] == ByteEn(d', c', i);
      assert todo[i] == Rellenado(d, c, i);
    }
  }

  /** Blocks went from the free set to the lost set and nothing else changed: no chain, and
      no byte of a chain. */
  ghost predicate SoloPierde(d: Disco, p: Plano, d': Disco, p': Plano, f: nat) {
    && f < MAX_ARCHIVOS && Consistente(d, p) && Consistente(d', p')
    && d'.admin == d.admin && d'.N() == d.N()
    && OtrosIguales(d, p, d', p', f) && p'.cadenas[f] == p.cadenas[f] == []
    && p.Perdidos() <= p'.Perdidos()
    && |d'.Libres()| + |p'.Perdidos()| == |d.Libres()| + |p.Perdidos()|
  }

  lemma SoloPierdeTrans(d: Disco, p: Plano, d': Disco, p': Plano, d'': Disco, p'': Plano, f: nat)
    requires SoloPierde(d, p, d', p', f) && SoloPierde(d', p', d'', p'', f)
    ensures SoloPierde(d, p, d'', p'', f)
  {
    forall g | 0 <= g < MAX_ARCHIVOS && g != f
      ensures MismoArchivo(d, p, d'', p'', g)
    {
      assert MismoArchivo(d, p, d', p', g) && MismoArchivo(d', p', d'', p'', g);
    }
  }

  /** A block reserved after nothing, or after a lost block, is lost. */
  lemma PerderBloque(d: Disco, p: Plano, f: nat, anterior: int, b: nat)
    requires Consistente(d, p) && f < MAX_ARCHIVOS && p.cadenas[f] == [] && b in d.Libres() && anterior < d.N()
    requires anterior >= 0 ==> p.lugar[anterior].Perdido?
    ensures SoloPierde(d, p, Reservado(d, anterior, b), p.(lugar := p.lugar[b := Perdido]), f)
    ensures |p.(lugar := p.lugar[b := Perdido]).Perdidos()| == |p.Perdidos()| + 1
  {
    ReservarSuelto(d, p, anterior, b);
    var d' := ReservarOcupa(d, anterior, b);
    var p' := p.(lugar := p.lugar[b := Perdido]);
    assert p.lugar[b].Libre?;
    assert b !in p.Perdidos() && p'.Perdidos() == p.Perdidos() + {b};
    forall g | 0 <= g < MAX_ARCHIVOS && g != f
      ensures MismoArchivo(d, p, d', p', g)
    {
      forall k | 0 <= k < |p.cadenas[g]|
        ensures p.cadenas[g][k] < d.N() && p.cadenas[g][k] != b
      {
        assert p.lugar[p.cadenas[g][k]] == En(g, k);
      }
    }
  }

  /** Freeing the last block of f disturbs no other file and no byte. */
  lemma LiberarPropio(d: Disco, p: Plano, f: nat)
    requires Consistente(d, p) && f < MAX_ARCHIVOS && p.cadenas[f] != []
    ensures EsCadena(d.fat, d.tabla[f].primero, p.cadenas[f])
    ensures SoloCambia(d, p, Liberado(d, f, p.cadenas[f]), SinUltimo(p, f), f)
  {
    LiberarUltimo(d, p, f);
    var d' := LiberarOcupa(d, p, f);
    SoloCambiaRefl(d, p, f);
    forall g | 0 <= g < MAX_ARCHIVOS && g != f
      ensures MismoArchivo(d, p, d', SinUltimo(p, f), g)
    {
      assert EsCadena(d.fat, d.tabla[g].primero, p.cadenas[g]);
    }
  }
}
