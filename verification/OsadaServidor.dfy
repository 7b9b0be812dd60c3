/**
 The OSADA server: the operations of pokedex-server.c over the tables it updates in place.
 */
module OsadaServidor {
  import opened OsadaDisco
  import opened OsadaContenido
  import opened OsadaNombres

  // The bytes a write can count in an int.
  const MAX_ESCRITURA := 0x8000_0000

  class Osada {
    const admin: nat
    const bits: array<bool>
    const fat: array<nat>
    const datos: array<Bloque>
    const tabla: array<Entrada>
    ghost var plano: Plano

    /** Mounts a volume whose layout is given. */
    constructor (admin: nat, bits: array<bool>, fat: array<nat>, datos: array<Bloque>, tabla: array<Entrada>,
                 ghost plano: Plano)
      requires Consistente(Disco(admin, bits[..], fat[..], datos[..], tabla[..]), plano)
      ensures Valid() && Estado() == Disco(admin, bits[..], fat[..], datos[..], tabla[..]) && this.plano == plano
    {
      this.admin, this.bits, this.fat, this.datos, this.tabla, this.plano := admin, bits, fat, datos, tabla, plano;
    }

    ghost function Estado(): Disco
      reads bits, fat, datos, tabla
    {
      Disco(admin, bits[..], fat[..], datos[..], tabla[..])
    }

    ghost predicate Valid()
      reads this, bits, fat, datos, tabla
    {
      Consistente(Estado(), plano)
    }

    // ---------------------------------------------------------------- blocks

    method MarcarBloque(bloque: nat, valor: bool)
      requires admin + bloque < bits.Length
      modifies bits
      ensures bits[..] == old(bits[..])[admin + bloque := valor]
    {
      if valor {
        bits[bloque + admin] := true;
      } else {
        bits[bloque + admin] := false;
      }
    }

    method GuardarBloque(dato: Bloque, bloque: nat)
      requires Estado().Forma() && bloque < fat.Length
      modifies bits, datos
      ensures Estado() == Guardado(old(Estado()), bloque, dato)
    {
      datos[bloque] := dato;
      MarcarBloque(bloque, true);
    }

    /** The next block, with the null pointer read as the int -1. */
    method ObtenerBloqueSgte(bloqueActual: int) returns (r: int)
      requires bloqueActual < fat.Length
      ensures r == if bloqueActual < 0 || fat[bloqueActual] == BLOQUE_NULO then -1 else fat[bloqueActual]
    {
      if bloqueActual < 0 {
        r := -1;
      } else {
        r := if fat[bloqueActual] == BLOQUE_NULO then -1 else fat[bloqueActual];
      }
    }

    method ObtenerUltimoBloque(indice: int) returns (r: int)
      requires Valid()
      ensures r == if 0 <= indice < MAX_ARCHIVOS && plano.cadenas[indice] != []
                   then plano.cadenas[indice][|plano.cadenas[indice]| - 1] else -1
    {
      if indice < 0 || indice >= MAX_ARCHIVOS {
        return -1;
      }
      ghost var c := plano.cadenas[indice];
      assert EsCadena(Estado().fat, Estado().tabla[indice].primero, c);
      r := if tabla[indice].primero == BLOQUE_NULO then -1 else tabla[indice].primero;
      ghost var k := 0;
      var s := ObtenerBloqueSgte(r);
      while s != -1
        invariant -1 <= r < fat.Length
        invariant c == [] ==> r == -1
        invariant c != [] ==> k < |c| && r == c[k]
        invariant s == if r < 0 || fat[r] == BLOQUE_NULO then -1 else fat[r]
        decreases |c| - k
      {
        assert Estado().fat[c[k]] == Siguiente(c, k);
        r := s;
        k := k + 1;
        s := ObtenerBloqueSgte(r);
      }
      if c != [] {
        assert Estado().fat[c[k]] == Siguiente(c, k);
      }
    }

    /** The file's blocks in order; -1 as the size of an invalid index. */
    method ObtenerBloques(indice: int) returns (bloques: seq<nat>, size: int)
      requires Valid() && indice < MAX_ARCHIVOS
      ensures indice < 0 ==> bloques == [] && size == -1
      ensures indice >= 0 ==> bloques == plano.cadenas[indice] && size == |bloques|
    {
      if indice < 0 {
        return [], -1;
      }
      ghost var c := plano.cadenas[indice];
      assert EsCadena(Estado().fat, Estado().tabla[indice].primero, c);
      if tabla[indice].primero == BLOQUE_NULO {
        return [], 0;
      }
      bloques := [tabla[indice].primero];
      var i := 0;
      while fat[bloques[i]] != BLOQUE_NULO
        invariant i + 1 == |bloques| <= |c| && bloques == c[..i + 1]
        decreases |c| - i
      {
        assert Estado().fat[c[i]] == Siguiente(c, i);
        bloques := bloques + [fat[bloques[i]]];
        i := i + 1;
      }
      assert Estado().fat[c[i]] == Siguiente(c, i);
      size := |bloques|;
    }

    /** The lowest free block, or -1. */
    method EncontrarBloqueLibre() returns (r: int)
      requires Estado().Forma()
      ensures r < 0 ==> r == -1 && Estado().Libres() == {}
      ensures r >= 0 ==> r in Estado().Libres() && forall x :: x in Estado().Libres() ==> r <= x
    {
      var i := admin;
      while i < bits.Length && bits[i]
        invariant admin <= i <= bits.Length
        invariant forall x :: 0 <= x < i - admin ==> Estado().Ocupado(x)
      {
        assert Estado().Ocupado(i - admin);
        i := i + 1;
      }
      if i < bits.Length {
        assert !Estado().Ocupado(i - admin);
        return i - admin;
      } else {
        return -1;
      }
    }

    method ReservarNuevoBloque(bloqueAnterior: int) returns (r: int)
      requires Estado().Forma() && bloqueAnterior < fat.Length
      modifies bits, fat, datos
      ensures r < 0 ==> r == -1 && old(Estado()).Libres() == {} && Estado() == old(Estado())
      ensures r >= 0 ==> r in old(Estado()).Libres() && forall x :: x in old(Estado()).Libres() ==> r <= x
      ensures r >= 0 ==> Estado() == Reservado(old(Estado()), bloqueAnterior, r)
    {
      var nuevoBloque := EncontrarBloqueLibre();
      if nuevoBloque < 0 {
        return -1;
      }
      MarcarBloque(nuevoBloque, true);
      if bloqueAnterior >= 0 {
        fat[bloqueAnterior] := nuevoBloque;
      }
      fat[nuevoBloque] := BLOQUE_NULO;
      datos[nuevoBloque] := BloqueCero();
      return nuevoBloque;
    }

    /** Unmarks a block. With `eliminarEnlace`, the first entry of the table that points at it
        takes over its link; the scan stops there. */
    method LiberarBloque(bloque: int, eliminarEnlace: bool) returns (r: int)
      requires Estado().Forma() && bloque < fat.Length
      modifies bits, fat
      ensures bloque < 0 ==> r == -1 && Estado() == old(Estado())
      ensures bloque >= 0 ==> r == 1 && bits[..] == old(bits[..])[admin + bloque := false]
      ensures bloque >= 0 && (!eliminarEnlace || bloque !in old(fat[..])) ==> fat[..] == old(fat[..])
      ensures bloque >= 0 && eliminarEnlace && bloque in old(fat[..]) ==>
        exists i :: 0 <= i < fat.Length && old(fat[i]) == bloque && bloque !in old(fat[..i])
                 && fat[..] == old(fat[..])[i := old(fat[bloque])]
    {
      if bloque < 0 {
        return -1;
      }
      if eliminarEnlace {
        var i := 0;
        ghost var hallado := false;
        ghost var donde := 0;
        while i < fat.Length && i >= 0
          invariant -1 <= i <= fat.Length
          invariant hallado <==> i == -1
          invariant !hallado ==> fat[..] == old(fat[..]) && bloque !in fat[..i]
          invariant hallado ==> 0 <= donde < fat.Length && old(fat[donde]) == bloque && bloque !in old(fat[..donde])
          invariant hallado ==> fat[..] == old(fat[..])[donde := old(fat[bloque])]
          invariant bits[..] == old(bits[..])
          decreases if i < 0 then 0 else fat.Length - i + 1
        {
          if fat[i] == bloque {
            hallado, donde := true, i;
            fat[i] := fat[bloque];
            i := -2;
          }
          i := i + 1;
        }
        assert !hallado ==> bloque !in old(fat[..]);
      }
      MarcarBloque(bloque, false);
      return 1;
    }

    // ---------------------------------------------------------------- writing

    /** A free block after the last one of f, zeroed, if there is any. */
    method ReservarSiguiente(ultimo: nat, ghost f: nat) returns (sgte: int)
      requires Valid() && f < MAX_ARCHIVOS
      requires plano.cadenas[f] != [] && plano.cadenas[f][|plano.cadenas[f]| - 1] == ultimo
      modifies bits, fat, datos, this`plano
      ensures Valid() && tabla[..] == old(tabla[..])
      ensures SoloCambia(old(Estado()), old(plano), Estado(), plano, f)
      ensures Escrito(old(Estado()), old(plano.cadenas[f]), Estado(), plano.cadenas[f], 0, [])
      ensures sgte < 0 ==> plano == old(plano) && Estado().Libres() == {}
      ensures sgte >= 0 ==> plano.cadenas[f] == old(plano.cadenas[f]) + [sgte]
    {
      ghost var d0, p0 := Estado(), plano;
      SoloCambiaRefl(d0, p0, f);
      sgte := ReservarNuevoBloque(ultimo);
      if sgte >= 0 {
        ExtenderConCero(d0, p0, f, sgte);
        plano := AlFinal(p0, f, sgte);
      }
    }

    /** The block after the k-th of f, reserved when the chain ends there. */
    method SiguienteOReservado(bloqueActual: nat, ghost f: nat, ghost k: nat) returns (sgte: int)
      requires Valid() && f < MAX_ARCHIVOS
      requires k < |plano.cadenas[f]| && plano.cadenas[f][k] == bloqueActual
      modifies bits, fat, datos, this`plano
      ensures Valid() && tabla[..] == old(tabla[..])
      ensures SoloCambia(old(Estado()), old(plano), Estado(), plano, f)
      ensures Escrito(old(Estado()), old(plano.cadenas[f]), Estado(), plano.cadenas[f], 0, [])
      ensures sgte < 0 ==> plano == old(plano) && |plano.cadenas[f]| == k + 1 && Estado().Libres() == {}
      ensures sgte >= 0 ==> k + 1 < |plano.cadenas[f]| && plano.cadenas[f][k + 1] == sgte
      ensures sgte >= 0 ==> |plano.cadenas[f]| == Mayor(old(|plano.cadenas[f]|), k + 2)
    {
      ghost var c := plano.cadenas[f];
      SoloCambiaRefl(Estado(), plano, f);
      sgte := ObtenerBloqueSgte(bloqueActual);
      assert EsCadena(Estado().fat, Estado().tabla[f].primero, c);
      assert Estado().fat[c[k]] == Siguiente(c, k);
      if sgte == -1 {
        sgte := ReservarSiguiente(bloqueActual, f);
      }
    }

    /** Writes `nuevos` at byte `offset` of a block of file f, its k-th, and on along the
        chain, reserving blocks at its end. The block is stored only after the tail has been
        written, so a failed write leaves every byte as it was: the chain has then swallowed
        every free block, all of them zeroed. */
    method GuardarDesdeBloque(bloqueActual: nat, nuevos: seq<Byte>, offset: nat, ghost f: nat, ghost k: nat)
      returns (ok: bool)
      requires Valid() && f < MAX_ARCHIVOS && offset < TAM_BLOQUE
      requires k < |plano.cadenas[f]| && plano.cadenas[f][k] == bloqueActual
      modifies bits, fat, datos, this`plano
      ensures Valid() && tabla[..] == old(tabla[..])
      ensures SoloCambia(old(Estado()), old(plano), Estado(), plano, f)
      ensures Escrito(old(Estado()), old(plano.cadenas[f]), Estado(), plano.cadenas[f],
                      if ok then TAM_BLOQUE * k + offset else 0, if ok then nuevos else [])
      ensures ok <==>
        BloquesHasta(TAM_BLOQUE * k + offset, |nuevos|) <= old(|plano.cadenas[f]|) + |old(Estado()).Libres()|
      ensures ok ==>
        |plano.cadenas[f]| == Mayor(old(|plano.cadenas[f]|), BloquesHasta(TAM_BLOQUE * k + offset, |nuevos|))
      ensures !ok ==> Estado().Libres() == {}
      decreases |nuevos|, 0
    {
      ghost var d0, p0 := Estado(), plano;
      var bytesCopiados := if |nuevos| > TAM_BLOQUE - offset then TAM_BLOQUE - offset else |nuevos|;
      var bloqueAux := Copiado(datos[bloqueActual], offset, nuevos[..bytesCopiados]);
      if |nuevos| != bytesCopiados {
        var cola := GuardarCola(bloqueActual, nuevos[bytesCopiados..], f, k);
        if !cola {
          return false;
        }
      }
      CompletarBloque(d0, p0, bloqueActual, bloqueAux, nuevos, offset, f, k);
      return true;
    }

    /** The tail of a write, from the block after the k-th on. */
    method GuardarCola(bloqueActual: nat, resto: seq<Byte>, ghost f: nat, ghost k: nat) returns (ok: bool)
      requires Valid() && f < MAX_ARCHIVOS && resto != []
      requires k < |plano.cadenas[f]| && plano.cadenas[f][k] == bloqueActual
      modifies bits, fat, datos, this`plano
      ensures Valid() && tabla[..] == old(tabla[..])
      ensures SoloCambia(old(Estado()), old(plano), Estado(), plano, f)
      ensures Escrito(old(Estado()), old(plano.cadenas[f]), Estado(), plano.cadenas[f],
                      if ok then TAM_BLOQUE * (k + 1) else 0, if ok then resto else [])
      ensures ok <==> BloquesHasta(TAM_BLOQUE * (k + 1), |resto|) <= old(|plano.cadenas[f]|) + |old(Estado()).Libres()|
      ensures ok ==> |plano.cadenas[f]| == Mayor(old(|plano.cadenas[f]|), BloquesHasta(TAM_BLOQUE * (k + 1), |resto|))
      ensures !ok ==> Estado().Libres() == {}
      decreases |resto|, 2
    {
      ghost var d0, p0 := Estado(), plano;
      var sgte := SiguienteOReservado(bloqueActual, f, k);
      if sgte < 0 {
        return false;
      }
      ok := GuardarResto(sgte, resto, f, k, d0, p0);
    }

    /** The same, once the next block is at hand; `d0` is the disk before it was. */
    method GuardarResto(sgte: nat, resto: seq<Byte>, ghost f: nat, ghost k: nat, ghost d0: Disco, ghost p0: Plano)
      returns (ok: bool)
      requires Valid() && f < MAX_ARCHIVOS && resto != [] && SoloCambia(d0, p0, Estado(), plano, f)
      requires Escrito(d0, p0.cadenas[f], Estado(), plano.cadenas[f], 0, [])
      requires k + 1 < |plano.cadenas[f]| == Mayor(|p0.cadenas[f]|, k + 2) && plano.cadenas[f][k + 1] == sgte
      modifies bits, fat, datos, this`plano
      ensures Valid() && tabla[..] == old(tabla[..]) && SoloCambia(d0, p0, Estado(), plano, f)
      ensures Escrito(d0, p0.cadenas[f], Estado(), plano.cadenas[f],
                      if ok then TAM_BLOQUE * (k + 1) else 0, if ok then resto else [])
      ensures ok <==> BloquesHasta(TAM_BLOQUE * (k + 1), |resto|) <= |p0.cadenas[f]| + |d0.Libres()|
      ensures ok ==> |plano.cadenas[f]| == Mayor(|p0.cadenas[f]|, BloquesHasta(TAM_BLOQUE * (k + 1), |resto|))
      ensures !ok ==> Estado().Libres() == {}
      decreases |resto|, 1
    {
      ghost var dm, pm := Estado(), plano;
      SiguienteHaceFalta(k, |resto|);
      ok := GuardarDesdeBloque(sgte, resto, 0, f, k + 1);
      ghost var pos, escritos := if ok then TAM_BLOQUE * (k + 1) else 0, if ok then resto else [];
      EscrituraSeguida(d0, p0, dm, pm, Estado(), plano, f, pos, escritos);
    }

    /** The last step of a write: the block itself, once the tail is in place. */
    method CompletarBloque(ghost d0: Disco, ghost p0: Plano, bloqueActual: nat, bloqueAux: Bloque,
                           ghost nuevos: seq<Byte>, ghost offset: nat, ghost f: nat, ghost k: nat)
      requires Valid() && offset < TAM_BLOQUE && SoloCambia(d0, p0, Estado(), plano, f)
      requires k < |p0.cadenas[f]| && p0.cadenas[f] <= plano.cadenas[f] && p0.cadenas[f][k] == bloqueActual
      requires EnRango(d0, p0.cadenas[f])
      requires bloqueAux == Copiado(d0.datos[bloqueActual], offset, nuevos[..Caben(nuevos, offset)])
      requires if Caben(nuevos, offset) == |nuevos| then Estado() == d0 && plano == p0
               else
                 Escrito(d0, p0.cadenas[f], Estado(), plano.cadenas[f], TAM_BLOQUE * (k + 1),
                         nuevos[Caben(nuevos, offset)..])
      modifies bits, datos
      ensures Valid() && tabla[..] == old(tabla[..]) && plano == old(plano)
      ensures SoloCambia(d0, p0, Estado(), plano, f)
      ensures Escrito(d0, p0.cadenas[f], Estado(), plano.cadenas[f], TAM_BLOQUE * k + offset, nuevos)
    {
      ghost var d2 := Estado();
      if Caben(nuevos, offset) == |nuevos| {
        SoloCambiaRefl(d0, p0, f);
      }
      EscribirCabeza(d0, p0, d2, plano, f, k, offset, nuevos, bloqueAux);
      GuardarPropio(d2, plano, f, k, bloqueAux);
      GuardarBloque(bloqueAux, bloqueActual);
      SoloCambiaTrans(d0, p0, d2, plano, Estado(), plano, f);
    }

    /** A block more at the end of a chain. */
    method Alargar(archivo: nat, ultimo: nat) returns (b: int)
      requires Valid() && archivo < MAX_ARCHIVOS && plano.cadenas[archivo] != []
      requires ultimo == plano.cadenas[archivo][|plano.cadenas[archivo]| - 1]
      modifies bits, fat, datos, this`plano
      ensures Valid() && SoloCambia(old(Estado()), old(plano), Estado(), plano, archivo) && tabla[..] == old(tabla[..])
      ensures Escrito(old(Estado()), old(plano.cadenas[archivo]), Estado(), plano.cadenas[archivo], 0, [])
      ensures b < 0 ==> Estado() == old(Estado()) && plano == old(plano) && old(Estado()).Libres() == {}
      ensures b >= 0 ==> plano.cadenas[archivo] == old(plano.cadenas[archivo]) + [b] && old(Estado()).Libres() != {}
    {
      ghost var d0, p0 := Estado(), plano;
      SoloCambiaRefl(d0, p0, archivo);
      assert EsCadena(d0.fat, d0.tabla[archivo].primero, p0.cadenas[archivo]);
      b := ReservarNuevoBloque(ultimo);
      if b >= 0 {
        ExtenderConCero(d0, p0, archivo, b);
        plano := AlFinal(p0, archivo, b);
      }
    }

    /** The first block of a file that had none. */
    method Estrenar(archivo: nat) returns (b: int)
      requires Valid() && archivo < MAX_ARCHIVOS && tabla[archivo].estado.Regular? && plano.cadenas[archivo] == []
      modifies bits, fat, datos, tabla, this`plano
      ensures Valid() && SoloCambia(old(Estado()), old(plano), Estado(), plano, archivo)
      ensures Escrito(old(Estado()), [], Estado(), plano.cadenas[archivo], 0, [])
      ensures tabla[..] == old(tabla[..])[archivo := old(tabla[archivo]).(primero := tabla[archivo].primero)]
      ensures b < 0 ==> Estado() == old(Estado()) && plano == old(plano) && old(Estado()).Libres() == {}
      ensures b >= 0 ==> plano.cadenas[archivo] == [b] && old(Estado()).Libres() != {}
    {
      ghost var d0, p0 := Estado(), plano;
      SoloCambiaRefl(d0, p0, archivo);
      assert EsCadena(d0.fat, d0.tabla[archivo].primero, p0.cadenas[archivo]);
      b := ReservarNuevoBloque(-1);
      tabla[archivo] := tabla[archivo].(primero := if b < 0 then BLOQUE_NULO else b);
      if b >= 0 {
        PrimerBloque(d0, p0, archivo, b, tabla[archivo]);
        plano := AlFinal(p0, archivo, b);
        assert Estado() == ConEntrada(Reservado(d0, -1, b), archivo, tabla[archivo]);
      } else {
        assert Estado() == d0;
      }
    }

    /** The block that holds byte `offset` of a regular file, or -1: reserved at the end of
        the chain when the offset is exactly past it, and made the file's first when it had
        none. */
    method BloqueParaEscribir(archivo: nat, offset: nat) returns (b: int)
      requires Valid() && archivo < MAX_ARCHIVOS && tabla[archivo].estado.Regular?
      modifies bits, fat, datos, tabla, this`plano
      ensures Valid() && SoloCambia(old(Estado()), old(plano), Estado(), plano, archivo)
      ensures Escrito(old(Estado()), old(plano.cadenas[archivo]), Estado(), plano.cadenas[archivo], 0, [])
      ensures tabla[..] == old(tabla[..])[archivo := old(tabla[archivo]).(primero := tabla[archivo].primero)]
      ensures b < 0 ==> Estado() == old(Estado()) && plano == old(plano)
      ensures b < 0 <==> !Alcanzable(offset / TAM_BLOQUE, old(|plano.cadenas[archivo]|), old(Estado()).Libres())
      ensures b >= 0 ==>
        offset / TAM_BLOQUE < |plano.cadenas[archivo]| && plano.cadenas[archivo][offset / TAM_BLOQUE] == b
      ensures b >= 0 ==> |plano.cadenas[archivo]| == Mayor(old(|plano.cadenas[archivo]|), offset / TAM_BLOQUE + 1)
    {
      ghost var d0, p0 := Estado(), plano;
      SoloCambiaRefl(d0, p0, archivo);
      assert EsCadena(d0.fat, d0.tabla[archivo].primero, p0.cadenas[archivo]);
      var bloqueInicial := offset / TAM_BLOQUE;
      var bloques, nroBloques := ObtenerBloques(archivo);
      if bloqueInicial == nroBloques && nroBloques != 0 {
        b := Alargar(archivo, bloques[nroBloques - 1]);
      } else if bloqueInicial == nroBloques && nroBloques == 0 {
        b := Estrenar(archivo);
      } else if bloqueInicial > nroBloques {
        b := -1;
      } else {
        b := bloques[bloqueInicial];
      }
    }

    /** The blocks of a write: positions the write and stores it, leaving the size alone. */
    method GuardarDatos(archivo: nat, nuevos: seq<Byte>, offset: nat) returns (r: bool)
      requires Valid() && archivo < MAX_ARCHIVOS && tabla[archivo].estado.Regular?
      modifies bits, fat, datos, tabla, this`plano
      ensures Valid() && SoloCambia(old(Estado()), old(plano), Estado(), plano, archivo)
      ensures r <==> Alcanza(old(Estado()), old(plano), archivo, |nuevos|, offset)
      ensures Escrito(old(Estado()), old(plano.cadenas[archivo]), Estado(), plano.cadenas[archivo],
                      if r then offset else 0, if r then nuevos else [])
      ensures tabla[..] == old(tabla[..])[archivo := old(tabla[archivo]).(primero := tabla[archivo].primero)]
      ensures r ==> |plano.cadenas[archivo]| == Mayor(old(|plano.cadenas[archivo]|), BloquesHasta(offset, |nuevos|))
      ensures !r && offset / TAM_BLOQUE <= old(|plano.cadenas[archivo]|) ==> Estado().Libres() == {}
      ensures !r && offset / TAM_BLOQUE > old(|plano.cadenas[archivo]|) ==>
        Estado() == old(Estado()) && plano == old(plano)
    {
      ghost var d0, p0 := Estado(), plano;
      var bloqueInicial := BloqueParaEscribir(archivo, offset);
      if bloqueInicial < 0 {
        return false;
      }
      r := GuardarDesdePosicion(archivo, bloqueInicial, nuevos, offset, d0, p0);
    }

    /** The same, once the block of the offset is at hand, `d0` is the disk before it
        was. */
    method GuardarDesdePosicion(archivo: nat, b: nat, nuevos: seq<Byte>, offset: nat, ghost d0: Disco, ghost p0: Plano)
      returns (r: bool)
      requires Valid() && archivo < MAX_ARCHIVOS && SoloCambia(d0, p0, Estado(), plano, archivo)
      requires Escrito(d0, p0.cadenas[archivo], Estado(), plano.cadenas[archivo], 0, [])
      requires offset / TAM_BLOQUE < |plano.cadenas[archivo]| && plano.cadenas[archivo][offset / TAM_BLOQUE] == b
      requires |plano.cadenas[archivo]| == Mayor(|p0.cadenas[archivo]|, offset / TAM_BLOQUE + 1)
      modifies bits, fat, datos, this`plano
      ensures Valid() && SoloCambia(d0, p0, Estado(), plano, archivo) && tabla[..] == old(tabla[..])
      ensures r <==> BloquesHasta(offset, |nuevos|) <= |p0.cadenas[archivo]| + |d0.Libres()|
      ensures Escrito(d0, p0.cadenas[archivo], Estado(), plano.cadenas[archivo],
                      if r then offset else 0, if r then nuevos else [])
      ensures r ==> |plano.cadenas[archivo]| == Mayor(|p0.cadenas[archivo]|, BloquesHasta(offset, |nuevos|))
      ensures !r ==> Estado().Libres() == {}
    {
      r := GuardarDesdeElBloque(archivo, b, nuevos, offset % TAM_BLOQUE, offset / TAM_BLOQUE, offset, d0, p0);
    }

    method GuardarDesdeElBloque(archivo: nat, b: nat, nuevos: seq<Byte>, o: nat, ghost k: nat, ghost pos: nat,
                                ghost d0: Disco, ghost p0: Plano)
      returns (r: bool)
      requires Valid() && archivo < MAX_ARCHIVOS && SoloCambia(d0, p0, Estado(), plano, archivo)
      requires Escrito(d0, p0.cadenas[archivo], Estado(), plano.cadenas[archivo], 0, [])
      requires o < TAM_BLOQUE && pos == TAM_BLOQUE * k + o
      requires k < |plano.cadenas[archivo]| == Mayor(|p0.cadenas[archivo]|, k + 1) && plano.cadenas[archivo][k] == b
      modifies bits, fat, datos, this`plano
      ensures Valid() && SoloCambia(d0, p0, Estado(), plano, archivo) && tabla[..] == old(tabla[..])
      ensures r <==> BloquesHasta(pos, |nuevos|) <= |p0.cadenas[archivo]| + |d0.Libres()|
      ensures Escrito(d0, p0.cadenas[archivo], Estado(), plano.cadenas[archivo],
                      if r then pos else 0, if r then nuevos else [])
      ensures r ==> |plano.cadenas[archivo]| == Mayor(|p0.cadenas[archivo]|, BloquesHasta(pos, |nuevos|))
      ensures !r ==> Estado().Libres() == {}
    {
      ghost var d1, p1 := Estado(), plano;
      HastaSuBloque(k, o, |nuevos|);
      r := GuardarDesdeBloque(b, nuevos, o, archivo, k);
      ghost var desde, datosNuevos := if r then pos else 0, if r then nuevos else [];
      EscrituraSeguida(d0, p0, d1, p1, Estado(), plano, archivo, desde, datosNuevos);
    }

    method AjustarTam(archivo: nat, tam: nat, ghost d0: Disco, ghost p0: Plano, ghost pos: nat, ghost nuevos: seq<Byte>)
      requires Valid() && archivo < MAX_ARCHIVOS && SoloCambia(d0, p0, Estado(), plano, archivo)
      requires Escrito(d0, p0.cadenas[archivo], Estado(), plano.cadenas[archivo], pos, nuevos)
      requires tabla[archivo].estado.Regular?
      modifies tabla
      ensures Valid() && SoloCambia(d0, p0, Estado(), plano, archivo)
      ensures Escrito(d0, p0.cadenas[archivo], Estado(), plano.cadenas[archivo], pos, nuevos)
      ensures tabla[..] == old(tabla[..])[archivo := old(tabla[archivo]).(tam := tam)]
    {
      ghost var d2 := Estado();
      tabla[archivo] := tabla[archivo].(tam := tam);
      assert Estado() == ConEntrada(d2, archivo, tabla[archivo]);
      CambiarEntradaSolo(d2, plano, archivo, tabla[archivo]);
      SoloCambiaTrans(d0, p0, d2, plano, Estado(), plano, archivo);
      EscritoIgual(d0, p0.cadenas[archivo], d2, plano.cadenas[archivo], Estado(), pos, nuevos);
    }

    /** The blocks of a write to a regular file, and then its size if the file grew. */
    method GuardarYAjustar(archivo: nat, nuevos: seq<Byte>, offset: nat) returns (r: bool)
      requires Valid() && archivo < MAX_ARCHIVOS && tabla[archivo].estado.Regular?
      modifies bits, fat, datos, tabla, this`plano
      ensures Valid() && SoloCambia(old(Estado()), old(plano), Estado(), plano, archivo)
      ensures r <==> Alcanza(old(Estado()), old(plano), archivo, |nuevos|, offset)
      ensures Escrito(old(Estado()), old(plano.cadenas[archivo]), Estado(), plano.cadenas[archivo],
                      if r then offset else 0, if r then nuevos else [])
      ensures tabla[..] == old(tabla[..])[archivo := old(tabla[archivo]).(
                primero := tabla[archivo].primero,
                tam := if r then Mayor(old(tabla[archivo].tam), offset + |nuevos|) else old(tabla[archivo].tam))]
      ensures r ==> |plano.cadenas[archivo]| == Mayor(old(|plano.cadenas[archivo]|), BloquesHasta(offset, |nuevos|))
      ensures !r && offset / TAM_BLOQUE <= old(|plano.cadenas[archivo]|) ==> Estado().Libres() == {}
      ensures !r && offset / TAM_BLOQUE > old(|plano.cadenas[archivo]|) ==>
        Estado() == old(Estado()) && plano == old(plano)
    {
      ghost var d0, p0 := Estado(), plano;
      r := GuardarDatos(archivo, nuevos, offset);
      ghost var t, e := d0.tabla, d0.tabla[archivo].(primero := tabla[archivo].primero);
      assert tabla[..] == t[archivo := e] && tabla[archivo] == e;
      if r && |nuevos| + offset > tabla[archivo].tam {
        AjustarTam(archivo, |nuevos| + offset, d0, p0, offset, nuevos);
        assert tabla[..] == t[archivo := e][archivo := e.(tam := |nuevos| + offset)];
      } else {
        assert e == e.(tam := e.tam);
      }
    }

    /** Writes `nuevos` at byte `offset` of a file. It succeeds exactly when the file is
        regular, the offset is not past its size nor past its chain, and the chain together
        with the free blocks reaches the last byte written. When only the blocks are missing a
        failed write has taken every free one into the chain; otherwise it changes nothing. The
        number of bytes is passed on as an int, so larger writes are not defined. */
    method Actualizar(archivo: nat, nuevos: seq<Byte>, offset: nat) returns (r: bool)
      requires Valid() && archivo < MAX_ARCHIVOS
      requires Admisible(Estado(), plano, archivo, offset) ==> |nuevos| < MAX_ESCRITURA
      modifies bits, fat, datos, tabla, this`plano
      ensures Valid() && SoloCambia(old(Estado()), old(plano), Estado(), plano, archivo)
      ensures r <==> PuedeEscribir(old(Estado()), old(plano), archivo, |nuevos|, offset)
      ensures Escrito(old(Estado()), old(plano.cadenas[archivo]), Estado(), plano.cadenas[archivo],
                      if r then offset else 0, if r then nuevos else [])
      ensures tabla[..] == old(tabla[..])[archivo := old(tabla[archivo]).(
                primero := tabla[archivo].primero,
                tam := if r then Mayor(old(tabla[archivo].tam), offset + |nuevos|) else old(tabla[archivo].tam))]
      ensures r ==> |plano.cadenas[archivo]| == Mayor(old(|plano.cadenas[archivo]|), BloquesHasta(offset, |nuevos|))
      ensures !r && Admisible(old(Estado()), old(plano), archivo, offset) ==> Estado().Libres() == {}
      ensures !r && !Admisible(old(Estado()), old(plano), archivo, offset) ==>
        Estado() == old(Estado()) && plano == old(plano)
    {
      if !tabla[archivo].estado.Regular? || tabla[archivo].tam < offset {
        SoloCambiaRefl(Estado(), plano, archivo);
        assert tabla[..] == old(tabla[..])[archivo := old(tabla[archivo])];
        return false;
      }
      r := GuardarYAjustar(archivo, nuevos, offset);
    }

    // ---------------------------------------------------------------- resizing

    /** Unlinks and unmarks a block that exactly one entry of the table points at. */
    method Desenlazar(ultimo: nat, ghost anterior: nat)
      requires Estado().Forma() && ultimo < fat.Length && anterior < fat.Length
      requires forall x :: 0 <= x < fat.Length ==> (fat[x] == ultimo <==> x == anterior)
      modifies bits, fat
      ensures bits[..] == old(bits[..])[admin + ultimo := false]
      ensures fat[..] == old(fat[..])[anterior := old(fat[ultimo])]
    {
      assert fat[..][anterior] == ultimo;
      var _ := LiberarBloque(ultimo, true);
    }

    /** The tables once the last block of a chain of a file is freed. */
    method SoltarFinal(archivo: nat, ultimo: nat, cantidad: nat, ghost c: seq<nat>)
      requires Estado().Forma() && archivo < MAX_ARCHIVOS && cantidad == |c| > 0 && ultimo == c[cantidad - 1]
      requires (forall k :: 0 <= k < |c| ==> c[k] < fat.Length) && fat[ultimo] == BLOQUE_NULO
      requires cantidad > 1 ==> forall x :: 0 <= x < fat.Length ==> (fat[x] == ultimo <==> x == c[cantidad - 2])
      modifies bits, fat, tabla
      ensures Estado() == Liberado(old(Estado()), archivo, c)
    {
      if cantidad > 1 {
        Desenlazar(ultimo, c[cantidad - 2]);
      } else {
        tabla[archivo] := tabla[archivo].(primero := BLOQUE_NULO);
        var _ := LiberarBloque(ultimo, false);
      }
    }

    /** Frees the last block of a file's chain, as one turn of the shrinking loop does. */
    method LiberarFinal(archivo: nat, ultimo: nat, cantidad: nat)
      requires Valid() && archivo < MAX_ARCHIVOS
      requires cantidad == |plano.cadenas[archivo]| > 0 && ultimo == plano.cadenas[archivo][cantidad - 1]
      modifies bits, fat, tabla, this`plano
      ensures Valid() && SoloCambia(old(Estado()), old(plano), Estado(), plano, archivo)
      ensures plano.cadenas[archivo] == old(plano.cadenas[archivo])[..cantidad - 1]
      ensures tabla[..] == old(tabla[..])[archivo := old(tabla[archivo]).(primero := tabla[archivo].primero)]
    {
      ghost var d0, p0 := Estado(), plano;
      ghost var c := p0.cadenas[archivo];
      EnlaceAlUltimo(d0, p0, archivo);
      forall x | 0 <= x < fat.Length && cantidad > 1
        ensures fat[x] == ultimo <==> x == c[cantidad - 2]
      {
        assert d0.fat[x] == fat[x];
      }
      assert fat[ultimo] == d0.fat[ultimo];
      SoltarFinal(archivo, ultimo, cantidad, c);
      LiberarPropio(d0, p0, archivo);
      plano := SinUltimo(p0, archivo);
    }

    /** One turn of the growing loop: a block after the last one of the chain, or, when the
        chain is empty, after the last block lost. */
    method AgregarBloque(archivo: nat, bloqueAnterior: int) returns (r: int)
      requires Valid() && archivo < MAX_ARCHIVOS && tabla[archivo].estado.Regular?
      requires AnteriorValido(plano, archivo, bloqueAnterior)
      modifies bits, fat, datos, this`plano
      ensures Valid() && tabla[..] == old(tabla[..])
      ensures r < 0 ==> old(Estado()).Libres() == {} && Estado() == old(Estado()) && plano == old(plano)
      ensures r >= 0 ==> AnteriorValido(plano, archivo, r)
      ensures r >= 0 && old(plano.cadenas[archivo]) != [] ==>
        && SoloCambia(old(Estado()), old(plano), Estado(), plano, archivo)
        && plano.cadenas[archivo] == old(plano.cadenas[archivo]) + [r]
        && Escrito(old(Estado()), old(plano.cadenas[archivo]), Estado(), plano.cadenas[archivo], 0, [])
      ensures r >= 0 && old(plano.cadenas[archivo]) == [] ==>
        && SoloPierde(old(Estado()), old(plano), Estado(), plano, archivo)
        && |plano.Perdidos()| == |old(plano.Perdidos())| + 1
    {
      ghost var d0, p0 := Estado(), plano;
      r := ReservarNuevoBloque(bloqueAnterior);
      if r >= 0 {
        if p0.cadenas[archivo] != [] {
          ExtenderConCero(d0, p0, archivo, r);
          plano := AlFinal(p0, archivo, r);
        } else {
          PerderBloque(d0, p0, archivo, bloqueAnterior, r);
          plano := p0.(lugar := p0.lugar[r := Perdido]);
        }
      }
    }

    /** The shrinking loop: frees blocks from the end while there are more than needed. */
    method Encoger(archivo: nat, bloques: seq<nat>, necesarios: nat) returns (cantidad: nat)
      requires Valid() && archivo < MAX_ARCHIVOS && bloques == plano.cadenas[archivo]
      modifies bits, fat, tabla, this`plano
      ensures Valid() && SoloCambia(old(Estado()), old(plano), Estado(), plano, archivo)
      ensures cantidad == if |bloques| > necesarios then necesarios else |bloques|
      ensures plano.cadenas[archivo] == bloques[..cantidad]
      ensures |bloques| <= necesarios ==> Estado() == old(Estado()) && plano == old(plano)
      ensures tabla[..] == old(tabla[..])[archivo := old(tabla[archivo]).(primero := tabla[archivo].primero)]
    {
      ghost var d0, p0 := Estado(), plano;
      SoloCambiaRefl(d0, p0, archivo);
      cantidad := |bloques|;
      while cantidad > necesarios
        invariant Valid() && SoloCambia(d0, p0, Estado(), plano, archivo)
        invariant cantidad <= |bloques| && (|bloques| <= necesarios ==> cantidad == |bloques|)
        invariant |bloques| > necesarios ==> cantidad >= necesarios
        invariant plano.cadenas[archivo] == bloques[..cantidad]
        invariant cantidad == |bloques| ==> Estado() == d0 && plano == p0
        invariant tabla[..] == old(tabla[..])[archivo := old(tabla[archivo]).(primero := tabla[archivo].primero)]
      {
        ghost var d1, p1 := Estado(), plano;
        LiberarFinal(archivo, bloques[cantidad - 1], cantidad);
        SoloCambiaTrans(d0, p0, d1, p1, Estado(), plano, archivo);
        cantidad := cantidad - 1;
      }
    }

    /** The growing loop. On a file with blocks it lengthens the chain with zeroed blocks. On a
        file with none it never sets the first block, so every block it reserves is lost. */
    method Crecer(archivo: nat, cantidad0: nat, necesarios: nat) returns (ok: bool)
      requires Valid() && archivo < MAX_ARCHIVOS && tabla[archivo].estado.Regular?
      requires cantidad0 == |plano.cadenas[archivo]|
      modifies bits, fat, datos, this`plano
      ensures Valid() && tabla[..] == old(tabla[..])
      ensures ok <==> necesarios <= cantidad0 + |old(Estado()).Libres()|
      ensures !ok ==> Estado().Libres() == {}
      ensures necesarios <= cantidad0 || old(Estado()).Libres() == {} ==>
        Estado() == old(Estado()) && plano == old(plano)
      ensures cantidad0 > 0 ==>
        && SoloCambia(old(Estado()), old(plano), Estado(), plano, archivo)
        && Escrito(old(Estado()), old(plano.cadenas[archivo]), Estado(), plano.cadenas[archivo], 0, [])
        && (ok ==> |plano.cadenas[archivo]| == Mayor(cantidad0, necesarios))
      ensures cantidad0 == 0 ==>
        && SoloPierde(old(Estado()), old(plano), Estado(), plano, archivo)
        && (ok ==> |plano.Perdidos()| == |old(plano.Perdidos())| + necesarios)
    {
      ghost var d0, p0 := Estado(), plano;
      SoloCambiaRefl(d0, p0, archivo);
      var bloqueAnterior := ObtenerUltimoBloque(archivo);
      var cantidad := cantidad0;
      while cantidad < necesarios
        invariant Valid() && tabla[..] == old(tabla[..]) && AnteriorValido(plano, archivo, bloqueAnterior)
        invariant cantidad0 <= cantidad <= Mayor(cantidad0, necesarios)
        invariant |Estado().Libres()| + cantidad == |d0.Libres()| + cantidad0
        invariant cantidad == cantidad0 ==> Estado() == d0 && plano == p0
        invariant cantidad0 > 0 ==> Alargado(d0, p0, Estado(), plano, archivo, cantidad)
        invariant cantidad0 == 0 ==> SoloPierde(d0, p0, Estado(), plano, archivo)
        invariant cantidad0 == 0 ==> |plano.Perdidos()| == |p0.Perdidos()| + cantidad
      {
        ghost var d1, p1 := Estado(), plano;
        bloqueAnterior := AgregarBloque(archivo, bloqueAnterior);
        if bloqueAnterior < 0 {
          return false;
        }
        if cantidad0 > 0 {
          AlargadoTrans(d0, p0, d1, p1, Estado(), plano, archivo, cantidad);
        } else {
          SoloPierdeTrans(d0, p0, d1, p1, Estado(), plano, archivo);
        }
        cantidad := cantidad + 1;
      }
      return true;
    }

    /** The two loops of a resize: frees the blocks past the new size, then reserves the
        missing ones. */
    method AjustarBloques(archivo: nat, bloquesNecesarios: nat) returns (ok: bool)
      requires Valid() && archivo < MAX_ARCHIVOS && tabla[archivo].estado.Regular?
      modifies bits, fat, datos, tabla, this`plano
      ensures Valid() && SoloEsaEntrada(old(Estado()), Estado(), archivo)
      ensures tabla[archivo].tam == old(tabla[archivo].tam)
      ensures EnBloques(old(Estado()), old(plano), Estado(), plano, archivo, bloquesNecesarios)
      ensures ok <==> bloquesNecesarios <= |old(plano.cadenas[archivo])| + |old(Estado()).Libres()|
    {
      ghost var d0, p0 := Estado(), plano;
      SoloCambiaRefl(d0, p0, archivo);
      var bloques, cantidad := ObtenerBloques(archivo);
      cantidad := Encoger(archivo, bloques, bloquesNecesarios);
      ghost var d1, p1 := Estado(), plano;
      assert p0.cadenas[archivo] == [] ==> d1.Libres() == d0.Libres();
      ok := Crecer(archivo, cantidad, bloquesNecesarios);
      RedimensionarEnBloques(d0, p0, d1, p1, Estado(), plano, archivo, bloquesNecesarios);
    }

    /** The last step of a resize that had enough blocks. */
    method PonerTam(archivo: nat, tam: nat, ghost d0: Disco, ghost p0: Plano, ghost n: nat)
      requires Valid() && archivo < MAX_ARCHIVOS && tabla[archivo].estado.Regular?
      requires Consistente(d0, p0) && EnBloques(d0, p0, Estado(), plano, archivo, n)
      requires SePuedeRedimensionar(d0, p0, archivo, n) && SoloEsaEntrada(d0, Estado(), archivo)
      modifies tabla
      ensures Valid() && Redimensionado(d0, p0, Estado(), plano, archivo, n, tam)
    {
      ghost var d2 := Estado();
      tabla[archivo] := tabla[archivo].(tam := tam);
      assert Estado() == ConEntrada(d2, archivo, d2.tabla[archivo].(tam := tam));
      FijarTam(d0, p0, d2, plano, archivo, n, tam);
    }

    /** The number of blocks a size takes, in an int. */
    static method ContarBloques(size: nat) returns (n: int)
      ensures n == BloquesPedidos(size)
    {
      n := AInt32(size / TAM_BLOQUE + (if size % TAM_BLOQUE > 0 then 1 else 0));
    }

    /** Resizes a file. Only regular files are resized. A file with blocks keeps the blocks it
        still needs, or gains zeroed ones; if they do not suffice it ends empty with all its
        blocks freed. Growing a file without blocks loses every block it reserves. The blocks
        are counted in an int; with a negative count the C code reads before its list of blocks. */
    method Truncar(archivo: int, size: nat) returns (r: int)
      requires Valid() && archivo < MAX_ARCHIVOS
      requires archivo < 0 || !tabla[archivo].estado.Regular? || BloquesPedidos(size) >= 0
      modifies bits, fat, datos, tabla, this`plano
      ensures Valid()
      ensures archivo < 0 || !old(tabla[archivo]).estado.Regular? ==>
        r == -1 && Estado() == old(Estado()) && plano == old(plano)
      ensures archivo >= 0 && old(tabla[archivo]).estado.Regular? ==>
        && Redimensionado(old(Estado()), old(plano), Estado(), plano, archivo, BloquesPedidos(size), TamGuardado(size))
        && r == (if SePuedeRedimensionar(old(Estado()), old(plano), archivo, BloquesPedidos(size)) then AInt32(size)
                 else -1)
      decreases size
    {
      if archivo < 0 || !tabla[archivo].estado.Regular? {
        return -1;
      }
      ghost var d0, p0 := Estado(), plano;
      var bloquesNecesarios := ContarBloques(size);
      var ok := AjustarBloques(archivo, bloquesNecesarios);
      ghost var d2, p2 := Estado(), plano;
      if !ok {
        DeNada();
        var _ := Truncar(archivo, 0);
        VaciadoTrasFallar(d0, p0, d2, p2, Estado(), plano, archivo, bloquesNecesarios, TamGuardado(size));
        return -1;
      }
      PonerTam(archivo, TamGuardado(size), d0, p0, bloquesNecesarios);
      return AInt32(size);
    }

    // ---------------------------------------------------------------- reading

    method ConcatenarBloques(bloques: seq<nat>) returns (contenido: seq<Byte>)
      requires EnRango(Estado(), bloques)
      ensures contenido == Crudo(Estado(), bloques)
    {
      contenido := [];
      var i := 0;
      while i < |bloques|
        invariant i <= |bloques| && |contenido| == TAM_BLOQUE * i
        invariant forall j :: 0 <= j < |contenido| ==> contenido[j] == ByteEn(Estado(), bloques, j)
      {
        contenido := contenido + datos[bloques[i]];
        i := i + 1;
      }
    }

    /** A read of `cantidad` bytes from `offset` on: the slice of what the file holds, cut at
        its end, and nothing from past it. What it reads must be inside the blocks of the file. */
    method Leer(archivo: nat, cantidad: nat, offset: nat) returns (leido: seq<Byte>)
      requires Valid() && archivo < MAX_ARCHIVOS
      requires offset < tabla[archivo].tam ==>
        Menor(offset + cantidad, tabla[archivo].tam) <= TAM_BLOQUE * |plano.cadenas[archivo]| || cantidad == 0
      ensures EnRango(Estado(), plano.cadenas[archivo])
      ensures offset >= tabla[archivo].tam || cantidad == 0 ==> leido == []
      ensures offset < tabla[archivo].tam && cantidad > 0 ==>
        leido == Crudo(Estado(), plano.cadenas[archivo])[offset..Menor(offset + cantidad, tabla[archivo].tam)]
      ensures offset < tabla[archivo].tam && Cubierto(Estado(), plano, archivo) ==>
        leido == Contenido(Estado(), plano, archivo)[offset..Menor(offset + cantidad, tabla[archivo].tam)]
    {
      assert EsCadena(Estado().fat, Estado().tabla[archivo].primero, plano.cadenas[archivo]);
      var bloques, nro := ObtenerBloques(archivo);
      var cantLeida: int := cantidad;
      if cantLeida + offset > tabla[archivo].tam {
        cantLeida := tabla[archivo].tam - offset;
      }
      if offset > tabla[archivo].tam {
        cantLeida := 0;
      }
      if cantLeida > 0 {
        var contenidoArchivo := ConcatenarBloques(bloques);
        leido := contenidoArchivo[offset..offset + cantLeida];
        assert offset + cantLeida == Menor(offset + cantidad, tabla[archivo].tam);
        Rebanada(contenidoArchivo, tabla[archivo].tam, offset, offset + cantLeida);
      } else {
        leido := [];
      }
    }

    // ---------------------------------------------------------------- names

    /** Compares a name buffer with a string as C strings of at most 17 bytes. */
    method SonNombresIguales(nombre1: Nombre, nombre2: Cadena) returns (igualdad: bool)
      ensures igualdad == (Texto(nombre1) == Prefijo(nombre2))
    {
      igualdad := true;
      var i := 0;
      while i < LARGO_NOMBRE && igualdad
        invariant 0 <= i <= LARGO_NOMBRE
        invariant igualdad ==> i <= |nombre2| && nombre1[..i] == nombre2[..i]
        invariant !igualdad ==> Texto(nombre1) != Prefijo(nombre2)
      {
        var c2 := if i < |nombre2| then nombre2[i] else 0;
        if nombre1[i] != c2 {
          igualdad := false;
          NombresDistintos(nombre1, nombre2, i);
        } else if nombre1[i] == 0 && c2 == 0 {
          break;
        }
        i := i + 1;
      }
      if igualdad {
        TextoUnico(nombre1, Prefijo(nombre2));
      }
    }

    method BuscarIndice(archivo: Cadena, dirPadre: int) returns (r: int)
      requires tabla.Length == MAX_ARCHIVOS
      ensures r == Buscar(tabla[..], archivo, dirPadre)
    {
      var i := 0;
      while i < MAX_ARCHIVOS
        invariant i <= MAX_ARCHIVOS
        invariant Buscar(tabla[..], archivo, dirPadre) == Buscar(tabla[..], archivo, dirPadre, i)
      {
        var iguales := SonNombresIguales(tabla[i].nombre, archivo);
        if iguales {
          if dirPadre < 0 || tabla[i].padre == dirPadre {
            return i;
          }
        }
        i := i + 1;
      }
      return -1;
    }

    /** The slot a path names. The walk goes on after a component is missing, and ends in -1. */
    method ObtenerArchivo(ruta: seq<Cadena>) returns (r: int)
      requires tabla.Length == MAX_ARCHIVOS
      ensures r == Resolver(tabla[..], ruta)
    {
      if ruta == [] {
        return -1;
      }
      var retorno, dirActual := 0, DIRECTORIO_NULO;
      var i := 0;
      while i < |ruta|
        invariant i <= |ruta| && -1 <= dirActual
        invariant retorno == -1 || (retorno == 0 && dirActual >= 0)
        invariant Resolver(tabla[..], ruta) ==
          if retorno == -1 then -1 else ResolverDesde(tabla[..], ruta[i..], dirActual)
      {
        assert ruta[i..][1..] == ruta[i + 1..];
        dirActual := BuscarIndice(ruta[i], dirActual);
        if dirActual < 0 {
          retorno := -1;
        }
        i := i + 1;
      }
      return if retorno == -1 then -1 else dirActual;
    }

    method ObtenerDirectorioPadre(ruta: seq<Cadena>) returns (r: int)
      requires tabla.Length == MAX_ARCHIVOS
      ensures r == ResolverPadre(tabla[..], ruta)
    {
      if ruta == [] {
        return -1;
      }
      var retorno, dirActual := 0, DIRECTORIO_NULO;
      var i := 0;
      while i + 1 < |ruta|
        invariant i < |ruta| && -1 <= dirActual
        invariant retorno == -1 || (retorno == 0 && dirActual >= 0)
        invariant ResolverPadre(tabla[..], ruta)
               == if retorno == -1 then -1 else ResolverDesde(tabla[..], ruta[i..|ruta| - 1], dirActual)
      {
        assert ruta[i..|ruta| - 1][1..] == ruta[i + 1..|ruta| - 1];
        dirActual := BuscarIndice(ruta[i], dirActual);
        if dirActual < 0 {
          retorno := -1;
        }
        i := i + 1;
      }
      return if retorno < 0 then -1 else dirActual;
    }

    method NombrarArchivo(indice: int, nombre: Cadena) returns (r: int)
      requires indice < tabla.Length
      modifies tabla
      ensures |nombre| > LARGO_NOMBRE || indice < 0 ==> r == 0 && tabla[..] == old(tabla[..])
      ensures |nombre| <= LARGO_NOMBRE && indice >= 0 ==>
        r == 1 && tabla[..] == old(tabla[..])[indice := ConNombre(old(tabla[indice]), nombre)]
      ensures |nombre| <= LARGO_NOMBRE && indice >= 0 ==> Texto(tabla[indice].nombre) == nombre
    {
      if |nombre| > LARGO_NOMBRE || indice < 0 {
        return 0;
      }
      TextoDeNombreEscrito(tabla[indice].nombre, nombre);
      tabla[indice] := tabla[indice].(nombre := NombreEscrito(tabla[indice].nombre, nombre));
      return 1;
    }

    // ---------------------------------------------------------------- entries

    /** Deletes an entry: a directory only when it has no live children, a file after freeing
        all its blocks. */
    method BorrarArchivo(indice: int) returns (r: int)
      requires Valid()
      modifies bits, fat, datos, tabla, this`plano
      ensures Valid()
      ensures r == -1 <==> indice < 0 || indice >= MAX_ARCHIVOS
      ensures r == -2 <==>
        0 <= indice < MAX_ARCHIVOS && old(tabla[indice]).estado.Directorio? && TieneHijosVivos(old(tabla[..]), indice)
      ensures r == -2 <==>
        && 0 <= indice < MAX_ARCHIVOS && old(tabla[indice]).estado.Directorio?
        && exists j :: 0 <= j < MAX_ARCHIVOS && !old(tabla[j]).estado.Borrado? && old(tabla[j]).padre == indice
      ensures r == 0 || r == -1 || r == -2
      ensures r != 0 ==> Estado() == old(Estado()) && plano == old(plano)
      ensures r == 0 ==> SoloCambia(old(Estado()), old(plano), Estado(), plano, indice) && plano.cadenas[indice] == []
      ensures r == 0 ==>
        EsBaja(tabla[indice], old(tabla[indice])) && tabla[..] == old(tabla[..])[indice := tabla[indice]]
      ensures r == 0 ==> tabla[indice].tam == if old(tabla[indice]).estado.Regular? then 0 else old(tabla[indice].tam)
    {
      if indice < 0 || indice >= MAX_ARCHIVOS {
        return -1;
      }
      SoloCambiaRefl(Estado(), plano, indice);
      if tabla[indice].estado.Directorio? {
        var i := 0;
        while i < MAX_ARCHIVOS
          invariant i <= MAX_ARCHIVOS
          invariant forall j :: 0 <= j < i ==> !(Vivo(tabla[..], j) && tabla[j].padre == indice)
        {
          if tabla[i].padre == indice && !tabla[i].estado.Borrado? {
            assert Vivo(tabla[..], i);
            return -2;
          }
          i := i + 1;
        }
      } else {
        var _ := Truncar(indice, 0);
      }
      ghost var d1, p1 := Estado(), plano;
      assert EsCadena(d1.fat, d1.tabla[indice].primero, p1.cadenas[indice]);
      tabla[indice] := tabla[indice].(estado := Borrado);
      assert Estado() == ConEntrada(d1, indice, d1.tabla[indice].(estado := Borrado));
      CambiarEntradaSolo(d1, p1, indice, tabla[indice]);
      SoloCambiaTrans(old(Estado()), old(plano), d1, p1, Estado(), plano, indice);
      return 0;
    }

    /** The scan of a create, from the last slot down: whether a live entry has the name and
        parent, and otherwise the lowest deleted slot, or -1. */
    method BuscarHueco(dirPadre: nat, nombre: Cadena) returns (existe: bool, nuevoIndice: int)
      requires tabla.Length == MAX_ARCHIVOS && |nombre| <= LARGO_NOMBRE
      ensures existe <==> ExisteVivo(tabla[..], nombre, dirPadre)
      ensures !existe ==> nuevoIndice == -1 || (nuevoIndice >= 0 && PrimerBorrado(tabla[..], nuevoIndice))
      ensures !existe && nuevoIndice == -1 ==> forall j :: 0 <= j < MAX_ARCHIVOS ==> Vivo(tabla[..], j)
    {
      nuevoIndice := -1;
      var i := MAX_ARCHIVOS - 1;
      while i >= 0
        invariant -1 <= i < MAX_ARCHIVOS
        invariant forall j :: i < j < MAX_ARCHIVOS ==> !(Vivo(tabla[..], j) && Coincide(tabla[j], nombre, dirPadre))
        invariant nuevoIndice == -1 ==> forall j :: i < j < MAX_ARCHIVOS ==> Vivo(tabla[..], j)
        invariant nuevoIndice != -1 ==> i < nuevoIndice < MAX_ARCHIVOS && tabla[nuevoIndice].estado.Borrado?
        invariant nuevoIndice != -1 ==> forall j :: i < j < nuevoIndice ==> Vivo(tabla[..], j)
      {
        var iguales := SonNombresIguales(tabla[i].nombre, nombre);
        if iguales && tabla[i].padre == dirPadre && !tabla[i].estado.Borrado? {
          assert Vivo(tabla[..], i) && Coincide(tabla[..][i], nombre, dirPadre);
          return true, nuevoIndice;
        } else if tabla[i].estado.Borrado? {
          nuevoIndice := i;
        }
        i := i - 1;
      }
      return false, nuevoIndice;
    }

    /** Creates an entry in the lowest deleted slot k. On a full disk the file is created
        all the same, without a first block: the test for failure compares an unsigned. */
    method CrearArchivo(dirPadre: int, nombre: Cadena, tipo: EstadoArchivo) returns (r: int, ghost k: nat)
      requires Valid() && !tipo.Borrado? && dirPadre <= DIRECTORIO_NULO
      modifies bits, fat, datos, tabla, this`plano
      ensures Valid()
      ensures r == CodigoCrear(old(tabla[..]), dirPadre, nombre) && r in {0, -1, -2, -3, -4}
      ensures r == -2 <==> |nombre| > 17
      ensures r == -1 <==> |nombre| <= 17 && dirPadre < 0
      ensures r in {0, -3, -4} ==>
        (r == -3 <==>
         exists i ::
           && 0 <= i < MAX_ARCHIVOS && !old(tabla[i]).estado.Borrado?
           && Texto(old(tabla[i]).nombre) == nombre && old(tabla[i]).padre == dirPadre)
      ensures r in {0, -4} ==> (r == -4 <==> forall i :: 0 <= i < MAX_ARCHIVOS ==> !old(tabla[i]).estado.Borrado?)
      ensures r != 0 ==> Estado() == old(Estado()) && plano == old(plano)
      ensures r == 0 ==> PrimerBorrado(old(tabla[..]), k) && SoloCambia(old(Estado()), old(plano), Estado(), plano, k)
      ensures r == 0 ==> tabla[..] == old(tabla[..])[k := tabla[k]] && EsNueva(tabla[k], nombre, dirPadre)
      ensures r == 0 ==> tabla[k].estado == tipo && tabla[k].tam == 0
      ensures r == 0 ==> |plano.cadenas[k]| == if tipo.Regular? && old(Estado()).Libres() != {} then 1 else 0
    {
      k := 0;
      if |nombre| > LARGO_NOMBRE {
        return -2, 0;
      }
      if dirPadre < 0 {
        return -1, 0;
      }
      var existe, nuevoIndice := BuscarHueco(dirPadre, nombre);
      if existe {
        return -3, 0;
      }
      if nuevoIndice < 0 {
        return -4, 0;
      }
      assert !Vivo(tabla[..], nuevoIndice);
      OcuparEntrada(nuevoIndice, dirPadre, nombre, tipo);
      return 0, nuevoIndice;
    }

    method CompletarEntrada(k: nat, dirPadre: nat, nombre: Cadena, primero: nat)
      requires k < tabla.Length && |nombre| <= LARGO_NOMBRE
      modifies tabla
      ensures tabla[..] ==
        old(tabla[..])[k := ConNombre(old(tabla[k]), nombre).(padre := dirPadre, tam := 0, primero := primero)]
    {
      tabla[k] := tabla[k].(primero := primero);
      tabla[k] := tabla[k].(padre := dirPadre);
      var _ := NombrarArchivo(k, nombre);
      tabla[k] := tabla[k].(tam := 0);
    }

    /** Fills a deleted slot. */
    method OcuparEntrada(k: nat, dirPadre: nat, nombre: Cadena, tipo: EstadoArchivo)
      requires Valid() && k < MAX_ARCHIVOS && tabla[k].estado.Borrado? && !tipo.Borrado? && |nombre| <= LARGO_NOMBRE
      modifies bits, fat, datos, tabla, this`plano
      ensures Valid() && SoloCambia(old(Estado()), old(plano), Estado(), plano, k)
      ensures tabla[..] == old(tabla[..])[k := tabla[k]] && EsNueva(tabla[k], nombre, dirPadre)
      ensures tabla[k].estado == tipo && tabla[k].tam == 0
      ensures |plano.cadenas[k]| == if tipo.Regular? && old(Estado()).Libres() != {} then 1 else 0
    {
      ghost var d0, p0 := Estado(), plano;
      assert EsCadena(d0.fat, d0.tabla[k].primero, p0.cadenas[k]);
      ghost var e := Entrada(tipo, NombreEscrito(tabla[k].nombre, nombre), dirPadre, 0, BLOQUE_NULO);
      TextoDeNombreEscrito(tabla[k].nombre, nombre);
      tabla[k] := tabla[k].(estado := tipo);
      var primero := -1;
      if tipo.Regular? {
        primero := ReservarNuevoBloque(-1);
      }
      CompletarEntrada(k, dirPadre, nombre, if primero < 0 then BLOQUE_NULO else primero);
      if primero >= 0 {
        LibresConEntrada(d0, k, d0.tabla[k].(estado := tipo));
        assert Estado() == ConEntrada(Reservado(d0, -1, primero), k, e.(primero := primero));
        PrimerBloque(d0, p0, k, primero, e.(primero := primero));
        plano := AlFinal(p0, k, primero);
      } else {
        LibresConEntrada(d0, k, d0.tabla[k].(estado := tipo));
        assert Estado() == ConEntrada(d0, k, e);
        CambiarEntradaSolo(d0, p0, k, e);
      }
    }

    method Mover(arch: nat, nombre: Cadena, dir: nat)
      requires Valid() && arch < MAX_ARCHIVOS && |nombre| <= LARGO_NOMBRE
      modifies tabla
      ensures Valid() && SoloCambia(old(Estado()), plano, Estado(), plano, arch)
      ensures tabla[..] == old(tabla[..])[arch := tabla[arch]]
      ensures EsMovida(tabla[arch], old(tabla[arch]), nombre, dir)
    {
      ghost var d0 := Estado();
      assert EsCadena(d0.fat, d0.tabla[arch].primero, plano.cadenas[arch]);
      TextoDeNombreEscrito(tabla[arch].nombre, nombre);
      var _ := NombrarArchivo(arch, nombre);
      tabla[arch] := tabla[arch].(padre := dir);
      assert Estado() == ConEntrada(d0, arch, tabla[arch]);
      CambiarEntradaSolo(d0, plano, arch, tabla[arch]);
    }

    /** Renames and moves an entry. The target is refused when its path resolves to any slot,
        deleted or not. A target directory that does not resolve becomes the root: -1 stored
        in 16 bits. */
    method Renombrar(desde: seq<Cadena>, hacia: seq<Cadena>) returns (codigo: nat, ghost archivo: int)
      requires Valid() && hacia != [] && hacia[|hacia| - 1] != []
      modifies tabla
      ensures Valid() && archivo == Resolver(old(tabla[..]), desde)
      ensures codigo == CodigoRenombrar(old(tabla[..]), desde, hacia) && codigo <= 3
      ensures codigo == 3 <==> Resolver(old(tabla[..]), hacia) >= 0
      ensures codigo == 1 <==> Resolver(old(tabla[..]), hacia) < 0 && Resolver(old(tabla[..]), desde) < 0
      ensures codigo in {0, 2} ==> (codigo == 2 <==> |hacia[|hacia| - 1]| > 17)
      ensures codigo != 0 ==> Estado() == old(Estado())
      ensures codigo == 0 ==>
        && 0 <= archivo < MAX_ARCHIVOS
        && SoloCambia(old(Estado()), plano, Estado(), plano, archivo)
        && tabla[..] == old(tabla[..])[archivo := tabla[archivo]]
        && EsMovida(tabla[archivo], old(tabla[archivo]), hacia[|hacia| - 1],
                    ComoPadre(ResolverPadre(old(tabla[..]), hacia)))
    {
      var arch := ObtenerArchivo(desde);
      archivo := arch;
      ResolverDentro(tabla[..], desde);
      var archivoNuevo := ObtenerArchivo(hacia);
      var nombre := hacia[|hacia| - 1];
      var dirPadre := ObtenerDirectorioPadre(hacia);
      if archivoNuevo >= 0 {
        return 3, arch;
      }
      if arch < 0 {
        return 1, arch;
      }
      if |nombre| > LARGO_NOMBRE {
        return 2, arch;
      }
      Mover(arch, nombre, ComoPadre(dirPadre));
      return 0, arch;
    }
  }

  /** An int stored in the 16-bit parent field. */
  function ComoPadre(dir: int): nat {
    dir % 0x1_0000
  }

  /** The reply to a create request. */
  ghost function CodigoCrear(t: seq<Entrada>, dirPadre: int, nombre: Cadena): int {
    if |nombre| > LARGO_NOMBRE then -2
    else if dirPadre < 0 then -1
    else if ExisteVivo(t, nombre, dirPadre) then -3
    else if forall j :: 0 <= j < |t| ==> Vivo(t, j) then -4
    else 0
  }

  /** The reply to a rename request. */
  function CodigoRenombrar(t: seq<Entrada>, desde: seq<Cadena>, hacia: seq<Cadena>): nat
    requires hacia != []
  {
    if Resolver(t, hacia) >= 0 then 3
    else if Resolver(t, desde) < 0 then 1
    else if |hacia[|hacia| - 1]| > LARGO_NOMBRE then 2
    else 0
  }

  /** The same entry under a new name and parent. */
  ghost predicate EsMovida(e: Entrada, viejo: Entrada, nombre: Cadena, dir: nat) {
    && e.estado == viejo.estado && e.tam == viejo.tam && e.primero == viejo.primero
    && Texto(e.nombre) == nombre && e.padre == dir
  }

  /** A 64-bit size read as an int. */
  function AInt32(x: nat): int {
    var m := x % 0x1_0000_0000;
    if m < 0x8000_0000 then m else m - 0x1_0000_0000
  }

  /** The number of blocks of a size, as the int that counts them. */
  function BloquesPedidos(size: nat): int {
    AInt32(Necesarios(size))
  }

  /** A size as the 32-bit field stores it. */
  function TamGuardado(size: nat): nat {
    size % 0x1_0000_0000
  }

  /** The chain can be brought to n blocks. */
  ghost predicate SePuedeRedimensionar(d: Disco, p: Plano, f: nat, n: nat)
    requires Consistente(d, p) && f < MAX_ARCHIVOS
  {
    n <= |p.cadenas[f]| + |d.Libres()|
  }

  /** Growing this file to n blocks would lose blocks: it has none, needs some, and some are free. */
  ghost predicate PierdeAlCrecer(d: Disco, p: Plano, f: nat, n: nat)
    requires Consistente(d, p) && f < MAX_ARCHIVOS
  {
    p.cadenas[f] == [] && n > 0 && d.Libres() != {}
  }

  /** The chain went from n blocks to m of them: cut, or padded with zeroed blocks. */
  ghost predicate CadenaAjustada(d: Disco, c: seq<nat>, d': Disco, c': seq<nat>, m: nat) {
    && |c'| == m
    && if m <= |c| then c' == c[..m] && d'.datos == d.datos && EnRango(d, c)
       else Escrito(d, c, d', c', 0, [])
  }

  ghost predicate SoloEsaEntrada(d: Disco, d': Disco, f: nat)
    requires f < |d.tabla|
  {
    && |d'.tabla| == |d.tabla|
    && d'.tabla == d.tabla[f := d.tabla[f].(primero := d'.tabla[f].primero, tam := d'.tabla[f].tam)]
  }

  /** What a resize of a regular file to n blocks and size `tam` does. */
  ghost predicate Redimensionado(d: Disco, p: Plano, d': Disco, p': Plano, f: nat, n: nat, tam: nat)
    requires Consistente(d, p) && f < MAX_ARCHIVOS
  {
    && SoloEsaEntrada(d, d', f)
    && d'.tabla[f].tam == (if SePuedeRedimensionar(d, p, f, n) then tam else 0)
    && if PierdeAlCrecer(d, p, f, n) then
         && SoloPierde(d, p, d', p', f)
         && |p'.Perdidos()| == |p.Perdidos()| + Menor(n, |d.Libres()|)
       else
         && SoloCambia(d, p, d', p', f)
         && if SePuedeRedimensionar(d, p, f, n) then CadenaAjustada(d, p.cadenas[f], d', p'.cadenas[f], n)
            else p'.cadenas[f] == []
  }

  function Menor(a: nat, b: nat): nat {
    if a < b then a else b
  }

  /** The shrinking loop and then the growing loop, seen together. */
  ghost predicate EnBloques(d: Disco, p: Plano, d': Disco, p': Plano, f: nat, n: nat)
    requires Consistente(d, p) && f < MAX_ARCHIVOS
  {
    if PierdeAlCrecer(d, p, f, n) then
      && SoloPierde(d, p, d', p', f)
      && |p'.Perdidos()| == |p.Perdidos()| + Menor(n, |d.Libres()|)
    else
      && SoloCambia(d, p, d', p', f)
      && (SePuedeRedimensionar(d, p, f, n) ==> CadenaAjustada(d, p.cadenas[f], d', p'.cadenas[f], n))
  }

  /** A slice of a prefix is a slice of the whole. */
  lemma Rebanada<T>(s: seq<T>, n: nat, a: nat, b: nat)
    requires a <= b <= n && b <= |s|
    ensures n <= |s| ==> s[..n][a..b] == s[a..b]
  {
  }

  lemma DeNada()
    ensures BloquesPedidos(0) == 0 && TamGuardado(0) == 0
  {
  }

  lemma HastaSuBloque(k: nat, o: nat, cuantos: nat)
    ensures BloquesHasta(TAM_BLOQUE * k + o, cuantos) >= k + 1
  {
  }

  lemma SiguienteHaceFalta(k: nat, cuantos: nat)
    requires cuantos > 0
    ensures BloquesHasta(TAM_BLOQUE * (k + 1), cuantos) >= k + 2
    ensures BloquesHasta(TAM_BLOQUE * (k + 1) + 0, cuantos) == BloquesHasta(TAM_BLOQUE * (k + 1), cuantos)
  {
  }

  /** Two steps on the same file, the first of which writes nothing. */
  lemma EscrituraSeguida(d0: Disco, p0: Plano, d1: Disco, p1: Plano, d2: Disco, p2: Plano, f: nat, pos: nat,
                         nuevos: seq<Byte>)
    requires SoloCambia(d0, p0, d1, p1, f) && SoloCambia(d1, p1, d2, p2, f)
    requires Escrito(d0, p0.cadenas[f], d1, p1.cadenas[f], 0, [])
    requires Escrito(d1, p1.cadenas[f], d2, p2.cadenas[f], pos, nuevos)
    ensures SoloCambia(d0, p0, d2, p2, f) && Escrito(d0, p0.cadenas[f], d2, p2.cadenas[f], pos, nuevos)
  {
    SoloCambiaTrans(d0, p0, d1, p1, d2, p2, f);
    EscritoTrasExtender(d0, p0.cadenas[f], d1, p1.cadenas[f], d2, p2.cadenas[f], pos, nuevos);
  }

  lemma EscritoIgualOrigen(d: Disco, d1: Disco, c: seq<nat>, d2: Disco, c2: seq<nat>)
    requires d1.datos == d.datos && EnRango(d, c) && Escrito(d1, c, d2, c2, 0, [])
    ensures Escrito(d, c, d2, c2, 0, [])
  {
  }

  lemma RedimensionarEnBloques(d0: Disco, p0: Plano, d1: Disco, p1: Plano, d2: Disco, p2: Plano, f: nat, n: nat)
    requires SoloCambia(d0, p0, d1, p1, f) && d1.datos == d0.datos && EnRango(d0, p0.cadenas[f])
    requires p1.cadenas[f] == p0.cadenas[f][..Menor(n, |p0.cadenas[f]|)]
    requires p0.cadenas[f] == [] ==> d1.Libres() == d0.Libres()
    requires p1.cadenas[f] != [] ==>
      SoloCambia(d1, p1, d2, p2, f) && Escrito(d1, p1.cadenas[f], d2, p2.cadenas[f], 0, [])
    requires p1.cadenas[f] != [] && n <= |p1.cadenas[f]| + |d1.Libres()| ==>
      |p2.cadenas[f]| == Mayor(|p1.cadenas[f]|, n)
    requires p1.cadenas[f] == [] ==> SoloPierde(d1, p1, d2, p2, f)
    requires p1.cadenas[f] == [] && n <= |d1.Libres()| ==> |p2.Perdidos()| == |p1.Perdidos()| + n
    requires n > |p1.cadenas[f]| + |d1.Libres()| ==> d2.Libres() == {}
    requires n <= |p1.cadenas[f]| || d1.Libres() == {} ==> d2 == d1 && p2 == p1
    ensures EnBloques(d0, p0, d2, p2, f, n)
  {
    if n > |p0.cadenas[f]| {
      if p0.cadenas[f] != [] {
        assert p1.cadenas[f] == p0.cadenas[f];
        SoloCambiaTrans(d0, p0, d1, p1, d2, p2, f);
        EscritoIgualOrigen(d0, d1, p0.cadenas[f], d2, p2.cadenas[f]);
      } else if d0.Libres() != {} {
        CambiaYPierde(d0, p0, d1, p1, d2, p2, f);
      }
    }
  }

  lemma CambiaYPierde(d0: Disco, p0: Plano, d1: Disco, p1: Plano, d2: Disco, p2: Plano, f: nat)
    requires SoloCambia(d0, p0, d1, p1, f) && SoloPierde(d1, p1, d2, p2, f) && p0.cadenas[f] == []
    ensures SoloPierde(d0, p0, d2, p2, f)
  {
    forall g | 0 <= g < MAX_ARCHIVOS && g != f
      ensures MismoArchivo(d0, p0, d2, p2, g)
    {
      assert MismoArchivo(d0, p0, d1, p1, g) && MismoArchivo(d1, p1, d2, p2, g);
    }
  }

  lemma PierdeYCambia(d0: Disco, p0: Plano, d1: Disco, p1: Plano, d2: Disco, p2: Plano, f: nat)
    requires SoloPierde(d0, p0, d1, p1, f) && SoloCambia(d1, p1, d2, p2, f) && p2.cadenas[f] == []
    ensures SoloPierde(d0, p0, d2, p2, f)
  {
    forall g | 0 <= g < MAX_ARCHIVOS && g != f
      ensures MismoArchivo(d0, p0, d2, p2, g)
    {
      assert MismoArchivo(d0, p0, d1, p1, g) && MismoArchivo(d1, p1, d2, p2, g);
    }
  }

  /** Setting the size completes a resize that had enough blocks. */
  lemma FijarTam(d0: Disco, p0: Plano, d2: Disco, p2: Plano, f: nat, n: nat, tam: nat)
    requires f < MAX_ARCHIVOS && Consistente(d0, p0) && EnBloques(d0, p0, d2, p2, f, n)
    requires SePuedeRedimensionar(d0, p0, f, n) && SoloEsaEntrada(d0, d2, f) && d2.tabla[f].estado.Regular?
    ensures Consistente(ConEntrada(d2, f, d2.tabla[f].(tam := tam)), p2)
    ensures Redimensionado(d0, p0, ConEntrada(d2, f, d2.tabla[f].(tam := tam)), p2, f, n, tam)
  {
    var d' := ConEntrada(d2, f, d2.tabla[f].(tam := tam));
    CambiarEntradaSolo(d2, p2, f, d2.tabla[f].(tam := tam));
    if PierdeAlCrecer(d0, p0, f, n) {
      PierdeYCambia(d0, p0, d2, p2, d', p2, f);
    } else {
      SoloCambiaTrans(d0, p0, d2, p2, d', p2, f);
      if n > |p0.cadenas[f]| {
        EscritoIgual(d0, p0.cadenas[f], d2, p2.cadenas[f], d', 0, []);
      }
    }
  }

  /** Truncating to nothing after the blocks ran out completes a resize that failed. */
  lemma VaciadoTrasFallar(d0: Disco, p0: Plano, d2: Disco, p2: Plano, d3: Disco, p3: Plano, f: nat, n: nat, tam: nat)
    requires f < MAX_ARCHIVOS && Consistente(d0, p0) && EnBloques(d0, p0, d2, p2, f, n)
    requires !SePuedeRedimensionar(d0, p0, f, n) && SoloEsaEntrada(d0, d2, f)
    requires Redimensionado(d2, p2, d3, p3, f, 0, 0)
    ensures Redimensionado(d0, p0, d3, p3, f, n, tam)
  {
    if PierdeAlCrecer(d0, p0, f, n) {
      PierdeYCambia(d0, p0, d2, p2, d3, p3, f);
    } else {
      SoloCambiaTrans(d0, p0, d2, p2, d3, p3, f);
    }
  }

  /** The chain of f is now n blocks long and the bytes past the old end are zeros. */
  ghost predicate Alargado(d: Disco, p: Plano, d': Disco, p': Plano, f: nat, n: nat) {
    && SoloCambia(d, p, d', p', f) && |p'.cadenas[f]| == n
    && Escrito(d, p.cadenas[f], d', p'.cadenas[f], 0, [])
  }

  lemma AlargadoTrans(d: Disco, p: Plano, d': Disco, p': Plano, d'': Disco, p'': Plano, f: nat, n: nat)
    requires Alargado(d, p, d', p', f, n) && Alargado(d', p', d'', p'', f, n + 1)
    ensures Alargado(d, p, d'', p'', f, n + 1)
  {
    SoloCambiaTrans(d, p, d', p', d'', p'', f);
    EscritoTrasExtender(d, p.cadenas[f], d', p'.cadenas[f], d'', p''.cadenas[f], 0, []);
  }

  /** The block the growing loop links from: the last of the chain, or with no chain none or
      a lost one. */
  ghost predicate AnteriorValido(p: Plano, f: nat, anterior: int)
    requires f < |p.cadenas|
  {
    var c := p.cadenas[f];
    if c != [] then anterior == c[|c| - 1]
    else -1 <= anterior < |p.lugar| && (anterior >= 0 ==> p.lugar[anterior].Perdido?)
  }

  /** Block k of a chain of n blocks can be reached: it is on the chain, or it is the next
      one and some block is free. */
  ghost predicate Alcanzable(k: nat, n: nat, libres: set<nat>) {
    k < n || (k == n && libres != {})
  }

  /** The write is acceptable, so if it fails it is for lack of blocks. */
  ghost predicate Admisible(d: Disco, p: Plano, f: nat, offset: nat)
    requires Consistente(d, p) && f < MAX_ARCHIVOS
  {
    d.tabla[f].estado.Regular? && offset <= d.tabla[f].tam && offset / TAM_BLOQUE <= |p.cadenas[f]|
  }

  ghost predicate PuedeEscribir(d: Disco, p: Plano, f: nat, largo: nat, offset: nat)
    requires Consistente(d, p) && f < MAX_ARCHIVOS
  {
    d.tabla[f].estado.Regular? && offset <= d.tabla[f].tam && Alcanza(d, p, f, largo, offset)
  }

  /** The offset is not past the chain, and the chain with the free blocks reaches the end. */
  ghost predicate Alcanza(d: Disco, p: Plano, f: nat, largo: nat, offset: nat)
    requires Consistente(d, p) && f < MAX_ARCHIVOS
  {
    && offset / TAM_BLOQUE <= |p.cadenas[f]|
    && BloquesHasta(offset, largo) <= |p.cadenas[f]| + |d.Libres()|
  }

  function Mayor(a: nat, b: nat): nat {
    if a > b then a else b
  }
}
