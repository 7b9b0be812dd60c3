/**
 What each request does to the volume, as a relation between the moments before and after it,
 and which properties every run of requests keeps. Each property stands alone, with the exact
 condition under which a step breaks it.
 */
module OsadaPasos {
  import opened Estructuras
  import opened OsadaDisco
  import opened OsadaContenido
  import opened OsadaNombres
  import opened OsadaServidor

  datatype Pedido =
    | Crear(ruta: seq<Cadena>, tipo: EstadoArchivo)
    | Escribir(ruta: seq<Cadena>, nuevos: seq<Byte>, offset: nat)
    | Truncar(ruta: seq<Cadena>, size: nat)
    | Borrar(ruta: seq<Cadena>)
    | Renombrar(desde: seq<Cadena>, hacia: seq<Cadena>)

  /** The disk and its layout at one moment of a run. */
  datatype Momento = Momento(d: Disco, p: Plano)

  // ---------------------------------------------------------------- one request

  /** The last component of a path. */
  function Final(ruta: seq<Cadena>): Cadena
    requires ruta != []
  {
    ruta[|ruta| - 1]
  }

  ghost function RespuestaCrear(t: seq<Entrada>, ruta: seq<Cadena>): int {
    if ruta == [] then -1 else CodigoCrear(t, ResolverPadre(t, ruta), Final(ruta))
  }

  /** Only entry f changes, and only blocks of f. */
  ghost predicate CambiaEntrada(x: Momento, y: Momento, f: nat) {
    && SoloCambia(x.d, x.p, y.d, y.p, f)
    && y.d.tabla == x.d.tabla[f := y.d.tabla[f]]
  }

  /** The new entry is in the lowest deleted slot k. */
  ghost predicate Creado(x: Momento, ruta: seq<Cadena>, tipo: EstadoArchivo, y: Momento, k: nat) {
    && ruta != [] && ResolverPadre(x.d.tabla, ruta) >= 0
    && PrimerBorrado(x.d.tabla, k) && CambiaEntrada(x, y, k)
    && EsNueva(y.d.tabla[k], Final(ruta), ResolverPadre(x.d.tabla, ruta))
    && y.d.tabla[k].estado == tipo && y.d.tabla[k].tam == 0
    && |y.p.cadenas[k]| == if tipo.Regular? && x.d.Libres() != {} then 1 else 0
  }

  ghost predicate PasoCrear(x: Momento, ruta: seq<Cadena>, tipo: EstadoArchivo, r: int, y: Momento)
    requires Consistente(x.d, x.p)
  {
    && r == RespuestaCrear(x.d.tabla, ruta)
    && if r != 0 then y == x else exists k: nat :: Creado(x, ruta, tipo, y, k)
  }

  /** A write to slot f: exactly when it succeeds, what it does to the chain, the bytes and the
      size, and what a failure leaves behind. */
  ghost predicate Escritura(x: Momento, f: nat, nuevos: seq<Byte>, offset: nat, r: int, y: Momento)
    requires Consistente(x.d, x.p) && f < MAX_ARCHIVOS
  {
    var ok := PuedeEscribir(x.d, x.p, f, |nuevos|, offset);
    && r == (if ok then 1 else 0)
    && SoloCambia(x.d, x.p, y.d, y.p, f)
    && Escrito(x.d, x.p.cadenas[f], y.d, y.p.cadenas[f], if ok then offset else 0, if ok then nuevos else [])
    && y.d.tabla == x.d.tabla[f := x.d.tabla[f].(
         primero := y.d.tabla[f].primero,
         tam := if ok then Mayor(x.d.tabla[f].tam, offset + |nuevos|) else x.d.tabla[f].tam)]
    && (ok ==> |y.p.cadenas[f]| == Mayor(|x.p.cadenas[f]|, BloquesHasta(offset, |nuevos|)))
    && (!ok ==> if Admisible(x.d, x.p, f, offset) then y.d.Libres() == {} else y == x)
  }

  ghost predicate PasoEscribir(x: Momento, ruta: seq<Cadena>, nuevos: seq<Byte>, offset: nat, r: int, y: Momento)
    requires Consistente(x.d, x.p)
  {
    var f := Resolver(x.d.tabla, ruta);
    0 <= f < MAX_ARCHIVOS && Escritura(x, f, nuevos, offset, r, y)
  }

  /** The path names a regular file. */
  predicate EsRegular(t: seq<Entrada>, f: int) {
    0 <= f < |t| && t[f].estado.Regular?
  }

  ghost predicate PasoTruncar(x: Momento, ruta: seq<Cadena>, size: nat, r: int, y: Momento)
    requires Consistente(x.d, x.p)
  {
    var f, n := Resolver(x.d.tabla, ruta), BloquesPedidos(size);
    if !EsRegular(x.d.tabla, f) then r == -1 && y == x
    else
      && n >= 0 && Redimensionado(x.d, x.p, y.d, y.p, f, n, TamGuardado(size))
      && r == if SePuedeRedimensionar(x.d, x.p, f, n) then AInt32(size) else -1
  }

  ghost predicate PasoBorrar(x: Momento, ruta: seq<Cadena>, r: int, y: Momento)
    requires Consistente(x.d, x.p)
  {
    var t, f := x.d.tabla, Resolver(x.d.tabla, ruta);
    if f < 0 then r == -1 && y == x
    else
      && f < MAX_ARCHIVOS
      && if t[f].estado.Directorio? && TieneHijosVivos(t, f) then r == -2 && y == x
         else
           && r == 0 && CambiaEntrada(x, y, f) && EsBaja(y.d.tabla[f], t[f]) && y.p.cadenas[f] == []
           && y.d.tabla[f].tam == if t[f].estado.Regular? then 0 else t[f].tam
  }

  ghost predicate PasoRenombrar(x: Momento, desde: seq<Cadena>, hacia: seq<Cadena>, r: int, y: Momento)
    requires Consistente(x.d, x.p)
  {
    var t, i := x.d.tabla, Resolver(x.d.tabla, desde);
    && hacia != [] && r == CodigoRenombrar(t, desde, hacia)
    && if r != 0 then y == x
       else
         && 0 <= i < MAX_ARCHIVOS && CambiaEntrada(x, y, i) && y.p == x.p
         && EsMovida(y.d.tabla[i], t[i], Final(hacia), ComoPadre(ResolverPadre(t, hacia)))
  }

  ghost predicate Atendido(x: Momento, q: Pedido, r: int, y: Momento)
    requires Consistente(x.d, x.p)
  {
    match q
    case Crear(ruta, tipo) => PasoCrear(x, ruta, tipo, r, y)
    case Escribir(ruta, nuevos, offset) => PasoEscribir(x, ruta, nuevos, offset, r, y)
    case Truncar(ruta, size) => PasoTruncar(x, ruta, size, r, y)
    case Borrar(ruta) => PasoBorrar(x, ruta, r, y)
    case Renombrar(desde, hacia) => PasoRenombrar(x, desde, hacia, r, y)
  }

  /** Attending q at x replies r and leaves the volume at y. */
  ghost predicate Paso(x: Momento, q: Pedido, r: int, y: Momento) {
    && Consistente(x.d, x.p) && Consistente(y.d, y.p)
    && forall u {:trigger Abrir(Suceso, u)} :: Abrir(Suceso, u) ==> Atendido(x, q, r, y)
  }

  // ---------------------------------------------------------------- what readers see

  /** What readers see of a write: the splice on success, nothing on failure, and no other file
      in either case. */
  lemma EscribirVisto(x: Momento, f: nat, nuevos: seq<Byte>, offset: nat, r: int, y: Momento)
    requires Consistente(x.d, x.p) && f < MAX_ARCHIVOS && Escritura(x, f, nuevos, offset, r, y)
    ensures OtrosSeLeenIgual(x.d, x.p, y.d, y.p, f)
    ensures EnRango(x.d, x.p.cadenas[f]) && EnRango(y.d, y.p.cadenas[f])
    ensures Cubierto(x.d, x.p, f) ==>
      && Cubierto(y.d, y.p, f) && (r == 1 ==> offset <= x.d.tabla[f].tam)
      && Contenido(y.d, y.p, f) ==
         if r == 1 then Empalme(Contenido(x.d, x.p, f), offset, nuevos) else Contenido(x.d, x.p, f)
  {
    EscrituraVista(x.d, x.p, y.d, y.p, f, r == 1, nuevos, offset);
  }

  /** What readers see of a resize: other files as they were; of this one, if no block was lost,
      the bytes the old and the new size share, then what its last block held, then zeros; and
      nothing at all when the blocks did not suffice. */
  lemma TruncarVisto(d: Disco, p: Plano, d': Disco, p': Plano, f: nat, n: nat, tam: nat)
    requires Consistente(d, p) && f < MAX_ARCHIVOS && Redimensionado(d, p, d', p', f, n, tam)
    ensures Consistente(d', p') && OtrosSeLeenIgual(d, p, d', p', f)
    ensures EnRango(d, p.cadenas[f]) && EnRango(d', p'.cadenas[f])
    ensures !SePuedeRedimensionar(d, p, f, n) ==> Cubierto(d', p', f) && Contenido(d', p', f) == []
    ensures SePuedeRedimensionar(d, p, f, n) && !PierdeAlCrecer(d, p, f, n) && tam <= TAM_BLOQUE * n ==>
      && Cubierto(d', p', f)
      && Contenido(d', p', f) == (Crudo(d, p.cadenas[f]) + Ceros(tam))[..tam]
      && (Cubierto(d, p, f) ==>
            var m := Menor(d.tabla[f].tam, tam);
            Contenido(d', p', f)[..m] == Contenido(d, p, f)[..m])
  {
    assert EsCadena(d.fat, d.tabla[f].primero, p.cadenas[f]);
    assert EsCadena(d'.fat, d'.tabla[f].primero, p'.cadenas[f]);
    OtrosContenidos(d, p, d', p', f);
    if SePuedeRedimensionar(d, p, f, n) && !PierdeAlCrecer(d, p, f, n) && tam <= TAM_BLOQUE * n {
      CambioDeTamVisto(d, p, d', p', f, n, tam);
    }
  }

  /** A resize of a regular file is reported as done, by a reply that is not negative, exactly when
      it is done and bit 31 of the size is clear. */
  lemma TruncarResponde(x: Momento, ruta: seq<Cadena>, size: nat, r: int, y: Momento)
    requires Paso(x, Truncar(ruta, size), r, y) && EsRegular(x.d.tabla, Resolver(x.d.tabla, ruta))
    ensures r >= 0 <==>
      && BloquesPedidos(size) >= 0 && TamGuardado(size) < 0x8000_0000
      && SePuedeRedimensionar(x.d, x.p, Resolver(x.d.tabla, ruta), BloquesPedidos(size))
  {
    assert Abrir(Suceso, 0);
  }

  /** What a write of some bytes comes to: `sirve` when file and offset are acceptable, `c` blocks
      in its chain before and `m` after, `libres` free ones before. It is done exactly when the
      chain reaches the offset and, with the free blocks, the end; then it takes no block more
      than it needs. */
  predicate MedidaEscritura(sirve: bool, offset: nat, largo: nat, c: nat, libres: nat, r: int, m: nat) {
    && (r == 1 <==> sirve && offset < TAM_BLOQUE * (c + 1) && offset + largo <= TAM_BLOQUE * (c + libres))
    && (r == 1 ==> offset + largo <= TAM_BLOQUE * m)
    && (r == 1 ==> m == c || (m > c && TAM_BLOQUE * (m - 1) < offset + largo))
    && (r == 1 || r == 0)
  }

  lemma MedidaEscrituraSi(sirve: bool, offset: nat, largo: nat, c: nat, libres: nat, r: int, m: nat)
    requires largo > 0
    requires r == if sirve && offset / TAM_BLOQUE <= c && BloquesHasta(offset, largo) <= c + libres then 1 else 0
    requires r == 1 ==> m == Mayor(c, BloquesHasta(offset, largo))
    ensures MedidaEscritura(sirve, offset, largo, c, libres, r, m)
  {
    var b := BloquesHasta(offset, largo);
    assert TAM_BLOQUE * (b - 1) < offset + largo <= TAM_BLOQUE * b;
    assert offset / TAM_BLOQUE <= c <==> offset < TAM_BLOQUE * (c + 1);
  }

  lemma CuentasAlEscribir(x: Momento, f: nat, nuevos: seq<Byte>, offset: nat, r: int, y: Momento)
    requires Consistente(x.d, x.p) && f < MAX_ARCHIVOS && Escritura(x, f, nuevos, offset, r, y)
    ensures var sirve, c := x.d.tabla[f].estado.Regular? && offset <= x.d.tabla[f].tam, |x.p.cadenas[f]|;
      && r == (if sirve && offset / TAM_BLOQUE <= c && BloquesHasta(offset, |nuevos|) <= c + |x.d.Libres()| then 1
               else 0)
      && (r == 1 ==> |y.p.cadenas[f]| == Mayor(c, BloquesHasta(offset, |nuevos|)))
  {
  }

  /** A write of at least one byte, in bytes. */
  lemma EscribirMide(x: Momento, f: nat, nuevos: seq<Byte>, offset: nat, r: int, y: Momento)
    requires Consistente(x.d, x.p) && f < MAX_ARCHIVOS && Escritura(x, f, nuevos, offset, r, y) && nuevos != []
    ensures MedidaEscritura(x.d.tabla[f].estado.Regular? && offset <= x.d.tabla[f].tam, offset, |nuevos|,
                            |x.p.cadenas[f]|, |x.d.Libres()|, r, |y.p.cadenas[f]|)
  {
    CuentasAlEscribir(x, f, nuevos, offset, r, y);
    MedidaEscrituraSi(x.d.tabla[f].estado.Regular? && offset <= x.d.tabla[f].tam, offset, |nuevos|,
                      |x.p.cadenas[f]|, |x.d.Libres()|, r, |y.p.cadenas[f]|);
  }

  /** The count of blocks is the least that holds the size, while an int can count them. */
  lemma BloquesJustos(size: nat)
    requires size <= TAM_BLOQUE * 0x7FFF_FFFF
    ensures var n := BloquesPedidos(size);
      n >= 0 && size <= TAM_BLOQUE * n && (size > 0 ==> TAM_BLOQUE * (n - 1) < size) && (size == 0 ==> n == 0)
  {
  }

  lemma CadenaMide(d: Disco, p: Plano, d': Disco, p': Plano, f: nat, n: nat, tam: nat)
    requires Consistente(d, p) && f < MAX_ARCHIVOS && Redimensionado(d, p, d', p', f, n, tam) && p.cadenas[f] != []
    ensures |p'.cadenas[f]| == (if SePuedeRedimensionar(d, p, f, n) then n else 0)
  {
  }

  lemma CuentasAlTruncar(x: Momento, ruta: seq<Cadena>, size: nat, r: int, y: Momento, f: nat)
    requires Paso(x, Truncar(ruta, size), r, y) && EsRegular(x.d.tabla, f) && f == Resolver(x.d.tabla, ruta)
    requires f < MAX_ARCHIVOS && BloquesPedidos(size) >= 0 && x.p.cadenas[f] != []
    ensures var n, hay := BloquesPedidos(size), |x.p.cadenas[f]| + |x.d.Libres()|;
      && hay < MAX_BLOQUES && r == (if n <= hay then AInt32(size) else -1)
      && y.d.tabla[f].tam == (if n <= hay then TamGuardado(size) else 0)
      && |y.p.cadenas[f]| == (if n <= hay then n else 0)
  {
    assert Abrir(Suceso, 0);
    CadenaMide(x.d, x.p, y.d, y.p, f, BloquesPedidos(size), TamGuardado(size));
    CadenaYLibres(x.d, x.p, f);
  }

  /** What a resize of a file with blocks comes to, in bytes: `hay` are its own blocks and the free
      ones, `m` the blocks it ends with. */
  predicate Medido(size: nat, hay: nat, r: int, tam: nat, m: nat) {
    var alcanza := size <= TAM_BLOQUE * hay;
    && (size < 0x8000_0000 ==> r == if alcanza then size else -1)
    && tam == (if alcanza then size else 0)
    && (alcanza ==> size <= TAM_BLOQUE * m && if size == 0 then m == 0 else TAM_BLOQUE * (m - 1) < size)
    && (!alcanza ==> m == 0)
  }

  lemma MedidoSi(size: nat, n: nat, hay: nat)
    requires size <= TAM_BLOQUE * 0x7FFF_FFFF && n == BloquesPedidos(size) && hay < MAX_BLOQUES
    ensures if n <= hay then Medido(size, hay, AInt32(size), TamGuardado(size), n) else Medido(size, hay, -1, 0, 0)
  {
    BloquesJustos(size);
    assert size <= TAM_BLOQUE * hay <==> n <= hay;
  }

  /** It is done exactly when those blocks hold the size. Then the size is the one asked for and
      the chain has as many blocks as it takes and not one more; otherwise the file ends empty. */
  lemma TruncarMide(x: Momento, ruta: seq<Cadena>, size: nat, r: int, y: Momento, f: nat)
    requires Paso(x, Truncar(ruta, size), r, y) && EsRegular(x.d.tabla, f) && f == Resolver(x.d.tabla, ruta)
    requires f < MAX_ARCHIVOS && x.p.cadenas[f] != [] && size <= TAM_BLOQUE * 0x7FFF_FFFF
    ensures Medido(size, |x.p.cadenas[f]| + |x.d.Libres()|, r, y.d.tabla[f].tam, |y.p.cadenas[f]|)
  {
    BloquesJustos(size);
    CuentasAlTruncar(x, ruta, size, r, y, f);
    MedidoSi(size, BloquesPedidos(size), |x.p.cadenas[f]| + |x.d.Libres()|);
  }

  /** Every request changes what readers see of at most one slot. */
  lemma PasoTocaUno(x: Momento, q: Pedido, r: int, y: Momento) returns (f: nat)
    requires Paso(x, q, r, y)
    ensures f < MAX_ARCHIVOS && OtrosSeLeenIgual(x.d, x.p, y.d, y.p, f)
  {
    assert Abrir(Suceso, 0);
    if y == x {
      f := 0;
      SoloCambiaRefl(x.d, x.p, f);
      OtrosContenidos(x.d, x.p, y.d, y.p, f);
    } else {
      match q {
        case Crear(ruta, tipo) =>
          f :| Creado(x, ruta, tipo, y, f);
        case Escribir(ruta, nuevos, offset) =>
          f := Resolver(x.d.tabla, ruta);
        case Truncar(ruta, size) =>
          f := Resolver(x.d.tabla, ruta);
        case Borrar(ruta) =>
          f := Resolver(x.d.tabla, ruta);
        case Renombrar(desde, hacia) =>
          f := Resolver(x.d.tabla, desde);
      }
      OtrosContenidos(x.d, x.p, y.d, y.p, f);
    }
  }

  // ---------------------------------------------------------------- well-formedness

  /** The count of blocks of this size wraps to 0 while the size itself does not. */
  predicate DesbordaTam(size: nat) {
    size % 0x40_0000_0000 > 0x40_0000_0000 - TAM_BLOQUE
  }

  /** What is counted and stored of a size does not depend on its bits from the 38th on. */
  lemma SoloBitsBajos(size: nat, q: nat, s: nat)
    requires size == q * 0x40_0000_0000 + s && s < 0x40_0000_0000
    ensures Necesarios(size) == q * 0x1_0000_0000 + Necesarios(s) && TamGuardado(size) == s % 0x1_0000_0000
  {
  }

  lemma AInt32Periodico(q: nat, c: nat)
    ensures AInt32(q * 0x1_0000_0000 + c) == AInt32(c)
  {
  }

  lemma DesbordaTamBajo(s: nat)
    requires s < 0x40_0000_0000 && 0 <= AInt32(Necesarios(s)) < MAX_BLOQUES
    ensures TamGuardado(s) > TAM_BLOQUE * AInt32(Necesarios(s)) <==> s > 0x40_0000_0000 - TAM_BLOQUE
  {
    if s <= 0x40_0000_0000 - TAM_BLOQUE {
      assert Necesarios(s) == AInt32(Necesarios(s)) && s <= TAM_BLOQUE * Necesarios(s);
    }
  }

  /** With a count of blocks a volume can hold, the size stored is past them exactly when the
      count wrapped. */
  lemma DesbordaTamSii(size: nat)
    requires 0 <= BloquesPedidos(size) < MAX_BLOQUES
    ensures TamGuardado(size) > TAM_BLOQUE * BloquesPedidos(size) <==> DesbordaTam(size)
  {
    var q, s := size / 0x40_0000_0000, size % 0x40_0000_0000;
    SoloBitsBajos(size, q, s);
    AInt32Periodico(q, Necesarios(s));
    DesbordaTamBajo(s);
  }

  /** A resize that loses blocks, or whose size ends past its blocks. */
  ghost predicate Pierde(x: Momento, q: Pedido) {
    Consistente(x.d, x.p) && q.Truncar? && var f, n := Resolver(x.d.tabla, q.ruta), BloquesPedidos(q.size);
    && EsRegular(x.d.tabla, f) && n >= 0
    && (PierdeAlCrecer(x.d, x.p, f, n) || (SePuedeRedimensionar(x.d, x.p, f, n) && DesbordaTam(q.size)))
  }

  lemma SaneadoTrasCambio(x: Momento, y: Momento, f: nat)
    requires Sano(x.d, x.p) && CambiaEntrada(x, y, f) && y.d.tabla[f].tam <= TAM_BLOQUE * |y.p.cadenas[f]|
    ensures Sano(y.d, y.p)
  {
    forall g | 0 <= g < MAX_ARCHIVOS
      ensures y.d.tabla[g].tam <= TAM_BLOQUE * |y.p.cadenas[g]|
    {
      if g != f {
        assert MismoArchivo(x.d, x.p, y.d, y.p, g);
      }
    }
  }

  /** Resizing keeps a well-formed disk well formed exactly when it loses no block and the size
      stored is covered. */
  lemma TruncarBienFormadoSii(x: Momento, y: Momento, f: nat, n: nat, tam: nat)
    requires Sano(x.d, x.p) && f < MAX_ARCHIVOS && Redimensionado(x.d, x.p, y.d, y.p, f, n, tam)
    ensures BienFormado(y.d) <==>
      !PierdeAlCrecer(x.d, x.p, f, n) && (SePuedeRedimensionar(x.d, x.p, f, n) ==> tam <= TAM_BLOQUE * n)
    ensures BienFormado(y.d) <==> Sano(y.d, y.p)
  {
    BienFormadoSii(y.d, y.p);
    if PierdeAlCrecer(x.d, x.p, f, n) {
      assert |y.p.Perdidos()| > 0;
    } else if SePuedeRedimensionar(x.d, x.p, f, n) ==> tam <= TAM_BLOQUE * n {
      SaneadoTrasCambio(x, y, f);
    }
  }

  /** A chain and the free blocks are different blocks of the volume. */
  lemma CadenaYLibres(d: Disco, p: Plano, f: nat)
    requires Consistente(d, p) && f < MAX_ARCHIVOS
    ensures |p.cadenas[f]| + |d.Libres()| <= d.N()
  {
    var c := p.cadenas[f];
    assert forall k :: 0 <= k < |c| ==> p.lugar[c[k]] == En(f, k);
    var usados := ElementosDistintos(c);
    assert usados !! d.Libres();
    Acotado(usados + d.Libres(), d.N());
  }

  lemma {:induction false} ElementosDistintos(c: seq<nat>) returns (s: set<nat>)
    requires forall j, k :: 0 <= j < k < |c| ==> c[j] != c[k]
    ensures |s| == |c| && forall b :: b in s <==> b in c
  {
    if c == [] {
      s := {};
    } else {
      var r := c[..|c| - 1];
      s := ElementosDistintos(r);
      assert c == r + [c[|c| - 1]];
      s := s + {c[|c| - 1]};
    }
  }

  lemma {:induction false} Acotado(s: set<nat>, n: nat)
    requires forall b :: b in s ==> b < n
    ensures |s| <= n
  {
    if n > 0 {
      Acotado(s - {n - 1}, n - 1);
    }
  }

  lemma SanoTrasEscribir(x: Momento, f: nat, nuevos: seq<Byte>, offset: nat, r: int, y: Momento)
    requires Sano(x.d, x.p) && f < MAX_ARCHIVOS && Escritura(x, f, nuevos, offset, r, y)
    ensures Sano(y.d, y.p)
  {
    assert |x.p.cadenas[f]| <= |y.p.cadenas[f]|;
    SaneadoTrasCambio(x, y, f);
  }

  lemma SanoTrasTruncar(x: Momento, f: nat, size: nat, y: Momento)
    requires Sano(x.d, x.p) && f < MAX_ARCHIVOS && BloquesPedidos(size) >= 0
    requires Redimensionado(x.d, x.p, y.d, y.p, f, BloquesPedidos(size), TamGuardado(size))
    ensures BienFormado(y.d) <==>
      !PierdeAlCrecer(x.d, x.p, f, BloquesPedidos(size)) &&
      !(SePuedeRedimensionar(x.d, x.p, f, BloquesPedidos(size)) && DesbordaTam(size))
  {
    var n := BloquesPedidos(size);
    TruncarBienFormadoSii(x, y, f, n, TamGuardado(size));
    if SePuedeRedimensionar(x.d, x.p, f, n) {
      CadenaYLibres(x.d, x.p, f);
      DesbordaTamSii(size);
    }
  }

  /** A request keeps a well-formed disk well formed exactly when it is not such a resize. */
  lemma PasoBienFormadoSii(x: Momento, q: Pedido, r: int, y: Momento)
    requires Paso(x, q, r, y) && BienFormado(x.d)
    ensures BienFormado(y.d) <==> !Pierde(x, q)
  {
    assert Abrir(Suceso, 0);
    BienFormadoSii(x.d, x.p);
    BienFormadoSii(y.d, y.p);
    match q {
      case Crear(ruta, tipo) =>
        if r == 0 {
          var k: nat :| Creado(x, ruta, tipo, y, k);
          SaneadoTrasCambio(x, y, k);
        }
      case Escribir(ruta, nuevos, offset) =>
        SanoTrasEscribir(x, Resolver(x.d.tabla, ruta), nuevos, offset, r, y);
      case Truncar(ruta, size) =>
        if EsRegular(x.d.tabla, Resolver(x.d.tabla, ruta)) {
          SanoTrasTruncar(x, Resolver(x.d.tabla, ruta), size, y);
        }
      case Borrar(ruta) =>
        if r == 0 {
          SaneadoTrasCambio(x, y, Resolver(x.d.tabla, ruta));
        }
      case Renombrar(desde, hacia) =>
        if r == 0 {
          SaneadoTrasCambio(x, y, Resolver(x.d.tabla, desde));
        }
    }
  }

  // ---------------------------------------------------------------- look-up

  /** Slot j has the name in the root, and shadows slot i or is shadowed by it there. */
  ghost predicate ChocaEnRaiz(t: seq<Entrada>, i: int, nombre: Cadena, j: nat) {
    && 0 <= i < |t| && j < |t| && j != i
    && Texto(t[j].nombre) == nombre && t[j].padre == DIRECTORIO_NULO
    && Vivo(t, if j < i then i else j)
  }

  /** An accepted rename whose target directory did not resolve, and whose new name clashes with
      another slot of the root. */
  ghost predicate Oculta(t: seq<Entrada>, q: Pedido) {
    && q.Renombrar? && q.hacia != []
    && CodigoRenombrar(t, q.desde, q.hacia) == 0 && ResolverPadre(t, q.hacia) < 0
    && exists j: nat :: ChocaEnRaiz(t, Resolver(t, q.desde), Final(q.hacia), j)
  }

  /** The same states, names and parents. */
  ghost predicate MismosNombres(t: seq<Entrada>, t': seq<Entrada>) {
    && |t'| == |t|
    && forall i :: 0 <= i < |t| ==>
         t'[i].estado == t[i].estado && t'[i].nombre == t[i].nombre && t'[i].padre == t[i].padre
  }

  lemma SinSombraIgual(t: seq<Entrada>, t': seq<Entrada>)
    requires MismosNombres(t, t') && SinSombra(t)
    ensures SinSombra(t')
  {
    forall j, i | 0 <= j < i < |t'| && Vivo(t', i)
      ensures !MismaClave(t'[j], t'[i])
    {
      assert Vivo(t, i) && !MismaClave(t[j], t[i]);
    }
  }

  lemma PadreDentro(t: seq<Entrada>, ruta: seq<Cadena>)
    requires |t| == MAX_ARCHIVOS
    ensures ResolverPadre(t, ruta) < |t| || ResolverPadre(t, ruta) == DIRECTORIO_NULO
  {
    if ruta != [] && ruta[..|ruta| - 1] != [] {
      ResolverDentro(t, ruta[..|ruta| - 1]);
    }
  }

  /** A parent that resolved is stored as it is, and one that did not as the root. */
  lemma PadreGuardado(dir: int)
    requires -1 <= dir <= DIRECTORIO_NULO
    ensures ComoPadre(dir) == if dir < 0 then DIRECTORIO_NULO else dir
  {
  }

  /** After an accepted rename, look-up is right exactly when the target directory resolved or
      the name clashes with no slot of the root. */
  lemma RenombrarSinSombra(t: seq<Entrada>, desde: seq<Cadena>, hacia: seq<Cadena>, i: nat, e: Entrada)
    requires SinSombra(t) && |t| == MAX_ARCHIVOS && hacia != [] && CodigoRenombrar(t, desde, hacia) == 0
    requires i == Resolver(t, desde) && i < |t|
    requires EsMovida(e, t[i], Final(hacia), ComoPadre(ResolverPadre(t, hacia)))
    ensures SinSombra(t[i := e]) <==> !Oculta(t, Renombrar(desde, hacia))
  {
    PadreDentro(t, hacia);
    PadreGuardado(ResolverPadre(t, hacia));
    ClaveNueva(t, hacia, i, e);
  }

  lemma ClaveNueva(t: seq<Entrada>, hacia: seq<Cadena>, i: nat, e: Entrada)
    requires SinSombra(t) && hacia != [] && Resolver(t, hacia) < 0 && i < |t|
    requires e.estado == t[i].estado && Texto(e.nombre) == Final(hacia) && |Final(hacia)| <= LARGO_NOMBRE
    requires e.padre == if ResolverPadre(t, hacia) < 0 then DIRECTORIO_NULO else ResolverPadre(t, hacia)
    ensures ResolverPadre(t, hacia) >= 0 ==> SinSombra(t[i := e])
    ensures ResolverPadre(t, hacia) < 0 ==>
      (SinSombra(t[i := e]) <==> !exists j: nat :: ChocaEnRaiz(t, i, Final(hacia), j))
  {
    RenombrarSinSombraSii(t, i, e);
    if ResolverPadre(t, hacia) >= 0 {
      ResolverPorPadre(t, hacia);
      SinChoqueSiNoSeHalla(t, i, e);
    } else {
      assert forall j: nat :: ChocaEnRaiz(t, i, Final(hacia), j) <==> Choca(t, i, e, j);
    }
  }

  /** A request keeps every live entry findable exactly when it is not such a rename. */
  lemma PasoSinSombraSii(x: Momento, q: Pedido, r: int, y: Momento)
    requires Paso(x, q, r, y) && SinSombra(x.d.tabla)
    ensures SinSombra(y.d.tabla) <==> !Oculta(x.d.tabla, q)
  {
    assert Abrir(Suceso, 0);
    var t := x.d.tabla;
    match q {
      case Crear(ruta, tipo) =>
        if r == 0 {
          var k: nat :| Creado(x, ruta, tipo, y, k);
          CrearSinSombra(t, k, y.d.tabla[k], Final(ruta), ResolverPadre(t, ruta));
        }
      case Escribir(ruta, nuevos, offset) =>
        SinSombraIgual(t, y.d.tabla);
      case Truncar(ruta, size) =>
        SinSombraIgual(t, y.d.tabla);
      case Borrar(ruta) =>
        if r == 0 {
          BorrarSinSombra(t, Resolver(t, ruta), y.d.tabla[Resolver(t, ruta)]);
        }
      case Renombrar(desde, hacia) =>
        if r == 0 {
          RenombrarSinSombra(t, desde, hacia, Resolver(t, desde), y.d.tabla[Resolver(t, desde)]);
        }
    }
  }

  // ---------------------------------------------------------------- the tree

  /** A create whose parent is not a live directory, or an accepted rename of a live entry to
      something that is not one or is below the entry itself. */
  ghost predicate Desarma(t: seq<Entrada>, q: Pedido) {
    match q
    case Crear(ruta, _) => RespuestaCrear(t, ruta) == 0 && !DirectorioValido(t, ResolverPadre(t, ruta))
    case Renombrar(desde, hacia) =>
      && hacia != [] && CodigoRenombrar(t, desde, hacia) == 0 && Vivo(t, Resolver(t, desde))
      && var dir := ComoPadre(ResolverPadre(t, hacia));
         !DirectorioValido(t, dir) || EsAncestro(t, Resolver(t, desde), dir)
    case _ => false
  }

  lemma ArbolIgual(t: seq<Entrada>, t': seq<Entrada>)
    requires MismosNombres(t, t') && Arbol(t)
    ensures Arbol(t')
  {
    forall i | 0 <= i < |t'| && Vivo(t', i)
      ensures DirectorioValido(t', t'[i].padre) && Enraizado(t', i)
    {
      assert Vivo(t, i);
      var n: nat :| Arriba(t, i, n) == DIRECTORIO_NULO;
      forall m | 0 <= m < n
        ensures Arriba(t, i, m) != |t|
      {
        AncestrosVivos(t, i, m);
      }
      ArribaIgual(t, t', |t|, i, n);
    }
  }

  /** A deleted entry is nobody's parent, so moving it changes nothing. */
  lemma MuertoNoAfecta(t: seq<Entrada>, i: nat, e: Entrada)
    requires Arbol(t) && i < |t| && !Vivo(t, i) && e.estado.Borrado?
    ensures Arbol(t[i := e])
  {
    var t' := t[i := e];
    forall j | 0 <= j < |t'| && Vivo(t', j)
      ensures DirectorioValido(t', t'[j].padre) && Enraizado(t', j)
    {
      assert Vivo(t, j);
      EnraizadoSinPasar(t, t', i, j);
    }
  }

  /** What a deletion accepts has no live children: a directory was checked, and nothing else
      is ever a parent. */
  lemma BorrarArbol(t: seq<Entrada>, f: nat, e: Entrada)
    requires Arbol(t) && f < |t| && EsBaja(e, t[f]) && (t[f].estado.Directorio? ==> !TieneHijosVivos(t, f))
    ensures Arbol(t[f := e])
  {
    var t' := t[f := e];
    if j :| 0 <= j < |t'| && Vivo(t', j) && t'[j].padre == f {
      assert Vivo(t, j) && DirectorioValido(t, t[j].padre);
    }
    BorrarConservaArbolSii(t, f, e);
  }

  lemma RenombrarArbol(t: seq<Entrada>, i: nat, e: Entrada)
    requires Arbol(t) && i < |t| && e.estado == t[i].estado
    ensures Arbol(t[i := e]) <==> !(Vivo(t, i) && (!DirectorioValido(t, e.padre) || EsAncestro(t, i, e.padre)))
  {
    if Vivo(t, i) {
      MoverConservaArbolSii(t, i, e);
    } else {
      MuertoNoAfecta(t, i, e);
    }
  }

  /** A request keeps the live entries a tree exactly when it is not one of those. */
  lemma PasoArbolSii(x: Momento, q: Pedido, r: int, y: Momento)
    requires Paso(x, q, r, y) && Arbol(x.d.tabla)
    ensures Arbol(y.d.tabla) <==> !Desarma(x.d.tabla, q)
  {
    assert Abrir(Suceso, 0);
    var t := x.d.tabla;
    match q {
      case Crear(ruta, tipo) =>
        if r == 0 {
          var k: nat :| Creado(x, ruta, tipo, y, k);
          CrearArbolSii(t, k, y.d.tabla[k]);
        }
      case Escribir(ruta, nuevos, offset) =>
        ArbolIgual(t, y.d.tabla);
      case Truncar(ruta, size) =>
        ArbolIgual(t, y.d.tabla);
      case Borrar(ruta) =>
        if r == 0 {
          BorrarArbol(t, Resolver(t, ruta), y.d.tabla[Resolver(t, ruta)]);
        }
      case Renombrar(desde, hacia) =>
        if r == 0 {
          RenombrarArbol(t, Resolver(t, desde), y.d.tabla[Resolver(t, desde)]);
        }
    }
  }

  // ---------------------------------------------------------------- runs

  /** Attending the requests one after another gives these replies and passes through these
      moments. The steps are kept folded; mentioning `Abrir` unfolds them. */
  ghost predicate Corrida(m: seq<Momento>, pedidos: seq<Pedido>, respuestas: seq<int>) {
    && |m| == |respuestas| + 1 && |respuestas| <= |pedidos|
    && forall u {:trigger Abrir(Historia, u)} :: Abrir(Historia, u) ==>
      && (forall k :: 0 <= k < |m| ==> Consistente(m[k].d, m[k].p))
      && forall k :: 0 <= k < |respuestas| ==> Paso(m[k], pedidos[k], respuestas[k], m[k + 1])
  }

  /** Each step of a run is one. */
  lemma PasoDeCorrida(m: seq<Momento>, pedidos: seq<Pedido>, respuestas: seq<int>, k: nat)
    requires Corrida(m, pedidos, respuestas) && k < |respuestas|
    ensures Paso(m[k], pedidos[k], respuestas[k], m[k + 1])
  {
    assert Abrir(Historia, 0);
  }

  lemma PasoBienFormadoEn(m: seq<Momento>, pedidos: seq<Pedido>, respuestas: seq<int>, k: nat)
    requires Corrida(m, pedidos, respuestas) && k < |respuestas| && BienFormado(m[k].d)
    ensures BienFormado(m[k + 1].d) <==> !Pierde(m[k], pedidos[k])
  {
    PasoDeCorrida(m, pedidos, respuestas, k);
    PasoBienFormadoSii(m[k], pedidos[k], respuestas[k], m[k + 1]);
  }

  lemma PasoSinSombraEn(m: seq<Momento>, pedidos: seq<Pedido>, respuestas: seq<int>, k: nat)
    requires Corrida(m, pedidos, respuestas) && k < |respuestas| && SinSombra(m[k].d.tabla)
    ensures SinSombra(m[k + 1].d.tabla) <==> !Oculta(m[k].d.tabla, pedidos[k])
  {
    PasoDeCorrida(m, pedidos, respuestas, k);
    PasoSinSombraSii(m[k], pedidos[k], respuestas[k], m[k + 1]);
  }

  lemma PasoArbolEn(m: seq<Momento>, pedidos: seq<Pedido>, respuestas: seq<int>, k: nat)
    requires Corrida(m, pedidos, respuestas) && k < |respuestas| && Arbol(m[k].d.tabla)
    ensures Arbol(m[k + 1].d.tabla) <==> !Desarma(m[k].d.tabla, pedidos[k])
  {
    PasoDeCorrida(m, pedidos, respuestas, k);
    PasoArbolSii(m[k], pedidos[k], respuestas[k], m[k + 1]);
  }

  /** What each step keeps exactly unless it breaks it holds up to the first step that does. */
  lemma {:induction false} HastaQueSeRompe(bien: seq<bool>, rompe: seq<bool>, n: nat)
    requires n < |bien| && n <= |rompe| && bien[0]
    requires forall k :: 0 <= k < n && bien[k] ==> (bien[k + 1] <==> !rompe[k])
    ensures (forall k :: 0 <= k <= n ==> bien[k]) <==> forall k :: 0 <= k < n ==> !rompe[k]
  {
    if n > 0 {
      HastaQueSeRompe(bien, rompe, n - 1);
      assert bien[n - 1] ==> (bien[n - 1 + 1] <==> !rompe[n - 1]);
    }
  }

  lemma HistoriaBienFormada(m: seq<Momento>, pedidos: seq<Pedido>, respuestas: seq<int>, n: nat)
    returns (bien: seq<bool>, rompe: seq<bool>)
    requires Corrida(m, pedidos, respuestas) && n < |m|
    ensures |bien| == |m| && forall k :: 0 <= k < |m| ==> bien[k] == BienFormado(m[k].d)
    ensures |rompe| == n && forall k :: 0 <= k < n ==> rompe[k] == Pierde(m[k], pedidos[k])
    ensures forall k :: 0 <= k < n && bien[k] ==> (bien[k + 1] <==> !rompe[k])
  {
    bien := seq(|m|, k requires 0 <= k < |m| => BienFormado(m[k].d));
    rompe := seq(n, k requires 0 <= k < n => Pierde(m[k], pedidos[k]));
    forall k | 0 <= k < n && bien[k]
      ensures bien[k + 1] <==> !rompe[k]
    {
      PasoBienFormadoEn(m, pedidos, respuestas, k);
    }
  }

  /** In every run that starts well formed, the disk is well formed up to moment n exactly when no
      earlier request was a resize that loses blocks or overflows the size. Neither names nor
      parents matter. */
  lemma CorridaBienFormadaSii(m: seq<Momento>, pedidos: seq<Pedido>, respuestas: seq<int>, n: nat)
    requires Corrida(m, pedidos, respuestas) && n < |m| && BienFormado(m[0].d)
    ensures (forall k :: 0 <= k <= n ==> BienFormado(m[k].d)) <==>
      forall k :: 0 <= k < n ==> !Pierde(m[k], pedidos[k])
  {
    var bien, rompe := HistoriaBienFormada(m, pedidos, respuestas, n);
    HastaQueSeRompe(bien, rompe, n);
  }

  lemma HistoriaSinSombra(m: seq<Momento>, pedidos: seq<Pedido>, respuestas: seq<int>, n: nat)
    returns (bien: seq<bool>, rompe: seq<bool>)
    requires Corrida(m, pedidos, respuestas) && n < |m|
    ensures |bien| == |m| && forall k :: 0 <= k < |m| ==> bien[k] == SinSombra(m[k].d.tabla)
    ensures |rompe| == n && forall k :: 0 <= k < n ==> rompe[k] == Oculta(m[k].d.tabla, pedidos[k])
    ensures forall k :: 0 <= k < n && bien[k] ==> (bien[k + 1] <==> !rompe[k])
  {
    bien := seq(|m|, k requires 0 <= k < |m| => SinSombra(m[k].d.tabla));
    rompe := seq(n, k requires 0 <= k < n => Oculta(m[k].d.tabla, pedidos[k]));
    forall k | 0 <= k < n && bien[k]
      ensures bien[k + 1] <==> !rompe[k]
    {
      PasoSinSombraEn(m, pedidos, respuestas, k);
    }
  }

  /** In every run that starts with every live entry findable, they are all findable up to moment
      n exactly when no earlier request was a rename that hides one. */
  lemma CorridaSinSombraSii(m: seq<Momento>, pedidos: seq<Pedido>, respuestas: seq<int>, n: nat)
    requires Corrida(m, pedidos, respuestas) && n < |m| && SinSombra(m[0].d.tabla)
    ensures (forall k :: 0 <= k <= n ==> SinSombra(m[k].d.tabla)) <==>
      forall k :: 0 <= k < n ==> !Oculta(m[k].d.tabla, pedidos[k])
  {
    var bien, rompe := HistoriaSinSombra(m, pedidos, respuestas, n);
    HastaQueSeRompe(bien, rompe, n);
  }

  lemma HistoriaArbol(m: seq<Momento>, pedidos: seq<Pedido>, respuestas: seq<int>, n: nat)
    returns (bien: seq<bool>, rompe: seq<bool>)
    requires Corrida(m, pedidos, respuestas) && n < |m|
    ensures |bien| == |m| && forall k :: 0 <= k < |m| ==> bien[k] == Arbol(m[k].d.tabla)
    ensures |rompe| == n && forall k :: 0 <= k < n ==> rompe[k] == Desarma(m[k].d.tabla, pedidos[k])
    ensures forall k :: 0 <= k < n && bien[k] ==> (bien[k + 1] <==> !rompe[k])
  {
    bien := seq(|m|, k requires 0 <= k < |m| => Arbol(m[k].d.tabla));
    rompe := seq(n, k requires 0 <= k < n => Desarma(m[k].d.tabla, pedidos[k]));
    forall k | 0 <= k < n && bien[k]
      ensures bien[k + 1] <==> !rompe[k]
    {
      PasoArbolEn(m, pedidos, respuestas, k);
    }
  }

  /** In every run that starts as a tree of directories, it is one up to moment n exactly when no
      earlier request put an entry under something that is not a live directory or below itself. */
  lemma CorridaArbolSii(m: seq<Momento>, pedidos: seq<Pedido>, respuestas: seq<int>, n: nat)
    requires Corrida(m, pedidos, respuestas) && n < |m| && Arbol(m[0].d.tabla)
    ensures (forall k :: 0 <= k <= n ==> Arbol(m[k].d.tabla)) <==>
      forall k :: 0 <= k < n ==> !Desarma(m[k].d.tabla, pedidos[k])
  {
    var bien, rompe := HistoriaArbol(m, pedidos, respuestas, n);
    HastaQueSeRompe(bien, rompe, n);
  }

  // ---------------------------------------------------------------- the image a run starts from

  /** A formatted volume: no block in use or linked, no entry in use. */
  ghost predicate ImagenVacia(d: Disco) {
    && d.Forma()
    && (forall b: nat :: b < d.N() ==> !d.Ocupado(b) && d.fat[b] == BLOQUE_NULO)
    && (forall f :: 0 <= f < MAX_ARCHIVOS ==>
          d.tabla[f].estado.Borrado? && d.tabla[f].primero == BLOQUE_NULO && d.tabla[f].tam == 0)
  }

  function PlanoVacio(n: nat): Plano {
    Plano(seq(MAX_ARCHIVOS, _ => []), seq(n, _ => Libre))
  }

  lemma ImagenVaciaEntera(d: Disco)
    requires ImagenVacia(d)
    ensures Sano(d, PlanoVacio(d.N())) && BienFormado(d) && SinSombra(d.tabla) && Arbol(d.tabla)
  {
    var p := PlanoVacio(d.N());
    assert Ubicados(d, p) && Enlazadas(d, p) && SinEnlacesAjenos(d, p);
    assert Sano(d, p);
  }
}
