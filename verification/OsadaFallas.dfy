/**
 Requests the server accepts and should not: for each property a run can lose, a volume and a
 request at which it does.
 */
module OsadaFallas {
  import opened Estructuras
  import opened OsadaDisco
  import opened OsadaContenido
  import opened OsadaNombres
  import opened OsadaServidor
  import opened OsadaPasos

  function Nombrado(nombre: Cadena): Nombre
    requires |nombre| <= LARGO_NOMBRE
  {
    NombreEscrito(seq(LARGO_NOMBRE, _ => 0), nombre)
  }

  function SinUso(): Entrada {
    Entrada(Borrado, Nombrado([]), 0, 0, BLOQUE_NULO)
  }

  /** A table with entry a in the first slot, in the root, and every other slot unused. */
  function UnaEntrada(estado: EstadoArchivo): seq<Entrada> {
    [Entrada(estado, Nombrado([97]), DIRECTORIO_NULO, 0, BLOQUE_NULO)] + seq(MAX_ARCHIVOS - 1, _ => SinUso())
  }

  lemma NombresDeUna(estado: EstadoArchivo)
    ensures var t := UnaEntrada(estado);
      && |t| == MAX_ARCHIVOS && Texto(t[0].nombre) == [97]
      && forall i :: 1 <= i < |t| ==>
        Texto(t[i].nombre) == [] && t[i].estado.Borrado? && t[i].primero == BLOQUE_NULO && t[i].tam == 0
  {
    TextoDeNombreEscrito(seq(LARGO_NOMBRE, _ => 0), [97]);
    TextoDeNombreEscrito(seq(LARGO_NOMBRE, _ => 0), []);
  }

  /** What the paths /a and /a/b resolve to in that table; it is a tree, and nothing is shadowed. */
  lemma RutasDeUna(estado: EstadoArchivo)
    ensures var t := UnaEntrada(estado);
      && Resolver(t, [[97]]) == 0 && Resolver(t, [[97], [98]]) == -1 && ResolverPadre(t, [[97], [98]]) == 0
      && SinSombra(t) && Arbol(t)
  {
    var t := UnaEntrada(estado);
    NombresDeUna(estado);
    assert Coincide(t[0], [97], DIRECTORIO_NULO);
    assert Buscar(t, [97], DIRECTORIO_NULO) == 0;
    assert forall i :: 0 <= i < |t| ==> !Coincide(t[i], [98], 0);
    assert [[97]][1..] == [] && [[97], [98]][..1] == [[97]];
    assert ResolverDesde(t, [[97]], DIRECTORIO_NULO) == 0;
    ResolverPorPadre(t, [[97], [98]]);
    if !estado.Borrado? {
      assert Arriba(t, 0, 1) == Arriba(t, t[0].padre, 0) == DIRECTORIO_NULO;
    }
  }

  // ---------------------------------------------------------------- lost blocks

  function DiscoDeUnBloque(t: seq<Entrada>): Disco {
    Disco(0, [false], [BLOQUE_NULO], [BloqueCero()], t)
  }

  lemma DiscoSano(t: seq<Entrada>)
    requires |t| == MAX_ARCHIVOS && forall i :: 0 <= i < |t| ==> t[i].primero == BLOQUE_NULO && t[i].tam == 0
    ensures Sano(DiscoDeUnBloque(t), PlanoVacio(1))
  {
    var d, p := DiscoDeUnBloque(t), PlanoVacio(1);
    assert !d.Ocupado(0);
    assert Enlazadas(d, p) && Ubicados(d, p) && Marcados(d, p) && SinEnlacesAjenos(d, p);
  }

  /** A healthy disk with one block, free, and a regular file a that has none. Resizing /a to one
      byte loses the block. */
  lemma TruncarPierde()
    ensures var x := Momento(DiscoDeUnBloque(UnaEntrada(Regular)), PlanoVacio(1));
      Sano(x.d, x.p) && Pierde(x, Truncar([[97]], 1))
  {
    var t := UnaEntrada(Regular);
    NombresDeUna(Regular);
    RutasDeUna(Regular);
    DiscoSano(t);
    assert !DiscoDeUnBloque(t).Ocupado(0) && 0 in DiscoDeUnBloque(t).Libres();
    assert BloquesPedidos(1) == 1;
  }

  lemma CuentaQueDesborda()
    ensures BloquesPedidos(0x3F_FFFF_FFFF) == 0 && TamGuardado(0x3F_FFFF_FFFF) == 0xFFFF_FFFF
    ensures DesbordaTam(0x3F_FFFF_FFFF)
  {
    assert Necesarios(0x3F_FFFF_FFFF) == 0x1_0000_0000;
  }

  lemma CuentaQueNiega()
    ensures BloquesPedidos(0x8000_0000) == 0x200_0000 && TamGuardado(0x8000_0000) == 0x8000_0000
  {
    assert Necesarios(0x8000_0000) == 0x200_0000;
  }

  /** Resizing any regular file to one byte less than 2^38 leaves it without blocks and with the
      largest size of all. */
  lemma TruncarDesborda(x: Momento, ruta: seq<Cadena>)
    requires Consistente(x.d, x.p) && EsRegular(x.d.tabla, Resolver(x.d.tabla, ruta))
    ensures BloquesPedidos(0x3F_FFFF_FFFF) == 0 && TamGuardado(0x3F_FFFF_FFFF) == 0xFFFF_FFFF
    ensures Pierde(x, Truncar(ruta, 0x3F_FFFF_FFFF))
  {
    CuentaQueDesborda();
  }

  /** Resizing a regular file to 2^31 bytes, when the blocks suffice, is done and reported as failed. */
  lemma TruncarNiega(x: Momento, ruta: seq<Cadena>, r: int, y: Momento)
    requires Paso(x, Truncar(ruta, 0x8000_0000), r, y) && EsRegular(x.d.tabla, Resolver(x.d.tabla, ruta))
    requires SePuedeRedimensionar(x.d, x.p, Resolver(x.d.tabla, ruta), 0x200_0000)
    ensures r < 0 && y.d.tabla[Resolver(x.d.tabla, ruta)].tam == 0x8000_0000
    ensures x.p.cadenas[Resolver(x.d.tabla, ruta)] != [] ==> |y.p.cadenas[Resolver(x.d.tabla, ruta)]| == 0x200_0000
  {
    assert Abrir(Suceso, 0);
    CuentaQueNiega();
    TruncarResponde(x, ruta, 0x8000_0000, r, y);
  }

  // ---------------------------------------------------------------- a broken tree

  /** With a regular file a, creating /a/b is accepted. */
  lemma CrearBajoArchivo()
    ensures var t := UnaEntrada(Regular); Arbol(t) && Desarma(t, Crear([[97], [98]], Regular))
  {
    NombresDeUna(Regular);
    RutasDeUna(Regular);
    assert !Vivo(UnaEntrada(Regular), 1);
  }

  /** With a directory a deleted from the lowest free slot, making /a/b is accepted: its parent
      resolves to that slot, which is the one it takes, so it becomes its own parent. Every parent
      is then a live directory, and still the entries are no tree. */
  lemma CrearEnSiMismo(e: Entrada)
    requires EsNueva(e, [98], 0) && e.estado.Directorio?
    ensures var t := UnaEntrada(Borrado);
      && Arbol(t) && Desarma(t, Crear([[97], [98]], Directorio)) && PrimerBorrado(t, 0)
      && PadresValidos(t[0 := e]) && !Arbol(t[0 := e])
  {
    var t := UnaEntrada(Borrado);
    NombresDeUna(Borrado);
    RutasDeUna(Borrado);
    assert !Vivo(t, 0);
    CrearPadresSii(t, 0, e);
    CrearArbolSii(t, 0, e);
  }

  /** With a directory a, renaming /a to /a/b is accepted. */
  lemma RenombrarBajoSiMismo()
    ensures var t := UnaEntrada(Directorio); Arbol(t) && Desarma(t, Renombrar([[97]], [[97], [98]]))
  {
    var t := UnaEntrada(Directorio);
    NombresDeUna(Directorio);
    RutasDeUna(Directorio);
    assert Arriba(t, 0, 0) == 0;
  }

  // ---------------------------------------------------------------- a hidden entry

  /** Live files a and b in the root and every other slot unused. */
  function DosArchivos(): seq<Entrada> {
    [Entrada(Regular, Nombrado([97]), DIRECTORIO_NULO, 0, BLOQUE_NULO),
     Entrada(Regular, Nombrado([98]), DIRECTORIO_NULO, 0, BLOQUE_NULO)] + seq(MAX_ARCHIVOS - 2, _ => SinUso())
  }

  lemma NombresDeDos()
    ensures var t := DosArchivos();
      && |t| == MAX_ARCHIVOS && Texto(t[0].nombre) == [97] && Texto(t[1].nombre) == [98]
      && forall i :: 2 <= i < |t| ==> Texto(t[i].nombre) == [] && t[i].estado.Borrado?
  {
    TextoDeNombreEscrito(seq(LARGO_NOMBRE, _ => 0), [97]);
    TextoDeNombreEscrito(seq(LARGO_NOMBRE, _ => 0), [98]);
    TextoDeNombreEscrito(seq(LARGO_NOMBRE, _ => 0), []);
  }

  /** Renaming /b to /x/a, where /x does not exist, is accepted: the entry moves to the root under
      the name of the live file a, and is hidden behind it. */
  lemma RenombrarSinDestinoOculta()
    ensures var t := DosArchivos(); SinSombra(t) && Arbol(t) && Oculta(t, Renombrar([[98]], [[120], [97]]))
  {
    var t := DosArchivos();
    NombresDeDos();
    RutasDeDos(t);
    var hacia: seq<Cadena> := [[120], [97]];
    assert Final(hacia) == [97];
    assert ChocaEnRaiz(t, Resolver(t, [[98]]), Final(hacia), 0);
    forall i | 0 <= i < |t| && Vivo(t, i)
      ensures Enraizado(t, i)
    {
      assert Arriba(t, i, 1) == Arriba(t, t[i].padre, 0);
    }
  }

  lemma RutasDeDos(t: seq<Entrada>)
    requires t == DosArchivos()
    ensures Resolver(t, [[98]]) == 1 && ResolverPadre(t, [[120], [97]]) == -1 && Resolver(t, [[120], [97]]) == -1
  {
    NombresDeDos();
    assert Coincide(t[1], [98], DIRECTORIO_NULO) && !Coincide(t[0], [98], DIRECTORIO_NULO);
    assert forall i :: 0 <= i < |t| ==> !Coincide(t[i], [120], DIRECTORIO_NULO);
    assert [[98]][1..] == [] && [[120]][1..] == [] && [[120], [97]][..1] == [[120]];
    assert Buscar(t, [98], DIRECTORIO_NULO) == 1 && Buscar(t, [120], DIRECTORIO_NULO) == -1;
    ResolverPorPadre(t, [[120], [97]]);
  }
}
