/**
 The server's loop: requests on paths attended one after another over the tables in place.
 Each one is a `Paso`, and any number of them a `Corrida`.
 */
module OsadaSesion {
  import opened Estructuras
  import opened OsadaDisco
  import opened OsadaContenido
  import opened OsadaNombres
  import opened OsadaServidor
  import opened OsadaPasos

  ghost function Ahora(o: Osada): Momento
    reads o`plano, o.bits, o.fat, o.datos, o.tabla
  {
    Momento(o.Estado(), o.plano)
  }

  /** The C code defines what happens: it does not index the table with -1, reply with an
      unset buffer, or overflow an int that counts bytes or blocks. */
  predicate Definido(t: seq<Entrada>, q: Pedido) {
    match q
    case Crear(_, tipo) => !tipo.Borrado?
    case Escribir(ruta, nuevos, _) => Resolver(t, ruta) >= 0 && |nuevos| < MAX_ESCRITURA
    case Truncar(ruta, size) => EsRegular(t, Resolver(t, ruta)) ==> BloquesPedidos(size) >= 0
    case Borrar(_) => true
    case Renombrar(_, hacia) => hacia != [] && Final(hacia) != []
  }

  method AtenderCrear(o: Osada, ruta: seq<Cadena>, tipo: EstadoArchivo) returns (r: int)
    requires o.Valid() && !tipo.Borrado?
    modifies o, o.bits, o.fat, o.datos, o.tabla
    ensures o.Valid() && PasoCrear(old(Ahora(o)), ruta, tipo, r, Ahora(o))
    ensures r == -1 <==> ruta == [] || (|Final(ruta)| <= 17 && ResolverPadre(old(o.tabla[..]), ruta) < 0)
  {
    if ruta == [] {
      return -1;
    }
    ghost var x := Ahora(o);
    PadreDentro(o.tabla[..], ruta);
    var dirPadre := o.ObtenerDirectorioPadre(ruta);
    ghost var k;
    r, k := o.CrearArchivo(dirPadre, Final(ruta), tipo);
    assert r == 0 ==> Creado(x, ruta, tipo, Ahora(o), k);
  }

  method AtenderEscribir(o: Osada, ruta: seq<Cadena>, nuevos: seq<Byte>, offset: nat) returns (r: int)
    requires o.Valid() && Resolver(o.tabla[..], ruta) >= 0 && |nuevos| < MAX_ESCRITURA
    modifies o, o.bits, o.fat, o.datos, o.tabla
    ensures o.Valid() && PasoEscribir(old(Ahora(o)), ruta, nuevos, offset, r, Ahora(o))
  {
    ResolverDentro(o.tabla[..], ruta);
    var f := o.ObtenerArchivo(ruta);
    var ok := o.Actualizar(f, nuevos, offset);
    r := if ok then 1 else 0;
  }

  method AtenderTruncar(o: Osada, ruta: seq<Cadena>, size: nat) returns (r: int)
    requires o.Valid() && (EsRegular(o.tabla[..], Resolver(o.tabla[..], ruta)) ==> BloquesPedidos(size) >= 0)
    modifies o, o.bits, o.fat, o.datos, o.tabla
    ensures o.Valid() && PasoTruncar(old(Ahora(o)), ruta, size, r, Ahora(o))
  {
    ResolverDentro(o.tabla[..], ruta);
    var f := o.ObtenerArchivo(ruta);
    r := o.Truncar(f, size);
  }

  method AtenderBorrar(o: Osada, ruta: seq<Cadena>) returns (r: int)
    requires o.Valid()
    modifies o, o.bits, o.fat, o.datos, o.tabla
    ensures o.Valid() && PasoBorrar(old(Ahora(o)), ruta, r, Ahora(o))
  {
    ResolverDentro(o.tabla[..], ruta);
    var f := o.ObtenerArchivo(ruta);
    r := o.BorrarArchivo(f);
  }

  method AtenderRenombrar(o: Osada, desde: seq<Cadena>, hacia: seq<Cadena>) returns (r: int)
    requires o.Valid() && hacia != [] && Final(hacia) != []
    modifies o.tabla
    ensures o.Valid() && PasoRenombrar(old(Ahora(o)), desde, hacia, r, Ahora(o))
  {
    ghost var i;
    r, i := o.Renombrar(desde, hacia);
  }

  /** Attends one request. */
  method Atender(o: Osada, q: Pedido) returns (r: int)
    requires o.Valid() && Definido(o.tabla[..], q)
    modifies o, o.bits, o.fat, o.datos, o.tabla
    ensures o.Valid() && Paso(old(Ahora(o)), q, r, Ahora(o))
  {
    match q {
      case Crear(ruta, tipo) => r := AtenderCrear(o, ruta, tipo);
      case Escribir(ruta, nuevos, offset) => r := AtenderEscribir(o, ruta, nuevos, offset);
      case Truncar(ruta, size) => r := AtenderTruncar(o, ruta, size);
      case Borrar(ruta) => r := AtenderBorrar(o, ruta);
      case Renombrar(desde, hacia) => r := AtenderRenombrar(o, desde, hacia);
    }
  }

  lemma CorridaMas(m: seq<Momento>, pedidos: seq<Pedido>, respuestas: seq<int>, r: int, y: Momento)
    requires Corrida(m, pedidos, respuestas) && |respuestas| < |pedidos|
    requires Paso(m[|m| - 1], pedidos[|respuestas|], r, y)
    ensures Corrida(m + [y], pedidos, respuestas + [r])
  {
    assert Abrir(Historia, 0);
    var m', rs := m + [y], respuestas + [r];
    forall k | 0 <= k < |rs|
      ensures Paso(m'[k], pedidos[k], rs[k], m'[k + 1])
    {
      var s, z := if k < |respuestas| then respuestas[k] else r, if k < |respuestas| then m[k + 1] else y;
      assert m'[k] == m[k] && m'[k + 1] == z && rs[k] == s;
      assert Paso(m'[k], pedidos[k], rs[k], m'[k + 1]) == Paso(m[k], pedidos[k], s, z);
    }
  }

  lemma CorridaVacia(x: Momento, pedidos: seq<Pedido>)
    requires Consistente(x.d, x.p)
    ensures Corrida([x], pedidos, [])
  {
  }

  /** Attends the requests in order, up to the first the C code leaves undefined. The replies and
      the moments in between are those of a run. */
  method AtenderTodos(o: Osada, pedidos: seq<Pedido>) returns (respuestas: seq<int>, ghost momentos: seq<Momento>)
    requires o.Valid()
    modifies o, o.bits, o.fat, o.datos, o.tabla
    ensures o.Valid() && Corrida(momentos, pedidos, respuestas)
    ensures momentos[0] == old(Ahora(o)) && momentos[|momentos| - 1] == Ahora(o)
    ensures |respuestas| < |pedidos| ==> !Definido(o.tabla[..], pedidos[|respuestas|])
  {
    respuestas, momentos := [], [Ahora(o)];
    CorridaVacia(momentos[0], pedidos);
    while |respuestas| < |pedidos| && Definido(o.tabla[..], pedidos[|respuestas|])
      invariant |respuestas| <= |pedidos| && o.Valid() && Corrida(momentos, pedidos, respuestas)
      invariant momentos[0] == old(Ahora(o)) && momentos[|momentos| - 1] == Ahora(o)
      decreases |pedidos| - |respuestas|
    {
      var r := Atender(o, pedidos[|respuestas|]);
      CorridaMas(momentos, pedidos, respuestas, r, Ahora(o));
      respuestas, momentos := respuestas + [r], momentos + [Ahora(o)];
    }
  }
}
