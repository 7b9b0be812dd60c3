/**
 The name space of the OSADA file table: names as 17-byte buffers, look-up that ignores
 whether an entry is deleted, paths, and the tree the parent indices form.

 Look-up is right for live entries only because of `SinSombra`: no lower slot, live or
 deleted, carries the name and parent of a live one.
 */
module OsadaNombres {
  import opened OsadaDisco

  /** A C string: no zero byte inside. */
  type Cadena = s: seq<Byte> | forall k :: 0 <= k < |s| ==> s[k] != 0

  /** The text of a name buffer: up to the first zero, or all of it. */
  function Texto(n: seq<Byte>): (r: Cadena)
    ensures |r| <= |n| && r == n[..|r|] && (|r| < |n| ==> n[|r|] == 0)
  {
    if n == [] || n[0] == 0 then [] else
      var r := Texto(n[1..]);
      assert n == [n[0]] + n[1..];
      [n[0]] + r
  }

  /** What a comparison sees of a string: its first 17 bytes. */
  function Prefijo(s: Cadena): Cadena {
    if |s| <= LARGO_NOMBRE then s else s[..LARGO_NOMBRE]
  }

  /** The buffer after a name of at most 17 bytes is copied into it, with its terminator when
      that fits; the rest of the old buffer stays. */
  function NombreEscrito(viejo: Nombre, nombre: Cadena): Nombre
    requires |nombre| <= LARGO_NOMBRE
  {
    if |nombre| == LARGO_NOMBRE then nombre else nombre + [0] + viejo[|nombre| + 1..]
  }

  function ConNombre(e: Entrada, nombre: Cadena): Entrada
    requires |nombre| <= LARGO_NOMBRE
  {
    e.(nombre := NombreEscrito(e.nombre, nombre))
  }

  lemma {:induction false} TextoUnico(n: seq<Byte>, s: Cadena)
    requires |s| <= |n| && s == n[..|s|] && (|s| < |n| ==> n[|s|] == 0)
    ensures Texto(n) == s
  {
  }

  /** A first difference at i, inside the first 17 bytes, tells the names apart. */
  lemma NombresDistintos(n: Nombre, s: Cadena, i: nat)
    requires i < LARGO_NOMBRE && i <= |s| && n[..i] == s[..i]
    requires n[i] != if i < |s| then s[i] else 0
    ensures Texto(n) != Prefijo(s)
  {
  }

  /** Writing a name and reading it back, whatever the buffer held. */
  lemma TextoDeNombreEscrito(viejo: Nombre, nombre: Cadena)
    requires |nombre| <= LARGO_NOMBRE
    ensures Texto(NombreEscrito(viejo, nombre)) == nombre
  {
    TextoUnico(NombreEscrito(viejo, nombre), nombre);
  }

  // ---------------------------------------------------------------- look-up

  predicate Coincide(e: Entrada, nombre: Cadena, dir: int) {
    Texto(e.nombre) == Prefijo(nombre) && (dir < 0 || e.padre == dir)
  }

  /** The lowest slot, live or deleted, that matches; a negative parent is ignored. */
  function Buscar(t: seq<Entrada>, nombre: Cadena, dir: int, desde: nat := 0): (r: int)
    requires desde <= |t|
    ensures r == -1 || desde <= r < |t|
    ensures r >= 0 ==> Coincide(t[r], nombre, dir)
    ensures forall j :: desde <= j < (if r >= 0 then r else |t|) ==> !Coincide(t[j], nombre, dir)
    decreases |t| - desde
  {
    if desde == |t| then -1
    else if Coincide(t[desde], nombre, dir) then desde
    else Buscar(t, nombre, dir, desde + 1)
  }

  predicate Vivo(t: seq<Entrada>, i: nat) {
    i < |t| && !t[i].estado.Borrado?
  }

  predicate MismaClave(e: Entrada, e': Entrada) {
    Texto(e.nombre) == Texto(e'.nombre) && e.padre == e'.padre
  }

  /** No lower slot has the name and parent of a live entry. */
  ghost predicate SinSombra(t: seq<Entrada>) {
    forall j, i :: 0 <= j < i < |t| && Vivo(t, i) ==> !MismaClave(t[j], t[i])
  }

  /** Look-up finds every live entry exactly when no live entry is shadowed. */
  lemma BuscarHallaVivosSii(t: seq<Entrada>)
    ensures SinSombra(t) <==> forall i :: 0 <= i < |t| && Vivo(t, i) ==> Buscar(t, Texto(t[i].nombre), t[i].padre) == i
  {
  }

  lemma BuscarVivo(t: seq<Entrada>, i: nat)
    requires SinSombra(t) && Vivo(t, i)
    ensures Buscar(t, Texto(t[i].nombre), t[i].padre) == i
  {
  }

  // ---------------------------------------------------------------- paths

  /** Walks a path down from a directory; a component that is not found makes it -1. */
  function ResolverDesde(t: seq<Entrada>, ruta: seq<Cadena>, dir: int): (r: int)
    requires -1 <= dir
    ensures -1 <= r
  {
    if ruta == [] || dir < 0 then dir
    else ResolverDesde(t, ruta[1..], Buscar(t, ruta[0], dir))
  }

  /** The slot a path names, counted from the root; -1 for the root itself. */
  function Resolver(t: seq<Entrada>, ruta: seq<Cadena>): (r: int)
    ensures -1 <= r
  {
    if ruta == [] then -1 else ResolverDesde(t, ruta, DIRECTORIO_NULO)
  }

  /** The slot of the directory a path is in: the root for a single component. */
  function ResolverPadre(t: seq<Entrada>, ruta: seq<Cadena>): (r: int)
    ensures -1 <= r
  {
    if ruta == [] then -1 else ResolverDesde(t, ruta[..|ruta| - 1], DIRECTORIO_NULO)
  }

  lemma {:induction false} ResolverUnoMas(t: seq<Entrada>, ruta: seq<Cadena>, ultimo: Cadena, dir: int)
    requires 0 <= dir
    ensures ResolverDesde(t, ruta + [ultimo], dir)
         == var d := ResolverDesde(t, ruta, dir); if d < 0 then -1 else Buscar(t, ultimo, d)
  {
    if ruta == [] {
      assert ruta + [ultimo] == [ultimo];
    } else {
      assert (ruta + [ultimo])[1..] == ruta[1..] + [ultimo];
      var d := Buscar(t, ruta[0], dir);
      if d >= 0 {
        ResolverUnoMas(t, ruta[1..], ultimo, d);
      }
    }
  }

  /** A path resolves to its last component in the directory it is in. */
  lemma ResolverPorPadre(t: seq<Entrada>, ruta: seq<Cadena>)
    requires ruta != []
    ensures Resolver(t, ruta)
         == var d := ResolverPadre(t, ruta); if d < 0 then -1 else Buscar(t, ruta[|ruta| - 1], d)
  {
    assert ruta == ruta[..|ruta| - 1] + [ruta[|ruta| - 1]];
    ResolverUnoMas(t, ruta[..|ruta| - 1], ruta[|ruta| - 1], DIRECTORIO_NULO);
  }

  /** A resolved path names a slot of the table. */
  lemma ResolverDentro(t: seq<Entrada>, ruta: seq<Cadena>)
    ensures Resolver(t, ruta) < |t|
  {
    if ruta != [] {
      ResolverPorPadre(t, ruta);
    }
  }

  // ---------------------------------------------------------------- tree

  /** The k-th ancestor, stopping at the root. */
  function Arriba(t: seq<Entrada>, i: nat, k: nat): nat
    decreases k
  {
    if k == 0 || i >= |t| then i else Arriba(t, t[i].padre, k - 1)
  }

  /** Walking up from i ends at the root. */
  ghost predicate Enraizado(t: seq<Entrada>, i: nat) {
    exists k: nat :: Arriba(t, i, k) == DIRECTORIO_NULO
  }

  predicate DirectorioValido(t: seq<Entrada>, p: int) {
    p == DIRECTORIO_NULO || (0 <= p < |t| && t[p].estado.Directorio?)
  }

  ghost predicate PadresValidos(t: seq<Entrada>) {
    forall i :: 0 <= i < |t| && Vivo(t, i) ==> DirectorioValido(t, t[i].padre)
  }

  ghost predicate Arbol(t: seq<Entrada>) {
    && |t| == MAX_ARCHIVOS && PadresValidos(t)
    && forall i :: 0 <= i < |t| && Vivo(t, i) ==> Enraizado(t, i)
  }

  /** The path of an entry whose k-th ancestor is the root. */
  function RutaDe(t: seq<Entrada>, i: nat, k: nat): seq<Cadena>
    decreases k
  {
    if k == 0 || i >= |t| then [] else RutaDe(t, t[i].padre, k - 1) + [Texto(t[i].nombre)]
  }

  /** Resolving the path of a live entry gives that entry back. */
  lemma {:induction false} ResolverRutaDe(t: seq<Entrada>, i: nat, k: nat)
    requires SinSombra(t) && PadresValidos(t) && |t| == MAX_ARCHIVOS
    requires Vivo(t, i) && Arriba(t, i, k) == DIRECTORIO_NULO
    ensures RutaDe(t, i, k) != [] && Resolver(t, RutaDe(t, i, k)) == i
    decreases k
  {
    var p := t[i].padre;
    var ruta := RutaDe(t, p, k - 1);
    assert DirectorioValido(t, p);
    if p < |t| {
      ResolverRutaDe(t, p, k - 1);
    } else {
      assert ruta == [];
    }
    ResolverUnoMas(t, ruta, Texto(t[i].nombre), DIRECTORIO_NULO);
    BuscarVivo(t, i);
  }

  // ---------------------------------------------------------------- creating

  /** The lowest deleted slot. */
  ghost predicate PrimerBorrado(t: seq<Entrada>, k: nat) {
    k < |t| && t[k].estado.Borrado? && forall j :: 0 <= j < k ==> Vivo(t, j)
  }

  ghost predicate ExisteVivo(t: seq<Entrada>, nombre: Cadena, dir: int) {
    exists i :: 0 <= i < |t| && Vivo(t, i) && Coincide(t[i], nombre, dir)
  }

  /** The new entry is live and carries the given name and parent. */
  ghost predicate EsNueva(e: Entrada, nombre: Cadena, dir: nat) {
    !e.estado.Borrado? && Texto(e.nombre) == nombre && e.padre == dir
  }

  /** Creating in the lowest deleted slot shadows nothing and is not shadowed: every lower
      slot is live, so it would have been found. */
  lemma CrearSinSombra(t: seq<Entrada>, k: nat, e: Entrada, nombre: Cadena, dir: nat)
    requires SinSombra(t) && PrimerBorrado(t, k) && |nombre| <= LARGO_NOMBRE
    requires EsNueva(e, nombre, dir) && !ExisteVivo(t, nombre, dir)
    ensures SinSombra(t[k := e])
  {
  }

  /** Walking up among live entries is not affected by a slot that is not on the way. */
  lemma {:induction false} ArribaIgual(t: seq<Entrada>, t': seq<Entrada>, s: nat, i: nat, k: nat)
    requires |t'| == |t| && forall j :: 0 <= j < |t| && j != s ==> t'[j].padre == t[j].padre
    requires forall m :: 0 <= m < k ==> Arriba(t, i, m) != s
    ensures Arriba(t', i, k) == Arriba(t, i, k)
    decreases k
  {
    if k > 0 && i < |t| {
      assert Arriba(t, i, 0) == i;
      forall m | 0 <= m < k - 1
        ensures Arriba(t, t[i].padre, m) != s
      {
        assert Arriba(t, i, m + 1) == Arriba(t, t[i].padre, m);
      }
      ArribaIgual(t, t', s, t[i].padre, k - 1);
    }
  }

  /** Ancestors of live entries are live directories or the root. */
  lemma {:induction false} AncestrosVivos(t: seq<Entrada>, i: nat, k: nat)
    requires PadresValidos(t) && |t| <= DIRECTORIO_NULO && (Vivo(t, i) || i == DIRECTORIO_NULO)
    ensures Vivo(t, Arriba(t, i, k)) || Arriba(t, i, k) == DIRECTORIO_NULO
    decreases k
  {
    if k > 0 && i < |t| && Vivo(t, i) {
      assert DirectorioValido(t, t[i].padre);
      AncestrosVivos(t, t[i].padre, k - 1);
    }
  }

  /** After creating, every parent is a live directory or the root exactly when the given one
      was, or is the very slot the new directory took. */
  lemma CrearPadresSii(t: seq<Entrada>, k: nat, e: Entrada)
    requires PadresValidos(t) && k < |t| == MAX_ARCHIVOS && t[k].estado.Borrado? && !e.estado.Borrado?
    ensures PadresValidos(t[k := e]) <==> DirectorioValido(t, e.padre) || (e.padre == k && e.estado.Directorio?)
  {
    var t' := t[k := e];
    assert Vivo(t', k);
    assert e.padre != k ==> (DirectorioValido(t', e.padre) <==> DirectorioValido(t, e.padre));
    forall i | 0 <= i < |t'| && Vivo(t', i) && i != k && e.padre != k
      ensures DirectorioValido(t', t'[i].padre)
    {
      assert Vivo(t, i);
    }
    forall i | 0 <= i < |t'| && Vivo(t', i) && i != k && e.padre == k
      ensures DirectorioValido(t', t'[i].padre)
    {
      assert Vivo(t, i) && t[i].padre != k;
    }
  }

  /** Creating keeps the tree exactly when the given parent is a live directory or the root. */
  lemma CrearArbolSii(t: seq<Entrada>, k: nat, e: Entrada)
    requires Arbol(t) && k < |t| && t[k].estado.Borrado? && !e.estado.Borrado?
    ensures Arbol(t[k := e]) <==> DirectorioValido(t, e.padre)
  {
    CrearPadresSii(t, k, e);
    if DirectorioValido(t, e.padre) {
      CrearConservaArbol(t, k, e);
    } else if e.padre == k {
      assert Vivo(t[k := e], k);
      PadreDeSiMismo(t[k := e], k);
    }
  }

  /** Its own parent never reaches the root. */
  lemma PadreDeSiMismo(t: seq<Entrada>, k: nat)
    requires k < |t| == MAX_ARCHIVOS && t[k].padre == k
    ensures !Enraizado(t, k)
  {
    if n: nat :| Arriba(t, k, n) == DIRECTORIO_NULO {
      NuncaLlega(t, k, 0, n);
    }
  }

  lemma CrearConservaArbol(t: seq<Entrada>, k: nat, e: Entrada)
    requires Arbol(t) && k < |t| && t[k].estado.Borrado? && !e.estado.Borrado?
    requires DirectorioValido(t, e.padre)
    ensures Arbol(t[k := e])
  {
    var t' := t[k := e];
    CrearPadresSii(t, k, e);
    forall i | 0 <= i < |t'| && Vivo(t', i)
      ensures Enraizado(t', i)
    {
      if i != k {
        EnraizadoSinPasar(t, t', k, i);
      } else if e.padre == DIRECTORIO_NULO {
        assert Arriba(t', k, 1) == Arriba(t', e.padre, 0);
      } else {
        EnraizadoSinPasar(t, t', k, e.padre);
        var n: nat :| Arriba(t', e.padre, n) == DIRECTORIO_NULO;
        assert Arriba(t', k, n + 1) == DIRECTORIO_NULO;
      }
    }
  }

  /** A live entry stays rooted when only a deleted slot changes its parent. */
  lemma EnraizadoSinPasar(t: seq<Entrada>, t': seq<Entrada>, s: nat, i: nat)
    requires Arbol(t) && Vivo(t, i) && !Vivo(t, s) && s < |t|
    requires |t'| == |t| && forall j :: 0 <= j < |t| && j != s ==> t'[j].padre == t[j].padre
    ensures Enraizado(t', i)
  {
    var n: nat :| Arriba(t, i, n) == DIRECTORIO_NULO;
    forall m | 0 <= m < n
      ensures Arriba(t, i, m) != s
    {
      AncestrosVivos(t, i, m);
    }
    ArribaIgual(t, t', s, i, n);
  }

  // ---------------------------------------------------------------- deleting

  ghost predicate TieneHijosVivos(t: seq<Entrada>, i: nat) {
    exists j :: 0 <= j < |t| && Vivo(t, j) && t[j].padre == i
  }

  /** The same name and parent, now deleted. */
  ghost predicate EsBaja(e: Entrada, viejo: Entrada) {
    e.estado.Borrado? && e.nombre == viejo.nombre && e.padre == viejo.padre
  }

  lemma BorrarSinSombra(t: seq<Entrada>, i: nat, e: Entrada)
    requires SinSombra(t) && i < |t| && EsBaja(e, t[i])
    ensures SinSombra(t[i := e])
  {
  }

  /** A deleted entry is still found under its old name until its slot is reused. */
  lemma BorradoSigueHallado(t: seq<Entrada>, i: nat, e: Entrada)
    requires SinSombra(t) && Vivo(t, i) && EsBaja(e, t[i])
    ensures Buscar(t[i := e], Texto(e.nombre), e.padre) == i
  {
    var t' := t[i := e];
    BuscarVivo(t, i);
    assert Coincide(t'[i], Texto(e.nombre), e.padre);
  }

  /** Deleting keeps the tree exactly when the entry has no live children. */
  lemma BorrarConservaArbolSii(t: seq<Entrada>, i: nat, e: Entrada)
    requires Arbol(t) && i < |t| && EsBaja(e, t[i])
    ensures Arbol(t[i := e]) <==> !TieneHijosVivos(t[i := e], i)
  {
    var t' := t[i := e];
    if TieneHijosVivos(t', i) {
      var j :| 0 <= j < |t'| && Vivo(t', j) && t'[j].padre == i;
      assert !DirectorioValido(t', t'[j].padre);
    } else {
      forall j | 0 <= j < |t'| && Vivo(t', j)
        ensures DirectorioValido(t', t'[j].padre) && Enraizado(t', j)
      {
        assert Vivo(t, j);
        var n: nat :| Arriba(t, j, n) == DIRECTORIO_NULO;
        ArribaIgual(t, t', |t|, j, n) by {
          forall m | 0 <= m < n
            ensures Arriba(t, j, m) != |t|
          {
            AncestrosVivos(t, j, m);
          }
        }
      }
    }
  }

  // ---------------------------------------------------------------- renaming

  /** Slot j would shadow, or be shadowed by, slot i carrying the key of e. */
  ghost predicate Choca(t: seq<Entrada>, i: nat, e: Entrada, j: nat)
    requires i < |t|
  {
    && j < |t| && j != i && MismaClave(t[j], e)
    && if j < i then !e.estado.Borrado? else Vivo(t, j)
  }

  /** Renaming keeps look-up right exactly when the new key clashes with no other slot. */
  lemma RenombrarSinSombraSii(t: seq<Entrada>, i: nat, e: Entrada)
    requires SinSombra(t) && i < |t|
    ensures SinSombra(t[i := e]) <==> !exists j :: Choca(t, i, e, j)
  {
    var t' := t[i := e];
    if SinSombra(t') {
      forall j | 0 <= j < |t| && j != i
        ensures !Choca(t, i, e, j)
      {
        if j < i {
          assert Vivo(t', i) ==> !MismaClave(t'[j], t'[i]);
        } else {
          assert Vivo(t', j) ==> !MismaClave(t'[i], t'[j]);
        }
      }
    }
    if !exists j :: Choca(t, i, e, j) {
      forall j, k | 0 <= j < k < |t'| && Vivo(t', k)
        ensures !MismaClave(t'[j], t'[k])
      {
        if k == i {
          assert !Choca(t, i, e, j);
        } else if j == i {
          assert !Choca(t, i, e, k);
        } else {
          assert Vivo(t, k);
        }
      }
    }
  }

  /** No clash when the look-up of the new key finds nothing. */
  lemma SinChoqueSiNoSeHalla(t: seq<Entrada>, i: nat, e: Entrada)
    requires i < |t| && Buscar(t, Texto(e.nombre), e.padre) < 0 && |Texto(e.nombre)| <= LARGO_NOMBRE
    ensures !exists j :: Choca(t, i, e, j)
  {
  }

  /** Slot i is on the way up from p, p included. */
  ghost predicate EsAncestro(t: seq<Entrada>, i: nat, p: nat) {
    exists k: nat :: Arriba(t, p, k) == i
  }

  /** Moving a live entry keeps the tree exactly when the new parent is a live directory or
      the root and the entry is not one of its ancestors. */
  lemma MoverConservaArbolSii(t: seq<Entrada>, i: nat, e: Entrada)
    requires Arbol(t) && Vivo(t, i) && e.estado == t[i].estado
    ensures Arbol(t[i := e]) <==> DirectorioValido(t, e.padre) && !EsAncestro(t, i, e.padre)
  {
    var t' := t[i := e];
    assert Vivo(t', i);
    assert DirectorioValido(t', e.padre) <==> DirectorioValido(t, e.padre);
    if DirectorioValido(t, e.padre) {
      if EsAncestro(t, i, e.padre) {
        var k: nat :| Arriba(t, e.padre, k) == i;
        CicloNoLlega(t, t', i, e.padre, k);
      } else {
        forall j | 0 <= j < |t'| && Vivo(t', j)
          ensures DirectorioValido(t', t'[j].padre) && Enraizado(t', j)
        {
          assert Vivo(t, j);
          NuevoPadreEnraizado(t, t', i, e.padre);
          EnraizadoPorNuevo(t, t', i, j);
        }
      }
    }
  }

  lemma NuevoPadreEnraizado(t: seq<Entrada>, t': seq<Entrada>, i: nat, p: nat)
    requires Arbol(t) && DirectorioValido(t, p) && !EsAncestro(t, i, p) && i < |t|
    requires |t'| == |t| && t'[i].padre == p && forall j :: 0 <= j < |t| && j != i ==> t'[j].padre == t[j].padre
    ensures Enraizado(t', i)
  {
    if p == DIRECTORIO_NULO {
      assert Arriba(t', i, 1) == Arriba(t', p, 0);
    } else {
      assert Vivo(t, p);
      var n: nat :| Arriba(t, p, n) == DIRECTORIO_NULO;
      ArribaIgual(t, t', i, p, n);
      assert Arriba(t', i, n + 1) == DIRECTORIO_NULO;
    }
  }

  /** Every other live entry either never passes through i or goes on from it. */
  lemma EnraizadoPorNuevo(t: seq<Entrada>, t': seq<Entrada>, i: nat, j: nat)
    requires Arbol(t) && Vivo(t, j) && i < |t| && Enraizado(t', i)
    requires |t'| == |t| && forall x :: 0 <= x < |t| && x != i ==> t'[x].padre == t[x].padre
    ensures Enraizado(t', j)
  {
    var n: nat :| Arriba(t, j, n) == DIRECTORIO_NULO;
    if m: nat :| 0 <= m < n && Arriba(t, j, m) == i {
      PrimeraVez(t, t', i, j, m);
    } else {
      ArribaIgual(t, t', i, j, n);
    }
  }

  lemma {:induction false} PrimeraVez(t: seq<Entrada>, t': seq<Entrada>, i: nat, j: nat, m: nat)
    requires Arriba(t, j, m) == i < |t| && Enraizado(t', i)
    requires |t'| == |t| && forall x :: 0 <= x < |t| && x != i ==> t'[x].padre == t[x].padre
    ensures Enraizado(t', j)
    decreases m
  {
    if j != i {
      PrimeraVez(t, t', i, t[j].padre, m - 1);
      var n: nat :| Arriba(t', t[j].padre, n) == DIRECTORIO_NULO;
      assert Arriba(t', j, n + 1) == DIRECTORIO_NULO;
    }
  }

  /** An entry moved under itself never reaches the root. */
  lemma {:induction false} CicloNoLlega(t: seq<Entrada>, t': seq<Entrada>, i: nat, p: nat, k: nat)
    requires Arriba(t, p, k) == i < |t| == MAX_ARCHIVOS
    requires |t'| == |t| && t'[i].padre == p && forall j :: 0 <= j < |t| && j != i ==> t'[j].padre == t[j].padre
    ensures !Enraizado(t', i)
  {
    var c := PasosHasta(t, t', i, p, k);
    if n: nat :| Arriba(t', i, n) == DIRECTORIO_NULO {
      NuncaLlega(t', i, c, n);
    }
  }

  /** The number of steps up from p to i in the new table, with no root on the way. */
  lemma {:induction false} PasosHasta(t: seq<Entrada>, t': seq<Entrada>, i: nat, p: nat, k: nat) returns (c: nat)
    requires Arriba(t, p, k) == i < |t| == MAX_ARCHIVOS
    requires |t'| == |t| && forall j :: 0 <= j < |t| && j != i ==> t'[j].padre == t[j].padre
    ensures Arriba(t', p, c) == i && forall m :: 0 <= m <= c ==> Arriba(t', p, m) < |t|
    decreases k
  {
    if p == i {
      c := 0;
    } else {
      var c' := PasosHasta(t, t', i, t[p].padre, k - 1);
      c := c' + 1;
      forall m | 0 <= m <= c
        ensures Arriba(t', p, m) < |t|
      {
        if m > 0 {
          assert Arriba(t', p, m) == Arriba(t', t[p].padre, m - 1);
        }
      }
    }
  }

  /** On a cycle of c + 1 steps, no number of steps reaches the root. */
  lemma {:induction false} NuncaLlega(t': seq<Entrada>, i: nat, c: nat, n: nat)
    requires i < |t'| == MAX_ARCHIVOS && Arriba(t', t'[i].padre, c) == i
    requires forall m :: 0 <= m <= c ==> Arriba(t', t'[i].padre, m) < |t'|
    ensures Arriba(t', i, n) != DIRECTORIO_NULO
    decreases n
  {
    if n > c {
      ArribaSuma(t', i, c + 1, n - c - 1);
      NuncaLlega(t', i, c, n - c - 1);
    } else if n > 0 {
      assert Arriba(t', i, n) == Arriba(t', t'[i].padre, n - 1);
    }
  }

  lemma {:induction false} ArribaSuma(t: seq<Entrada>, i: nat, a: nat, b: nat)
    ensures Arriba(t, i, a + b) == Arriba(t, Arriba(t, i, a), b)
    decreases a
  {
    if i >= |t| {
      ArribaFuera(t, i, b);
    } else if a > 0 {
      ArribaSuma(t, t[i].padre, a - 1, b);
    }
  }

  lemma ArribaFuera(t: seq<Entrada>, i: nat, b: nat)
    requires i >= |t|
    ensures Arriba(t, i, b) == i
  {
  }
}
