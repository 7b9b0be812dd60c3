/**
 The multi-instance resource reduction of deadlock.h: the two matrices, the vector of
 available pokemon, and `no_pueden_ejecutar`.

 The specification is independent of the loops. A set of trainers is `Trabado` (stuck)
 when every member holds something and none can have its request met even after everybody
 outside the set has released what they hold. The method returns the greatest such set.
 */
module Reduccion {
  import opened Estructuras

  type Filas = seq<seq<int>>

  /** A detection problem: requests, allocations and availability, n trainers by m pokenests. */
  datatype Caso = Caso(pet: Filas, asig: Filas, disp: seq<int>) {
    function N(): nat { |asig| }
    function M(): nat { |disp| }

    ghost predicate Valido() {
      && |pet| == |asig|
      && (forall i :: 0 <= i < N() ==> |pet[i]| == M())
      && (forall i :: 0 <= i < N() ==> |asig[i]| == M())
      && (forall i, j :: 0 <= i < N() && 0 <= j < M() ==> asig[i][j] >= 0)
    }

    /** Trainer i holds at least one pokemon of some known pokenest. */
    ghost predicate TieneRecursos(i: nat)
      requires Valido() && i < N()
    {
      exists j :: 0 <= j < M() && asig[i][j] != 0
    }

    ghost function Tenedores(): set<nat>
      requires Valido()
    {
      set i: nat | i < N() && TieneRecursos(i)
    }

    /** How many pokemon of pokenest j the first k trainers outside `S` hold. */
    ghost function Fuera(S: set<nat>, j: nat, k: nat): (r: int)
      requires Valido() && j < M() && k <= N()
      ensures r >= 0
    {
      if k == 0 then 0 else Fuera(S, j, k - 1) + (if k - 1 in S then 0 else asig[k - 1][j])
    }

    /** Trainer i's request can be met once everybody outside `S` has released. */
    ghost predicate Puede(i: nat, S: set<nat>)
      requires Valido() && i < N()
    {
      forall j :: 0 <= j < M() ==> pet[i][j] <= disp[j] + Fuera(S, j, N())
    }

    ghost predicate Trabado(S: set<nat>)
      requires Valido()
    {
      S <= Tenedores() && forall i :: i in S ==> !Puede(i, S)
    }

    /** `S` is the greatest stuck set. */
    ghost predicate MayorTrabado(S: set<nat>)
      requires Valido()
    {
      Trabado(S) && forall T: set<nat> :: Trabado(T) ==> T <= S
    }

    /** A release schedule: distinct holders, each one satisfiable once the earlier ones
        (and the trainers that hold nothing) have released. */
    ghost predicate EsAgenda(s: seq<nat>)
      requires Valido()
    {
      s == [] ||
      (var previos := s[..|s| - 1];
       var i := s[|s| - 1];
       && EsAgenda(previos)
       && i in Tenedores() - Conjunto(previos)
       && Puede(i, Tenedores() - Conjunto(previos)))
    }

    lemma {:induction false} FueraQuita(S: set<nat>, i: nat, j: nat, k: nat)
      requires Valido() && j < M() && k <= N() && i in S && i < N()
      ensures Fuera(S - {i}, j, k) == Fuera(S, j, k) + (if i < k then asig[i][j] else 0)
    {
      if k > 0 {
        FueraQuita(S, i, j, k - 1);
      }
    }

    lemma {:induction false} FueraMonotona(S: set<nat>, T: set<nat>, j: nat, k: nat)
      requires Valido() && j < M() && k <= N() && T <= S
      ensures Fuera(S, j, k) <= Fuera(T, j, k)
    {
      if k > 0 {
        FueraMonotona(S, T, j, k - 1);
      }
    }

    lemma PuedeMonotona(i: nat, S: set<nat>, T: set<nat>)
      requires Valido() && i < N() && T <= S && Puede(i, S)
      ensures Puede(i, T)
    {
      forall j | 0 <= j < M()
        ensures pet[i][j] <= disp[j] + Fuera(T, j, N())
      {
        FueraMonotona(S, T, j, N());
      }
    }

    lemma {:induction false} FueraTenedores(j: nat, k: nat)
      requires Valido() && j < M() && k <= N()
      ensures Fuera(Tenedores(), j, k) == 0
    {
      if k > 0 {
        FueraTenedores(j, k - 1);
        if k - 1 !in Tenedores() {
          assert !TieneRecursos(k - 1);
        }
      }
    }

    /** Stuck sets are closed under union, so the greatest one does not depend on any order. */
    lemma UnionTrabada(S: set<nat>, T: set<nat>)
      requires Valido() && Trabado(S) && Trabado(T)
      ensures Trabado(S + T)
    {
      forall i | i in S + T
        ensures !Puede(i, S + T)
      {
        if Puede(i, S + T) {
          PuedeMonotona(i, S + T, if i in S then S else T);
          assert false;
        }
      }
    }

    /** No release schedule ever frees a member of a stuck set. */
    lemma {:induction false} AgendaNoLibera(s: seq<nat>, S: set<nat>)
      requires Valido() && EsAgenda(s) && Trabado(S)
      ensures S !! Conjunto(s)
    {
      if s != [] {
        var previos, i := s[..|s| - 1], s[|s| - 1];
        AgendaNoLibera(previos, S);
        assert s == previos + [i];
        var resto := Tenedores() - Conjunto(previos);
        assert S <= resto;
        if i in S {
          PuedeMonotona(i, resto, S);
          assert false;
        }
      }
    }

    /** A stuck trainer asks for a pokenest with nothing free whose every allocated pokemon
        is held inside the stuck set. */
    lemma TrabadoSinRecursos(S: set<nat>, i: nat) returns (j: nat)
      requires Valido() && Trabado(S) && i in S
      requires forall k :: 0 <= k < M() ==> disp[k] >= 0 && 0 <= pet[i][k] <= 1
      ensures j < M() && pet[i][j] == 1 && disp[j] == 0
      ensures forall k :: 0 <= k < N() && k !in S ==> asig[k][j] == 0
    {
      j :| 0 <= j < M() && pet[i][j] > disp[j] + Fuera(S, j, N());
      forall k | 0 <= k < N() && k !in S
        ensures asig[k][j] == 0
      {
        FueraAlMenos(S, j, k, N());
      }
    }

    lemma {:induction false} FueraAlMenos(S: set<nat>, j: nat, i: nat, k: nat)
      requires Valido() && j < M() && i < k <= N() && i !in S
      ensures Fuera(S, j, k) >= asig[i][j]
    {
      if i < k - 1 {
        FueraAlMenos(S, j, i, k - 1);
      }
    }
  }

  // ---------------------------------------------------------------- matrices

  /** Number of captured pokemon whose name starts with the pokenest's symbol. */
  function Obtenidos(capturados: seq<Pokemon>, simbolo: char): nat {
    if capturados == [] then 0
    else
      var ultimo := |capturados| - 1;
      Obtenidos(capturados[..ultimo], simbolo) + (if capturados[ultimo].inicial == simbolo then 1 else 0)
  }

  /** The positions of those pokemon. */
  ghost function Cuales(capturados: seq<Pokemon>, simbolo: char): set<nat> {
    set k: nat | k < |capturados| && capturados[k].inicial == simbolo
  }

  lemma {:induction false} ObtenidosCuenta(capturados: seq<Pokemon>, simbolo: char)
    ensures Obtenidos(capturados, simbolo) == |Cuales(capturados, simbolo)|
    ensures Obtenidos(capturados, simbolo) == 0 <==> forall p :: p in capturados ==> p.inicial != simbolo
  {
    if capturados != [] {
      var u := |capturados| - 1;
      ObtenidosCuenta(capturados[..u], simbolo);
      assert capturados == capturados[..u] + [capturados[u]];
      var de_u: set<nat> := if capturados[u].inicial == simbolo then {u} else {};
      assert Cuales(capturados, simbolo) == Cuales(capturados[..u], simbolo) + de_u;
    }
  }

  method CantidadObtenidosDeUnTipo(entrenador: Ficha, simbolo: char) returns (cantidad: nat)
    ensures cantidad == |set k: nat | k < |entrenador.capturados| && entrenador.capturados[k].inicial == simbolo|
    ensures cantidad == Obtenidos(entrenador.capturados, simbolo)
  {
    ObtenidosCuenta(entrenador.capturados, simbolo);
    var cap := entrenador.capturados;
    var i := 0;
    cantidad := 0;
    while i < |cap|
      invariant i <= |cap|
      invariant cantidad == Obtenidos(cap[..i], simbolo)
    {
      assert cap[..i + 1][..i] == cap[..i];
      if cap[i].inicial == simbolo {
        cantidad := cantidad + 1;
      }
      i := i + 1;
    }
    assert cap[..i] == cap;
  }

  /** The problem a list of trainers and a list of pokenests pose. A trainer requests one
      pokemon of the first pokenest whose symbol is its `peticion`, if there is one. */
  ghost function CasoDe(es: seq<Ficha>, ps: seq<FichaPokenest>): (c: Caso)
    ensures c.Valido() && c.N() == |es| && c.M() == |ps|
  {
    Caso(
      seq(|es|, i requires 0 <= i < |es| =>
        seq(|ps|, j requires 0 <= j < |ps| => if j == IndiceDe(ps, es[i].peticion) then 1 else 0)),
      seq(|es|, i requires 0 <= i < |es| =>
        seq(|ps|, j requires 0 <= j < |ps| => Obtenidos(es[i].capturados, ps[j].simbolo))),
      seq(|ps|, j requires 0 <= j < |ps| => ps[j].cant))
  }

  /** The matrix holds these rows. */
  ghost predicate Contiene(a: array2<int>, filas: Filas)
    reads a
  {
    && a.Length0 == |filas|
    && (forall i :: 0 <= i < |filas| ==> |filas[i]| == a.Length1)
    && (forall i, j :: 0 <= i < a.Length0 && 0 <= j < a.Length1 ==> a[i, j] == filas[i][j])
  }

  method InicializarMatriz(filas: nat, columnas: nat) returns (matriz: array2<int>)
    ensures fresh(matriz) && matriz.Length0 == filas && matriz.Length1 == columnas
    ensures forall i, j :: 0 <= i < filas && 0 <= j < columnas ==> matriz[i, j] == 0
  {
    matriz := new int[filas, columnas];
    var i := 0;
    while i < filas
      invariant i <= filas
      invariant forall p, q :: 0 <= p < i && 0 <= q < columnas ==> matriz[p, q] == 0
    {
      var j := 0;
      while j < columnas
        invariant j <= columnas
        invariant forall p, q :: 0 <= p < i && 0 <= q < columnas ==> matriz[p, q] == 0
        invariant forall q :: 0 <= q < j ==> matriz[i, q] == 0
      {
        matriz[i, j] := 0;
        j := j + 1;
      }
      i := i + 1;
    }
  }

  method GenerarMatrizPeticiones(es: seq<Ficha>, ps: seq<FichaPokenest>, matriz: array2<int>) returns (ok: bool)
    requires matriz.Length0 == |es| && matriz.Length1 == |ps|
    requires forall i, j :: 0 <= i < |es| && 0 <= j < |ps| ==> matriz[i, j] == 0
    modifies matriz
    ensures ok == (|es| > 1)
    ensures ok ==> Contiene(matriz, CasoDe(es, ps).pet)
    ensures ok ==> forall i, j :: 0 <= i < |es| && 0 <= j < |ps| ==>
      matriz[i, j] ==
      if ps[j].simbolo == es[i].peticion && forall q :: 0 <= q < j ==> ps[q].simbolo != es[i].peticion then 1 else 0
  {
    if |es| <= 1 {
      return false;
    }
    var i := 0;
    while i < |es|
      invariant i <= |es|
      invariant forall p, q :: 0 <= p < i && 0 <= q < |ps| ==>
        matriz[p, q] == if q == IndiceDe(ps, es[p].peticion) then 1 else 0
      invariant forall p, q :: i <= p < |es| && 0 <= q < |ps| ==> matriz[p, q] == 0
    {
      ghost var k := IndiceDe(ps, es[i].peticion);
      var j := 0;
      while j < |ps|
        invariant 0 <= j <= |ps| + 1
        invariant j <= |ps| ==> forall q :: 0 <= q < j ==> ps[q].simbolo != es[i].peticion
        invariant j <= |ps| ==> forall q :: 0 <= q < |ps| ==> matriz[i, q] == 0
        invariant j > |ps| ==> forall q :: 0 <= q < |ps| ==> matriz[i, q] == if q == k then 1 else 0
        invariant forall p, q :: 0 <= p < i && 0 <= q < |ps| ==>
          matriz[p, q] == if q == IndiceDe(ps, es[p].peticion) then 1 else 0
        invariant forall p, q :: i < p < |es| && 0 <= q < |ps| ==> matriz[p, q] == 0
      {
        if es[i].peticion == ps[j].simbolo {
          matriz[i, j] := 1;
          j := |ps|;
        }
        j := j + 1;
      }
      i := i + 1;
    }
    return true;
  }

  method GenerarMatrizAsignados(es: seq<Ficha>, ps: seq<FichaPokenest>, matriz: array2<int>) returns (ok: bool)
    requires matriz.Length0 == |es| && matriz.Length1 == |ps|
    modifies matriz
    ensures ok == (|es| > 1)
    ensures ok ==> Contiene(matriz, CasoDe(es, ps).asig)
    ensures ok ==> forall i, j :: 0 <= i < |es| && 0 <= j < |ps| ==>
      matriz[i, j] == |set k: nat | k < |es[i].capturados| && es[i].capturados[k].inicial == ps[j].simbolo|
  {
    if |es| <= 1 {
      return false;
    }
    var i := 0;
    while i < |es|
      invariant i <= |es|
      invariant forall p, q :: 0 <= p < i && 0 <= q < |ps| ==>
        matriz[p, q] == Obtenidos(es[p].capturados, ps[q].simbolo)
    {
      var j := 0;
      while j < |ps|
        invariant j <= |ps|
        invariant forall p, q :: 0 <= p < i && 0 <= q < |ps| ==>
          matriz[p, q] == Obtenidos(es[p].capturados, ps[q].simbolo)
        invariant forall q :: 0 <= q < j ==> matriz[i, q] == Obtenidos(es[i].capturados, ps[q].simbolo)
      {
        var cantidad := CantidadObtenidosDeUnTipo(es[i], ps[j].simbolo);
        matriz[i, j] := cantidad;
        j := j + 1;
      }
      i := i + 1;
    }
    forall p, q | 0 <= p < |es| && 0 <= q < |ps|
      ensures matriz[p, q] == |Cuales(es[p].capturados, ps[q].simbolo)|
    {
      ObtenidosCuenta(es[p].capturados, ps[q].simbolo);
    }
    return true;
  }

  method GenerarVectorRecursosDisponibles(ps: seq<FichaPokenest>) returns (vector: array<int>)
    ensures fresh(vector)
    ensures vector[..] == seq(|ps|, j requires 0 <= j < |ps| => ps[j].cant)
  {
    vector := new int[|ps|];
    var i := 0;
    while i < |ps|
      invariant i <= |ps|
      invariant forall q :: 0 <= q < i ==> vector[q] == ps[q].cant
    {
      vector[i] := ps[i].cant;
      i := i + 1;
    }
  }

  // ---------------------------------------------------------------- reduction

  /** The trainers whose flag is still up. */
  ghost function Marcados(a: seq<int>): set<nat> {
    set i: nat | i < |a| && a[i] != 0
  }

  /** What the reduction loop keeps: `S` is the set of flagged trainers, `aux` what is
      available once everybody else has released, `agenda` the order they released in. */
  ghost predicate Avance(c: Caso, S: set<nat>, aux: seq<int>, agenda: seq<nat>) {
    && c.Valido() && |aux| == c.M()
    && S <= c.Tenedores()
    && (forall j :: 0 <= j < c.M() ==> aux[j] == c.disp[j] + c.Fuera(S, j, c.N()))
    && (forall T: set<nat> :: c.Trabado(T) ==> T <= S)
    && c.EsAgenda(agenda) && Conjunto(agenda) == c.Tenedores() - S
  }

  lemma AvanceInicial(c: Caso)
    requires c.Valido()
    ensures Avance(c, c.Tenedores(), c.disp, [])
  {
    forall j | 0 <= j < c.M()
      ensures c.Fuera(c.Tenedores(), j, c.N()) == 0
    {
      c.FueraTenedores(j, c.N());
    }
  }

  /** Releasing a satisfiable trainer keeps the invariant: no stuck set loses a member. */
  lemma AvancePaso(c: Caso, S: set<nat>, aux: seq<int>, agenda: seq<nat>, i: nat, aux': seq<int>)
    requires Avance(c, S, aux, agenda) && i in S && c.Puede(i, S)
    requires |aux'| == c.M() && forall j :: 0 <= j < c.M() ==> aux'[j] == aux[j] + c.asig[i][j]
    ensures Avance(c, S - {i}, aux', agenda + [i])
  {
    forall T: set<nat> | c.Trabado(T)
      ensures T <= S - {i}
    {
      if i in T {
        c.PuedeMonotona(i, S, T);
        assert false;
      }
    }
    forall j | 0 <= j < c.M()
      ensures aux'[j] == c.disp[j] + c.Fuera(S - {i}, j, c.N())
    {
      c.FueraQuita(S, i, j, c.N());
    }
    assert (agenda + [i])[..|agenda|] == agenda;
    assert c.Tenedores() - Conjunto(agenda) == S;
    assert Conjunto(agenda + [i]) == Conjunto(agenda) + {i};
  }

  method CopiarDisponibles(m: nat, disponibles: array<int>) returns (aux: array<int>)
    requires m == disponibles.Length
    ensures fresh(aux) && aux[..] == disponibles[..]
  {
    aux := new int[m];
    var i := 0;
    while i < m
      invariant i <= m
      invariant forall q :: 0 <= q < i ==> aux[q] == disponibles[q]
    {
      aux[i] := disponibles[i];
      i := i + 1;
    }
  }

  /** The trainers of the greatest stuck set, by position and in order. Every other holder
      is in `agenda`, a release schedule. The loop restarts from the first trainer after each
      release; it terminates because a release lowers a flag. */
  method NoPuedenEjecutar(n: nat, m: nat, pet: array2<int>, asig: array2<int>, disponibles: array<int>, ghost c: Caso)
    returns (trabados: seq<nat>, ghost agenda: seq<nat>)
    requires c.Valido() && c.N() == n && c.M() == m
    requires Contiene(pet, c.pet) && Contiene(asig, c.asig) && disponibles[..] == c.disp
    requires n > 0 ==> pet.Length1 == asig.Length1 == m
    ensures n > 1 ==> c.MayorTrabado(Conjunto(trabados))
    ensures n > 1 ==> c.EsAgenda(agenda) && Conjunto(agenda) == c.Tenedores() - Conjunto(trabados)
    ensures forall p, q :: 0 <= p < q < |trabados| ==> trabados[p] < trabados[q]
    ensures forall k :: 0 <= k < |trabados| ==> trabados[k] < n
    ensures n <= 1 ==> trabados == []
  {
    trabados, agenda := [], [];
    if n <= 1 {
      return;
    }
    var aux := CopiarDisponibles(m, disponibles);
    var posible := MarcarTenedores(n, m, asig, c);
    ghost var S := c.Tenedores();
    AvanceInicial(c);
    var i := 0;
    while i < n
      invariant 0 <= i <= n
      invariant S == Marcados(posible[..])
      invariant Avance(c, S, aux[..], agenda)
      invariant forall k :: 0 <= k < i && k in S ==> !c.Puede(k, S)
      decreases S, n - i
    {
      if posible[i] != 0 {
        var satisfecho := Satisfecho(i, m, pet, aux, c);
        if satisfecho {
          LiberarEntrenador(i, m, asig, aux, posible, c, S, agenda);
          S, agenda := S - {i}, agenda + [i];
          i := -1;
        }
      }
      i := i + 1;
    }
    trabados := Recoger(n, posible);
    assert Conjunto(trabados) == S;
  }

  /** A trainer that can be satisfied gives back what it holds, and its flag is lowered. */
  method LiberarEntrenador(i: nat, m: nat, asig: array2<int>, aux: array<int>, posible: array<int>, ghost c: Caso,
                           ghost S: set<nat>, ghost agenda: seq<nat>)
    requires c.Valido() && i < c.N() && c.M() == m && asig.Length1 == m && Contiene(asig, c.asig) && aux != posible
    requires Avance(c, S, aux[..], agenda) && S == Marcados(posible[..]) && i in S && c.Puede(i, S)
    modifies aux, posible
    ensures Avance(c, S - {i}, aux[..], agenda + [i]) && S - {i} == Marcados(posible[..])
  {
    ghost var aux0 := aux[..];
    Devolver(i, m, asig, aux, c);
    AvancePaso(c, S, aux0, agenda, i, aux[..]);
    posible[i] := 0;
  }

  /** The flagged trainers, in order. */
  method Recoger(n: nat, posible: array<int>) returns (r: seq<nat>)
    requires posible.Length == n
    ensures forall x: nat :: x in r <==> x in Marcados(posible[..])
    ensures forall k :: 0 <= k < |r| ==> r[k] < n
    ensures forall p, q :: 0 <= p < q < |r| ==> r[p] < r[q]
  {
    r := [];
    var i := 0;
    while i < n
      invariant i <= n
      invariant forall x: nat :: x in r <==> x < i && posible[x] != 0
      invariant forall p, q :: 0 <= p < q < |r| ==> r[p] < r[q]
      invariant forall p :: 0 <= p < |r| ==> r[p] < i
    {
      if posible[i] != 0 {
        r := r + [i];
      }
      i := i + 1;
    }
  }

  /** Flags every trainer, then clears the flag of those that hold nothing. */
  method MarcarTenedores(n: nat, m: nat, asig: array2<int>, ghost c: Caso) returns (posible: array<int>)
    requires c.Valido() && c.N() == n && c.M() == m
    requires Contiene(asig, c.asig) && (n > 0 ==> asig.Length1 == m)
    ensures fresh(posible) && posible.Length == n
    ensures Marcados(posible[..]) == c.Tenedores()
  {
    posible := new int[n];
    var i := 0;
    while i < n
      invariant i <= n
      invariant forall k :: 0 <= k < i ==> posible[k] == 1
    {
      posible[i] := 1;
      i := i + 1;
    }
    i := 0;
    while i < n
      invariant i <= n
      invariant forall k :: i <= k < n ==> posible[k] == 1
      invariant forall k :: 0 <= k < i ==> (posible[k] != 0 <==> c.TieneRecursos(k))
    {
      var tiene := false;
      var j := 0;
      while j < m
        invariant j <= m
        invariant tiene <==> exists q :: 0 <= q < j && c.asig[i][q] != 0
      {
        if asig[i, j] != 0 {
          tiene := true;
        }
        j := j + 1;
      }
      if !tiene {
        posible[i] := 0;
      }
      i := i + 1;
    }
  }

  method Satisfecho(i: nat, m: nat, pet: array2<int>, aux: array<int>, ghost c: Caso) returns (ok: bool)
    requires c.Valido() && i < c.N() && c.M() == m == aux.Length
    requires Contiene(pet, c.pet) && pet.Length1 == m
    ensures ok <==> forall j :: 0 <= j < m ==> c.pet[i][j] <= aux[j]
  {
    ok := true;
    var j := 0;
    while j < m
      invariant 0 <= j <= m
      invariant ok ==> forall q :: 0 <= q < j ==> c.pet[i][q] <= aux[q]
      invariant !ok ==> exists q :: 0 <= q < m && c.pet[i][q] > aux[q]
    {
      if pet[i, j] > aux[j] {
        ok := false;
        j := m;
      } else {
        j := j + 1;
      }
    }
  }

  method Devolver(i: nat, m: nat, asig: array2<int>, aux: array<int>, ghost c: Caso)
    requires c.Valido() && i < c.N() && c.M() == m == aux.Length
    requires Contiene(asig, c.asig) && asig.Length1 == m
    modifies aux
    ensures forall j :: 0 <= j < m ==> aux[j] == old(aux[j]) + c.asig[i][j]
  {
    var k := 0;
    while k < m
      invariant k <= m
      invariant forall j :: 0 <= j < k ==> aux[j] == old(aux[j]) + c.asig[i][j]
      invariant forall j :: k <= j < m ==> aux[j] == old(aux[j])
    {
      aux[k] := aux[k] + asig[i, k];
      k := k + 1;
    }
  }
}
