/**
 The second half of deadlock.h: the starving trainers are pruned from the stuck ones, and
 what is left is the reported deadlock.

 `Sostenido` (held up) says what a reported set means: each member holds a pokemon that
 another member asks for. The report is the greatest such subset of the greatest stuck set,
 whatever the order of the removals, and a non-empty report contains a cycle of trainers
 each waiting for something the next one holds.
 */
module Deadlock {
  import opened Estructuras
  import opened Reduccion

  /** `otro` is a different trainer and holds what `entrenador` asks for. */
  predicate Tiene(entrenador: Ficha, otro: Ficha) {
    && otro.simbolo != entrenador.simbolo
    && exists k :: 0 <= k < |otro.capturados| && otro.capturados[k].pokenest == entrenador.peticion
  }

  /** Some other member of T asks for something that x holds. */
  ghost predicate AlguienEspera(es: seq<Ficha>, T: set<nat>, x: nat)
    requires x < |es|
  {
    exists y: nat :: y in T && y < |es| && Tiene(es[y], es[x])
  }

  ghost predicate Sostenido(es: seq<Ficha>, T: set<nat>) {
    forall x :: x in T ==> x < |es| && AlguienEspera(es, T, x)
  }

  /** `R` is the greatest held-up subset of `S`. */
  ghost predicate MayorSostenido(es: seq<Ficha>, S: set<nat>, R: set<nat>) {
    && R <= S && Sostenido(es, R)
    && forall T: set<nat> :: T <= S && Sostenido(es, T) ==> T <= R
  }

  ghost predicate Posiciones(es: seq<Ficha>, l: seq<nat>) {
    (forall i :: 0 <= i < |l| ==> l[i] < |es|) && SinRepetidos(l)
  }

  /** `a` is `b` with some elements left out. */
  ghost predicate Subsecuencia<T(!new)>(a: seq<T>, b: seq<T>) {
    exists f: seq<nat> :: Encaja(a, b, f)
  }

  ghost predicate Encaja<T(!new)>(a: seq<T>, b: seq<T>, f: seq<nat>) {
    && |f| == |a|
    && (forall i :: 0 <= i < |a| ==> f[i] < |b| && a[i] == b[f[i]])
    && (forall i, j :: 0 <= i < j < |f| ==> f[i] < f[j])
  }

  method TieneLoQuePide(entrenador: Ficha, otro: Ficha) returns (r: bool)
    ensures r <==>
      && otro.simbolo != entrenador.simbolo
      && exists k :: 0 <= k < |otro.capturados| && otro.capturados[k].pokenest == entrenador.peticion
    ensures r == Tiene(entrenador, otro)
  {
    if otro.simbolo != entrenador.simbolo {
      var i := 0;
      while i < |otro.capturados|
        invariant i <= |otro.capturados|
        invariant forall k :: 0 <= k < i ==> otro.capturados[k].pokenest != entrenador.peticion
      {
        if otro.capturados[i].pokenest == entrenador.peticion {
          return true;
        }
        i := i + 1;
      }
      return false;
    } else {
      return false;
    }
  }

  method EstaEnInanicion(es: seq<Ficha>, x: nat, l: seq<nat>) returns (inanicion: bool)
    requires Posiciones(es, l) && x < |es|
    ensures inanicion == (|l| > 1 && !AlguienEspera(es, Conjunto(l), x))
  {
    inanicion := true;
    if |l| <= 1 {
      return false;
    }
    var j := 0;
    while j < |l|
      invariant 0 <= j <= |l|
      invariant inanicion ==> forall k :: 0 <= k < j ==> !Tiene(es[l[k]], es[x])
      invariant !inanicion ==> AlguienEspera(es, Conjunto(l), x)
    {
      if es[l[j]].simbolo != es[x].simbolo {
        var t := TieneLoQuePide(es[l[j]], es[x]);
        if t {
          inanicion := false;
          assert l[j] in Conjunto(l);
          j := |l| - 1;
        }
      }
      j := j + 1;
    }
  }

  /** What pruning keeps: `r` is `l` with trainers left out (at the positions `f`), and no
      held-up subset of `l` has lost a member. */
  ghost predicate Poda(es: seq<Ficha>, l: seq<nat>, r: seq<nat>, f: seq<nat>) {
    && Posiciones(es, r) && Encaja(r, l, f)
    && forall T: set<nat> :: T <= Conjunto(l) && Sostenido(es, T) ==> T <= Conjunto(r)
  }

  lemma EsperaMonotona(es: seq<Ficha>, T: set<nat>, U: set<nat>, x: nat)
    requires T <= U && x < |es| && AlguienEspera(es, T, x)
    ensures AlguienEspera(es, U, x)
  {
  }

  lemma ConjuntoSinIndice(r: seq<nat>, i: nat)
    requires i < |r| && SinRepetidos(r)
    ensures Conjunto(SinIndice(r, i)) == Conjunto(r) - {r[i]} && SinRepetidos(SinIndice(r, i))
  {
  }

  lemma EncajaSinIndice<T(!new)>(r: seq<T>, l: seq<T>, f: seq<nat>, i: nat)
    requires Encaja(r, l, f) && i < |r|
    ensures Encaja(SinIndice(r, i), l, SinIndice(f, i))
  {
  }

  lemma PodaPaso(es: seq<Ficha>, l: seq<nat>, r: seq<nat>, f: seq<nat>, i: nat)
    requires Poda(es, l, r, f) && i < |r| && !AlguienEspera(es, Conjunto(r), r[i])
    ensures Poda(es, l, SinIndice(r, i), SinIndice(f, i))
  {
    ConjuntoSinIndice(r, i);
    EncajaSinIndice(r, l, f, i);
    forall T: set<nat> | T <= Conjunto(l) && Sostenido(es, T)
      ensures r[i] !in T
    {
      if r[i] in T {
        EsperaMonotona(es, T, Conjunto(r), r[i]);
      }
    }
  }

  /** Removes starving trainers, restarting after each removal, until none starves or one
      trainer is left. No held-up set loses a member, so the order does not matter. */
  method SacarInanicion(es: seq<Ficha>, l: seq<nat>) returns (r: seq<nat>, seEncontro: bool)
    requires Posiciones(es, l)
    ensures Posiciones(es, r) && Subsecuencia(r, l)
    ensures |r| > 1 ==> Sostenido(es, Conjunto(r))
    ensures forall T: set<nat> :: T <= Conjunto(l) && Sostenido(es, T) ==> T <= Conjunto(r)
    ensures seEncontro == (|r| < |l|)
  {
    r, seEncontro := l, false;
    ghost var f: seq<nat> := seq(|l|, (i: nat) => i);
    if |r| > 1 {
      var i := 0;
      while i < |r|
        invariant 0 <= i <= |r| <= |l|
        invariant Poda(es, l, r, f)
        invariant |r| > 1 ==> forall k :: 0 <= k < i ==> AlguienEspera(es, Conjunto(r), r[k])
        invariant seEncontro == (|r| < |l|)
        decreases |r|, |r| - i
      {
        var inanicion := EstaEnInanicion(es, r[i], r);
        if inanicion {
          PodaPaso(es, l, r, f, i);
          r, f := SinIndice(r, i), SinIndice(f, i);
          seEncontro := true;
          i := -1;
        }
        i := i + 1;
      }
    }
    assert Encaja(r, l, f);
  }

  /** A greatest stuck set exists: join stuck sets while there is one left out. */
  lemma MayorTrabadoExiste(c: Caso, S0: set<nat>) returns (S: set<nat>)
    requires c.Valido() && c.Trabado(S0)
    ensures c.MayorTrabado(S)
    decreases c.Tenedores() - S0
  {
    if T: set<nat> :| c.Trabado(T) && !(T <= S0) {
      c.UnionTrabada(S0, T);
      S := MayorTrabadoExiste(c, S0 + T);
    } else {
      S := S0;
    }
  }

  /** A set with at most one element is held up only when it is empty. */
  lemma UnoSoloNoSeSostiene(es: seq<Ficha>, S: set<nat>, unico: nat)
    requires forall x :: x in S ==> x == unico
    ensures forall T: set<nat> :: T <= S && Sostenido(es, T) ==> T == {}
    ensures MayorSostenido(es, S, {})
  {
  }

  lemma SubsecuenciaCreciente(a: seq<nat>, b: seq<nat>)
    requires Subsecuencia(a, b) && forall p, q :: 0 <= p < q < |b| ==> b[p] < b[q]
    ensures forall p, q :: 0 <= p < q < |a| ==> a[p] < a[q]
    ensures Conjunto(a) <= Conjunto(b)
  {
  }

  /** The reported deadlock, as positions in the list of trainers: the greatest held-up
      subset of the greatest stuck set. With fewer than two trainers nothing is reported. */
  method ObtenerDeadlock(ps: seq<FichaPokenest>, es: seq<Ficha>) returns (r: seq<nat>, ghost S: set<nat>)
    ensures CasoDe(es, ps).MayorTrabado(S)
    ensures MayorSostenido(es, S, Conjunto(r))
    ensures forall p, q :: 0 <= p < q < |r| ==> r[p] < r[q]
    ensures forall k :: 0 <= k < |r| ==> r[k] < |es|
    ensures r == [] || |r| > 1
  {
    r := [];
    ghost var c := CasoDe(es, ps);
    if |es| <= 1 {
      S := MayorTrabadoExiste(c, {});
      UnoSoloNoSeSostiene(es, S, 0);
    } else {
      var peticiones := InicializarMatriz(|es|, |ps|);
      var ok := GenerarMatrizPeticiones(es, ps, peticiones);
      var asignados := InicializarMatriz(|es|, |ps|);
      ok := GenerarMatrizAsignados(es, ps, asignados);
      var disponibles := GenerarVectorRecursosDisponibles(ps);
      ghost var agenda;
      r, agenda := NoPuedenEjecutar(|es|, |ps|, peticiones, asignados, disponibles, c);
      S := Conjunto(r);
      var trabados := r;
      var quitados;
      r, quitados := SacarInanicion(es, trabados);
      SubsecuenciaCreciente(r, trabados);
      if |r| <= 1 {
        UnoSoloNoSeSostiene(es, Conjunto(r), if r == [] then 0 else r[0]);
        r := [];
      }
    }
  }

  // ---------------------------------------------------------------- wait cycles

  /** c[k] waits for something c[k + 1] holds, and the last one waits for the first. */
  ghost predicate CicloDeEspera(es: seq<Ficha>, c: seq<nat>) {
    && |c| > 1 && Posiciones(es, c)
    && (forall k :: 0 <= k < |c| - 1 ==> Tiene(es[c[k]], es[c[k + 1]]))
    && Tiene(es[c[|c| - 1]], es[c[0]])
  }

  /** A non-empty held-up set contains a wait cycle. */
  lemma HayCiclo(es: seq<Ficha>, T: set<nat>) returns (c: seq<nat>)
    requires Sostenido(es, T) && T != {}
    ensures CicloDeEspera(es, c) && Conjunto(c) <= T
  {
    var x :| x in T;
    c := ExtenderCamino(es, T, [x]);
  }

  /** Each one waits for something the next one holds. */
  ghost predicate Camino(es: seq<Ficha>, c: seq<nat>) {
    Posiciones(es, c) && forall k :: 0 <= k < |c| - 1 ==> Tiene(es[c[k]], es[c[k + 1]])
  }

  /** Extends a waiting path backwards, inside T, until it closes on itself. */
  lemma {:induction false} ExtenderCamino(es: seq<Ficha>, T: set<nat>, camino: seq<nat>) returns (c: seq<nat>)
    requires Sostenido(es, T) && camino != [] && Conjunto(camino) <= T && Camino(es, camino)
    ensures CicloDeEspera(es, c) && Conjunto(c) <= T
    decreases T - Conjunto(camino)
  {
    assert camino[0] in Conjunto(camino);
    var y := QuienLoEspera(es, T, camino[0]);
    if y in camino {
      c := CerrarCamino(es, camino, y);
    } else {
      AlargarCamino(es, camino, y);
      c := ExtenderCamino(es, T, [y] + camino);
    }
  }

  lemma QuienLoEspera(es: seq<Ficha>, T: set<nat>, x: nat) returns (y: nat)
    requires Sostenido(es, T) && x in T
    ensures x < |es| && y in T && y < |es| && Tiene(es[y], es[x])
  {
    assert AlguienEspera(es, T, x);
    y :| y in T && y < |es| && Tiene(es[y], es[x]);
  }

  lemma CerrarCamino(es: seq<Ficha>, camino: seq<nat>, y: nat) returns (c: seq<nat>)
    requires camino != [] && Camino(es, camino) && y in camino && Tiene(es[y], es[camino[0]])
    ensures CicloDeEspera(es, c) && Conjunto(c) <= Conjunto(camino)
  {
    var q :| 0 <= q < |camino| && camino[q] == y;
    c := camino[..q + 1];
  }

  lemma AlargarCamino(es: seq<Ficha>, camino: seq<nat>, y: nat)
    requires camino != [] && Camino(es, camino) && y !in camino && y < |es| && Tiene(es[y], es[camino[0]])
    ensures Camino(es, [y] + camino) && Conjunto([y] + camino) == Conjunto(camino) + {y}
  {
  }

  /** A wait cycle holds itself up. */
  lemma CicloSostenido(es: seq<Ficha>, c: seq<nat>)
    requires CicloDeEspera(es, c)
    ensures Sostenido(es, Conjunto(c))
  {
    forall x | x in Conjunto(c)
      ensures x < |es| && AlguienEspera(es, Conjunto(c), x)
    {
      var k :| 0 <= k < |c| && c[k] == x;
      var y := if k == 0 then c[|c| - 1] else c[k - 1];
      assert y in Conjunto(c) && Tiene(es[y], es[x]);
    }
  }

  /** Something is reported exactly when the stuck trainers contain a wait cycle, and then
      every such cycle is in the report. */
  lemma ReporteSiiCiclo(es: seq<Ficha>, S: set<nat>, R: set<nat>)
    requires MayorSostenido(es, S, R)
    ensures R != {} <==> exists c: seq<nat> :: CicloDeEspera(es, c) && Conjunto(c) <= S
    ensures forall c: seq<nat> :: CicloDeEspera(es, c) && Conjunto(c) <= S ==> Conjunto(c) <= R
  {
    forall c: seq<nat> | CicloDeEspera(es, c) && Conjunto(c) <= S
      ensures Conjunto(c) <= R && R != {}
    {
      CicloSostenido(es, c);
      assert c[0] in Conjunto(c) && Conjunto(c) <= R;
    }
    if R != {} {
      var c := HayCiclo(es, R);
    }
  }

  /** Every member of the report really waits: its pokenest has nothing free and every
      allocated pokemon of it is held by a stuck trainer, provided it asks for a pokenest of
      the map. The report is not just a set of trainers that happen to be blocked. */
  lemma ReportadoEspera(ps: seq<FichaPokenest>, es: seq<Ficha>, S: set<nat>, x: nat) returns (j: nat)
    requires CasoDe(es, ps).Trabado(S) && x in S
    requires forall j :: 0 <= j < |ps| ==> ps[j].cant >= 0
    ensures j < |ps| && ps[j].simbolo == es[x].peticion && ps[j].cant == 0
    ensures forall k, p :: 0 <= k < |es| && k !in S && p in es[k].capturados ==> p.inicial != ps[j].simbolo
  {
    var c := CasoDe(es, ps);
    FilasDeCaso(es, ps, x);
    j := c.TrabadoSinRecursos(S, x);
    forall k, p | 0 <= k < |es| && k !in S && p in es[k].capturados
      ensures p.inicial != ps[j].simbolo
    {
      FilasDeCaso(es, ps, k);
      ObtenidosCuenta(es[k].capturados, ps[j].simbolo);
    }
  }

  lemma FilasDeCaso(es: seq<Ficha>, ps: seq<FichaPokenest>, x: nat)
    requires x < |es|
    ensures forall j :: 0 <= j < |ps| ==> CasoDe(es, ps).pet[x][j] == if j == IndiceDe(ps, es[x].peticion) then 1 else 0
    ensures forall j :: 0 <= j < |ps| ==> CasoDe(es, ps).asig[x][j] == Obtenidos(es[x].capturados, ps[j].simbolo)
    ensures forall j :: 0 <= j < |ps| ==> CasoDe(es, ps).disp[j] == ps[j].cant
  {
  }
}
