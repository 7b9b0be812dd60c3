/**
 The ready-list policies: shortest remaining distance first, built on the list's own take,
 sort and remove, and round robin.
 */
module Planificacion {
  import opened Estructuras
  import opened Lista

  /** What the planner reads of a ready trainer. */
  datatype Listo = Listo(numero: int, socket: int, destinox: int, destinoy: int, conocePokenest: bool)

  function MovRestantes(j: Listo): int {
    j.destinox + j.destinoy
  }

  /** Fewer remaining moves first; on a tie, the earlier arrival. */
  predicate MenosDistancia(j1: Listo, j2: Listo) {
    if MovRestantes(j1) == MovRestantes(j2) then j1.numero < j2.numero
    else MovRestantes(j1) < MovRestantes(j2)
  }

  const MENOS_DISTANCIA := (j1: Listo, j2: Listo) => MenosDistancia(j1, j2)

  lemma MenosDistanciaTransitiva()
    ensures LeTransitiva(MENOS_DISTANCIA)
  {
  }

  /** The comparator is a strict weak order: nobody is before itself or before an equal. */
  lemma MenosDistanciaEstricta()
    ensures OrdenDebilEstricto(MENOS_DISTANCIA)
  {
  }

  /** The order the comparator induces, on the fields. */
  lemma AntesSii(a: Listo, b: Listo)
    ensures Le(MENOS_DISTANCIA, a, b) <==>
      || a.destinox + a.destinoy < b.destinox + b.destinoy
      || (a.destinox + a.destinoy == b.destinox + b.destinoy && a.numero <= b.numero)
  {
    assert MENOS_DISTANCIA(a, b) == MenosDistancia(a, b) && MENOS_DISTANCIA(b, a) == MenosDistancia(b, a);
  }

  ghost predicate SocketsUnicos(s: seq<Listo>) {
    forall i, j :: 0 <= i < j < |s| ==> s[i].socket != s[j].socket
  }

  ghost predicate NumerosUnicos(s: seq<Listo>) {
    forall i, j :: 0 <= i < j < |s| ==> s[i].numero != s[j].numero
  }

  method OrdenarListaSRDF(lista: TLista<Listo>)
    requires lista.Valid()
    modifies lista.nodos`data, lista`elementos
    ensures lista.Valid() && multiset(lista.elementos) == multiset(old(lista.elementos))
    ensures Ordenada(MENOS_DISTANCIA, lista.elementos)
    ensures forall i, j :: 0 <= i < j < |lista.elementos| ==>
      var a, b := lista.elementos[i], lista.elementos[j];
      || a.destinox + a.destinoy < b.destinox + b.destinoy
      || (a.destinox + a.destinoy == b.destinox + b.destinoy && a.numero <= b.numero)
  {
    MenosDistanciaTransitiva();
    lista.Sort(MENOS_DISTANCIA);
    forall i, j | 0 <= i < j < |lista.elementos|
      ensures var a, b := lista.elementos[i], lista.elementos[j];
        || a.destinox + a.destinoy < b.destinox + b.destinoy
        || (a.destinox + a.destinoy == b.destinox + b.destinoy && a.numero <= b.numero)
    {
      AntesSii(lista.elementos[i], lista.elementos[j]);
    }
  }

  /** Removes the first ready trainer with the given socket. */
  method RemoveJugadorSocket(listos: TLista<Listo>, socket: int) returns (r: Opcion<Listo>)
    requires listos.Valid()
    modifies listos, listos.nodos
    ensures listos.Valid()
    ensures var k := Primero(old(listos.elementos), (j: Listo) => j.socket == socket);
      if k < |old(listos.elementos)|
      then r == Algo(old(listos.elementos)[k]) && listos.elementos == SinIndice(old(listos.elementos), k)
      else r == Nada && listos.elementos == old(listos.elementos)
  {
    r := listos.RemoveByCondition((j: Listo) => j.socket == socket);
  }

  /** Takes out of the ready list the trainer with the fewest remaining moves, the earliest
      arrival among equals, and keeps the others in order. With unique arrival numbers that
      trainer precedes every other one strictly. */
  method GetSRDF(listos: TLista<Listo>) returns (r: Listo, ghost k: nat)
    requires listos.Valid() && listos.elementos != [] && SocketsUnicos(listos.elementos)
    modifies listos, listos.nodos
    ensures listos.Valid() && k < |old(listos.elementos)|
    ensures r == old(listos.elementos)[k] && listos.elementos == SinIndice(old(listos.elementos), k)
    ensures forall j :: 0 <= j < |old(listos.elementos)| ==>
      var o := old(listos.elementos)[j];
      || r.destinox + r.destinoy < o.destinox + o.destinoy
      || (r.destinox + r.destinoy == o.destinox + o.destinoy && r.numero <= o.numero)
    ensures NumerosUnicos(old(listos.elementos)) ==>
      forall j :: 0 <= j < |old(listos.elementos)| && j != k ==>
        var o := old(listos.elementos)[j];
        || r.destinox + r.destinoy < o.destinox + o.destinoy
        || (r.destinox + r.destinoy == o.destinox + o.destinoy && r.numero < o.numero)
  {
    var primero;
    primero, k := MenorListo(listos);
    SocketEnSuLugar(listos.elementos, k);
    var buscado := RemoveJugadorSocket(listos, primero.socket);
    r := buscado.valor;
    forall j | 0 <= j < |old(listos.elementos)|
      ensures var o := old(listos.elementos)[j];
        || r.destinox + r.destinoy < o.destinox + o.destinoy
        || (r.destinox + r.destinoy == o.destinox + o.destinoy && r.numero <= o.numero)
    {
      AntesSii(r, old(listos.elementos)[j]);
    }
  }

  /** The head of a sorted copy of the ready list, and where it is in the list itself. */
  method MenorListo(listos: TLista<Listo>) returns (primero: Listo, ghost k: nat)
    requires listos.Valid() && listos.elementos != []
    ensures k < |listos.elementos| && primero == listos.elementos[k]
    ensures forall j :: 0 <= j < |listos.elementos| ==> Le(MENOS_DISTANCIA, primero, listos.elementos[j])
  {
    var tam := listos.Size();
    var auxiliar := listos.Take(tam, Listo(0, 0, 0, 0, false));
    assert auxiliar.elementos == listos.elementos;
    OrdenarListaSRDF(auxiliar);
    k := PosicionDelMenor(listos.elementos, auxiliar.elementos);
    var p := auxiliar.Get(0);
    primero := p.valor;
  }

  /** The head of a sorted permutation is a least element. */
  lemma PosicionDelMenor(s: seq<Listo>, orden: seq<Listo>) returns (k: nat)
    requires s != [] && multiset(orden) == multiset(s) && Ordenada(MENOS_DISTANCIA, orden)
    ensures k < |s| && orden != [] && s[k] == orden[0]
    ensures forall j :: 0 <= j < |s| ==> Le(MENOS_DISTANCIA, s[k], s[j])
  {
    assert |orden| == |multiset(orden)| == |multiset(s)| == |s|;
    assert orden[0] in multiset(s);
    k :| 0 <= k < |s| && s[k] == orden[0];
    forall j | 0 <= j < |s|
      ensures Le(MENOS_DISTANCIA, s[k], s[j])
    {
      assert s[j] in multiset(orden);
      var i :| 0 <= i < |orden| && orden[i] == s[j];
      assert i > 0 ==> Le(MENOS_DISTANCIA, orden[0], orden[i]);
    }
  }

  lemma SocketEnSuLugar(s: seq<Listo>, k: nat)
    requires k < |s| && SocketsUnicos(s)
    ensures Primero(s, (j: Listo) => j.socket == s[k].socket) == k
  {
  }

  /** Takes out the first ready trainer that does not know its pokenest yet, if there is one. */
  method GetPrioritySRDF(listos: TLista<Listo>) returns (r: Opcion<Listo>)
    requires listos.Valid()
    modifies listos, listos.nodos
    ensures listos.Valid()
    ensures var k := Primero(old(listos.elementos), (j: Listo) => !j.conocePokenest);
      if k < |old(listos.elementos)|
      then r == Algo(old(listos.elementos)[k]) && listos.elementos == SinIndice(old(listos.elementos), k)
      else r == Nada && listos.elementos == old(listos.elementos)
  {
    r := listos.RemoveByCondition((j: Listo) => !j.conocePokenest);
  }

  // ---------------------------------------------------------------- round robin

  /** What happens to the ready list: a trainer enters at the tail (on arrival, after its turn,
      or unblocked), or the head is dispatched; with nobody ready a dispatch does nothing. */
  datatype Evento<T> = Entra(t: T) | Despacha

  /** The ready list after some events, and the trainers dispatched, in order. */
  function Correr<T>(listos: seq<T>, eventos: seq<Evento<T>>): (r: (seq<T>, seq<T>))
    decreases |eventos|
  {
    if eventos == [] then (listos, [])
    else
      match eventos[0]
      case Entra(t) => Correr(listos + [t], eventos[1..])
      case Despacha =>
        if listos == [] then Correr(listos, eventos[1..])
        else
          var (quedan, despachados) := Correr(listos[1..], eventos[1..]);
          (quedan, [listos[0]] + despachados)
  }

  function Entradas<T>(eventos: seq<Evento<T>>): seq<T> {
    if eventos == [] then []
    else (if eventos[0].Entra? then [eventos[0].t] else []) + Entradas(eventos[1..])
  }

  /** Trainers are dispatched in the order they were ready, nobody twice and nobody skipped:
      dispatched and still ready, in this order, are those ready at first and those who came. */
  lemma {:induction false} DespachoEnOrden<T>(listos: seq<T>, eventos: seq<Evento<T>>)
    ensures var (quedan, despachados) := Correr(listos, eventos);
      despachados + quedan == listos + Entradas(eventos)
    decreases |eventos|
  {
    if eventos != [] {
      match eventos[0]
      case Entra(t) =>
        DespachoEnOrden(listos + [t], eventos[1..]);
        assert listos + Entradas(eventos) == listos + [t] + Entradas(eventos[1..]);
      case Despacha =>
        if listos == [] {
          DespachoEnOrden(listos, eventos[1..]);
        } else {
          DespachoEnOrden(listos[1..], eventos[1..]);
          assert listos + Entradas(eventos) == [listos[0]] + (listos[1..] + Entradas(eventos[1..]));
        }
    }
  }

  /** A trainer at position p of the ready list is exactly the (p+1)-th dispatched. */
  lemma TurnoExacto<T>(listos: seq<T>, eventos: seq<Evento<T>>, p: nat)
    requires p < |listos|
    ensures var (quedan, despachados) := Correr(listos, eventos);
      if p < |despachados| then despachados[p] == listos[p]
      else p - |despachados| < |quedan| && quedan[p - |despachados|] == listos[p]
  {
    DespachoEnOrden(listos, eventos);
    var (quedan, despachados) := Correr(listos, eventos);
    assert (listos + Entradas(eventos))[p] == listos[p];
    assert (despachados + quedan)[p] == listos[p];
  }
}
