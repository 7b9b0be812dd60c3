/**
 Round robin on a whole map: the order in which ready trainers get their turn, in every run.
 */
module MapaTurnos {
  import opened Estructuras
  import opened MapaPokemon
  import opened MapaPasos
  import M = MapaDeadlock
  import P = Planificacion

  /** A run of one list of events after another. */
  lemma {:induction false} CorrerSeguido<T>(listos: seq<T>, a: seq<P.Evento<T>>, b: seq<P.Evento<T>>)
    ensures P.Correr(listos, a + b) ==
      (P.Correr(P.Correr(listos, a).0, b).0, P.Correr(listos, a).1 + P.Correr(P.Correr(listos, a).0, b).1)
    decreases |a|
  {
    if a == [] {
      assert a + b == b;
      assert [] + P.Correr(listos, b).1 == P.Correr(listos, b).1;
    } else {
      assert (a + b)[0] == a[0] && (a + b)[1..] == a[1..] + b;
      match a[0]
      case Entra(t) => CorrerSeguido(listos + [t], a[1..], b);
      case Despacha =>
        if listos == [] {
          CorrerSeguido(listos, a[1..], b);
        } else {
          CorrerSeguido(listos[1..], a[1..], b);
          var d, r := P.Correr(listos[1..], a[1..]).1, P.Correr(P.Correr(listos[1..], a[1..]).0, b).1;
          assert [listos[0]] + (d + r) == [listos[0]] + d + r;
        }
    }
  }

  function Llegan<T>(ts: seq<T>): seq<P.Evento<T>> {
    if ts == [] then [] else [P.Entra(ts[0])] + Llegan(ts[1..])
  }

  lemma {:induction false} CorrerLlegan<T>(listos: seq<T>, ts: seq<T>)
    ensures P.Correr(listos, Llegan(ts)) == (listos + ts, [])
    decreases |ts|
  {
    if ts == [] {
      assert listos + ts == listos;
    } else {
      assert Llegan(ts)[1..] == Llegan(ts[1..]);
      CorrerLlegan(listos + [ts[0]], ts[1..]);
      assert listos + [ts[0]] + ts[1..] == listos + ts;
    }
  }

  /** What one event does to the ready list, as entries at the tail and dispatches of the head. */
  lemma PasoEnCola(antes: seq<Jugador>, despues: seq<Jugador>, despacho: bool) returns (paso: seq<P.Evento<Jugador>>)
    requires if despacho then antes != [] && despues == antes[1..] else antes <= despues
    ensures P.Correr(antes, paso) == (despues, if despacho then [antes[0]] else [])
  {
    if despacho {
      paso := [P.Despacha];
      assert paso[1..] == [] && [antes[0]] + [] == [antes[0]];
    } else {
      paso := Llegan(despues[|antes|..]);
      CorrerLlegan(antes, despues[|antes|..]);
      assert antes + despues[|antes|..] == despues;
    }
  }

  /** Whoever was at position p of the ready list was the (p+1)-th to get a turn, or has moved
      up one position for each turn given. */
  ghost predicate EnOrden<T>(antes: seq<T>, turnos: seq<T>, quedan: seq<T>) {
    forall p :: 0 <= p < |antes| ==>
      if p < |turnos| then turnos[p] == antes[p]
      else p - |turnos| < |quedan| && quedan[p - |turnos|] == antes[p]
  }

  lemma CorrerEnOrden<T>(listos: seq<T>, traza: seq<P.Evento<T>>)
    ensures EnOrden(listos, P.Correr(listos, traza).1, P.Correr(listos, traza).0)
  {
    forall p | 0 <= p < |listos|
      ensures var (quedan, turnos) := P.Correr(listos, traza);
        if p < |turnos| then turnos[p] == listos[p] else p - |turnos| < |quedan| && quedan[p - |turnos|] == listos[p]
    {
      P.TurnoExacto(listos, traza, p);
    }
  }

  /** The trainers that get a turn in a run, in order: each dispatch that applies gives one. */
  function Turnos(eventos: seq<Evento>, m: seq<Instante>): seq<Jugador>
    requires |m| == |eventos| + 1
  {
    if eventos == [] then []
    else
      var n := |eventos| - 1;
      Turnos(eventos[..n], m[..n + 1]) + Turno(m[n], eventos[n])
  }

  function Turno(x: Instante, e: Evento): seq<Jugador> {
    if e.Despacha? && SePuedeDespachar(x.l, e.k) then [x.l.listos[e.k]] else []
  }

  predicate PorTurnos(eventos: seq<Evento>) {
    forall k :: 0 <= k < |eventos| && eventos[k].Despacha? ==> eventos[k].k == 0
  }

  lemma PasoPorTurnos(ss: seq<char>, x: Instante, e: Evento, y: Instante) returns (paso: seq<P.Evento<Jugador>>)
    requires Paso(ss, x, e, y) && (e.Despacha? ==> e.k == 0)
    ensures P.Correr(x.l.listos, paso) == (y.l.listos, Turno(x, e))
  {
    PasoListos(ss, x, e, y);
    paso := PasoEnCola(x.l.listos, y.l.listos, e.Despacha? && SePuedeDespachar(x.l, e.k));
  }

  lemma PrefijoDeCorrida(ss: seq<char>, m: seq<Instante>, eventos: seq<Evento>, n: nat)
    requires Corrida(ss, m, eventos) && n <= |eventos|
    ensures Corrida(ss, m[..n + 1], eventos[..n])
  {
    assert Abrir(Historia, 0);
    assert forall k :: 0 <= k <= n ==> m[..n + 1][k] == m[k];
  }

  /** The ready list of a run is that of entries at the tail and dispatches of the head. */
  lemma {:induction false} CorridaPorTurnos(ss: seq<char>, m: seq<Instante>, eventos: seq<Evento>)
    returns (traza: seq<P.Evento<Jugador>>)
    requires Corrida(ss, m, eventos) && PorTurnos(eventos)
    ensures P.Correr(m[0].l.listos, traza) == (m[|eventos|].l.listos, Turnos(eventos, m))
  {
    traza := [];
    if eventos != [] {
      var n := |eventos| - 1;
      PrefijoDeCorrida(ss, m, eventos, n);
      traza := CorridaPorTurnos(ss, m[..n + 1], eventos[..n]);
      PasoDeCorrida(ss, m, eventos, n);
      var paso := PasoPorTurnos(ss, m[n], eventos[n], m[n + 1]);
      CorrerSeguido(m[0].l.listos, traza, paso);
      traza := traza + paso;
    }
  }

  /** Under round robin, in every run, ready trainers get their turn in order, whatever else
      happens on the map. */
  lemma CorridaEnOrden(ss: seq<char>, m: seq<Instante>, eventos: seq<Evento>)
    requires Corrida(ss, m, eventos) && PorTurnos(eventos)
    ensures EnOrden(m[0].l.listos, Turnos(eventos, m), m[|eventos|].l.listos)
  {
    var traza := CorridaPorTurnos(ss, m, eventos);
    CorrerEnOrden(m[0].l.listos, traza);
  }

  lemma TurnosMas(eventos: seq<Evento>, m: seq<Instante>, n: nat, y: Instante)
    requires |m| == n + 1 <= |eventos|
    ensures Turnos(eventos[..n + 1], m + [y]) == Turnos(eventos[..n], m) + Turno(m[n], eventos[n])
  {
    assert eventos[..n + 1][..n] == eventos[..n] && (m + [y])[..n + 1] == m;
  }

  function TurnoAhora(m: Mapa, e: Evento): (r: seq<Jugador>)
    reads m
    ensures r == Turno(m.Ahora(), e)
  {
    if e.Despacha? && m.corriendo == null && e.k < |m.listos| then [m.listos[e.k]] else []
  }

  /** The map under round robin: the turns given are those of the run of exactly these events,
      in the order of the ready list. */
  method CorrerPorTurnos(m: Mapa, eventos: seq<Evento>) returns (turnos: seq<Jugador>, ghost momentos: seq<Instante>)
    requires m.Valid({}) && ListaBien(m.Simbolos(), m.Ahora()) && PorTurnos(eventos)
    modifies m, m.sistema, m.pokenests
    ensures m.Valid({}) && m.total == old(m.total) && ListaBien(m.Simbolos(), m.Ahora())
    ensures Corrida(m.Simbolos(), momentos, eventos) && SiempreEnRegla(m.Simbolos(), momentos, old(m.total))
    ensures momentos[0] == old(m.Ahora()) && momentos[|momentos| - 1] == m.Ahora()
    ensures turnos == Turnos(eventos, momentos) && EnOrden(old(m.listos), turnos, m.listos)
  {
    momentos := [m.Ahora()];
    M.Empieza(m, eventos);
    turnos := [];
    var n := 0;
    while n < |eventos|
      invariant n <= |eventos| && m.Valid({}) && m.total == old(m.total) && ListaBien(m.Simbolos(), m.Ahora())
      invariant Corrida(m.Simbolos(), momentos, eventos[..n]) && SiempreEnRegla(m.Simbolos(), momentos, m.total)
      invariant momentos[0] == old(m.Ahora()) && momentos[|momentos| - 1] == m.Ahora()
      invariant turnos == Turnos(eventos[..n], momentos)
      invariant forall i :: 0 <= i < |m.sistema| ==> m.sistema[i] in old(m.sistema) || fresh(m.sistema[i])
    {
      ghost var antes := momentos;
      turnos := turnos + TurnoAhora(m, eventos[n]);
      momentos := M.Seguir(m, eventos, n, momentos);
      TurnosMas(eventos, antes, n, m.Ahora());
      n := n + 1;
    }
    assert eventos[..n] == eventos;
    CorridaEnOrden(m.Simbolos(), momentos, eventos);
  }
}
