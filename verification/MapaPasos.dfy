/**
 What each event does to a map, as a relation between the moments before and after it, and
 what every run of events keeps.
 */
module MapaPasos {
  import opened Estructuras
  import Reduccion
  import opened Deadlock
  import opened MapaPokemon

  /** What can happen on a map. An event that does not apply is skipped. Detection and battle
      are two events: the battle uses the list that detection left, whatever came between.
      `rotos` are the sockets whose connection is down during the event. */
  datatype Evento =
    | Llega(simbolo: char, socket: int)
    | Despacha(k: nat)
    | Captura(pedido: char, rotos: set<int>)
    | TerminaTurno
    | SeDesconecta(rotos: set<int>)
    | CierraBloqueado(j: nat, rotos: set<int>)
    | Detecta
    | Pelea(perdedor: nat, rotos: set<int>)

  // ---------------------------------------------------------------- what detection reads

  /** What a trainer asks for: the pokenest in whose queue it waits. */
  function Pide(ss: seq<char>, qs: seq<seq<Jugador>>, t: Jugador): char
    requires |qs| <= |ss|
  {
    if qs == [] then SIN_PETICION
    else if t in qs[|qs| - 1] then ss[|qs| - 1]
    else Pide(ss, qs[..|qs| - 1], t)
  }

  lemma {:induction false} PideEnCola(ss: seq<char>, qs: seq<seq<Jugador>>, t: Jugador, i: nat)
    requires |qs| <= |ss| && i < |qs| && t in qs[i] && forall j :: 0 <= j < |qs| && t in qs[j] ==> j == i
    ensures Pide(ss, qs, t) == ss[i]
  {
    if i < |qs| - 1 {
      PideEnCola(ss, qs[..|qs| - 1], t, i);
    }
  }

  lemma {:induction false} PideNada(ss: seq<char>, qs: seq<seq<Jugador>>, t: Jugador)
    requires |qs| <= |ss| && forall j :: 0 <= j < |qs| ==> t !in qs[j]
    ensures Pide(ss, qs, t) == SIN_PETICION
  {
    if qs != [] {
      PideNada(ss, qs[..|qs| - 1], t);
    }
  }

  /** One queue, one list of free pokemon and one symbol for each pokenest. */
  predicate Medidas(ss: seq<char>, x: Instante) {
    |x.l.bloqueados| == |x.colas| == |ss|
  }

  function FichasDe(ss: seq<char>, x: Instante): seq<Ficha>
    requires Medidas(ss, x)
  {
    var js := x.l.sistema;
    seq(|js|, i requires 0 <= i < |js| => Ficha(js[i].simbolo, Pide(ss, x.l.bloqueados, js[i]), Suyos(x.caps, js[i])))
  }

  function NidosDe(ss: seq<char>, x: Instante): seq<FichaPokenest>
    requires Medidas(ss, x)
  {
    seq(|ss|, i requires 0 <= i < |ss| => FichaPokenest(ss[i], |x.colas[i]|))
  }

  /** The greatest held-up subset R of the greatest stuck set S. */
  ghost predicate EsReporte(es: seq<Ficha>, ps: seq<FichaPokenest>, S: set<nat>, R: set<nat>) {
    forall u {:trigger Abrir(Informe, u)} :: Abrir(Informe, u) ==>
      Reduccion.CasoDe(es, ps).MayorTrabado(S) && MayorSostenido(es, S, R)
  }

  lemma EsReporteSi(es: seq<Ficha>, ps: seq<FichaPokenest>, S: set<nat>, R: set<nat>)
    requires Reduccion.CasoDe(es, ps).MayorTrabado(S) && MayorSostenido(es, S, R)
    ensures EsReporte(es, ps, S, R)
  {
  }

  /** `r` is the deadlock of a map, by increasing positions in its list of trainers. */
  ghost predicate Reporte(ss: seq<char>, x: Instante, S: set<nat>, r: seq<nat>)
    requires Medidas(ss, x)
  {
    && EsReporte(FichasDe(ss, x), NidosDe(ss, x), S, Conjunto(r))
    && (forall p, q :: 0 <= p < q < |r| ==> r[p] < r[q])
    && forall k :: 0 <= k < |r| ==> r[k] < |x.l.sistema|
  }

  function Elegidos(js: seq<Jugador>, r: seq<nat>): seq<Jugador>
    requires forall k :: 0 <= k < |r| ==> r[k] < |js|
  {
    seq(|r|, k requires 0 <= k < |r| => js[r[k]])
  }

  // ---------------------------------------------------------------- one event

  /** The trainer, out of its place already, leaves the system, and what it held is handed on. Each
      other trainer has the luck its connection gives it; if nobody else leaves, every send worked,
      and the outcome is exactly that of handing it out. */
  ghost predicate Sale(ss: seq<char>, x: Instante, v: Jugador, y: Instante, rotos: set<int>) {
    && v in x.l.sistema && v !in y.l.sistema && Avance(x.l, y.l)
    && y.deadlock == [] && y.llegados == x.llegados && Suertes(ss, x, y, rotos, {v})
    && ((forall t :: t in x.l.sistema ==> t == v || t in y.l.sistema) ==>
          Repartidos(ss, x.(deadlock := []), Suyos(x.caps, v), ConSistema(y, x.l.sistema)))
  }

  ghost predicate SaleCorriendo(ss: seq<char>, x: Instante, y: Instante, rotos: set<int>) {
    x.l.corriendo != null && Sale(ss, SinCorrer(x), x.l.corriendo, y, rotos)
  }

  ghost predicate SaleBloqueado(ss: seq<char>, x: Instante, v: Jugador, y: Instante, rotos: set<int>) {
    exists i: nat :: i < |x.l.bloqueados| && v in x.l.bloqueados[i] && Sale(ss, SinBloqueado(x, i, v), v, y, rotos)
  }

  /** The socket of a trainer closes: if it waits, it leaves. */
  ghost predicate PasoCierra(ss: seq<char>, x: Instante, j: nat, y: Instante, rotos: set<int>) {
    if j < |x.l.sistema| && Espera(x.l, x.l.sistema[j]) then SaleBloqueado(ss, x, x.l.sistema[j], y, rotos) else y == x
  }

  /** The k-th trainer of the list loses the battle. */
  ghost predicate PasoPelea(ss: seq<char>, x: Instante, k: nat, y: Instante, rotos: set<int>) {
    if k < |x.deadlock| then SaleBloqueado(ss, x, x.deadlock[k], y, rotos) else y == x
  }

  predicate SocketLibre(js: seq<Jugador>, socket: int) {
    forall i :: 0 <= i < |js| ==> js[i].socket != socket
  }

  ghost predicate PasoLlega(x: Instante, simbolo: char, socket: int, y: Instante) {
    if SocketLibre(x.l.sistema, socket) then
      && y.l.sistema != []
      && var t := y.l.sistema[|y.l.sistema| - 1];
         && t !in x.l.sistema && t.simbolo == simbolo && t.socket == socket && t.numero == x.llegados + 1
         && y == x.(l := x.l.(sistema := x.l.sistema + [t], listos := x.l.listos + [t]),
                    caps := x.caps[t := []], llegados := x.llegados + 1)
    else y == x
  }

  /** The dispatch applies: nobody is running and there is a k-th ready trainer. */
  predicate SePuedeDespachar(l: Lugares, k: nat) {
    l.corriendo == null && k < |l.listos|
  }

  ghost predicate PasoDespacha(x: Instante, k: nat, y: Instante) {
    y == if SePuedeDespachar(x.l, k) then x.(l := x.l.(listos := SinIndice(x.l.listos, k), corriendo := x.l.listos[k]))
         else x
  }

  /** The running trainer waits at the tail of queue i. */
  function Encolado(x: Instante, i: nat): Instante
    requires x.l.corriendo != null && i < |x.l.bloqueados|
  {
    x.(l := x.l.(bloqueados := x.l.bloqueados[i := x.l.bloqueados[i] + [x.l.corriendo]], corriendo := null))
  }

  /** A capture request and what comes of it: the pokemon is kept and the turn ends, or the trainer
      waits; if its send fails it leaves, the pokemon going back to the tail first. */
  ghost predicate PasoCaptura(ss: seq<char>, x: Instante, pedido: char, y: Instante, rotos: set<int>)
    requires Medidas(ss, x)
  {
    var i, t := IndiceSimbolo(ss, pedido), x.l.corriendo;
    if t == null || i < 0 then y == x
    else if x.colas[i] == [] then
      if t.socket in rotos then SaleCorriendo(ss, x, y, rotos) else y == Encolado(x, i)
    else
      var p, resto := x.colas[i][0], x.colas[i][1..];
      if t.socket in rotos then SaleCorriendo(ss, x.(colas := x.colas[i := resto + [p]]), y, rotos)
      else y == Reencolado(x.(colas := x.colas[i := resto], caps := x.caps[t := Suyos(x.caps, t) + [p]]))
  }

  /** A report that is not empty replaces the list. */
  ghost predicate PasoDetecta(ss: seq<char>, x: Instante, y: Instante)
    requires Medidas(ss, x)
  {
    exists S, r :: Reporte(ss, x, S, r) && y == if r == [] then x else x.(deadlock := Elegidos(x.l.sistema, r))
  }

  /** What is free or held by a trainer in some place. */
  ghost function TotalDe(x: Instante): multiset<Pokemon> {
    Total(x.colas, x.caps, x.l)
  }

  ghost predicate Sucede(ss: seq<char>, x: Instante, e: Evento, y: Instante)
    requires Medidas(ss, x)
  {
    match e
    case Llega(simbolo, socket) => PasoLlega(x, simbolo, socket, y)
    case Despacha(k) => PasoDespacha(x, k, y)
    case Captura(pedido, rotos) => PasoCaptura(ss, x, pedido, y, rotos)
    case TerminaTurno => y == Reencolado(x)
    case SeDesconecta(rotos) => if x.l.corriendo == null then y == x else SaleCorriendo(ss, x, y, rotos)
    case CierraBloqueado(j, rotos) => PasoCierra(ss, x, j, y, rotos)
    case Detecta => PasoDetecta(ss, x, y)
    case Pelea(k, rotos) => PasoPelea(ss, x, k, y, rotos)
  }

  /** The event e takes the map from x to y, and no pokemon is made or lost. */
  ghost predicate Paso(ss: seq<char>, x: Instante, e: Evento, y: Instante) {
    && Medidas(ss, x) && Medidas(ss, y) && TotalDe(y) == TotalDe(x)
    && forall u {:trigger Abrir(Suceso, u)} :: Abrir(Suceso, u) ==> Sucede(ss, x, e, y)
  }

  // ---------------------------------------------------------------- what holds at each moment

  /** Each trainer of the system is in exactly one place, once. */
  ghost predicate UnLugar(l: Lugares) {
    && SinRepetidos(l.listos) && (forall t :: t in l.listos ==> t in l.sistema && t != l.corriendo && !Espera(l, t))
    && (l.corriendo != null ==> l.corriendo in l.sistema && !Espera(l, l.corriendo))
    && (forall i :: 0 <= i < |l.bloqueados| ==> SinRepetidos(l.bloqueados[i]))
    && (forall i, t :: 0 <= i < |l.bloqueados| && t in l.bloqueados[i] ==> t in l.sistema)
    && (forall i, j, t :: 0 <= i < j < |l.bloqueados| && t in l.bloqueados[i] ==> t !in l.bloqueados[j])
    && forall t :: t in l.sistema ==> t == l.corriendo || t in l.listos || Espera(l, t)
  }

  /** The pokemon are of this map, free ones in their own pokenest, and nobody waits where one is
      free. */
  ghost predicate PokemonEnRegla(ss: seq<char>, x: Instante)
    requires Medidas(ss, x)
  {
    && (forall i :: 0 <= i < |ss| ==> x.colas[i] == [] || x.l.bloqueados[i] == [])
    && (forall i, p :: 0 <= i < |ss| && p in x.colas[i] ==> p.pokenest == p.inicial == ss[i])
    && forall t, p :: t in x.l.sistema && p in Suyos(x.caps, t) ==> p.pokenest in ss && p.inicial == p.pokenest
  }

  ghost predicate EnRegla(ss: seq<char>, x: Instante) {
    && SimbolosBien(ss) && Medidas(ss, x)
    && forall u {:trigger Abrir(Invariante, u)} :: Abrir(Invariante, u) ==>
      && UnLugar(x.l) && PokemonEnRegla(ss, x) && Distintos(x.l.sistema)
      && forall t :: t in x.l.sistema ==> t in x.caps && t.numero <= x.llegados
  }

  /** The deadlock list a battle takes its loser from is sound: each trainer on it is of the
      system and blocked, and another one waits for something it holds. */
  ghost predicate ListaBien(ss: seq<char>, x: Instante) {
    forall k :: 0 <= k < |x.deadlock| ==> EnLista(ss, x, x.deadlock[k])
  }

  ghost predicate EnLista(ss: seq<char>, x: Instante, v: Jugador) {
    v in x.l.sistema && Espera(x.l, v) && OtroEsperaEn(ss, x.l.bloqueados, Suyos(x.caps, v), v)
  }

  /** Whoever is on the list stays blocked and waited for while others arrive or block and it keeps
      what it holds. */
  lemma SigueEnLista(ss: seq<char>, x: Instante, y: Instante, v: Jugador)
    requires EnLista(ss, x, v) && v in y.l.sistema && Suyos(y.caps, v) == Suyos(x.caps, v)
    requires |x.l.bloqueados| == |y.l.bloqueados|
    requires forall i :: 0 <= i < |x.l.bloqueados| ==> x.l.bloqueados[i] <= y.l.bloqueados[i]
    ensures EnLista(ss, y, v)
  {
    var i :| 0 <= i < |x.l.bloqueados| && v in x.l.bloqueados[i];
    assert v in y.l.bloqueados[i];
    var p, t :| p in Suyos(x.caps, v) && t in ColaEn(ss, x.l.bloqueados, p.pokenest) && t != v;
    assert t in ColaEn(ss, y.l.bloqueados, p.pokenest);
  }

  lemma ReportadoPide(ps: seq<FichaPokenest>, es: seq<Ficha>, S: set<nat>, R: set<nat>, a: nat) returns (j: nat)
    requires EsReporte(es, ps, S, R) && a in R
    requires forall j :: 0 <= j < |ps| ==> ps[j].cant >= 0
    ensures a < |es| && j < |ps| && ps[j].simbolo == es[a].peticion && AlguienEspera(es, R, a)
  {
    assert Abrir(Informe, 0);
    j := ReportadoEspera(ps, es, S, a);
  }

  lemma EnListaSiPide(ss: seq<char>, x: Instante, T: set<nat>, a: nat, j: nat)
    requires EnRegla(ss, x) && a < |x.l.sistema| && j < |ss|
    requires NidosDe(ss, x)[j].simbolo == FichasDe(ss, x)[a].peticion
    requires AlguienEspera(FichasDe(ss, x), T, a)
    ensures EnLista(ss, x, x.l.sistema[a])
  {
    assert ss[j] in ss;
    PideDondeEspera(ss, x, x.l.sistema[a]);
    QuienEspera(ss, x, T, a);
  }

  lemma QuePideElReportado(ss: seq<char>, x: Instante, S: set<nat>, r: seq<nat>, k: nat) returns (j: nat)
    requires Medidas(ss, x) && Reporte(ss, x, S, r) && k < |r|
    ensures r[k] < |x.l.sistema| && j < |ss| && NidosDe(ss, x)[j].simbolo == FichasDe(ss, x)[r[k]].peticion
    ensures AlguienEspera(FichasDe(ss, x), Conjunto(r), r[k])
  {
    assert r[k] in Conjunto(r);
    j := ReportadoPide(NidosDe(ss, x), FichasDe(ss, x), S, Conjunto(r), r[k]);
  }

  /** Every reported trainer is blocked, and some other trainer waits for something it holds. */
  lemma ReportadoEnLista(ss: seq<char>, x: Instante, S: set<nat>, r: seq<nat>, k: nat)
    requires EnRegla(ss, x) && Reporte(ss, x, S, r) && k < |r|
    ensures EnLista(ss, x, x.l.sistema[r[k]])
  {
    var j := QuePideElReportado(ss, x, S, r, k);
    EnListaSiPide(ss, x, Conjunto(r), r[k], j);
  }

  /** A trainer that asks for something waits in the queue of it. */
  lemma PideDondeEspera(ss: seq<char>, x: Instante, t: Jugador)
    requires EnRegla(ss, x) && Pide(ss, x.l.bloqueados, t) != SIN_PETICION
    ensures t in ColaEn(ss, x.l.bloqueados, Pide(ss, x.l.bloqueados, t)) && Espera(x.l, t)
  {
    assert Abrir(Invariante, 0);
    if !Espera(x.l, t) {
      PideNada(ss, x.l.bloqueados, t);
    } else {
      var i: nat :| i < |x.l.bloqueados| && t in x.l.bloqueados[i];
      PideEnCola(ss, x.l.bloqueados, t, i);
      IndiceDeSimbolo(ss, i);
    }
  }

  lemma QuienEspera(ss: seq<char>, x: Instante, T: set<nat>, a: nat)
    requires EnRegla(ss, x) && a < |x.l.sistema| && AlguienEspera(FichasDe(ss, x), T, a)
    ensures OtroEsperaEn(ss, x.l.bloqueados, Suyos(x.caps, x.l.sistema[a]), x.l.sistema[a])
  {
    assert Abrir(Invariante, 0);
    var es := FichasDe(ss, x);
    var b: nat :| b in T && b < |es| && Tiene(es[b], es[a]);
    var v, t := x.l.sistema[a], x.l.sistema[b];
    var i :| 0 <= i < |es[a].capturados| && es[a].capturados[i].pokenest == es[b].peticion;
    var p := Suyos(x.caps, v)[i];
    assert p in Suyos(x.caps, v) && p.pokenest in ss;
    PideDondeEspera(ss, x, t);
    assert t in ColaEn(ss, x.l.bloqueados, p.pokenest) && t != v;
  }

  // ---------------------------------------------------------------- what a report is, on the queues

  /** The a-th trainer waits for a pokenest with nothing free, all of whose pokemon are held by
      trainers in S. */
  ghost predicate EsperaA(ss: seq<char>, x: Instante, S: set<nat>, a: nat, i: nat)
    requires Medidas(ss, x) && a < |x.l.sistema|
  {
    && i < |ss| && x.l.sistema[a] in x.l.bloqueados[i] && x.colas[i] == []
    && forall b, p :: 0 <= b < |x.l.sistema| && p in Suyos(x.caps, x.l.sistema[b]) && p.pokenest == ss[i] ==> b in S
  }

  /** Nobody in S can go on before somebody in S does: each holds something and waits for a
      pokenest whose pokemon are all held inside S. */
  ghost predicate Estancados(ss: seq<char>, x: Instante, S: set<nat>)
    requires Medidas(ss, x)
  {
    forall a :: a in S ==>
      a < |x.l.sistema| && Suyos(x.caps, x.l.sistema[a]) != [] && exists i :: EsperaA(ss, x, S, a, i)
  }

  /** The b-th trainer waits for a pokenest of which the a-th, with another symbol, holds a pokemon. */
  ghost predicate EsperaDe(ss: seq<char>, x: Instante, b: nat, a: nat)
    requires Medidas(ss, x)
  {
    && a < |x.l.sistema| && b < |x.l.sistema| && x.l.sistema[a].simbolo != x.l.sistema[b].simbolo
    && exists i, p :: 0 <= i < |ss| && x.l.sistema[b] in x.l.bloqueados[i]
                      && p in Suyos(x.caps, x.l.sistema[a]) && p.pokenest == ss[i]
  }

  ghost predicate Enganchados(ss: seq<char>, x: Instante, T: set<nat>)
    requires Medidas(ss, x)
  {
    forall a :: a in T ==> a < |x.l.sistema| && AlgunoEsperaDe(ss, x, T, a)
  }

  ghost predicate AlgunoEsperaDe(ss: seq<char>, x: Instante, T: set<nat>, a: nat)
    requires Medidas(ss, x)
  {
    exists b :: b in T && EsperaDe(ss, x, b, a)
  }

  /** The a-th trainer is in a deadlock: it is one of some stuck trainers, each of which holds
      something another one of them waits for. */
  ghost predicate EnDeadlock(ss: seq<char>, x: Instante, a: nat)
    requires Medidas(ss, x)
  {
    exists S, T :: a in T && Enredados(ss, x, S, T)
  }

  ghost predicate Enredados(ss: seq<char>, x: Instante, S: set<nat>, T: set<nat>)
    requires Medidas(ss, x)
  {
    forall u {:trigger Abrir(Informe, u)} :: Abrir(Informe, u) ==>
      T <= S && Estancados(ss, x, S) && Enganchados(ss, x, T)
  }

  /** What detection reads as the request of a trainer is the symbol of the queue it waits in. */
  lemma PideSii(ss: seq<char>, x: Instante, t: Jugador, i: nat)
    requires EnRegla(ss, x) && i < |ss|
    ensures Pide(ss, x.l.bloqueados, t) == ss[i] <==> t in x.l.bloqueados[i]
  {
    assert Abrir(Invariante, 0);
    assert ss[i] in ss;
    if t in x.l.bloqueados[i] {
      PideEnCola(ss, x.l.bloqueados, t, i);
    } else if Pide(ss, x.l.bloqueados, t) == ss[i] {
      PideDondeEspera(ss, x, t);
      IndiceDeSimbolo(ss, i);
    }
  }

  lemma TieneSii(ss: seq<char>, x: Instante, b: nat, a: nat)
    requires EnRegla(ss, x) && a < |x.l.sistema| && b < |x.l.sistema|
    ensures Tiene(FichasDe(ss, x)[b], FichasDe(ss, x)[a]) <==> EsperaDe(ss, x, b, a)
  {
    assert Abrir(Invariante, 0);
    var es, v, t := FichasDe(ss, x), x.l.sistema[a], x.l.sistema[b];
    assert es[a].capturados == Suyos(x.caps, v) && es[b].peticion == Pide(ss, x.l.bloqueados, t);
    forall p | p in Suyos(x.caps, v)
      ensures p.pokenest == es[b].peticion <==>
        exists i :: 0 <= i < |ss| && t in x.l.bloqueados[i] && p.pokenest == ss[i]
    {
      assert p.pokenest in ss;
      var i: nat :| i < |ss| && ss[i] == p.pokenest;
      PideSii(ss, x, t, i);
    }
    if Tiene(es[b], es[a]) {
      var k :| 0 <= k < |es[a].capturados| && es[a].capturados[k].pokenest == es[b].peticion;
      assert es[a].capturados[k] in Suyos(x.caps, v);
    }
  }

  lemma AlguienEsperaSii(ss: seq<char>, x: Instante, T: set<nat>, a: nat)
    requires EnRegla(ss, x) && a < |x.l.sistema|
    ensures AlguienEspera(FichasDe(ss, x), T, a) <==> AlgunoEsperaDe(ss, x, T, a)
  {
    var es := FichasDe(ss, x);
    if AlguienEspera(es, T, a) {
      var b: nat :| b in T && b < |es| && Tiene(es[b], es[a]);
      TieneSii(ss, x, b, a);
    }
    if b :| b in T && EsperaDe(ss, x, b, a) {
      TieneSii(ss, x, b, a);
      assert Tiene(es[b], es[a]);
    }
  }

  lemma SostenidoSi(es: seq<Ficha>, T: set<nat>)
    requires forall a :: a in T ==> a < |es| && AlguienEspera(es, T, a)
    ensures Sostenido(es, T)
  {
  }

  /** Held up, in terms of queues and holdings. */
  lemma SostenidoSii(ss: seq<char>, x: Instante, T: set<nat>)
    requires EnRegla(ss, x)
    ensures Sostenido(FichasDe(ss, x), T) <==> Enganchados(ss, x, T)
  {
    var es := FichasDe(ss, x);
    if Sostenido(es, T) {
      forall a | a in T
        ensures a < |x.l.sistema| && AlgunoEsperaDe(ss, x, T, a)
      {
        AlguienEsperaSii(ss, x, T, a);
      }
    } else if Enganchados(ss, x, T) {
      forall a | a in T
        ensures a < |es| && AlguienEspera(es, T, a)
      {
        AlguienEsperaSii(ss, x, T, a);
      }
      SostenidoSi(es, T);
    }
  }

  lemma SinNadaFuera(c: Reduccion.Caso, S: set<nat>, j: nat, n: nat)
    requires c.Valido() && j < c.M() && n <= c.N() && forall k :: 0 <= k < n && k !in S ==> c.asig[k][j] == 0
    ensures c.Fuera(S, j, n) == 0
  {
  }

  /** Stuck trainers are stuck in the matrices. */
  lemma EstancadosTrabados(ss: seq<char>, x: Instante, S: set<nat>)
    requires EnRegla(ss, x) && Estancados(ss, x, S)
    ensures Reduccion.CasoDe(FichasDe(ss, x), NidosDe(ss, x)).Trabado(S)
  {
    var c := Reduccion.CasoDe(FichasDe(ss, x), NidosDe(ss, x));
    forall a | a in S
      ensures a in c.Tenedores() && !c.Puede(a, S)
    {
      var i :| EsperaA(ss, x, S, a, i);
      EstaTrabado(ss, x, S, a, i);
    }
  }

  lemma EstaTrabado(ss: seq<char>, x: Instante, S: set<nat>, a: nat, i: nat)
    requires EnRegla(ss, x) && a < |x.l.sistema| && Suyos(x.caps, x.l.sistema[a]) != [] && EsperaA(ss, x, S, a, i)
    ensures var c := Reduccion.CasoDe(FichasDe(ss, x), NidosDe(ss, x)); a in c.Tenedores() && !c.Puede(a, S)
  {
    var es, ps := FichasDe(ss, x), NidosDe(ss, x);
    var c := Reduccion.CasoDe(es, ps);
    TieneAlgo(ss, x, a);
    FilasDeCaso(es, ps, a);
    PideSii(ss, x, x.l.sistema[a], i);
    PrimerNido(ss, x, i);
    forall k | 0 <= k < c.N() && k !in S
      ensures c.asig[k][i] == 0
    {
      FilasDeCaso(es, ps, k);
      NoObtuvo(ss, x, k, i);
    }
    SinNadaFuera(c, S, i, c.N());
  }

  lemma PrimerNido(ss: seq<char>, x: Instante, i: nat)
    requires SimbolosBien(ss) && Medidas(ss, x) && i < |ss|
    ensures IndiceDe(NidosDe(ss, x), ss[i]) == i
  {
    var k := IndiceDe(NidosDe(ss, x), ss[i]);
    assert NidosDe(ss, x)[i].simbolo == ss[i];
    assert k < |ss| ==> NidosDe(ss, x)[k].simbolo == ss[k];
  }

  lemma TieneAlgo(ss: seq<char>, x: Instante, a: nat)
    requires EnRegla(ss, x) && a < |x.l.sistema|
    ensures Suyos(x.caps, x.l.sistema[a]) != [] <==>
      a in Reduccion.CasoDe(FichasDe(ss, x), NidosDe(ss, x)).Tenedores()
  {
    assert Abrir(Invariante, 0);
    var es, ps, cap := FichasDe(ss, x), NidosDe(ss, x), Suyos(x.caps, x.l.sistema[a]);
    FilasDeCaso(es, ps, a);
    forall j | 0 <= j < |ps|
      ensures Reduccion.Obtenidos(cap, ps[j].simbolo) == 0 <==> forall p :: p in cap ==> p.inicial != ss[j]
    {
      Reduccion.ObtenidosCuenta(cap, ps[j].simbolo);
    }
    if cap != [] {
      assert cap[0] in cap && cap[0].inicial in ss;
      var j :| 0 <= j < |ss| && ss[j] == cap[0].inicial;
      assert Reduccion.CasoDe(es, ps).asig[a][j] != 0;
    }
  }

  lemma NoObtuvo(ss: seq<char>, x: Instante, k: nat, i: nat)
    requires EnRegla(ss, x) && k < |x.l.sistema| && i < |ss|
    ensures Reduccion.Obtenidos(FichasDe(ss, x)[k].capturados, NidosDe(ss, x)[i].simbolo) == 0 <==>
      forall p :: p in Suyos(x.caps, x.l.sistema[k]) ==> p.pokenest != ss[i]
  {
    assert Abrir(Invariante, 0);
    Reduccion.ObtenidosCuenta(FichasDe(ss, x)[k].capturados, NidosDe(ss, x)[i].simbolo);
  }

  /** And the other way. */
  lemma TrabadosEstancados(ss: seq<char>, x: Instante, S: set<nat>)
    requires EnRegla(ss, x) && Reduccion.CasoDe(FichasDe(ss, x), NidosDe(ss, x)).Trabado(S)
    ensures Estancados(ss, x, S)
  {
    forall a | a in S
      ensures a < |x.l.sistema| && Suyos(x.caps, x.l.sistema[a]) != [] && exists i :: EsperaA(ss, x, S, a, i)
    {
      TieneAlgo(ss, x, a);
      var i := ReportadoEspera(NidosDe(ss, x), FichasDe(ss, x), S, a);
      EsperaAlTrabado(ss, x, S, a, i);
    }
  }

  lemma EsperaAlTrabado(ss: seq<char>, x: Instante, S: set<nat>, a: nat, i: nat)
    requires EnRegla(ss, x) && a < |x.l.sistema| && i < |ss| && |x.colas[i]| == 0
    requires FichasDe(ss, x)[a].peticion == ss[i]
    requires forall k, p :: 0 <= k < |x.l.sistema| && k !in S && p in Suyos(x.caps, x.l.sistema[k]) ==>
      p.inicial != ss[i]
    ensures EsperaA(ss, x, S, a, i)
  {
    assert Abrir(Invariante, 0);
    PideSii(ss, x, x.l.sistema[a], i);
  }

  lemma DelReporte(es: seq<Ficha>, ps: seq<FichaPokenest>, S: set<nat>, R: set<nat>)
    requires EsReporte(es, ps, S, R)
    ensures Reduccion.CasoDe(es, ps).Trabado(S) && R <= S && Sostenido(es, R)
  {
    assert Abrir(Informe, 0);
  }

  lemma AlReporte(es: seq<Ficha>, ps: seq<FichaPokenest>, S: set<nat>, R: set<nat>, S': set<nat>, T: set<nat>)
    requires EsReporte(es, ps, S, R)
    requires Reduccion.CasoDe(es, ps).Trabado(S') && T <= S' && Sostenido(es, T)
    ensures T <= R
  {
    assert Abrir(Informe, 0);
  }

  lemma ReportadoEnDeadlock(ss: seq<char>, x: Instante, S: set<nat>, r: seq<nat>, a: nat)
    requires EnRegla(ss, x) && Reporte(ss, x, S, r) && a in r
    ensures EnDeadlock(ss, x, a)
  {
    DelReporte(FichasDe(ss, x), NidosDe(ss, x), S, Conjunto(r));
    TrabadosEstancados(ss, x, S);
    SostenidoSii(ss, x, Conjunto(r));
    assert a in Conjunto(r) && Enredados(ss, x, S, Conjunto(r));
  }

  lemma DeadlockReportado(ss: seq<char>, x: Instante, S: set<nat>, r: seq<nat>, S': set<nat>, T: set<nat>)
    requires EnRegla(ss, x) && Reporte(ss, x, S, r)
    requires Enredados(ss, x, S', T)
    ensures T <= Conjunto(r)
  {
    assert Abrir(Informe, 0);
    EstancadosTrabados(ss, x, S');
    SostenidoSii(ss, x, T);
    AlReporte(FichasDe(ss, x), NidosDe(ss, x), S, Conjunto(r), S', T);
  }

  lemma Testigos(ss: seq<char>, x: Instante, a: nat) returns (S: set<nat>, T: set<nat>)
    requires Medidas(ss, x) && EnDeadlock(ss, x, a)
    ensures a in T && Enredados(ss, x, S, T)
  {
    S, T :| a in T && Enredados(ss, x, S, T);
  }

  lemma DeadlockEnReporte(ss: seq<char>, x: Instante, S: set<nat>, r: seq<nat>, a: nat)
    requires EnRegla(ss, x) && Reporte(ss, x, S, r) && EnDeadlock(ss, x, a)
    ensures a in r
  {
    var S', T := Testigos(ss, x, a);
    DeadlockReportado(ss, x, S, r, S', T);
    assert a in Conjunto(r);
  }

  /** Detection is right and complete: it reports exactly the trainers in a deadlock. */
  lemma ReporteSii(ss: seq<char>, x: Instante, S: set<nat>, r: seq<nat>)
    requires EnRegla(ss, x) && Reporte(ss, x, S, r)
    ensures forall a: nat :: a in r <==> EnDeadlock(ss, x, a)
  {
    forall a: nat
      ensures a in r <==> EnDeadlock(ss, x, a)
    {
      if a in r {
        ReportadoEnDeadlock(ss, x, S, r, a);
      } else if EnDeadlock(ss, x, a) {
        DeadlockEnReporte(ss, x, S, r, a);
      }
    }
  }

  /** After a detection that reports somebody the list has exactly the trainers in a deadlock, and
      one that reports nobody found none. */
  lemma PasoDetectaSii(ss: seq<char>, x: Instante, y: Instante)
    requires EnRegla(ss, x) && PasoDetecta(ss, x, y)
    ensures (forall a: nat :: !EnDeadlock(ss, x, a)) ==> y == x
    ensures (exists a: nat :: EnDeadlock(ss, x, a)) ==>
      forall a: nat :: a < |x.l.sistema| ==> (x.l.sistema[a] in y.deadlock <==> EnDeadlock(ss, x, a))
  {
    var S, r :| Reporte(ss, x, S, r) && y == if r == [] then x else x.(deadlock := Elegidos(x.l.sistema, r));
    ReporteSii(ss, x, S, r);
    ElegidosSii(x, r, ss);
    if r != [] {
      assert r[0] in r;
    }
  }

  lemma ElegidosSii(x: Instante, r: seq<nat>, ss: seq<char>)
    requires EnRegla(ss, x) && forall k :: 0 <= k < |r| ==> r[k] < |x.l.sistema|
    ensures forall a: nat :: a < |x.l.sistema| ==> (x.l.sistema[a] in Elegidos(x.l.sistema, r) <==> a in r)
  {
    assert Abrir(Invariante, 0);
    forall a: nat | a < |x.l.sistema|
      ensures x.l.sistema[a] in Elegidos(x.l.sistema, r) <==> a in r
    {
      if a in r {
        var k :| 0 <= k < |r| && r[k] == a;
        assert Elegidos(x.l.sistema, r)[k] == x.l.sistema[a];
      }
    }
  }

  // ---------------------------------------------------------------- what one event keeps

  lemma ReporteEnLista(ss: seq<char>, x: Instante, y: Instante)
    requires EnRegla(ss, x) && PasoDetecta(ss, x, y) && ListaBien(ss, x)
    ensures ListaBien(ss, y)
  {
    var S, r :| Reporte(ss, x, S, r) && y == if r == [] then x else x.(deadlock := Elegidos(x.l.sistema, r));
    if r != [] {
      forall k | 0 <= k < |r|
        ensures EnLista(ss, y, y.deadlock[k])
      {
        ReportadoEnLista(ss, x, S, r, k);
        SigueEnLista(ss, x, y, y.deadlock[k]);
      }
    }
  }

  lemma ListaTrasCaptura(ss: seq<char>, x: Instante, pedido: char, y: Instante, rotos: set<int>)
    requires EnRegla(ss, x) && PasoCaptura(ss, x, pedido, y, rotos) && ListaBien(ss, x)
    ensures ListaBien(ss, y)
  {
    assert Abrir(Invariante, 0);
    if y.deadlock != [] {
      forall k | 0 <= k < |y.deadlock|
        ensures EnLista(ss, y, y.deadlock[k])
      {
        assert EnLista(ss, x, x.deadlock[k]);
        SigueEnLista(ss, x, y, y.deadlock[k]);
      }
    }
  }

  /** Every event keeps the deadlock list sound: its members stay blocked and waited for until the
      list is emptied or replaced. */
  lemma PasoListaBien(ss: seq<char>, x: Instante, e: Evento, y: Instante)
    requires EnRegla(ss, x) && Paso(ss, x, e, y) && ListaBien(ss, x)
    ensures ListaBien(ss, y)
  {
    assert Abrir(Suceso, 0);
    assert Abrir(Invariante, 0);
    if e.Detecta? {
      ReporteEnLista(ss, x, y);
    } else if e.Captura? {
      ListaTrasCaptura(ss, x, e.pedido, y, e.rotos);
    } else if y.deadlock != [] {
      ListaQuieta(ss, x, y);
    }
  }

  lemma ListaQuieta(ss: seq<char>, x: Instante, y: Instante)
    requires ListaBien(ss, x) && y.deadlock == x.deadlock && y.l.bloqueados == x.l.bloqueados
    requires forall t :: t in x.l.sistema ==> t in y.l.sistema && Suyos(y.caps, t) == Suyos(x.caps, t)
    ensures ListaBien(ss, y)
  {
    forall k | 0 <= k < |y.deadlock|
      ensures EnLista(ss, y, y.deadlock[k])
    {
      assert EnLista(ss, x, x.deadlock[k]);
      SigueEnLista(ss, x, y, y.deadlock[k]);
    }
  }

  /** Only a dispatch takes anybody out of the ready list; all else enters at its tail. */
  lemma PasoListos(ss: seq<char>, x: Instante, e: Evento, y: Instante)
    requires Paso(ss, x, e, y)
    ensures if e.Despacha? && SePuedeDespachar(x.l, e.k)
            then y.l.listos == SinIndice(x.l.listos, e.k) && y.l.corriendo == x.l.listos[e.k]
            else x.l.listos <= y.l.listos
  {
    assert Abrir(Suceso, 0);
    match e {
      case Captura(pedido, rotos) => CapturaListos(ss, x, pedido, y, rotos);
      case Detecta => DetectaListos(ss, x, y);
      case CierraBloqueado(j, rotos) =>
        if j < |x.l.sistema| && Espera(x.l, x.l.sistema[j]) {
          SaleBloqueadoListos(ss, x, x.l.sistema[j], y, rotos);
        }
      case Pelea(k, rotos) =>
        if k < |x.deadlock| {
          SaleBloqueadoListos(ss, x, x.deadlock[k], y, rotos);
        }
      case _ =>
    }
  }

  lemma CapturaListos(ss: seq<char>, x: Instante, pedido: char, y: Instante, rotos: set<int>)
    requires Medidas(ss, x) && PasoCaptura(ss, x, pedido, y, rotos)
    ensures x.l.listos <= y.l.listos
  {
  }

  lemma DetectaListos(ss: seq<char>, x: Instante, y: Instante)
    requires Medidas(ss, x) && PasoDetecta(ss, x, y)
    ensures x.l == y.l
  {
  }

  lemma SaleBloqueadoListos(ss: seq<char>, x: Instante, v: Jugador, y: Instante, rotos: set<int>)
    requires SaleBloqueado(ss, x, v, y, rotos)
    ensures x.l.listos <= y.l.listos
  {
  }

  /** A battle over a sound list, if nobody but the loser leaves, makes a blocked trainer ready. */
  lemma PeleaDesbloquea(ss: seq<char>, x: Instante, k: nat, rotos: set<int>, y: Instante)
    requires EnRegla(ss, x) && ListaBien(ss, x) && Paso(ss, x, Pelea(k, rotos), y) && k < |x.deadlock|
    ensures x.deadlock[k] !in y.l.sistema && y.deadlock == []
    ensures (forall t :: t in x.l.sistema ==> t == x.deadlock[k] || t in y.l.sistema) ==>
      |y.l.listos| > |x.l.listos|
  {
    assert Abrir(Suceso, 0);
    var v := x.deadlock[k];
    assert EnLista(ss, x, v);
    var i: nat :| i < |x.l.bloqueados| && v in x.l.bloqueados[i] && Sale(ss, SinBloqueado(x, i, v), v, y, rotos);
    if forall t :: t in x.l.sistema ==> t == v || t in y.l.sistema {
      SaleDesbloquea(ss, x, i, v, y);
    }
  }

  lemma SaleDesbloquea(ss: seq<char>, x: Instante, i: nat, v: Jugador, y: Instante)
    requires Medidas(ss, x) && i < |ss| && v in x.l.sistema
    requires Repartidos(ss, SinBloqueado(x, i, v).(deadlock := []), Suyos(x.caps, v), ConSistema(y, x.l.sistema))
    requires OtroEsperaEn(ss, x.l.bloqueados, Suyos(x.caps, v), v)
    ensures |y.l.listos| > |x.l.listos|
  {
    var x1, cap := SinBloqueado(x, i, v).(deadlock := []), Suyos(x.caps, v);
    RepartidosSinFallos(ss, x1, cap, ConSistema(y, x.l.sistema));
    var p, t :| p in cap && t in ColaEn(ss, x.l.bloqueados, p.pokenest) && t != v;
    SinJugadorMiembros(x.l.bloqueados[i], v);
    assert t in ColaEn(ss, x1.l.bloqueados, p.pokenest);
  }

  /** The sockets whose connection is down during the event. */
  function RotosDe(e: Evento): set<int> {
    match e
    case Captura(_, rotos) => rotos
    case SeDesconecta(rotos) => rotos
    case CierraBloqueado(_, rotos) => rotos
    case Pelea(_, rotos) => rotos
    case _ => {}
  }

  /** The trainer the event itself makes leave, if any. */
  function SeVa(x: Instante, e: Evento): Jugador? {
    match e
    case SeDesconecta(_) => x.l.corriendo
    case CierraBloqueado(j, _) => if j < |x.l.sistema| then x.l.sistema[j] else null
    case Pelea(k, _) => if k < |x.deadlock| then x.deadlock[k] else null
    case _ => null
  }

  /** Nobody with a working connection is dropped: a trainer leaves only if the event is about its
      leaving, or because its connection is down. */
  lemma PasoSoloCaenRotos(ss: seq<char>, x: Instante, e: Evento, y: Instante, t: Jugador)
    requires Paso(ss, x, e, y) && t in x.l.sistema && t !in y.l.sistema
    ensures t == SeVa(x, e) || t.socket in RotosDe(e)
  {
    assert Abrir(Suceso, 0);
    match e {
      case Captura(pedido, rotos) =>
        if x.l.corriendo != null && IndiceSimbolo(ss, pedido) >= 0 && t != x.l.corriendo {
          var i := IndiceSimbolo(ss, pedido);
          var vuelta := if x.colas[i] == [] then x
                        else x.(colas := x.colas[i := x.colas[i][1..] + [x.colas[i][0]]]);
          SaleSinRotos(ss, SinCorrer(vuelta), x.l.corriendo, y, rotos, t);
        }
      case SeDesconecta(rotos) =>
        if x.l.corriendo != null && t != x.l.corriendo {
          SaleSinRotos(ss, SinCorrer(x), x.l.corriendo, y, rotos, t);
        }
      case CierraBloqueado(j, rotos) =>
        SaleBloqueadoSinRotos(ss, x, x.l.sistema[j], y, rotos, t);
      case Pelea(k, rotos) =>
        SaleBloqueadoSinRotos(ss, x, x.deadlock[k], y, rotos, t);
      case Detecta => DetectaListos(ss, x, y);
      case _ =>
    }
  }

  lemma SaleSinRotos(ss: seq<char>, x: Instante, v: Jugador, y: Instante, rotos: set<int>, t: Jugador)
    requires Sale(ss, x, v, y, rotos) && t in x.l.sistema && t !in y.l.sistema && t != v
    ensures t.socket in rotos && Espera(x.l, t)
  {
    SuerteDe(ss, x, y, rotos, {v}, t);
  }

  lemma SaleBloqueadoSinRotos(ss: seq<char>, x: Instante, v: Jugador, y: Instante, rotos: set<int>, t: Jugador)
    requires SaleBloqueado(ss, x, v, y, rotos) && t in x.l.sistema && t !in y.l.sistema
    ensures t == v || t.socket in rotos
  {
    var i: nat :| i < |x.l.bloqueados| && v in x.l.bloqueados[i] && Sale(ss, SinBloqueado(x, i, v), v, y, rotos);
    if t != v {
      SaleSinRotos(ss, SinBloqueado(x, i, v), v, y, rotos, t);
    }
  }

  // ---------------------------------------------------------------- the pokemon

  lemma {:induction false} EnLibres(colas: seq<seq<Pokemon>>, p: Pokemon)
    ensures p in Libres(colas) <==> exists i :: 0 <= i < |colas| && p in colas[i]
  {
    if colas != [] {
      EnLibres(colas[1..], p);
      if i :| 0 <= i < |colas[1..]| && p in colas[1..][i] {
        assert p in colas[i + 1];
      }
      if i :| 0 < i < |colas| && p in colas[i] {
        assert p in colas[1..][i - 1];
      }
    }
  }

  lemma {:induction false} EnSuma(caps: Caps, js: seq<Jugador>, p: Pokemon)
    ensures p in Suma(caps, js) <==> exists t :: t in js && p in Suyos(caps, t)
  {
    if js != [] {
      EnSuma(caps, js[1..], p);
      assert p in De(caps, js[0]) <==> p in Suyos(caps, js[0]);
    }
  }

  lemma {:induction false} EnSumaColas(caps: Caps, qs: seq<seq<Jugador>>, p: Pokemon)
    ensures p in SumaColas(caps, qs) <==> exists i, t :: 0 <= i < |qs| && t in qs[i] && p in Suyos(caps, t)
  {
    if qs != [] {
      EnSumaColas(caps, qs[1..], p);
      EnSuma(caps, qs[0], p);
      if i, t :| 0 <= i < |qs[1..]| && t in qs[1..][i] && p in Suyos(caps, t) {
        assert t in qs[i + 1];
      }
      if i, t :| 0 < i < |qs| && t in qs[i] && p in Suyos(caps, t) {
        assert t in qs[1..][i - 1];
      }
    }
  }

  /** The pokemon of the total are those that are free and those that somebody on the map holds. */
  lemma EnElTotal(ss: seq<char>, x: Instante, p: Pokemon)
    requires EnRegla(ss, x)
    ensures p in TotalDe(x) <==>
      || (exists i :: 0 <= i < |x.colas| && p in x.colas[i])
      || exists t :: t in x.l.sistema && p in Suyos(x.caps, t)
  {
    assert Abrir(Invariante, 0);
    EnLibres(x.colas, p);
    EnSuma(x.caps, x.l.listos, p);
    EnSumaColas(x.caps, x.l.bloqueados, p);
    if x.l.corriendo != null {
      assert p in De(x.caps, x.l.corriendo) <==> p in Suyos(x.caps, x.l.corriendo);
    }
  }

  // ---------------------------------------------------------------- the order in a queue

  /** a waits before b. */
  ghost predicate Antes(q: seq<Jugador>, a: Jugador, b: Jugador) {
    exists i, j :: 0 <= i < j < |q| && q[i] == a && q[j] == b
  }

  lemma {:induction false} SinJugadorAntes(q: seq<Jugador>, v: Jugador, a: Jugador, b: Jugador)
    requires Antes(q, a, b) && a != v && b != v
    ensures Antes(SinJugador(q, v), a, b)
  {
    var r, u := q[..|q| - 1], q[|q| - 1];
    var i, j :| 0 <= i < j < |q| && q[i] == a && q[j] == b;
    if j < |r| {
      assert r[i] == a && r[j] == b;
      SinJugadorAntes(r, v, a, b);
      var i', j' :| 0 <= i' < j' < |SinJugador(r, v)| && SinJugador(r, v)[i'] == a && SinJugador(r, v)[j'] == b;
      assert SinJugador(q, v)[i'] == a && SinJugador(q, v)[j'] == b;
    } else {
      SinJugadorMiembros(r, v);
      assert r[i] == a && a in SinJugador(r, v);
      var i' :| 0 <= i' < |SinJugador(r, v)| && SinJugador(r, v)[i'] == a;
      assert SinJugador(q, v)[i'] == a && SinJugador(q, v)[|SinJugador(r, v)|] == b;
    }
  }

  lemma UnaVez(q: seq<Jugador>, i: nat, j: nat)
    requires SinRepetidos(q) && i < |q| && j < |q| && q[i] == q[j]
    ensures i == j
  {
  }

  lemma EnSufijo(q: seq<Jugador>, d: nat, a: Jugador, i: nat)
    requires SinRepetidos(q) && d <= |q| && a in q[d..] && i < |q| && q[i] == a
    ensures d <= i
  {
    var k: nat :| k < |q[d..]| && q[d..][k] == a;
    UnaVez(q, d + k, i);
  }

  lemma SufijoAntes(q: seq<Jugador>, q': seq<Jugador>, a: Jugador, b: Jugador)
    requires SinRepetidos(q) && Antes(q, a, b) && EsSufijo(q', q) && a in q'
    ensures Antes(q', a, b)
  {
    var i: nat, j: nat :| i < j < |q| && q[i] == a && q[j] == b;
    var d := |q| - |q'|;
    EnSufijo(q, d, a, i);
    assert q'[i - d] == a && q'[j - d] == b;
  }

  lemma SaleNoAdelanta(ss: seq<char>, x: Instante, v: Jugador, y: Instante, rotos: set<int>, i: nat, a: Jugador,
                       b: Jugador)
    requires Sale(ss, x, v, y, rotos) && i < |x.l.bloqueados| && SinRepetidos(x.l.bloqueados[i])
    requires Antes(x.l.bloqueados[i], a, b) && i < |y.l.bloqueados| && a in y.l.bloqueados[i]
    ensures Antes(y.l.bloqueados[i], a, b)
  {
    assert Abrir(Movimiento, 0);
    SufijoAntes(x.l.bloqueados[i], y.l.bloqueados[i], a, b);
  }

  lemma SaleBloqueadoNoAdelanta(ss: seq<char>, x: Instante, v: Jugador, y: Instante, rotos: set<int>, i: nat,
                                a: Jugador, b: Jugador)
    requires EnRegla(ss, x) && EnRegla(ss, y) && SaleBloqueado(ss, x, v, y, rotos) && i < |x.l.bloqueados|
    requires Antes(x.l.bloqueados[i], a, b) && a in y.l.bloqueados[i] && b in y.l.bloqueados[i]
    ensures Antes(y.l.bloqueados[i], a, b)
  {
    assert Abrir(Invariante, 0);
    var k: nat :| k < |x.l.bloqueados| && v in x.l.bloqueados[k] && Sale(ss, SinBloqueado(x, k, v), v, y, rotos);
    if k == i {
      SinJugadorAntes(x.l.bloqueados[i], v, a, b);
      SinJugadorMiembros(x.l.bloqueados[i], v);
    }
    SaleNoAdelanta(ss, SinBloqueado(x, k, v), v, y, rotos, i, a, b);
  }

  lemma PrefijoAntes(q: seq<Jugador>, q': seq<Jugador>, a: Jugador, b: Jugador)
    requires q <= q' && Antes(q, a, b)
    ensures Antes(q', a, b)
  {
    var i, j :| 0 <= i < j < |q| && q[i] == a && q[j] == b;
    assert q'[i] == a && q'[j] == b;
  }

  /** Nobody is overtaken in a queue: of two trainers that wait in it before and after an event,
      the one that was ahead still is. */
  lemma PasoNoAdelanta(ss: seq<char>, x: Instante, e: Evento, y: Instante, i: nat, a: Jugador, b: Jugador)
    requires EnRegla(ss, x) && EnRegla(ss, y) && Paso(ss, x, e, y) && i < |ss|
    requires Antes(x.l.bloqueados[i], a, b) && a in y.l.bloqueados[i] && b in y.l.bloqueados[i]
    ensures Antes(y.l.bloqueados[i], a, b)
  {
    assert Abrir(Suceso, 0);
    ColaSinRepetidos(ss, x, i);
    match e {
      case SeDesconecta(rotos) =>
        if x.l.corriendo != null {
          SaleNoAdelanta(ss, SinCorrer(x), x.l.corriendo, y, rotos, i, a, b);
        }
      case CierraBloqueado(j, rotos) =>
        if j < |x.l.sistema| && Espera(x.l, x.l.sistema[j]) {
          SaleBloqueadoNoAdelanta(ss, x, x.l.sistema[j], y, rotos, i, a, b);
        }
      case Pelea(k, rotos) =>
        if k < |x.deadlock| {
          SaleBloqueadoNoAdelanta(ss, x, x.deadlock[k], y, rotos, i, a, b);
        }
      case Captura(pedido, rotos) => CapturaNoAdelanta(ss, x, pedido, y, rotos, i, a, b);
      case Detecta => DetectaListos(ss, x, y);
      case _ => assert y.l.bloqueados == x.l.bloqueados;
    }
  }

  lemma ColaSinRepetidos(ss: seq<char>, x: Instante, i: nat)
    requires EnRegla(ss, x) && i < |ss|
    ensures SinRepetidos(x.l.bloqueados[i])
  {
    assert Abrir(Invariante, 0);
  }

  lemma CapturaNoAdelanta(ss: seq<char>, x: Instante, pedido: char, y: Instante, rotos: set<int>, i: nat, a: Jugador,
                          b: Jugador)
    requires EnRegla(ss, x) && EnRegla(ss, y) && PasoCaptura(ss, x, pedido, y, rotos) && i < |ss|
    requires Antes(x.l.bloqueados[i], a, b) && a in y.l.bloqueados[i]
    ensures Antes(y.l.bloqueados[i], a, b)
  {
    assert Abrir(Invariante, 0);
    var k, t := IndiceSimbolo(ss, pedido), x.l.corriendo;
    if t != null && k >= 0 {
      if t.socket in rotos {
        var vuelta := if x.colas[k] == [] then x
                      else x.(colas := x.colas[k := x.colas[k][1..] + [x.colas[k][0]]]);
        SaleNoAdelanta(ss, SinCorrer(vuelta), t, y, rotos, i, a, b);
      } else {
        PrefijoAntes(x.l.bloqueados[i], y.l.bloqueados[i], a, b);
      }
    }
  }

  // ---------------------------------------------------------------- runs

  /** The events happen one after another, through these moments. */
  ghost predicate Corrida(ss: seq<char>, m: seq<Instante>, eventos: seq<Evento>) {
    && |m| == |eventos| + 1
    && forall u {:trigger Abrir(Historia, u)} :: Abrir(Historia, u) ==>
      forall k :: 0 <= k < |eventos| ==> Paso(ss, m[k], eventos[k], m[k + 1])
  }

  /** The map is in order at each moment, with these pokemon. */
  ghost predicate SiempreEnRegla(ss: seq<char>, m: seq<Instante>, total: multiset<Pokemon>) {
    forall u {:trigger Abrir(Historia, u)} :: Abrir(Historia, u) ==>
      forall k :: 0 <= k < |m| ==> EnRegla(ss, m[k]) && TotalDe(m[k]) == total
  }

  lemma PasoDeCorrida(ss: seq<char>, m: seq<Instante>, eventos: seq<Evento>, k: nat)
    requires Corrida(ss, m, eventos) && k < |eventos|
    ensures Paso(ss, m[k], eventos[k], m[k + 1])
  {
    assert Abrir(Historia, 0);
  }

  lemma EnReglaEn(ss: seq<char>, m: seq<Instante>, total: multiset<Pokemon>, k: nat)
    requires SiempreEnRegla(ss, m, total) && k < |m|
    ensures EnRegla(ss, m[k]) && TotalDe(m[k]) == total
  {
    assert Abrir(Historia, 0);
  }

  lemma CorridaVacia(ss: seq<char>, x: Instante)
    requires EnRegla(ss, x)
    ensures Corrida(ss, [x], []) && SiempreEnRegla(ss, [x], TotalDe(x))
  {
  }

  lemma CorridaMas(ss: seq<char>, m: seq<Instante>, eventos: seq<Evento>, e: Evento, y: Instante)
    requires Corrida(ss, m, eventos) && Paso(ss, m[|m| - 1], e, y)
    ensures Corrida(ss, m + [y], eventos + [e])
  {
    assert Abrir(Historia, 0);
    var m', es := m + [y], eventos + [e];
    forall k | 0 <= k < |es|
      ensures Paso(ss, m'[k], es[k], m'[k + 1])
    {
      var d, z := if k < |eventos| then eventos[k] else e, if k < |eventos| then m[k + 1] else y;
      assert m'[k] == m[k] && m'[k + 1] == z && es[k] == d;
      assert Paso(ss, m'[k], es[k], m'[k + 1]) == Paso(ss, m[k], d, z);
    }
  }

  lemma SiempreEnReglaMas(ss: seq<char>, m: seq<Instante>, total: multiset<Pokemon>, y: Instante)
    requires SiempreEnRegla(ss, m, total) && EnRegla(ss, y) && TotalDe(y) == total
    ensures SiempreEnRegla(ss, m + [y], total)
  {
    assert Abrir(Historia, 0);
    var m' := m + [y];
    assert forall k :: 0 <= k < |m| ==> m'[k] == m[k];
  }

  lemma SigueListaBien(ss: seq<char>, m: seq<Instante>, eventos: seq<Evento>, total: multiset<Pokemon>, k: nat)
    requires Corrida(ss, m, eventos) && SiempreEnRegla(ss, m, total) && k < |eventos| && ListaBien(ss, m[k])
    ensures ListaBien(ss, m[k + 1])
  {
    EnReglaEn(ss, m, total, k);
    PasoDeCorrida(ss, m, eventos, k);
    PasoListaBien(ss, m[k], eventos[k], m[k + 1]);
  }

  /** In every run the deadlock list stays sound. */
  lemma {:induction false} CorridaListaBien(ss: seq<char>, m: seq<Instante>, eventos: seq<Evento>,
                                            total: multiset<Pokemon>, n: nat)
    requires Corrida(ss, m, eventos) && SiempreEnRegla(ss, m, total) && ListaBien(ss, m[0]) && n < |m|
    ensures ListaBien(ss, m[n])
  {
    if n > 0 {
      CorridaListaBien(ss, m, eventos, total, n - 1);
      SigueListaBien(ss, m, eventos, total, n - 1);
    }
  }

  predicate EsperanAmbos(l: Lugares, i: nat, a: Jugador, b: Jugador) {
    i < |l.bloqueados| && a in l.bloqueados[i] && b in l.bloqueados[i]
  }

  /** a waits ahead of b in queue i. */
  ghost predicate Delante(l: Lugares, i: nat, a: Jugador, b: Jugador) {
    i < |l.bloqueados| && Antes(l.bloqueados[i], a, b)
  }

  lemma SigueDelante(ss: seq<char>, m: seq<Instante>, eventos: seq<Evento>, total: multiset<Pokemon>,
                     k: nat, i: nat, a: Jugador, b: Jugador)
    requires Corrida(ss, m, eventos) && SiempreEnRegla(ss, m, total) && k < |eventos|
    requires Delante(m[k].l, i, a, b) && EsperanAmbos(m[k + 1].l, i, a, b)
    ensures Delante(m[k + 1].l, i, a, b)
  {
    EnReglaEn(ss, m, total, k);
    EnReglaEn(ss, m, total, k + 1);
    PasoDeCorrida(ss, m, eventos, k);
    PasoNoAdelanta(ss, m[k], eventos[k], m[k + 1], i, a, b);
  }

  /** In every run, whoever waits ahead of another in a queue stays ahead for as long as both wait
      there. */
  lemma {:induction false} CorridaNoAdelanta(ss: seq<char>, m: seq<Instante>, eventos: seq<Evento>,
                                             total: multiset<Pokemon>, i: nat, a: Jugador, b: Jugador, n: nat)
    requires Corrida(ss, m, eventos) && SiempreEnRegla(ss, m, total) && n < |m|
    requires forall k :: 0 <= k <= n ==> EsperanAmbos(m[k].l, i, a, b)
    requires Delante(m[0].l, i, a, b)
    ensures Delante(m[n].l, i, a, b)
  {
    if n > 0 {
      CorridaNoAdelanta(ss, m, eventos, total, i, a, b, n - 1);
      SigueDelante(ss, m, eventos, total, n - 1, i, a, b);
    }
  }
}
