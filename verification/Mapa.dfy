/**
 The map's resource allocator and scheduler (mapa.c): pokenests hand out pokemon, trainers
 wait in per-pokenest queues, and the pokemon of a trainer that leaves are handed on.

 Every step keeps `Valid`: each trainer of the system is in exactly one place, the counters
 match the queues, no pokenest has both a free pokemon and a waiting trainer, and no pokemon
 is created or lost. Which connections are down, by socket, is an arbitrary choice
 of the caller's.
 */
module MapaPokemon {
  import opened Estructuras

  const SIN_PETICION: char := '\0'

  class Pokenest {
    const simbolo: char
    var colaDePokemon: seq<Pokemon>
    var cantPokemon: int
  }

  class Jugador {
    const simbolo: char
    const socket: int
    const numero: nat
    var pokemonCapturados: seq<Pokemon>
    var estado: int
    var conocePokenest: bool
    var peticion: char

    constructor (simbolo: char, socket: int, numero: nat)
      ensures this.simbolo == simbolo && this.socket == socket && this.numero == numero
      ensures pokemonCapturados == [] && estado == 0 && !conocePokenest && peticion == SIN_PETICION
    {
      this.simbolo, this.socket, this.numero := simbolo, socket, numero;
      pokemonCapturados, estado, conocePokenest, peticion := [], 0, false, SIN_PETICION;
    }
  }

  // ---------------------------------------------------------------- sums of pokemon

  type Caps = map<Jugador, seq<Pokemon>>

  ghost function De(caps: Caps, t: Jugador): multiset<Pokemon> {
    if t in caps then multiset(caps[t]) else multiset{}
  }

  /** All the pokemon some trainers hold. */
  ghost function Suma(caps: Caps, js: seq<Jugador>): multiset<Pokemon> {
    if js == [] then multiset{} else De(caps, js[0]) + Suma(caps, js[1..])
  }

  ghost function SumaColas(caps: Caps, qs: seq<seq<Jugador>>): multiset<Pokemon> {
    if qs == [] then multiset{} else Suma(caps, qs[0]) + SumaColas(caps, qs[1..])
  }

  ghost function Libres(colas: seq<seq<Pokemon>>): multiset<Pokemon> {
    if colas == [] then multiset{} else multiset(colas[0]) + Libres(colas[1..])
  }

  lemma {:induction false} SumaConcat(caps: Caps, a: seq<Jugador>, b: seq<Jugador>)
    ensures Suma(caps, a + b) == Suma(caps, a) + Suma(caps, b)
  {
    if a == [] {
      assert a + b == b;
    } else {
      assert (a + b)[1..] == a[1..] + b;
      SumaConcat(caps, a[1..], b);
    }
  }

  lemma Reordenar<T>(a: multiset<T>, b: multiset<T>, c: multiset<T>, b': multiset<T>, c': multiset<T>)
    requires b + c == b' + c'
    ensures (a + b) + c == (a + b') + c'
  {
    assert (a + b) + c == a + (b + c);
  }

  lemma Conmutar<T>(a: multiset<T>, b: multiset<T>, c: multiset<T>)
    ensures (a + b) + c == (c + b) + a
  {
  }

  lemma {:induction false} SumaColasCambia(caps: Caps, qs: seq<seq<Jugador>>, i: nat, q: seq<Jugador>)
    requires i < |qs|
    ensures SumaColas(caps, qs[i := q]) + Suma(caps, qs[i]) == SumaColas(caps, qs) + Suma(caps, q)
  {
    if i > 0 {
      assert qs[i := q][1..] == qs[1..][i - 1 := q];
      SumaColasCambia(caps, qs[1..], i - 1, q);
      Reordenar(Suma(caps, qs[0]), SumaColas(caps, qs[1..][i - 1 := q]), Suma(caps, qs[i]), SumaColas(caps, qs[1..]),
                Suma(caps, q));
    } else {
      assert qs[i := q][1..] == qs[1..];
      Conmutar(Suma(caps, q), SumaColas(caps, qs[1..]), Suma(caps, qs[0]));
    }
  }

  lemma {:induction false} LibresCambia(colas: seq<seq<Pokemon>>, i: nat, q: seq<Pokemon>)
    requires i < |colas|
    ensures Libres(colas[i := q]) + multiset(colas[i]) == Libres(colas) + multiset(q)
  {
    if i > 0 {
      assert colas[i := q][1..] == colas[1..][i - 1 := q];
      LibresCambia(colas[1..], i - 1, q);
      Reordenar(multiset(colas[0]), Libres(colas[1..][i - 1 := q]), multiset(colas[i]), Libres(colas[1..]),
                multiset(q));
    } else {
      assert colas[i := q][1..] == colas[1..];
      Conmutar(multiset(q), Libres(colas[1..]), multiset(colas[0]));
    }
  }

  /** What a trainer that is not listed holds does not matter. */
  lemma {:induction false} SumaAjena(caps: Caps, js: seq<Jugador>, t: Jugador, c: seq<Pokemon>)
    requires t !in js
    ensures Suma(caps[t := c], js) == Suma(caps, js)
  {
    if js != [] {
      SumaAjena(caps, js[1..], t, c);
    }
  }

  lemma {:induction false} SumaColasAjena(caps: Caps, qs: seq<seq<Jugador>>, t: Jugador, c: seq<Pokemon>)
    requires forall i :: 0 <= i < |qs| ==> t !in qs[i]
    ensures SumaColas(caps[t := c], qs) == SumaColas(caps, qs)
  {
    if qs != [] {
      SumaAjena(caps, qs[0], t, c);
      assert forall i :: 0 <= i < |qs[1..]| ==> qs[1..][i] == qs[i + 1];
      SumaColasAjena(caps, qs[1..], t, c);
    }
  }

  /** The number of blocked trainers. */
  function Cuantos(qs: seq<seq<Jugador>>): nat {
    if qs == [] then 0 else |qs[0]| + Cuantos(qs[1..])
  }

  lemma {:induction false} CuantosCambia(qs: seq<seq<Jugador>>, i: nat, q: seq<Jugador>)
    requires i < |qs|
    ensures Cuantos(qs[i := q]) + |qs[i]| == Cuantos(qs) + |q|
  {
    if i > 0 {
      assert qs[i := q][1..] == qs[1..][i - 1 := q];
      CuantosCambia(qs[1..], i - 1, q);
    } else {
      assert qs[i := q][1..] == qs[1..];
    }
  }

  // ---------------------------------------------------------------- places

  /** Where the trainers are: per-pokenest queues, ready list, the one running, and the list of
      all trainers of the map. */
  datatype Lugares =
    Lugares(bloqueados: seq<seq<Jugador>>, listos: seq<Jugador>, corriendo: Jugador?, sistema: seq<Jugador>)

  /** The position of a pokenest symbol, or -1. */
  function IndiceSimbolo(ss: seq<char>, c: char): (r: int)
    ensures r == -1 || (0 <= r < |ss| && ss[r] == c)
    ensures r == -1 <==> c !in ss
  {
    if ss == [] then -1
    else if ss[0] == c then 0
    else
      var r := IndiceSimbolo(ss[1..], c);
      if r < 0 then -1 else r + 1
  }

  /** The trainer waits in some queue. */
  predicate Espera(l: Lugares, t: Jugador) {
    exists i :: 0 <= i < |l.bloqueados| && t in l.bloqueados[i]
  }

  /** The queue of those who wait for a pokenest. */
  function ColaEn(ss: seq<char>, qs: seq<seq<Jugador>>, simbolo: char): seq<Jugador> {
    if 0 <= IndiceSimbolo(ss, simbolo) < |qs| then qs[IndiceSimbolo(ss, simbolo)] else []
  }

  /** Somebody other than v waits for a pokenest of which one of these pokemon is. */
  ghost predicate OtroEsperaEn(ss: seq<char>, qs: seq<seq<Jugador>>, capturados: seq<Pokemon>, v: Jugador) {
    exists p, t :: p in capturados && t in ColaEn(ss, qs, p.pokenest) && t != v
  }

  ghost predicate SimbolosBien(ss: seq<char>) {
    SIN_PETICION !in ss && forall i, j :: 0 <= i < j < |ss| ==> ss[i] != ss[j]
  }

  lemma IndiceDeSimbolo(ss: seq<char>, i: nat)
    requires SimbolosBien(ss) && i < |ss|
    ensures IndiceSimbolo(ss, ss[i]) == i
  {
  }

  ghost predicate EstaListo(t: Jugador)
    reads t
  {
    t.estado == 0 && t.peticion == SIN_PETICION
  }

  ghost predicate EstaBloqueado(t: Jugador, simbolo: char)
    reads t
  {
    t.estado == 1 && t.peticion == simbolo
  }

  ghost predicate EnAlgunLugar(ss: seq<char>, l: Lugares, t: Jugador)
    reads t
  {
    t == l.corriendo || t in l.listos ||
    (0 <= IndiceSimbolo(ss, t.peticion) < |l.bloqueados| && t in l.bloqueados[IndiceSimbolo(ss, t.peticion)])
  }

  /** Those in a pokenest's queue are of the system and wait for that pokenest. */
  ghost predicate ColaBien(simbolo: char, q: seq<Jugador>, sistema: seq<Jugador>, fuera: set<Jugador>)
    reads sistema
  {
    forall t :: t in q ==> t in sistema && t !in fuera && EstaBloqueado(t, simbolo)
  }

  /** Each trainer of the system is in exactly one place, and its fields agree: a ready or
      running one is free and asks for nothing, a blocked one waits in the queue of what it
      asks for. `fuera` are the trainers in transit: of the system, but in no place. */
  ghost predicate LugaresBien(ss: seq<char>, l: Lugares, fuera: set<Jugador>)
    reads l.sistema
  {
    && |l.bloqueados| == |ss|
    && SinRepetidos(l.listos) && (forall i :: 0 <= i < |l.bloqueados| ==> SinRepetidos(l.bloqueados[i]))
    && (forall t :: t in l.listos ==> t in l.sistema && t !in fuera && EstaListo(t))
    && (l.corriendo != null ==>
          l.corriendo in l.sistema && l.corriendo !in fuera && EstaListo(l.corriendo) && l.corriendo !in l.listos)
    && (forall i :: 0 <= i < |l.bloqueados| ==> ColaBien(ss[i], l.bloqueados[i], l.sistema, fuera))
    && (forall t :: t in l.sistema && t !in fuera ==> EnAlgunLugar(ss, l, t))
    && (forall t :: t in fuera ==> t in l.sistema)
  }

  lemma SacarBloqueado(ss: seq<char>, l: Lugares, fuera: set<Jugador>, i: nat)
    requires SimbolosBien(ss) && LugaresBien(ss, l, fuera) && i < |ss| && l.bloqueados[i] != []
    ensures l.bloqueados[i][0] !in fuera
    ensures LugaresBien(ss, l.(bloqueados := l.bloqueados[i := l.bloqueados[i][1..]]), fuera + {l.bloqueados[i][0]})
  {
    var t := l.bloqueados[i][0];
    assert t in l.bloqueados[i];
    SacarDeCola(ss, l, fuera, i, t, l.bloqueados[i][1..]);
  }

  /** A trainer waits in one queue only. */
  lemma UnaSolaCola(ss: seq<char>, l: Lugares, fuera: set<Jugador>, i: nat, j: nat, t: Jugador)
    requires SimbolosBien(ss) && LugaresBien(ss, l, fuera) && i < |ss| && j < |ss| && i != j && t in l.bloqueados[i]
    ensures t !in l.bloqueados[j]
  {
  }

  /** Taking one trainer out of its queue puts it in transit. */
  lemma SacarDeCola(ss: seq<char>, l: Lugares, fuera: set<Jugador>, i: nat, t: Jugador, q: seq<Jugador>)
    requires SimbolosBien(ss) && LugaresBien(ss, l, fuera) && i < |ss| && t in l.bloqueados[i]
    requires SinRepetidos(q) && forall x :: x in q <==> x in l.bloqueados[i] && x != t
    ensures t !in fuera && LugaresBien(ss, l.(bloqueados := l.bloqueados[i := q]), fuera + {t})
  {
  }

  lemma EntrarListos(ss: seq<char>, l: Lugares, fuera: set<Jugador>, t: Jugador)
    requires LugaresBien(ss, l, fuera) && t in fuera && EstaListo(t)
    ensures LugaresBien(ss, l.(listos := l.listos + [t]), fuera - {t})
  {
  }

  lemma EntrarBloqueados(ss: seq<char>, l: Lugares, fuera: set<Jugador>, t: Jugador, i: nat)
    requires SimbolosBien(ss) && LugaresBien(ss, l, fuera) && t in fuera && i < |ss| && EstaBloqueado(t, ss[i])
    ensures LugaresBien(ss, l.(bloqueados := l.bloqueados[i := l.bloqueados[i] + [t]]), fuera - {t})
  {
  }

  lemma SacarListo(ss: seq<char>, l: Lugares, fuera: set<Jugador>, k: nat)
    requires LugaresBien(ss, l, fuera) && k < |l.listos|
    ensures l.listos[k] !in fuera && LugaresBien(ss, l.(listos := SinIndice(l.listos, k)), fuera + {l.listos[k]})
  {
  }

  lemma PonerACorrer(ss: seq<char>, l: Lugares, fuera: set<Jugador>, t: Jugador)
    requires LugaresBien(ss, l, fuera) && t in fuera && EstaListo(t) && l.corriendo == null
    ensures LugaresBien(ss, l.(corriendo := t), fuera - {t})
  {
  }

  lemma DejarDeCorrer(ss: seq<char>, l: Lugares, fuera: set<Jugador>)
    requires SimbolosBien(ss) && LugaresBien(ss, l, fuera) && l.corriendo != null
    ensures l.corriendo !in fuera && LugaresBien(ss, l.(corriendo := null), fuera + {l.corriendo})
  {
  }

  /** A trainer in transit leaves the system. */
  lemma SalirDelSistema(ss: seq<char>, l: Lugares, fuera: set<Jugador>, t: Jugador, sistema': seq<Jugador>)
    requires LugaresBien(ss, l, fuera) && t in fuera
    requires forall x :: x in sistema' <==> x in l.sistema && x != t
    ensures LugaresBien(ss, l.(sistema := sistema'), fuera - {t})
  {
  }

  /** A trainer joins the system in transit. */
  lemma EntrarAlSistema(ss: seq<char>, l: Lugares, fuera: set<Jugador>, t: Jugador)
    requires LugaresBien(ss, l, fuera) && t !in l.sistema
    ensures LugaresBien(ss, l.(sistema := l.sistema + [t]), fuera + {t})
  {
  }

  /** All the pokemon that are free or held by a trainer in some place. */
  ghost function Total(colas: seq<seq<Pokemon>>, caps: Caps, l: Lugares): multiset<Pokemon> {
    Libres(colas) + Suma(caps, l.listos) + SumaColas(caps, l.bloqueados)
    + (if l.corriendo == null then multiset{} else De(caps, l.corriendo))
  }

  /** The map at one moment: where the trainers are, the free pokemon of each pokenest, what each
      trainer holds, the deadlock list and the last arrival number. */
  datatype Instante = Instante(l: Lugares, colas: seq<seq<Pokemon>>, caps: Caps, deadlock: seq<Jugador>, llegados: nat)

  /** What a trainer holds. */
  function Suyos(caps: Caps, t: Jugador): seq<Pokemon> {
    if t in caps then caps[t] else []
  }

  /** Different trainers, with different sockets and arrival numbers. */
  ghost predicate Distintos(js: seq<Jugador>) {
    forall i, j :: 0 <= i < j < |js| ==> js[i] != js[j] && js[i].socket != js[j].socket && js[i].numero != js[j].numero
  }

  lemma DistintosSinIndice(js: seq<Jugador>, i: nat)
    requires i < |js| && Distintos(js)
    ensures Distintos(SinIndice(js, i)) && forall x :: x in SinIndice(js, i) <==> x in js && x != js[i]
  {
  }

  lemma PorSocket(js: seq<Jugador>, t: Jugador, i: nat)
    requires Distintos(js) && t in js && i <= |js| && (i < |js| ==> js[i].socket == t.socket)
    requires forall j :: 0 <= j < i ==> js[j].socket != t.socket
    ensures i < |js| && js[i] == t
  {
  }

  /** The pokenests a map starts from: different ones, each with its own pokemon, counted. */
  ghost predicate NidosBien(ps: seq<Pokenest>)
    reads ps
  {
    && (forall i, j :: 0 <= i < j < |ps| ==> ps[i] != ps[j] && ps[i].simbolo != ps[j].simbolo)
    && (forall i :: 0 <= i < |ps| ==> ps[i].simbolo != SIN_PETICION && ps[i].cantPokemon == |ps[i].colaDePokemon|)
    && (forall i, p :: 0 <= i < |ps| && p in ps[i].colaDePokemon ==> p.pokenest == p.inicial == ps[i].simbolo)
  }

  lemma {:induction false} NadieEnColas(caps: Caps, qs: seq<seq<Jugador>>)
    requires forall i :: 0 <= i < |qs| ==> qs[i] == []
    ensures SumaColas(caps, qs) == multiset{} && Cuantos(qs) == 0
  {
    if qs != [] {
      NadieEnColas(caps, qs[1..]);
    }
  }

  class Mapa {
    const pokenests: seq<Pokenest>
    var bloqueados: seq<seq<Jugador>>
    var listos: seq<Jugador>
    var sistema: seq<Jugador>
    var corriendo: Jugador?
    var listaDeadlock: seq<Jugador>
    var cantJugadores: nat
    // Mirrors of the pokenests' queues and of what each trainer holds, for the sums; the total
    // of pokemon free or held by a trainer in some place; and the number of blocked trainers.
    ghost var colas: seq<seq<Pokemon>>
    ghost var caps: Caps
    ghost var total: multiset<Pokemon>
    ghost var esperan: nat

    /** A map with its pokenests read and nobody on it. */
    constructor (ps: seq<Pokenest>)
      requires NidosBien(ps)
      ensures pokenests == ps && Valid({}) && sistema == [] && listos == [] && corriendo == null && listaDeadlock == []
      ensures cantJugadores == 0 && forall i :: 0 <= i < |bloqueados| ==> bloqueados[i] == []
      ensures |colas| == |ps| && total == Libres(colas) && forall i :: 0 <= i < |ps| ==> colas[i] == ps[i].colaDePokemon
    {
      pokenests := ps;
      bloqueados := seq(|ps|, _ => []);
      listos, sistema, corriendo, listaDeadlock, cantJugadores := [], [], null, [], 0;
      ghost var qs := seq(|ps|, i requires 0 <= i < |ps| reads ps => ps[i].colaDePokemon);
      colas, caps, total, esperan := qs, map[], Libres(qs), 0;
      new;
      NadieEnColas(caps, bloqueados);
    }

    function Simbolos(): (ss: seq<char>)
      ensures |ss| == |pokenests| && forall i :: 0 <= i < |ss| ==> ss[i] == pokenests[i].simbolo
    {
      seq(|pokenests|, i requires 0 <= i < |pokenests| => pokenests[i].simbolo)
    }

    /** The position of the pokenest with a symbol, or -1. */
    function Referencia(simbolo: char): (r: int)
      ensures r == -1 || (0 <= r < |pokenests| && pokenests[r].simbolo == simbolo)
    {
      IndiceSimbolo(Simbolos(), simbolo)
    }

    ghost function Lugar(): Lugares
      reads `bloqueados, `listos, `corriendo, `sistema
    {
      Lugares(bloqueados, listos, corriendo, sistema)
    }

    ghost function Ahora(): Instante
      reads `bloqueados, `listos, `corriendo, `sistema, `colas, `caps, `listaDeadlock, `cantJugadores
    {
      Instante(Lugar(), colas, caps, listaDeadlock, cantJugadores)
    }

    ghost predicate EsDeAca(p: Pokemon) {
      p.pokenest in Simbolos() && p.inicial == p.pokenest
    }

    /** Each pokenest counts its queue, and queues only its own pokemon. */
    ghost predicate PokenestsBien()
      reads `bloqueados, `colas, pokenests
    {
      && SimbolosBien(Simbolos()) && |colas| == |pokenests| == |bloqueados|
      && (forall i, j :: 0 <= i < j < |pokenests| ==> pokenests[i] != pokenests[j])
      && (forall i :: 0 <= i < |pokenests| ==>
            pokenests[i].colaDePokemon == colas[i] && pokenests[i].cantPokemon == |colas[i]|)
      && (forall i, p :: 0 <= i < |colas| && p in colas[i] ==> p.pokenest == p.inicial == Simbolos()[i])
    }

    /** No pokenest has both a free pokemon and a waiting trainer. */
    ghost predicate NadieEsperaEnVano()
      reads `bloqueados, `colas
    {
      |bloqueados| == |colas| && forall i :: 0 <= i < |colas| ==> colas[i] == [] || bloqueados[i] == []
    }

    /** The trainers are different, by socket and arrival number too, and hold pokemon of this
        map. */
    ghost predicate SistemaBien()
      reads `sistema, `cantJugadores, `caps, sistema
    {
      && Distintos(sistema)
      && (forall t :: t in sistema ==> t.numero <= cantJugadores && t in caps && caps[t] == t.pokemonCapturados)
      && (forall t, p :: t in sistema && p in t.pokemonCapturados ==> EsDeAca(p))
    }

    ghost predicate Partes(fuera: set<Jugador>)
      reads `bloqueados, `listos, `corriendo, `sistema, `colas, `caps, `cantJugadores, sistema, pokenests
    {
      PokenestsBien() && NadieEsperaEnVano() && SistemaBien() && LugaresBien(Simbolos(), Lugar(), fuera)
    }

    /** The map's invariant, with some trainers in transit: `Partes(fuera)`. The quantifier
        keeps its parts folded where they are not needed; mentioning `Abrir` unfolds them. */
    ghost predicate Valid(fuera: set<Jugador>)
      reads `bloqueados, `listos, `corriendo, `sistema, `colas, `caps
      reads `cantJugadores, `total, `esperan, sistema, pokenests
    {
      forall u {:trigger Abrir(Invariante, u)} :: Abrir(Invariante, u) ==>
        Partes(fuera) && total == Total(colas, caps, Lugar()) && esperan == Cuantos(bloqueados)
    }

    /** The queue of those blocked on a pokenest. */
    function Cola(simbolo: char): seq<Jugador>
      reads `bloqueados
    {
      ColaEn(Simbolos(), bloqueados, simbolo)
    }

    // -------------------------------------------------------------- queues

    lemma Desplegar(fuera: set<Jugador>)
      requires Valid(fuera)
      ensures Partes(fuera) && total == Total(colas, caps, Lugar()) && esperan == Cuantos(bloqueados)
    {
      assert Abrir(Invariante, 0);
    }

    lemma Plegar(fuera: set<Jugador>)
      requires Partes(fuera) && total == Total(colas, caps, Lugar()) && esperan == Cuantos(bloqueados)
      ensures Valid(fuera)
    {
    }

    /** Pops the first trainer of a queue. */
    method PopBloqueado(posicion: nat, ghost fuera: set<Jugador>, ghost nuevoTotal: multiset<Pokemon>)
      returns (t: Jugador)
      requires Partes(fuera) && posicion < |bloqueados| && bloqueados[posicion] != [] && esperan > 0
      modifies `bloqueados, `total, `esperan
      ensures t == old(bloqueados[posicion])[0] && SinCabeza(old(Lugar()), Lugar(), posicion)
      ensures t in sistema && t !in fuera && Partes(fuera + {t}) && total == nuevoTotal && esperan == old(esperan) - 1
    {
      t := bloqueados[posicion][0];
      ghost var l := Lugar();
      SacarBloqueado(Simbolos(), l, fuera, posicion);
      bloqueados, total, esperan := bloqueados[posicion := bloqueados[posicion][1..]], nuevoTotal, esperan - 1;
      assert Lugar() == l.(bloqueados := bloqueados);
    }

    /** Takes the first trainer out of a pokenest's queue, if any waits there. */
    method DesbloquearJugador(simbolo: char, ghost fuera: set<Jugador>) returns (t: Jugador?)
      requires Valid(fuera) && Referencia(simbolo) >= 0
      modifies `bloqueados, `total, `esperan
      ensures t == null ==> total == old(total) && esperan == old(esperan) && Lugar() == old(Lugar())
      ensures t == null ==> Cola(simbolo) == [] && Valid(fuera) && Referencia(simbolo) < |bloqueados|
      ensures t != null ==> old(Cola(simbolo)) != [] && t == old(Cola(simbolo))[0]
      ensures t != null ==> SinCabeza(old(Lugar()), Lugar(), Referencia(simbolo))
      ensures t != null ==> EnTransito(t, fuera, old(total)) && esperan < old(esperan)
    {
      var posicion := Referencia(simbolo);
      Desplegar(fuera);
      if |bloqueados[posicion]| > 0 {
        ghost var l := Lugar();
        var j := bloqueados[posicion][0];
        CapsDe(j, posicion, fuera);
        ghost var nuevo := TotalSinCabeza(colas, caps, l, posicion, j);
        CuantosCambia(l.bloqueados, posicion, l.bloqueados[posicion][1..]);
        t := PopBloqueado(posicion, fuera, nuevo);
        Plegar(fuera + {j});
      } else {
        t := null;
      }
    }

    lemma CapsDe(t: Jugador, i: nat, fuera: set<Jugador>)
      requires Partes(fuera) && i < |bloqueados| && t in bloqueados[i]
      ensures t in sistema && t in caps && caps[t] == t.pokemonCapturados
    {
    }

    /** The trainer has just left a queue; with what it holds the total is the given one. */
    ghost predicate EnTransito(t: Jugador, fuera: set<Jugador>, esperado: multiset<Pokemon>)
      reads this, sistema, pokenests, t
    {
      t in sistema && t !in fuera && Valid(fuera + {t}) && esperado == total + multiset(t.pokemonCapturados)
    }

    /** Removes a trainer from the list of all trainers, found by its socket. */
    method QuitarDelSistema(t: Jugador, ghost fuera: set<Jugador>)
      requires Partes(fuera) && t in fuera
      modifies `sistema
      ensures Partes(fuera - {t}) && |sistema| < |old(sistema)|
      ensures forall x :: x in sistema <==> x in old(sistema) && x != t
    {
      ghost var l := Lugar();
      var i := 0;
      while i < |sistema| && sistema[i].socket != t.socket
        invariant 0 <= i <= |sistema| && forall j :: 0 <= j < i ==> sistema[j].socket != t.socket
      {
        i := i + 1;
      }
      PorSocket(sistema, t, i);
      DistintosSinIndice(sistema, i);
      sistema := SinIndice(sistema, i);
      SalirDelSistema(Simbolos(), l, fuera, t, sistema);
      assert Lugar() == l.(sistema := sistema);
    }

    method BorrarJugadorSistema(t: Jugador, ghost fuera: set<Jugador>)
      requires Valid(fuera) && t in fuera
      modifies `sistema
      ensures Valid(fuera - {t}) && |sistema| < |old(sistema)| && t in old(sistema)
      ensures forall x :: x in sistema <==> x in old(sistema) && x != t
    {
      Desplegar(fuera);
      ghost var l := Lugar();
      QuitarDelSistema(t, fuera);
      assert Total(colas, caps, Lugar()) == Total(colas, caps, l);
      Plegar(fuera - {t});
    }

    // -------------------------------------------------------------- handing pokemon on

    /** A trainer in transit asks for nothing any more; nobody else notices. */
    method Liberar(t: Jugador, ghost fuera: set<Jugador>)
      requires Partes(fuera) && t in fuera
      modifies t`estado, t`peticion
      ensures Partes(fuera) && EstaListo(t)
    {
      AjenoATodos(Simbolos(), Lugar(), fuera, t);
      t.estado := 0;
      t.peticion := SIN_PETICION;
      forall i | 0 <= i < |bloqueados|
        ensures ColaBien(Simbolos()[i], bloqueados[i], sistema, fuera)
      {
        assert old(ColaBien(Simbolos()[i], bloqueados[i], sistema, fuera));
      }
      forall x | x in sistema && x !in fuera
        ensures EnAlgunLugar(Simbolos(), Lugar(), x)
      {
        assert old(EnAlgunLugar(Simbolos(), Lugar(), x));
      }
    }

    /** A trainer in transit gets a pokemon; nobody else notices. */
    method Regalar(t: Jugador, p: Pokemon, ghost fuera: set<Jugador>)
      requires Partes(fuera) && t in fuera && EsDeAca(p)
      modifies t`pokemonCapturados, `caps
      ensures Partes(fuera) && t.pokemonCapturados == old(t.pokemonCapturados) + [p]
      ensures caps == old(caps)[t := t.pokemonCapturados]
    {
      t.pokemonCapturados := t.pokemonCapturados + [p];
      caps := caps[t := t.pokemonCapturados];
      forall i | 0 <= i < |bloqueados|
        ensures ColaBien(Simbolos()[i], bloqueados[i], sistema, fuera)
      {
        assert old(ColaBien(Simbolos()[i], bloqueados[i], sistema, fuera));
      }
      forall x | x in sistema && x !in fuera
        ensures EnAlgunLugar(Simbolos(), Lugar(), x)
      {
        assert old(EnAlgunLugar(Simbolos(), Lugar(), x));
      }
    }

    /** A trainer in transit is freed and gets a pokemon. */
    method Premiar(t: Jugador, p: Pokemon, ghost fuera: set<Jugador>)
      requires Partes(fuera) && t in fuera && EsDeAca(p)
      modifies t, `caps
      ensures Partes(fuera) && EstaListo(t) && t.pokemonCapturados == old(t.pokemonCapturados) + [p]
      ensures caps == old(caps)[t := t.pokemonCapturados]
    {
      Liberar(t, fuera);
      Regalar(t, p, fuera);
    }

    /** A free trainer in transit becomes ready, at the tail of the list. */
    method PonerListo(t: Jugador, ghost fuera: set<Jugador>, ghost nuevoTotal: multiset<Pokemon>)
      requires Partes(fuera) && t in fuera && EstaListo(t)
      modifies `listos, `total
      ensures Partes(fuera - {t}) && listos == old(listos) + [t] && total == nuevoTotal
    {
      total := nuevoTotal;
      ghost var l := Lugar();
      EntrarListos(Simbolos(), l, fuera, t);
      listos := listos + [t];
      assert Lugar() == l.(listos := listos);
    }

    method PremiarYListo(t: Jugador, p: Pokemon, ghost fuera: set<Jugador>, ghost nuevoTotal: multiset<Pokemon>)
      requires Partes(fuera) && t in fuera && EsDeAca(p)
      modifies t, `listos, `caps, `total
      ensures Partes(fuera - {t}) && Lugar() == old(Lugar()).(listos := old(listos) + [t])
      ensures caps == old(caps)[t := old(t.pokemonCapturados) + [p]] && total == nuevoTotal
    {
      Premiar(t, p, fuera);
      PonerListo(t, fuera, nuevoTotal);
    }

    /** A trainer in transit gets the pokemon it waited for and is ready again. */
    method Entregar(t: Jugador, p: Pokemon, ghost fuera: set<Jugador>)
      requires Valid(fuera) && t in fuera && EsDeAca(p)
      modifies t, `listos, `caps, `total
      ensures Valid(fuera - {t}) && listos == old(listos) + [t]
      ensures total == old(total) + multiset(old(t.pokemonCapturados) + [p])
      ensures t in old(caps) && caps == old(caps)[t := old(caps)[t] + [p]]
    {
      Desplegar(fuera);
      assert t in sistema && t in caps && caps[t] == t.pokemonCapturados;
      ghost var l, c := Lugar(), t.pokemonCapturados + [p];
      ghost var caps', l' := caps[t := c], l.(listos := l.listos + [t]);
      ghost var nuevo := TotalDelPremiado(Simbolos(), colas, caps, l, fuera, t, c, caps', l');
      PremiarYListo(t, p, fuera, nuevo);
      Plegar(fuera - {t});
    }

    /** Puts a pokemon at the tail of its pokenest's queue. */
    method GuardarEnPokenest(i: nat, p: Pokemon)
      requires PokenestsBien() && i < |pokenests| && p.pokenest == p.inicial == pokenests[i].simbolo
      modifies pokenests[i], `colas
      ensures PokenestsBien() && colas == old(colas)[i := old(colas[i]) + [p]]
    {
      pokenests[i].cantPokemon := pokenests[i].cantPokemon + 1;
      pokenests[i].colaDePokemon := pokenests[i].colaDePokemon + [p];
      colas := colas[i := colas[i] + [p]];
    }

    /** The same, seen by the map: nobody waits there, so nobody waits in vain. */
    method GuardarLibre(i: nat, p: Pokemon, ghost fuera: set<Jugador>, ghost nuevoTotal: multiset<Pokemon>)
      requires Partes(fuera) && i < |pokenests| && p.pokenest == p.inicial == pokenests[i].simbolo
      requires bloqueados[i] == []
      modifies pokenests[i], `colas, `total
      ensures Partes(fuera) && colas == old(colas)[i := old(colas[i]) + [p]] && total == nuevoTotal
    {
      total := nuevoTotal;
      ghost var l := Lugar();
      GuardarEnPokenest(i, p);
      assert Lugar() == l;
      assert LugaresBien(Simbolos(), l, fuera);
      assert SistemaBien();
    }

    /** A pokemon nobody waits for goes back to its pokenest. */
    method Devolver(p: Pokemon, ghost fuera: set<Jugador>)
      requires Valid(fuera) && EsDeAca(p) && Cola(p.pokenest) == []
      modifies pokenests, `colas, `total
      ensures Valid(fuera) && total == old(total) + multiset{p}
      ensures 0 <= Referencia(p.pokenest) < |old(colas)|
      ensures colas == old(colas)[Referencia(p.pokenest) := old(colas)[Referencia(p.pokenest)] + [p]]
    {
      var i := Referencia(p.pokenest);
      Desplegar(fuera);
      ghost var l := Lugar();
      TotalDevuelto(colas, caps, l, i, p);
      GuardarLibre(i, p, fuera, total + multiset{p});
      assert Lugar() == l;
      Plegar(fuera);
    }

    /** A trainer in transit gets the pokemon it waited for and is in transit no more. */
    method EntregarYSalir(t: Jugador, p: Pokemon, ghost fuera: set<Jugador>)
      requires Valid(fuera + {t}) && t !in fuera && EsDeAca(p)
      modifies t, `listos, `caps, `total
      ensures Valid(fuera) && total == old(total) + multiset(old(t.pokemonCapturados) + [p])
      ensures Lugar() == old(Lugar()).(listos := old(listos) + [t])
      ensures t in old(caps) && caps == old(caps)[t := old(caps)[t] + [p]]
    {
      ghost var l := Lugar();
      Entregar(t, p, fuera + {t});
      EntraYSale(fuera, t);
      assert Lugar() == l.(listos := l.listos + [t]);
    }

    /** A trainer in transit is in no queue. */
    lemma EnTransitoNoEspera(t: Jugador, fuera: set<Jugador>)
      requires Valid(fuera) && t in fuera
      ensures !Espera(Lugar(), t) && t in sistema && t in caps && caps[t] == t.pokemonCapturados
    {
      Desplegar(fuera);
      AjenoATodos(Simbolos(), Lugar(), fuera, t);
    }

    /** The same, seen from the moment `x` before it was taken out of its queue. */
    method EntregarAlPrimero(t: Jugador, p: Pokemon, ghost fuera: set<Jugador>, ghost x: Instante,
                             ghost rotos: set<int>)
      requires Valid(fuera + {t}) && t !in fuera && EsDeAca(p) && t.socket !in rotos
      requires PrimerIntento(x, Referencia(p.pokenest), Ahora(), t) && Referencia(p.pokenest) < |x.colas|
      modifies t, `listos, `caps, `total
      ensures Valid(fuera) && total == old(total) + multiset(old(t.pokemonCapturados) + [p]) && Avance(x.l, Lugar())
      ensures Repartido(x, p, Referencia(p.pokenest), Ahora()) && Suertes(Simbolos(), x, Ahora(), rotos, {})
    {
      ghost var x1, r := Ahora(), Referencia(p.pokenest);
      EnTransitoNoEspera(t, fuera + {t});
      EntregarYSalir(t, p, fuera);
      AvanceCola(x.l, x1.l, r);
      AvanceListo(x.l, x1.l, t);
      RepartidoAlPrimero(x, r, x1, t, p, Ahora());
      SuertesAlPrimero(Simbolos(), x, p, x1, t, Ahora(), rotos);
    }

    /** The same, seen from where the offer began, at `x0`. */
    method EntregarDesde(t: Jugador, p: Pokemon, ghost fuera: set<Jugador>, ghost x0: Instante, ghost x: Instante,
                         ghost rotos: set<int>)
      requires Valid(fuera + {t}) && t !in fuera && EsDeAca(p) && t.socket !in rotos
      requires PrimerIntento(x, Referencia(p.pokenest), Ahora(), t) && Referencia(p.pokenest) < |x.colas|
      requires Avance(x0.l, x.l) && Suertes(Simbolos(), x0, x, rotos, {})
      modifies t, `listos, `caps, `total
      ensures Valid(fuera) && total == old(total) + multiset(old(t.pokemonCapturados) + [p]) && Avance(x0.l, Lugar())
      ensures Repartido(x, p, Referencia(p.pokenest), Ahora()) && Suertes(Simbolos(), x0, Ahora(), rotos, {})
    {
      EntregarAlPrimero(t, p, fuera, x, rotos);
      SuertesTrans(Simbolos(), x0, x, Ahora(), rotos, {});
      AvanceTrans(x0.l, x.l, Lugar());
    }

    /** A trainer whose send failed is dropped, and the next one waiting is tried; `y` is the map
        in between. */
    method SoltarYSeguir(j: Jugador, simbolo: char, ghost fuera: set<Jugador>, rotos: set<int>, ghost x: Instante)
      returns (t: Jugador?, ghost caidos: set<Jugador>, ghost y: Instante)
      requires EnTransito(j, fuera, total + multiset(j.pokemonCapturados)) && Referencia(simbolo) >= 0
      requires PrimerIntento(x, Referencia(simbolo), Ahora(), j) && j.socket in rotos
      modifies this`bloqueados, this`listos, this`sistema, this`listaDeadlock, this`caps
      modifies this`colas, this`total, this`esperan, sistema, pokenests
      ensures Avance(x.l, y.l) && Suertes(Simbolos(), x, y, rotos, {})
      ensures PrimerIntento(y, Referencia(simbolo), Ahora(), t) && esperan <= old(esperan) && listaDeadlock == []
      ensures |y.colas| == |pokenests|
      ensures j in caidos && Quedaron(old(sistema), caidos, sistema)
      ensures t == null ==>
        Valid(fuera) && Cola(simbolo) == [] && total == old(total) + multiset(old(j.pokemonCapturados))
      ensures t != null ==>
        EnTransito(t, fuera, old(total) + multiset(old(j.pokemonCapturados))) && esperan < old(esperan)
      decreases esperan, 5
    {
      ghost var x1, r := Ahora(), Referencia(simbolo);
      EnTransitoNoEspera(j, fuera + {j});
      caidos := Soltar(j, fuera, rotos);
      caidos := caidos + {j};
      y := Ahora();
      NidosYColas(fuera);
      SuertesTrasSoltar(Simbolos(), x, r, x1, j, y, rotos);
      AvanceCola(x.l, x1.l, r);
      AvanceTrans(x.l, x1.l, y.l);
      t := DesbloquearJugador(simbolo, fuera);
    }

    /** The same, seen from where the offer began, at `x0`. */
    method SoltarDesde(j: Jugador, simbolo: char, ghost fuera: set<Jugador>, rotos: set<int>, ghost x0: Instante,
                       ghost x: Instante, ghost caidos0: set<Jugador>)
      returns (t: Jugador?, ghost caidos: set<Jugador>, ghost y: Instante)
      requires EnTransito(j, fuera, total + multiset(j.pokemonCapturados)) && Referencia(simbolo) >= 0
      requires PrimerIntento(x, Referencia(simbolo), Ahora(), j) && j.socket in rotos
      requires Avance(x0.l, x.l) && Suertes(Simbolos(), x0, x, rotos, {}) && Quedaron(x0.l.sistema, caidos0, sistema)
      modifies this`bloqueados, this`listos, this`sistema, this`listaDeadlock, this`caps
      modifies this`colas, this`total, this`esperan, sistema, pokenests
      ensures Avance(x0.l, y.l) && Suertes(Simbolos(), x0, y, rotos, {}) && |y.colas| == |pokenests|
      ensures PrimerIntento(y, Referencia(simbolo), Ahora(), t) && esperan <= old(esperan) && listaDeadlock == []
      ensures caidos != {} && Quedaron(x0.l.sistema, caidos, sistema)
      ensures t == null ==>
        Valid(fuera) && Cola(simbolo) == [] && total == old(total) + multiset(old(j.pokemonCapturados))
      ensures t != null ==>
        EnTransito(t, fuera, old(total) + multiset(old(j.pokemonCapturados))) && esperan < old(esperan)
      decreases esperan, 6
    {
      ghost var sistema1, idos := sistema, {};
      t, idos, y := SoltarYSeguir(j, simbolo, fuera, rotos, x);
      caidos := caidos0 + idos;
      QuedaronTrans(x0.l.sistema, caidos0, sistema1, idos, sistema);
      SuertesTrans(Simbolos(), x0, x, y, rotos, {});
      AvanceTrans(x0.l, x.l, y.l);
    }

    /** Offers one pokemon to the trainers waiting for its pokenest, until one's connection
        works or nobody is left. A trainer whose send fails is dropped: its own pokemon are
        handed on first, by recursion, and then the next one waiting is tried. The connections
        that are down are those of the sockets in `rotos`. */
    method Ofrecer(p: Pokemon, ghost fuera: set<Jugador>, rotos: set<int>)
      returns (t: Jugador?, ghost caidos: set<Jugador>)
      requires Valid(fuera) && EsDeAca(p)
      modifies this`bloqueados, this`listos, this`sistema, this`listaDeadlock, this`caps
      modifies this`colas, this`total, this`esperan, sistema, pokenests
      ensures Valid(fuera) && Avance(old(Lugar()), Lugar()) && esperan <= old(esperan)
      ensures t != null ==> total == old(total) + multiset{p}
      ensures t == null ==> total == old(total) && Cola(p.pokenest) == []
      ensures t == null && caidos == {} ==> PrimerIntento(old(Ahora()), Referencia(p.pokenest), Ahora(), null)
      ensures t != null && caidos == {} ==> Repartido(old(Ahora()), p, Referencia(p.pokenest), Ahora())
      ensures listaDeadlock == if caidos == {} then old(listaDeadlock) else []
      ensures Quedaron(old(sistema), caidos, sistema) && Suertes(Simbolos(), old(Ahora()), Ahora(), rotos, {})
      decreases esperan, 0
    {
      caidos := {};
      ghost var x0, l0, r := Ahora(), Lugar(), Referencia(p.pokenest);
      ghost var x := x0;
      NidosYColas(fuera);
      t := DesbloquearJugador(p.pokenest, fuera);
      QuedaronTodos(l0.sistema);
      AvanceRefl(l0);
      SuertesQuietas(Simbolos(), x0, x0, rotos, {});
      while t != null
        invariant Avance(l0, x.l) && Suertes(Simbolos(), x0, x, rotos, {}) && Quedaron(l0.sistema, caidos, sistema)
        invariant PrimerIntento(x, r, Ahora(), t) && esperan <= old(esperan) && (caidos == {} ==> x == x0)
        invariant listaDeadlock == if caidos == {} then old(listaDeadlock) else []
        invariant t == null ==> Valid(fuera) && Cola(p.pokenest) == [] && total == old(total)
        invariant t != null ==> EnTransito(t, fuera, old(total)) && esperan < old(esperan)
        invariant |x.colas| == |pokenests| && forall k :: 0 <= k < |sistema| ==> sistema[k] in l0.sistema
        decreases esperan + (if t == null then 0 else 1)
      {
        var j: Jugador := t;
        assert j in l0.sistema;
        if j.socket !in rotos {
          EntregarDesde(j, p, fuera, x0, x, rotos);
          return;
        }
        t, caidos, x := SoltarDesde(j, p.pokenest, fuera, rotos, x0, x, caidos);
        SistemaIncluido(l0, x.l);
      }
    }

    lemma NidosYColas(fuera: set<Jugador>)
      requires Valid(fuera)
      ensures |colas| == |bloqueados| == |pokenests|
    {
      assert Abrir(Invariante, 0);
    }

    /** Hands one pokemon to the first trainer waiting for its pokenest whose connection works,
        or back to the pokenest. Exactly those whose send fails leave the system. */
    method ExpropiarUno(p: Pokemon, ghost fuera: set<Jugador>, rotos: set<int>) returns (ghost caidos: set<Jugador>)
      requires Valid(fuera) && EsDeAca(p)
      modifies this`bloqueados, this`listos, this`sistema, this`listaDeadlock, this`caps
      modifies this`colas, this`total, this`esperan, sistema, pokenests
      ensures Valid(fuera) && total == old(total) + multiset{p}
      ensures Avance(old(Lugar()), Lugar()) && esperan <= old(esperan)
      ensures caidos == {} ==> Repartido(old(Ahora()), p, Referencia(p.pokenest), Ahora())
      ensures listaDeadlock == if caidos == {} then old(listaDeadlock) else []
      ensures Quedaron(old(sistema), caidos, sistema) && Suertes(Simbolos(), old(Ahora()), Ahora(), rotos, {})
      decreases esperan, 1
    {
      ghost var x0, r := Ahora(), Referencia(p.pokenest);
      NidosYColas(fuera);
      var t;
      t, caidos := Ofrecer(p, fuera, rotos);
      if t == null {
        ghost var x1, l := Ahora(), Lugar();
        Devolver(p, fuera);
        assert Lugar() == l;
        AvanceRefl(l);
        SuertesQuietas(Simbolos(), x1, Ahora(), rotos, {});
        SuertesTrans(Simbolos(), x0, x1, Ahora(), rotos, {});
        if caidos == {} {
          RepartidoAlNido(x0, r, x1, p, Ahora());
        }
      }
    }

    /** What a trainer of the map holds is of the map. */
    lemma CapturadosDeAca(t: Jugador, fuera: set<Jugador>)
      requires Valid(fuera) && t in sistema
      ensures forall p :: p in t.pokemonCapturados ==> EsDeAca(p)
    {
      assert Abrir(Invariante, 0);
    }

    /** Drops a trainer in transit: hands its pokemon on and removes it from the system. */
    method Soltar(t: Jugador, ghost fuera: set<Jugador>, rotos: set<int>) returns (ghost caidos: set<Jugador>)
      requires EnTransito(t, fuera, total + multiset(t.pokemonCapturados))
      modifies this`bloqueados, this`listos, this`sistema, this`listaDeadlock, this`caps
      modifies this`colas, this`total, this`esperan, sistema, pokenests
      ensures Valid(fuera) && total == old(total) + multiset(old(t.pokemonCapturados))
      ensures Avance(old(Lugar()), Lugar()) && esperan <= old(esperan)
      ensures t !in sistema && |sistema| < |old(sistema)| && listaDeadlock == []
      ensures t !in caidos && Quedaron(old(sistema), caidos + {t}, sistema)
      ensures Suertes(Simbolos(), old(Ahora()), Ahora(), rotos, {t})
      ensures caidos == {} ==>
        Repartidos(Simbolos(), old(Ahora()).(deadlock := []), old(t.pokemonCapturados),
                   ConSistema(Ahora(), old(sistema)))
      decreases esperan, 4
    {
      ghost var x0, l0, cap := Ahora(), Lugar(), t.pokemonCapturados;
      CapturadosDeAca(t, fuera + {t});
      FijarDeadlock([], fuera + {t});
      assert Lugar() == l0 && Ahora() == x0.(deadlock := []);
      caidos := ExpropiarPokemones2(t.pokemonCapturados, fuera + {t}, rotos);
      ghost var x1, l1 := Ahora(), Lugar();
      BorrarJugadorSistema(t, fuera + {t});
      SigueSiQuedo(l0.sistema, caidos, l1.sistema, t);
      QuedaronSinUno(l1.sistema, t, sistema);
      QuedaronTrans(l0.sistema, caidos, l1.sistema, {t}, sistema);
      EntraYSale(fuera, t);
      assert Lugar() == l1.(sistema := sistema);
      AvanceTrans(l0, l1, Lugar());
      SinMirarLista(Simbolos(), x0, x1, rotos, {});
      SuertesSinUno(Simbolos(), x0, x1, rotos, t, Ahora());
      if caidos == {} {
        RepartidosConOtros(Simbolos(), x0.(deadlock := []), cap, x1, l0.sistema);
        assert ConSistema(x0.(deadlock := []), l0.sistema) == x0.(deadlock := []);
        assert ConSistema(x1, l0.sistema) == ConSistema(Ahora(), l0.sistema);
      }
    }

    /** Hands on all the pokemon of a trainer that is leaving. It terminates whatever sends
        fail, because a dropped trainer is no longer blocked, and loses no pokemon. */
    method ExpropiarPokemones2(lista: seq<Pokemon>, ghost fuera: set<Jugador>, rotos: set<int>)
      returns (ghost caidos: set<Jugador>)
      requires Valid(fuera) && forall p :: p in lista ==> EsDeAca(p)
      modifies this`bloqueados, this`listos, this`sistema, this`listaDeadlock, this`caps
      modifies this`colas, this`total, this`esperan, sistema, pokenests
      ensures Valid(fuera) && total == old(total) + multiset(lista)
      ensures Avance(old(Lugar()), Lugar()) && esperan <= old(esperan)
      ensures caidos == {} ==> Repartidos(Simbolos(), old(Ahora()), lista, Ahora())
      ensures listaDeadlock == if caidos == {} then old(listaDeadlock) else []
      ensures Quedaron(old(sistema), caidos, sistema) && Suertes(Simbolos(), old(Ahora()), Ahora(), rotos, {})
      ensures forall t :: t in caidos ==> t.socket in rotos && Espera(old(Lugar()), t)
      decreases esperan, 3
    {
      caidos := {};
      ghost var x0, l0 := Ahora(), Lugar();
      AvanceRefl(l0);
      QuedaronTodos(l0.sistema);
      RepartidosNada(Simbolos(), x0);
      SuertesQuietas(Simbolos(), x0, x0, rotos, {});
      var i := 0;
      while i < |lista|
        invariant i <= |lista| && Valid(fuera)
        invariant total == old(total) + multiset(lista[..i])
        invariant Avance(l0, Lugar()) && esperan <= old(esperan) && Quedaron(l0.sistema, caidos, sistema)
        invariant listaDeadlock == if caidos == {} then old(listaDeadlock) else []
        invariant caidos == {} ==> Repartidos(Simbolos(), x0, lista[..i], Ahora())
        invariant Suertes(Simbolos(), x0, Ahora(), rotos, {})
      {
        TomarUnoMas(lista, i);
        caidos := ExpropiarSiguiente(lista, i, fuera, x0, caidos, rotos);
        i := i + 1;
      }
      assert lista[..i] == lista;
      TodosLosCaidosRotos(Simbolos(), x0, Ahora(), rotos, caidos);
    }

    /** One turn of that loop. */
    method ExpropiarSiguiente(lista: seq<Pokemon>, i: nat, ghost fuera: set<Jugador>, ghost x0: Instante,
                              ghost caidos0: set<Jugador>, rotos: set<int>)
      returns (ghost caidos: set<Jugador>)
      requires Valid(fuera) && i < |lista| && EsDeAca(lista[i])
      requires Avance(x0.l, Lugar()) && Quedaron(x0.l.sistema, caidos0, sistema)
      requires caidos0 == {} ==> Repartidos(Simbolos(), x0, lista[..i], Ahora())
      requires Suertes(Simbolos(), x0, Ahora(), rotos, {})
      modifies this`bloqueados, this`listos, this`sistema, this`listaDeadlock, this`caps
      modifies this`colas, this`total, this`esperan, sistema, pokenests
      ensures Valid(fuera) && total == old(total) + multiset{lista[i]} && esperan <= old(esperan)
      ensures Avance(x0.l, Lugar()) && Quedaron(x0.l.sistema, caidos, sistema)
      ensures caidos == {} ==> Repartidos(Simbolos(), x0, lista[..i + 1], Ahora())
      ensures Suertes(Simbolos(), x0, Ahora(), rotos, {})
      ensures caidos == {} ==> caidos0 == {} && listaDeadlock == old(listaDeadlock)
      ensures caidos != {} ==> listaDeadlock == [] || (caidos0 != {} && listaDeadlock == old(listaDeadlock))
      decreases esperan, 2
    {
      ghost var x1 := Ahora();
      ghost var idos := ExpropiarUno(lista[i], fuera, rotos);
      SuertesTrans(Simbolos(), x0, x1, Ahora(), rotos, {});
      QuedaronTrans(x0.l.sistema, caidos0, x1.l.sistema, idos, sistema);
      AvanceTrans(x0.l, x1.l, Lugar());
      caidos := caidos0 + idos;
      if idos == {} {
        assert caidos == caidos0;
        if caidos == {} {
          RepartidosUnoMas(Simbolos(), x0, lista, i, x1, Ahora());
        }
      }
    }

    // -------------------------------------------------------------- leaving

    /** Empties a queue into an auxiliary one that leaves a trainer out, and fills it again. */
    method RehacerCola(i: nat, buscado: Jugador)
      requires i < |bloqueados|
      modifies `bloqueados
      ensures bloqueados == old(bloqueados)[i := SinJugador(old(bloqueados)[i], buscado)]
    {
      ghost var qs, q := bloqueados, bloqueados[i];
      var colaAux := [];
      var tam := |bloqueados[i]|;
      var j := 0;
      while j < tam
        invariant j <= tam == |q| && bloqueados == qs[i := q[j..]]
        invariant colaAux == SinJugador(q[..j], buscado)
      {
        var jugador := bloqueados[i][0];
        bloqueados := bloqueados[i := bloqueados[i][1..]];
        assert q[..j + 1][..j] == q[..j];
        if buscado != jugador {
          colaAux := colaAux + [jugador];
        }
        j := j + 1;
      }
      assert q[..j] == q;
      ghost var todo, n := colaAux, 0;
      while |colaAux| > 0
        invariant n <= |todo| && bloqueados == qs[i := todo[..n]] && colaAux == todo[n..]
        decreases |colaAux|
      {
        assert todo[..n + 1] == todo[..n] + [colaAux[0]];
        bloqueados := bloqueados[i := bloqueados[i] + [colaAux[0]]];
        colaAux := colaAux[1..];
        n := n + 1;
      }
      assert todo[..n] == todo;
    }

    /** Takes a trainer out of every queue. */
    method BorrarJugadorDeColaBloqueados(buscado: Jugador)
      modifies `bloqueados
      ensures |bloqueados| == |old(bloqueados)|
      ensures forall i :: 0 <= i < |bloqueados| ==> bloqueados[i] == SinJugador(old(bloqueados)[i], buscado)
    {
      var i := 0;
      while i < |bloqueados|
        invariant i <= |bloqueados| == |old(bloqueados)|
        invariant forall j :: 0 <= j < i ==> bloqueados[j] == SinJugador(old(bloqueados)[j], buscado)
        invariant forall j :: i <= j < |bloqueados| ==> bloqueados[j] == old(bloqueados)[j]
      {
        RehacerCola(i, buscado);
        i := i + 1;
      }
    }

    /** A blocked trainer waits in the queue of what it asks for, and nowhere else. */
    lemma BloqueadoEnSuCola(t: Jugador, fuera: set<Jugador>)
      requires Valid(fuera) && t in sistema && t !in fuera
      ensures t.estado == 1 <==> t in Cola(t.peticion)
      ensures t.estado == 1 ==> 0 <= Referencia(t.peticion) < |bloqueados|
      ensures t in Cola(t.peticion) ==> t != corriendo && t !in listos
      ensures t.peticion != SIN_PETICION <==> t.estado == 1
    {
      assert Abrir(Invariante, 0);
      assert EnAlgunLugar(Simbolos(), Lugar(), t);
      if t in Cola(t.peticion) {
        assert ColaBien(Simbolos()[Referencia(t.peticion)], Cola(t.peticion), sistema, fuera);
      }
    }

    /** Each trainer is in exactly one place: running, ready, or in the one queue of what it
        asks for, and then it is marked as blocked. */
    lemma EnUnSoloLugar(t: Jugador)
      requires Valid({}) && t in sistema
      ensures t.estado == 1 ==> t in Cola(t.peticion) && t != corriendo && t !in listos
      ensures t.estado != 1 ==> (t == corriendo) != (t in listos)
      ensures forall i :: 0 <= i < |bloqueados| && t in bloqueados[i] ==> i == Referencia(t.peticion) && t.estado == 1
      ensures SinRepetidos(listos) && forall i :: 0 <= i < |bloqueados| ==> SinRepetidos(bloqueados[i])
    {
      BloqueadoEnSuCola(t, {});
      assert Abrir(Invariante, 0);
      assert EnAlgunLugar(Simbolos(), Lugar(), t);
      forall i | 0 <= i < |bloqueados| && t in bloqueados[i]
        ensures i == Referencia(t.peticion) && t.estado == 1
      {
        assert ColaBien(Simbolos()[i], bloqueados[i], sistema, {});
        IndiceDeSimbolo(Simbolos(), i);
      }
    }

    lemma SoloEnSuCola(t: Jugador)
      requires Valid({}) && t in sistema
      ensures forall i :: 0 <= i < |bloqueados| && t in bloqueados[i] ==> i == Referencia(t.peticion)
    {
      EnUnSoloLugar(t);
    }

    /** Each pokenest counts its free pokemon, and where one is free nobody waits. */
    lemma PokenestCuenta(i: nat)
      requires Valid({}) && i < |pokenests|
      ensures pokenests[i].cantPokemon == |pokenests[i].colaDePokemon|
      ensures i < |bloqueados| && (pokenests[i].colaDePokemon == [] || bloqueados[i] == [])
    {
      assert Abrir(Invariante, 0);
    }

    method QuitarDeColas(v: Jugador, ghost i: nat, ghost fuera: set<Jugador>, ghost nuevoTotal: multiset<Pokemon>)
      requires SimbolosBien(Simbolos()) && LugaresBien(Simbolos(), Lugar(), fuera) && i < |bloqueados|
      requires v in bloqueados[i]
      requires esperan > 0
      modifies `bloqueados, `total, `esperan
      ensures Lugar() == SinJugadorEn(old(Lugar()), i, v) && total == nuevoTotal && esperan == old(esperan) - 1
    {
      ghost var l := Lugar();
      BorrarJugadorDeColaBloqueados(v);
      SoloEstabaEn(Simbolos(), l, fuera, i, v, bloqueados);
      total, esperan := nuevoTotal, esperan - 1;
    }

    method SacarDeColas(v: Jugador, ghost i: nat, ghost fuera: set<Jugador>, ghost nuevoTotal: multiset<Pokemon>)
      requires Partes(fuera) && i < |bloqueados| && v in bloqueados[i] && esperan > 0
      modifies `bloqueados, `total, `esperan
      ensures Lugar() == SinJugadorEn(old(Lugar()), i, v) && v !in fuera && Partes(fuera + {v})
      ensures total == nuevoTotal && esperan == old(esperan) - 1
    {
      ghost var l := Lugar();
      SinJugadorMiembros(l.bloqueados[i], v);
      SacarDeCola(Simbolos(), l, fuera, i, v, SinJugador(l.bloqueados[i], v));
      QuitarDeColas(v, i, fuera, nuevoTotal);
    }

    /** Takes a blocked trainer out of its queue; the others keep their places. */
    method SacarBloqueadoDeColas(v: Jugador, ghost fuera: set<Jugador>)
      requires Valid(fuera) && v in sistema && v !in fuera && v.estado == 1
      modifies `bloqueados, `total, `esperan
      ensures EnTransito(v, fuera, old(total)) && esperan < old(esperan)
      ensures old(0 <= Referencia(v.peticion) < |bloqueados|)
      ensures Lugar() == SinJugadorEn(old(Lugar()), Referencia(v.peticion), v)
    {
      BloqueadoEnSuCola(v, fuera);
      Desplegar(fuera);
      ghost var l, i := Lugar(), Referencia(v.peticion);
      ghost var nuevo := TotalSinJugador(colas, caps, l, i, v);
      LargoSinJugador(l.bloqueados[i], v);
      CuantosCambia(l.bloqueados, i, SinJugador(l.bloqueados[i], v));
      SacarDeColas(v, i, fuera, nuevo);
      Plegar(fuera + {v});
    }

    /** Kills the loser of a deadlock battle: it leaves its queue, its pokemon are handed on,
        and it leaves the system. When every send works and somebody else waits for something
        it holds, somebody becomes ready. */
    method Matar(v: Jugador, rotos: set<int>) returns (ghost caidos: set<Jugador>)
      requires Valid({}) && v in sistema && v.estado == 1
      modifies `bloqueados, `listos, `sistema, `listaDeadlock, `caps, `colas, `total, `esperan, sistema, pokenests
      ensures Valid({}) && total == old(total)
      ensures v !in sistema && |sistema| < |old(sistema)|
      ensures v !in caidos && Quedaron(old(sistema), caidos + {v}, sistema)
      ensures forall t :: t in caidos ==> t.socket in rotos
      ensures old(0 <= Referencia(v.peticion) < |bloqueados|)
      ensures Avance(SinJugadorEn(old(Lugar()), old(Referencia(v.peticion)), v), Lugar())
      ensures Suertes(Simbolos(), SinBloqueado(old(Ahora()), old(Referencia(v.peticion)), v), Ahora(), rotos, {v})
      ensures caidos == {} ==>
        Repartidos(Simbolos(), SinBloqueado(old(Ahora()), old(Referencia(v.peticion)), v), old(v.pokemonCapturados),
                   ConSistema(Ahora(), old(sistema)))
      ensures caidos == {} && old(OtroEspera(v)) ==> |listos| > |old(listos)|
      ensures Quedan(old(bloqueados), v, bloqueados)
      ensures listaDeadlock == if caidos == {} then old(listaDeadlock) else []
    {
      ghost var l0, r, cap := Lugar(), Referencia(v.peticion), v.pokemonCapturados;
      ghost var x0, espera := Ahora(), OtroEspera(v);
      SoloEnSuCola(v);
      SacarBloqueadoDeColas(v, {});
      ghost var l1 := Lugar();
      assert Ahora() == SinBloqueado(x0, r, v);
      CapturadosDeAca(v, {} + {v});
      assert espera ==> exists p :: p in cap && Cola(p.pokenest) != [] by {
        if espera {
          SigueEsperando(l0, v);
        }
      }
      NidosYColas({} + {v});
      caidos := ExpropiarPokemones2(v.pokemonCapturados, {} + {v}, rotos);
      if caidos == {} {
        RepartidosSinFallos(Simbolos(), SinBloqueado(x0, r, v), cap, Ahora());
      }
      QuedanTras(l0, r, v, l1, Lugar());
      ghost var x2, l2 := Ahora(), Lugar();
      BorrarJugadorSistema(v, {} + {v});
      SigueSiQuedo(l0.sistema, caidos, l2.sistema, v);
      QuedaronSinUno(l2.sistema, v, sistema);
      QuedaronTrans(l0.sistema, caidos, l2.sistema, {v}, sistema);
      EntraYSale({}, v);
      assert Lugar() == l2.(sistema := sistema);
      AvanceSistema(l1, l2, sistema);
      SuertesSinUno(Simbolos(), SinBloqueado(x0, r, v), x2, rotos, v, Ahora());
      assert caidos == {} ==> ConSistema(Ahora(), l0.sistema) == x2;
    }

    /** Some other trainer waits for a pokenest of which v holds a pokemon. */
    ghost predicate OtroEspera(v: Jugador)
      reads `bloqueados, v
    {
      OtroEsperaEn(Simbolos(), bloqueados, v.pokemonCapturados, v)
    }

    lemma SigueEsperando(l0: Lugares, v: Jugador)
      requires 0 <= Referencia(v.peticion) < |l0.bloqueados| && Lugar() == SinJugadorEn(l0, Referencia(v.peticion), v)
      requires OtroEsperaEn(Simbolos(), l0.bloqueados, v.pokemonCapturados, v)
      ensures exists p :: p in v.pokemonCapturados && Cola(p.pokenest) != []
    {
      var p, t :| p in v.pokemonCapturados && t in ColaEn(Simbolos(), l0.bloqueados, p.pokenest) && t != v;
      SinJugadorMiembros(l0.bloqueados[Referencia(p.pokenest)], v);
      assert t in Cola(p.pokenest);
    }

    method PararDeCorrer(ghost fuera: set<Jugador>, ghost nuevoTotal: multiset<Pokemon>)
      requires Partes(fuera) && corriendo != null
      modifies `corriendo, `total
      ensures corriendo == null && Lugar() == old(Lugar()).(corriendo := null) && total == nuevoTotal
      ensures old(corriendo) !in fuera && Partes(fuera + {old(corriendo)})
    {
      ghost var l := Lugar();
      total := nuevoTotal;
      DejarDeCorrer(Simbolos(), l, fuera);
      corriendo := null;
      assert Lugar() == l.(corriendo := null);
    }

    /** The running trainer stops running, and is in transit. */
    method Detener() returns (t: Jugador)
      requires Valid({}) && corriendo != null
      modifies `corriendo, `total
      ensures t == old(corriendo) && Lugar() == old(Lugar()).(corriendo := null) && EnTransito(t, {}, old(total))
    {
      t := corriendo;
      Desplegar({});
      ghost var l := Lugar();
      ghost var nuevo := TotalDetenido(colas, caps, l);
      PararDeCorrer({}, nuevo);
      Plegar({} + {t});
    }

    /** The running trainer leaves: its pokemon are handed on and it leaves the system. */
    method DesconectarCorriendo(rotos: set<int>) returns (ghost caidos: set<Jugador>)
      requires Valid({}) && corriendo != null
      modifies `bloqueados, `listos, `corriendo, `sistema, `listaDeadlock, `caps
      modifies `colas, `total, `esperan, sistema, pokenests
      ensures Valid({}) && total == old(total) && corriendo == null && listaDeadlock == []
      ensures old(corriendo) !in sistema && |sistema| < |old(sistema)|
      ensures old(corriendo) !in caidos && Quedaron(old(sistema), caidos + {old(corriendo)}, sistema)
      ensures Avance(old(Lugar()).(corriendo := null), Lugar())
      ensures Suertes(Simbolos(), SinCorrer(old(Ahora())), Ahora(), rotos, {old(corriendo)})
      ensures caidos == {} ==>
        Repartidos(Simbolos(), SinCorrer(old(Ahora())).(deadlock := []), old(corriendo.pokemonCapturados),
                   ConSistema(Ahora(), old(sistema)))
    {
      ghost var x0 := Ahora();
      var t := Detener();
      assert Ahora() == SinCorrer(x0);
      caidos := Soltar(t, {}, rotos);
    }

    // -------------------------------------------------------------- arriving and running

    method Registrar(t: Jugador)
      requires Partes({}) && t !in sistema && EstaListo(t) && t.pokemonCapturados == [] && t.numero == cantJugadores + 1
      requires forall x :: x in sistema ==> x.socket != t.socket
      modifies `cantJugadores, `sistema, `caps
      ensures Partes({t}) && Lugar() == old(Lugar()).(sistema := old(sistema) + [t]) && caps == old(caps)[t := []]
      ensures cantJugadores == old(cantJugadores) + 1
    {
      ghost var l := Lugar();
      EntrarAlSistema(Simbolos(), l, {}, t);
      assert {} + {t} == {t};
      cantJugadores := cantJugadores + 1;
      caps := caps[t := []];
      sistema := sistema + [t];
      assert Lugar() == l.(sistema := sistema);
    }

    method RegistrarListo(t: Jugador, ghost nuevoTotal: multiset<Pokemon>)
      requires Partes({}) && t !in sistema && EstaListo(t) && t.pokemonCapturados == [] && t.numero == cantJugadores + 1
      requires forall x :: x in sistema ==> x.socket != t.socket
      modifies `cantJugadores, `sistema, `caps, `listos, `total
      ensures Partes({}) && Lugar() == old(Lugar()).(sistema := old(sistema) + [t], listos := old(listos) + [t])
      ensures caps == old(caps)[t := []] && cantJugadores == old(cantJugadores) + 1 && total == nuevoTotal
    {
      Registrar(t);
      PonerListo(t, {t}, nuevoTotal);
      assert {t} - {t} == {};
    }

    method Ingresar(t: Jugador)
      requires Valid({}) && t !in sistema && EstaListo(t) && t.pokemonCapturados == [] && t.numero == cantJugadores + 1
      requires forall x :: x in sistema ==> x.socket != t.socket
      modifies `cantJugadores, `sistema, `caps, `listos, `total
      ensures Valid({}) && total == old(total) && cantJugadores == old(cantJugadores) + 1 && caps == old(caps)[t := []]
      ensures Lugar() == old(Lugar()).(sistema := old(sistema) + [t], listos := old(listos) + [t])
    {
      Desplegar({});
      TotalConNuevo(Simbolos(), colas, caps, Lugar(), t);
      RegistrarListo(t, total);
      Plegar({});
    }

    /** A trainer connects: it joins the system with the next arrival number, ready at the tail. */
    method Conectar(simbolo: char, socket: int) returns (t: Jugador)
      requires Valid({}) && forall x :: x in sistema ==> x.socket != socket
      modifies `cantJugadores, `sistema, `caps, `listos, `total
      ensures Valid({}) && total == old(total) && fresh(t) && t.simbolo == simbolo && t.socket == socket
      ensures t.numero == cantJugadores == old(cantJugadores) + 1 && caps == old(caps)[t := []]
      ensures Lugar() == old(Lugar()).(sistema := old(sistema) + [t], listos := old(listos) + [t])
    {
      t := new Jugador(simbolo, socket, cantJugadores + 1);
      Ingresar(t);
    }

    method MoverACorrer(k: nat)
      requires Partes({}) && corriendo == null && k < |listos|
      modifies `listos, `corriendo
      ensures Partes({}) && Lugar() == old(Lugar()).(listos := SinIndice(old(listos), k), corriendo := old(listos)[k])
    {
      ghost var l := Lugar();
      var t := listos[k];
      assert t in listos;
      SacarListo(Simbolos(), l, {}, k);
      PonerACorrer(Simbolos(), l.(listos := SinIndice(listos, k)), {} + {t}, t);
      EntraYSale({}, t);
      listos := SinIndice(listos, k);
      corriendo := t;
      assert Lugar() == l.(listos := listos, corriendo := t);
    }

    /** The k-th ready trainer is dispatched; round robin takes the first, the distance policy
        the one it picks. */
    method Despachar(k: nat)
      requires Valid({}) && corriendo == null && k < |listos|
      modifies `listos, `corriendo
      ensures Valid({}) && total == old(total)
      ensures Lugar() == old(Lugar()).(listos := SinIndice(old(listos), k), corriendo := old(listos)[k])
    {
      Desplegar({});
      TotalDespachado(colas, caps, Lugar(), k);
      MoverACorrer(k);
      Plegar({});
    }

    method DejarYListo(ghost nuevoTotal: multiset<Pokemon>)
      requires Partes({}) && corriendo != null
      modifies `listos, `corriendo, `total
      ensures Partes({}) && total == nuevoTotal
      ensures Lugar() == old(Lugar()).(listos := old(listos) + [old(corriendo)], corriendo := null)
    {
      var t: Jugador := corriendo;
      assert EstaListo(t);
      PararDeCorrer({}, nuevoTotal);
      PonerListo(t, {} + {t}, nuevoTotal);
      EntraYSale({}, t);
    }

    /** The running trainer ends its turn and is ready again, at the tail. */
    method Reencolar()
      requires Valid({}) && corriendo != null
      modifies `listos, `corriendo, `total
      ensures Valid({}) && total == old(total)
      ensures Lugar() == old(Lugar()).(listos := old(listos) + [old(corriendo)], corriendo := null)
    {
      Desplegar({});
      TotalReencolado(colas, caps, Lugar());
      DejarYListo(total);
      Plegar({});
    }

    // -------------------------------------------------------------- capturing

    /** Takes the first free pokemon and sends it; if the send fails it goes back, at the tail. */
    method EntregarDePokenest(i: nat, envioBien: bool) returns (p: Pokemon, ok: bool)
      requires PokenestsBien() && i < |pokenests| && colas[i] != []
      modifies pokenests[i], `colas
      ensures PokenestsBien() && p == old(colas[i])[0] && EsDeAca(p) && ok == envioBien
      ensures colas == old(colas)[i := if ok then old(colas[i])[1..] else old(colas[i])[1..] + [p]]
    {
      var nido := pokenests[i];
      p := nido.colaDePokemon[0];
      assert p in colas[i];
      nido.colaDePokemon := nido.colaDePokemon[1..];
      ok := envioBien;
      if ok {
        nido.cantPokemon := nido.cantPokemon - 1;
      } else {
        nido.colaDePokemon := nido.colaDePokemon + [p];
      }
      colas := colas[i := nido.colaDePokemon];
    }

    /** The running trainer keeps a pokemon; nobody else notices. */
    method Guardar(p: Pokemon)
      requires Partes({}) && corriendo != null && EsDeAca(p)
      modifies corriendo, `caps
      ensures Partes({}) && caps == old(caps)[corriendo := old(corriendo.pokemonCapturados) + [p]]
      ensures !corriendo.conocePokenest
    {
      corriendo.pokemonCapturados := corriendo.pokemonCapturados + [p];
      corriendo.conocePokenest := false;
      caps := caps[corriendo := corriendo.pokemonCapturados];
      forall i | 0 <= i < |bloqueados|
        ensures ColaBien(Simbolos()[i], bloqueados[i], sistema, {})
      {
        assert old(ColaBien(Simbolos()[i], bloqueados[i], sistema, {}));
      }
      forall x | x in sistema && x !in {}
        ensures EnAlgunLugar(Simbolos(), Lugar(), x)
      {
        assert old(EnAlgunLugar(Simbolos(), Lugar(), x));
      }
    }

    method Repartida(i: nat, envioBien: bool) returns (p: Pokemon, ok: bool)
      requires Partes({}) && i < |pokenests| && colas[i] != []
      modifies pokenests[i], `colas
      ensures Partes({}) && p == old(colas[i])[0] && EsDeAca(p) && ok == envioBien
      ensures colas == old(colas)[i := if ok then old(colas[i])[1..] else old(colas[i])[1..] + [p]]
    {
      ghost var l := Lugar();
      p, ok := EntregarDePokenest(i, envioBien);
      assert Lugar() == l;
      assert LugaresBien(Simbolos(), l, {});
      assert SistemaBien();
    }

    method RepartidaYGuardada(i: nat, envioBien: bool) returns (ok: bool)
      requires Partes({}) && corriendo != null && i < |pokenests| && colas[i] != []
      modifies pokenests[i], corriendo, `colas, `caps
      ensures Partes({}) && Reparto(old(colas), old(caps), corriendo, i, colas, caps, ok) && ok == envioBien
      ensures corriendo.conocePokenest == (!ok && old(corriendo.conocePokenest))
    {
      var p;
      p, ok := Repartida(i, envioBien);
      if ok {
        Guardar(p);
      }
    }

    /** A capture when a pokemon is free: the running trainer gets it, or the send fails and
        the pokemon goes back to the tail of its queue. */
    method CapturarLibre(i: nat, envioBien: bool) returns (desconectado: bool)
      requires Valid({}) && corriendo != null && i < |pokenests| && i < |colas| && colas[i] != []
      modifies pokenests[i], corriendo, `colas, `caps
      ensures Valid({}) && Reparto(old(colas), old(caps), corriendo, i, colas, caps, !desconectado)
      ensures desconectado == !envioBien
      ensures corriendo.conocePokenest == (desconectado && old(corriendo.conocePokenest))
    {
      Desplegar({});
      assert corriendo in caps && caps[corriendo] == corriendo.pokemonCapturados;
      ghost var l, colas0, caps0 := Lugar(), colas, caps;
      var ok := RepartidaYGuardada(i, envioBien);
      assert Lugar() == l;
      CapturaConserva(Simbolos(), colas0, caps0, l, i, colas, caps, ok);
      Plegar({});
      desconectado := !ok;
    }

    /** The running trainer stops, marked as blocked and in transit. */
    method PararYMarcar(simbolo: char, ghost nuevoTotal: multiset<Pokemon>) returns (t: Jugador)
      requires Partes({}) && corriendo != null
      modifies corriendo, `corriendo, `total
      ensures t == old(corriendo) && Partes({t}) && EstaBloqueado(t, simbolo) && total == nuevoTotal
      ensures !t.conocePokenest
      ensures Lugar() == old(Lugar()).(corriendo := null)
    {
      t := corriendo;
      PararDeCorrer({}, nuevoTotal);
      assert {} + {t} == {t};
      Marcar(t, simbolo, {t});
    }

    method PonerEnCola(t: Jugador, i: nat)
      requires Partes({t}) && i < |bloqueados| && i < |pokenests| && EstaBloqueado(t, pokenests[i].simbolo)
      requires i < |colas| && colas[i] == []
      modifies `bloqueados, `esperan
      ensures Partes({}) && esperan == old(esperan) + 1
      ensures Lugar() == old(Lugar()).(bloqueados := old(bloqueados)[i := old(bloqueados[i]) + [t]])
    {
      ghost var l := Lugar();
      EntrarBloqueados(Simbolos(), l, {t}, t, i);
      assert {t} - {t} == {};
      bloqueados, esperan := bloqueados[i := bloqueados[i] + [t]], esperan + 1;
      assert Lugar() == l.(bloqueados := bloqueados);
    }

    method PararYEncolar(i: nat)
      requires Partes({}) && corriendo != null && i < |bloqueados| && i < |colas| && colas[i] == []
      modifies corriendo, `corriendo, `bloqueados, `total, `esperan
      ensures Partes({}) && EstaBloqueado(old(corriendo), pokenests[i].simbolo) && esperan == old(esperan) + 1
      ensures !old(corriendo).conocePokenest
      ensures Lugar() ==
        old(Lugar()).(bloqueados := old(bloqueados)[i := old(bloqueados[i]) + [old(corriendo)]], corriendo := null)
      ensures total == old(total)
    {
      var t := PararYMarcar(pokenests[i].simbolo, total);
      PonerEnCola(t, i);
    }

    /** With nothing free the running trainer blocks, at the tail of the pokenest's queue. */
    method BloquearJugador(i: nat)
      requires Valid({}) && corriendo != null && i < |bloqueados| && i < |pokenests| && i < |colas| && colas[i] == []
      modifies corriendo, `corriendo, `bloqueados, `total, `esperan
      ensures Valid({}) && total == old(total) && EstaBloqueado(old(corriendo), pokenests[i].simbolo)
      ensures !old(corriendo).conocePokenest
      ensures Lugar() ==
        old(Lugar()).(bloqueados := old(bloqueados)[i := old(bloqueados[i]) + [old(corriendo)]], corriendo := null)
    {
      Desplegar({});
      TotalBloqueado(colas, caps, Lugar(), i);
      CuantosCambia(bloqueados, i, bloqueados[i] + [corriendo]);
      PararYEncolar(i);
      Plegar({});
    }

    /** Marks a trainer in transit as blocked on a pokenest. */
    method Marcar(t: Jugador, simbolo: char, ghost fuera: set<Jugador>)
      requires Partes(fuera) && t in fuera
      modifies t
      ensures Partes(fuera) && EstaBloqueado(t, simbolo) && !t.conocePokenest
    {
      AjenoATodos(Simbolos(), Lugar(), fuera, t);
      t.estado := 1;
      t.peticion := simbolo;
      t.conocePokenest := false;
      forall i | 0 <= i < |bloqueados|
        ensures ColaBien(Simbolos()[i], bloqueados[i], sistema, fuera)
      {
        assert old(ColaBien(Simbolos()[i], bloqueados[i], sistema, fuera));
      }
      forall x | x in sistema && x !in fuera
        ensures EnAlgunLugar(Simbolos(), Lugar(), x)
      {
        assert old(EnAlgunLugar(Simbolos(), Lugar(), x));
      }
    }

    method FijarDeadlock(lista: seq<Jugador>, ghost fuera: set<Jugador>)
      requires Valid(fuera)
      modifies `listaDeadlock
      ensures Valid(fuera) && listaDeadlock == lista
    {
      listaDeadlock := lista;
    }

    /** The mirror of a pokenest's queue. */
    lemma Espejo(i: nat)
      requires Valid({}) && i < |pokenests|
      ensures |colas| == |pokenests| == |bloqueados| && pokenests[i].colaDePokemon == colas[i]
      ensures pokenests[i].cantPokemon == |colas[i]|
    {
      assert Abrir(Invariante, 0);
    }

    /** What a capture request does: with a pokemon free the trainer gets it or the send fails;
        with none free it blocks, unless the send fails. */
    ghost predicate Captura(l: Lugares, colas0: seq<seq<Pokemon>>, caps0: Caps, i: nat, desconectado: bool)
      reads `bloqueados, `listos, `corriendo, `sistema, `colas, `caps
    {
      && i < |colas0| && i < |l.bloqueados|
      && if colas0[i] != [] then Reparto(colas0, caps0, l.corriendo, i, colas, caps, !desconectado) && Lugar() == l
         else
           && colas == colas0 && caps == caps0 && l.corriendo != null
           && Lugar() == if desconectado then l
                         else l.(bloqueados := l.bloqueados[i := l.bloqueados[i] + [l.corriendo]], corriendo := null)
    }

    /** The running trainer asks for a pokemon. */
    method Capturar(simbolo: char, envioBien: bool) returns (desconectado: bool)
      requires Valid({}) && corriendo != null && Referencia(simbolo) >= 0
      modifies pokenests, corriendo, `corriendo, `bloqueados, `colas, `caps, `total, `esperan
      ensures Valid({}) && total == old(total)
      ensures Captura(old(Lugar()), old(colas), old(caps), Referencia(simbolo), desconectado)
      ensures desconectado == !envioBien && (!desconectado ==> !old(corriendo).conocePokenest)
    {
      var i := Referencia(simbolo);
      Espejo(i);
      if |pokenests[i].colaDePokemon| > 0 {
        ghost var l := Lugar();
        desconectado := CapturarLibre(i, envioBien);
        assert Lugar() == l;
      } else {
        desconectado := !envioBien;
        if !desconectado {
          BloquearJugador(i);
        }
      }
    }

    /** The end of a turn: a trainer that disconnected leaves, one still running goes back to
        the ready list, and one that blocked stays in its queue. */
    method FinDeTurno(desconectado: bool, rotos: set<int>) returns (ghost caidos: set<Jugador>)
      requires Valid({}) && (desconectado ==> corriendo != null)
      modifies `bloqueados, `listos, `corriendo, `sistema, `listaDeadlock, `caps
      modifies `colas, `total, `esperan, sistema, pokenests
      ensures Valid({}) && total == old(total) && corriendo == null && old(listos) <= listos
      ensures !desconectado ==> Ahora() == Reencolado(old(Ahora()))
      ensures desconectado ==> Quedaron(old(sistema), caidos + {old(corriendo)}, sistema) && listaDeadlock == []
      ensures desconectado ==> old(corriendo) !in caidos && old(corriendo) !in sistema
      ensures desconectado ==> |sistema| < |old(sistema)| && Avance(old(Lugar()).(corriendo := null), Lugar())
      ensures desconectado ==> Suertes(Simbolos(), SinCorrer(old(Ahora())), Ahora(), rotos, {old(corriendo)})
      ensures desconectado && caidos == {} ==>
        Repartidos(Simbolos(), SinCorrer(old(Ahora())).(deadlock := []), old(corriendo.pokemonCapturados),
                   ConSistema(Ahora(), old(sistema)))
    {
      caidos := {};
      if desconectado {
        caidos := DesconectarCorriendo(rotos);
      } else if corriendo != null {
        ghost var x := Ahora();
        Reencolar();
        assert Ahora() == Reencolado(x);
      }
    }

    // -------------------------------------------------------------- a blocked trainer leaves

    /** Takes a blocked trainer out of the list of all trainers and then out of its queue. */
    method QuitarDeAmbas(j: Jugador, k: nat, ghost i: nat)
      requires SimbolosBien(Simbolos()) && LugaresBien(Simbolos(), Lugar(), {}) && i < |bloqueados|
      requires j in bloqueados[i]
      requires k < |sistema| && sistema[k] == j
      modifies `sistema, `bloqueados
      ensures Lugar() == SinJugadorEn(old(Lugar()), i, j).(sistema := SinIndice(old(sistema), k))
    {
      ghost var l := Lugar();
      sistema := SinIndice(sistema, k);
      BorrarJugadorDeColaBloqueados(j);
      SoloEstabaEn(Simbolos(), l, {}, i, j, bloqueados);
    }

    method QuitarBien(j: Jugador, k: nat, ghost i: nat)
      requires SimbolosBien(Simbolos()) && LugaresBien(Simbolos(), Lugar(), {}) && SistemaBien()
      requires k < |sistema| && sistema[k] == j && i < |bloqueados| && j in bloqueados[i]
      modifies `sistema, `bloqueados
      ensures LugaresBien(Simbolos(), Lugar(), {}) && SistemaBien()
      ensures Lugar() == SinJugadorEn(old(Lugar()), i, j).(sistema := SinIndice(old(sistema), k))
    {
      SalirDeTodo(Simbolos(), Lugar(), i, j, k);
      QuitarDeAmbas(j, k, i);
    }

    method SacarDelMapa(j: Jugador, k: nat, ghost i: nat, ghost nuevoTotal: multiset<Pokemon>)
      requires Partes({}) && k < |sistema| && sistema[k] == j && i < |bloqueados| && j in bloqueados[i] && esperan > 0
      modifies `sistema, `bloqueados, `total, `esperan
      ensures Partes({}) && total == nuevoTotal && esperan == old(esperan) - 1
      ensures Lugar() == SinJugadorEn(old(Lugar()), i, j).(sistema := SinIndice(old(sistema), k))
    {
      total, esperan := nuevoTotal, esperan - 1;
      assert colas[i] == [];
      QuitarBien(j, k, i);
    }

    method SacarBloqueadoDelMapa(j: Jugador, k: nat)
      requires Valid({}) && k < |sistema| && sistema[k] == j && j.estado == 1
      modifies `sistema, `bloqueados, `total, `esperan
      ensures Valid({}) && old(total) == total + multiset(j.pokemonCapturados) && sistema == SinIndice(old(sistema), k)
      ensures old(0 <= Referencia(j.peticion) < |bloqueados|)
      ensures bloqueados == SinJugadorEn(old(Lugar()), Referencia(j.peticion), j).bloqueados
      ensures listos == old(listos) && corriendo == old(corriendo) && esperan < old(esperan)
    {
      BloqueadoEnSuCola(j, {});
      Desplegar({});
      ghost var l, i := Lugar(), Referencia(j.peticion);
      ghost var nuevo := TotalSinJugador(colas, caps, l, i, j);
      LargoSinJugador(l.bloqueados[i], j);
      CuantosCambia(l.bloqueados, i, SinJugador(l.bloqueados[i], j));
      SacarDelMapa(j, k, i, nuevo);
      assert Lugar() == SinJugadorEn(l, i, j).(sistema := SinIndice(l.sistema, k));
      Plegar({});
    }

    lemma SocketsDistintos(k: nat)
      requires Valid({}) && k < |sistema|
      ensures forall x :: x in SinIndice(sistema, k) <==> x in sistema && x != sistema[k]
      ensures forall x :: x in SinIndice(sistema, k) ==> x.socket != sistema[k].socket
    {
      assert Abrir(Invariante, 0);
      DistintosSinIndice(sistema, k);
    }

    /** A blocked trainer's socket closed: the trainer leaves the system and its queue, and
        its pokemon are handed on. Nobody with that socket is left, so the second removal by
        socket of the original finds nobody. */
    method DesconectarBloqueado(k: nat, rotos: set<int>) returns (ghost caidos: set<Jugador>)
      requires Valid({}) && k < |sistema| && sistema[k].estado == 1
      modifies `bloqueados, `listos, `sistema, `listaDeadlock, `caps, `colas, `total, `esperan, sistema, pokenests
      ensures Valid({}) && total == old(total) && listaDeadlock == []
      ensures |sistema| < |old(sistema)| && old(sistema[k]) !in sistema
      ensures old(sistema[k]) !in caidos && Quedaron(old(sistema), caidos + {old(sistema[k])}, sistema)
      ensures forall t :: t in sistema ==> t.socket != old(sistema[k]).socket
      ensures old(0 <= Referencia(sistema[k].peticion) < |bloqueados|)
      ensures Avance(SinJugadorEn(old(Lugar()), old(Referencia(sistema[k].peticion)), old(sistema[k])), Lugar())
      ensures Suertes(Simbolos(), SinBloqueado(old(Ahora()), old(Referencia(sistema[k].peticion)), old(sistema[k])),
                      Ahora(), rotos, {old(sistema[k])})
      ensures caidos == {} ==>
        Repartidos(Simbolos(),
                   SinBloqueado(old(Ahora()), old(Referencia(sistema[k].peticion)), old(sistema[k])).(deadlock := []),
                   old(sistema[k].pokemonCapturados), ConSistema(Ahora(), old(sistema)))
      ensures Quedan(old(bloqueados), old(sistema[k]), bloqueados)
    {
      var j := sistema[k];
      ghost var l0, r := Lugar(), Referencia(sistema[k].peticion);
      ghost var x0, cap := Ahora(), j.pokemonCapturados;
      CapturadosDeAca(j, {});
      SoloEnSuCola(j);
      SocketsDistintos(k);
      SacarBloqueadoDelMapa(j, k);
      FijarDeadlock([], {});
      ghost var x1, l1 := Ahora(), Lugar();
      assert x1 == SinBloqueado(x0, r, j).(deadlock := [], l := SinJugadorEn(l0, r, j).(sistema := sistema));
      caidos := ExpropiarPokemones2(j.pokemonCapturados, {}, rotos);
      SuertesDeLosOtros(Simbolos(), SinBloqueado(x0, r, j), x1, Ahora(), rotos, j);
      QuedanTras(l0, r, j, l1, Lugar());
      SigueSiQuedo(l1.sistema, caidos, sistema, j);
      QuedaronSinUno(l0.sistema, j, l1.sistema);
      QuedaronTrans(l0.sistema, {j}, l1.sistema, caidos, sistema);
      DesdeAntes(SinJugadorEn(l0, r, j), l1.sistema, Lugar());
      if caidos == {} {
        RepartidosConOtros(Simbolos(), x1, cap, Ahora(), l0.sistema);
      }
    }
  }

  /** Out of its queue and out of the system, a blocked trainer leaves no trace. */
  lemma SalirDeTodo(ss: seq<char>, l: Lugares, i: nat, j: Jugador, k: nat)
    requires SimbolosBien(ss) && LugaresBien(ss, l, {}) && Distintos(l.sistema)
    requires k < |l.sistema| && l.sistema[k] == j && i < |ss| && j in l.bloqueados[i]
    ensures LugaresBien(ss, SinJugadorEn(l, i, j).(sistema := SinIndice(l.sistema, k)), {})
    ensures Distintos(SinIndice(l.sistema, k)) && forall x :: x in SinIndice(l.sistema, k) ==> x in l.sistema
    ensures forall x :: x in SinJugador(l.bloqueados[i], j) ==> x in l.bloqueados[i]
  {
    SinJugadorMiembros(l.bloqueados[i], j);
    SacarDeCola(ss, l, {}, i, j, SinJugador(l.bloqueados[i], j));
    DistintosSinIndice(l.sistema, k);
    SalirDelSistema(ss, SinJugadorEn(l, i, j), {} + {j}, j, SinIndice(l.sistema, k));
    EntraYSale({}, j);
  }

  lemma AjenoAlQueCorre(ss: seq<char>, l: Lugares, fuera: set<Jugador>)
    requires SimbolosBien(ss) && LugaresBien(ss, l, fuera) && l.corriendo != null
    ensures l.corriendo !in l.listos && forall i :: 0 <= i < |l.bloqueados| ==> l.corriendo !in l.bloqueados[i]
  {
  }

  /** The first pokemon of queue i went to the trainer, or back to the tail. */
  ghost predicate Reparto(colas: seq<seq<Pokemon>>, caps: Caps, t: Jugador?, i: nat, colas': seq<seq<Pokemon>>,
                          caps': Caps, ok: bool) {
    && i < |colas| && colas[i] != [] && t != null && t in caps
    && if ok then colas' == colas[i := colas[i][1..]] && caps' == caps[t := caps[t] + [colas[i][0]]]
       else colas' == colas[i := colas[i][1..] + [colas[i][0]]] && caps' == caps
  }

  /** The first free pokemon of a pokenest, sent back or kept by the running trainer, is still
      in the total. */
  lemma TotalCapturado(colas: seq<seq<Pokemon>>, caps: Caps, l: Lugares, i: nat, colas': seq<seq<Pokemon>>,
                       caps': Caps, ok: bool)
    requires Reparto(colas, caps, l.corriendo, i, colas', caps', ok)
    requires l.corriendo !in l.listos && forall j :: 0 <= j < |l.bloqueados| ==> l.corriendo !in l.bloqueados[j]
    ensures Total(colas', caps', l) == Total(colas, caps, l)
  {
    var q, t := colas[i], l.corriendo;
    assert q == [q[0]] + q[1..];
    if ok {
      var c := caps[t] + [q[0]];
      LibresCambia(colas, i, q[1..]);
      Cancelar(Libres(colas'), multiset{q[0]}, multiset(q[1..]), Libres(colas));
      SumaAjena(caps, l.listos, t, c);
      SumaColasAjena(caps, l.bloqueados, t, c);
      PasarDeMano(Libres(colas'), multiset{q[0]}, Suma(caps, l.listos), SumaColas(caps, l.bloqueados),
                  multiset(caps[t]));
    } else {
      LibresCambia(colas, i, q[1..] + [q[0]]);
      Cancelar(Libres(colas), multiset{}, multiset(q), Libres(colas'));
    }
  }

  lemma CapturaConserva(ss: seq<char>, colas: seq<seq<Pokemon>>, caps: Caps, l: Lugares, i: nat,
                        colas': seq<seq<Pokemon>>, caps': Caps, ok: bool)
    requires SimbolosBien(ss) && LugaresBien(ss, l, {}) && Reparto(colas, caps, l.corriendo, i, colas', caps', ok)
    ensures Total(colas', caps', l) == Total(colas, caps, l)
  {
    AjenoAlQueCorre(ss, l, {});
    TotalCapturado(colas, caps, l, i, colas', caps', ok);
  }

  lemma PasarDeMano<T>(x: multiset<T>, p: multiset<T>, a: multiset<T>, b: multiset<T>, c: multiset<T>)
    ensures x + a + b + (c + p) == (x + p) + a + b + c
  {
  }

  lemma TotalBloqueado(colas: seq<seq<Pokemon>>, caps: Caps, l: Lugares, i: nat)
    requires l.corriendo != null && i < |l.bloqueados|
    ensures var qs := l.bloqueados[i := l.bloqueados[i] + [l.corriendo]];
      Total(colas, caps, l.(bloqueados := qs, corriendo := null)) == Total(colas, caps, l)
  {
    var q, t := l.bloqueados[i], l.corriendo;
    SumaColasCambia(caps, l.bloqueados, i, q + [t]);
    SumaUltimo(caps, q, t);
    var a, b := SumaColas(caps, l.bloqueados), SumaColas(caps, l.bloqueados[i := q + [t]]);
    assert b + Suma(caps, q) == a + (Suma(caps, q) + De(caps, t));
    CancelarFin(a, Suma(caps, q), De(caps, t), b);
  }

  lemma TotalReencolado(colas: seq<seq<Pokemon>>, caps: Caps, l: Lugares)
    requires l.corriendo != null
    ensures Total(colas, caps, l.(listos := l.listos + [l.corriendo], corriendo := null)) == Total(colas, caps, l)
  {
    var nuevo := TotalDetenido(colas, caps, l);
    TotalConListo(colas, caps, l.(corriendo := null), l.corriendo);
    var listos := l.listos + [l.corriendo];
    assert l.(corriendo := null).(listos := listos) == l.(listos := listos, corriendo := null);
  }

  lemma TotalConNuevo(ss: seq<char>, colas: seq<seq<Pokemon>>, caps: Caps, l: Lugares, t: Jugador)
    requires LugaresBien(ss, l, {}) && t !in l.sistema
    ensures Total(colas, caps[t := []], l.(sistema := l.sistema + [t], listos := l.listos + [t])) ==
      Total(colas, caps, l)
  {
    EntrarAlSistema(ss, l, {}, t);
    var l1 := l.(sistema := l.sistema + [t]);
    var nuevo := TotalDelPremiado(ss, colas, caps, l1, {} + {t}, t, [], caps[t := []], l1.(listos := l1.listos + [t]));
    assert l1.(listos := l1.listos + [t]) == l.(sistema := l.sistema + [t], listos := l.listos + [t]);
  }

  lemma TotalDespachado(colas: seq<seq<Pokemon>>, caps: Caps, l: Lugares, k: nat)
    requires l.corriendo == null && k < |l.listos|
    ensures Total(colas, caps, l.(listos := SinIndice(l.listos, k), corriendo := l.listos[k])) == Total(colas, caps, l)
  {
    var a, t, b := l.listos[..k], l.listos[k], l.listos[k + 1..];
    assert l.listos == a + ([t] + b);
    SumaConcat(caps, a, [t] + b);
    SumaConcat(caps, a, b);
    assert Suma(caps, [t] + b) == De(caps, t) + Suma(caps, b);
    Repartir(Libres(colas), Suma(caps, a), De(caps, t), Suma(caps, b), SumaColas(caps, l.bloqueados));
  }

  lemma Repartir<T>(x: multiset<T>, a: multiset<T>, t: multiset<T>, b: multiset<T>, c: multiset<T>)
    ensures (x + (a + (t + b)) + c) + multiset{} == (x + (a + b) + c) + t
  {
  }

  lemma TotalDetenido(colas: seq<seq<Pokemon>>, caps: Caps, l: Lugares) returns (nuevo: multiset<Pokemon>)
    requires l.corriendo != null
    ensures nuevo == Total(colas, caps, l.(corriendo := null))
    ensures Total(colas, caps, l) == nuevo + De(caps, l.corriendo)
  {
    nuevo := Total(colas, caps, l.(corriendo := null));
  }

  ghost function SinJugadorEn(l: Lugares, i: nat, t: Jugador): Lugares
    requires i < |l.bloqueados|
  {
    l.(bloqueados := l.bloqueados[i := SinJugador(l.bloqueados[i], t)])
  }

  /** The trainer that was running, if any, is ready again, at the tail. */
  function Reencolado(x: Instante): Instante {
    if x.l.corriendo == null then x else x.(l := x.l.(listos := x.l.listos + [x.l.corriendo], corriendo := null))
  }

  /** The map with nobody running. */
  function SinCorrer(x: Instante): Instante {
    x.(l := x.l.(corriendo := null))
  }

  /** The map without a blocked trainer in its queue. */
  ghost function SinBloqueado(x: Instante, i: nat, t: Jugador): Instante
    requires i < |x.l.bloqueados|
  {
    x.(l := SinJugadorEn(x.l, i, t))
  }

  /** Taking a trainer out of every queue only changes the one it was in. */
  lemma SoloEstabaEn(ss: seq<char>, l: Lugares, fuera: set<Jugador>, i: nat, t: Jugador, qs: seq<seq<Jugador>>)
    requires SimbolosBien(ss) && LugaresBien(ss, l, fuera) && i < |ss| && t in l.bloqueados[i]
    requires |qs| == |l.bloqueados| && forall j :: 0 <= j < |qs| ==> qs[j] == SinJugador(l.bloqueados[j], t)
    ensures qs == l.bloqueados[i := SinJugador(l.bloqueados[i], t)]
  {
    forall j | 0 <= j < |qs| && j != i
      ensures qs[j] == l.bloqueados[j]
    {
      UnaSolaCola(ss, l, fuera, i, j, t);
      SinJugadorMiembros(l.bloqueados[j], t);
    }
  }

  lemma TotalSinJugador(colas: seq<seq<Pokemon>>, caps: Caps, l: Lugares, i: nat, t: Jugador)
    returns (nuevo: multiset<Pokemon>)
    requires i < |l.bloqueados| && SinRepetidos(l.bloqueados[i]) && t in l.bloqueados[i] && t in caps
    ensures nuevo == Total(colas, caps, SinJugadorEn(l, i, t))
    ensures Total(colas, caps, l) == nuevo + multiset(caps[t])
  {
    var q := SinJugador(l.bloqueados[i], t);
    nuevo := Total(colas, caps, SinJugadorEn(l, i, t));
    SumaColasCambia(caps, l.bloqueados, i, q);
    SumaSinJugador(caps, l.bloqueados[i], t);
    var a, b := SumaColas(caps, l.bloqueados), SumaColas(caps, l.bloqueados[i := q]);
    CancelarFin(b, Suma(caps, q), De(caps, t), a);
  }

  lemma CancelarFin<T>(b: multiset<T>, r: multiset<T>, d: multiset<T>, a: multiset<T>)
    requires b + (r + d) == a + r
    ensures a == b + d
  {
    assert r + d == d + r;
    Cancelar(b, d, r, a);
  }

  /** A queue without a trainer, the others in their order. */
  function SinJugador(q: seq<Jugador>, t: Jugador): seq<Jugador> {
    if q == [] then []
    else SinJugador(q[..|q| - 1], t) + (if q[|q| - 1] == t then [] else [q[|q| - 1]])
  }

  lemma {:induction false} SinJugadorMiembros(q: seq<Jugador>, t: Jugador)
    ensures forall x :: x in SinJugador(q, t) <==> x in q && x != t
    ensures SinRepetidos(q) ==> SinRepetidos(SinJugador(q, t))
    ensures t !in q ==> SinJugador(q, t) == q
  {
    if q != [] {
      var r := q[..|q| - 1];
      SinJugadorMiembros(r, t);
      assert q == r + [q[|q| - 1]];
      if SinRepetidos(q) {
        assert q[|q| - 1] !in r && SinRepetidos(r);
      }
    }
  }

  /** The others keep their order: each one's place is the number of others that were before it. */
  lemma {:induction false} SinJugadorConservaOrden(q: seq<Jugador>, t: Jugador, i: nat)
    requires i < |q| && q[i] != t
    ensures var k := |SinJugador(q[..i], t)|; k < |SinJugador(q, t)| && SinJugador(q, t)[k] == q[i]
  {
    var r := q[..|q| - 1];
    if i < |r| {
      assert r[..i] == q[..i];
      SinJugadorConservaOrden(r, t, i);
    }
  }

  /** A trainer that waits once takes with it exactly what it holds. */
  lemma {:induction false} SumaSinJugador(caps: Caps, q: seq<Jugador>, t: Jugador)
    requires SinRepetidos(q) && t in q
    ensures Suma(caps, q) == Suma(caps, SinJugador(q, t)) + De(caps, t)
  {
    var r, x := q[..|q| - 1], q[|q| - 1];
    assert q == r + [x];
    SumaUltimo(caps, r, x);
    if x == t {
      assert t !in r;
      SinJugadorMiembros(r, t);
      assert SinJugador(q, t) == r;
    } else {
      assert t in r && SinJugador(q, t) == SinJugador(r, t) + [x];
      SumaSinJugador(caps, r, t);
      SumaUltimo(caps, SinJugador(r, t), x);
      Alternar(Suma(caps, SinJugador(r, t)), De(caps, t), De(caps, x));
    }
  }

  lemma SumaUltimo(caps: Caps, r: seq<Jugador>, x: Jugador)
    ensures Suma(caps, r + [x]) == Suma(caps, r) + De(caps, x)
  {
    SumaConcat(caps, r, [x]);
    assert Suma(caps, [x]) == De(caps, x);
  }

  lemma Alternar<T>(a: multiset<T>, b: multiset<T>, c: multiset<T>)
    ensures a + b + c == a + c + b
  {
  }

  lemma {:induction false} LargoSinJugador(q: seq<Jugador>, t: Jugador)
    requires SinRepetidos(q)
    ensures |SinJugador(q, t)| == |q| - (if t in q then 1 else 0)
  {
    if q != [] {
      var r := q[..|q| - 1];
      assert q == r + [q[|q| - 1]];
      LargoSinJugador(r, t);
    }
  }

  /** Nothing moves backwards: queues lose trainers only from the front, the ready list only
      grows at the tail, and the system only loses trainers. */
  ghost predicate Avance(l: Lugares, l': Lugares) {
    && |l'.bloqueados| == |l.bloqueados| && l.listos <= l'.listos && l'.corriendo == l.corriendo
    && |l'.sistema| <= |l.sistema| && (forall k :: 0 <= k < |l'.sistema| ==> l'.sistema[k] in l.sistema)
    && forall u {:trigger Abrir(Movimiento, u)} :: Abrir(Movimiento, u) ==>
      forall i :: 0 <= i < |l.bloqueados| ==> EsSufijo(l'.bloqueados[i], l.bloqueados[i])
  }

  /** Nobody waits in queue r, or t was its first and is out of it. */
  ghost predicate PrimerIntento(x: Instante, r: int, y: Instante, t: Jugador?) {
    && 0 <= r < |x.l.bloqueados|
    && if t == null then x.l.bloqueados[r] == [] && y == x
       else
         && x.l.bloqueados[r] != [] && t == x.l.bloqueados[r][0]
         && y == x.(l := x.l.(bloqueados := x.l.bloqueados[r := x.l.bloqueados[r][1..]]))
  }

  /** A pokemon goes to the first trainer waiting in queue r, who becomes ready at the tail, or to
      the tail of pokenest r when nobody is waiting. */
  function Dar(x: Instante, p: Pokemon, r: int): Instante {
    if !(0 <= r < |x.l.bloqueados| && r < |x.colas|) then x
    else if x.l.bloqueados[r] == [] then x.(colas := x.colas[r := x.colas[r] + [p]])
    else
      var q := x.l.bloqueados[r];
      x.(l := x.l.(bloqueados := x.l.bloqueados[r := q[1..]], listos := x.l.listos + [q[0]]),
         caps := x.caps[q[0] := Suyos(x.caps, q[0]) + [p]])
  }

  /** Pokemon are handed out one after another. */
  function DarTodos(ss: seq<char>, x: Instante, ps: seq<Pokemon>): Instante {
    if ps == [] then x
    else
      var p := ps[|ps| - 1];
      Dar(DarTodos(ss, x, ps[..|ps| - 1]), p, IndiceSimbolo(ss, p.pokenest))
  }

  ghost predicate Repartido(x: Instante, p: Pokemon, r: int, y: Instante) {
    forall u {:trigger Abrir(Movimiento, u)} :: Abrir(Movimiento, u) ==>
      0 <= r < |x.l.bloqueados| && r < |x.colas| && y == Dar(x, p, r)
  }

  ghost predicate Repartidos(ss: seq<char>, x: Instante, ps: seq<Pokemon>, y: Instante) {
    forall u {:trigger Abrir(Movimiento, u)} :: Abrir(Movimiento, u) ==> y == DarTodos(ss, x, ps)
  }

  lemma RepartidoAlPrimero(x: Instante, r: int, x1: Instante, t: Jugador, p: Pokemon, y: Instante)
    requires PrimerIntento(x, r, x1, t) && r < |x.colas| && t in x.caps
    requires y == x1.(l := x1.l.(listos := x1.l.listos + [t]), caps := x1.caps[t := x1.caps[t] + [p]])
    ensures Repartido(x, p, r, y)
  {
  }

  lemma RepartidoAlNido(x: Instante, r: int, x1: Instante, p: Pokemon, y: Instante)
    requires PrimerIntento(x, r, x1, null) && r < |x.colas| && y == x1.(colas := x1.colas[r := x1.colas[r] + [p]])
    ensures Repartido(x, p, r, y)
  {
  }

  lemma RepartidosNada(ss: seq<char>, x: Instante)
    ensures Repartidos(ss, x, [], x)
  {
  }

  lemma RepartidosUnoMas(ss: seq<char>, x: Instante, ps: seq<Pokemon>, i: nat, y: Instante, z: Instante)
    requires i < |ps| && Repartidos(ss, x, ps[..i], y) && Repartido(y, ps[i], IndiceSimbolo(ss, ps[i].pokenest), z)
    ensures Repartidos(ss, x, ps[..i + 1], z)
  {
    assert Abrir(Movimiento, 0);
    assert ps[..i + 1][..i] == ps[..i] && ps[..i + 1][i] == ps[i];
  }

  /** The trainer got one pokemon of the pokenest it was waiting for. */
  ghost predicate Recibio(ss: seq<char>, x: Instante, y: Instante, t: Jugador) {
    exists p :: Suyos(y.caps, t) == Suyos(x.caps, t) + [p] && t in ColaEn(ss, x.l.bloqueados, p.pokenest)
  }

  /** What becomes of a trainer while pokemon are handed on, given the sockets whose connection is
      down: taken out of its queue, it leaves the system if its send fails, and otherwise it is
      ready with one pokemon more; not taken out, it stays with what it has. */
  ghost predicate Suerte(ss: seq<char>, x: Instante, y: Instante, rotos: set<int>, t: Jugador) {
    if !Espera(x.l, t) || Espera(y.l, t) then t in y.l.sistema && Suyos(y.caps, t) == Suyos(x.caps, t)
    else if t.socket in rotos then t !in y.l.sistema
    else t in y.l.sistema && t in y.l.listos && Recibio(ss, x, y, t)
  }

  ghost predicate Suertes(ss: seq<char>, x: Instante, y: Instante, rotos: set<int>, salvo: set<Jugador>) {
    forall u {:trigger Abrir(Movimiento, u)} :: Abrir(Movimiento, u) ==>
      forall t :: t in x.l.sistema && t !in salvo ==> Suerte(ss, x, y, rotos, t)
  }

  lemma SuertesQuietas(ss: seq<char>, x: Instante, y: Instante, rotos: set<int>, salvo: set<Jugador>)
    requires y.l.bloqueados == x.l.bloqueados && y.l.sistema == x.l.sistema && y.caps == x.caps
    ensures Suertes(ss, x, y, rotos, salvo)
  {
  }

  lemma SinMirarLista(ss: seq<char>, x: Instante, y: Instante, rotos: set<int>, salvo: set<Jugador>)
    requires Suertes(ss, x.(deadlock := []), y, rotos, salvo)
    ensures Suertes(ss, x, y, rotos, salvo)
  {
    forall t | t in x.l.sistema && t !in salvo
      ensures Suerte(ss, x, y, rotos, t)
    {
      SuerteDe(ss, x.(deadlock := []), y, rotos, salvo, t);
      if Recibio(ss, x.(deadlock := []), y, t) {
        assert Recibio(ss, x, y, t);
      }
    }
  }

  lemma AvanceSinEspera(l: Lugares, l': Lugares, t: Jugador)
    requires Avance(l, l') && Espera(l', t)
    ensures Espera(l, t)
  {
    assert Abrir(Movimiento, 0);
  }

  lemma ColaAvanza(ss: seq<char>, l: Lugares, l': Lugares, c: char, t: Jugador)
    requires Avance(l, l') && t in ColaEn(ss, l'.bloqueados, c)
    ensures t in ColaEn(ss, l.bloqueados, c)
  {
    assert Abrir(Movimiento, 0);
  }

  lemma SuerteTrans(ss: seq<char>, x: Instante, y: Instante, z: Instante, rotos: set<int>, t: Jugador)
    requires Avance(x.l, y.l) && Avance(y.l, z.l) && t in x.l.sistema && Suerte(ss, x, y, rotos, t)
    requires t in y.l.sistema ==> Suerte(ss, y, z, rotos, t)
    ensures Suerte(ss, x, z, rotos, t)
  {
    if Espera(z.l, t) {
      AvanceSinEspera(y.l, z.l, t);
    }
    if Espera(y.l, t) {
      AvanceSinEspera(x.l, y.l, t);
      if !Espera(z.l, t) && t.socket !in rotos {
        var p :| Suyos(z.caps, t) == Suyos(y.caps, t) + [p] && t in ColaEn(ss, y.l.bloqueados, p.pokenest);
        ColaAvanza(ss, x.l, y.l, p.pokenest, t);
      }
    }
  }

  lemma SuertesTrans(ss: seq<char>, x: Instante, y: Instante, z: Instante, rotos: set<int>, salvo: set<Jugador>)
    requires Suertes(ss, x, y, rotos, salvo) && Suertes(ss, y, z, rotos, {}) && Avance(x.l, y.l) && Avance(y.l, z.l)
    ensures Suertes(ss, x, z, rotos, salvo)
  {
    forall t | t in x.l.sistema && t !in salvo
      ensures Suerte(ss, x, z, rotos, t)
    {
      SuerteDe(ss, x, y, rotos, salvo, t);
      if t in y.l.sistema {
        SuerteDe(ss, y, z, rotos, {}, t);
      }
      SuerteTrans(ss, x, y, z, rotos, t);
    }
  }

  lemma SuerteDe(ss: seq<char>, x: Instante, y: Instante, rotos: set<int>, salvo: set<Jugador>, t: Jugador)
    requires Suertes(ss, x, y, rotos, salvo) && t in x.l.sistema && t !in salvo
    ensures Suerte(ss, x, y, rotos, t)
  {
    assert Abrir(Movimiento, 0);
  }

  /** The others wait where they did when the first of a queue is taken out. */
  lemma EsperaSinElPrimero(x: Instante, r: int, x1: Instante, j: Jugador, t: Jugador)
    requires PrimerIntento(x, r, x1, j) && t != j
    ensures Espera(x1.l, t) <==> Espera(x.l, t)
    ensures Espera(x.l, j)
  {
    assert j in x.l.bloqueados[r];
    if Espera(x.l, t) {
      var i :| 0 <= i < |x.l.bloqueados| && t in x.l.bloqueados[i];
      assert t in x1.l.bloqueados[i];
    }
  }

  /** The first of the queue got the pokemon. */
  lemma SuertesAlPrimero(ss: seq<char>, x: Instante, p: Pokemon, x1: Instante, j: Jugador, y: Instante, rotos: set<int>)
    requires PrimerIntento(x, IndiceSimbolo(ss, p.pokenest), x1, j) && j in x1.caps && j in x1.l.sistema
    requires j.socket !in rotos && !Espera(x1.l, j)
    requires y == x1.(l := x1.l.(listos := x1.l.listos + [j]), caps := x1.caps[j := x1.caps[j] + [p]])
    ensures Suertes(ss, x, y, rotos, {})
  {
    forall t | t in x.l.sistema && t !in {}
      ensures Suerte(ss, x, y, rotos, t)
    {
      if t != j {
        EsperaSinElPrimero(x, IndiceSimbolo(ss, p.pokenest), x1, j, t);
      } else {
        assert j in ColaEn(ss, x.l.bloqueados, p.pokenest);
        assert Suyos(y.caps, j) == Suyos(x.caps, j) + [p];
      }
    }
  }

  /** The first of the queue was dropped. */
  lemma SuertesTrasSoltar(ss: seq<char>, x: Instante, r: int, x1: Instante, j: Jugador, y: Instante, rotos: set<int>)
    requires PrimerIntento(x, r, x1, j) && j.socket in rotos && !Espera(x1.l, j)
    requires Suertes(ss, x1, y, rotos, {j}) && j !in y.l.sistema && Avance(x1.l, y.l)
    ensures Suertes(ss, x, y, rotos, {})
  {
    forall t | t in x.l.sistema && t !in {}
      ensures Suerte(ss, x, y, rotos, t)
    {
      assert j in x.l.bloqueados[r];
      if t != j {
        EsperaSinElPrimero(x, r, x1, j, t);
        SuerteDe(ss, x1, y, rotos, {j}, t);
        if Espera(x.l, t) && !Espera(y.l, t) && t.socket !in rotos {
          var p :| Suyos(y.caps, t) == Suyos(x1.caps, t) + [p] && t in ColaEn(ss, x1.l.bloqueados, p.pokenest);
          assert t in ColaEn(ss, x.l.bloqueados, p.pokenest);
        }
      } else if Espera(y.l, j) {
        AvanceSinEspera(x1.l, y.l, j);
      }
    }
  }

  /** One that waited nowhere leaves; the others do not notice. */
  lemma SuertesSinUno(ss: seq<char>, x: Instante, y: Instante, rotos: set<int>, v: Jugador, z: Instante)
    requires Suertes(ss, x, y, rotos, {}) && z == ConSistema(y, z.l.sistema)
    requires forall t :: t in z.l.sistema <==> t in y.l.sistema && t != v
    ensures Suertes(ss, x, z, rotos, {v})
  {
    forall t | t in x.l.sistema && t !in {v}
      ensures Suerte(ss, x, z, rotos, t)
    {
      SuerteDe(ss, x, y, rotos, {}, t);
      assert Espera(z.l, t) == Espera(y.l, t);
    }
  }

  /** The same when it left before. */
  lemma SuertesDeLosOtros(ss: seq<char>, x: Instante, x1: Instante, y: Instante, rotos: set<int>, v: Jugador)
    requires Suertes(ss, x1, y, rotos, {}) && x1 == ConSistema(x, x1.l.sistema).(deadlock := [])
    requires forall t :: t in x1.l.sistema <==> t in x.l.sistema && t != v
    ensures Suertes(ss, x, y, rotos, {v})
  {
    forall t | t in x.l.sistema && t !in {v}
      ensures Suerte(ss, x, y, rotos, t)
    {
      SuerteDe(ss, x1, y, rotos, {}, t);
      assert Espera(x1.l, t) == Espera(x.l, t);
      if Recibio(ss, x1, y, t) {
        assert Recibio(ss, x, y, t);
      }
    }
  }

  /** Whoever is missed had its send fail. */
  lemma CaidosRotos(ss: seq<char>, x: Instante, y: Instante, rotos: set<int>, salvo: set<Jugador>, caidos: set<Jugador>)
    requires Suertes(ss, x, y, rotos, salvo) && Quedaron(x.l.sistema, caidos + salvo, y.l.sistema) && caidos !! salvo
    ensures forall t :: t in caidos ==> t.socket in rotos && Espera(x.l, t)
  {
    assert Abrir(Movimiento, 0);
    forall t | t in caidos
      ensures t.socket in rotos && Espera(x.l, t)
    {
      assert t in caidos + salvo;
      SuerteDe(ss, x, y, rotos, salvo, t);
    }
  }

  lemma TodosLosCaidosRotos(ss: seq<char>, x: Instante, y: Instante, rotos: set<int>, caidos: set<Jugador>)
    requires Suertes(ss, x, y, rotos, {}) && Quedaron(x.l.sistema, caidos, y.l.sistema)
    ensures forall t :: t in caidos ==> t.socket in rotos && Espera(x.l, t)
  {
    assert caidos + {} == caidos;
    CaidosRotos(ss, x, y, rotos, {}, caidos);
  }

  function ConSistema(x: Instante, sistema: seq<Jugador>): Instante {
    x.(l := x.l.(sistema := sistema))
  }

  /** Handing out does not look at who is in the system. */
  lemma {:induction false} DarTodosConOtros(ss: seq<char>, x: Instante, ps: seq<Pokemon>, sistema: seq<Jugador>)
    ensures DarTodos(ss, ConSistema(x, sistema), ps) == ConSistema(DarTodos(ss, x, ps), sistema)
  {
    if ps != [] {
      DarTodosConOtros(ss, x, ps[..|ps| - 1], sistema);
    }
  }

  lemma RepartidosConOtros(ss: seq<char>, x: Instante, ps: seq<Pokemon>, y: Instante, sistema: seq<Jugador>)
    requires Repartidos(ss, x, ps, y)
    ensures Repartidos(ss, ConSistema(x, sistema), ps, ConSistema(y, sistema))
  {
    assert Abrir(Movimiento, 0);
    DarTodosConOtros(ss, x, ps, sistema);
  }

  /** Exactly the trainers in `idos` left the list. */
  ghost predicate Quedaron(antes: seq<Jugador>, idos: set<Jugador>, despues: seq<Jugador>) {
    forall u {:trigger Abrir(Movimiento, u)} :: Abrir(Movimiento, u) ==>
      && (forall t :: t in despues ==> t in antes && t !in idos)
      && (forall t :: t in antes ==> t in idos || t in despues)
      && forall t :: t in idos ==> t in antes
  }

  lemma QuedaronTodos(a: seq<Jugador>)
    ensures Quedaron(a, {}, a)
  {
  }

  lemma QuedaronTrans(a: seq<Jugador>, s: set<Jugador>, b: seq<Jugador>, s': set<Jugador>, c: seq<Jugador>)
    requires Quedaron(a, s, b) && Quedaron(b, s', c)
    ensures Quedaron(a, s + s', c)
  {
    assert Abrir(Movimiento, 0);
  }

  lemma SigueSiQuedo(a: seq<Jugador>, s: set<Jugador>, b: seq<Jugador>, t: Jugador)
    requires Quedaron(a, s, b)
    ensures t in b || t !in a ==> t !in s
    ensures t !in a ==> t !in b
  {
    assert Abrir(Movimiento, 0);
  }

  lemma QuedaronSinUno(a: seq<Jugador>, t: Jugador, b: seq<Jugador>)
    requires t in a && forall x :: x in b <==> x in a && x != t
    ensures Quedaron(a, {t}, b)
  {
  }

  /** With no failed send nobody leaves the system, and a trainer becomes ready when
      somebody was waiting. */
  ghost predicate SinFallos(l: Lugares, l': Lugares, esperaban: bool) {
    && l'.sistema == l.sistema
    && (|l'.listos| == |l.listos| ==> l'.bloqueados == l.bloqueados)
    && (esperaban ==> |l'.listos| > |l.listos|)
  }

  /** Handing out makes somebody ready as soon as somebody waits for one of the pokemon. */
  lemma {:induction false} DarTodosSinFallos(ss: seq<char>, x: Instante, ps: seq<Pokemon>)
    requires |x.colas| == |x.l.bloqueados|
    ensures var y := DarTodos(ss, x, ps);
      && |y.colas| == |x.colas| && |y.l.bloqueados| == |x.l.bloqueados| && |y.l.listos| >= |x.l.listos|
      && SinFallos(x.l, y.l, exists p :: p in ps && ColaEn(ss, x.l.bloqueados, p.pokenest) != [])
  {
    if ps != [] {
      var antes, p := ps[..|ps| - 1], ps[|ps| - 1];
      assert ps == antes + [p];
      DarTodosSinFallos(ss, x, antes);
    }
  }

  lemma RepartidosSinFallos(ss: seq<char>, x: Instante, ps: seq<Pokemon>, y: Instante)
    requires Repartidos(ss, x, ps, y) && |x.colas| == |x.l.bloqueados|
    ensures forall p :: p in ps ==> SinFallos(x.l, y.l, ColaEn(ss, x.l.bloqueados, p.pokenest) != [])
    ensures y.l.sistema == x.l.sistema
  {
    assert Abrir(Movimiento, 0);
    DarTodosSinFallos(ss, x, ps);
  }

  lemma EntraYSale(s: set<Jugador>, t: Jugador)
    requires t !in s
    ensures s + {t} - {t} == s
  {
  }

  lemma TomarUnoMas<T>(s: seq<T>, i: nat)
    requires i < |s|
    ensures multiset(s[..i + 1]) == multiset(s[..i]) + multiset{s[i]}
    ensures forall x :: x in s[..i + 1] <==> x in s[..i] || x == s[i]
  {
    assert s[..i + 1] == s[..i] + [s[i]];
  }

  /** Every queue lost the trainer, and then perhaps others from its front. */
  ghost predicate Quedan(qs: seq<seq<Jugador>>, v: Jugador, qs': seq<seq<Jugador>>) {
    |qs'| == |qs| && forall i :: 0 <= i < |qs| ==> EsSufijo(qs'[i], SinJugador(qs[i], v))
  }

  lemma QuedanTras(l: Lugares, r: nat, v: Jugador, l1: Lugares, l2: Lugares)
    requires r < |l.bloqueados| && l1.bloqueados == SinJugadorEn(l, r, v).bloqueados && Avance(l1, l2)
    requires forall i :: 0 <= i < |l.bloqueados| && v in l.bloqueados[i] ==> i == r
    ensures Quedan(l.bloqueados, v, l2.bloqueados)
  {
    assert Abrir(Movimiento, 0);
    forall i | 0 <= i < |l.bloqueados|
      ensures EsSufijo(l2.bloqueados[i], SinJugador(l.bloqueados[i], v))
    {
      SinJugadorMiembros(l.bloqueados[i], v);
    }
  }

  lemma SistemaIncluido(l: Lugares, l': Lugares)
    requires Avance(l, l')
    ensures forall k :: 0 <= k < |l'.sistema| ==> l'.sistema[k] in l.sistema
  {
  }

  lemma AvanceRefl(l: Lugares)
    ensures Avance(l, l)
  {
    assert Abrir(Movimiento, 0);
  }

  lemma AvanceListo(l: Lugares, l': Lugares, t: Jugador)
    requires Avance(l, l')
    ensures Avance(l, l'.(listos := l'.listos + [t]))
  {
    assert Abrir(Movimiento, 0);
  }

  lemma AvanceTrans(l: Lugares, l': Lugares, l'': Lugares)
    requires Avance(l, l') && Avance(l', l'')
    ensures Avance(l, l'')
  {
    assert Abrir(Movimiento, 0);
  }

  /** What a system was before it lost a trainer does not matter to what moved since. */
  lemma DesdeAntes(l: Lugares, sistema: seq<Jugador>, l': Lugares)
    requires Avance(l.(sistema := sistema), l')
    requires |sistema| <= |l.sistema| && forall t :: t in sistema ==> t in l.sistema
    ensures Avance(l, l')
  {
    assert Abrir(Movimiento, 0);
  }

  lemma AvanceSistema(l: Lugares, l': Lugares, sistema: seq<Jugador>)
    requires Avance(l, l') && |sistema| <= |l'.sistema| && forall t :: t in sistema ==> t in l'.sistema
    ensures Avance(l, l'.(sistema := sistema))
  {
    assert Abrir(Movimiento, 0);
    assert forall k :: 0 <= k < |sistema| ==> sistema[k] in l'.sistema;
  }

  /** The first of queue r left it. */
  ghost predicate SinCabeza(l: Lugares, l': Lugares, r: int) {
    0 <= r < |l.bloqueados| && l.bloqueados[r] != [] && l' == l.(bloqueados := l.bloqueados[r := l.bloqueados[r][1..]])
  }

  lemma AvanceCola(l: Lugares, l': Lugares, r: int)
    requires l' == l || SinCabeza(l, l', r)
    ensures Avance(l, l')
  {
    assert Abrir(Movimiento, 0);
  }

  ghost predicate EsSufijo<T>(a: seq<T>, b: seq<T>) {
    |a| <= |b| && a == b[|b| - |a|..]
  }

  lemma TotalDevuelto(colas: seq<seq<Pokemon>>, caps: Caps, l: Lugares, i: nat, p: Pokemon)
    requires i < |colas|
    ensures Total(colas[i := colas[i] + [p]], caps, l) == Total(colas, caps, l) + multiset{p}
  {
    var colas' := colas[i := colas[i] + [p]];
    LibresCambia(colas, i, colas[i] + [p]);
    Cancelar(Libres(colas), multiset{p}, multiset(colas[i]), Libres(colas'));
    MoverSumando(Libres(colas), multiset{p}, Suma(caps, l.listos), SumaColas(caps, l.bloqueados),
                 if l.corriendo == null then multiset{} else De(caps, l.corriendo));
  }

  lemma MoverSumando<T>(a: multiset<T>, x: multiset<T>, b: multiset<T>, c: multiset<T>, d: multiset<T>)
    ensures (a + x) + b + c + d == (a + b + c + d) + x
  {
  }

  /** A trainer in transit is in no place. */
  lemma AjenoATodos(ss: seq<char>, l: Lugares, fuera: set<Jugador>, t: Jugador)
    requires LugaresBien(ss, l, fuera) && t in fuera
    ensures t !in l.listos && t != l.corriendo && forall i :: 0 <= i < |l.bloqueados| ==> t !in l.bloqueados[i]
  {
  }

  /** What a trainer in no place holds is not in the total. */
  lemma TotalAjeno(colas: seq<seq<Pokemon>>, caps: Caps, l: Lugares, t: Jugador, c: seq<Pokemon>)
    requires t !in l.listos && t != l.corriendo && forall i :: 0 <= i < |l.bloqueados| ==> t !in l.bloqueados[i]
    ensures Total(colas, caps[t := c], l) == Total(colas, caps, l)
  {
    SumaAjena(caps, l.listos, t, c);
    SumaColasAjena(caps, l.bloqueados, t, c);
  }

  lemma TotalConListo(colas: seq<seq<Pokemon>>, caps: Caps, l: Lugares, t: Jugador)
    ensures Total(colas, caps, l.(listos := l.listos + [t])) == Total(colas, caps, l) + De(caps, t)
  {
    SumaConcat(caps, l.listos, [t]);
    assert Suma(caps, [t]) == De(caps, t);
  }

  lemma TotalSinCabeza(colas: seq<seq<Pokemon>>, caps: Caps, l: Lugares, i: nat, t: Jugador)
    returns (nuevo: multiset<Pokemon>)
    requires i < |l.bloqueados| && l.bloqueados[i] != [] && l.bloqueados[i][0] == t && t in caps
    ensures nuevo == Total(colas, caps, l.(bloqueados := l.bloqueados[i := l.bloqueados[i][1..]]))
    ensures Total(colas, caps, l) == nuevo + multiset(caps[t])
  {
    nuevo := Total(colas, caps, l.(bloqueados := l.bloqueados[i := l.bloqueados[i][1..]]));
    SumaColasCambia(caps, l.bloqueados, i, l.bloqueados[i][1..]);
    var q, a := l.bloqueados[i], SumaColas(caps, l.bloqueados);
    var b := SumaColas(caps, l.bloqueados[i := l.bloqueados[i][1..]]);
    assert Suma(caps, q) == De(caps, t) + Suma(caps, q[1..]);
    Cancelar(b, De(caps, t), Suma(caps, q[1..]), a);
  }

  /** A trainer in transit that gets a pokemon and becomes ready brings all it holds. */
  lemma TotalDelPremiado(ss: seq<char>, colas: seq<seq<Pokemon>>, caps: Caps, l: Lugares, fuera: set<Jugador>,
                         t: Jugador, c: seq<Pokemon>, caps': Caps, l': Lugares) returns (nuevo: multiset<Pokemon>)
    requires LugaresBien(ss, l, fuera) && t in fuera && caps' == caps[t := c] && l' == l.(listos := l.listos + [t])
    ensures nuevo == Total(colas, caps', l') && nuevo == Total(colas, caps, l) + multiset(c)
  {
    AjenoATodos(ss, l, fuera, t);
    TotalAjeno(colas, caps, l, t, c);
    TotalConListo(colas, caps', l, t);
    nuevo := Total(colas, caps', l');
  }

  lemma Cancelar<T>(b: multiset<T>, d: multiset<T>, r: multiset<T>, a: multiset<T>)
    requires b + (d + r) == a + r
    ensures a == b + d
  {
    forall x | true
      ensures a[x] == (b + d)[x]
    {
      assert (b + (d + r))[x] == (a + r)[x];
    }
  }
}
