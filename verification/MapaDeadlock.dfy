/**
 Detection and resolution of deadlocks on a map, and its loop of events. Each event is a `Paso`,
 and any number of them a `Corrida`.
 */
module MapaDeadlock {
  import opened Estructuras
  import opened Deadlock
  import opened MapaPokemon
  import opened MapaPasos

  function FichaDe(t: Jugador): Ficha
    reads t
  {
    Ficha(t.simbolo, t.peticion, t.pokemonCapturados)
  }

  function FichaNido(p: Pokenest): FichaPokenest
    reads p
  {
    FichaPokenest(p.simbolo, p.cantPokemon)
  }

  /** The records are what detection would read of the trainers. */
  ghost predicate SonFichas(js: seq<Jugador>, es: seq<Ficha>)
    reads js
  {
    |es| == |js| && forall i :: 0 <= i < |js| ==> es[i] == FichaDe(js[i])
  }

  ghost predicate SonNidos(ps: seq<Pokenest>, fs: seq<FichaPokenest>)
    reads ps
  {
    |fs| == |ps| && forall i :: 0 <= i < |ps| ==> fs[i] == FichaNido(ps[i])
  }

  method Fichas(js: seq<Jugador>) returns (es: seq<Ficha>)
    ensures SonFichas(js, es)
  {
    es := [];
    var i := 0;
    while i < |js|
      invariant i == |es| <= |js| && forall k :: 0 <= k < i ==> es[k] == FichaDe(js[k])
    {
      es := es + [FichaDe(js[i])];
      i := i + 1;
    }
  }

  method Nidos(ps: seq<Pokenest>) returns (fs: seq<FichaPokenest>)
    ensures SonNidos(ps, fs)
  {
    fs := [];
    var i := 0;
    while i < |ps|
      invariant i == |fs| <= |ps| && forall k :: 0 <= k < i ==> fs[k] == FichaNido(ps[k])
    {
      fs := fs + [FichaNido(ps[i])];
      i := i + 1;
    }
  }

  // ---------------------------------------------------------------- the map at a moment

  lemma LugaresEnRegla(ss: seq<char>, l: Lugares)
    requires SimbolosBien(ss) && LugaresBien(ss, l, {})
    ensures UnLugar(l)
  {
    forall t | t in l.sistema
      ensures t == l.corriendo || t in l.listos || Espera(l, t)
    {
      assert EnAlgunLugar(ss, l, t);
    }
    forall i, j, t | 0 <= i < j < |l.bloqueados| && t in l.bloqueados[i]
      ensures t !in l.bloqueados[j]
    {
      UnaSolaCola(ss, l, {}, i, j, t);
    }
  }

  lemma PokemonDe(m: Mapa)
    requires m.Partes({})
    ensures Medidas(m.Simbolos(), m.Ahora()) && PokemonEnRegla(m.Simbolos(), m.Ahora())
  {
    forall t, p | t in m.sistema && p in Suyos(m.caps, t)
      ensures p.pokenest in m.Simbolos() && p.inicial == p.pokenest
    {
      assert m.EsDeAca(p);
    }
  }

  /** A valid map is in order as a moment of a run. */
  lemma ValidEnRegla(m: Mapa)
    requires m.Valid({})
    ensures EnRegla(m.Simbolos(), m.Ahora()) && TotalDe(m.Ahora()) == m.total
  {
    m.Desplegar({});
    LugaresEnRegla(m.Simbolos(), m.Lugar());
    PokemonDe(m);
  }

  /** A trainer is marked as blocked exactly when it waits in a queue, that of what it asks for. */
  lemma EstadoEsEspera(m: Mapa, t: Jugador)
    requires m.Valid({}) && t in m.sistema
    ensures t.estado == 1 <==> Espera(m.Lugar(), t)
    ensures |m.bloqueados| == |m.Simbolos()| && Pide(m.Simbolos(), m.bloqueados, t) == t.peticion
    ensures Suyos(m.caps, t) == t.pokemonCapturados
  {
    m.Desplegar({});
    m.EnUnSoloLugar(t);
    m.BloqueadoEnSuCola(t, {});
    if t.estado == 1 {
      PideEnCola(m.Simbolos(), m.bloqueados, t, m.Referencia(t.peticion));
    } else {
      PideNada(m.Simbolos(), m.bloqueados, t);
    }
  }

  /** What detection reads of the objects is what it reads of the moment. */
  lemma LecturasIguales(m: Mapa, es: seq<Ficha>, ps: seq<FichaPokenest>)
    requires m.Valid({}) && SonFichas(m.sistema, es) && SonNidos(m.pokenests, ps)
    ensures Medidas(m.Simbolos(), m.Ahora())
    ensures es == FichasDe(m.Simbolos(), m.Ahora()) && ps == NidosDe(m.Simbolos(), m.Ahora())
  {
    m.Desplegar({});
    forall i | 0 <= i < |es|
      ensures es[i] == FichasDe(m.Simbolos(), m.Ahora())[i]
    {
      EstadoEsEspera(m, m.sistema[i]);
    }
    forall i | 0 <= i < |ps|
      ensures ps[i] == NidosDe(m.Simbolos(), m.Ahora())[i]
    {
      m.Espejo(i);
    }
  }

  // ---------------------------------------------------------------- detection

  lemma ReporteDe(ss: seq<char>, x: Instante, S: set<nat>, r: seq<nat>, es: seq<Ficha>, ps: seq<FichaPokenest>)
    requires Medidas(ss, x) && es == FichasDe(ss, x) && ps == NidosDe(ss, x) && EsReporte(es, ps, S, Conjunto(r))
    requires forall p, q :: 0 <= p < q < |r| ==> r[p] < r[q]
    requires forall k :: 0 <= k < |r| ==> r[k] < |es|
    ensures Reporte(ss, x, S, r)
  {
  }

  method Informar(ps: seq<FichaPokenest>, es: seq<Ficha>) returns (r: seq<nat>, ghost S: set<nat>)
    ensures EsReporte(es, ps, S, Conjunto(r)) && (r == [] || |r| > 1)
    ensures forall p, q :: 0 <= p < q < |r| ==> r[p] < r[q]
    ensures forall k :: 0 <= k < |r| ==> r[k] < |es|
  {
    r, S := ObtenerDeadlock(ps, es);
    EsReporteSi(es, ps, S, Conjunto(r));
  }

  method Buscar(m: Mapa) returns (r: seq<nat>, ghost S: set<nat>)
    requires m.Valid({})
    ensures Medidas(m.Simbolos(), m.Ahora()) && Reporte(m.Simbolos(), m.Ahora(), S, r) && (r == [] || |r| > 1)
  {
    var fs := Fichas(m.sistema);
    var ns := Nidos(m.pokenests);
    ghost var x := m.Ahora();
    LecturasIguales(m, fs, ns);
    r, S := Informar(ns, fs);
    assert m.Ahora() == x;
    ReporteDe(m.Simbolos(), x, S, r, fs, ns);
  }

  method Elegir(js: seq<Jugador>, r: seq<nat>) returns (lista: seq<Jugador>)
    requires forall k :: 0 <= k < |r| ==> r[k] < |js|
    ensures lista == Elegidos(js, r)
  {
    lista := [];
    var i := 0;
    while i < |r|
      invariant i == |lista| <= |r| && forall k :: 0 <= k < i ==> lista[k] == js[r[k]]
    {
      lista := lista + [js[r[i]]];
      i := i + 1;
    }
  }

  /** One turn of the detection thread: the reported trainers, kept in the deadlock list when
      there are any. */
  method Detectar(m: Mapa) returns (r: seq<nat>, ghost S: set<nat>)
    requires m.Valid({})
    modifies m`listaDeadlock
    ensures m.Valid({}) && Medidas(m.Simbolos(), m.Ahora()) && Reporte(m.Simbolos(), m.Ahora(), S, r)
    ensures |r| != 1 && m.listaDeadlock == if r == [] then old(m.listaDeadlock) else Elegidos(m.sistema, r)
    ensures PasoDetecta(m.Simbolos(), old(m.Ahora()), m.Ahora())
    ensures forall a: nat :: a in r <==> EnDeadlock(m.Simbolos(), m.Ahora(), a)
  {
    r, S := Buscar(m);
    ghost var x := m.Ahora();
    if r != [] {
      var lista := Elegir(m.sistema, r);
      m.FijarDeadlock(lista, {});
      assert m.Ahora() == x.(deadlock := lista);
      OtraLista(m.Simbolos(), x, lista, S, r);
    }
    ValidEnRegla(m);
    ReporteSii(m.Simbolos(), m.Ahora(), S, r);
  }

  /** Detection does not read the deadlock list. */
  lemma OtraLista(ss: seq<char>, x: Instante, lista: seq<Jugador>, S: set<nat>, r: seq<nat>)
    requires Medidas(ss, x) && Reporte(ss, x, S, r)
    ensures Reporte(ss, x.(deadlock := lista), S, r)
  {
    assert FichasDe(ss, x.(deadlock := lista)) == FichasDe(ss, x);
  }

  /** What is known of a trainer on a sound list, on the objects. */
  lemma DeLaLista(m: Mapa, k: nat)
    requires m.Valid({}) && ListaBien(m.Simbolos(), m.Ahora()) && k < |m.listaDeadlock|
    ensures m.listaDeadlock[k] in m.sistema && m.listaDeadlock[k].estado == 1 && m.OtroEspera(m.listaDeadlock[k])
  {
    assert EnLista(m.Simbolos(), m.Ahora(), m.listaDeadlock[k]);
    EstadoEsEspera(m, m.listaDeadlock[k]);
  }

  // ---------------------------------------------------------------- leaving

  /** If nobody but the one that leaves is missed, no send failed. */
  lemma SaleSi(ss: seq<char>, x: Instante, v: Jugador, caidos: set<Jugador>, y: Instante, rotos: set<int>)
    requires v in x.l.sistema && v !in y.l.sistema && v !in caidos && Avance(x.l, y.l)
    requires Quedaron(x.l.sistema, caidos + {v}, y.l.sistema) && y.deadlock == [] && y.llegados == x.llegados
    requires Suertes(ss, x, y, rotos, {v})
    requires caidos == {} ==> Repartidos(ss, x.(deadlock := []), Suyos(x.caps, v), ConSistema(y, x.l.sistema))
    ensures Sale(ss, x, v, y, rotos)
  {
    if forall t :: t in x.l.sistema ==> t == v || t in y.l.sistema {
      NadieMas(x.l.sistema, caidos, v, y.l.sistema);
    }
  }

  lemma NadieMas(antes: seq<Jugador>, caidos: set<Jugador>, v: Jugador, despues: seq<Jugador>)
    requires Quedaron(antes, caidos + {v}, despues) && v !in caidos
    requires forall t :: t in antes ==> t == v || t in despues
    ensures caidos == {}
  {
    assert Abrir(Movimiento, 0);
    assert forall t :: t in caidos ==> t in caidos + {v};
  }

  /** The battle of a kept deadlock list: its members are taken off the list and one of them
      loses and is killed. Somebody who waited becomes ready, if every send works. */
  method Pelear(m: Mapa, perdedor: nat, rotos: set<int>) returns (ghost caidos: set<Jugador>)
    requires m.Valid({}) && ListaBien(m.Simbolos(), m.Ahora()) && perdedor < |m.listaDeadlock|
    modifies m`bloqueados, m`listos, m`sistema, m`listaDeadlock, m`caps
    modifies m`colas, m`total, m`esperan, m.sistema, m.pokenests
    ensures m.Valid({}) && m.total == old(m.total) && |m.sistema| < |old(m.sistema)|
    ensures PasoPelea(m.Simbolos(), old(m.Ahora()), perdedor, m.Ahora(), rotos)
    ensures forall i :: 0 <= i < |m.sistema| ==> m.sistema[i] in old(m.sistema)
    ensures Quedaron(old(m.sistema), caidos + {old(m.listaDeadlock[perdedor])}, m.sistema)
    ensures caidos == {} ==> |m.listos| > |old(m.listos)|
  {
    var v := m.listaDeadlock[perdedor];
    ghost var x, r := m.Ahora(), m.Referencia(v.peticion);
    DeLaLista(m, perdedor);
    EstadoEsEspera(m, v);
    m.BloqueadoEnSuCola(v, {});
    m.FijarDeadlock([], {});
    assert m.Ahora() == x.(deadlock := []);
    caidos := m.Matar(v, rotos);
    SinMirarLista(m.Simbolos(), SinBloqueado(x, r, v), m.Ahora(), rotos, {v});
    SaleSi(m.Simbolos(), SinBloqueado(x, r, v), v, caidos, m.Ahora(), rotos);
  }

  /** A socket closes. Only that of a blocked trainer matters here. */
  method Cerrar(m: Mapa, j: nat, rotos: set<int>)
    requires m.Valid({})
    modifies m`bloqueados, m`listos, m`sistema, m`listaDeadlock, m`caps
    modifies m`colas, m`total, m`esperan, m.sistema, m.pokenests
    ensures m.Valid({}) && m.total == old(m.total) && PasoCierra(m.Simbolos(), old(m.Ahora()), j, m.Ahora(), rotos)
    ensures forall i :: 0 <= i < |m.sistema| ==> m.sistema[i] in old(m.sistema)
  {
    if j < |m.sistema| {
      EstadoEsEspera(m, m.sistema[j]);
      if m.sistema[j].estado == 1 {
        var v := m.sistema[j];
        ghost var x, r := m.Ahora(), m.Referencia(v.peticion);
        m.BloqueadoEnSuCola(v, {});
        ghost var caidos := m.DesconectarBloqueado(j, rotos);
        SaleSi(m.Simbolos(), SinBloqueado(x, r, v), v, caidos, m.Ahora(), rotos);
      }
    }
  }

  method Irse(m: Mapa, rotos: set<int>)
    requires m.Valid({}) && m.corriendo != null
    modifies m`bloqueados, m`listos, m`corriendo, m`sistema, m`listaDeadlock, m`caps
    modifies m`colas, m`total, m`esperan, m.sistema, m.pokenests
    ensures m.Valid({}) && m.total == old(m.total)
    ensures SaleCorriendo(m.Simbolos(), old(m.Ahora()), m.Ahora(), rotos)
    ensures forall i :: 0 <= i < |m.sistema| ==> m.sistema[i] in old(m.sistema)
  {
    var v: Jugador := m.corriendo;
    ghost var x := m.Ahora();
    CorreEnSistema(m);
    EstadoEsEspera(m, v);
    ghost var caidos := m.FinDeTurno(true, rotos);
    SaleSi(m.Simbolos(), SinCorrer(x), v, caidos, m.Ahora(), rotos);
  }

  lemma CorreEnSistema(m: Mapa)
    requires m.Valid({}) && m.corriendo != null
    ensures m.corriendo in m.sistema
  {
    assert Abrir(Invariante, 0);
  }

  // ---------------------------------------------------------------- the other events

  method Llegada(m: Mapa, simbolo: char, socket: int)
    requires m.Valid({})
    modifies m`cantJugadores, m`sistema, m`caps, m`listos, m`total
    ensures m.Valid({}) && m.total == old(m.total)
    ensures PasoLlega(old(m.Ahora()), simbolo, socket, m.Ahora())
    ensures forall i :: 0 <= i < |m.sistema| ==> m.sistema[i] in old(m.sistema) || fresh(m.sistema[i])
  {
    if SocketLibre(m.sistema, socket) {
      ghost var l := m.Lugar();
      var t := m.Conectar(simbolo, socket);
      assert m.Lugar() == l.(sistema := l.sistema + [t], listos := l.listos + [t]);
      assert m.sistema[|m.sistema| - 1] == t;
    }
  }

  method Turno(m: Mapa, k: nat)
    requires m.Valid({})
    modifies m`listos, m`corriendo
    ensures m.Valid({}) && PasoDespacha(old(m.Ahora()), k, m.Ahora())
  {
    if m.corriendo == null && k < |m.listos| {
      m.Despachar(k);
    }
  }

  /** A request that is sent: the pokemon is kept or the trainer waits, and its turn ends. */
  method PedirBien(m: Mapa, simbolo: char, rotos: set<int>)
    requires m.Valid({}) && Medidas(m.Simbolos(), m.Ahora())
    requires m.corriendo != null && m.corriendo.socket !in rotos && m.Referencia(simbolo) >= 0
    modifies m`listos, m`corriendo, m`bloqueados, m`caps, m`colas, m`total, m`esperan
    modifies m`sistema, m`listaDeadlock, m.sistema, m.pokenests
    ensures m.Valid({}) && m.total == old(m.total) && m.sistema == old(m.sistema)
    ensures PasoCaptura(m.Simbolos(), old(m.Ahora()), simbolo, m.Ahora(), rotos)
  {
    CorreEnSistema(m);
    var _ := m.Capturar(simbolo, true);
    var _ := m.FinDeTurno(false, {});
  }

  /** A request whose send fails: the pokemon, if one was free, goes back, and the trainer leaves. */
  method PedirMal(m: Mapa, simbolo: char, rotos: set<int>)
    requires m.Valid({}) && Medidas(m.Simbolos(), m.Ahora())
    requires m.corriendo != null && m.corriendo.socket in rotos && m.Referencia(simbolo) >= 0
    modifies m`bloqueados, m`listos, m`corriendo, m`sistema, m`listaDeadlock, m`caps
    modifies m`colas, m`total, m`esperan, m.sistema, m.pokenests
    ensures m.Valid({}) && m.total == old(m.total)
    ensures PasoCaptura(m.Simbolos(), old(m.Ahora()), simbolo, m.Ahora(), rotos)
    ensures forall i :: 0 <= i < |m.sistema| ==> m.sistema[i] in old(m.sistema)
  {
    ghost var x, i := m.Ahora(), m.Referencia(simbolo);
    CorreEnSistema(m);
    var _ := m.Capturar(simbolo, false);
    ghost var vuelta := if x.colas[i] == [] then x
                        else x.(colas := x.colas[i := x.colas[i][1..] + [x.colas[i][0]]]);
    assert m.Ahora() == vuelta;
    Irse(m, rotos);
  }

  /** A request of the running trainer, and the end of its turn. */
  method Pedir(m: Mapa, simbolo: char, rotos: set<int>)
    requires m.Valid({})
    modifies m`bloqueados, m`listos, m`corriendo, m`sistema, m`listaDeadlock, m`caps
    modifies m`colas, m`total, m`esperan, m.sistema, m.pokenests
    ensures m.Valid({}) && m.total == old(m.total) && Medidas(m.Simbolos(), old(m.Ahora()))
    ensures PasoCaptura(m.Simbolos(), old(m.Ahora()), simbolo, m.Ahora(), rotos)
    ensures forall i :: 0 <= i < |m.sistema| ==> m.sistema[i] in old(m.sistema)
  {
    ValidEnRegla(m);
    if m.corriendo != null && m.Referencia(simbolo) >= 0 {
      if m.corriendo.socket in rotos {
        PedirMal(m, simbolo, rotos);
      } else {
        PedirBien(m, simbolo, rotos);
      }
    }
  }

  /** Detect and fight until nothing is reported. It terminates because every battle removes a
      trainer and nobody arrives, and loses no pokemon. The loser of each battle is an
      arbitrary trainer of the list, and so are the connections that are down in each one. */
  method ResolverDeadlock(m: Mapa, rotos: nat -> set<int>) returns (muertes: nat)
    requires m.Valid({})
    modifies m`bloqueados, m`listos, m`sistema, m`listaDeadlock, m`caps
    modifies m`colas, m`total, m`esperan, m.sistema, m.pokenests
    ensures m.Valid({}) && m.total == old(m.total) && old(m.listos) <= m.listos
    ensures |m.sistema| + muertes <= |old(m.sistema)|
    ensures SinDeadlock(m.Simbolos(), m.Ahora())
  {
    muertes := 0;
    var r, S := Detectar(m);
    while r != []
      invariant m.Valid({}) && Medidas(m.Simbolos(), m.Ahora()) && Reporte(m.Simbolos(), m.Ahora(), S, r)
      invariant r != [] ==> m.listaDeadlock == Elegidos(m.sistema, r)
      invariant m.total == old(m.total) && old(m.listos) <= m.listos
      invariant |m.sistema| + muertes <= |old(m.sistema)|
      invariant forall k :: 0 <= k < |m.sistema| ==> m.sistema[k] in old(m.sistema)
      decreases |m.sistema|
    {
      var k: nat :| k < |r|;
      PelearReportado(m, r, k, S, rotos(muertes));
      muertes := muertes + 1;
      r, S := Detectar(m);
    }
    ValidEnRegla(m);
    ReporteSii(m.Simbolos(), m.Ahora(), S, r);
  }

  /** Nobody is in a deadlock. */
  ghost predicate SinDeadlock(ss: seq<char>, x: Instante) {
    Medidas(ss, x) && forall a: nat :: !EnDeadlock(ss, x, a)
  }

  /** The battle of those just reported. */
  method PelearReportado(m: Mapa, r: seq<nat>, k: nat, ghost S: set<nat>, rotos: set<int>)
    requires m.Valid({}) && Medidas(m.Simbolos(), m.Ahora()) && Reporte(m.Simbolos(), m.Ahora(), S, r) && k < |r|
    requires m.listaDeadlock == Elegidos(m.sistema, r)
    modifies m`bloqueados, m`listos, m`sistema, m`listaDeadlock, m`caps
    modifies m`colas, m`total, m`esperan, m.sistema, m.pokenests
    ensures m.Valid({}) && m.total == old(m.total) && old(m.listos) <= m.listos && |m.sistema| < |old(m.sistema)|
    ensures forall i :: 0 <= i < |m.sistema| ==> m.sistema[i] in old(m.sistema)
  {
    ghost var ss, x := m.Simbolos(), m.Ahora();
    ValidEnRegla(m);
    forall i | 0 <= i < |r|
      ensures EnLista(ss, x, x.deadlock[i])
    {
      ReportadoEnLista(ss, x, S, r, i);
    }
    ghost var caidos := Pelear(m, k, rotos);
    SaleBloqueadoListos(ss, x, x.deadlock[k], m.Ahora(), rotos);
  }

  // ---------------------------------------------------------------- runs

  /** One event: the map is left as its `Paso` says, valid, and its deadlock list sound. */
  method Ocurrir(m: Mapa, e: Evento)
    requires m.Valid({}) && ListaBien(m.Simbolos(), m.Ahora())
    modifies m, m.sistema, m.pokenests
    ensures m.Valid({}) && m.total == old(m.total) && ListaBien(m.Simbolos(), m.Ahora())
    ensures Paso(m.Simbolos(), old(m.Ahora()), e, m.Ahora())
    ensures forall i :: 0 <= i < |m.sistema| ==> m.sistema[i] in old(m.sistema) || fresh(m.sistema[i])
  {
    ghost var x := m.Ahora();
    ValidEnRegla(m);
    Suceder(m, e);
    ValidEnRegla(m);
    PasoListaBien(m.Simbolos(), x, e, m.Ahora());
  }

  method Suceder(m: Mapa, e: Evento)
    requires m.Valid({}) && ListaBien(m.Simbolos(), m.Ahora()) && Medidas(m.Simbolos(), m.Ahora())
    modifies m, m.sistema, m.pokenests
    ensures m.Valid({}) && m.total == old(m.total) && Sucede(m.Simbolos(), old(m.Ahora()), e, m.Ahora())
    ensures forall i :: 0 <= i < |m.sistema| ==> m.sistema[i] in old(m.sistema) || fresh(m.sistema[i])
  {
    match e {
      case Llega(simbolo, socket) => Llegada(m, simbolo, socket);
      case Despacha(k) => Turno(m, k);
      case Captura(pedido, rotos) => Pedir(m, pedido, rotos);
      case TerminaTurno =>
        var _ := m.FinDeTurno(false, {});
      case SeDesconecta(rotos) =>
        if m.corriendo != null {
          Irse(m, rotos);
        }
      case CierraBloqueado(j, rotos) => Cerrar(m, j, rotos);
      case Detecta =>
        var _, _ := Detectar(m);
      case Pelea(k, rotos) =>
        if k < |m.listaDeadlock| {
          ghost var caidos := Pelear(m, k, rotos);
        }
    }
  }

  /** One more event of a run. */
  method Seguir(m: Mapa, eventos: seq<Evento>, n: nat, ghost antes: seq<Instante>)
    returns (ghost momentos: seq<Instante>)
    requires m.Valid({}) && ListaBien(m.Simbolos(), m.Ahora()) && n < |eventos|
    requires Corrida(m.Simbolos(), antes, eventos[..n]) && SiempreEnRegla(m.Simbolos(), antes, m.total)
    requires antes[|antes| - 1] == m.Ahora()
    modifies m, m.sistema, m.pokenests
    ensures m.Valid({}) && m.total == old(m.total) && ListaBien(m.Simbolos(), m.Ahora())
    ensures Corrida(m.Simbolos(), momentos, eventos[..n + 1]) && SiempreEnRegla(m.Simbolos(), momentos, m.total)
    ensures momentos == antes + [m.Ahora()]
    ensures forall i :: 0 <= i < |m.sistema| ==> m.sistema[i] in old(m.sistema) || fresh(m.sistema[i])
  {
    Ocurrir(m, eventos[n]);
    ValidEnRegla(m);
    UnoMas(m.Simbolos(), antes, eventos, n, m.Ahora(), m.total);
    momentos := antes + [m.Ahora()];
  }

  lemma UnoMas(ss: seq<char>, m: seq<Instante>, eventos: seq<Evento>, n: nat, y: Instante, total: multiset<Pokemon>)
    requires n < |eventos| && Corrida(ss, m, eventos[..n]) && SiempreEnRegla(ss, m, total)
    requires Paso(ss, m[|m| - 1], eventos[n], y) && EnRegla(ss, y) && TotalDe(y) == total
    ensures Corrida(ss, m + [y], eventos[..n + 1]) && SiempreEnRegla(ss, m + [y], total)
  {
    CorridaMas(ss, m, eventos[..n], eventos[n], y);
    SiempreEnReglaMas(ss, m, total, y);
    assert eventos[..n] + [eventos[n]] == eventos[..n + 1];
  }

  lemma Empieza(m: Mapa, eventos: seq<Evento>)
    requires m.Valid({})
    ensures Corrida(m.Simbolos(), [m.Ahora()], eventos[..0]) && SiempreEnRegla(m.Simbolos(), [m.Ahora()], m.total)
  {
    ValidEnRegla(m);
    CorridaVacia(m.Simbolos(), m.Ahora());
  }

  /** The events happen on a valid map one after another: the moments are those of a run of
      exactly these events, the map is in order at each of them, and it keeps its pokemon. */
  method CorrerMapa(m: Mapa, eventos: seq<Evento>) returns (ghost momentos: seq<Instante>)
    requires m.Valid({}) && ListaBien(m.Simbolos(), m.Ahora())
    modifies m, m.sistema, m.pokenests
    ensures m.Valid({}) && m.total == old(m.total) && ListaBien(m.Simbolos(), m.Ahora())
    ensures Corrida(m.Simbolos(), momentos, eventos) && SiempreEnRegla(m.Simbolos(), momentos, old(m.total))
    ensures momentos[0] == old(m.Ahora()) && momentos[|momentos| - 1] == m.Ahora()
  {
    momentos := [m.Ahora()];
    Empieza(m, eventos);
    var n := 0;
    while n < |eventos|
      invariant n <= |eventos| && m.Valid({}) && m.total == old(m.total) && ListaBien(m.Simbolos(), m.Ahora())
      invariant Corrida(m.Simbolos(), momentos, eventos[..n]) && SiempreEnRegla(m.Simbolos(), momentos, m.total)
      invariant momentos[0] == old(m.Ahora()) && momentos[|momentos| - 1] == m.Ahora()
      invariant forall i :: 0 <= i < |m.sistema| ==> m.sistema[i] in old(m.sistema) || fresh(m.sistema[i])
    {
      momentos := Seguir(m, eventos, n, momentos);
      n := n + 1;
    }
    assert eventos[..n] == eventos;
  }

  /** Nobody on the map, and every pokemon in its pokenest. */
  ghost predicate Comienzo(x: Instante) {
    && x.l.sistema == [] && x.l.listos == [] && x.l.corriendo == null && x.deadlock == [] && x.llegados == 0
    && forall i :: 0 <= i < |x.l.bloqueados| ==> x.l.bloqueados[i] == []
  }

  /** Every reachable state: any run on a map that started empty is in order at each moment, with
      exactly the pokemon the pokenests started with. */
  method Jornada(ps: seq<Pokenest>, eventos: seq<Evento>) returns (m: Mapa, ghost momentos: seq<Instante>)
    requires NidosBien(ps)
    modifies ps
    ensures fresh(m) && m.pokenests == ps && m.Valid({}) && ListaBien(m.Simbolos(), m.Ahora())
    ensures Corrida(m.Simbolos(), momentos, eventos) && momentos[|momentos| - 1] == m.Ahora()
    ensures Comienzo(momentos[0]) && SiempreEnRegla(m.Simbolos(), momentos, Libres(momentos[0].colas))
    ensures |momentos[0].colas| == |ps|
    ensures forall i :: 0 <= i < |ps| ==> momentos[0].colas[i] == old(ps[i].colaDePokemon)
  {
    m := new Mapa(ps);
    m.Desplegar({});
    momentos := CorrerMapa(m, eventos);
  }
}
