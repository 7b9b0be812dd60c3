/**
 The records shared by the map's modules, as values: what deadlock detection and the
 SRDF planner read of a trainer, a pokemon and a pokenest.
 */
module Estructuras {

  datatype Opcion<+T> = Nada | Algo(valor: T)

  /** A pokemon: `inicial` is the first character of its file name, `pokenest` the symbol
      of the pokenest it was read from. Detection uses both. */
  datatype Pokemon = Pokemon(inicial: char, pokenest: char, numero: int)

  /** What detection reads of a trainer. */
  datatype Ficha = Ficha(simbolo: char, peticion: char, capturados: seq<Pokemon>)

  /** What detection reads of a pokenest. */
  datatype FichaPokenest = FichaPokenest(simbolo: char, cant: int)

  ghost predicate SinRepetidos<T>(s: seq<T>) {
    forall i, j :: 0 <= i < j < |s| ==> s[i] != s[j]
  }

  /** The index of the pokenest with a given symbol, or |ps| when there is none. */
  function IndiceDe(ps: seq<FichaPokenest>, simbolo: char): (k: nat)
    ensures k <= |ps|
    ensures k < |ps| ==> ps[k].simbolo == simbolo
    ensures forall j :: 0 <= j < k ==> ps[j].simbolo != simbolo
  {
    if ps == [] then 0
    else if ps[0].simbolo == simbolo then 0
    else
      var k := 1 + IndiceDe(ps[1..], simbolo);
      assert forall j :: 0 < j < k ==> ps[j] == ps[1..][j - 1];
      k
  }

  /** What is kept folded: what holds of a state, how two states are related, what an event does,
      the steps of a run, or what a deadlock report is. */
  datatype Parte = Invariante | Movimiento | Suceso | Historia | Informe

  /** A predicate quantified over `Abrir(parte, u)` keeps its parts folded where they are not
      needed; mentioning `Abrir` unfolds those of that kind. */
  ghost predicate Abrir(parte: Parte, u: int) {
    true
  }

  function Conjunto<T>(s: seq<T>): set<T> {
    set x | x in s
  }

  /** A sequence without the element at a position. */
  function SinIndice<T>(s: seq<T>, i: nat): seq<T>
    requires i < |s|
  {
    s[..i] + s[i + 1..]
  }
}
