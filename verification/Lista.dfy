/**
 The singly linked list of list.c, node by node: each method is proved against the sequence
 of data its nodes hold.
 */
module Lista {
  import opened Estructuras

  class Nodo<T> {
    var data: T
    var next: Nodo?<T>

    constructor (data: T)
      ensures this.data == data && this.next == null
    {
      this.data, this.next := data, null;
    }
  }

  class TLista<T(!new)> {
    var head: Nodo?<T>
    var elements_count: int
    ghost var nodos: seq<Nodo<T>>
    // The data of the nodes, in order.
    ghost var elementos: seq<T>

    ghost predicate Valid()
      reads this, nodos
    {
      && elements_count == |nodos|
      && head == (if nodos == [] then null else nodos[0])
      && Enlazados(nodos)
      && |elementos| == |nodos| && forall i :: 0 <= i < |nodos| ==> nodos[i].data == elementos[i]
    }

    constructor ()
      ensures Valid() && elementos == [] && nodos == []
    {
      head, elements_count, nodos, elementos := null, 0, [], [];
    }

    // -------------------------------------------------------------- walking

    /** The node at an index, or null. */
    method GetElement(index: int) returns (element: Nodo?<T>)
      requires Valid()
      ensures element == if 0 <= index < |nodos| then nodos[index] else null
    {
      if elements_count > index && index >= 0 {
        var e := head;
        var cont := 0;
        while cont < index
          invariant 0 <= cont <= index && e == nodos[cont]
        {
          e := e.next;
          cont := cont + 1;
        }
        return e;
      }
      return null;
    }

    /** The first node whose data satisfies the condition, and its position. */
    method FindElement(condition: T -> bool) returns (element: Nodo?<T>, position: int)
      requires Valid()
      ensures position == Primero(elementos, condition)
      ensures element == if position < |nodos| then nodos[position] else null
    {
      element, position := head, 0;
      while element != null && !condition(element.data)
        invariant 0 <= position <= |nodos|
        invariant element == if position < |nodos| then nodos[position] else null
        invariant forall k :: 0 <= k < position ==> !condition(elementos[k])
        decreases |nodos| - position
      {
        assert elementos[position] == element.data;
        element := element.next;
        position := position + 1;
      }
      if position < |nodos| {
        assert elementos[position] == element.data;
      }
      PrimeroUnico(elementos, condition, position);
    }

    method Get(index: int) returns (r: Opcion<T>)
      requires Valid()
      ensures r == if 0 <= index < |elementos| then Algo(elementos[index]) else Nada
    {
      var e := GetElement(index);
      if e != null {
        r := Algo(e.data);
      } else {
        r := Nada;
      }
    }

    method Size() returns (n: int)
      requires Valid()
      ensures n == |elementos|
    {
      n := elements_count;
    }

    // -------------------------------------------------------------- changing

    method Add(data: T) returns (index: int)
      requires Valid()
      modifies this, nodos
      ensures Valid() && elementos == old(elementos) + [data] && index == |old(elementos)|
      ensures fresh(Conjunto(nodos) - Conjunto(old(nodos)))
    {
      var nuevo := new Nodo(data);
      if elements_count == 0 {
        head := nuevo;
      } else {
        var ultimo := GetElement(elements_count - 1);
        ultimo.next := nuevo;
      }
      elements_count := elements_count + 1;
      nodos, elementos := nodos + [nuevo], elementos + [data];
      return elements_count - 1;
    }

    /** Inserts before the element at an index, or at the end; any other index does nothing. */
    method AddInIndex(index: int, data: T)
      requires Valid()
      modifies this, nodos
      ensures Valid()
      ensures elementos == if 0 <= index <= |old(elementos)|
                           then old(elementos)[..index] + [data] + old(elementos)[index..]
                           else old(elementos)
      ensures fresh(Conjunto(nodos) - Conjunto(old(nodos)))
    {
      if elements_count >= index && index >= 0 {
        var nuevo := new Nodo(data);
        EnlazarEn(index, nuevo);
        elements_count := elements_count + 1;
        nodos, elementos := Insertado(nodos, index, nuevo), Insertado(elementos, index, data);
      }
    }

    /** Links a new node before the index-th. */
    method EnlazarEn(index: nat, nuevo: Nodo<T>)
      requires Valid() && index <= |nodos| && nuevo !in nodos && nuevo.next == null
      modifies this`head, nodos`next, nuevo`next
      ensures head == Insertado(nodos, index, nuevo)[0] && Enlazados(Insertado(nodos, index, nuevo))
    {
      if index == 0 {
        nuevo.next := head;
        head := nuevo;
      } else {
        var next := GetElement(index);
        var previous := GetElement(index - 1);
        previous.next := nuevo;
        nuevo.next := next;
      }
      ghost var ahora := Insertado(nodos, index, nuevo);
      forall i | 0 <= i < |ahora|
        ensures ahora[i].next == Sucesor(ahora, i)
      {
        if i > index {
          assert ahora[i] == nodos[i - 1];
        }
      }
    }

    /** Removes the element at an index; an empty list gives nothing back. */
    method Remove(index: int) returns (r: Opcion<T>)
      requires Valid() && (nodos == [] || 0 <= index < |nodos|)
      modifies this, nodos`next
      ensures Valid() && Conjunto(nodos) <= Conjunto(old(nodos))
      ensures old(elementos) == [] ==> r == Nada && elementos == []
      ensures old(elementos) != [] ==> r == Algo(old(elementos)[index])
      ensures old(elementos) != [] ==> elementos == SinIndice(old(elementos), index)
    {
      if head == null {
        return Nada;
      }
      var aux := GetElement(index);
      r := Algo(aux.data);
      Desenlazar(index, aux);
      elements_count := elements_count - 1;
      nodos, elementos := SinIndice(nodos, index), SinIndice(elementos, index);
    }

    method Desenlazar(index: nat, aux: Nodo<T>)
      requires Valid() && index < |nodos| && aux == nodos[index]
      modifies this`head, nodos`next
      ensures Enlazados(SinIndice(nodos, index))
      ensures head == if |nodos| == 1 then null else SinIndice(nodos, index)[0]
    {
      if index == 0 {
        head := aux.next;
      } else {
        var previous := GetElement(index - 1);
        previous.next := aux.next;
      }
      ghost var ahora := SinIndice(nodos, index);
      forall i | 0 <= i < |ahora|
        ensures ahora[i].next == Sucesor(ahora, i)
      {
        if i >= index {
          assert ahora[i] == nodos[i + 1];
        }
      }
    }

    /** Removes the first element that satisfies the condition. */
    method RemoveByCondition(condition: T -> bool) returns (r: Opcion<T>)
      requires Valid()
      modifies this, nodos
      ensures Valid() && Conjunto(nodos) <= Conjunto(old(nodos))
      ensures var k := Primero(old(elementos), condition);
        if k < |old(elementos)| then r == Algo(old(elementos)[k]) && elementos == SinIndice(old(elementos), k)
        else r == Nada && elementos == old(elementos)
    {
      var element, index := FindElement(condition);
      if element != null {
        r := Remove(index);
      } else {
        r := Nada;
      }
    }

    /** A new list with the first `count` elements, and a null for each one missing. */
    method Take(count: int, nulo: T) returns (sublist: TLista<T>)
      requires Valid()
      ensures fresh(sublist) && sublist.Valid() && forall k :: 0 <= k < |sublist.nodos| ==> fresh(sublist.nodos[k])
      ensures |sublist.elementos| == if count < 0 then 0 else count
      ensures forall k :: 0 <= k < count ==> sublist.elementos[k] == if k < |elementos| then elementos[k] else nulo
    {
      sublist := new TLista<T>();
      var i := 0;
      while i < count
        invariant 0 <= i && (i <= count || i == 0) && sublist.Valid() && fresh(sublist)
        invariant forall k :: 0 <= k < |sublist.nodos| ==> fresh(sublist.nodos[k])
        invariant {sublist} + Conjunto(sublist.nodos) !! {this} + Conjunto(nodos)
        invariant |sublist.elementos| == i
        invariant forall k :: 0 <= k < i ==> sublist.elementos[k] == if k < |elementos| then elementos[k] else nulo
        invariant Valid() && unchanged(this) && unchanged(nodos)
      {
        var element := Get(i);
        var _ := sublist.Add(if element == Nada then nulo else element.valor);
        i := i + 1;
      }
    }

    // -------------------------------------------------------------- sorting

    /** Swaps the data of two neighbouring nodes. */
    method Intercambiar(previous: Nodo<T>, cursor: Nodo<T>, ghost index: nat)
      requires Valid() && index + 1 < |nodos| && previous == nodos[index] && cursor == nodos[index + 1]
      modifies previous`data, cursor`data, this`elementos
      ensures Valid() && elementos == Intercambiado(old(elementos), index)
    {
      var auxiliar := cursor.data;
      cursor.data := previous.data;
      previous.data := auxiliar;
      elementos := Intercambiado(elementos, index);
    }

    /** One comparison of a pass: the pair is swapped unless the comparator puts it in order. */
    method CompararPar(comparator: (T, T) -> bool, previous: Nodo<T>, cursor: Nodo<T>,
                       ghost index: nat, ghost desde: nat, ghost hasta: nat) returns (cambio: bool)
      requires Valid() && index + 1 < |nodos| && index < hasta
      requires previous == nodos[index] && cursor == nodos[index + 1]
      modifies previous`data, cursor`data, this`elementos
      ensures Valid() && cambio == !comparator(old(elementos)[index], old(elementos)[index + 1])
      ensures elementos == if cambio then Intercambiado(old(elementos), index) else old(elementos)
      ensures multiset(elementos) == multiset(old(elementos))
      ensures LeTransitiva(comparator) && Burbuja(comparator, old(elementos), index, desde, hasta) ==>
        Burbuja(comparator, elementos, index + 1, if cambio then index + 1 else desde, hasta)
    {
      ghost var tr := LeTransitiva(comparator) && Burbuja(comparator, elementos, index, desde, hasta);
      cambio := !comparator(previous.data, cursor.data);
      if cambio {
        if tr {
          BurbujaIntercambia(comparator, elementos, index, desde, hasta);
        }
        IntercambioPermuta(elementos, index);
        Intercambiar(previous, cursor, index);
      } else if tr {
        BurbujaAvanza(comparator, elementos, index, desde, hasta);
      }
    }

    /** One pass over the first `unsorted` pairs: neighbours out of order are swapped. It
        reports the position of the last swap, or `unsorted` when there was none. */
    method Pasada(comparator: (T, T) -> bool, unsorted: nat) returns (sorted: bool, lastChanged: nat)
      requires Valid() && |nodos| >= 2 && unsorted <= |nodos|
      modifies nodos`data, this`elementos
      ensures Valid() && multiset(elementos) == multiset(old(elementos))
      ensures if sorted then lastChanged == unsorted else lastChanged < unsorted
      ensures LeTransitiva(comparator) && OrdenadaDesde(comparator, old(elementos), unsorted + 1) ==>
        OrdenadaDesde(comparator, elementos, if sorted then 0 else lastChanged + 1)
    {
      var previous := head;
      var cursor := previous.next;
      sorted, lastChanged := true, unsorted;
      var index := 0;
      while index < unsorted && cursor != null
        invariant 0 <= index < |nodos| && index <= unsorted && Valid()
        invariant previous == nodos[index] && cursor == Sucesor(nodos, index)
        invariant multiset(elementos) == multiset(old(elementos))
        invariant if sorted then lastChanged == unsorted else lastChanged < index
        invariant LeTransitiva(comparator) && OrdenadaDesde(comparator, old(elementos), unsorted + 1) ==>
          Burbuja(comparator, elementos, index, if sorted then 0 else lastChanged + 1, unsorted)
      {
        var cambio := CompararPar(comparator, previous, cursor, index, if sorted then 0 else lastChanged + 1, unsorted);
        if cambio {
          lastChanged := index;
          sorted := false;
        }
        previous := cursor;
        cursor := cursor.next;
        index := index + 1;
      }
    }

    /** Bubble sort that cuts each pass at the last swap of the one before. It terminates for
        every comparator, because a pass that swaps lowers the bound, and permutes the data.
        If the order the comparator induces is transitive the list ends sorted by it. */
    method Sort(comparator: (T, T) -> bool)
      requires Valid()
      modifies nodos`data, this`elementos
      ensures Valid() && multiset(elementos) == multiset(old(elementos))
      ensures LeTransitiva(comparator) ==> Ordenada(comparator, elementos)
    {
      var unsorted := elements_count;
      if unsorted < 2 {
        return;
      }
      var sorted := false;
      while !sorted
        invariant 0 <= unsorted <= |nodos| && Valid()
        invariant multiset(elementos) == multiset(old(elementos))
        invariant LeTransitiva(comparator) ==> OrdenadaDesde(comparator, elementos, if sorted then 0 else unsorted + 1)
        decreases !sorted, unsorted
      {
        sorted, unsorted := Pasada(comparator, unsorted);
      }
    }
  }

  /** The order a comparator induces: x may come before y when the comparator says so, or does
      not say the opposite. For a strict order it is "not greater"; for a total preorder it is
      the preorder itself. */
  predicate Le<T>(cmp: (T, T) -> bool, x: T, y: T) {
    cmp(x, y) || !cmp(y, x)
  }

  ghost predicate LeTransitiva<T(!new)>(cmp: (T, T) -> bool) {
    forall x, y, z :: Le(cmp, x, y) && Le(cmp, y, z) ==> Le(cmp, x, z)
  }

  /** A strict weak order: irreflexive and transitive, with transitive ties. */
  ghost predicate OrdenDebilEstricto<T(!new)>(cmp: (T, T) -> bool) {
    && (forall x :: !cmp(x, x))
    && (forall x, y, z :: cmp(x, y) && cmp(y, z) ==> cmp(x, z))
    && (forall x, y, z :: !cmp(x, y) && !cmp(y, x) && !cmp(y, z) && !cmp(z, y) ==> !cmp(x, z) && !cmp(z, x))
  }

  /** With a strict weak order a list ends sorted: nobody before a lesser one, ties included. */
  lemma EstrictoOrdena<T(!new)>(cmp: (T, T) -> bool)
    requires OrdenDebilEstricto(cmp)
    ensures LeTransitiva(cmp) && forall x, y :: Le(cmp, x, y) <==> !cmp(y, x)
  {
    forall x, y
      ensures Le(cmp, x, y) <==> !cmp(y, x)
    {
      assert cmp(x, y) && cmp(y, x) ==> cmp(x, x);
    }
    forall x, y, z | Le(cmp, x, y) && Le(cmp, y, z)
      ensures Le(cmp, x, z)
    {
      assert !cmp(y, x) && !cmp(z, y);
    }
  }

  /** With a comparator that says "not after", total and transitive, it ends sorted by it. */
  lemma TotalOrdena<T(!new)>(cmp: (T, T) -> bool)
    requires forall x, y :: cmp(x, y) || cmp(y, x)
    requires forall x, y, z :: cmp(x, y) && cmp(y, z) ==> cmp(x, z)
    ensures LeTransitiva(cmp) && forall x, y :: Le(cmp, x, y) <==> cmp(x, y)
  {
  }

  /** From position `desde` on, every element is in order with all those before it. */
  ghost predicate OrdenadaDesde<T>(cmp: (T, T) -> bool, s: seq<T>, desde: int) {
    forall i, j :: 0 <= i < j < |s| && desde <= j ==> Le(cmp, s[i], s[j])
  }

  ghost predicate Ordenada<T>(cmp: (T, T) -> bool, s: seq<T>) {
    forall i, j :: 0 <= i < j < |s| ==> Le(cmp, s[i], s[j])
  }

  function Intercambiado<T>(s: seq<T>, i: nat): seq<T>
    requires i + 1 < |s|
  {
    s[i := s[i + 1]][i + 1 := s[i]]
  }

  lemma IntercambioPermuta<T>(s: seq<T>, i: nat)
    requires i + 1 < |s|
    ensures multiset(Intercambiado(s, i)) == multiset(s)
  {
  }

  /** What a pass has achieved at `index`: the element there is the greatest so far, those from
      `desde` to `index` are in order with all before them, and so are those past `hasta`. */
  ghost predicate Burbuja<T>(cmp: (T, T) -> bool, s: seq<T>, index: nat, desde: nat, hasta: nat)
    requires index < |s|
  {
    && (forall i :: 0 <= i < index ==> Le(cmp, s[i], s[index]))
    && (forall i, j :: 0 <= i < j <= index && desde <= j ==> Le(cmp, s[i], s[j]))
    && (forall i, j :: 0 <= i < j < |s| && hasta < j ==> Le(cmp, s[i], s[j]))
  }

  lemma BurbujaAvanza<T(!new)>(cmp: (T, T) -> bool, s: seq<T>, index: nat, desde: nat, hasta: nat)
    requires LeTransitiva(cmp) && index + 1 < |s| && Burbuja(cmp, s, index, desde, hasta) && cmp(s[index], s[index + 1])
    ensures Burbuja(cmp, s, index + 1, desde, hasta)
  {
    forall i | 0 <= i < index + 1
      ensures Le(cmp, s[i], s[index + 1])
    {
      assert i < index ==> Le(cmp, s[i], s[index]) && Le(cmp, s[index], s[index + 1]);
    }
  }

  lemma BurbujaIntercambia<T(!new)>(cmp: (T, T) -> bool, s: seq<T>, index: nat, desde: nat, hasta: nat)
    requires LeTransitiva(cmp) && index + 1 < |s| && index < hasta
    requires Burbuja(cmp, s, index, desde, hasta) && !cmp(s[index], s[index + 1])
    ensures Burbuja(cmp, Intercambiado(s, index), index + 1, index + 1, hasta)
  {
  }

  function Insertado<T>(s: seq<T>, i: nat, x: T): seq<T>
    requires i <= |s|
  {
    s[..i] + [x] + s[i..]
  }

  function Sucesor<T>(nodos: seq<Nodo<T>>, i: nat): Nodo?<T> {
    if i + 1 < |nodos| then nodos[i + 1] else null
  }

  /** Distinct nodes, each linked to the one after it. */
  ghost predicate Enlazados<T>(nodos: seq<Nodo<T>>)
    reads nodos`next
  {
    && (forall i {:trigger nodos[i].next} :: 0 <= i < |nodos| ==> nodos[i].next == Sucesor(nodos, i))
    && (forall i, j :: 0 <= i < j < |nodos| ==> nodos[i] != nodos[j])
  }

  /** The position of the first element that satisfies the condition, or the length. */
  function Primero<T>(s: seq<T>, condition: T -> bool): (k: nat)
    ensures k <= |s| && (k < |s| ==> condition(s[k])) && forall j :: 0 <= j < k ==> !condition(s[j])
  {
    if s == [] || condition(s[0]) then 0
    else
      var k := Primero(s[1..], condition);
      assert forall j :: 0 < j <= k ==> s[j..] == s[1..][j - 1..];
      assert forall j :: 0 < j < k + 1 ==> s[j] == s[1..][j - 1];
      k + 1
  }

  lemma PrimeroUnico<T>(s: seq<T>, condition: T -> bool, k: nat)
    requires k <= |s| && (k < |s| ==> condition(s[k])) && forall j :: 0 <= j < k ==> !condition(s[j])
    ensures Primero(s, condition) == k
  {
  }
}
