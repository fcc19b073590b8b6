/**
 * The array built-ins the timeline calls: `filter`, `find` and the stable
 * `sort` with a numeric comparator (stable since ECMAScript 2019).
 */
module Secuencias {
  import opened Opcional

  /** `s.filter(p)`. */
  function Filtrar<T(!new)>(s: seq<T>, p: T -> bool): (r: seq<T>)
    ensures |r| <= |s|
    ensures forall x :: multiset(r)[x] == if p(x) then multiset(s)[x] else 0
    ensures forall i :: 0 <= i < |r| ==> p(r[i])
  {
    if s == [] then []
    else
      var resto := Filtrar(s[1..], p);
      assert s == [s[0]] + s[1..];
      if p(s[0]) then [s[0]] + resto else resto
  }

  /**
   * `filter` keeps the order of the source: filtering a concatenation is
   * concatenating the filtered parts, and one element is kept exactly when it
   * passes.
   */
  lemma {:induction false} FiltrarConcatenar<T(!new)>(a: seq<T>, b: seq<T>, p: T -> bool)
    ensures Filtrar(a + b, p) == Filtrar(a, p) + Filtrar(b, p)
  {
    if a == [] {
      assert a + b == b;
    } else {
      assert (a + b)[0] == a[0] && (a + b)[1..] == a[1..] + b;
      FiltrarConcatenar(a[1..], b, p);
    }
  }

  lemma FiltrarUno<T(!new)>(x: T, p: T -> bool)
    ensures Filtrar([x], p) == if p(x) then [x] else []
  {
    assert [x][1..] == [];
    assert Filtrar([x][1..], p) == [];
  }

  /** The index of the first element that satisfies `p`, or `|s|` when none does. */
  function IndicePrimero<T>(s: seq<T>, p: T -> bool): (i: nat)
    ensures i <= |s|
    ensures i < |s| ==> p(s[i])
    ensures forall j :: 0 <= j < i ==> !p(s[j])
  {
    if s == [] then 0
    else if p(s[0]) then 0
    else 1 + IndicePrimero(s[1..], p)
  }

  /** `s.find(p)`: the first element that satisfies `p`, if any. */
  function Buscar<T>(s: seq<T>, p: T -> bool): (r: Option<T>)
    ensures r.None? <==> forall j :: 0 <= j < |s| ==> !p(s[j])
    ensures r.Some? ==> r.value in s && p(r.value)
    ensures r.Some? ==> exists i :: 0 <= i < |s| && s[i] == r.value && forall j :: 0 <= j < i ==> !p(s[j])
  {
    var i := IndicePrimero(s, p);
    if i < |s| then Some(s[i]) else None
  }

  /** An element that passes, with none before it passing, is what `find` returns. */
  lemma BuscarEn<T>(s: seq<T>, p: T -> bool, i: nat)
    requires i < |s| && p(s[i])
    requires forall j :: 0 <= j < i ==> !p(s[j])
    ensures IndicePrimero(s, p) == i
    ensures Buscar(s, p) == Some(s[i])
  {
    assert IndicePrimero(s, p) == i;
  }

  /** When no element passes, the index is the length and `find` returns nothing. */
  lemma BuscarNinguno<T>(s: seq<T>, p: T -> bool)
    requires forall j :: 0 <= j < |s| ==> !p(s[j])
    ensures IndicePrimero(s, p) == |s|
    ensures Buscar(s, p) == None
  {
  }

  /**
   * In a sequence ordered by non-increasing `clave`, the first element that
   * passes `p` has the greatest key among those that pass.
   */
  lemma BuscarEsMaximo<T>(s: seq<T>, p: T -> bool, clave: T -> int, x: T)
    requires forall i, j :: 0 <= i < j < |s| ==> clave(s[i]) >= clave(s[j])
    requires x in s && p(x)
    ensures Buscar(s, p).Some? && clave(x) <= clave(Buscar(s, p).value)
  {
    var m :| 0 <= m < |s| && s[m] == x;
    var k := IndicePrimero(s, p);
    assert k <= m;
  }

  /** Ascending by `clave`: what the comparator `(a, b) => clave(a) - clave(b)` asks of a sort. */
  predicate Ascendente<T>(s: seq<T>, clave: T -> int)
  {
    forall i, j :: 0 <= i < j < |s| ==> clave(s[i]) <= clave(s[j])
  }

  /** Places `x` in an ascending sequence before every element whose key is not smaller. */
  function Insertar<T>(x: T, s: seq<T>, clave: T -> int): (r: seq<T>)
    requires Ascendente(s, clave)
    ensures Ascendente(r, clave)
    ensures multiset(r) == multiset(s) + multiset{x}
    ensures |r| == |s| + 1 && (r[0] == x || (|s| > 0 && r[0] == s[0]))
  {
    if s == [] || clave(x) <= clave(s[0]) then [x] + s
    else
      var resto := Insertar(x, s[1..], clave);
      assert s == [s[0]] + s[1..];
      assert clave(s[0]) <= clave(resto[0]);
      [s[0]] + resto
  }

  /**
   * `s.sort((a, b) => clave(a) - clave(b))`: a stable sort, written as an
   * insertion sort; ECMAScript fixes the result, not the algorithm.
   */
  function OrdenarPor<T>(s: seq<T>, clave: T -> int): (r: seq<T>)
    ensures Ascendente(r, clave)
    ensures multiset(r) == multiset(s)
  {
    if s == [] then []
    else
      assert s == [s[0]] + s[1..];
      Insertar(s[0], OrdenarPor(s[1..], clave), clave)
  }

  /** Elements that share the key `k`, in order. */
  function ConClave<T(!new)>(s: seq<T>, clave: T -> int, k: int): seq<T>
  {
    Filtrar(s, MismaClave(clave, k))
  }

  /** The test "has key `k`". */
  function MismaClave<T>(clave: T -> int, k: int): T -> bool
  {
    x => clave(x) == k
  }

  lemma {:induction false} InsertarEstable<T(!new)>(x: T, s: seq<T>, clave: T -> int, k: int)
    requires Ascendente(s, clave)
    ensures ConClave(Insertar(x, s, clave), clave, k)
         == if clave(x) == k then [x] + ConClave(s, clave, k) else ConClave(s, clave, k)
  {
    var p := MismaClave(clave, k);
    if s == [] || clave(x) <= clave(s[0]) {
      assert ([x] + s)[1..] == s;
    } else {
      InsertarEstable(x, s[1..], clave, k);
      var resto := Insertar(x, s[1..], clave);
      assert ([s[0]] + resto)[1..] == resto;
      if clave(x) == k {
        // every element before the insertion point has a key smaller than `k`
        assert !p(s[0]);
      }
    }
  }

  /** The sort is stable: elements with equal keys keep their relative order. */
  lemma {:induction false} OrdenarPorEstable<T(!new)>(s: seq<T>, clave: T -> int, k: int)
    ensures ConClave(OrdenarPor(s, clave), clave, k) == ConClave(s, clave, k)
  {
    if s != [] {
      OrdenarPorEstable(s[1..], clave, k);
      InsertarEstable(s[0], OrdenarPor(s[1..], clave), clave, k);
    }
  }

  /** Two filters in a row keep what passes both tests. */
  lemma {:induction false} FiltrarDosVeces<T(!new)>(s: seq<T>, p: T -> bool, q: T -> bool, pq: T -> bool)
    requires forall x :: pq(x) == (p(x) && q(x))
    ensures Filtrar(Filtrar(s, p), q) == Filtrar(s, pq)
  {
    if s != [] {
      FiltrarDosVeces(s[1..], p, q, pq);
      var resto := Filtrar(s[1..], p);
      if p(s[0]) {
        assert ([s[0]] + resto)[1..] == resto;
      }
    }
  }

  lemma {:induction false} IndiceTrasFiltrar<T(!new)>(s: seq<T>, p: T -> bool, q: T -> bool)
    requires IndicePrimero(s, p) < |s| && q(s[IndicePrimero(s, p)])
    ensures IndicePrimero(Filtrar(s, q), p) < |Filtrar(s, q)|
    ensures Filtrar(s, q)[IndicePrimero(Filtrar(s, q), p)] == s[IndicePrimero(s, p)]
  {
    var f := Filtrar(s, q);
    if p(s[0]) {
      assert IndicePrimero(s, p) == 0;
      assert f[0] == s[0] && IndicePrimero(f, p) == 0;
    } else {
      assert IndicePrimero(s, p) == 1 + IndicePrimero(s[1..], p);
      assert s[IndicePrimero(s, p)] == s[1..][IndicePrimero(s[1..], p)];
      IndiceTrasFiltrar(s[1..], p, q);
      if q(s[0]) {
        assert f[1..] == Filtrar(s[1..], q);
        assert IndicePrimero(f, p) == 1 + IndicePrimero(f[1..], p);
      }
    }
  }

  /** The first element passing `p` is also the first one among those that pass `q` too. */
  lemma BuscarTrasFiltrar<T(!new)>(s: seq<T>, p: T -> bool, q: T -> bool)
    requires Buscar(s, p).Some? && q(Buscar(s, p).value)
    ensures Buscar(Filtrar(s, q), p) == Buscar(s, p)
  {
    IndiceTrasFiltrar(s, p, q);
  }

  /**
   * Filtering by `p` and then sorting by `clave` keeps data order among equal
   * keys, so the first element of the result to pass `act` is also the first,
   * in data order, among the elements passing `p` with the same key.
   */
  lemma PrimeroEstable<T(!new)>(s: seq<T>, p: T -> bool, clave: T -> int, act: T -> bool, r: T, pk: T -> bool)
    requires Buscar(OrdenarPor(Filtrar(s, p), clave), act) == Some(r)
    requires forall x :: pk(x) == (p(x) && clave(x) == clave(r))
    ensures Buscar(Filtrar(s, pk), act) == Some(r)
  {
    var mismaClave := MismaClave(clave, clave(r));
    BuscarTrasFiltrar(OrdenarPor(Filtrar(s, p), clave), act, mismaClave);
    OrdenarPorEstable(Filtrar(s, p), clave, clave(r));
    FiltrarDosVeces(s, p, mismaClave, pk);
  }

  /** An element found at two positions occurs at least twice. */
  lemma {:induction false} DosPosiciones<T>(s: seq<T>, i: nat, j: nat)
    requires i < j < |s| && s[i] == s[j]
    ensures multiset(s)[s[i]] >= 2
  {
    assert s == s[..j] + s[j..];
    assert s[i] == s[..j][i];
    assert s[j] == s[j..][0];
    assert s[i] in multiset(s[..j]) && s[j] in multiset(s[j..]);
  }

  /** An element that occurs at least twice is found at two positions. */
  lemma {:induction false} DosApariciones<T>(s: seq<T>, x: T) returns (i: nat, j: nat)
    requires multiset(s)[x] >= 2
    ensures i < j < |s| && s[i] == x && s[j] == x
  {
    assert s == [s[0]] + s[1..];
    if s[0] == x {
      assert x in multiset(s[1..]);
      var k :| 0 <= k < |s[1..]| && s[1..][k] == x;
      i, j := 0, k + 1;
    } else {
      var a, b := DosApariciones(s[1..], x);
      i, j := a + 1, b + 1;
    }
  }

  /**
   * Filtering and then sorting keeps data order among the elements with key
   * `k`, when every element with that key passes the filter.
   */
  lemma FiltrarOrdenarEstable<T(!new)>(s: seq<T>, p: T -> bool, clave: T -> int, k: int)
    requires forall x :: clave(x) == k ==> p(x)
    ensures ConClave(OrdenarPor(Filtrar(s, p), clave), clave, k) == ConClave(s, clave, k)
  {
    OrdenarPorEstable(Filtrar(s, p), clave, k);
    FiltrarDosVeces(s, p, MismaClave(clave, k), MismaClave(clave, k));
  }
}
