/**
 * `renderizarEtapas`: the list of stage cards, in flow order, with the
 * stage with `orden_en_flujo` 0 left out. Each card carries its number, the
 * stage's name and date text, whether it is active, and its "Consultar"
 * button.
 */
module Render {
  import opened Opcional
  import opened Texto
  import opened Fechas
  import opened Secuencias
  import opened Etapas

  /** The "Consultar" link of a card; `nuevaPestana` stands for `target="_blank"`. */
  datatype BotonConsultar = BotonConsultar(href: string, deshabilitado: bool, nuevaPestana: bool)

  /** One `stage-item`. `periodo` is the `period` class of its date line. */
  datatype Tarjeta = Tarjeta(
    numero: nat,
    nombre: string,
    activa: bool,
    textoFecha: string,
    periodo: bool,
    boton: BotonConsultar
  )

  predicate Visible(e: Etapa)
  {
    e.orden != 0
  }

  /** The stages that get a card, in the order of the list (lines 209-211). */
  function EtapasVisibles(etapas: seq<Etapa>): (r: seq<Etapa>)
    ensures forall i, j :: 0 <= i < j < |r| ==> r[i].orden <= r[j].orden
    ensures forall e :: multiset(r)[e] == if e.orden != 0 then multiset(etapas)[e] else 0
  {
    var v := OrdenarPor(Filtrar(etapas, Visible), OrdenEnFlujo);
    assert forall i, j :: 0 <= i < j < |v| ==> OrdenEnFlujo(v[i]) <= OrdenEnFlujo(v[j]);
    v
  }

  /**
   * The date line of a card: the range text for a period, otherwise the
   * start date, or the end date when there is no start.
   */
  function TextoFechaTarjeta(d: DescriptorFecha): (t: string)
    ensures d.tipo == Periodo ==> (t == "" <==> !TieneTexto(d.fechaInicio))
    ensures d.tipo != Periodo ==> (t == "" <==> !TieneTexto(d.fechaInicio) && !TieneTexto(d.fechaFin))
  {
    if d.tipo == Periodo then FormatearRangoFecha(d.fechaInicio, d.fechaFin)
    else
      FormatearFecha(ParseFecha(if TieneTexto(d.fechaInicio) then d.fechaInicio else d.fechaFin))
  }

  /** The card the stage at position `indice` of the list gets. */
  function TarjetaDe(e: Etapa, indice: nat, ahora: Instante): (t: Tarjeta)
    requires e.fecha.Some?
    ensures t.numero == indice + 1 && t.nombre == e.nombre
    ensures t.activa == EsEtapaActiva(e, ahora)
    ensures t.textoFecha == TextoFechaTarjeta(e.fecha.value) && t.periodo == (e.fecha.value.tipo == Periodo)
    ensures !t.boton.deshabilitado <==> t.activa && TieneTexto(e.enlaceDocumento)
    ensures t.boton.deshabilitado ==> t.boton.href == "#" && !t.boton.nuevaPestana
    ensures !t.boton.deshabilitado ==>
              t.boton.href == e.enlaceDocumento.value && (t.boton.nuevaPestana <==> EmpiezaPor(t.boton.href, "http"))
  {
    var activa := EsEtapaActiva(e, ahora);
    var habilitado := activa && TieneTexto(e.enlaceDocumento);
    var boton :=
      if habilitado then BotonConsultar(e.enlaceDocumento.value, false, EmpiezaPor(e.enlaceDocumento.value, "http"))
      else BotonConsultar("#", true, false);
    Tarjeta(indice + 1, e.nombre, activa, TextoFechaTarjeta(e.fecha.value), e.fecha.value.tipo == Periodo, boton)
  }

  predicate SinFecha(e: Etapa)
  {
    e.fecha.None?
  }

  /** The cards of the first `n` stages of the list. */
  function TarjetasHasta(visibles: seq<Etapa>, n: nat, ahora: Instante): (r: seq<Tarjeta>)
    requires n <= |visibles|
    requires forall j :: 0 <= j < n ==> visibles[j].fecha.Some?
    ensures |r| == n
  {
    seq(n, j requires 0 <= j < n => TarjetaDe(visibles[j], j, ahora))
  }

  lemma TarjetasHastaSiguiente(visibles: seq<Etapa>, n: nat, ahora: Instante)
    requires n < |visibles|
    requires forall j :: 0 <= j <= n ==> visibles[j].fecha.Some?
    ensures TarjetasHasta(visibles, n + 1, ahora) == TarjetasHasta(visibles, n, ahora) + [TarjetaDe(visibles[n], n, ahora)]
  {
  }

  /** The list stops early exactly when some listed stage has no `fecha`. */
  lemma DetenidoSinFecha(etapas: seq<Etapa>)
    ensures IndicePrimero(EtapasVisibles(etapas), SinFecha) < |EtapasVisibles(etapas)|
        <==> exists e :: e in etapas && e.orden != 0 && e.fecha.None?
  {
    var visibles := EtapasVisibles(etapas);
    var n := IndicePrimero(visibles, SinFecha);
    if n < |visibles| {
      assert visibles[n] in multiset(visibles);
      assert visibles[n] in multiset(etapas);
    } else {
      forall e | e in etapas && e.orden != 0 ensures e.fecha.Some? {
        assert e in multiset(etapas);
        assert e in multiset(visibles);
      }
    }
  }

  /** The body of the `forEach` callback for a stage that has a `fecha`. */
  method ConstruirTarjeta(etapa: Etapa, indice: nat, ahora: Instante) returns (t: Tarjeta)
    requires etapa.fecha.Some?
    ensures t == TarjetaDe(etapa, indice, ahora)
  {
    var activa := EsEtapaActiva(etapa, ahora);
    var d := etapa.fecha.value;
    var textoFecha;
    if d.tipo == Periodo {
      textoFecha := FormatearRangoFecha(d.fechaInicio, d.fechaFin);
    } else {
      var campo := if TieneTexto(d.fechaInicio) then d.fechaInicio else d.fechaFin;
      textoFecha := FormatearFecha(ParseFecha(campo));
    }
    var boton := BotonConsultar(TextoO(etapa.enlaceDocumento, "#"), false, false);
    if !activa || !TieneTexto(etapa.enlaceDocumento) {
      boton := boton.(deshabilitado := true, href := "#");
    } else if EmpiezaPor(etapa.enlaceDocumento.value, "http") {
      boton := boton.(nuevaPestana := true);
    }
    t := Tarjeta(indice + 1, etapa.nombre, activa, textoFecha, d.tipo == Periodo, boton);
  }

  /**
   * `renderizarEtapas(datos)`, with the reference instant passed in: the cards
   * appended to the list, and whether the loop stopped on a TypeError (a
   * listed stage without `fecha`; the cards already appended stay).
   */
  method RenderizarEtapas(etapas: seq<Etapa>, ahora: Instante) returns (tarjetas: seq<Tarjeta>, fallo: bool)
    ensures var visibles := EtapasVisibles(etapas);
            var n := IndicePrimero(visibles, SinFecha);
            tarjetas == TarjetasHasta(visibles, n, ahora) && (fallo <==> n < |visibles|)
    ensures fallo <==> exists e :: e in etapas && e.orden != 0 && e.fecha.None?
  {
    var visibles := EtapasVisibles(etapas);
    tarjetas := [];
    var i := 0;
    while i < |visibles|
      invariant 0 <= i <= |visibles|
      invariant forall j :: 0 <= j < i ==> visibles[j].fecha.Some?
      invariant tarjetas == TarjetasHasta(visibles, i, ahora)
    {
      if visibles[i].fecha.None? {
        // reading `etapa.fecha.tipo_fecha` throws and ends the forEach
        BuscarEn(visibles, SinFecha, i);
        DetenidoSinFecha(etapas);
        return tarjetas, true;
      }
      var tarjeta := ConstruirTarjeta(visibles[i], i, ahora);
      TarjetasHastaSiguiente(visibles, i, ahora);
      tarjetas := tarjetas + [tarjeta];
      i := i + 1;
    }
    BuscarNinguno(visibles, SinFecha);
    DetenidoSinFecha(etapas);
    return tarjetas, false;
  }

  /**
   * Stages that share an `orden_en_flujo` are listed in the order of the data
   * (the sort is stable).
   */
  lemma MismoOrdenEnOrdenDeDatos(etapas: seq<Etapa>, k: int)
    requires k != 0
    ensures ConClave(EtapasVisibles(etapas), OrdenEnFlujo, k) == ConClave(etapas, OrdenEnFlujo, k)
  {
    FiltrarOrdenarEstable(etapas, Visible, OrdenEnFlujo, k);
  }

  /** No two stages share an `orden_en_flujo` other than 0. */
  predicate OrdenesDistintos(etapas: seq<Etapa>)
  {
    forall i, j :: 0 <= i < j < |etapas| && etapas[i].orden != 0 ==> etapas[i].orden != etapas[j].orden
  }

  /** With distinct flow positions a listed stage occurs once in the data. */
  lemma UnaSolaVez(etapas: seq<Etapa>, x: Etapa)
    requires OrdenesDistintos(etapas) && x.orden != 0
    ensures multiset(etapas)[x] <= 1
  {
    if multiset(etapas)[x] >= 2 {
      var a, b := DosApariciones(etapas, x);
    }
  }

  /** With distinct flow positions two different listed stages have different positions. */
  lemma OrdenDistinto(etapas: seq<Etapa>, x: Etapa, y: Etapa)
    requires OrdenesDistintos(etapas)
    requires x in etapas && y in etapas && x != y && x.orden != 0
    ensures x.orden != y.orden
  {
    var a :| 0 <= a < |etapas| && etapas[a] == x;
    var b :| 0 <= b < |etapas| && etapas[b] == y;
  }

  /** With distinct flow positions the list is strictly increasing. */
  lemma VisiblesCrecientes(etapas: seq<Etapa>)
    requires OrdenesDistintos(etapas)
    ensures forall i, j :: 0 <= i < j < |EtapasVisibles(etapas)| ==>
              EtapasVisibles(etapas)[i].orden < EtapasVisibles(etapas)[j].orden
  {
    var v := EtapasVisibles(etapas);
    forall i, j | 0 <= i < j < |v| ensures v[i].orden < v[j].orden {
      assert v[i] in multiset(v) && v[j] in multiset(v);
      UnaSolaVez(etapas, v[i]);
      if v[i] == v[j] {
        DosPosiciones(v, i, j);
      }
      OrdenDistinto(etapas, v[i], v[j]);
    }
  }

  /** In a strictly increasing list, positions j - i apart differ by at least j - i. */
  lemma {:induction false} Separados(v: seq<Etapa>, i: nat, j: nat)
    requires forall a, b :: 0 <= a < b < |v| ==> v[a].orden < v[b].orden
    requires i <= j < |v|
    ensures v[j].orden >= v[i].orden + (j - i)
    decreases j - i
  {
    if i < j {
      Separados(v, i, j - 1);
    }
  }

  /**
   * The card number is the position in the list plus one, not the stage's
   * `orden_en_flujo`. The two agree when the listed stages are numbered
   * 1, 2, ..., n without repetition: then the j-th card (0-based) shows the
   * stage with `orden_en_flujo` j + 1.
   */
  lemma NumeroEsOrdenEnFlujo(etapas: seq<Etapa>)
    requires OrdenesDistintos(etapas)
    requires forall e :: e in etapas && e.orden != 0 ==> 1 <= e.orden <= |EtapasVisibles(etapas)|
    ensures forall j :: 0 <= j < |EtapasVisibles(etapas)| ==> EtapasVisibles(etapas)[j].orden == j + 1
  {
    var v := EtapasVisibles(etapas);
    VisiblesCrecientes(etapas);
    forall j | 0 <= j < |v| ensures v[j].orden == j + 1 {
      assert v[0] in multiset(v) && v[|v| - 1] in multiset(v);
      assert v[0] in etapas && v[|v| - 1] in etapas;
      Separados(v, 0, j);
      Separados(v, j, |v| - 1);
    }
  }
}
