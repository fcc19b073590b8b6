/**
 * `encontrarEtapaDestacada`: the stage whose featured section fills the
 * banner — the most advanced active featured stage, or else the stage with
 * `orden_en_flujo` 0 while the call has not yet opened ("pre-convocatoria").
 */
module Destacada {
  import opened Opcional
  import opened Fechas
  import opened Secuencias
  import opened Etapas

  /** `etapa.seccion_destacada?.mostrar_en_seccion_destacada`. */
  predicate EsDestacable(e: Etapa)
  {
    e.seccion.Some? && e.seccion.value.mostrar
  }

  /** The sort key of the comparator `(a, b) => b.orden_en_flujo - a.orden_en_flujo`. */
  function OrdenDescendente(e: Etapa): int
  {
    -e.orden
  }

  /** The featured stages, most advanced first (lines 133-135). */
  function Candidatas(etapas: seq<Etapa>): (r: seq<Etapa>)
    ensures forall e :: multiset(r)[e] == if EsDestacable(e) then multiset(etapas)[e] else 0
    ensures forall i, j :: 0 <= i < j < |r| ==> r[i].orden >= r[j].orden
  {
    var c := OrdenarPor(Filtrar(etapas, EsDestacable), OrdenDescendente);
    assert forall i, j :: 0 <= i < j < |c| ==> OrdenDescendente(c[i]) <= OrdenDescendente(c[j]);
    c
  }

  predicate EsOrdenCero(e: Etapa)
  {
    e.orden == 0
  }

  /** `primeraEtapa.fecha?.fecha_inicio && primeraEtapa.fecha.fecha_inicio !== ''`. */
  predicate TieneFechaInicio(e: Etapa)
  {
    e.fecha.Some? && TieneTexto(e.fecha.value.fechaInicio)
  }

  /** `parseFecha(primeraEtapa.fecha?.fecha_fin)`. */
  function FechaFin(e: Etapa): Option<FechaCalendario>
  {
    if e.fecha.Some? then ParseFecha(e.fecha.value.fechaFin) else None
  }

  /** The fallback of lines 148-163 once the scan has found no active featured stage. */
  function PreConvocatoria(etapas: seq<Etapa>, ahora: Instante): (r: Option<Etapa>)
    ensures r.Some? ==> r.value in etapas && r.value.orden == 0 && EsDestacable(r.value)
    ensures r.Some? ==> !TieneFechaInicio(r.value) && FechaFin(r.value).Some?
  {
    var primera := Buscar(etapas, EsOrdenCero);
    if && primera.Some?
       && EsDestacable(primera.value)
       && !TieneFechaInicio(primera.value)
       && FechaFin(primera.value).Some?
       && Tiempo(ahora) < Tiempo(FinDelDia(FechaFin(primera.value).value))
    then primera
    else None
  }

  /** What `encontrarEtapaDestacada` returns, as a function of the stages and the reference instant. */
  function EtapaDestacada(etapas: seq<Etapa>, ahora: Instante): (r: Option<Etapa>)
    ensures r.Some? ==> r.value in etapas && EsDestacable(r.value)
    ensures r.Some? ==> EsEtapaActiva(r.value, ahora) || r.value.orden == 0
  {
    var activa := Buscar(Candidatas(etapas), e => EsEtapaActiva(e, ahora));
    if activa.Some? then
      assert activa.value in multiset(Candidatas(etapas));
      activa
    else PreConvocatoria(etapas, ahora)
  }

  /** `encontrarEtapaDestacada(datos)`, with the reference instant passed in. */
  method EncontrarEtapaDestacada(etapas: seq<Etapa>, ahora: Instante) returns (r: Option<Etapa>)
    ensures r == EtapaDestacada(etapas, ahora)
  {
    var candidatas := Candidatas(etapas);
    var activa := e => EsEtapaActiva(e, ahora);
    for i := 0 to |candidatas|
      invariant forall j :: 0 <= j < i ==> !activa(candidatas[j])
    {
      if activa(candidatas[i]) {
        BuscarEn(candidatas, activa, i);
        return Some(candidatas[i]);
      }
    }
    BuscarNinguno(candidatas, activa);
    assert EtapaDestacada(etapas, ahora) == PreConvocatoria(etapas, ahora);
    var primera := Buscar(etapas, EsOrdenCero);
    if primera.Some? && EsDestacable(primera.value) {
      var conInicio := TieneFechaInicio(primera.value);
      var fin := FechaFin(primera.value);
      if !conInicio && fin.Some? {
        if Tiempo(ahora) < Tiempo(FinDelDia(fin.value)) {
          return primera;
        }
      }
    }
    return None;
  }

  /**
   * When some featured stage is active, the result is a featured stage of the
   * data, active at the reference instant, and no active featured stage has a
   * greater `orden_en_flujo`.
   */
  lemma DestacadaEsLaMasAvanzada(etapas: seq<Etapa>, ahora: Instante, otra: Etapa)
    requires otra in etapas && EsDestacable(otra) && EsEtapaActiva(otra, ahora)
    ensures EtapaDestacada(etapas, ahora).Some?
    ensures EtapaDestacada(etapas, ahora).value in etapas
    ensures EsDestacable(EtapaDestacada(etapas, ahora).value)
    ensures EsEtapaActiva(EtapaDestacada(etapas, ahora).value, ahora)
    ensures otra.orden <= EtapaDestacada(etapas, ahora).value.orden
  {
    var c := Candidatas(etapas);
    assert otra in multiset(etapas);
    assert otra in multiset(c);
    BuscarEsMaximo(c, e => EsEtapaActiva(e, ahora), OrdenEnFlujo, otra);
  }

  /** When no featured stage is active, the result is the pre-announcement fallback. */
  lemma SinActivasPreConvocatoria(etapas: seq<Etapa>, ahora: Instante)
    requires forall e :: e in etapas && EsDestacable(e) ==> !EsEtapaActiva(e, ahora)
    ensures EtapaDestacada(etapas, ahora) == PreConvocatoria(etapas, ahora)
  {
    var c := Candidatas(etapas);
    forall j | 0 <= j < |c| ensures !EsEtapaActiva(c[j], ahora) {
      assert c[j] in multiset(c);
      assert c[j] in multiset(etapas);
    }
  }

  /**
   * The fallback yields the first stage with `orden_en_flujo` 0 exactly when it
   * is featured, has no start date, has an end date, and the reference instant
   * is before the last millisecond of that end day; otherwise it yields nothing.
   */
  lemma PreConvocatoriaCondiciones(etapas: seq<Etapa>, ahora: Instante)
    ensures var k := IndicePrimero(etapas, EsOrdenCero);
      PreConvocatoria(etapas, ahora)
      == if && k < |etapas|
            && EsDestacable(etapas[k])
            && !TieneFechaInicio(etapas[k])
            && FechaFin(etapas[k]).Some?
            && InstanteAnterior(ahora, FinDelDia(FechaFin(etapas[k]).value))
         then Some(etapas[k])
         else None
  {
    var k := IndicePrimero(etapas, EsOrdenCero);
    if k < |etapas| && FechaFin(etapas[k]).Some? {
      TiempoRespetaOrden(ahora, FinDelDia(FechaFin(etapas[k]).value));
    }
  }

  /**
   * On the end day of a pre-announcement stage the stage itself is no longer
   * active (a single date with only an end counts down to that day's
   * midnight), yet, when no other featured stage is active, the fallback
   * still features it for the whole day.
   */
  lemma VentanaPreConvocatoria(etapas: seq<Etapa>, fin: FechaCalendario)
    requires |etapas| > 0 && etapas[0].orden == 0 && EsDestacable(etapas[0])
    requires etapas[0].fecha.Some? && etapas[0].fecha.value.tipo == FechaUnica
    requires !TieneTexto(etapas[0].fecha.value.fechaInicio)
    requires ParseFecha(etapas[0].fecha.value.fechaFin) == Some(fin)
    requires forall e :: e in etapas && EsDestacable(e) && e != etapas[0] ==> !EsEtapaActiva(e, Medianoche(fin))
    ensures !EsEtapaActiva(etapas[0], Medianoche(fin))
    ensures EtapaDestacada(etapas, Medianoche(fin)) == Some(etapas[0])
  {
    ActivaHastaElFin(etapas[0], Medianoche(fin));
    assert !EsEtapaActiva(etapas[0], Medianoche(fin));
    SinActivasPreConvocatoria(etapas, Medianoche(fin));
    PreConvocatoriaCondiciones(etapas, Medianoche(fin));
  }

  /**
   * Ties on `orden_en_flujo` go to data order: among the featured stages with
   * the result's `orden_en_flujo`, taken in the order of the data, the result
   * is the first one active at the reference instant (the sort is stable).
   */
  lemma DestacadaPrimeraEnLosDatos(etapas: seq<Etapa>, ahora: Instante)
    requires Buscar(Candidatas(etapas), e => EsEtapaActiva(e, ahora)).Some?
    ensures var r := EtapaDestacada(etapas, ahora).value;
      Buscar(Filtrar(etapas, e => EsDestacable(e) && e.orden == r.orden), e => EsEtapaActiva(e, ahora))
      == Some(r)
  {
    var activa := e => EsEtapaActiva(e, ahora);
    var r := Buscar(Candidatas(etapas), activa).value;
    assert EtapaDestacada(etapas, ahora) == Some(r);
    assert Candidatas(etapas) == OrdenarPor(Filtrar(etapas, EsDestacable), OrdenDescendente);
    var mismaPosicion := e => EsDestacable(e) && e.orden == r.orden;
    forall x ensures mismaPosicion(x) == (EsDestacable(x) && OrdenDescendente(x) == OrdenDescendente(r)) {
    }
    PrimeroEstable(etapas, EsDestacable, OrdenDescendente, activa, r, mismaPosicion);
  }
}
