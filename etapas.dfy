/**
 * The stages of the timeline and `esEtapaActiva`, the rule that decides
 * whether a stage is active at a reference instant.
 */
module Etapas {
  import opened Opcional
  import opened Fechas

  /** `tipo_fecha`: a single date, a period, or anything else the data may hold. */
  datatype TipoFecha = FechaUnica | Periodo | OtroTipo

  /** `fecha`: the kind of date and its two optional "DD-MM-YYYY" fields. */
  datatype DescriptorFecha = DescriptorFecha(tipo: TipoFecha, fechaInicio: CampoFecha, fechaFin: CampoFecha)

  /** `seccion_destacada`: whether and how the stage fills the page's banner. */
  datatype SeccionDestacada = SeccionDestacada(
    mostrar: bool,             // mostrar_en_seccion_destacada
    contieneBoton: bool,       // contiene_boton
    enlace: Option<string>,    // enlace_seccion_destacada
    textoBoton: Option<string>, // texto_boton_destacado
    texto: Option<string>      // texto_seccion_destacada
  )

  /** One stage of `calendario.etapas`. */
  datatype Etapa = Etapa(
    orden: int,                         // orden_en_flujo
    nombre: string,                     // nombre_etapa
    fecha: Option<DescriptorFecha>,
    enlaceDocumento: Option<string>,    // enlace_documento
    seccion: Option<SeccionDestacada>
  )

  /**
   * `orden_en_flujo` as a sort key: the list sorts by it with the comparator
   * `(a, b) => a.orden_en_flujo - b.orden_en_flujo`, the banner by its reverse.
   */
  function OrdenEnFlujo(e: Etapa): int
  {
    e.orden
  }

  /** `esEtapaActiva(etapa, fechaActual)`, with the reference instant passed in. */
  function EsEtapaActiva(e: Etapa, ahora: Instante): (r: bool)
    ensures r ==> e.fecha.Some? && e.fecha.value.tipo != OtroTipo
    ensures r ==> TieneTexto(e.fecha.value.fechaInicio)
                  || (e.fecha.value.tipo == FechaUnica && TieneTexto(e.fecha.value.fechaFin))
  {
    match e.fecha
    case None => false
    case Some(d) =>
      var inicio := ParseFecha(d.fechaInicio);
      var fin := ParseFecha(d.fechaFin);
      match d.tipo
      case FechaUnica =>
        if inicio.None? && fin.Some? then Tiempo(ahora) < Tiempo(Medianoche(fin.value))
        else if inicio.Some? then Tiempo(ahora) >= Tiempo(Medianoche(inicio.value))
        else false
      case Periodo =>
        if inicio.None? then false
        else Tiempo(ahora) >= Tiempo(Medianoche(inicio.value))
             && (fin.None? || Tiempo(ahora) <= Tiempo(FinDelDia(fin.value)))
      case OtroTipo => false
  }

  /**
   * A single date with only an end counts down to that end: the stage is
   * active while the reference day is before the end day, and inactive from
   * the end day's midnight on.
   */
  lemma ActivaHastaElFin(e: Etapa, ahora: Instante)
    requires e.fecha.Some? && e.fecha.value.tipo == FechaUnica
    requires !TieneTexto(e.fecha.value.fechaInicio) && TieneTexto(e.fecha.value.fechaFin)
    ensures EsEtapaActiva(e, ahora) <==> FechaAnterior(ahora.fecha, ParseFecha(e.fecha.value.fechaFin).value)
  {
    AntesDeMedianoche(ahora, ParseFecha(e.fecha.value.fechaFin).value);
  }

  /**
   * A single date with a start is active from the start day's midnight on,
   * whatever its end says.
   */
  lemma ActivaDesdeElInicio(e: Etapa, ahora: Instante)
    requires e.fecha.Some? && e.fecha.value.tipo == FechaUnica
    requires TieneTexto(e.fecha.value.fechaInicio)
    ensures EsEtapaActiva(e, ahora) <==> !FechaAnterior(ahora.fecha, ParseFecha(e.fecha.value.fechaInicio).value)
  {
    AntesDeMedianoche(ahora, ParseFecha(e.fecha.value.fechaInicio).value);
  }

  /** Once a single date with a start is active, it stays active at every later instant. */
  lemma ActivaParaSiempre(e: Etapa, antes: Instante, despues: Instante)
    requires e.fecha.Some? && e.fecha.value.tipo == FechaUnica
    requires TieneTexto(e.fecha.value.fechaInicio)
    requires EsEtapaActiva(e, antes) && !InstanteAnterior(despues, antes)
    ensures EsEtapaActiva(e, despues)
  {
    TiempoRespetaOrden(despues, antes);
  }

  /**
   * A period is active exactly on the days from its start to its end, both
   * included (no end: no upper bound); without a start it is never active.
   */
  lemma ActivaEnElPeriodo(e: Etapa, ahora: Instante)
    requires e.fecha.Some? && e.fecha.value.tipo == Periodo
    ensures EsEtapaActiva(e, ahora) <==>
      && TieneTexto(e.fecha.value.fechaInicio)
      && !FechaAnterior(ahora.fecha, ParseFecha(e.fecha.value.fechaInicio).value)
      && (!TieneTexto(e.fecha.value.fechaFin)
          || !FechaAnterior(ParseFecha(e.fecha.value.fechaFin).value, ahora.fecha))
  {
    var d := e.fecha.value;
    if TieneTexto(d.fechaInicio) {
      AntesDeMedianoche(ahora, ParseFecha(d.fechaInicio).value);
      if TieneTexto(d.fechaFin) {
        DespuesDeFinDelDia(ahora, ParseFecha(d.fechaFin).value);
      }
    }
  }

  /**
   * A stage is never active without a `fecha`, with an unknown `tipo_fecha`,
   * or as a single date with neither start nor end.
   */
  lemma NuncaActiva(e: Etapa, ahora: Instante)
    requires || e.fecha.None?
             || e.fecha.value.tipo == OtroTipo
             || (e.fecha.value.tipo == FechaUnica
                 && !TieneTexto(e.fecha.value.fechaInicio) && !TieneTexto(e.fecha.value.fechaFin))
    ensures !EsEtapaActiva(e, ahora)
  {
  }
}
