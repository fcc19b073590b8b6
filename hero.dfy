/**
 * `actualizarHeroBanner`: what the banner's call-to-action area shows for the
 * featured stage — a link button, a line of text, or nothing.
 */
module Hero {
  import opened Opcional
  import opened Texto
  import opened Fechas
  import opened Etapas
  import opened Destacada

  /** The content placed in the banner's call-to-action area. */
  datatype ContenidoHero =
    | HeroVacio
      /** An `<a class="cta-button">`; `nuevaPestana` stands for `target="_blank"`. */
    | HeroBoton(href: string, texto: string, nuevaPestana: bool)
      /** A `<p class="cta-text">`. */
    | HeroTexto(texto: string)

  /** The label of a button whose section gives none. */
  const TEXTO_BOTON_POR_DEFECTO := "Ver más"

  /** `actualizarHeroBanner(etapaDestacada)`, once the area has been emptied. */
  function ActualizarHeroBanner(destacada: Option<Etapa>): (c: ContenidoHero)
    ensures c.HeroVacio? <==> destacada.None? || destacada.value.seccion.None?
    ensures c.HeroBoton? <==>
              && destacada.Some? && destacada.value.seccion.Some?
              && destacada.value.seccion.value.contieneBoton
              && TieneTexto(destacada.value.seccion.value.enlace)
    ensures c.HeroBoton? ==>
              var s := destacada.value.seccion.value;
              && c.href == s.enlace.value && c.href != ""
              && c.texto != ""
              && (TieneTexto(s.textoBoton) ==> c.texto == s.textoBoton.value)
              && (!TieneTexto(s.textoBoton) ==> c.texto == TEXTO_BOTON_POR_DEFECTO)
              && (c.nuevaPestana <==> EmpiezaPor(c.href, "http"))
    ensures c.HeroTexto? ==>
              var s := destacada.value.seccion.value;
              && (TieneTexto(s.texto) ==> c.texto == s.texto.value)
              && (!TieneTexto(s.texto) ==> c.texto == "")
  {
    if destacada.None? || destacada.value.seccion.None? then HeroVacio
    else
      var s := destacada.value.seccion.value;
      if s.contieneBoton && TieneTexto(s.enlace) then
        var href := s.enlace.value;
        HeroBoton(href, TextoO(s.textoBoton, TEXTO_BOTON_POR_DEFECTO), EmpiezaPor(href, "http"))
      else
        HeroTexto(TextoO(s.texto, ""))
  }

  /**
   * The page's banner: empty exactly when no stage is featured, since every
   * featured stage has a section; when a stage is featured its own section
   * decides between button and text.
   */
  lemma BannerDeLaPagina(etapas: seq<Etapa>, ahora: Instante)
    ensures ActualizarHeroBanner(EtapaDestacada(etapas, ahora)).HeroVacio?
        <==> EtapaDestacada(etapas, ahora).None?
    ensures EtapaDestacada(etapas, ahora).Some? ==>
              (ActualizarHeroBanner(EtapaDestacada(etapas, ahora)).HeroBoton?
               <==> EtapaDestacada(etapas, ahora).value.seccion.value.contieneBoton
                    && TieneTexto(EtapaDestacada(etapas, ahora).value.seccion.value.enlace))
  {
  }
}
