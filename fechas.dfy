/**
 * Calendar dates as the page reads and prints them: `parseFecha` on the
 * data's "DD-MM-YYYY" strings, `formatearFecha` and `formatearRangoFecha`
 * in Spanish, and the instants (`Date` values) the activation rules compare.
 */
module Fechas {
  import opened Opcional
  import opened Texto

  datatype Fecha = Fecha(anio: int, mes: int, dia: int)

  /** Gregorian leap years. */
  predicate EsBisiesto(anio: int)
  {
    (anio % 4 == 0 && anio % 100 != 0) || anio % 400 == 0
  }

  function DiasDelMes(anio: int, mes: int): (n: int)
    requires 1 <= mes <= 12
    ensures 28 <= n <= 31
    ensures n == 31 <==> mes in {1, 3, 5, 7, 8, 10, 12}
    ensures mes == 2 ==> (n == 29 <==> EsBisiesto(anio))
  {
    if mes == 2 then (if EsBisiesto(anio) then 29 else 28)
    else if mes in {4, 6, 9, 11} then 30
    else 31
  }

  /** A day that exists in the calendar (years before the common era are not used). */
  predicate FechaValida(f: Fecha)
  {
    f.anio >= 0 && 1 <= f.mes <= 12 && 1 <= f.dia <= DiasDelMes(f.anio, f.mes)
  }

  type FechaCalendario = f: Fecha | FechaValida(f) witness Fecha(2024, 1, 1)

  /** The year `new Date(anio, mes - 1, dia)` uses: years 0 to 99 mean 1900 to 1999. */
  function AnioJs(anio: nat): (a: nat)
    ensures anio >= 100 ==> a == anio
    ensures anio < 100 ==> 1900 <= a < 2000
  {
    if anio <= 99 then 1900 + anio else anio
  }

  /**
   * The fields `fechaString.split('-')` yields for a date string the page can
   * use: day, month and year, each a run of decimal digits, a year whose value
   * is at most 9999, and a day that exists in that month of that year
   * (anything else makes `new Date` roll over or give an invalid date).
   */
  predicate CamposDeFecha(campos: seq<string>)
  {
    && |campos| == 3
    && EsNumeral(campos[0]) && EsNumeral(campos[1]) && EsNumeral(campos[2])
    && ValorDigitos(campos[2]) <= 9999
    && FechaValida(Fecha(AnioJs(ValorDigitos(campos[2])), ValorDigitos(campos[1]), ValorDigitos(campos[0])))
  }

  predicate TextoFechaValido(s: string)
  {
    CamposDeFecha(Dividir(s, '-'))
  }

  /** A date field of the data: missing, empty, or a date string the page can use. */
  predicate CampoAdmisible(o: Option<string>)
  {
    !TieneTexto(o) || TextoFechaValido(o.value)
  }

  type CampoFecha = o: Option<string> | CampoAdmisible(o) witness None

  /** `parseFecha`: nothing for a missing or empty field, the calendar date otherwise. */
  function ParseFecha(campo: CampoFecha): (r: Option<FechaCalendario>)
    ensures r.None? <==> !TieneTexto(campo)
  {
    if !TieneTexto(campo) then None
    else
      var campos := Dividir(campo.value, '-');
      Some(Fecha(AnioJs(ValorDigitos(campos[2])), ValorDigitos(campos[1]), ValorDigitos(campos[0])))
  }

  const MESES: seq<string> := [
    "enero", "febrero", "marzo", "abril", "mayo", "junio",
    "julio", "agosto", "septiembre", "octubre", "noviembre", "diciembre"
  ]

  function NombreMes(mes: int): string
    requires 1 <= mes <= 12
  {
    MESES[mes - 1]
  }

  /** `formatearFecha`: "<day> de <month> <year>", or "" for no date. */
  function FormatearFecha(f: Option<FechaCalendario>): (s: string)
    ensures s == "" <==> f.None?
  {
    match f
    case None => ""
    case Some(d) => NumeroATexto(d.dia) + " de " + NombreMes(d.mes) + " " + NumeroATexto(d.anio)
  }

  /** The string "DD-MM-YYYY" splits on '-' into its three fields. */
  lemma DividirFecha(dd: string, mm: string, aaaa: string)
    requires SoloDigitos(dd) && SoloDigitos(mm) && SoloDigitos(aaaa)
    ensures Dividir(dd + "-" + mm + "-" + aaaa, '-') == [dd, mm, aaaa]
  {
    var campos := [dd, mm, aaaa];
    assert '-' !in dd by { assert forall c :: c in dd ==> EsDigito(c); }
    assert '-' !in mm by { assert forall c :: c in mm ==> EsDigito(c); }
    assert '-' !in aaaa by { assert forall c :: c in aaaa ==> EsDigito(c); }
    assert Unir(campos[2..], '-') == aaaa;
    assert campos[1..][1..] == campos[2..];
    assert Unir(campos[1..], '-') == mm + "-" + aaaa;
    assert Unir(campos, '-') == dd + "-" + (mm + "-" + aaaa);
    assert dd + "-" + (mm + "-" + aaaa) == dd + "-" + mm + "-" + aaaa;
    DividirUnir(campos, '-');
  }

  /**
   * Parsing a "DD-MM-YYYY" string yields day DD, month MM and year YYYY (a
   * year below 100 read as 19YY, as `new Date` does).
   */
  lemma ParsearCampos(dd: string, mm: string, aaaa: string)
    requires EsNumeral(dd) && EsNumeral(mm) && EsNumeral(aaaa)
    requires ValorDigitos(aaaa) <= 9999
    requires FechaValida(Fecha(AnioJs(ValorDigitos(aaaa)), ValorDigitos(mm), ValorDigitos(dd)))
    ensures CampoAdmisible(Some(dd + "-" + mm + "-" + aaaa))
    ensures ParseFecha(Some(dd + "-" + mm + "-" + aaaa))
         == Some(Fecha(AnioJs(ValorDigitos(aaaa)), ValorDigitos(mm), ValorDigitos(dd)))
  {
    DividirFecha(dd, mm, aaaa);
  }

  /**
   * Formatting the date parsed from "DD-MM-YYYY" writes the day without its
   * leading zeros, the month's name and the year; a year field of 100 or more
   * without a leading zero is written back as it was.
   */
  lemma ParsearYFormatear(dd: string, mm: string, aaaa: string)
    requires EsNumeral(dd) && EsNumeral(mm) && EsNumeral(aaaa)
    requires ValorDigitos(aaaa) <= 9999
    requires FechaValida(Fecha(AnioJs(ValorDigitos(aaaa)), ValorDigitos(mm), ValorDigitos(dd)))
    ensures CampoAdmisible(Some(dd + "-" + mm + "-" + aaaa))
    ensures FormatearFecha(ParseFecha(Some(dd + "-" + mm + "-" + aaaa)))
         == SinCerosIniciales(dd) + " de " + NombreMes(ValorDigitos(mm)) + " " + NumeroATexto(AnioJs(ValorDigitos(aaaa)))
    ensures ValorDigitos(aaaa) >= 100 && aaaa[0] != '0' ==> NumeroATexto(AnioJs(ValorDigitos(aaaa))) == aaaa
  {
    ParsearCampos(dd, mm, aaaa);
    NumeroATextoDeValor(dd);
    if ValorDigitos(aaaa) >= 100 && aaaa[0] != '0' {
      NumeroATextoCanonico(aaaa);
    }
  }

  /** The text of a range once its start is known to be a date: lines 26-52 of `formatearRangoFecha`. */
  function FormatearRango(a: FechaCalendario, b: Option<FechaCalendario>): (s: string)
    ensures EmpiezaPor(s, NumeroATexto(a.dia) + " ")
  {
    if b.None? || Tiempo(Medianoche(a)) == Tiempo(Medianoche(b.value)) then FormatearFecha(Some(a))
    else if a.anio == b.value.anio && a.mes == b.value.mes then
      NumeroATexto(a.dia) + " al " + NumeroATexto(b.value.dia) + " de " + NombreMes(a.mes) + " " + NumeroATexto(a.anio)
    else FormatearFecha(Some(a)) + " al " + FormatearFecha(b)
  }

  /** `formatearRangoFecha`: nothing without a start, the range text otherwise. */
  function FormatearRangoFecha(inicio: CampoFecha, fin: CampoFecha): (s: string)
    ensures s == "" <==> !TieneTexto(inicio)
    ensures TieneTexto(inicio) ==> EmpiezaPor(s, NumeroATexto(ParseFecha(inicio).value.dia) + " ")
  {
    if !TieneTexto(inicio) then "" else FormatearRango(ParseFecha(inicio).value, ParseFecha(fin))
  }

  /**
   * The four shapes of a range: nothing without a start; the single date when
   * the end is missing or the same day; "<d1> al <d2> de <month> <year>" within
   * one month of one year; both full dates otherwise.
   */
  lemma RangoCasos(inicio: CampoFecha, fin: CampoFecha)
    ensures !TieneTexto(inicio) ==> FormatearRangoFecha(inicio, fin) == ""
    ensures TieneTexto(inicio) && (ParseFecha(fin).None? || ParseFecha(fin) == ParseFecha(inicio)) ==>
              FormatearRangoFecha(inicio, fin) == FormatearFecha(ParseFecha(inicio))
    ensures TieneTexto(inicio) && ParseFecha(fin).Some? && ParseFecha(fin) != ParseFecha(inicio)
            && ParseFecha(fin).value.anio == ParseFecha(inicio).value.anio
            && ParseFecha(fin).value.mes == ParseFecha(inicio).value.mes ==>
              FormatearRangoFecha(inicio, fin)
              == NumeroATexto(ParseFecha(inicio).value.dia) + " al " + NumeroATexto(ParseFecha(fin).value.dia)
                 + " de " + NombreMes(ParseFecha(inicio).value.mes) + " " + NumeroATexto(ParseFecha(inicio).value.anio)
    ensures TieneTexto(inicio) && ParseFecha(fin).Some?
            && (ParseFecha(fin).value.anio != ParseFecha(inicio).value.anio
                || ParseFecha(fin).value.mes != ParseFecha(inicio).value.mes) ==>
              FormatearRangoFecha(inicio, fin) == FormatearFecha(ParseFecha(inicio)) + " al " + FormatearFecha(ParseFecha(fin))
  {
    if TieneTexto(inicio) && ParseFecha(fin).Some? {
      TiempoRespetaOrden(Medianoche(ParseFecha(inicio).value), Medianoche(ParseFecha(fin).value));
    }
  }

  lemma ValorDosDigitos(s: string)
    requires |s| == 2 && SoloDigitos(s)
    ensures ValorDigitos(s) == ValorDigito(s[0]) * 10 + ValorDigito(s[1])
  {
    assert s[..1][..0] == [] && s[..1][0] == s[0];
    assert ValorDigitos(s[..1]) == ValorDigitos(s[..1][..0]) * 10 + ValorDigito(s[..1][0]);
    assert s[..|s| - 1] == s[..1];
  }

  lemma Valor2024()
    ensures NumeroATexto(2024) == "2024" && EsNumeral("2024") && ValorDigitos("2024") == 2024
  {
    assert NumeroATexto(2024) == "2024";
    ValorDeNumeroATexto(2024);
  }

  /** A "DD-MM-2024" string with two-digit day and month spells that day of 2024. */
  lemma FechaDe2024(s: string, dd: string, mm: string, dia: nat, mes: nat)
    requires s == dd + "-" + mm + "-2024"
    requires |dd| == 2 && |mm| == 2 && SoloDigitos(dd) && SoloDigitos(mm)
    requires ValorDigito(dd[0]) * 10 + ValorDigito(dd[1]) == dia
    requires ValorDigito(mm[0]) * 10 + ValorDigito(mm[1]) == mes
    requires FechaValida(Fecha(2024, mes, dia))
    ensures CampoAdmisible(Some(s))
    ensures ParseFecha(Some(s)) == Some(Fecha(2024, mes, dia))
  {
    ValorDosDigitos(dd);
    ValorDosDigitos(mm);
    Valor2024();
    assert s == dd + "-" + mm + "-" + "2024";
    ParsearCampos(dd, mm, "2024");
  }

  /** The date strings of the examples below and the days they spell. */
  lemma FechasDeEjemplo(s1: string, s2: string, s3: string, s4: string)
    requires s1 == "05-03-2024" && s2 == "09-03-2024" && s3 == "28-03-2024" && s4 == "02-04-2024"
    ensures CampoAdmisible(Some(s1)) && ParseFecha(Some(s1)) == Some(Fecha(2024, 3, 5))
    ensures CampoAdmisible(Some(s2)) && ParseFecha(Some(s2)) == Some(Fecha(2024, 3, 9))
    ensures CampoAdmisible(Some(s3)) && ParseFecha(Some(s3)) == Some(Fecha(2024, 3, 28))
    ensures CampoAdmisible(Some(s4)) && ParseFecha(Some(s4)) == Some(Fecha(2024, 4, 2))
  {
    FechaDe2024(s1, "05", "03", 5, 3);
    FechaDe2024(s2, "09", "03", 9, 3);
    FechaDe2024(s3, "28", "03", 28, 3);
    FechaDe2024(s4, "02", "04", 2, 4);
  }

  /** A range within one day is shown as that single date: "5 de marzo 2024". */
  lemma EjemploMismoDia()
    ensures FormatearRango(Fecha(2024, 3, 5), Some(Fecha(2024, 3, 5))) == "5 de marzo 2024"
  {
    Valor2024();
  }

  /** A range within one month names the month and the year once: "5 al 9 de marzo 2024". */
  lemma EjemploMismoMes()
    ensures FormatearRango(Fecha(2024, 3, 5), Some(Fecha(2024, 3, 9))) == "5 al 9 de marzo 2024"
  {
    Valor2024();
  }

  /** A range across two months writes both dates in full. */
  lemma EjemploDosMeses()
    ensures FormatearRango(Fecha(2024, 3, 28), Some(Fecha(2024, 4, 2))) == "28 de marzo 2024 al 2 de abril 2024"
  {
    RangoDosMeses(Fecha(2024, 3, 28), Fecha(2024, 4, 2));
    Fecha28DeMarzo();
    Fecha2DeAbril();
  }

  /** Two dates in different months or years are both written in full, joined by " al ". */
  lemma RangoDosMeses(a: FechaCalendario, b: FechaCalendario)
    requires a.anio != b.anio || a.mes != b.mes
    ensures FormatearRango(a, Some(b)) == FormatearFecha(Some(a)) + " al " + FormatearFecha(Some(b))
  {
    TiempoRespetaOrden(Medianoche(a), Medianoche(b));
  }

  lemma Fecha28DeMarzo()
    ensures FormatearFecha(Some(Fecha(2024, 3, 28))) == "28 de marzo 2024"
  {
    Valor2024();
    assert NumeroATexto(28) == "28";
  }

  lemma Fecha2DeAbril()
    ensures FormatearFecha(Some(Fecha(2024, 4, 2))) == "2 de abril 2024"
  {
    Valor2024();
  }

  /** The examples as the page meets them, on the data's date strings. */
  lemma EjemplosDeRango(s1: string, s2: string, s3: string, s4: string)
    requires s1 == "05-03-2024" && s2 == "09-03-2024" && s3 == "28-03-2024" && s4 == "02-04-2024"
    ensures CampoAdmisible(Some(s1)) && CampoAdmisible(Some(s2))
    ensures CampoAdmisible(Some(s3)) && CampoAdmisible(Some(s4))
    ensures FormatearRangoFecha(Some(s1), Some(s1)) == "5 de marzo 2024"
    ensures FormatearRangoFecha(Some(s1), Some(s2)) == "5 al 9 de marzo 2024"
    ensures FormatearRangoFecha(Some(s3), Some(s4)) == "28 de marzo 2024 al 2 de abril 2024"
  {
    FechasDeEjemplo(s1, s2, s3, s4);
    EjemploMismoDia();
    EjemploMismoMes();
    EjemploDosMeses();
  }

  /** Milliseconds in a day; a `Date`'s time of day lies in `[0, MS_POR_DIA)`. */
  const MS_POR_DIA: int := 86400000

  type MsDelDia = ms: int | 0 <= ms < MS_POR_DIA

  /** A `Date` in local time: a calendar day and the milliseconds elapsed since its midnight. */
  datatype Instante = Instante(fecha: FechaCalendario, ms: MsDelDia)

  /** `d.setHours(0, 0, 0, 0)`. */
  function Medianoche(f: FechaCalendario): Instante
  {
    Instante(f, 0)
  }

  /** `d.setHours(23, 59, 59, 999)`. */
  function FinDelDia(f: FechaCalendario): Instante
  {
    Instante(f, MS_POR_DIA - 1)
  }

  /** Lexicographic order on (year, month, day): the calendar order. */
  predicate FechaAnterior(a: Fecha, b: Fecha)
  {
    a.anio < b.anio
    || (a.anio == b.anio && a.mes < b.mes)
    || (a.anio == b.anio && a.mes == b.mes && a.dia < b.dia)
  }

  /** Calendar order on instants: the earlier day, or the same day and an earlier time. */
  predicate InstanteAnterior(a: Instante, b: Instante)
  {
    FechaAnterior(a.fecha, b.fecha) || (a.fecha == b.fecha && a.ms < b.ms)
  }

  /**
   * Stands in for `getTime()`: a number that grows with the instant. It counts
   * 31 days in every month, so it is not the epoch offset, but only the order
   * of these numbers is ever used.
   */
  function Tiempo(i: Instante): int
  {
    ((i.fecha.anio * 12 + (i.fecha.mes - 1)) * 31 + (i.fecha.dia - 1)) * MS_POR_DIA + i.ms
  }

  /** Comparing `Tiempo` values is comparing instants in calendar order. */
  lemma TiempoRespetaOrden(a: Instante, b: Instante)
    ensures Tiempo(a) < Tiempo(b) <==> InstanteAnterior(a, b)
    ensures Tiempo(a) == Tiempo(b) <==> a == b
  {
    var da := (a.fecha.anio * 12 + (a.fecha.mes - 1)) * 31 + (a.fecha.dia - 1);
    var db := (b.fecha.anio * 12 + (b.fecha.mes - 1)) * 31 + (b.fecha.dia - 1);
    assert da < db <==> FechaAnterior(a.fecha, b.fecha);
    assert da == db <==> a.fecha == b.fecha;
  }

  /** An instant lies before midnight of a day exactly when its own day is earlier. */
  lemma AntesDeMedianoche(i: Instante, f: FechaCalendario)
    ensures Tiempo(i) < Tiempo(Medianoche(f)) <==> FechaAnterior(i.fecha, f)
  {
    TiempoRespetaOrden(i, Medianoche(f));
  }

  /** An instant lies after the last millisecond of a day exactly when its own day is later. */
  lemma DespuesDeFinDelDia(i: Instante, f: FechaCalendario)
    ensures Tiempo(FinDelDia(f)) < Tiempo(i) <==> FechaAnterior(f, i.fecha)
  {
    TiempoRespetaOrden(FinDelDia(f), i);
  }
}
