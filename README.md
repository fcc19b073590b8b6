# Stage timeline of the landing page, in Dafny

The landing page (`script.js`) shows the calendar of a selection process as a
list of *etapas* (stages). Each stage has a flow position (`orden_en_flujo`), a
name, an optional date descriptor, an optional document link and an optional
featured section for the page's banner. The date descriptor is a `fecha_unica`
or a `periodo` with `"DD-MM-YYYY"` start and end fields. From these and a
reference instant ("today", or a date a tester picks) the page decides:

- which stages are **active** (`esEtapaActiva`);
- which stage is **featured** in the hero banner (`encontrarEtapaDestacada`).
  This is the most advanced active featured stage. Failing that, it is the
  stage at position 0 during its "pre-convocatoria" window;
- what the **banner** shows (`actualizarHeroBanner`): a link button, a line of
  text, or nothing;
- the **cards** of the stage list (`renderizarEtapas`). Each card has its
  number, its date text (`parseFecha`, `formatearFecha`, `formatearRangoFecha`)
  and whether its "Consultar" link is enabled.

The model keeps these decisions and drops the DOM. It has these modules:

- `Opcional`: optional fields, and the JavaScript truthiness of a string.
- `Texto`: `split`, `join`, `Number` on digit strings, decimal rendering and
  `startsWith`.
- `Secuencias`: `filter`, `find` and the stable `sort`.
- `Fechas`: calendar dates, date strings, formatting and instants.
- `Etapas`: stages and the activation rule.
- `Destacada`: the featured stage.
- `Hero`: the banner.
- `Render`: the cards.

Dates are valid `(year, month, day)` triples. A reference instant is a date
plus the milliseconds since its midnight. Midnight is `setHours(0,0,0,0)`, and
23:59:59.999 is `setHours(23,59,59,999)`. `getTime()` is replaced by a number
that orders instants as the calendar does (`Fechas.Tiempo`). Only comparisons
of `getTime()` values are ever made, and `Fechas.TiempoRespetaOrden` proves
that comparing `Tiempo` is comparing in calendar order.

A date field of the data is a `CampoFecha`. It is missing, the empty string,
or a string of the form DD-MM-YYYY that `parseFecha` turns into a real date:

- exactly three `-`-separated fields of decimal digits;
- a year whose value is at most 9999 (leading zeros allowed), which `new Date` reads as 1900 + y when it is below 100;
- a day that exists in that month.

`Array.prototype.sort` is stable, so it is modelled as a stable insertion sort
(`Secuencias.OrdenarPor`). The reference instant is a parameter instead of the
global `fechaPersonalizada`. `renderizarEtapas` is a loop that appends card
records. A listed stage without `fecha` makes `etapa.fecha.tipo_fecha` throw.
The model reports this as `fallo`, and the cards appended before it are kept.

Two facts about the code that are easy to miss:

- A card's number is its position in the sorted list plus one
  (`script.js:223`).
  `Render.NumeroEsOrdenEnFlujo` shows that the number equals `orden_en_flujo`
  when the listed stages are numbered 1..n.
- A range without a start is `""` (`script.js:24`), whatever its end.

## Model

| member | source | states |
|---|---|---|
| Fechas.ParseFecha | script.js:2-6 | A missing or empty field gives no date; any other admissible field gives a valid calendar date |
| Fechas.ParsearCampos | script.js:4-5 | `"DD-MM-YYYY"` parses to day DD, month MM and year YYYY. A year below 100 becomes 1900 + YYYY, as in `new Date(anio, mes - 1, dia)` |
| Fechas.DividirFecha | script.js:4 | Splitting `"DD-MM-YYYY"` on `-` gives exactly the three fields |
| Fechas.FormatearFecha | script.js:9-20 | The text is empty exactly when there is no date |
| Fechas.ParsearYFormatear | script.js:2-20 | Parsing and then formatting `"DD-MM-YYYY"` gives `"<DD without leading zeros> de <name of month MM> <year>"`. A year of 100 or more with no leading zero is written as it was given |
| Fechas.DiasDelMes | script.js:5 | Month lengths of the Gregorian calendar (28-31 days, with February's leap-year rule), which bound the dates that exist |
| Fechas.FormatearRango | script.js:26-52 | Once the start is a date, the range text always begins with the start's day number followed by a space |
| Fechas.FormatearRangoFecha | script.js:23-53 | The range text is empty exactly when there is no start, and otherwise begins with the start's day number |
| Fechas.RangoCasos | script.js:23-53 | The four shapes of a range. No start gives `""`. A missing end, or an end on the start day, gives the single date. The same month of the same year gives `"<d1> al <d2> de <mes> <año>"`. Anything else gives `"<start> al <end>"` |
| Fechas.EjemplosDeRango | script.js:23-53 | On the strings `05-03-2024`, `09-03-2024`, `28-03-2024` and `02-04-2024` the ranges read `"5 de marzo 2024"`, `"5 al 9 de marzo 2024"` and `"28 de marzo 2024 al 2 de abril 2024"` |
| Fechas.EjemploMismoDia | script.js:29-30 | A range that starts and ends on 5 March 2024 reads `"5 de marzo 2024"` |
| Fechas.EjemploMismoMes | script.js:37-48 | 5 to 9 March 2024 reads `"5 al 9 de marzo 2024"` |
| Fechas.RangoDosMeses | script.js:29-52 | Two dates in different months or different years are both written in full, joined by `" al "` |
| Fechas.EjemploDosMeses | script.js:33-52 | 28 March to 2 April 2024 reads `"28 de marzo 2024 al 2 de abril 2024"` |
| Fechas.TiempoRespetaOrden | script.js:69 | Comparing the `getTime` stand-in compares instants in calendar order, and equal values mean equal instants |
| Fechas.AntesDeMedianoche | script.js:67-69 | An instant is before a day's midnight exactly when its own day is earlier |
| Fechas.DespuesDeFinDelDia | script.js:90-98 | An instant is after a day's 23:59:59.999 exactly when its own day is later |
| Texto.ValorDeNumeroATexto | script.js:19 | Reading back the decimal rendering of a number gives the number |
| Texto.NumeroATextoDeValor | script.js:4 | Rendering the value of a numeral gives the numeral without its leading zeros |
| Texto.DividirUnir | script.js:4 | `split` undoes `join` when no part holds the separator |
| Texto.Dividir | script.js:4 | `split` gives at least one part, no part holds the separator, and joining the parts gives the string back |
| Texto.NumeroATexto | script.js:19 | The rendering of a number is a non-empty numeral without a leading zero |
| Opcional.TextoO | script.js:183 | `s \|\| alternativa` is the field when it is a non-empty string, and the alternative otherwise |
| Etapas.EsEtapaActiva | script.js:56-102 | An active stage has a `fecha` of a known kind, and a start, or, for a `fecha_unica`, at least an end |
| Etapas.ActivaHastaElFin | script.js:66-70 | A `fecha_unica` with only an end is active exactly on the days before the end day |
| Etapas.ActivaDesdeElInicio | script.js:73-77 | A `fecha_unica` with a start is active exactly from the start day on, whatever its end |
| Etapas.ActivaParaSiempre | script.js:73-77 | Once such a stage is active it stays active at every later instant |
| Etapas.ActivaEnElPeriodo | script.js:82-98 | A `periodo` is active exactly when it has a start and the day lies between the start day and the end day, both included. A missing end gives no upper bound |
| Etapas.NuncaActiva | script.js:56-101 | A stage is never active without `fecha`, with an unknown `tipo_fecha`, or as a `fecha_unica` with neither date |
| Secuencias.Filtrar | script.js:134 | `filter` keeps exactly the elements that pass the test, each as often as it occurs |
| Secuencias.FiltrarConcatenar | script.js:134 | `filter` keeps source order: filtering a concatenation concatenates the filtered parts |
| Secuencias.FiltrarUno | script.js:134 | One element is kept exactly when it passes the test (with `FiltrarConcatenar` this fixes the result of `filter`) |
| Secuencias.IndicePrimero | script.js:148 | The index of the first element that passes the test, or the length when none does |
| Secuencias.Buscar | script.js:148 | `find` gives nothing exactly when no element passes, and otherwise the first element of the sequence that passes |
| Secuencias.BuscarEn | script.js:138-142 | An element that passes, with none before it passing, sits at the first passing index and is what `find` and the scan return |
| Secuencias.BuscarNinguno | script.js:138-142 | When no element passes, the first passing index is the length and `find` returns nothing |
| Secuencias.BuscarEsMaximo | script.js:133-142 | In a sequence whose key never increases, some element passes when any given one does, and the first one that passes has a key at least that of every passing element |
| Secuencias.OrdenarPor | script.js:135 | `sort` with a key comparator gives a permutation ordered by the key |
| Secuencias.Insertar | script.js:135 | One insertion step of the sort keeps the order and adds exactly the new element |
| Secuencias.InsertarEstable | script.js:135 | Inserting an element leaves the relative order of the elements with any one key unchanged |
| Secuencias.OrdenarPorEstable | script.js:135 | The sort is stable: elements with equal keys keep their relative order |
| Secuencias.FiltrarDosVeces | script.js:209-211 | Two filters in a row keep what passes both |
| Secuencias.BuscarTrasFiltrar | script.js:138-142 | The first element passing a test is still the first one after filtering out elements it is not among |
| Secuencias.PrimeroEstable | script.js:133-142 | After filtering and a stable sort, the first element to pass a test is the first, in data order, among those with its key |
| Secuencias.FiltrarOrdenarEstable | script.js:209-211 | Filtering and then sorting keeps data order among the elements with a key that the filter keeps |
| Destacada.Candidatas | script.js:133-135 | The candidates are exactly the featured stages, each as often as in the data, with `orden_en_flujo` non-increasing |
| Destacada.PreConvocatoria | script.js:148-163 | A fallback result is a featured stage of the data at position 0, with no start and with an end |
| Destacada.EtapaDestacada | script.js:129-164 | Any result is a featured stage of the data that is active or is the stage at position 0 |
| Destacada.EncontrarEtapaDestacada | script.js:129-164 | The loop with early return and its fallback compute the featured stage as specified by `Destacada.EtapaDestacada` |
| Destacada.DestacadaEsLaMasAvanzada | script.js:133-142 | If some featured stage is active, the result is a featured stage of the data that is active. No active featured stage has a greater `orden_en_flujo` |
| Destacada.DestacadaPrimeraEnLosDatos | script.js:133-142 | Ties on `orden_en_flujo` go to data order: the result is the first active stage, in data order, among the featured stages with its `orden_en_flujo` |
| Destacada.SinActivasPreConvocatoria | script.js:138-163 | If no featured stage is active, the result is the pre-announcement fallback |
| Destacada.PreConvocatoriaCondiciones | script.js:148-163 | The fallback gives the first stage at position 0 exactly when that stage is featured, has no start, has an end, and the reference is before 23:59:59.999 of the end day. Otherwise it gives nothing |
| Destacada.VentanaPreConvocatoria | script.js:148-160 | On its end day a pre-announcement `fecha_unica` stage is no longer active (proved from its date), yet it is still featured when no other featured stage is active |
| Hero.ActualizarHeroBanner | script.js:167-197 | No stage or no section gives nothing. A section with `contiene_boton` and a link gives a button to that link, labelled with `texto_boton_destacado` or else `"Ver más"` (never empty). That button opens a new tab exactly when the link starts with `http`. Otherwise the banner shows the section's text, or `""` |
| Hero.BannerDeLaPagina | script.js:175-196 | For the page's featured stage the banner is empty exactly when no stage is featured. Button or text is decided by that stage's own section |
| Render.EtapasVisibles | script.js:209-211 | The listed stages are exactly the stages with `orden_en_flujo` ≠ 0, each as often as in the data, in non-decreasing `orden_en_flujo` |
| Render.MismoOrdenEnOrdenDeDatos | script.js:209-211 | Listed stages that share an `orden_en_flujo` keep their data order |
| Render.TextoFechaTarjeta | script.js:233-239 | The date line of a `periodo` is empty exactly when it has no start. For any other kind it is empty exactly when it has neither start nor end |
| Render.TarjetaDe | script.js:214-256 | Card j is numbered j + 1, with the stage's name and activity. Its date line is the range text for a `periodo` and the single date of `fecha_inicio \|\| fecha_fin` otherwise, with the `period` mark exactly for a `periodo`. Its link is enabled exactly when the stage is active and has a document link. An enabled link goes to that document and opens a new tab exactly when it starts with `http`. A disabled link goes to `#` |
| Render.TarjetasHasta | script.js:213-270 | The first n stages of the list give n cards |
| Render.ConstruirTarjeta | script.js:214-269 | The `forEach` callback builds exactly the card `Render.TarjetaDe` describes |
| Render.TarjetasHastaSiguiente | script.js:213-270 | Appending one card extends the cards of the list's prefix by that stage's card |
| Render.RenderizarEtapas | script.js:200-271 | The loop yields the cards of the listed stages up to the first one without `fecha`. It fails exactly when some stage with `orden_en_flujo` ≠ 0 has no `fecha` |
| Render.DetenidoSinFecha | script.js:233 | The list stops early exactly when a stage with `orden_en_flujo` ≠ 0 has no `fecha` |
| Render.VisiblesCrecientes | script.js:209-211 | With distinct non-zero `orden_en_flujo` values the list is strictly increasing |
| Render.NumeroEsOrdenEnFlujo | script.js:223 | When the listed stages are numbered 1..n without repetition, the j-th card shows the stage with `orden_en_flujo` j + 1, so the card number equals `orden_en_flujo` |

## Left out

- DOM construction (`createElement`, `innerHTML`, class names, `style`,
  `rel`, the " >" arrow and the "Consultar" label). Also the missing
  `hero-cta` / `stages-list` elements, which make the renderers return early.
  The model keeps only the decisions, as records.
- Loading the data (`fetch('datos.json')` or the embedded global), the error
  banner, event listeners, the debug panel and the global
  `fechaPersonalizada`. These are I/O and event wiring. The reference instant is a parameter.
- `obtenerFechaActual`. Its ISO parsing and the real clock are outside the
  model. It normally truncates to midnight, but its invalid-input fallback
  does not. The model accepts any instant, so every property holds for both.
- `actualizarIndicadorFecha`. It only repeats the single-date format with
  presentational prefixes.
- `Date` behaviour outside valid dates: rolling over out-of-range days or
  months, `NaN` from malformed strings, strings `Number` reads differently
  (spaces, signs, empty fields), fields after the third, which the
  destructuring `const [dia, mes, anio]` drops (`"05-03-2024-7"` would read as
  5 March 2024), years above 9999 or below 0, time zones and daylight saving.
  Date fields are restricted to strings of exactly three fields that spell a
  real date.
- Fechas.Tiempo: it is not the epoch offset of `getTime()`. It agrees with it
  only in order and equality, which is all the page uses.
- What the page does after `renderizarEtapas` throws during the first load.
  The error reaches the catch of `script.js:303-309`, which replaces the
  banner with the error text and skips `configurarControlesFecha`. So
  Hero.BannerDeLaPagina describes the banner only when the stage list renders
  without `fallo`.
- `console` output.
