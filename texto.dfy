/**
 * The string operations the timeline relies on: `String.prototype.split`
 * on one separator character, `Number` on a string of decimal digits,
 * the decimal rendering of a number inside a template literal, and
 * `String.prototype.startsWith`.
 */
module Texto {

  predicate EsDigito(c: char)
  {
    '0' <= c <= '9'
  }

  /** Every character is a decimal digit (the empty string included). */
  predicate SoloDigitos(s: string)
  {
    forall i :: 0 <= i < |s| ==> EsDigito(s[i])
  }

  /** A non-empty string of decimal digits: what `Number` reads as a whole number. */
  predicate EsNumeral(s: string)
  {
    |s| > 0 && SoloDigitos(s)
  }

  function ValorDigito(c: char): (d: nat)
    requires EsDigito(c)
    ensures d < 10
  {
    (c as int) - ('0' as int)
  }

  function DigitoDe(d: nat): (c: char)
    requires d < 10
    ensures EsDigito(c) && ValorDigito(c) == d
  {
    (('0' as int) + d) as char
  }

  /** `Number(s)` for a string of decimal digits, read from the last digit back. */
  function ValorDigitos(s: string): nat
    requires SoloDigitos(s)
  {
    if s == [] then 0 else ValorDigitos(s[..|s| - 1]) * 10 + ValorDigito(s[|s| - 1])
  }

  /** `${n}` for a whole number: its shortest decimal numeral. */
  function NumeroATexto(n: nat): (s: string)
    ensures EsNumeral(s)
    ensures |s| > 1 ==> s[0] != '0'
  {
    if n < 10 then [DigitoDe(n)] else NumeroATexto(n / 10) + [DigitoDe(n % 10)]
  }

  /** The numeral without its leading zeros (a lone `0` is kept). */
  function SinCerosIniciales(s: string): (r: string)
    requires EsNumeral(s)
    ensures EsNumeral(r) && (|r| > 1 ==> r[0] != '0')
  {
    if |s| > 1 && s[0] == '0' then SinCerosIniciales(s[1..]) else s
  }

  /** Rendering a number and reading it back gives the number. */
  lemma {:induction false} ValorDeNumeroATexto(n: nat)
    ensures ValorDigitos(NumeroATexto(n)) == n
  {
    if n >= 10 {
      var s := NumeroATexto(n);
      ValorDeNumeroATexto(n / 10);
      assert s[..|s| - 1] == NumeroATexto(n / 10);
    }
  }

  lemma {:induction false} ValorSinCeroInicial(s: string)
    requires EsNumeral(s) && |s| > 1 && s[0] == '0'
    ensures ValorDigitos(s) == ValorDigitos(s[1..])
  {
    var pre := s[..|s| - 1];
    if |s| == 2 {
      assert pre == "0";
      assert s[1..] == [s[1]];
      assert s[1..][..0] == [];
    } else {
      ValorSinCeroInicial(pre);
      assert pre[1..] == s[1..][..|s[1..]| - 1];
    }
  }

  lemma {:induction false} ValorPositivo(s: string)
    requires EsNumeral(s) && s[0] != '0'
    ensures ValorDigitos(s) >= 1
  {
    if |s| > 1 {
      ValorPositivo(s[..|s| - 1]);
    } else {
      assert s[..0] == [];
    }
  }

  /** Reading a numeral and rendering the number gives the numeral back, minus leading zeros. */
  lemma {:induction false} NumeroATextoDeValor(s: string)
    requires EsNumeral(s)
    ensures NumeroATexto(ValorDigitos(s)) == SinCerosIniciales(s)
  {
    if |s| > 1 && s[0] == '0' {
      ValorSinCeroInicial(s);
      NumeroATextoDeValor(s[1..]);
    } else if |s| == 1 {
      assert s[..0] == [];
      assert [DigitoDe(ValorDigito(s[0]))] == s;
    } else {
      var pre := s[..|s| - 1];
      var d := ValorDigito(s[|s| - 1]);
      ValorPositivo(pre);
      NumeroATextoDeValor(pre);
      var v := ValorDigitos(s);
      assert v == ValorDigitos(pre) * 10 + d;
      assert v / 10 == ValorDigitos(pre) && v % 10 == d;
      assert DigitoDe(d) == s[|s| - 1];
      assert pre + [s[|s| - 1]] == s;
    }
  }

  /** A numeral without a leading zero is exactly the rendering of its value. */
  lemma NumeroATextoCanonico(s: string)
    requires EsNumeral(s) && (|s| > 1 ==> s[0] != '0')
    ensures NumeroATexto(ValorDigitos(s)) == s
  {
    NumeroATextoDeValor(s);
  }

  /** `partes.join(sep)`. */
  function Unir(partes: seq<string>, sep: char): string
    requires |partes| > 0
  {
    if |partes| == 1 then partes[0] else partes[0] + [sep] + Unir(partes[1..], sep)
  }

  /** `s.split(sep)` for a one-character separator: the maximal runs between separators. */
  function Dividir(s: string, sep: char): (partes: seq<string>)
    ensures |partes| > 0
    ensures forall i :: 0 <= i < |partes| ==> sep !in partes[i]
    ensures Unir(partes, sep) == s
  {
    if s == [] then [""]
    else
      var resto := Dividir(s[1..], sep);
      if s[0] == sep then [""] + resto
      else [[s[0]] + resto[0]] + resto[1..]
  }

  /** Splitting undoes joining when no part contains the separator. */
  lemma {:induction false} DividirUnir(partes: seq<string>, sep: char)
    requires |partes| > 0
    requires forall i :: 0 <= i < |partes| ==> sep !in partes[i]
    ensures Dividir(Unir(partes, sep), sep) == partes
    decreases |Unir(partes, sep)|
  {
    var cabeza := partes[0];
    if cabeza == [] {
      if |partes| > 1 {
        DividirUnir(partes[1..], sep);
        assert Unir(partes, sep) == [sep] + Unir(partes[1..], sep);
        assert Unir(partes, sep)[1..] == Unir(partes[1..], sep);
        assert [""] + partes[1..] == partes;
      }
    } else {
      var cola := [cabeza[1..]] + partes[1..];
      assert sep !in cola[0] by { assert forall c :: c in cabeza[1..] ==> c in cabeza; }
      DividirUnir(cola, sep);
      var s := Unir(partes, sep);
      UnirSinPrimerCaracter(partes, sep);
      assert s[0] == cabeza[0] && cabeza[0] != sep;
      assert [s[0]] + cola[0] == cabeza;
      assert cola[1..] == partes[1..];
      assert [[s[0]] + cola[0]] + cola[1..] == partes;
    }
  }

  /** Joining parts whose first part is not empty starts with that part's first character. */
  lemma UnirSinPrimerCaracter(partes: seq<string>, sep: char)
    requires |partes| > 0 && partes[0] != []
    ensures Unir(partes, sep)[0] == partes[0][0]
    ensures Unir(partes, sep)[1..] == Unir([partes[0][1..]] + partes[1..], sep)
  {
    var cola := [partes[0][1..]] + partes[1..];
    if |partes| > 1 {
      assert cola[1..] == partes[1..];
      assert Unir(cola, sep) == partes[0][1..] + [sep] + Unir(partes[1..], sep);
    }
  }

  /** `s.startsWith(prefijo)`. */
  predicate EmpiezaPor(s: string, prefijo: string)
  {
    |prefijo| <= |s| && s[..|prefijo|] == prefijo
  }
}
