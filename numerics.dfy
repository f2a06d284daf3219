/**
 * The numeric side of the calculator controller: Java's `double` arithmetic,
 * `Double.parseDouble`, the `DecimalFormat("#.##########")` and the `%.6e`
 * conversion are not modelled; they are the uninterpreted operations of a
 * `FloatingPoint<F>` record. What is modelled is the text handling around
 * them: comma normalisation, the number parser's empty-string rule and the
 * control skeleton of the display formatter.
 */
module Numerics {

  datatype Option<T> = None | Some(value: T)

  predicate IsDigit(c: char) { '0' <= c <= '9' }

  /** True when the text holds at least one decimal digit. */
  predicate HasDigit(s: string) {
    s != [] && (IsDigit(s[0]) || HasDigit(s[1..]))
  }

  /** What `DecimalFormat.format` produces for a double: text with a digit in it. */
  type Numeral = s: string | HasDigit(s) witness "0"

  /**
   * The floating-point operations the controller calls, left uninterpreted.
   * `parse` is `Double.parseDouble` (None where it throws), `negligible` is
   * the `Math.abs(x) < 1e-12` test, `finite` is "neither infinite nor NaN",
   * `format` is the controller's `DecimalFormat` and `exponential` is
   * `String.format(Locale.US, "%.6e", x)`.
   */
  datatype FloatingPoint<!F> = FloatingPoint(
    zero: F,
    hundred: F,
    parse: string -> Option<F>,
    add: (F, F) -> F,
    subtract: (F, F) -> F,
    multiply: (F, F) -> F,
    divide: (F, F) -> F,
    negligible: F -> bool,
    finite: F -> bool,
    format: F -> Numeral,
    exponential: F -> string
  )

  /** The display cap: longer text is shown in scientific notation. */
  const MaxDisplayLength := 12

  /** `String.replace(char, char)`: every `from` becomes `to`, nothing else moves. */
  function Replace(s: string, from: char, to: char): (r: string)
    ensures |r| == |s|
    ensures forall i | 0 <= i < |s| :: r[i] == if s[i] == from then to else s[i]
    ensures from != to ==> from !in r
    ensures from !in s ==> r == s
  {
    if s == [] then []
    else [if s[0] == from then to else s[0]] + Replace(s[1..], from, to)
  }

  lemma ReplaceIsIdempotent(s: string, from: char, to: char)
    ensures Replace(Replace(s, from, to), from, to) == Replace(s, from, to)
  {
    var r := Replace(s, from, to);
    if from != to {
      assert from !in r;
    } else {
      assert r == s;
    }
  }

  /** `parseNumber`: empty text reads as 0.0, a comma reads as a decimal point. */
  function ParseNumber<F>(s: string, fp: FloatingPoint<F>): (r: Option<F>)
  {
    if s == "" then Some(fp.zero) else fp.parse(Replace(s, ',', '.'))
  }

  lemma ParseNumberReadsCommaAsPoint<F>(s: string, fp: FloatingPoint<F>)
    ensures ParseNumber(s, fp) == ParseNumber(Replace(s, ',', '.'), fp)
    ensures s != "" ==> ParseNumber(s, fp) == fp.parse(Replace(s, ',', '.'))
  {
    ReplaceIsIdempotent(s, ',', '.');
  }

  /**
   * `formatDisplayNumber`: empty text shows as "0"; anything else is
   * normalised (commas become points) and then shown by `FormatNormalised`.
   */
  function FormatDisplayNumber<F>(s: string, fp: FloatingPoint<F>): (r: string)
    ensures s == "" ==> r == "0"
    ensures s != "" && '.' !in s && ',' !in s && |s| <= MaxDisplayLength ==> r == s
  {
    if s == "" then "0" else FormatNormalised(Replace(s, ',', '.'), fp)
  }

  /**
   * The display of normalised text: text with a decimal point goes through
   * the decimal format; text longer than the cap goes through scientific
   * notation with a lower-case `e`; a parse failure on either path shows
   * "Error".
   */
  function FormatNormalised<F>(t: string, fp: FloatingPoint<F>): (r: string)
  {
    var decimal :=
      if '.' in t then
        match fp.parse(t)
        case None => None
        case Some(v) => Some(fp.format(v))
      else Some(t);
    match decimal
    case None => "Error"
    case Some(w) =>
      if |w| > MaxDisplayLength then
        match fp.parse(w)
        case None => "Error"
        case Some(v) => Replace(fp.exponential(v), 'E', 'e')
      else w
  }

  lemma FormatDisplayNumberReadsCommaAsPoint<F>(s: string, fp: FloatingPoint<F>)
    ensures FormatDisplayNumber(s, fp) == FormatDisplayNumber(Replace(s, ',', '.'), fp)
  {
    var t := Replace(s, ',', '.');
    ReplaceIsIdempotent(s, ',', '.');
    assert s == "" <==> t == "";
  }

  /** A decimal text the double parser rejects is displayed as "Error". */
  lemma FormatDisplayNumberRejectsMalformed<F>(s: string, fp: FloatingPoint<F>)
    requires '.' in s || ',' in s
    requires fp.parse(Replace(s, ',', '.')) == None
    ensures FormatDisplayNumber(s, fp) == "Error"
  {
    var t := Replace(s, ',', '.');
    if '.' in s {
      var i :| 0 <= i < |s| && s[i] == '.';
      assert t[i] == '.';
    } else {
      var i :| 0 <= i < |s| && s[i] == ',';
      assert t[i] == '.';
    }
  }

  /** Long text without a decimal point is shown in scientific notation, with no upper-case E. */
  lemma FormatDisplayNumberLongInteger<F>(s: string, fp: FloatingPoint<F>, v: F)
    requires '.' !in s && ',' !in s && |s| > MaxDisplayLength
    requires fp.parse(s) == Some(v)
    ensures FormatDisplayNumber(s, fp) == Replace(fp.exponential(v), 'E', 'e')
    ensures 'E' !in FormatDisplayNumber(s, fp)
  {
  }

  /** Long text without a decimal point that the double parser rejects is displayed as "Error". */
  lemma FormatDisplayNumberLongMalformed<F>(s: string, fp: FloatingPoint<F>)
    requires '.' !in s && ',' !in s && |s| > MaxDisplayLength
    requires fp.parse(s) == None
    ensures FormatDisplayNumber(s, fp) == "Error"
  {
  }

  lemma {:induction false} HasDigitAppend(s: string, t: string)
    requires HasDigit(s)
    ensures HasDigit(s + t)
  {
    assert (s + t)[0] == s[0];
    if !IsDigit(s[0]) {
      HasDigitAppend(s[1..], t);
      assert (s + t)[1..] == s[1..] + t;
    }
  }

  lemma HasDigitPrepend(c: char, s: string)
    ensures HasDigit([c] + s) <==> IsDigit(c) || HasDigit(s)
  {
    assert ([c] + s)[1..] == s;
  }
}
