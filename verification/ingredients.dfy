/** Ingredient lines of the recipe format (src/recipe/ingredient.rs): an
    ingredient is `name, kind: quantity`, and a quantity is a number (an
    integer, a decimal, a fraction or a mixed number folded into a fraction),
    then an optional unit, then an optional `(note)`. */
module Ingredients {
  import opened Wrappers
  import opened Strings
  import opened Numerals
  import opened Errors

  type U8 = n: nat | n < U8_LIMIT
  type U16 = n: nat | n < U16_LIMIT
  type U32 = n: nat | n < U32_LIMIT

  datatype QuantityValue =
    | Integer(value: U32)
    | Decimal(integral: U16, frac: U16)
    | Fraction(numer: U8, denom: U8)

  datatype Quantity = Quantity(value: QuantityValue, unit: Option<string>, note: Option<string>)

  datatype Ingredient = Ingredient(name: string, kind: Option<string>, quantity: Option<Quantity>)

  const INTEGER_OUT_OF_RANGE: ParseError := ParseError("integer is out of range")
  const DECIMAL_INT_OUT_OF_RANGE: ParseError := ParseError("decimal integral part is out of range")
  const DECIMAL_FRAC_OUT_OF_RANGE: ParseError := ParseError("decimal fractional part is out of range")
  const FRACTION_NUMER_OUT_OF_RANGE: ParseError := ParseError("fraction numerator is out of range")
  const FRACTION_DENOM_OUT_OF_RANGE: ParseError := ParseError("fraction denominator is out of range")
  const MISSING_CLOSING_PARENTHESIS: ParseError := ParseError("missing closing parenthesis of quantity note")
  const EMPTY_INGREDIENT_NAME: ParseError := Empty("ingredient name")

  function InvalidValue(word: string): ParseError {
    ParseError("invalid ingredient quantity value: '" + word + "'")
  }

  function MixedOutOfRange(word: string): ParseError {
    ParseError("mixed number fraction '" + word + "' is out of range")
  }

  /** `s.split_once(pat).unwrap_or((s, ""))`. */
  function SplitOr(s: string, pat: string): (string, string) {
    match SplitOnce(s, pat)
    case None => (s, [])
    case Some(parts) => parts
  }

  /** `s.is_empty().not().then(|| s)`. */
  function NonEmpty(s: string): Option<string> {
    if s == [] then None else Some(s)
  }

  /** `Integer::try_parse_from_str`: a `u32`, "not an integer" (`Ok(None)`),
      or an error when the digits overflow. */
  function TryInteger(word: string): Result<Option<U32>, ParseError> {
    match ParseUnsigned(word, U32_LIMIT)
    case Number(n) => Ok(Some(n))
    case Invalid => Ok(None)
    case Overflow => Err(INTEGER_OUT_OF_RANGE)
  }

  /** The shape shared by `Decimal::try_parse_from_str` and
      `Fraction::try_parse_from_str`: two numbers below `limit` around the
      first `sep`. A part that is not a number in either place makes the word
      "not of this shape"; otherwise an overflowing part is an error, the
      first part's before the second's. */
  function TryPair(word: string, sep: char, limit: nat, firstError: ParseError, secondError: ParseError)
    : (r: Result<Option<(nat, nat)>, ParseError>)
    requires limit > 0
    ensures r.Ok? && r.value.Some? ==> r.value.value.0 < limit && r.value.value.1 < limit
  {
    match SplitOnce(word, [sep])
    case None => Ok(None)
    case Some((a, b)) =>
      var x := ParseUnsigned(a, limit);
      var y := ParseUnsigned(b, limit);
      if x.Number? && y.Number? then Ok(Some((x.n, y.n)))
      else if x.Invalid? || y.Invalid? then Ok(None)
      else if x.Overflow? then Err(firstError)
      else Err(secondError)
  }

  /** `Decimal::try_parse_from_str`: `u16.u16`. */
  function TryDecimal(word: string): Result<Option<QuantityValue>, ParseError> {
    var pair :- TryPair(word, '.', U16_LIMIT, DECIMAL_INT_OUT_OF_RANGE, DECIMAL_FRAC_OUT_OF_RANGE);
    Ok(if pair.None? then None else Some(Decimal(pair.value.0, pair.value.1)))
  }

  /** `Fraction::try_parse_from_str`: `u8/u8`, the denominator unchecked. */
  function TryFraction(word: string): (r: Result<Option<QuantityValue>, ParseError>)
    ensures r.Ok? && r.value.Some? ==> r.value.value.Fraction?
  {
    var pair :- TryPair(word, '/', U8_LIMIT, FRACTION_NUMER_OUT_OF_RANGE, FRACTION_DENOM_OUT_OF_RANGE);
    Ok(if pair.None? then None else Some(Fraction(pair.value.0, pair.value.1)))
  }

  /** `whole.try_into()` followed by `Fraction::add_integer`: the mixed number
      `whole numer/denom` as one fraction, computed with checked `u8` arithmetic. */
  function AddInteger(f: QuantityValue, whole: nat): (r: Option<QuantityValue>)
    requires f.Fraction?
    ensures r.Some? <==> whole < U8_LIMIT && Product(whole, f.denom) + f.numer < U8_LIMIT
    ensures r.Some? ==> r.value == Fraction(Product(whole, f.denom) + f.numer, f.denom)
  {
    if whole >= U8_LIMIT then None
    else
      var product := Product(whole, f.denom);
      if product >= U8_LIMIT then None
      else if product + f.numer >= U8_LIMIT then None
      else Some(Fraction(product + f.numer, f.denom))
  }

  function Product(a: nat, b: nat): nat {
    a * b
  }

  /** `QuantityValue::parse_mixed_number`: after an integer, a fraction word
      turns the two into one fraction; any other word leaves the integer alone. */
  function ParseMixedNumber(whole: U32, text: string): Result<Option<(QuantityValue, string)>, ParseError> {
    var (word, rest) := SplitOr(text, " ");
    var fraction :- TryFraction(word);
    if fraction.None? then Ok(None)
    else
      match AddInteger(fraction.value, whole)
      case Some(mixed) => Ok(Some((mixed, rest)))
      case None => Err(MixedOutOfRange(word))
  }

  /** `QuantityValue::parse_from_str`: the first space-delimited word is tried
      as an integer (possibly starting a mixed number), then as a decimal, then
      as a fraction; the text after the value is returned with it. */
  function ParseValue(text: string): Result<(QuantityValue, string), ParseError> {
    var (word, rest) := SplitOr(text, " ");
    var integer :- TryInteger(word);
    if integer.Some? then
      var mixed :- ParseMixedNumber(integer.value, rest);
      Ok(if mixed.Some? then mixed.value else (Integer(integer.value), rest))
    else
      var decimal :- TryDecimal(word);
      if decimal.Some? then Ok((decimal.value, rest))
      else
        var fraction :- TryFraction(word);
        if fraction.Some? then Ok((fraction.value, rest))
        else Err(InvalidValue(word))
  }

  /** `Quantity::parse_from_str`: after the value, the text before the first
      `" ("` is the unit and the text after it, which must end in `')'`, is the
      note; without `" ("` the rest is the unit. Empty parts are absent. */
  function ParseQuantity(text: string): (r: Result<Quantity, ParseError>)
    ensures r.Ok? && r.value.unit.Some? ==>
              r.value.unit.value != [] && !IsWhitespace(r.value.unit.value[0])
    ensures r.Ok? && r.value.note.Some? ==> r.value.note.value != [] && Trimmed(r.value.note.value)
  {
    var parsed :- ParseValue(text);
    var (value, rest) := parsed;
    match SplitOnce(rest, " (")
    case Some((unit, note)) =>
      if note == [] || note[|note| - 1] != ')' then Err(MISSING_CLOSING_PARENTHESIS)
      else
        TrimIsTrimmed(unit);
        TrimIsTrimmed(note[..|note| - 1]);
        Ok(Quantity(value, NonEmpty(Trim(unit)), NonEmpty(Trim(note[..|note| - 1]))))
    case None => Ok(Quantity(value, NonEmpty(TrimStart(rest)), None))
  }

  /** `Ingredient::parse_from_str`: split at the first `": "` into the name
      part and the quantity, then the name part at the first `", "` into name
      and kind, trimming next to each separator. */
  function ParseIngredient(text: string): Result<Ingredient, ParseError> {
    var (nameKind, quantity) := SplitTrimmed(text, ": ");
    var (name, kind) := SplitTrimmed(nameKind, ", ");
    if name == [] then Err(EMPTY_INGREDIENT_NAME)
    else if quantity == [] then Ok(Ingredient(name, NonEmpty(kind), None))
    else
      var q :- ParseQuantity(quantity);
      Ok(Ingredient(name, NonEmpty(kind), Some(q)))
  }

  /** `split_once(pat).map_or((s, ""), |(a, b)| (a.trim_end(), b.trim_start()))`. */
  function SplitTrimmed(s: string, pat: string): (string, string) {
    match SplitOnce(s, pat)
    case None => (s, [])
    case Some((a, b)) => (TrimEnd(a), TrimStart(b))
  }

  /** `Display for QuantityValue`. */
  function ShowValue(v: QuantityValue): string {
    match v
    case Integer(n) => NatToString(n)
    case Decimal(i, f) => NatToString(i) + "." + NatToString(f)
    case Fraction(n, d) => NatToString(n) + "/" + NatToString(d)
  }

  /** The text a quantity writes after its value. */
  function ShowAfterValue(q: Quantity): string {
    (if q.unit.Some? then " " + q.unit.value else [])
    + (if q.note.Some? then " (" + q.note.value + ")" else [])
  }

  /** `Display for Quantity`. */
  function ShowQuantity(q: Quantity): string {
    ShowValue(q.value) + ShowAfterValue(q)
  }

  /** `Display for Ingredient`. */
  function ShowIngredient(x: Ingredient): string {
    ShowNameKind(x.name, x.kind)
    + (if x.quantity.Some? then ": " + ShowQuantity(x.quantity.value) else [])
  }

  /** The name and the kind, as `Display for Ingredient` writes them. */
  function ShowNameKind(name: string, kind: Option<string>): string {
    name + (if kind.Some? then ", " + kind.value else [])
  }

  /** A unit that reads back as itself: no outer whitespace, no `'('` (which
      would start a note), and after an integer no `'/'` (which would make its
      first word the fraction of a mixed number). */
  predicate GoodUnit(unit: string, value: QuantityValue) {
    unit != [] && Trimmed(unit) && '(' !in unit && (value.Integer? ==> '/' !in unit)
  }

  /** A quantity that reads back as itself. A note needs a unit in front:
      without one, `"1 (note)"` reads back with the unit `"(note)"`
      (see `NoteWithoutUnit`). */
  predicate GoodQuantity(q: Quantity) {
    && (q.unit.Some? ==> GoodUnit(q.unit.value, q.value))
    && (q.note.Some? ==> q.unit.Some? && q.note.value != [] && Trimmed(q.note.value))
  }

  /** An ingredient that reads back as itself. */
  predicate GoodIngredient(x: Ingredient) {
    && x.name != [] && Trimmed(x.name) && ':' !in x.name && ',' !in x.name
    && (x.kind.Some? ==> x.kind.value != [] && Trimmed(x.kind.value) && ':' !in x.kind.value)
    && (x.quantity.Some? ==> GoodQuantity(x.quantity.value))
  }

  /** The digits of a number hold no separator. */
  lemma DigitsHaveNo(n: nat, c: char)
    requires !IsDigit(c)
    ensures c !in NatToString(n)
  {
  }

  /** A displayed value is one word that starts and ends with a digit. */
  lemma ShowValueShape(v: QuantityValue)
    ensures ' ' !in ShowValue(v) && ShowValue(v) != []
    ensures IsDigit(ShowValue(v)[0]) && IsDigit(ShowValue(v)[|ShowValue(v)| - 1])
  {
    match v
    case Integer(n) =>
    case Decimal(i, f) =>
      DigitsHaveNo(i, ' ');
      DigitsHaveNo(f, ' ');
    case Fraction(n, d) =>
      DigitsHaveNo(n, ' ');
      DigitsHaveNo(d, ' ');
  }

  /** Two numbers written around a separator read back as that pair. */
  lemma TryPairShown(a: nat, b: nat, sep: char, limit: nat, firstError: ParseError, secondError: ParseError)
    requires a < limit && b < limit && !IsDigit(sep)
    ensures TryPair(NatToString(a) + [sep] + NatToString(b), sep, limit, firstError, secondError) == Ok(Some((a, b)))
  {
    DigitsHaveNo(a, sep);
    SplitOnceFirstChar(NatToString(a), [sep], NatToString(b));
    ParseNatToString(a, limit);
    ParseNatToString(b, limit);
  }

  /** A word without the separator is not of the pair's shape. */
  lemma TryPairAbsent(word: string, sep: char, limit: nat, firstError: ParseError, secondError: ParseError)
    requires limit > 0 && sep !in word
    ensures TryPair(word, sep, limit, firstError, secondError) == Ok(None)
  {
    SplitOnceAbsent(word, [sep]);
  }

  /** A part that is not a number (it fails for a reason other than
      overflow) makes the word "not of this shape", even when the other part
      overflows. */
  lemma TryPairNotNumber(a: string, b: string, sep: char, limit: nat, firstError: ParseError, secondError: ParseError)
    requires limit > 0 && sep !in a
    requires ParseUnsigned(a, limit).Invalid? || ParseUnsigned(b, limit).Invalid?
    ensures TryPair(a + [sep] + b, sep, limit, firstError, secondError) == Ok(None)
  {
    SplitOnceFirstChar(a, [sep], b);
  }

  /** Otherwise an overflowing first part is the first part's error, whether
      or not the second part overflows too. */
  lemma TryPairFirstOverflow(n: nat, b: string, sep: char, limit: nat, firstError: ParseError, secondError: ParseError)
    requires 0 < limit <= n && !IsDigit(sep) && !ParseUnsigned(b, limit).Invalid?
    ensures TryPair(NatToString(n) + [sep] + b, sep, limit, firstError, secondError) == Err(firstError)
  {
    DigitsHaveNo(n, sep);
    SplitOnceFirstChar(NatToString(n), [sep], b);
    ParseTooLarge(n, limit);
  }

  /** Only a first part that fits leaves the error to the second part. */
  lemma TryPairSecondOverflow(m: nat, n: nat, sep: char, limit: nat, firstError: ParseError, secondError: ParseError)
    requires m < limit <= n && !IsDigit(sep)
    ensures TryPair(NatToString(m) + [sep] + NatToString(n), sep, limit, firstError, secondError) == Err(secondError)
  {
    DigitsHaveNo(m, sep);
    SplitOnceFirstChar(NatToString(m), [sep], NatToString(n));
    ParseNatToString(m, limit);
    ParseTooLarge(n, limit);
  }

  /** A decimal word whose integral part does not fit a `u16` is an error
      whatever the fractional number; one whose fractional part alone does
      not fit is the other error. */
  lemma DecimalOutOfRange(n: nat, f: nat)
    ensures n >= U16_LIMIT ==> TryDecimal(NatToString(n) + "." + NatToString(f)) == Err(DECIMAL_INT_OUT_OF_RANGE)
    ensures n < U16_LIMIT <= f ==> TryDecimal(NatToString(n) + "." + NatToString(f)) == Err(DECIMAL_FRAC_OUT_OF_RANGE)
  {
    if n >= U16_LIMIT {
      if f < U16_LIMIT {
        ParseNatToString(f, U16_LIMIT);
      } else {
        ParseTooLarge(f, U16_LIMIT);
      }
      TryPairFirstOverflow(n, NatToString(f), '.', U16_LIMIT, DECIMAL_INT_OUT_OF_RANGE, DECIMAL_FRAC_OUT_OF_RANGE);
    } else if f >= U16_LIMIT {
      TryPairSecondOverflow(n, f, '.', U16_LIMIT, DECIMAL_INT_OUT_OF_RANGE, DECIMAL_FRAC_OUT_OF_RANGE);
    }
  }

  /** The same for fraction words and the `u8` bound: the numerator's error
      comes before the denominator's. */
  lemma FractionOutOfRange(n: nat, d: nat)
    ensures n >= U8_LIMIT ==> TryFraction(NatToString(n) + "/" + NatToString(d)) == Err(FRACTION_NUMER_OUT_OF_RANGE)
    ensures n < U8_LIMIT <= d ==> TryFraction(NatToString(n) + "/" + NatToString(d)) == Err(FRACTION_DENOM_OUT_OF_RANGE)
  {
    if n >= U8_LIMIT {
      if d < U8_LIMIT {
        ParseNatToString(d, U8_LIMIT);
      } else {
        ParseTooLarge(d, U8_LIMIT);
      }
      TryPairFirstOverflow(n, NatToString(d), '/', U8_LIMIT, FRACTION_NUMER_OUT_OF_RANGE, FRACTION_DENOM_OUT_OF_RANGE);
    } else if d >= U8_LIMIT {
      TryPairSecondOverflow(n, d, '/', U8_LIMIT, FRACTION_NUMER_OUT_OF_RANGE, FRACTION_DENOM_OUT_OF_RANGE);
    }
  }

  /** A decimal word with a non-digit in either part is not a decimal,
      whatever the other part holds, an overflowing number included. */
  lemma DecimalNonDigitPart(d: string, c: char, t: string, other: string)
    requires AllDigits(d) && Value(0, d) < U16_LIMIT && !IsDigit(c) && c != '+' && '.' !in d + [c] + t
    ensures TryDecimal(d + [c] + t + "." + other) == Ok(None)
    ensures '.' !in other ==> TryDecimal(other + "." + (d + [c] + t)) == Ok(None)
  {
    var part := d + [c] + t;
    ParseInvalidDigit(d, c, t, U16_LIMIT);
    TryPairNotNumber(part, other, '.', U16_LIMIT, DECIMAL_INT_OUT_OF_RANGE, DECIMAL_FRAC_OUT_OF_RANGE);
    if '.' !in other {
      TryPairNotNumber(other, part, '.', U16_LIMIT, DECIMAL_INT_OUT_OF_RANGE, DECIMAL_FRAC_OUT_OF_RANGE);
    }
  }

  /** The same for fraction words. */
  lemma FractionNonDigitPart(d: string, c: char, t: string, other: string)
    requires AllDigits(d) && Value(0, d) < U8_LIMIT && !IsDigit(c) && c != '+' && '/' !in d + [c] + t
    ensures TryFraction(d + [c] + t + "/" + other) == Ok(None)
    ensures '/' !in other ==> TryFraction(other + "/" + (d + [c] + t)) == Ok(None)
  {
    var part := d + [c] + t;
    ParseInvalidDigit(d, c, t, U8_LIMIT);
    TryPairNotNumber(part, other, '/', U8_LIMIT, FRACTION_NUMER_OUT_OF_RANGE, FRACTION_DENOM_OUT_OF_RANGE);
    if '/' !in other {
      TryPairNotNumber(other, part, '/', U8_LIMIT, FRACTION_NUMER_OUT_OF_RANGE, FRACTION_DENOM_OUT_OF_RANGE);
    }
  }

  lemma TryFractionAbsent(word: string)
    requires '/' !in word
    ensures TryFraction(word) == Ok(None)
  {
    TryPairAbsent(word, '/', U8_LIMIT, FRACTION_NUMER_OUT_OF_RANGE, FRACTION_DENOM_OUT_OF_RANGE);
  }

  /** The displayed value alone reads back as the same value, and as no other
      shape tried before it. */
  lemma WordShown(v: QuantityValue)
    ensures v.Integer? ==> TryInteger(ShowValue(v)) == Ok(Some(v.value))
    ensures !v.Integer? ==> TryInteger(ShowValue(v)) == Ok(None)
    ensures v.Decimal? ==> TryDecimal(ShowValue(v)) == Ok(Some(v))
    ensures v.Fraction? ==> TryDecimal(ShowValue(v)) == Ok(None)
    ensures v.Fraction? ==> TryFraction(ShowValue(v)) == Ok(Some(v))
  {
    match v
    case Integer(n) =>
      ParseNatToString(n, U32_LIMIT);
    case Decimal(i, f) =>
      ParseStopsAtNonDigit(i, '.', NatToString(f), U32_LIMIT);
      TryPairShown(i, f, '.', U16_LIMIT, DECIMAL_INT_OUT_OF_RANGE, DECIMAL_FRAC_OUT_OF_RANGE);
    case Fraction(n, d) =>
      ParseStopsAtNonDigit(n, '/', NatToString(d), U32_LIMIT);
      DigitsHaveNo(n, '.');
      DigitsHaveNo(d, '.');
      TryPairAbsent(ShowValue(v), '.', U16_LIMIT, DECIMAL_INT_OUT_OF_RANGE, DECIMAL_FRAC_OUT_OF_RANGE);
      TryPairShown(n, d, '/', U8_LIMIT, FRACTION_NUMER_OUT_OF_RANGE, FRACTION_DENOM_OUT_OF_RANGE);
  }

  /** Text after a number, separated by a space, unless it is empty. */
  function Spaced(rest: string): string {
    if rest == [] then [] else " " + rest
  }

  /** A word without spaces, then more text, splits at the space between. */
  lemma FirstWord(word: string, rest: string)
    requires ' ' !in word
    ensures SplitOr(word + Spaced(rest), " ") == (word, rest)
  {
    if rest == [] {
      assert word + Spaced(rest) == word;
      SplitOnceAbsent(word, " ");
    } else {
      assert word + Spaced(rest) == word + " " + rest;
      SplitOnceFirstChar(word, " ", rest);
    }
  }

  /** The first word of `u`, followed by a space or by nothing, lies inside `u`. */
  lemma FirstWordInside(u: string, t: string, c: char)
    requires t == [] || t[0] == ' '
    requires c !in u
    ensures c !in SplitOr(u + t, " ").0
  {
    var s := u + t;
    var a := SplitOr(s, " ").0;
    assert |a| <= |u| && a == s[..|a|] by {
      SplitOnceFirst(s, " ");
      if t != [] {
        assert OccursAt(s, " ", |u|) by {
          assert s[|u|..|u| + 1] == [t[0]];
        }
      }
    }
    assert a == u[..|a|];
  }

  /** `ParseValue` once its first word is known to be an integer. */
  lemma ParseValueInteger(text: string, word: string, rest: string, n: U32)
    requires SplitOr(text, " ") == (word, rest) && TryInteger(word) == Ok(Some(n))
    ensures ParseValue(text) == (var mixed :- ParseMixedNumber(n, rest);
                                 Ok(if mixed.Some? then mixed.value else (Integer(n), rest)))
  {
  }

  /** `ParseValue` once its first word is known not to be an integer. */
  lemma ParseValueOther(text: string, word: string, rest: string)
    requires SplitOr(text, " ") == (word, rest) && TryInteger(word) == Ok(None)
    ensures ParseValue(text) == (var decimal :- TryDecimal(word);
                                 if decimal.Some? then Ok((decimal.value, rest))
                                 else
                                   var fraction :- TryFraction(word);
                                   if fraction.Some? then Ok((fraction.value, rest))
                                   else Err(InvalidValue(word)))
  {
  }

  /** After an integer, a first word without `'/'` is no mixed number. */
  lemma MixedNumberNone(n: U32, text: string)
    requires '/' !in SplitOr(text, " ").0
    ensures ParseMixedNumber(n, text) == Ok(None)
  {
    TryFractionAbsent(SplitOr(text, " ").0);
  }

  /** A displayed value followed by more text reads back as that value and
      that text, provided that after an integer the first word of the text is
      not a fraction. */
  lemma ParseValueShown(v: QuantityValue, rest: string)
    requires v.Integer? ==> '/' !in SplitOr(rest, " ").0
    ensures ParseValue(ShowValue(v) + Spaced(rest)) == Ok((v, rest))
  {
    var word := ShowValue(v);
    var text := word + Spaced(rest);
    assert SplitOr(text, " ") == (word, rest) by {
      ShowValueShape(v);
      FirstWord(word, rest);
    }
    WordShown(v);
    if v.Integer? {
      MixedNumberNone(v.value, rest);
      ParseValueInteger(text, word, rest, v.value);
    } else {
      ParseValueOther(text, word, rest);
    }
  }

  /** `ParseQuantity` once the value and the text after it are known. */
  lemma ParseQuantityAt(text: string, v: QuantityValue, rest: string)
    requires ParseValue(text) == Ok((v, rest))
    ensures ParseQuantity(text) == match SplitOnce(rest, " (")
      case Some((unit, note)) =>
        if note == [] || note[|note| - 1] != ')' then Err(MISSING_CLOSING_PARENTHESIS)
        else Ok(Quantity(v, NonEmpty(Trim(unit)), NonEmpty(Trim(note[..|note| - 1]))))
      case None => Ok(Quantity(v, NonEmpty(TrimStart(rest)), None))
  {
  }

  /** `ParseQuantity` once the value is known and no note follows it. */
  lemma QuantityWithoutNote(text: string, v: QuantityValue, rest: string)
    requires ParseValue(text) == Ok((v, rest)) && SplitOnce(rest, " (") == None
    ensures ParseQuantity(text) == Ok(Quantity(v, NonEmpty(TrimStart(rest)), None))
  {
    ParseQuantityAt(text, v, rest);
  }

  /** `ParseQuantity` once the value and an unclosed note are known. */
  lemma QuantityUnclosed(text: string, v: QuantityValue, rest: string, unit: string, note: string)
    requires ParseValue(text) == Ok((v, rest)) && SplitOnce(rest, " (") == Some((unit, note))
    requires note == [] || note[|note| - 1] != ')'
    ensures ParseQuantity(text) == Err(MISSING_CLOSING_PARENTHESIS)
  {
    ParseQuantityAt(text, v, rest);
  }

  /** Displaying a well-formed quantity and parsing the text back gives the
      same quantity. */
  lemma ParseShowQuantity(q: Quantity)
    requires GoodQuantity(q)
    ensures ParseQuantity(ShowQuantity(q)) == Ok(q)
  {
    if q.unit.None? {
      ShownBare(q.value);
    } else if q.note.None? {
      ShownWithUnit(q.value, q.unit.value);
    } else {
      ShownWithNote(q.value, q.unit.value, q.note.value);
    }
  }

  lemma ShownBare(v: QuantityValue)
    ensures ParseQuantity(ShowQuantity(Quantity(v, None, None))) == Ok(Quantity(v, None, None))
  {
    var text := ShowQuantity(Quantity(v, None, None));
    assert ParseValue(text) == Ok((v, [])) by {
      assert text == ShowValue(v) + Spaced([]);
      ParseValueShown(v, []);
    }
    SplitOnceAbsent([], " (");
    QuantityWithoutNote(text, v, []);
  }

  lemma ShownWithUnit(v: QuantityValue, u: string)
    requires GoodUnit(u, v)
    ensures ParseQuantity(ShowQuantity(Quantity(v, Some(u), None))) == Ok(Quantity(v, Some(u), None))
  {
    var text := ShowQuantity(Quantity(v, Some(u), None));
    assert ParseValue(text) == Ok((v, u)) by {
      assert text == ShowValue(v) + Spaced(u);
      if v.Integer? {
        assert u + [] == u;
        FirstWordInside(u, [], '/');
      }
      ParseValueShown(v, u);
    }
    assert SplitOnce(u, " (") == None by {
      SplitOnceSecondAbsent(u, " (");
    }
    assert TrimStart(u) == u by {
      TrimmedIsFixed(u);
    }
    QuantityWithoutNote(text, v, u);
  }

  lemma ShownWithNote(v: QuantityValue, u: string, n: string)
    requires GoodUnit(u, v) && n != [] && Trimmed(n)
    ensures ParseQuantity(ShowQuantity(Quantity(v, Some(u), Some(n)))) == Ok(Quantity(v, Some(u), Some(n)))
  {
    var text := ShowQuantity(Quantity(v, Some(u), Some(n)));
    var rest := u + " (" + n + ")";
    assert ParseValue(text) == Ok((v, rest)) by {
      assert text == ShowValue(v) + Spaced(rest);
      if v.Integer? {
        assert rest == u + (" (" + n + ")");
        FirstWordInside(u, " (" + n + ")", '/');
      }
      ParseValueShown(v, rest);
    }
    assert SplitOnce(rest, " (") == Some((u, n + ")")) by {
      assert rest == u + " (" + (n + ")");
      SplitOnceSecondChar(u, " (", n + ")");
    }
    assert Trim(u) == u && Trim((n + ")")[..|n|]) == n by {
      assert (n + ")")[..|n|] == n;
      TrimmedIsFixed(u);
      TrimmedIsFixed(n);
    }
    QuantityWithNote(text, v, rest, u, n + ")");
  }

  /** `ParseQuantity` once the value and a closed note are known. */
  lemma QuantityWithNote(text: string, v: QuantityValue, rest: string, unit: string, note: string)
    requires ParseValue(text) == Ok((v, rest)) && SplitOnce(rest, " (") == Some((unit, note))
    requires note != [] && note[|note| - 1] == ')'
    ensures ParseQuantity(text) == Ok(Quantity(v, NonEmpty(Trim(unit)), NonEmpty(Trim(note[..|note| - 1]))))
  {
    ParseQuantityAt(text, v, rest);
  }

  /** The counterpart of the premise "a note needs a unit": a note shown
      without a unit, as in `"1 (note)"`, comes back as the unit `"(note)"`. */
  lemma NoteWithoutUnit(v: QuantityValue, note: string)
    requires ' ' !in note && '/' !in note
    ensures ParseQuantity(ShowQuantity(Quantity(v, None, Some(note))))
            == Ok(Quantity(v, Some("(" + note + ")"), None))
  {
    var shown := "(" + note + ")";
    var text := ShowQuantity(Quantity(v, None, Some(note)));
    assert ParseValue(text) == Ok((v, shown)) by {
      assert text == ShowValue(v) + Spaced(shown);
      assert ' ' !in shown && '/' !in shown;
      SplitOnceAbsent(shown, " ");
      ParseValueShown(v, shown);
    }
    assert SplitOnce(shown, " (") == None by {
      SplitOnceAbsent(shown, " (");
    }
    assert TrimStart(shown) == shown by {
      assert !IsWhitespace(shown[0]);
    }
    QuantityWithoutNote(text, v, shown);
  }

  /** An integer, a space and a fraction make one fraction: `"1 1/2"` is
      `3/2`. */
  lemma MixedNumber(whole: nat, numer: nat, denom: nat, rest: string)
    requires whole < U8_LIMIT && numer < U8_LIMIT && denom < U8_LIMIT && Product(whole, denom) + numer < U8_LIMIT
    ensures ParseValue(NatToString(whole) + " " + ShowValue(Fraction(numer, denom)) + Spaced(rest))
            == Ok((Fraction(Product(whole, denom) + numer, denom), rest))
  {
    var f := Fraction(numer, denom);
    assert AddInteger(f, whole) == Some(Fraction(Product(whole, denom) + numer, denom));
    MixedNumberText(whole, f, rest);
  }

  /** A mixed number whose integer or folded numerator does not fit a `u8`
      is an error naming the fraction word. */
  lemma MixedNumberOutOfRange(whole: nat, numer: nat, denom: nat)
    requires whole < U32_LIMIT && numer < U8_LIMIT && denom < U8_LIMIT
    requires whole >= U8_LIMIT || Product(whole, denom) + numer >= U8_LIMIT
    ensures ParseValue(NatToString(whole) + " " + ShowValue(Fraction(numer, denom)))
            == Err(MixedOutOfRange(ShowValue(Fraction(numer, denom))))
  {
    var f := Fraction(numer, denom);
    assert AddInteger(f, whole) == None;
    assert NatToString(whole) + " " + ShowValue(f) == NatToString(whole) + " " + ShowValue(f) + Spaced([]);
    MixedNumberText(whole, f, []);
  }

  /** An integer word, a space and a fraction word: `ParseValue` folds them
      when `AddInteger` can. */
  lemma MixedNumberText(whole: U32, f: QuantityValue, rest: string)
    requires f.Fraction?
    ensures ParseValue(NatToString(whole) + " " + ShowValue(f) + Spaced(rest))
            == match AddInteger(f, whole)
               case Some(mixed) => Ok((mixed, rest))
               case None => Err(MixedOutOfRange(ShowValue(f)))
  {
    var word := NatToString(whole);
    var after := ShowValue(f) + Spaced(rest);
    var text := word + " " + after;
    assert word + " " + ShowValue(f) + Spaced(rest) == text;
    assert SplitOr(text, " ") == (word, after) by {
      DigitsHaveNo(whole, ' ');
      SplitOnceFirstChar(word, " ", after);
    }
    assert TryInteger(word) == Ok(Some(whole)) by {
      ParseNatToString(whole, U32_LIMIT);
    }
    assert SplitOr(after, " ") == (ShowValue(f), rest) by {
      ShowValueShape(f);
      FirstWord(ShowValue(f), rest);
    }
    assert TryFraction(ShowValue(f)) == Ok(Some(f)) by {
      WordShown(f);
    }
    MixedNumberAt(text, word, whole, after, ShowValue(f), rest, f);
  }

  /** `ParseValue` on an integer word followed by a fraction word. */
  lemma MixedNumberAt(text: string, word: string, whole: U32, after: string, fraction: string, rest: string,
                      f: QuantityValue)
    requires SplitOr(text, " ") == (word, after) && TryInteger(word) == Ok(Some(whole))
    requires SplitOr(after, " ") == (fraction, rest) && TryFraction(fraction) == Ok(Some(f)) && f.Fraction?
    ensures ParseValue(text) == match AddInteger(f, whole)
                                case Some(mixed) => Ok((mixed, rest))
                                case None => Err(MixedOutOfRange(fraction))
  {
  }

  /** An integer word too large for a `u32` is an error, not a fall-through. */
  lemma IntegerOutOfRange(n: nat)
    requires n >= U32_LIMIT
    ensures ParseValue(NatToString(n)) == Err(INTEGER_OUT_OF_RANGE)
  {
    DigitsHaveNo(n, ' ');
    SplitOnceAbsent(NatToString(n), " ");
    ParseTooLarge(n, U32_LIMIT);
  }

  /** The fractional digits of a decimal are kept as a number, so zeros in
      front of them are lost: `"0.05"` reads as `0.5`. */
  lemma DecimalDropsLeadingZeros(whole: nat, zeros: string, frac: nat)
    requires whole < U16_LIMIT && frac < U16_LIMIT && forall i :: 0 <= i < |zeros| ==> zeros[i] == '0'
    ensures ParseValue(NatToString(whole) + "." + zeros + NatToString(frac)) == Ok((Decimal(whole, frac), []))
  {
    var fracWord := zeros + NatToString(frac);
    var word := NatToString(whole) + "." + fracWord;
    assert NatToString(whole) + "." + zeros + NatToString(frac) == word;
    assert SplitOr(word, " ") == (word, []) by {
      DigitsHaveNo(whole, ' ');
      DigitsHaveNo(frac, ' ');
      assert ' ' !in word;
      SplitOnceAbsent(word, " ");
    }
    assert TryInteger(word) == Ok(None) by {
      ParseStopsAtNonDigit(whole, '.', fracWord, U32_LIMIT);
    }
    assert TryDecimal(word) == Ok(Some(Decimal(whole, frac))) by {
      DigitsHaveNo(whole, '.');
      SplitOnceFirstChar(NatToString(whole), ".", fracWord);
      ParseNatToString(whole, U16_LIMIT);
      ParseLeadingZeros(zeros, frac, U16_LIMIT);
    }
    ParseValueOther(word, word, []);
  }

  /** The note must be closed: a `" ("` whose remainder does not end in
      `')'` fails the quantity. */
  lemma UnclosedNote(v: QuantityValue, unit: string, note: string)
    requires '(' !in unit && (v.Integer? ==> '/' !in unit)
    requires note == [] || note[|note| - 1] != ')'
    ensures ParseQuantity(ShowValue(v) + " " + unit + " (" + note) == Err(MISSING_CLOSING_PARENTHESIS)
  {
    var rest := unit + " (" + note;
    var text := ShowValue(v) + " " + unit + " (" + note;
    assert ParseValue(text) == Ok((v, rest)) by {
      assert text == ShowValue(v) + Spaced(rest);
      if v.Integer? {
        assert rest == unit + (" (" + note);
        FirstWordInside(unit, " (" + note, '/');
      }
      ParseValueShown(v, rest);
    }
    assert SplitOnce(rest, " (") == Some((unit, note)) by {
      SplitOnceSecondChar(unit, " (", note);
    }
    QuantityUnclosed(text, v, rest, unit, note);
  }

  /** Displaying a well-formed ingredient gives text with no outer whitespace. */
  lemma ShowIngredientTrimmed(x: Ingredient)
    requires GoodIngredient(x)
    ensures ShowIngredient(x) != [] && Trimmed(ShowIngredient(x))
  {
    var s := ShowIngredient(x);
    assert s[0] == x.name[0];
    if x.quantity.Some? {
      var q := x.quantity.value;
      var t := ShowQuantity(q);
      ShowValueShape(q.value);
      assert s[|s| - 1] == t[|t| - 1];
      if q.note.None? && q.unit.Some? {
        assert t[|t| - 1] == q.unit.value[|q.unit.value| - 1];
      } else if q.note.None? {
        assert t == ShowValue(q.value);
      }
    } else if x.kind.Some? {
      assert s[|s| - 1] == x.kind.value[|x.kind.value| - 1];
    }
  }

  /** `ParseIngredient` once the two splits are known. */
  lemma ParseIngredientAt(text: string, nameKind: string, quantity: string, name: string, kind: string)
    requires SplitTrimmed(text, ": ") == (nameKind, quantity) && SplitTrimmed(nameKind, ", ") == (name, kind)
    requires name != []
    ensures ParseIngredient(text) == if quantity == [] then Ok(Ingredient(name, NonEmpty(kind), None))
                                     else var q :- ParseQuantity(quantity); Ok(Ingredient(name, NonEmpty(kind), Some(q)))
  {
  }

  /** The name and kind of a well-formed ingredient form one trimmed part
      without `':'` that splits back into them. */
  lemma NameKindShown(x: Ingredient)
    requires GoodIngredient(x)
    ensures var s := ShowNameKind(x.name, x.kind);
      && s != [] && Trimmed(s) && ':' !in s
      && SplitTrimmed(s, ", ") == (x.name, if x.kind.Some? then x.kind.value else [])
  {
    var s := ShowNameKind(x.name, x.kind);
    if x.kind.Some? {
      var kind := x.kind.value;
      assert s == x.name + ", " + kind;
      assert Trimmed(s) by {
        assert s[0] == x.name[0];
        assert s[|s| - 1] == kind[|kind| - 1];
      }
      assert SplitTrimmed(s, ", ") == (x.name, kind) by {
        SplitOnceFirstChar(x.name, ", ", kind);
        TrimmedIsFixed(x.name);
        TrimmedIsFixed(kind);
      }
    } else {
      assert s == x.name;
      assert SplitTrimmed(s, ", ") == (x.name, []) by {
        SplitOnceAbsent(x.name, ", ");
      }
    }
  }

  /** `Display for Ingredient` writes the name part, then `": "` and the
      quantity if there is one. */
  lemma ShowIngredientParts(x: Ingredient)
    ensures ShowIngredient(x) == if x.quantity.Some?
                                 then ShowNameKind(x.name, x.kind) + ": " + ShowQuantity(x.quantity.value)
                                 else ShowNameKind(x.name, x.kind)
  {
    if x.quantity.None? {
      assert ShowIngredient(x) == ShowNameKind(x.name, x.kind) + [];
    }
  }

  /** A displayed quantity starts with a digit. */
  lemma ShowQuantityStart(q: Quantity)
    ensures ShowQuantity(q) != [] && IsDigit(ShowQuantity(q)[0])
  {
    ShowValueShape(q.value);
    assert ShowQuantity(q)[0] == ShowValue(q.value)[0];
  }

  /** A trimmed part without `':'`, `": "` and a part starting with a
      non-blank character split back into the two parts. */
  lemma SplitShown(before: string, after: string)
    requires ':' !in before && Trimmed(before) && after != [] && !IsWhitespace(after[0])
    ensures SplitTrimmed(before + ": " + after, ": ") == (before, after)
  {
    SplitOnceFirstChar(before, ": ", after);
    TrimmedIsFixed(before);
  }

  /** Displaying a well-formed ingredient and parsing the text back gives the
      same ingredient. */
  lemma ParseShowIngredient(x: Ingredient)
    requires GoodIngredient(x)
    ensures ParseIngredient(ShowIngredient(x)) == Ok(x)
  {
    var kind := if x.kind.Some? then x.kind.value else [];
    var nameKind := ShowNameKind(x.name, x.kind);
    NameKindShown(x);
    assert NonEmpty(kind) == x.kind;
    var text := ShowIngredient(x);
    ShowIngredientParts(x);
    if x.quantity.Some? {
      var q := ShowQuantity(x.quantity.value);
      assert SplitTrimmed(text, ": ") == (nameKind, q) by {
        ShowQuantityStart(x.quantity.value);
        SplitShown(nameKind, q);
      }
      ParseShowQuantity(x.quantity.value);
      ParseIngredientAt(text, nameKind, q, x.name, kind);
    } else {
      assert SplitTrimmed(text, ": ") == (nameKind, []) by {
        SplitOnceAbsent(nameKind, ": ");
      }
      ParseIngredientAt(text, nameKind, [], x.name, kind);
    }
  }

  /** An ingredient line whose text before `": "` is blank has no name. */
  lemma BlankName(blank: string, quantity: string)
    requires forall i :: 0 <= i < |blank| ==> IsWhitespace(blank[i])
    ensures ParseIngredient(blank + ": " + quantity) == Err(EMPTY_INGREDIENT_NAME)
  {
    var text := blank + ": " + quantity;
    assert ':' !in blank;
    SplitOnceFirstChar(blank, ": ", quantity);
    assert TrimEnd(blank) == [] by {
      TrimEndDropsWhitespace(blank);
    }
    SplitOnceAbsent([], ", ");
  }
}
