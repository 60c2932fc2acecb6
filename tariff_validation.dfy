/**
 * The response validation of src/services/wbTariffs/wbTariffs.validation.ts:
 * the `numericString` field parser (clean the raw value, check it against
 * `^-?\d+([.,]\d+)?$`, turn a comma into a dot, take the number) and the
 * warehouse record schema built from it. Numbers are exact reals here.
 */
module TariffValidation {
  import opened Wrappers
  import opened Text
  import opened TariffTypes

  /**
   * A raw JSON field. `Num` carries the text `Number.prototype.toString`
   * gives for the number, `Other` the text `String(value)` gives for any
   * other kind of value.
   */
  datatype RawValue = Null | Undefined | Num(text: string) | Str(s: string) | Other(text: string)

  const InvalidFormat: string := "Invalid numeric format"

  /** `String(value).trim().replace(/\s+/g, "")`: the cleaned text of a string. */
  function Clean(s: string): (c: string)
    ensures NoWhitespace(c)
  {
    StripWhitespace(Trim(s))
  }

  /** The preprocess step: the string handed to the format check. */
  function Preprocess(v: RawValue): (p: string)
    ensures v.Str? || v.Other? ==> NoWhitespace(p)
  {
    match v
    case Null => "0"
    case Undefined => "0"
    case Num(text) => text
    case Str(s) =>
      var cleaned := Clean(s);
      if cleaned == "" || cleaned == "-" || cleaned == "+" then "0" else cleaned
    case Other(text) => Clean(text)
  }

  /** Cleaning removes every white-space character and nothing else. */
  lemma CleanIsStrip(s: string)
    ensures Clean(s) == StripWhitespace(s)
  {
    StripAfterTrim(s);
  }

  // The accepted format

  datatype Separator = Dot | Comma

  /** A string of the form `^-?\d+([.,]\d+)?$`, split into its parts. */
  datatype NumericText = NumericText(negative: bool, whole: string, fraction: Option<(Separator, string)>)

  predicate WellFormed(n: NumericText) {
    && |n.whole| > 0 && AllDigits(n.whole)
    && (n.fraction.Some? ==> |n.fraction.value.1| > 0 && AllDigits(n.fraction.value.1))
  }

  function SeparatorChar(sep: Separator): char {
    match sep
    case Dot => '.'
    case Comma => ','
  }

  function SignText(negative: bool): string {
    if negative then "-" else ""
  }

  function FractionText(fraction: Option<(Separator, string)>): string {
    match fraction
    case None => ""
    case Some(f) => [SeparatorChar(f.0)] + f.1
  }

  function Render(n: NumericText): string {
    SignText(n.negative) + n.whole + FractionText(n.fraction)
  }

  /** The length of the run of digits at the start of `s`. */
  function DigitRun(s: string): (k: nat)
    ensures k <= |s| && AllDigits(s[..k])
    ensures k < |s| ==> !IsDigit(s[k])
  {
    if s == [] || !IsDigit(s[0]) then 0
    else
      var k := 1 + DigitRun(s[1..]);
      assert s[..k] == [s[0]] + s[1..][..k - 1];
      k
  }

  /** The regular expression, read left to right. */
  function Scan(s: string): (r: Option<NumericText>)
    ensures r.Some? ==> WellFormed(r.value)
  {
    var negative := |s| > 0 && s[0] == '-';
    ScanUnsigned(negative, if negative then s[1..] else s)
  }

  /** Whatever `Scan` accepts is the rendering of the parts it returns. */
  lemma ScanIsRender(s: string)
    ensures Scan(s).Some? ==> Render(Scan(s).value) == s
  {
    var negative := |s| > 0 && s[0] == '-';
    var body := if negative then s[1..] else s;
    var r := ScanUnsigned(negative, body);
    assert Scan(s) == r;
    assert SignText(negative) + body == s by {
      if negative { assert s == "-" + s[1..]; } else { assert "" + s == s; }
    }
    if r.Some? {
      var n := r.value;
      assert n.negative == negative && n.whole + FractionText(n.fraction) == body;
      ConcatAssoc(SignText(negative), n.whole, FractionText(n.fraction));
    }
  }

  lemma ConcatAssoc(a: string, b: string, c: string)
    ensures a + b + c == a + (b + c)
  {
  }

  /** `\d+([.,]\d+)?$` on what follows the optional minus sign. */
  function ScanUnsigned(negative: bool, body: string): (r: Option<NumericText>)
    ensures r.Some? ==> && WellFormed(r.value) && r.value.negative == negative
                        && r.value.whole + FractionText(r.value.fraction) == body
  {
    var k := DigitRun(body);
    if k == 0 then None
    else if k == |body| then
      assert body[..k] == body;
      Some(NumericText(negative, body, None))
    else if (body[k] == '.' || body[k] == ',') && k + 1 < |body| && AllDigits(body[k + 1..]) then
      var sep := if body[k] == '.' then Dot else Comma;
      assert body == body[..k] + [SeparatorChar(sep)] + body[k + 1..];
      Some(NumericText(negative, body[..k], Some((sep, body[k + 1..]))))
    else None
  }

  lemma DigitRunOfDigits(whole: string, rest: string)
    requires AllDigits(whole)
    requires rest == [] || !IsDigit(rest[0])
    ensures DigitRun(whole + rest) == |whole|
    decreases |whole|
  {
    if whole != [] {
      assert (whole + rest)[1..] == whole[1..] + rest;
      DigitRunOfDigits(whole[1..], rest);
    } else {
      assert whole + rest == rest;
    }
  }

  lemma ScanUnsignedRender(n: NumericText)
    requires WellFormed(n)
    ensures ScanUnsigned(n.negative, n.whole + FractionText(n.fraction)) == Some(n)
  {
    var tail := FractionText(n.fraction);
    var body := n.whole + tail;
    DigitRunOfDigits(n.whole, tail);
    assert body[..|n.whole|] == n.whole;
    var k := |n.whole|;
    if n.fraction.Some? {
      var f := n.fraction.value;
      assert tail == [SeparatorChar(f.0)] + f.1;
      assert body[k] == SeparatorChar(f.0);
      assert body[k + 1..] == f.1;
      assert k + 1 < |body| && AllDigits(body[k + 1..]);
      assert (if body[k] == '.' then Dot else Comma) == f.0;
    } else {
      assert tail == [];
      assert body == n.whole;
    }
  }

  /** Every string of the form is accepted, and scanning gives back its parts. */
  lemma ScanRender(n: NumericText)
    requires WellFormed(n)
    ensures Scan(Render(n)) == Some(n)
  {
    var s := Render(n);
    var body := n.whole + FractionText(n.fraction);
    assert s == SignText(n.negative) + body;
    if n.negative {
      assert s[0] == '-' && s[1..] == body;
    } else {
      assert s == body && s[0] == n.whole[0];
    }
    ScanUnsignedRender(n);
  }

  /** `Scan` accepts exactly the rendered forms. */
  lemma ScanIffForm(s: string)
    ensures Scan(s).Some? <==> exists n :: WellFormed(n) && Render(n) == s
  {
    if exists n :: WellFormed(n) && Render(n) == s {
      var n :| WellFormed(n) && Render(n) == s;
      ScanRender(n);
    }
    ScanIsRender(s);
  }

  /** Strings the regular expression turns away. */
  lemma RejectedExamples()
    ensures Scan("+5") == None && Scan(".5") == None && Scan("1.") == None && Scan("1,2,3") == None
  {
    assert DigitRun("+5") == 0 && DigitRun(".5") == 0;
    assert DigitRun("1.") == 1 by { assert "1."[1..] == "."; }
    assert DigitRun("1,2,3") == 1 by { assert "1,2,3"[1..] == ",2,3"; }
    assert !AllDigits("1,2,3"[2..]) by { assert "1,2,3"[2..][1] == ','; }
  }

  // The value

  function FractionValue(f: string): (x: real)
    requires AllDigits(f)
    ensures 0.0 <= x < 1.0
  {
    DigitsValueBound(f);
    Ratio(DigitsValue(f), Pow10(|f|))
  }

  function Ratio(a: nat, b: nat): (x: real)
    requires a < b
    ensures 0.0 <= x < 1.0
  {
    var x := a as real / b as real;
    assert x * b as real == a as real;
    x
  }

  /** The exact signed decimal value of the text. */
  function Value(n: NumericText): real
    requires WellFormed(n)
  {
    var magnitude := DigitsValue(n.whole) as real
      + (match n.fraction case None => 0.0 case Some(f) => FractionValue(f.1));
    if n.negative then -magnitude else magnitude
  }

  /** `value.replace(",", ".")`: the first comma becomes a dot. */
  function ReplaceFirstComma(s: string): (r: string)
    ensures |r| == |s|
  {
    if s == [] then []
    else if s[0] == ',' then "." + s[1..]
    else [s[0]] + ReplaceFirstComma(s[1..])
  }

  lemma ReplaceFirstCommaSkips(prefix: string, rest: string)
    requires forall i :: 0 <= i < |prefix| ==> prefix[i] != ','
    ensures ReplaceFirstComma(prefix + rest) == prefix + ReplaceFirstComma(rest)
    decreases |prefix|
  {
    if prefix != [] {
      assert (prefix + rest)[1..] == prefix[1..] + rest;
      ReplaceFirstCommaSkips(prefix[1..], rest);
    } else {
      assert prefix + rest == rest;
    }
  }

  function WithDot(n: NumericText): NumericText {
    match n.fraction
    case None => n
    case Some(f) => n.(fraction := Some((Dot, f.1)))
  }

  /** Normalising the separator turns the text into its dotted form. */
  lemma NormalizeRender(n: NumericText)
    requires WellFormed(n)
    ensures ReplaceFirstComma(Render(n)) == Render(WithDot(n))
  {
    var head := SignText(n.negative) + n.whole;
    var tail := FractionText(n.fraction);
    assert Render(n) == head + tail;
    assert Render(WithDot(n)) == head + FractionText(WithDot(n).fraction);
    assert forall i :: 0 <= i < |head| ==> head[i] != ',';
    ReplaceFirstCommaSkips(head, tail);
    if n.fraction.Some? {
      var f := n.fraction.value;
      assert tail == [SeparatorChar(f.0)] + f.1 && tail[1..] == f.1;
      assert forall i :: 0 <= i < |f.1| ==> f.1[i] != ',';
      ReplaceFirstCommaSkips(f.1, []);
      assert f.1 + [] == f.1;
      assert FractionText(WithDot(n).fraction) == "." + f.1;
    }
  }

  /** `parseFloat` on a dotted decimal string: its exact value. */
  function ParseFloat(s: string): real
    requires Scan(s).Some?
  {
    Value(Scan(s).value)
  }

  /** The inner schema: the format check, then the separator normalisation and the number. */
  function CheckFormat(p: string): (r: Result<real, string>)
    ensures r.Err? ==> r.error == InvalidFormat
  {
    match Scan(p)
    case None => Err(InvalidFormat)
    case Some(n) =>
      ScanIsRender(p);
      NormalizeRender(n);
      ScanRender(WithDot(n));
      Ok(ParseFloat(ReplaceFirstComma(p)))
  }

  /** `numericString`: the parsed number, or the format error. */
  function NumericString(v: RawValue): (r: Result<real, string>)
    ensures r.Ok? <==> Scan(Preprocess(v)).Some?
    ensures r.Ok? ==> r.value == Value(Scan(Preprocess(v)).value)
    ensures r.Err? ==> r.error == InvalidFormat
  {
    CheckFormatMeaning(Preprocess(v));
    CheckFormat(Preprocess(v))
  }

  /** A text passes exactly when it has the form, and then yields its value. */
  lemma CheckFormatMeaning(p: string)
    ensures CheckFormat(p).Ok? <==> Scan(p).Some?
    ensures CheckFormat(p).Ok? ==> CheckFormat(p).value == Value(Scan(p).value)
  {
    if Scan(p).Some? {
      var n := Scan(p).value;
      ScanIsRender(p);
      NormalizeRender(n);
      ScanRender(WithDot(n));
    }
  }

  /** A clean text of the form, other than "-" or "+", reaches the check unchanged. */
  lemma PreprocessClean(s: string)
    requires NoWhitespace(s) && s != "" && s != "-" && s != "+"
    ensures Preprocess(Str(s)) == s
  {
    StripWhitespaceOfClean(s);
    CleanIsStrip(s);
  }

  /** `null` and `undefined` (also an absent field, through `.default(0)`) read as 0. */
  lemma MissingIsZero()
    ensures NumericString(Null) == Ok(0.0) && NumericString(Undefined) == Ok(0.0)
  {
    var n := NumericText(false, "0", None);
    ScanRender(n);
    assert Render(n) == "0";
    CheckFormatMeaning("0");
  }

  /** A string that cleans to nothing or to a lone sign reads as 0. */
  lemma SignOnlyIsZero(s: string)
    requires StripWhitespace(s) in {"", "-", "+"}
    ensures NumericString(Str(s)) == Ok(0.0)
  {
    CleanIsStrip(s);
    assert Preprocess(Str(s)) == "0";
    MissingIsZero();
  }

  /** White space anywhere in a string is ignored. */
  lemma WhitespaceIgnored(s: string)
    ensures NumericString(Str(s)) == NumericString(Str(StripWhitespace(s)))
  {
    var t := StripWhitespace(s);
    CleanIsStrip(s);
    CleanIsStrip(t);
    StripWhitespaceOfClean(t);
    assert Clean(s) == Clean(t);
    PreprocessOfClean(s, t);
    var p := Preprocess(Str(s));
    assert NumericString(Str(s)) == CheckFormat(p) == NumericString(Str(t));
  }

  lemma PreprocessOfClean(s: string, t: string)
    requires Clean(s) == Clean(t)
    ensures Preprocess(Str(s)) == Preprocess(Str(t))
  {
  }

  /** A clean string of the form reads as its signed decimal value. */
  lemma WellFormedStringValue(n: NumericText)
    requires WellFormed(n)
    ensures NumericString(Str(Render(n))) == Ok(Value(n))
  {
    var s := Render(n);
    assert NoWhitespace(s) by {
      assert forall i :: 0 <= i < |s| ==> s[i] == '-' || s[i] == '.' || s[i] == ',' || IsDigit(s[i]);
    }
    assert s != "" && s != "-" && s != "+" by {
      if n.negative { assert s[1..][0] == n.whole[0]; } else { assert s[0] == n.whole[0]; }
    }
    PreprocessClean(s);
    ScanRender(n);
    CheckFormatMeaning(s);
  }

  /** "3,25" and "3.25" read the same: the separator does not change the value. */
  lemma CommaReadsAsDot(n: NumericText)
    requires WellFormed(n)
    ensures NumericString(Str(Render(n))).Ok?
    ensures NumericString(Str(Render(n))) == NumericString(Str(Render(WithDot(n))))
  {
    var d := WithDot(n);
    assert WellFormed(d) && Value(d) == Value(n);
    WellFormedStringValue(n);
    WellFormedStringValue(d);
  }

  /** A plain or negated natural number reads as itself. */
  lemma IntegerValue(k: nat, negative: bool)
    ensures NumericString(Str((if negative then "-" else "") + NatToDigits(k))) == Ok(if negative then -(k as real) else k as real)
  {
    var n := NumericText(negative, NatToDigits(k), None);
    assert Render(n) == (if negative then "-" else "") + NatToDigits(k);
    assert Value(n) == (if negative then -(k as real) else k as real);
    WellFormedStringValue(n);
  }

  lemma RejectedClean(s: string)
    requires NoWhitespace(s) && s != "" && s != "-" && s != "+" && Scan(s) == None
    ensures NumericString(Str(s)).Err?
  {
    PreprocessClean(s);
    CheckFormatMeaning(s);
  }

  /** A string of visible ASCII characters holds no white space. */
  lemma VisibleAsciiIsClean(s: string)
    requires forall i :: 0 <= i < |s| ==> '!' <= s[i] <= '~'
    ensures NoWhitespace(s)
  {
  }

  /** Strings that the check rejects, although `parseFloat` would read a number from them. */
  lemma RejectedStrings(s: string)
    requires s in ["+5", ".5", "1.", "1,2,3"]
    ensures NumericString(Str(s)).Err?
  {
    assert s == "+5" || s == ".5" || s == "1." || s == "1,2,3";
    assert Scan(s) == None by { RejectedExamples(); }
    assert s != "" && s != "-" && s != "+";
    assert forall i :: 0 <= i < |s| ==> '!' <= s[i] <= '~';
    VisibleAsciiIsClean(s);
    RejectedClean(s);
  }

  // wbTariffsWarehouseSchema

  /** A raw warehouse record: every field as it arrived (an absent field is `Undefined`). */
  datatype RawWarehouse = RawWarehouse(
    warehouseName: RawValue,
    geoName: RawValue,
    rates: Rates<RawValue>)

  /** Each field through `parse`; any failure fails the whole. */
  function ParseAll(fields: seq<RawValue>, parse: RawValue -> Result<real, string>): (r: Result<seq<real>, string>)
    ensures r.Ok? <==> forall i :: 0 <= i < |fields| ==> parse(fields[i]).Ok?
    ensures r.Ok? ==> |r.value| == |fields| && forall i :: 0 <= i < |fields| ==> r.value[i] == parse(fields[i]).value
  {
    if fields == [] then Ok([])
    else
      var head := parse(fields[0]);
      var rest := ParseAll(fields[1..], parse);
      assert forall i :: 1 <= i < |fields| ==> fields[1..][i - 1] == fields[i];
      if head.Err? then Err(head.error)
      else if rest.Err? then Err(rest.error)
      else Ok([head.value] + rest.value)
  }

  /** `wbTariffsWarehouseSchema.parse`: two strings and nine numeric strings. */
  function ParseWarehouse(w: RawWarehouse): (r: Result<WarehouseTariff, string>)
    ensures r.Ok? <==>
      (w.warehouseName.Str? && w.geoName.Str? && forall i :: 0 <= i < 9 ==> NumericString(RatesInOrder(w.rates)[i]).Ok?)
    ensures r.Ok? ==> r.value.warehouseName == w.warehouseName.s && r.value.geoName == w.geoName.s
                      && forall i :: 0 <= i < 9 ==> RatesInOrder(r.value.rates)[i] == NumericString(RatesInOrder(w.rates)[i]).value
  {
    if !w.warehouseName.Str? then Err("warehouseName: expected string")
    else if !w.geoName.Str? then Err("geoName: expected string")
    else
      match ParseAll(RatesInOrder(w.rates), NumericString)
      case Err(e) => Err(e)
      case Ok(v) => Ok(WarehouseTariff(w.warehouseName.s, w.geoName.s, RatesFrom(v)))
  }
}
