/**
 * The string transforms of the configuration schema in
 * src/config/env/env.ts: digit-only numbers (`coerceNumberFromString`), the
 * comma-separated spreadsheet id list and the default API address. A
 * variable that is not set is `None`.
 */
module Env {
  import opened Wrappers
  import opened Text

  // coerceNumberFromString

  /** `z.string().regex(/^[0-9]+$/).transform(parseInt)`. */
  function CoerceNumber(v: Option<string>): (r: Result<nat, string>)
    ensures r.Ok? <==> v.Some? && |v.value| > 0 && AllDigits(v.value)
    ensures r.Ok? ==> r.value == DigitsValue(v.value)
  {
    match v
    case None => Err("Required")
    case Some(s) =>
      if |s| > 0 && AllDigits(s) then Ok(DigitsValue(s)) else Err("Invalid")
  }

  /** `POSTGRES_PORT`: required. */
  function PostgresPort(v: Option<string>): (r: Result<nat, string>)
    ensures v.None? ==> r.Err?
    ensures r.Ok? <==> v.Some? && |v.value| > 0 && AllDigits(v.value)
    ensures r.Ok? ==> r.value == DigitsValue(v.value)
  {
    CoerceNumber(v)
  }

  /** `APP_PORT`: optional, and checked like the required port when set. */
  function AppPort(v: Option<string>): (r: Result<Option<nat>, string>)
    ensures v.None? ==> r == Ok(None)
    ensures v.Some? ==> (r.Ok? <==> CoerceNumber(v).Ok?)
    ensures v.Some? && r.Ok? ==> r.value == Some(CoerceNumber(v).value)
  {
    match v
    case None => Ok(None)
    case Some(_) =>
      match CoerceNumber(v)
      case Ok(n) => Ok(Some(n))
      case Err(e) => Err(e)
  }

  /** Every number reads back from its decimal text. */
  lemma CoerceNumberRoundTrip(n: nat)
    ensures CoerceNumber(Some(NatToDigits(n))) == Ok(n)
  {
  }

  /** Leading zeros are accepted and do not change the number. */
  lemma {:induction false} CoerceNumberLeadingZeros(s: string, k: nat)
    requires |s| > 0 && AllDigits(s)
    ensures CoerceNumber(Some(seq(k, _ => '0') + s)) == CoerceNumber(Some(s))
  {
    if k > 0 {
      var zeros := seq(k - 1, _ => '0') + s;
      CoerceNumberLeadingZeros(s, k - 1);
      assert AllDigits(zeros) && |zeros| > 0;
      assert seq(k, _ => '0') + s == "0" + zeros;
      LeadingZero(zeros);
    } else {
      assert seq(k, _ => '0') + s == s;
    }
  }

  // WB_API_URL

  const DefaultWbApiUrl: string := "https://common-api.wildberries.ru"

  /** `WB_API_URL`: unset gives the default, a set value must pass `isUrl` and is kept. */
  function WbApiUrl(v: Option<string>, isUrl: string -> bool): (r: Result<string, string>)
    ensures v.None? ==> r == Ok(DefaultWbApiUrl)
    ensures v.Some? ==> (r.Ok? <==> isUrl(v.value)) && (r.Ok? ==> r.value == v.value)
  {
    match v
    case None => Ok(DefaultWbApiUrl)
    case Some(s) => if isUrl(s) then Ok(s) else Err("Invalid url")
  }

  // GOOGLE_SPREADSHEET_IDS

  predicate NoComma(s: string) {
    forall i :: 0 <= i < |s| ==> s[i] != ','
  }

  /** The position of the first comma, if any. */
  function FirstComma(s: string): (r: Option<nat>)
    ensures r.None? ==> NoComma(s)
    ensures r.Some? ==> r.value < |s| && s[r.value] == ',' && NoComma(s[..r.value])
  {
    if s == [] then None
    else if s[0] == ',' then Some(0)
    else
      match FirstComma(s[1..])
      case None => None
      case Some(i) =>
        assert s[..i + 1] == [s[0]] + s[1..][..i];
        Some(i + 1)
  }

  /** Joins the parts with commas between them. */
  function Join(parts: seq<string>): string {
    if parts == [] then ""
    else if |parts| == 1 then parts[0]
    else parts[0] + "," + Join(parts[1..])
  }

  /** `value.split(",")`: the comma-free pieces between the commas, at least one. */
  function Split(s: string): (parts: seq<string>)
    ensures |parts| >= 1
    ensures forall p :: p in parts ==> NoComma(p)
    ensures Join(parts) == s
    decreases |s|
  {
    match FirstComma(s)
    case None => [s]
    case Some(i) =>
      var rest := Split(s[i + 1..]);
      assert s == s[..i] + "," + s[i + 1..];
      [s[..i]] + rest
  }

  lemma FirstCommaAfter(a: string, b: string)
    requires NoComma(a)
    ensures FirstComma(a + "," + b) == Some(|a|)
    decreases |a|
  {
    if a != [] {
      assert (a + "," + b)[1..] == a[1..] + "," + b;
      FirstCommaAfter(a[1..], b);
    }
  }

  /** Splitting undoes joining comma-free parts. */
  lemma {:induction false} SplitJoin(parts: seq<string>)
    requires |parts| >= 1
    requires forall p :: p in parts ==> NoComma(p)
    ensures Split(Join(parts)) == parts
  {
    if |parts| == 1 {
      assert NoComma(parts[0]);
      assert FirstComma(parts[0]) == None;
    } else {
      var a := parts[0];
      FirstCommaAfter(a, Join(parts[1..]));
      assert (a + "," + Join(parts[1..]))[..|a|] == a;
      assert (a + "," + Join(parts[1..]))[|a| + 1..] == Join(parts[1..]);
      SplitJoin(parts[1..]);
    }
  }

  function TrimAll(parts: seq<string>): (r: seq<string>)
    ensures |r| == |parts| && forall i :: 0 <= i < |parts| ==> r[i] == Trim(parts[i])
  {
    seq(|parts|, i requires 0 <= i < |parts| => Trim(parts[i]))
  }

  /** `.filter(Boolean)`: the non-empty strings, in order. */
  function NonEmpty(parts: seq<string>): (r: seq<string>)
    ensures |r| <= |parts|
    ensures forall p :: p in r ==> p != [] && p in parts
    ensures forall p :: p in parts && p != [] ==> p in r
  {
    if parts == [] then []
    else if parts[0] == [] then NonEmpty(parts[1..])
    else [parts[0]] + NonEmpty(parts[1..])
  }

  /** `GOOGLE_SPREADSHEET_IDS`: `(value ?? "").split(",").map(trim).filter(Boolean)`. */
  function SpreadsheetIds(v: Option<string>): (ids: seq<string>)
    ensures v.None? ==> ids == []
    ensures forall id :: id in ids ==> id != [] && NoComma(id) && Trim(id) == id
  {
    var raw := match v case None => "" case Some(s) => s;
    var parts := Split(raw);
    assert v.None? ==> parts == [""] by {
      if v.None? {
        assert FirstComma("") == None;
      }
    }
    assert NonEmpty(TrimAll([""])) == [] by {
      assert TrimAll([""]) == [""];
      assert [""][1..] == [];
    }
    TrimmedPartsClean(parts);
    NonEmpty(TrimAll(parts))
  }

  /** The filter keeps a one-piece list exactly when the piece is non-empty. */
  lemma NonEmptySingle(x: string)
    ensures NonEmpty([x]) == if x == [] then [] else [x]
  {
    assert [x][1..] == [];
  }

  /** The filter works piece by piece: it keeps the order and every occurrence. */
  lemma {:induction false} NonEmptyAppend(a: seq<string>, b: seq<string>)
    ensures NonEmpty(a + b) == NonEmpty(a) + NonEmpty(b)
  {
    if a == [] {
      assert a + b == b;
    } else {
      assert (a + b)[0] == a[0] && (a + b)[1..] == a[1..] + b;
      NonEmptyAppend(a[1..], b);
    }
  }

  /**
   * For any comma-free pieces, the ids of their comma join are the trimmed
   * pieces, in order, with the empty ones dropped: together with
   * `NonEmptySingle` and `NonEmptyAppend` this fixes the result for every
   * input, since every string is the join of its `Split`.
   */
  lemma SpreadsheetIdsOfJoin(ps: seq<string>)
    requires forall p :: p in ps ==> NoComma(p)
    ensures SpreadsheetIds(Some(Join(ps))) == NonEmpty(TrimAll(ps))
  {
    if ps == [] {
      assert Split("") == [""] by { assert FirstComma("") == None; }
      assert TrimAll([""]) == [""] by { assert Trim("") == ""; }
      NonEmptySingle("");
    } else {
      SplitJoin(ps);
    }
  }

  /** Empty pieces, from doubled or trailing commas, are dropped. */
  lemma EmptyPiecesDropped(a: string, b: string)
    requires a != [] && b != [] && NoComma(a) && NoComma(b) && Trim(a) == a && Trim(b) == b
    ensures SpreadsheetIds(Some(a + ",," + b + ",")) == [a, b]
  {
    var ps := [a, "", b, ""];
    JoinWithEmpties(a, b);
    PiecesWithEmptiesClean(a, b);
    SpreadsheetIdsOfJoin(ps);
    TrimAllOfTrimmed(ps);
    NonEmptyFour(a, b);
  }

  lemma JoinWithEmpties(a: string, b: string)
    ensures Join([a, "", b, ""]) == a + ",," + b + ","
  {
    var ps := [a, "", b, ""];
    assert ps[1..] == ["", b, ""] && ["", b, ""][1..] == [b, ""] && [b, ""][1..] == [""];
    var j3 := b + "," + "";
    assert Join([b, ""]) == j3;
    assert j3 == b + ",";
    var j2 := "" + "," + j3;
    assert Join(["", b, ""]) == j2;
    assert j2 == "," + b + ",";
    assert Join(ps) == a + "," + j2;
    assert a + "," + j2 == a + ",," + b + ",";
  }

  lemma PiecesWithEmptiesClean(a: string, b: string)
    requires NoComma(a) && NoComma(b) && Trim(a) == a && Trim(b) == b
    ensures forall p :: p in [a, "", b, ""] ==> NoComma(p) && Trim(p) == p
  {
    var ps := [a, "", b, ""];
    assert Trim("") == "" && NoComma("");
    forall p | p in ps ensures NoComma(p) && Trim(p) == p {
      var i :| 0 <= i < 4 && ps[i] == p;
      assert ps[i] == a || ps[i] == "" || ps[i] == b;
    }
  }

  /** Trimming pieces that are already trimmed changes nothing. */
  lemma TrimAllOfTrimmed(ps: seq<string>)
    requires forall p :: p in ps ==> Trim(p) == p
    ensures TrimAll(ps) == ps
  {
    forall i | 0 <= i < |ps| ensures TrimAll(ps)[i] == ps[i] {
      assert ps[i] in ps;
    }
  }

  lemma NonEmptyFour(a: string, b: string)
    requires a != [] && b != []
    ensures NonEmpty([a, "", b, ""]) == [a, b]
  {
    assert [a, "", b, ""] == [a] + [""] + [b] + [""];
    NonEmptyAppend([a] + [""] + [b], [""]);
    NonEmptyAppend([a] + [""], [b]);
    NonEmptyAppend([a], [""]);
    NonEmptySingle(a);
    NonEmptySingle("");
    NonEmptySingle(b);
  }

  /** Trimmed comma-free pieces are comma-free and trimmed. */
  lemma TrimmedPartsClean(parts: seq<string>)
    requires forall p :: p in parts ==> NoComma(p)
    ensures forall id :: id in TrimAll(parts) ==> NoComma(id) && Trim(id) == id
  {
    var r := TrimAll(parts);
    forall id | id in r ensures NoComma(id) && Trim(id) == id {
      var i :| 0 <= i < |r| && r[i] == id;
      assert parts[i] in parts;
      TrimKeepsNoComma(parts[i]);
      TrimIsIdempotent(parts[i]);
    }
  }

  lemma TrimKeepsNoComma(s: string)
    requires NoComma(s)
    ensures NoComma(Trim(s))
  {
    var t := TrimStart(s);
    assert forall i :: 0 <= i < |t| ==> t[i] == s[|s| - |t| + i];
    var u := TrimEnd(t);
    assert forall i :: 0 <= i < |u| ==> u[i] == t[i];
  }

  lemma TrimIsIdempotent(s: string)
    ensures Trim(Trim(s)) == Trim(s)
  {
    var t := Trim(s);
    if t != [] {
      assert TrimStart(t) == t;
      assert TrimEnd(t) == t;
    }
  }

  /** A list of clean ids, joined with commas, reads back as itself. */
  lemma SpreadsheetIdsRoundTrip(ids: seq<string>)
    requires forall id :: id in ids ==> id != [] && NoComma(id) && Trim(id) == id
    ensures SpreadsheetIds(Some(Join(ids))) == ids
  {
    if ids == [] {
      assert Split("") == [""] by { assert FirstComma("") == None; }
      assert Trim("") == "";
      assert TrimAll([""]) == [""];
    } else {
      SplitJoin(ids);
      assert TrimAll(ids) == ids;
      NonEmptyOfNonEmpty(ids);
    }
  }

  lemma {:induction false} NonEmptyOfNonEmpty(parts: seq<string>)
    requires forall p :: p in parts ==> p != []
    ensures NonEmpty(parts) == parts
  {
    if parts != [] {
      assert forall p :: p in parts[1..] ==> p in parts;
      assert parts[0] in parts;
      NonEmptyOfNonEmpty(parts[1..]);
      assert parts == [parts[0]] + parts[1..];
    }
  }

  /** White space around the commas does not reach the ids. */
  lemma SpacesAroundCommasIgnored(a: string, b: string)
    requires a != [] && b != [] && NoComma(a) && NoComma(b) && Trim(a) == a && Trim(b) == b
    ensures SpreadsheetIds(Some(" " + a + " , " + b + " ")) == [a, b]
  {
    var s := " " + a + " , " + b + " ";
    var parts := [" " + a + " ", " " + b + " "];
    assert SpreadsheetIds(Some(s)) == NonEmpty(TrimAll(Split(s)));
    PaddedSplit(a, b);
    assert Split(s) == parts;
    TrimAllPair(parts[0], parts[1]);
    TrimPadded(a);
    TrimPadded(b);
    assert TrimAll(parts) == [a, b];
    NonEmptyOfNonEmpty([a, b]);
  }

  lemma TrimAllPair(x: string, y: string)
    ensures TrimAll([x, y]) == [Trim(x), Trim(y)]
  {
    var r := TrimAll([x, y]);
    assert |r| == 2 && r[0] == Trim(x) && r[1] == Trim(y);
  }

  lemma PaddedNoComma(a: string)
    requires NoComma(a)
    ensures NoComma(" " + a + " ")
  {
    var p := " " + a + " ";
    forall i | 0 <= i < |p| ensures p[i] != ',' {
      if 0 < i < |p| - 1 { assert p[i] == a[i - 1]; }
    }
  }

  lemma PaddedSplit(a: string, b: string)
    requires NoComma(a) && NoComma(b)
    ensures Split(" " + a + " , " + b + " ") == [" " + a + " ", " " + b + " "]
  {
    var pa := " " + a + " ";
    var pb := " " + b + " ";
    assert Join([pa, pb]) == pa + "," + pb by {
      assert [pa, pb][1..] == [pb];
    }
    assert " " + a + " , " + b + " " == pa + "," + pb;
    PaddedNoComma(a);
    PaddedNoComma(b);
    SplitJoin([pa, pb]);
  }

  lemma TrimPadded(a: string)
    requires a != [] && Trim(a) == a
    ensures Trim(" " + a + " ") == a
  {
    var p := " " + a + " ";
    assert p[1..] == a + " ";
    assert TrimStart(a + " ") == a + " " by { assert !IsWhitespace(a[0]); }
    assert TrimStart(p) == a + " ";
    assert (a + " ")[..|a|] == a;
    assert TrimEnd(a + " ") == a by { assert !IsWhitespace(a[|a| - 1]); }
  }
}
