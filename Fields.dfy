/** The permit feed's raw attribute values and the lenient field
    normalisation both scripts apply to them: parse_int with its default,
    Python's str() of a value, truthiness, and the epoch-millisecond date
    fields. */
module Fields {
  import opened Base
  import opened Text

  /** A JSON attribute value as the feed delivers it (JSON floats are not modelled). */
  datatype Raw = Null | Bool(b: bool) | Int(i: int) | Str(s: string)

  /** An epoch-millisecond date field. `iso` is the calendar date that the
      datetime library renders for `ms` (YYYY-MM-DD, UTC), or "" when the
      library rejects `ms`; it is treated as an opaque string. */
  datatype Timestamp = NoDate | Epoch(ms: int, iso: string)

  /** One permit's attributes. A text field the feed leaves out or sends as
      null is "". */
  datatype Attributes = Attributes(
    permitNum: string,
    logNum: string,
    address: string,
    neighborhood: string,
    contractorName: string,
    units: Raw,
    valuation: real,        // the value parse_float gives for VALUATION
    dateReceived: Timestamp,
    dateIssued: Timestamp,
    finalDate: Timestamp,
    dateCoIssued: Raw,
    cancel: Raw,
    permitClass: Raw)

  /** Python truthiness of a raw value. */
  predicate Truthy(v: Raw)
  {
    match v
    case Null => false
    case Bool(b) => b
    case Int(i) => i != 0
    case Str(s) => s != ""
  }

  /** Truthiness of a date field (None and 0 are false). */
  predicate Present(t: Timestamp)
  {
    t.Epoch? && t.ms != 0
  }

  /** ts_to_date: "" for a missing or zero timestamp, else the rendered date. */
  function DateText(t: Timestamp): (r: string)
    ensures !Present(t) ==> r == ""
    ensures Present(t) ==> r == t.iso
  {
    if Present(t) then t.iso else ""
  }

  function DigitChar(d: nat): char
    requires d < 10
  {
    ('0' as int + d) as char
  }

  predicate IsDigit(c: char)
  {
    '0' <= c <= '9'
  }

  predicate AllDigits(s: string)
  {
    forall i :: 0 <= i < |s| ==> IsDigit(s[i])
  }

  /** Decimal digits of n, most significant first, as str() writes them. */
  function NatToDecimal(n: nat): (r: string)
    ensures r != [] && AllDigits(r)
  {
    if n < 10 then [DigitChar(n)] else NatToDecimal(n / 10) + [DigitChar(n % 10)]
  }

  /** str(i) for an integer. */
  function IntToDecimal(i: int): string
  {
    if i < 0 then "-" + NatToDecimal(-i) else NatToDecimal(i)
  }

  /** Python's str(v). */
  function PyStr(v: Raw): string
  {
    match v
    case Null => "None"
    case Bool(b) => if b then "True" else "False"
    case Int(i) => IntToDecimal(i)
    case Str(s) => s
  }

  /** str(v or ""), the idiom the scripts use for optional text. */
  function TextOr(v: Raw): (r: string)
    ensures !Truthy(v) ==> r == ""
  {
    if Truthy(v) then PyStr(v) else ""
  }

  /** The value of a digit string. */
  function DigitsValue(s: string): nat
    requires AllDigits(s)
  {
    if s == [] then 0 else DigitsValue(s[..|s| - 1]) * 10 + (s[|s| - 1] as int - '0' as int)
  }

  /** Index of the first c in s, or |s| when there is none. */
  function IndexOf(s: string, c: char): (k: nat)
    ensures k <= |s|
    ensures forall j :: 0 <= j < k ==> s[j] != c
    ensures k < |s| ==> s[k] == c
  {
    if s == [] then 0 else if s[0] == c then 0 else 1 + IndexOf(s[1..], c)
  }

  /** int(float(v)) for v without surrounding white space, on the decimal
      literals [sign] digits [. digits] and [sign] . digits: the value
      truncated toward zero. None stands for the ValueError of a literal
      outside this grammar. */
  function DecimalValue(v: string): Option<int>
  {
    var negative := v != [] && v[0] == '-';
    var body := if v != [] && (v[0] == '-' || v[0] == '+') then v[1..] else v;
    var point := IndexOf(body, '.');
    var whole := body[..point];
    var fraction := if point < |body| then body[point + 1..] else "";
    if AllDigits(whole) && AllDigits(fraction) && |whole| + |fraction| > 0 then
      var magnitude: int := DigitsValue(whole);
      Some(if negative then -magnitude else magnitude)
    else
      None
  }

  /** parse_int of the stage-1 script: None gives the default; a string is
      stripped and loses its commas, and is the default when nothing is left
      or it is not a number; other values go through int(). */
  function ParseInt(value: Raw, default: int): int
  {
    match value
    case Null => default
    case Bool(b) => if b then 1 else 0
    case Int(i) => i
    case Str(s) =>
      var v := RemoveCommas(Strip(s));
      if v == "" then default
      else OrDefault(DecimalValue(Strip(v)), default)   // float() ignores surrounding white space
  }

  /** The parsed number, or the default for a ValueError. */
  function OrDefault(n: Option<int>, default: int): int
  {
    match n
    case Some(k) => k
    case None => default
  }

  /** parse_int of the stage-2 script: str(v) without commas, stripped,
      through int(float(...)); any failure gives the default. */
  function ParseIntV2(value: Raw, default: int): int
  {
    OrDefault(DecimalValue(Strip(RemoveCommas(PyStr(value)))), default)
  }

  lemma {:induction false} DigitsValueOfDecimal(n: nat)
    ensures DigitsValue(NatToDecimal(n)) == n
  {
    if n >= 10 {
      var p := NatToDecimal(n / 10);
      var s := p + [DigitChar(n % 10)];
      assert s[..|s| - 1] == p;
      DigitsValueOfDecimal(n / 10);
    }
  }

  lemma DecimalValueOfDecimal(i: int)
    ensures DecimalValue(IntToDecimal(i)) == Some(i)
  {
    var n: nat := if i < 0 then -i else i;
    var t := NatToDecimal(n);
    DigitsValueOfDecimal(n);
    assert IndexOf(t, '.') == |t|;
    if i < 0 {
      assert IntToDecimal(i) == "-" + t;
      assert ("-" + t)[1..] == t;
    } else {
      assert t[0] != '-' && t[0] != '+';
    }
    assert t[..|t|] == t;
  }

  /** The default comes back not only for "" but for any text made of
      white space and commas. */
  lemma ParseIntBlank(s: string, default: int)
    requires forall i :: 0 <= i < |s| ==> IsSpace(s[i]) || s[i] == ','
    ensures ParseInt(Str(s), default) == default
  {
    var t := Strip(s);
    assert forall i :: 0 <= i < |t| ==> IsSpace(t[i]) || t[i] == ',' by {
      var l := StripLeft(s);
      StripLeftShape(s);
      StripRightShape(l);
      assert l == s[|s| - |l|..];
      assert t == l[..|t|];
      forall i | 0 <= i < |t| ensures IsSpace(t[i]) || t[i] == ',' {
        assert t[i] == s[|s| - |l| + i];
      }
    }
    SpacesAndCommas(t);
    var v := RemoveCommas(t);
    AllSpaceStripLeft(v);
  }

  lemma {:induction false} SpacesAndCommas(t: string)
    requires forall i :: 0 <= i < |t| ==> IsSpace(t[i]) || t[i] == ','
    ensures AllSpace(RemoveCommas(t))
  {
    if t != [] {
      SpacesAndCommas(t[1..]);
    }
  }

  /** str(i) has no commas and no white space at either end. */
  lemma DecimalShape(i: int)
    ensures forall k :: 0 <= k < |IntToDecimal(i)| ==> IntToDecimal(i)[k] != ','
    ensures Strip(IntToDecimal(i)) == IntToDecimal(i)
  {
    var t := IntToDecimal(i);
    if i < 0 {
      var d := NatToDecimal(-i);
      assert t == "-" + d;
      SignedDigitsShape(t, d);
    } else {
      SignedDigitsShape(t, t);
    }
  }

  lemma SignedDigitsShape(t: string, d: string)
    requires d != [] && AllDigits(d)
    requires t == d || t == "-" + d
    ensures forall k :: 0 <= k < |t| ==> t[k] != ','
    ensures Strip(t) == t
  {
    assert t[|t| - 1] == d[|d| - 1];
    assert !IsSpace(t[|t| - 1]);
    assert !IsSpace(t[0]) by {
      assert t[0] == '-' || t[0] == d[0];
    }
    forall k | 0 <= k < |t| ensures t[k] != ',' {
      if t != d && k > 0 {
        assert t[k] == d[k - 1];
      }
    }
    assert StripLeft(t) == t;
  }

  /** str(n) parses back to n, whatever white space surrounds it. */
  lemma ParseIntRoundTrip(n: int, before: string, after: string, default: int)
    requires AllSpace(before) && AllSpace(after)
    ensures ParseInt(Str(before + IntToDecimal(n) + after), default) == n
    ensures ParseIntV2(Int(n), default) == n
  {
    var t := IntToDecimal(n);
    DecimalValueOfDecimal(n);
    DecimalShape(n);
    StripPadded(before, t, after);
    RemoveCommasNone(t);
  }

  /** The two scripts' parse_int agree on every string. */
  lemma ParseIntAgree(s: string, default: int)
    ensures ParseInt(Str(s), default) == ParseIntV2(Str(s), default)
  {
    StripRemoveCommas(s);
    assert StripLeft([]) == [];
    assert DecimalValue([]) == None;
  }
}
