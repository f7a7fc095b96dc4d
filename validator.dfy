/** utils/Validator.php: the request-body checks. `sanitizeString` and the
    e-mail filter are the uninterpreted `Runtime` functions. */
module Validator {
  import opened Common
  import opened Text

  /** `empty(trim($v))` for a value that is set: the empty string and "0"
      are empty after trimming, and so are the number 0 and `false`. An
      array or an object, which `trim` rejects (see `TrimFails`), is
      tested with `empty` alone: it is blank iff it has no element. */
  predicate Blank(v: Json) {
    match v
    case JNull => true
    case JStr(s) => Trim(s) == "" || Trim(s) == "0"
    case JNum(n) => n == 0
    case JBool(b) => !b
    case JArr(elems) => elems == []
    case JObj(fields) => fields == map[]
  }

  /** The condition under which `validateRequired` reports a field. */
  predicate Missing(data: Body, field: string) {
    !IsSet(data, field) || Blank(data[field])
  }

  function Required(field: string): string {
    Ucfirst(field) + " is required"
  }

  /** The error map `validateRequired` returns: exactly the listed fields
      that are missing, each with "<Field> is required". */
  function RequiredErrors(data: Body, fields: seq<string>): (r: map<string, string>)
    ensures forall f :: f in r <==> f in fields && Missing(data, f)
    ensures forall f :: f in r ==> r[f] == Required(f)
  {
    map f | f in fields && Missing(data, f) :: Required(f)
  }

  /** No error is reported iff every listed field is set and non-empty. */
  lemma RequiredErrorsEmptyIff(data: Body, fields: seq<string>)
    ensures RequiredErrors(data, fields) == map[] <==> forall f :: f in fields ==> !Missing(data, f)
  {
    if RequiredErrors(data, fields) != map[] {
      var f :| f in RequiredErrors(data, fields);
    }
  }

  /** Because of `empty`, "0", " 0 " and the number 0 count as missing. */
  lemma ZeroIsMissing(data: Body, field: string)
    requires field in data && data[field] in {JStr("0"), JStr(" 0 "), JNum(0)}
    ensures field in RequiredErrors(data, [field])
  {
  }

  lemma RequiredErrorsSnoc(data: Body, fields: seq<string>, f: string)
    ensures RequiredErrors(data, fields + [f]) ==
      if Missing(data, f) then RequiredErrors(data, fields)[f := Required(f)] else RequiredErrors(data, fields)
  {
    var a, b := RequiredErrors(data, fields + [f]), RequiredErrors(data, fields);
    assert forall g :: g in fields + [f] <==> g in fields || g == f;
    if Missing(data, f) {
      assert a.Keys == b.Keys + {f};
    } else {
      assert a.Keys == b.Keys;
    }
  }

  /** One listed field: no error, or exactly that field's message. */
  lemma RequiredErrorsSingle(data: Body, f: string)
    ensures Missing(data, f) ==> RequiredErrors(data, [f]) == map[f := Required(f)]
    ensures !Missing(data, f) ==> RequiredErrors(data, [f]) == map[]
  {
    RequiredErrorsSnoc(data, [], f);
    assert [] + [f] == [f];
    assert RequiredErrors(data, []) == map[];
  }

  /** Values `trim` does not accept: an array or an object (both decode to
      PHP arrays). PHP 7 warns, and the error handler answers 500; PHP 8
      throws a TypeError, and the exception handler answers 500. */
  predicate TrimFails(v: Json) {
    v.JArr? || v.JObj?
  }

  /** A field `validateRequired` cannot check: set, and rejected by `trim`. */
  predicate Untrimmable(data: Body, field: string) {
    IsSet(data, field) && TrimFails(data[field])
  }

  /** `validateRequired` as it runs: None when some listed field is set to
      an array or an object, so that the request ends in a 500; otherwise
      the error map. */
  function RequiredCheck(data: Body, fields: seq<string>): (r: Option<map<string, string>>)
    ensures r.None? <==> exists f :: f in fields && Untrimmable(data, f)
    ensures r.Some? ==> r.value == RequiredErrors(data, fields)
  {
    if exists f :: f in fields && Untrimmable(data, f) then None
    else Some(RequiredErrors(data, fields))
  }

  /** A field list none of whose positions is untrimmable has no
      untrimmable member. */
  lemma NoneUntrimmable(data: Body, fields: seq<string>)
    requires forall k :: 0 <= k < |fields| ==> !Untrimmable(data, fields[k])
    ensures !exists f :: f in fields && Untrimmable(data, f)
  {
    forall f | f in fields
      ensures !Untrimmable(data, f)
    {
      var k :| 0 <= k < |fields| && fields[k] == f;
    }
  }

  /** One turn of the `validateRequired` loop, on a prefix of the fields. */
  lemma RequiredErrorsStep(data: Body, fields: seq<string>, i: nat)
    requires i < |fields|
    ensures RequiredErrors(data, fields[..i + 1]) ==
      if Missing(data, fields[i]) then RequiredErrors(data, fields[..i])[fields[i] := Required(fields[i])]
      else RequiredErrors(data, fields[..i])
  {
    assert fields[..i + 1] == fields[..i] + [fields[i]];
    RequiredErrorsSnoc(data, fields[..i], fields[i]);
  }

  /** `validateRequired`: the loop over the listed fields, which stops at
      the first field `trim` rejects. */
  method ValidateRequired(data: Body, fields: seq<string>) returns (errors: Option<map<string, string>>)
    ensures errors == RequiredCheck(data, fields)
  {
    var found := map[];
    var i := 0;
    assert fields[..0] == [];
    while i < |fields|
      invariant 0 <= i <= |fields|
      invariant found == RequiredErrors(data, fields[..i])
      invariant forall k :: 0 <= k < i ==> !Untrimmable(data, fields[k])
    {
      var f := fields[i];
      if Untrimmable(data, f) {
        assert f in fields;
        return None;
      }
      RequiredErrorsStep(data, fields, i);
      if Missing(data, f) {
        found := found[f := Required(f)];
      }
      i := i + 1;
    }
    assert fields[..i] == fields;
    NoneUntrimmable(data, fields);
    errors := Some(found);
  }

  /** `validateEmail`. */
  function ValidateEmail(email: string, rt: Runtime): (r: Option<string>)
    ensures r.None? <==> rt.isEmail(email)
    ensures r.Some? ==> r.value == "Invalid email format"
  {
    if rt.isEmail(email) then None else Some("Invalid email format")
  }

  /** The whitespace PHP allows around a numeric string. */
  predicate IsNumericSpace(c: char) {
    c == ' ' || c == '\t' || c == '\n' || c == '\r' || c == '\U{B}' || c == '\U{C}'
  }

  function StripLeading(s: string): string {
    if s != [] && IsNumericSpace(s[0]) then StripLeading(s[1..]) else s
  }

  function StripTrailing(s: string): string {
    if s != [] && IsNumericSpace(s[|s| - 1]) then StripTrailing(s[..|s| - 1]) else s
  }

  predicate AllDigits(s: string) {
    forall i :: 0 <= i < |s| ==> '0' <= s[i] <= '9'
  }

  /** The value of a string of decimal digits. */
  function DigitsValue(s: string): nat
    requires AllDigits(s)
  {
    if s == [] then 0 else 10 * DigitsValue(s[..|s| - 1]) + (s[|s| - 1] as int - '0' as int)
  }

  /** The integer a PHP numeric string denotes: optional surrounding
      whitespace, an optional sign and at least one digit. */
  function IntegerString(s: string): Option<int> {
    SignedDigits(StripTrailing(StripLeading(s)))
  }

  /** An optional sign followed by at least one digit. */
  function SignedDigits(t: string): Option<int> {
    var neg := t != [] && t[0] == '-';
    var ds := if t != [] && (t[0] == '-' || t[0] == '+') then t[1..] else t;
    if ds == [] || !AllDigits(ds) then None
    else
      var v: int := DigitsValue(ds);
      Some(if neg then -v else v)
  }

  lemma {:induction false} DigitsOfNat(n: nat)
    ensures AllDigits(NatToString(n)) && DigitsValue(NatToString(n)) == n
    decreases n
  {
    var s := NatToString(n);
    if n >= 10 {
      DigitsOfNat(n / 10);
      assert s[..|s| - 1] == NatToString(n / 10);
    }
  }

  /** A string that neither starts nor ends with whitespace is left alone
      by the stripping. */
  lemma StripNothing(s: string)
    requires s != [] && !IsNumericSpace(s[0]) && !IsNumericSpace(s[|s| - 1])
    ensures StripTrailing(StripLeading(s)) == s
  {
  }

  /** Reading back PHP's rendering of an integer gives the integer. */
  lemma SignedDigitsOfDigits(d: string)
    requires d != [] && AllDigits(d)
    ensures SignedDigits(d) == Some(DigitsValue(d) as int)
    ensures SignedDigits("-" + d) == Some(-(DigitsValue(d) as int))
  {
    assert ("-" + d)[1..] == d;
  }

  lemma IntegerStringOfInt(n: int)
    ensures IntegerString(IntToString(n)) == Some(n)
  {
    var s := IntToString(n);
    var m: nat := if n < 0 then -n else n;
    var d := NatToString(m);
    DigitsOfNat(m);
    SignedDigitsOfDigits(d);
    if n < 0 {
      assert s == "-" + d;
      assert s[0] == '-' && s[|s| - 1] == d[|d| - 1];
      assert '0' <= d[|d| - 1] <= '9';
      StripNothing(s);
      assert IntegerString(s) == SignedDigits(s);
      assert SignedDigits(s) == Some(n);
    } else {
      assert s == d;
      assert '0' <= s[0] <= '9' && '0' <= s[|s| - 1] <= '9';
      StripNothing(s);
      assert IntegerString(s) == SignedDigits(s);
      assert SignedDigits(s) == Some(n);
    }
  }

  /** `is_numeric` and the numeric value of a JSON value; only integers are
      modelled. */
  function NumericValue(v: Json): Option<int> {
    match v
    case JNum(n) => Some(n)
    case JStr(s) => IntegerString(s)
    case _ => None
  }

  /** `validateNumber`: non-numeric first, then the lower bound, then the
      upper bound; null when all pass. */
  function ValidateNumber(v: Json, min: Option<int>, max: Option<int>): (r: Option<string>)
    ensures NumericValue(v).None? ==> r == Some("Must be a number")
    ensures NumericValue(v).Some? && min.Some? && NumericValue(v).value < min.value ==>
      r == Some("Must be at least " + IntToString(min.value))
    ensures NumericValue(v).Some? && !(min.Some? && NumericValue(v).value < min.value)
            && max.Some? && NumericValue(v).value > max.value ==>
      r == Some("Must be at most " + IntToString(max.value))
    ensures r.None? <==> (NumericValue(v).Some?
      && (min.None? || min.value <= NumericValue(v).value)
      && (max.None? || NumericValue(v).value <= max.value))
  {
    match NumericValue(v)
    case None => Some("Must be a number")
    case Some(x) =>
      if min.Some? && x < min.value then Some("Must be at least " + IntToString(min.value))
      else if max.Some? && x > max.value then Some("Must be at most " + IntToString(max.value))
      else None
  }

  /** With a lower bound of 0, the value 0 passes. */
  lemma ZeroPassesMinZero()
    ensures ValidateNumber(JNum(0), Some(0), None) == None
    ensures ValidateNumber(JStr("0"), Some(0), None) == None
  {
    assert IntegerString("0") == Some(0) by { IntegerStringOfInt(0); }
  }

  /** PHP 8 loose `==` between two strings: numerically when both are
      integer numeric strings, otherwise byte for byte. */
  predicate LooseEquals(a: string, b: string) {
    var x, y := IntegerString(a), IntegerString(b);
    if x.Some? && y.Some? then x.value == y.value else a == b
  }

  /** `validateEnum` (loose `in_array`). */
  function ValidateEnum(value: string, allowed: seq<string>): (r: Option<string>)
    ensures r.None? <==> exists i :: 0 <= i < |allowed| && LooseEquals(value, allowed[i])
    ensures r.Some? ==> r.value == "Invalid value. Allowed values: " + Join(allowed, ", ")
  {
    if exists i :: 0 <= i < |allowed| && LooseEquals(value, allowed[i]) then None
    else Some("Invalid value. Allowed values: " + Join(allowed, ", "))
  }

  /** Loose comparison lets a padded or signed numeral through. */
  lemma EnumIsLoose()
    ensures ValidateEnum("+1", ["1"]) == None
  {
    assert IntegerString("1") == Some(1) by { IntegerStringOfInt(1); }
    assert StripTrailing(StripLeading("+1")) == "+1";
    assert "+1"[1..] == "1";
    assert LooseEquals("+1", ["1"][0]);
  }

  /** `$data[$field]`, which is null when the key is absent. */
  function Field(data: Body, field: string): (v: Json)
    ensures field in data ==> v == data[field]
    ensures field !in data ==> v == JNull
  {
    if field in data then data[field] else JNull
  }

  /** PHP's boolean conversion `(bool)`: false, 0, '', '0', an empty
      array and null are false. */
  function Truthy(v: Json): bool {
    match v
    case JNull => false
    case JBool(b) => b
    case JNum(n) => n != 0
    case JStr(s) => s != "" && s != "0"
    case JArr(e) => e != []
    case JObj(f) => f != map[]
  }

  /** PHP's string conversion of a JSON value. An array or an object, which
      `trim` and so `sanitizeString` reject (`TrimFails`), reads as
      "Array", what the `(string)` cast gives. */
  function AsText(v: Json): string {
    match v
    case JStr(s) => s
    case JNum(n) => IntToString(n)
    case JBool(b) => if b then "1" else ""
    case JNull => ""
    case JArr(_) => "Array"
    case JObj(_) => "Array"
  }

  /** `sanitizeArray`: the listed fields that are set, sanitised. */
  method SanitizeArray(data: Body, fields: seq<string>, rt: Runtime) returns (r: map<string, string>)
    ensures forall f :: f in r <==> f in fields && IsSet(data, f)
    ensures forall f :: f in r ==> f in data && r[f] == rt.sanitize(AsText(data[f]))
  {
    r := map[];
    var i := 0;
    while i < |fields|
      invariant 0 <= i <= |fields|
      invariant forall f :: f in r <==> f in fields[..i] && IsSet(data, f)
      invariant forall f :: f in r ==> f in data && r[f] == rt.sanitize(AsText(data[f]))
    {
      var f := fields[i];
      if f in data && data[f] != JNull {
        r := r[f := rt.sanitize(AsText(data[f]))];
      }
      assert fields[..i + 1] == fields[..i] + [f];
      i := i + 1;
    }
    assert fields[..i] == fields;
  }
}
