/**
 The configuration fields of the city-weather data input and the rules the
 REST handler checks each value against: regular expressions, length ranges
 and numeric ranges, alone or combined with `AllOf`.

 Each regular expression is matched against the whole value, over ASCII:
 `\w` is `[a-zA-Z0-9_]` and `\d` is `[0-9]`. A character class followed by
 `*` is recognised by `Star`, which consumes the value one character at a
 time as a regular-expression engine does.
 */
module InputFields {
  import opened Results
  import KVTable

  // ---------------------------------------------------------------- character classes

  datatype CharClass =
    | Letter      // [a-zA-Z]
    | Upper       // [A-Z]
    | Digit       // \d
    | Alnum       // [a-zA-Z0-9]
    | Word        // \w
    | IndexTail   // [a-zA-Z0-9\\_\\-]: alphanumerics, backslash, underscore, hyphen

  predicate IsLetter(c: char) { 'a' <= c <= 'z' || 'A' <= c <= 'Z' }

  predicate IsDigit(c: char) { '0' <= c <= '9' }

  predicate InClass(c: char, cls: CharClass)
  {
    match cls
    case Letter => IsLetter(c)
    case Upper => 'A' <= c <= 'Z'
    case Digit => IsDigit(c)
    case Alnum => IsLetter(c) || IsDigit(c)
    case Word => IsLetter(c) || IsDigit(c) || c == '_'
    case IndexTail => IsLetter(c) || IsDigit(c) || c == '\\' || c == '_' || c == '-'
  }

  /** `[cls]*` matched against the whole of `s`. */
  predicate Star(cls: CharClass, s: string)
  {
    s == [] || (InClass(s[0], cls) && Star(cls, s[1..]))
  }

  /** How many characters at the front of `s` belong to `cls`: how far a
      greedy `[cls]+` reaches. */
  function Leading(cls: CharClass, s: string): (n: nat)
    ensures n <= |s|
  {
    if s != [] && InClass(s[0], cls) then 1 + Leading(cls, s[1..]) else 0
  }

  /** `[cls]*` accepts exactly the strings made only of `cls` characters. */
  lemma {:induction false} StarAll(cls: CharClass, s: string)
    ensures Star(cls, s) <==> forall i :: 0 <= i < |s| ==> InClass(s[i], cls)
  {
    if s != [] {
      StarAll(cls, s[1..]);
      assert forall i :: 1 <= i < |s| ==> s[1..][i - 1] == s[i];
    }
  }

  /** A greedy run of `cls` stops at the first character outside it. */
  lemma {:induction false} LeadingAll(cls: CharClass, s: string)
    ensures forall i :: 0 <= i < Leading(cls, s) ==> InClass(s[i], cls)
    ensures Leading(cls, s) < |s| ==> !InClass(s[Leading(cls, s)], cls)
  {
    if s != [] && InClass(s[0], cls) {
      LeadingAll(cls, s[1..]);
      assert forall i :: 1 <= i < |s| ==> s[1..][i - 1] == s[i];
    }
  }

  // ---------------------------------------------------------------- regular expressions

  /** The regular expressions the fields use. */
  datatype Regex =
    | NameRegex          // ^[a-zA-Z]\w*$
    | CountryCodeRegex   // ^[A-Z]{2}$
    | IndexRegex         // ^[a-zA-Z0-9][a-zA-Z0-9\\_\\-]*$
    | IntervalRegex      // ^(-1|\d+(\.\d+)?)$, the cron alternative aside

  /** `\d+(\.\d+)?` matched against the whole of `s`. */
  predicate UnsignedDecimal(s: string)
  {
    var n := Leading(Digit, s);
    n > 0 && (n == |s| || (s[n] == '.' && n + 1 < |s| && Star(Digit, s[n + 1..])))
  }

  predicate FullMatch(re: Regex, s: string)
  {
    match re
    case NameRegex => s != [] && InClass(s[0], Letter) && Star(Word, s[1..])
    case CountryCodeRegex => |s| == 2 && InClass(s[0], Upper) && InClass(s[1], Upper)
    case IndexRegex => s != [] && InClass(s[0], Alnum) && Star(IndexTail, s[1..])
    case IntervalRegex => s == "-1" || UnsignedDecimal(s)
  }

  // ---------------------------------------------------------------- numbers

  function DigitValue(c: char): nat
    requires InClass(c, Digit)
  {
    (c - '0') as nat
  }

  /** The value of a string of decimal digits. */
  function DigitsValue(s: string): nat
    requires forall i :: 0 <= i < |s| ==> InClass(s[i], Digit)
  {
    if s == [] then 0 else 10 * DigitsValue(s[..|s| - 1]) + DigitValue(s[|s| - 1])
  }

  function Pow10(n: nat): (r: nat)
    ensures r > 0
  {
    if n == 0 then 1 else 10 * Pow10(n - 1)
  }

  /** `float(s)` for `\d+(\.\d+)?`; `None` stands for the `ValueError`
      raised on anything else. */
  function UnsignedValue(s: string): Option<real>
  {
    var n := Leading(Digit, s);
    LeadingAll(Digit, s);
    if n == 0 then None
    else if n == |s| then Some(DigitsValue(s) as real)
    else if s[n] == '.' && n + 1 < |s| && Star(Digit, s[n + 1..]) then
      StarAll(Digit, s[n + 1..]);
      var whole, frac := s[..n], s[n + 1..];
      Some(DigitsValue(whole) as real + DigitsValue(frac) as real / Pow10(|frac|) as real)
    else None
  }

  /** `float(s)` for an optionally negated `\d+(\.\d+)?`. */
  function NumericValue(s: string): Option<real>
  {
    if s != [] && s[0] == '-' then
      match UnsignedValue(s[1..])
      case Some(v) => Some(-v)
      case None => None
    else UnsignedValue(s)
  }

  // ---------------------------------------------------------------- validators

  /** One validator of the REST handler's library. */
  datatype Check =
    | Pattern(regex: Regex)
    | StringLength(minLen: nat, maxLen: nat)
    | Number(minVal: int, maxVal: int)

  datatype Validator = Single(check: Check) | AllOf(checks: seq<Check>)

  predicate Passes(c: Check, s: string)
  {
    match c
    case Pattern(re) => FullMatch(re, s)
    case StringLength(lo, hi) => lo <= |s| <= hi
    case Number(lo, hi) =>
      var v := NumericValue(s);
      v.Some? && lo as real <= v.value <= hi as real
  }

  predicate AllPass(cs: seq<Check>, s: string)
  {
    cs == [] || (Passes(cs[0], s) && AllPass(cs[1..], s))
  }

  predicate Accepts(v: Validator, s: string)
  {
    match v
    case Single(c) => Passes(c, s)
    case AllOf(cs) => AllPass(cs, s)
  }

  /** `AllOf` accepts a value exactly when every listed validator does. */
  lemma {:induction false} AllOfAccepts(cs: seq<Check>, s: string)
    ensures Accepts(AllOf(cs), s) <==> forall i :: 0 <= i < |cs| ==> Passes(cs[i], s)
  {
    if cs != [] {
      AllOfAccepts(cs[1..], s);
      assert forall i :: 1 <= i < |cs| ==> cs[1..][i - 1] == cs[i];
    }
  }

  // ---------------------------------------------------------------- fields

  datatype RestField = RestField(
    name: string,
    required: bool,
    encrypted: bool,
    default: Option<string>,
    validator: Option<Validator>)

  /** A value is accepted for a field when the field has no validator or its
      validator accepts the value. */
  predicate FieldAccepts(f: RestField, value: string)
  {
    f.validator.None? || Accepts(f.validator.value, value)
  }

  const NameField := RestField("name", true, false, None,
    Some(AllOf([Pattern(NameRegex), StringLength(1, 100)])))

  const CityField := RestField("city", true, false, None,
    Some(Single(StringLength(1, 100))))

  const CountryCodeField := RestField("country_code", true, false, Some("CR"),
    Some(Single(Pattern(CountryCodeRegex))))

  const SourcetypeField := RestField("sourcetype", true, false, Some("weather:current"), None)

  const IndexField := RestField("index", true, false, Some("default"),
    Some(AllOf([Pattern(IndexRegex), StringLength(1, 80)])))

  const IntervalField := RestField("interval", true, false, Some("86400"),
    Some(AllOf([Pattern(IntervalRegex), Number(10, 86400)])))

  const AccountField := RestField("account", true, false, None, None)

  const DisabledField := RestField("disabled", false, false, None, None)

  const SpecialFields := [NameField]

  const Fields := [CityField, CountryCodeField, SourcetypeField, IndexField,
                   IntervalField, AccountField, DisabledField]

  /** All fields of the input, its name first. */
  const AllFields := SpecialFields + Fields

  // ---------------------------------------------------------------- rules per field

  /** `name`: a letter, then word characters, 1 to 100 characters long. */
  lemma NameRule(s: string)
    ensures FieldAccepts(NameField, s) <==>
      && 1 <= |s| <= 100
      && InClass(s[0], Letter)
      && forall i :: 1 <= i < |s| ==> InClass(s[i], Word)
  {
    var cs := [Pattern(NameRegex), StringLength(1, 100)];
    AllOfAccepts(cs, s);
    assert FieldAccepts(NameField, s) <==> Passes(cs[0], s) && Passes(cs[1], s);
    if s != [] {
      StarAll(Word, s[1..]);
      assert forall i :: 1 <= i < |s| ==> s[1..][i - 1] == s[i];
    }
  }

  /** `city`: any characters, 1 to 100 of them. */
  lemma CityRule(s: string)
    ensures FieldAccepts(CityField, s) <==> 1 <= |s| <= 100
  {
  }

  /** `country_code`: exactly two upper-case letters; the default `CR`
      passes and `cr` does not. */
  lemma CountryCodeRule(s: string)
    ensures FieldAccepts(CountryCodeField, s) <==> |s| == 2 && 'A' <= s[0] <= 'Z' && 'A' <= s[1] <= 'Z'
    ensures FieldAccepts(CountryCodeField, "CR") && !FieldAccepts(CountryCodeField, "cr")
  {
  }

  /** `index`: an alphanumeric character, then alphanumerics, `_`, `-` or
      backslashes, 1 to 80 characters long. */
  lemma IndexRule(s: string)
    ensures FieldAccepts(IndexField, s) <==>
      && 1 <= |s| <= 80
      && InClass(s[0], Alnum)
      && forall i :: 1 <= i < |s| ==> InClass(s[i], IndexTail)
  {
    var cs := [Pattern(IndexRegex), StringLength(1, 80)];
    AllOfAccepts(cs, s);
    assert FieldAccepts(IndexField, s) <==> Passes(cs[0], s) && Passes(cs[1], s);
    if s != [] {
      StarAll(IndexTail, s[1..]);
      assert forall i :: 1 <= i < |s| ==> s[1..][i - 1] == s[i];
    }
  }

  /** The doubled backslash inside the raw-string class admits a literal
      backslash in an index name; a leading `_` is still refused. */
  lemma IndexBackslash()
    ensures FieldAccepts(IndexField, "a\\b")
    ensures !FieldAccepts(IndexField, "_main")
  {
  }

  /** A digit string has the value its digits spell. */
  lemma {:induction false} DigitsNumericValue(s: string)
    requires s != [] && forall i :: 0 <= i < |s| ==> InClass(s[i], Digit)
    ensures NumericValue(s) == Some(DigitsValue(s) as real)
    ensures UnsignedDecimal(s)
  {
    LeadingAll(Digit, s);
    LeadingCoversDigits(s);
  }

  lemma {:induction false} LeadingCoversDigits(s: string)
    requires forall i :: 0 <= i < |s| ==> InClass(s[i], Digit)
    ensures Leading(Digit, s) == |s|
  {
    if s != [] {
      assert forall i :: 0 <= i < |s[1..]| ==> s[1..][i] == s[i + 1];
      LeadingCoversDigits(s[1..]);
    }
  }

  /** `interval`, for a string of digits: accepted exactly when its value
      lies between 10 and 86400 seconds. */
  lemma IntervalRule(s: string)
    requires s != [] && forall i :: 0 <= i < |s| ==> InClass(s[i], Digit)
    ensures FieldAccepts(IntervalField, s) <==> 10 <= DigitsValue(s) <= 86400
  {
    DigitsNumericValue(s);
    var cs := [Pattern(IntervalRegex), Number(10, 86400)];
    AllOfAccepts(cs, s);
    assert FieldAccepts(IntervalField, s) <==> Passes(cs[0], s) && Passes(cs[1], s);
  }

  /** `-1` matches the interval pattern but is below the minimum, so `AllOf`
      refuses it. */
  lemma IntervalMinusOne()
    ensures FullMatch(IntervalRegex, "-1")
    ensures NumericValue("-1") == Some(-1.0)
    ensures !FieldAccepts(IntervalField, "-1")
  {
  }

  /** The `index` default `default` passes its rule. */
  lemma IndexDefault()
    ensures FieldAccepts(IndexField, "default")
  {
  }

  /** The `interval` default `86400` passes its rule, at the upper bound. */
  lemma IntervalDefault()
    ensures FieldAccepts(IntervalField, "86400")
  {
    assert DigitsValue("86400") == 86400 by {
      assert "86400"[..4] == "8640" && "8640"[..3] == "864" && "864"[..2] == "86";
      assert "86"[..1] == "8" && "8"[..0] == [];
    }
    IntervalRule("86400");
  }

  /** Every declared default passes its own field's rule: `CR`, `default`
      and `86400`; `weather:current` has no rule. */
  lemma DefaultsSatisfyRules()
    ensures forall i :: 0 <= i < |AllFields| && AllFields[i].default.Some? ==>
      FieldAccepts(AllFields[i], AllFields[i].default.value)
  {
    IndexDefault();
    IntervalDefault();
    CountryCodeRule("CR");
  }

  /** Every field is required except `disabled`; field names are distinct;
      `sourcetype` and `account` carry no validator. */
  lemma RequiredFlags()
    ensures forall i :: 0 <= i < |AllFields| ==> (AllFields[i].required <==> AllFields[i].name != "disabled")
    ensures forall i, j :: 0 <= i < j < |AllFields| ==> AllFields[i].name != AllFields[j].name
    ensures SourcetypeField.validator.None? && AccountField.validator.None?
  {
  }

  /** Cache keys built from accepted country codes never collide: a code
      holds no `-`, so the last `-` of the key separates city and code. */
  lemma AcceptedCodesKeysInjective(c1: string, k1: string, c2: string, k2: string)
    requires FieldAccepts(CountryCodeField, k1) && FieldAccepts(CountryCodeField, k2)
    requires KVTable.DerivedKey(c1, k1) == KVTable.DerivedKey(c2, k2)
    ensures c1 == c2 && k1 == k2
  {
    KVTable.DerivedKeyInjective(c1, k1, c2, k2);
  }
}
