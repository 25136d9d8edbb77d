/** Formatting a phone number with the country code looked up in a fixed table. */
module PhoneNumbers {
  import opened Wrappers

  datatype CountryCode = CountryCode(country: string, code: string)

  /** `euCountryPhoneCodes`, in the source's order. */
  const EuCountryPhoneCodes: seq<CountryCode> := [
    CountryCode("Austria", "+43"),
    CountryCode("Belgium", "+32"),
    CountryCode("Bulgaria", "+359"),
    CountryCode("Croatia", "+385"),
    CountryCode("Cyprus", "+357"),
    CountryCode("Czech Republic", "+420"),
    CountryCode("Denmark", "+45"),
    CountryCode("Slovakia", "+421"),
    CountryCode("Slovenia", "+386"),
    CountryCode("Spain", "+34"),
    CountryCode("Sweden", "+46")
  ]

  /** `CountryType`: the union of the table's country names. */
  const CountryType: set<string> := set e | e in EuCountryPhoneCodes :: e.country

  /** `CodeType`: the union of the table's codes. */
  const CodeType: set<string> := set e | e in EuCountryPhoneCodes :: e.code

  /** `FormattedNumberType`: a member of `CodeType` followed by any text. */
  predicate IsFormattedNumber(s: string)
  {
    exists code :: code in CodeType && code <= s
  }

  /** `Array.prototype.find` with the test `item.country === country`: the first matching entry. */
  function Find(table: seq<CountryCode>, country: string): (r: Option<CountryCode>)
    ensures r.None? <==> forall i :: 0 <= i < |table| ==> table[i].country != country
    ensures r.Some? ==> exists i :: 0 <= i < |table| && table[i] == r.value
                          && r.value.country == country
                          && forall j :: 0 <= j < i ==> table[j].country != country
  {
    if table == [] then None
    else if table[0].country == country then Some(table[0])
    else
      var r := Find(table[1..], country);
      assert forall i :: 1 <= i < |table| ==> table[i] == table[1..][i - 1];
      r
  }

  /**
   * `GetFormattedPhoneNumber`: the code of the first entry for `country`
   * followed by `number`; a missing entry, or one whose code is the empty
   * string (falsy), throws "Invalid country".
   */
  function GetFormattedPhoneNumber(country: string, number: string): (r: Result<string>)
    ensures r.Err? ==> r.error == "Invalid country"
    ensures r.Ok? ==> exists e :: e in EuCountryPhoneCodes && e.country == country
                                  && r.value == e.code + number
  {
    match Find(EuCountryPhoneCodes, country)
    case None => Err("Invalid country")
    case Some(e) => if e.code == "" then Err("Invalid country") else Ok(e.code + number)
  }

  /** No country appears twice in the table, so the lookup is unambiguous. */
  lemma CountriesDistinct()
    ensures forall i, j :: 0 <= i < j < |EuCountryPhoneCodes| ==>
              EuCountryPhoneCodes[i].country != EuCountryPhoneCodes[j].country
  {
  }

  /** Every code in the table is non-empty. */
  lemma CodesNonEmpty()
    ensures forall e :: e in EuCountryPhoneCodes ==> e.code != ""
  {
  }

  /** The lookup succeeds exactly for the countries of `CountryType`. */
  lemma FormatSucceedsIffKnownCountry(country: string, number: string)
    ensures GetFormattedPhoneNumber(country, number).Ok? <==> country in CountryType
  {
    CodesNonEmpty();
    if country in CountryType {
      var e :| e in EuCountryPhoneCodes && e.country == country;
    }
  }

  /**
   * A formatted number is its country's code followed by `number` unchanged,
   * so it is `|code| + |number|` long and lies in `FormattedNumberType`.
   */
  lemma FormattedNumberShape(country: string, number: string)
    requires GetFormattedPhoneNumber(country, number).Ok?
    ensures var s := GetFormattedPhoneNumber(country, number).value;
            && IsFormattedNumber(s)
            && s[|s| - |number|..] == number
            && exists e :: e in EuCountryPhoneCodes && e.country == country && |s| == |e.code| + |number|
  {
    var s := GetFormattedPhoneNumber(country, number).value;
    var e :| e in EuCountryPhoneCodes && e.country == country && s == e.code + number;
    assert e.code in CodeType && e.code <= s;
    assert s[|s| - |number|..] == number;
  }

  /** Looking up the country of entry `i` finds entry `i`. */
  lemma LookupFindsEntry(i: nat, number: string)
    requires i < |EuCountryPhoneCodes|
    ensures GetFormattedPhoneNumber(EuCountryPhoneCodes[i].country, number)
            == Ok(EuCountryPhoneCodes[i].code + number)
  {
    var t := EuCountryPhoneCodes;
    var r := Find(t, t[i].country);
    var j :| 0 <= j < |t| && t[j] == r.value && r.value.country == t[i].country;
    CountriesDistinct();
    assert i == j;
    CodesNonEmpty();
    assert t[i] in t;
  }

  /** `GetFormattedPhoneNumber('Sweden', '731111111')` is `'+46731111111'`. */
  lemma SwedenExample()
    ensures GetFormattedPhoneNumber("Sweden", "731111111") == Ok("+46731111111")
  {
    var number := "731111111";
    LookupFindsEntry(10, number);
    var e := EuCountryPhoneCodes[10];
    assert e == CountryCode("Sweden", "+46");
    SwedenDigits();
  }

  lemma SwedenDigits()
    ensures "+46" + "731111111" == "+46731111111"
  {
  }
}
