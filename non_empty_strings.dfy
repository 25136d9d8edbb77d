/** `NonEmptyString<T>` and its runtime counterpart `AssertNotEmptyString`. */
module NonEmptyStrings {
  import opened Wrappers

  /**
   * `NonEmptyString<T>` for a union `t` of string literals: the conditional
   * type maps the member `''` to `never` and keeps every other member.
   */
  function NonEmptyString(t: set<string>): (r: set<string>)
    ensures r <= t && "" !in r
    ensures forall s :: s in t && s != "" ==> s in r
  {
    set s | s in t && s != ""
  }

  /** `AssertNotEmptyString`: throws "The string cannot be empty" when `input.length` is 0. */
  function AssertNotEmptyString(input: string): (r: Outcome)
    ensures r.Fail? <==> |input| == 0
    ensures r.Fail? ==> r.error == "The string cannot be empty"
  {
    if |input| == 0 then Fail("The string cannot be empty") else Pass
  }

  /** `NonEmptyString<''>` is `never`, and `NonEmptyString<T>` is `T` for any other literal. */
  lemma NonEmptyStringOfLiteral(t: string)
    ensures NonEmptyString({t}) == if t == "" then {} else {t}
  {
  }

  /** Static and runtime checks agree: a string passes at runtime iff its literal type is admitted. */
  lemma RuntimeAgreesWithType(s: string)
    ensures AssertNotEmptyString(s).Pass? <==> NonEmptyString({s}) == {s}
  {
    if NonEmptyString({s}) == {s} {
      assert s in NonEmptyString({s});
    }
  }

  /** Any string admitted by the type passes the runtime check. */
  lemma AdmittedPassesRuntime(t: set<string>, s: string)
    requires s in NonEmptyString(t)
    ensures AssertNotEmptyString(s).Pass?
  {
  }

  /** The two calls of the source: a non-empty string passes; `""` fails statically and at runtime. */
  lemma SourceExamples()
    ensures NonEmptyString({"Not empty string"}) == {"Not empty string"}
    ensures AssertNotEmptyString("Not empty string") == Pass
    ensures NonEmptyString({""}) == {}
    ensures AssertNotEmptyString("") == Fail("The string cannot be empty")
  {
    NonEmptyStringOfLiteral("Not empty string");
    NonEmptyStringOfLiteral("");
  }
}
