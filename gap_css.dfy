/** CSS gap properties: `GapCssKeys`, `SizeCssValues` and the optional-keyed `GapCssProp`. */
module GapCss {
  import opened TemplateProducts

  const ElementGapType: set<string> := {"padding", "margin"}
  const Positions: set<string> := {"top", "bottom", "left", "right"}

  /** `GapCssKeys`: the two shorthands, and each gap type, a hyphen and each position. */
  const GapCssKeys: set<string> := ElementGapType + Product(ElementGapType, '-', Positions)

  const SizeUnits: set<string> := {"px", "rem", "em", "vh", "vw", "%"}

  lemma GapTypesHaveNoHyphen()
    ensures forall g :: g in ElementGapType ==> '-' !in g
  {
  }

  /** Every positioned key holds a hyphen, so none is a shorthand. */
  lemma ShorthandsNotPositioned(k: string)
    requires k in Product(ElementGapType, '-', Positions)
    ensures k !in ElementGapType
  {
    var g, p :| g in ElementGapType && p in Positions && k == g + ['-'] + p;
    assert k[|g|] == '-';
  }

  lemma UnionSizes()
    ensures |ElementGapType| == 2 && |Positions| == 4
  {
  }

  /** 2 shorthands plus 2 x 4 positioned keys: 10 keys. */
  lemma GapCssKeyCount()
    ensures |GapCssKeys| == 10
  {
    var positioned := Product(ElementGapType, '-', Positions);
    GapTypesHaveNoHyphen();
    ProductCardinality(ElementGapType, '-', Positions);
    UnionSizes();
    forall k | k in positioned ensures k !in ElementGapType {
      ShorthandsNotPositioned(k);
    }
    DisjointUnionCardinality(ElementGapType, positioned);
  }

  /** A key without a hyphen is a shorthand; one with a hyphen is a gap type, `-`, and a position. */
  lemma GapCssKeyForm(k: string)
    ensures k in GapCssKeys && '-' !in k ==> k in ElementGapType
    ensures k in GapCssKeys && '-' in k ==>
              SplitFirst(k, '-').Some? && SplitFirst(k, '-').value.0 in ElementGapType
              && SplitFirst(k, '-').value.1 in Positions
  {
    GapTypesHaveNoHyphen();
    ProductMembership(ElementGapType, '-', Positions, k);
  }

  /** The ways to read `v` as a prefix followed by a unit. */
  function UnitSplits(v: string): (r: set<(string, string)>)
    ensures forall n, u :: (n, u) in r <==> u in SizeUnits && v == n + u
  {
    var r := set u | u in SizeUnits && |u| <= |v| && v[|v| - |u|..] == u :: (v[..|v| - |u|], u);
    assert forall n, u :: u in SizeUnits && v == n + u ==> v[|v| - |u|..] == u && v[..|v| - |u|] == n;
    r
  }

  /**
   * `SizeCssValues` = `${number}${SizeUnits}`: some reading of `v` as a prefix
   * and a unit has a prefix that `isNumber` accepts. `isNumber` stands for the
   * number-literal grammar, which is not modelled.
   */
  predicate IsSizeCssValue(v: string, isNumber: string -> bool)
  {
    exists split :: split in UnitSplits(v) && isNumber(split.0)
  }

  /** `GapCssProp`: every key optional; present keys are gap keys and their values are sizes. */
  predicate IsGapCssProp(m: map<string, string>, isNumber: string -> bool)
  {
    forall k :: k in m ==> k in GapCssKeys && IsSizeCssValue(m[k], isNumber)
  }

  /** A value is a size exactly when it is a number followed by a unit. */
  lemma SizeCssValueIff(v: string, isNumber: string -> bool)
    ensures IsSizeCssValue(v, isNumber) <==>
              exists n, u :: u in SizeUnits && v == n + u && isNumber(n)
  {
    if IsSizeCssValue(v, isNumber) {
      var split :| split in UnitSplits(v) && isNumber(split.0);
      assert split == (split.0, split.1);
    }
    if exists n, u :: u in SizeUnits && v == n + u && isNumber(n) {
      var n, u :| u in SizeUnits && v == n + u && isNumber(n);
      assert (n, u) in UnitSplits(v);
    }
  }

  /** `1rem` reads both as `1` + `rem` and as `1r` + `em`. */
  lemma RemAlsoEndsInEm()
    ensures ("1", "rem") in UnitSplits("1rem") && ("1r", "em") in UnitSplits("1rem")
  {
    assert "1rem" == "1" + "rem";
    assert "1rem" == "1r" + "em";
  }

  /** Dropping properties keeps a `GapCssProp` valid; the empty object is one. */
  lemma OptionalKeys(m: map<string, string>, keep: set<string>, isNumber: string -> bool)
    requires IsGapCssProp(m, isNumber)
    ensures IsGapCssProp(map k | k in m && k in keep :: m[k], isNumber)
    ensures IsGapCssProp(map[], isNumber)
  {
  }

  /** Each gap type followed by `-` and a position is a gap key. */
  lemma HyphenatedKeysAreGapKeys(g: string, p: string)
    requires g in ElementGapType && p in Positions
    ensures g + "-" + p in GapCssKeys
  {
    assert g + "-" + p == g + ['-'] + p;
  }

  /** A number followed by a unit is a size. */
  lemma NumberWithUnitIsSize(n: string, u: string, isNumber: string -> bool)
    requires u in SizeUnits && isNumber(n)
    ensures IsSizeCssValue(n + u, isNumber)
  {
    assert (n, u) in UnitSplits(n + u);
  }

  /** `{ margin: '25px', 'padding-top': '10%' }` is valid whenever `25` and `10` are numbers. */
  lemma DivElementExample(isNumber: string -> bool)
    requires isNumber("25") && isNumber("10")
    ensures IsGapCssProp(map["margin" := "25px", "padding-top" := "10%"], isNumber)
  {
    DivElementSpelling();
    NumberWithUnitIsSize("25", "px", isNumber);
    NumberWithUnitIsSize("10", "%", isNumber);
    HyphenatedKeysAreGapKeys("padding", "top");
    TwoPropertyObject("margin", "25px", "padding-top", "10%", isNumber);
  }

  lemma TwoPropertyObject(k1: string, v1: string, k2: string, v2: string, isNumber: string -> bool)
    requires k1 in GapCssKeys && IsSizeCssValue(v1, isNumber)
    requires k2 in GapCssKeys && IsSizeCssValue(v2, isNumber)
    ensures IsGapCssProp(map[k1 := v1, k2 := v2], isNumber)
  {
  }

  lemma DivElementSpelling()
    ensures "25px" == "25" + "px" && "10%" == "10" + "%"
    ensures "padding-top" == "padding" + "-" + "top"
  {
  }
}
