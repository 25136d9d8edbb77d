/** Translation keys `${Components}_${Languages}` and the partial `TranslationObject`. */
module Translations {
  import opened TemplateProducts

  const Components: set<string> := {"title", "subtitle", "description"}
  const Languages: set<string> := {"en", "de", "se", "da", "nl"}

  /** `TranslationKeys`: each component, an underscore, each language. */
  const TranslationKeys: set<string> := Product(Components, '_', Languages)

  /** `TranslationObject`: every key optional, so any map whose keys are translation keys. */
  predicate IsTranslationObject(m: map<string, string>)
  {
    m.Keys <= TranslationKeys
  }

  lemma ComponentsHaveNoUnderscore()
    ensures forall c :: c in Components ==> '_' !in c
  {
  }

  /** A key is a translation key exactly when it cuts at its first `_` into a component and a language. */
  lemma TranslationKeyForm(k: string)
    ensures k in TranslationKeys <==>
              SplitFirst(k, '_').Some? && SplitFirst(k, '_').value.0 in Components
              && SplitFirst(k, '_').value.1 in Languages
  {
    ComponentsHaveNoUnderscore();
    ProductMembership(Components, '_', Languages, k);
  }

  /** Every (component, language) pair gives a key, and distinct pairs give distinct keys. */
  lemma PairsAndKeys(c1: string, l1: string, c2: string, l2: string)
    requires c1 in Components && l1 in Languages && c2 in Components && l2 in Languages
    ensures c1 + "_" + l1 in TranslationKeys
    ensures c1 + "_" + l1 == c2 + "_" + l2 ==> c1 == c2 && l1 == l2
  {
    ComponentsHaveNoUnderscore();
    if c1 + "_" + l1 == c2 + "_" + l2 {
      JoinedInjective(c1, l1, c2, l2, '_');
    }
  }

  /** All 3 x 5 = 15 combinations. */
  lemma TranslationKeyCount()
    ensures |TranslationKeys| == 15
  {
    ComponentsHaveNoUnderscore();
    ProductCardinality(Components, '_', Languages);
  }

  /** A key whose language is not listed is no translation key, whatever its component. */
  lemma UnlistedLanguageNotKey(c: string, l: string)
    requires l !in Languages
    ensures c + "_" + l !in TranslationKeys
  {
    if c + "_" + l in TranslationKeys {
      var c', l' :| c' in Components && l' in Languages && c + "_" + l == c' + "_" + l';
      assert '_' !in c' && '_' !in l';
      JoinedMatchesClean(c, l, c', l', '_');
    }
  }

  /** `title_fr` is no translation key. */
  lemma TitleFrNotKey()
    ensures "title_fr" !in TranslationKeys
  {
    UnlistedLanguageNotKey("title", "fr");
    TitleFrSpelling();
  }

  lemma TitleFrSpelling()
    ensures "title_fr" == "title" + "_" + "fr"
  {
  }

  /** The empty object and the source's `{ title_en: ... }` are translation objects. */
  lemma TranslationObjectExamples()
    ensures IsTranslationObject(map[])
    ensures IsTranslationObject(map["title_en" := "The english title goes here"])
  {
    PairsAndKeys("title", "en", "title", "en");
    assert "title_en" == "title" + "_" + "en";
  }
}
