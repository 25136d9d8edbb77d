# advanced-typescript, modelled in Dafny

The repository is a set of TypeScript samples. Most of their logic is type-level
computation that the TypeScript checker carries out, plus a few small runtime
functions. This project restates that computation as ordinary values and
functions and proves what the samples' comments promise:

- **Object paths** (`RecursivePathTypes.ts`, `RecursivePathTypes2.ts`). An object
  type is a tree `Shape = Leaf | Obj(map<string, Shape>)`, where `Leaf` is any
  non-object type. The two samples share the `User` interface, which is defined
  once in module `Shapes`.
  - `TuplePaths.Path` models `Path<T>` and gives the key tuples as a
    `set<seq<string>>`.
  - `DottedPaths.Paths` models `Paths<T>` and gives the dot-separated strings as
    a `set<string>`.
  - The proofs tie the two together: every dotted path is a tuple path joined
    with dots.
- **Fixed-length tuples** (`RecursiveTypes.ts`). `FixedTuples.Tuple` is the
  accumulator recursion of `Tuple<TupleType, Length, Accumulator>`.
- **Template-literal unions** (`src/TemplateLiterals.ts`, `TemplateLiterals2.ts`,
  `MappedTypes.ts`).
  - A union of string literals is a finite `set<string>`.
  - `${A}_${B}` is `TemplateProducts.Product`.
  - A mapped type whose keys are all optional is a predicate on the keys
    (and values) of a map.
  - `on${Capitalize<K>}` is `ActionCallbacks.CallbackKey`.
- **Runtime lookups and guards** (`TemplateLiterals3.ts`, `ConditionalTypes2.ts`,
  `ConditionalTypes.ts`).
  - A thrown `Error` is an `Err`/`Fail` value that carries the source's
    message.
  - `never` is the empty set.

The source passes keys through unchanged, so two results need a side
condition. Both lemmas state a sufficient one as a `requires`:

- "The text before the first dot of a dotted path is a top-level key" needs,
  for example, top-level keys that contain no `.`. With the single key `a.b`,
  the path `a.b` cuts to `a`, which is not a key.
- "Renaming is injective" needs, for example, actions whose first character is
  a lower-case letter: `play` and `Play` both become `onPlay`. The condition is
  not necessary: `1a` and `2b` also rename apart.

The `User` shape and the four action keys meet both conditions.

## Model

| member | source | states |
|---|---|---|
| Shapes.Street | RecursivePathTypes.ts:9-12 | the `street` object of `User`: `streetName` and `streetNumber`, both strings |
| Shapes.Flat | RecursivePathTypes.ts:13-16 | the `flat` object of `User`: `flatName` and `flatNumber`, both strings |
| Shapes.Address | RecursivePathTypes.ts:6-17 | the `address` object: `country` and `city` (strings), then the `street` and `flat` objects |
| Shapes.User | RecursivePathTypes.ts:2-18 | the `User` interface of both path samples: `id`, `firstName`, `lastName` (strings) and the `address` object |
| TuplePaths.Path | RecursivePathTypes.ts:34 | definition of `Path<T>`: `never` for a non-object; for an object, the union over its keys `K` of `[K]` and of `[K]` followed by each path of `T[K]` |
| TuplePaths.PathIffFollows | RecursivePathTypes.ts:34 | a key sequence is in `Path<T>` if and only if it is non-empty, its first key is a key of `T`, and each later key is a key of the object the earlier keys reach |
| TuplePaths.PathStartsWithKey | RecursivePathTypes.ts:34 | every path is non-empty, `T` is an object, and the first element is a key of `T` |
| TuplePaths.PathPrefixClosed | RecursivePathTypes.ts:24-34 | every non-empty prefix of a path is itself a path |
| TuplePaths.KeyPaths | RecursivePathTypes.ts:34 | `[K]` is a path for every key `K`, and `[K]` followed by any path of `T[K]` is a path |
| TuplePaths.LeafKeyOnlySingleton | RecursivePathTypes.ts:34 | a key whose type is not an object starts only the path `[K]` |
| TuplePaths.UserPathExamples | RecursivePathTypes.ts:37-43 | `["id"]`, `["address","country"]` and `["address","street","streetName"]` are paths of `User` |
| DottedPaths.Paths | RecursivePathTypes2.ts:36-44 | definition of `Paths<T>`: `never` for a non-object; for an object, each key `K`, plus `K.p` for each path `p` of `T[K]` when `T[K]` is an object |
| DottedPaths.NonObjectHasNoPaths | RecursivePathTypes2.ts:36-44 | a non-object type has no dotted paths and no tuple paths (`never`) |
| DottedPaths.PathsAreJoinedTuplePaths | RecursivePathTypes2.ts:36-44 | the dotted paths are exactly the tuple paths of `Path<T>` joined with `.` |
| DottedPaths.PathsDecided | RecursivePathTypes2.ts:36-44 | when no key holds a dot, a string is a dotted path if and only if cutting it at its dots gives a key sequence that follows the nesting |
| DottedPaths.FirstSegmentIsKey | RecursivePathTypes2.ts:38-41 | the text of a path before its first dot is a top-level key, when top-level keys hold no dot |
| DottedPaths.KeyContribution | RecursivePathTypes2.ts:38-42 | adding key `K` adds exactly `K`, plus `K.p` for every path `p` of `T[K]` when `T[K]` is an object (nothing more when it is not) |
| DottedPaths.UserPaths | RecursivePathTypes2.ts:47-64 | `Paths<User>` is exactly the 12 strings from `id` to `address.flat.flatNumber`, with the intermediate `address`, `address.street` and `address.flat` included |
| FixedTuples.Tuple | RecursiveTypes.ts:15-18 | the result exists if and only if the accumulator is no longer than `Length`; it then has exactly `Length` elements, starts with the accumulator, and every added element is `TupleType` |
| FixedTuples.DefaultTupleIsCopies | RecursiveTypes.ts:15-18 | with the default empty accumulator, `Tuple<T, n>` is `n` copies of `T` |
| FixedTuples.TupleStopsAtLength | RecursiveTypes.ts:16-17 | an accumulator already of length `Length` is returned unchanged |
| FixedTuples.RgbColorTuple | RecursiveTypes.ts:25 | `Tuple<number, 3>` is `[number, number, number]` |
| PhoneNumbers.EuCountryPhoneCodes | TemplateLiterals3.ts:7-19 | the 11 (country, code) entries, in the source's order |
| PhoneNumbers.CountryType | TemplateLiterals3.ts:27 | the union of the table's country names |
| PhoneNumbers.CodeType | TemplateLiterals3.ts:33 | the union of the table's codes |
| PhoneNumbers.IsFormattedNumber | TemplateLiterals3.ts:41 | `FormattedNumberType`: a member of `CodeType` followed by any string |
| PhoneNumbers.Find | TemplateLiterals3.ts:56 | the lookup finds nothing if and only if no entry has the country; otherwise it returns the first entry whose country matches |
| PhoneNumbers.GetFormattedPhoneNumber | TemplateLiterals3.ts:55-61 | a failure carries "Invalid country"; a success is the code of a table entry for the country followed by `number` |
| PhoneNumbers.CountriesDistinct | TemplateLiterals3.ts:7-19 | no two table entries share a country name |
| PhoneNumbers.CodesNonEmpty | TemplateLiterals3.ts:7-19 | no code in the table is empty, so the falsy test at line 57 fires only on a missing country |
| PhoneNumbers.FormatSucceedsIffKnownCountry | TemplateLiterals3.ts:55-57 | formatting succeeds if and only if the country is in `CountryType`; any other country throws |
| PhoneNumbers.FormattedNumberShape | TemplateLiterals3.ts:55-60 | a result lies in `FormattedNumberType`, ends with `number` unchanged and is `|code| + |number|` long |
| PhoneNumbers.LookupFindsEntry | TemplateLiterals3.ts:56-60 | formatting with the country of entry `i` returns entry `i`'s code followed by the number |
| PhoneNumbers.SwedenExample | TemplateLiterals3.ts:64 | `('Sweden', '731111111')` gives `'+46731111111'` |
| Timezones.Locations | ConditionalTypes2.ts:7 | the three location literals, `Istanbul/Turkey` among them |
| Timezones.HandledLocations | ConditionalTypes2.ts:19-22 | the two locations the switch has a case for |
| Timezones.TotalOver | ConditionalTypes2.ts:23-36 | what the `never` assignment in the default case demands: every member of the union has a case |
| Timezones.GetTimezone | ConditionalTypes2.ts:17-39 | every success is `Europe/Stockholm` or `Europe/Berlin`; every failure is "Invalid location" |
| Timezones.SucceedsIffHandled | ConditionalTypes2.ts:18-23 | a call succeeds if and only if the location has a case |
| Timezones.TotalIffEveryMemberHandled | ConditionalTypes2.ts:24-36 | the function is total over a union if and only if every member of it has a case |
| Timezones.NotTotalOverLocations | ConditionalTypes2.ts:41-50 | the function is not total over `Locations`: `Istanbul/Turkey` is a member and throws "Invalid location" |
| Timezones.HandledExamples | ConditionalTypes2.ts:19-22 | Gothenburg maps to `Europe/Stockholm`, Berlin to `Europe/Berlin` |
| NonEmptyStrings.NonEmptyString | ConditionalTypes.ts:11 | the result lies within `T`, never holds `''`, and keeps every other member of `T` |
| NonEmptyStrings.AssertNotEmptyString | ConditionalTypes.ts:25-28 | the guard throws if and only if the input has length 0, and the message is "The string cannot be empty" |
| NonEmptyStrings.NonEmptyStringOfLiteral | ConditionalTypes.ts:11 | `NonEmptyString<''>` is `never`, and `NonEmptyString<T>` is `T` for every other literal |
| NonEmptyStrings.RuntimeAgreesWithType | ConditionalTypes.ts:25-28 | the runtime check passes a string if and only if the type admits that string's literal type |
| NonEmptyStrings.AdmittedPassesRuntime | ConditionalTypes.ts:25-27 | any string admitted by `NonEmptyString<T>` passes the runtime check |
| NonEmptyStrings.SourceExamples | ConditionalTypes.ts:31-33 | `"Not empty string"` is accepted statically and at runtime; `""` is rejected by both |
| TemplateProducts.Product | src/TemplateLiterals.ts:23 | definition of a template literal over two unions: each left member, the separator, and each right member |
| TemplateProducts.SplitFirst | src/TemplateLiterals.ts:23 | cutting at the first separator gives a separator-free left part that rebuilds the string; there is no cut if and only if the string holds no separator |
| TemplateProducts.SplitFirstOfJoined | src/TemplateLiterals.ts:23 | cutting `a + sep + b` at its first separator gives back `(a, b)` when `a` holds no separator |
| TemplateProducts.JoinedInjective | src/TemplateLiterals.ts:23 | distinct pairs whose left parts hold no separator give distinct joined strings |
| TemplateProducts.ProductMembership | src/TemplateLiterals.ts:23 | a string is in `${A}${sep}${B}` if and only if cutting it at its first separator gives a member of `A` and a member of `B` |
| TemplateProducts.ProductCardinality | src/TemplateLiterals.ts:23 | `${A}${sep}${B}` has `|A| * |B|` members when no member of `A` holds the separator |
| Translations.Components | src/TemplateLiterals.ts:6 | `title`, `subtitle` and `description` |
| Translations.Languages | src/TemplateLiterals.ts:13 | `en`, `de`, `se`, `da` and `nl` |
| Translations.TranslationKeys | src/TemplateLiterals.ts:23 | `${Components}_${Languages}`, as a `Product` with separator `_` |
| Translations.IsTranslationObject | src/TemplateLiterals.ts:33-35 | every key optional: a valid object is any map whose keys are translation keys |
| Translations.TranslationKeyForm | src/TemplateLiterals.ts:6-23 | a string is a translation key if and only if it is a component, `_`, and a language |
| Translations.PairsAndKeys | src/TemplateLiterals.ts:16-23 | every (component, language) pair gives a key, and distinct pairs give distinct keys |
| Translations.TranslationKeyCount | src/TemplateLiterals.ts:16-23 | there are 3 x 5 = 15 translation keys |
| Translations.UnlistedLanguageNotKey | src/TemplateLiterals.ts:13-23 | `c_l` with an unlisted language `l` is not a translation key, whatever `c` is |
| Translations.TitleFrNotKey | src/TemplateLiterals.ts:13-23 | `title_fr` is not a translation key |
| Translations.TranslationObjectExamples | src/TemplateLiterals.ts:33-45 | the empty map and `{title_en: ...}` are valid `TranslationObject`s |
| GapCss.ElementGapType | TemplateLiterals2.ts:7 | `padding` and `margin` |
| GapCss.Positions | TemplateLiterals2.ts:15 | `top`, `bottom`, `left` and `right` |
| GapCss.GapCssKeys | TemplateLiterals2.ts:23 | the two shorthands, plus each gap type, `-`, and each position |
| GapCss.SizeUnits | TemplateLiterals2.ts:30 | the six units `px`, `rem`, `em`, `vh`, `vw` and `%` |
| GapCss.IsSizeCssValue | TemplateLiterals2.ts:36 | `${number}${SizeUnits}`: some reading of the value as a prefix and a unit has a number as its prefix |
| GapCss.IsGapCssProp | TemplateLiterals2.ts:43-45 | every key optional: each present key is a gap key and its value is a size |
| GapCss.GapCssKeyCount | TemplateLiterals2.ts:7-23 | there are 2 shorthands plus 2 x 4 positioned keys, 10 keys in all |
| GapCss.ShorthandsNotPositioned | TemplateLiterals2.ts:23 | no positioned key is also a shorthand |
| GapCss.GapCssKeyForm | TemplateLiterals2.ts:15-23 | a key without a hyphen is `margin` or `padding`; a hyphenated key is a gap type, `-`, and one of top, bottom, left and right |
| GapCss.HyphenatedKeysAreGapKeys | TemplateLiterals2.ts:23 | every gap type, `-`, and position is a gap key |
| GapCss.UnitSplits | TemplateLiterals2.ts:30-36 | lists exactly the ways to read a value as a prefix followed by a unit |
| GapCss.SizeCssValueIff | TemplateLiterals2.ts:30-36 | a value is a size if and only if it is a number followed by one of the six units |
| GapCss.RemAlsoEndsInEm | TemplateLiterals2.ts:30 | `1rem` reads both as `1` + `rem` and as `1r` + `em` |
| GapCss.NumberWithUnitIsSize | TemplateLiterals2.ts:36 | a number followed by a unit is a size |
| GapCss.OptionalKeys | TemplateLiterals2.ts:43-45 | dropping any properties keeps a `GapCssProp` valid, and the empty object is valid |
| GapCss.DivElementExample | TemplateLiterals2.ts:52-55 | `{margin: '25px', 'padding-top': '10%'}` is a valid `GapCssProp` |
| ActionCallbacks.ActionKeys | MappedTypes.ts:6-18 | `keyof Actions`: `play`, `stop`, `addToPlaylist` and `removeFromPlaylist` |
| ActionCallbacks.ToUpper | MappedTypes.ts:26 | a lower-case ASCII letter becomes its own capital (same offset from `A` as from `a`); every other character is unchanged |
| ActionCallbacks.ToLower | MappedTypes.ts:26 | the reverse of `ToUpper`: a capital becomes its own lower-case letter; every other character is unchanged |
| ActionCallbacks.Capitalize | MappedTypes.ts:26-30 | `Capitalize<S>`: same length, first character upper-cased, the rest unchanged; the empty string stays empty |
| ActionCallbacks.CallbackKey | MappedTypes.ts:30 | the remapped key `on${Capitalize<Key>}` |
| ActionCallbacks.ActionCallbackKeys | MappedTypes.ts:29-31 | the keys of `ActionCallbacks`: the callback key of each action key |
| ActionCallbacks.IsActionCallbacks | MappedTypes.ts:29-31 | every callback optional: a valid object is any set of callback keys |
| ActionCallbacks.CallbackKeyShape | MappedTypes.ts:22-30 | a callback key is `on`, then the action's first character upper-cased, then the rest of the action unchanged: two characters longer |
| ActionCallbacks.ActionOfCallbackKey | MappedTypes.ts:30 | reading the action back from the callback key of a lower-case-initial action gives that action |
| ActionCallbacks.CallbackKeyOfActionOf | MappedTypes.ts:30 | every string read back as an action is that action's callback key |
| ActionCallbacks.CallbackKeyInjective | MappedTypes.ts:29-31 | distinct lower-case-initial actions have distinct callback keys |
| ActionCallbacks.CallbackKeysCardinality | MappedTypes.ts:29-31 | renaming a set of lower-case-initial actions keeps the number of keys |
| ActionCallbacks.RenamingExamples | MappedTypes.ts:38-43 | `play` becomes `onPlay`, `addToPlaylist` becomes `onAddToPlaylist`, and likewise `stop` and `removeFromPlaylist` |
| ActionCallbacks.ActionCallbackKeysListed | MappedTypes.ts:6-31 | the keys of `ActionCallbacks` are exactly the four callback keys, four distinct keys |
| ActionCallbacks.CallbacksExamples | MappedTypes.ts:38-43 | the `callbacks` object, which sets all four keys, is valid, and so is the empty object |

## Left out

- `BrandedTypes.ts`: the brand is a phantom marker. `validateFunction` always returns true and `sendEmail` does nothing, so the only effect is the type checker accepting or rejecting a program.
- `ConditionalTypesUsingInfer.ts`: return-type inference is done by the compiler, and `add` is a floating-point addition.
- The `${number}` part of `SizeCssValues`: JavaScript's number-literal grammar is not modelled. It is the parameter `isNumber` of `GapCss.IsSizeCssValue`.
- Compile-time-only mechanics are not modelled: the `never` assignment in the default case, the `as any` cast, `as const` narrowing, and the general distribution of conditional types over unions. `NonEmptyStrings.NonEmptyString` handles unions of literals only; the non-literal `string` type is not modelled.
- Symbol and numeric keys in `Paths<T>`, and arrays or functions as object types: keys are strings, and a `Leaf` stands for every non-object type.
- Optional and readonly property modifiers are not modelled in `Shape`.
- The function values in `Actions` and `callbacks` carry no behaviour; only the keys are modelled.
- `Capitalize` is modelled for ASCII only; locale-dependent upper-casing of other characters is not.
- FixedTuples.Tuple: does not model the type checker's limit of about 1000 recursion steps, nor a `Length` that is negative or not an integer. A `Length` below the accumulator's length never stops in the source and is `None` here.
