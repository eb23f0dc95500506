# Locale and keyboard projection of the unattend generator

This project models, in Dafny, the locales modifier of an answer-file
generator for unattended Windows installations (`LocalesModifier.Process` in
`modifier/Locales.cs`). The modifier takes the configuration's language
settings and projects them onto two components of the answer file:
`Microsoft-Windows-International-Core-WinPE` (used while Windows Setup runs)
and `Microsoft-Windows-International-Core` (the installed system).

- **Unattended settings.** Up to three (locale, keyboard) pairs are encoded as a
  `;`-separated InputLocale list. An IME is written as its bare id. A standard
  layout is written as `<lcid>:<keyboard id>`. The neutral LCID `1000` is first
  replaced through the locale catalog: the image language's own entry, then
  `zh` for zh-CN, then `zh-Hant` for zh-TW, and otherwise the original locale.
  Both sections receive InputLocale, SystemLocale, UserLocale and UILanguage.
  Only the WinPE section also receives `SetupUILanguage/UILanguage`. After both
  sections, one `Set-WinHomeLocation -GeoId <id>;` line is appended to the
  first-logon script when the chosen home location is not the primary
  locale's default. A locale with no default always counts as different.
- **Interactive settings.** Both sections are removed from the document.
- **Any other settings value** (including null) raises NotSupportedException.
  Here that is the outcome `Fail(NotSupported)`, and nothing is changed.

Files and modules:

- `wrappers.dfy`, module `Wrappers`: `Option` and `Outcome`.
- `locales.dfy`, module `Locales`: the settings records. `UserLocale`,
  `KeyboardIdentifier`, `ImageLanguage` and `GeoLocation` keep only the fields
  the modifier reads. `LanguageSettings` is `Interactive | Unattended |
  OtherSettings`.
- `keyboards.dfy`, module `Keyboards`: the pure encoder. This covers the
  `SelectMany` lambda (`KeyboardToken`, `PairTokens`, `Tokens`), the local
  function `GetReplacementForUnspecifiedLocale` (`Replacement`) and
  `string.Join` (`Join`). `Split` is a reference decoder, written only to
  state the round trip of `Join`.
- `modifier.dfy`, module `LocalesModifier`: a `Section` class (a presence flag
  and a map from field path to text) and a `UserOnceScript` class (an append-only
  `seq<string>`). `Process` is a method with a loop over the two elements, as
  in the source. It is proved against `ProjectedFields` and `GeoCommands`.

Two behaviours of the source are modelled as written:

- The keyboard string is recomputed inside the `foreach` over the two
  elements, not computed once before it. The value is the same each time,
  and `Process` also recomputes it in its loop.
- LCID `1000` can reach the output. When neither the catalog nor the zh-CN /
  zh-TW special cases give a replacement, the source keeps the original
  locale and writes the literal token `1000:<kbid>`. `UnspecifiedTokenFallback`
  states this case.

## Model

| member | source | states |
|---|---|---|
| Keyboards.Replacement | modifier/Locales.cs:62-80 | The replacement for a neutral locale follows a fixed priority: the catalog entry of the image language, else catalog `zh` for zh-CN, else catalog `zh-Hant` for zh-TW, else the original locale. The result is always the original or a catalog value |
| Keyboards.PairTokens | modifier/Locales.cs:50-59 | An absent pair yields no token and a present pair exactly one |
| Keyboards.Tokens | modifier/Locales.cs:44-88 | The SelectMany yields one token per present pair. The k-th token is the token of the k-th present pair, in list order |
| Keyboards.PresentPairs | modifier/Locales.cs:45-49 | The present pairs are the primary, then the secondary and tertiary when given |
| Keyboards.TokensBySlot | modifier/Locales.cs:44-88 | The token list is the primary's token followed by what the second and third slots contribute |
| Keyboards.ImeTokenIsKeyboardId | modifier/Locales.cs:56-59 | An IME pair's token is exactly its keyboard id, even when its LCID is `1000` (the IME test comes first) |
| Keyboards.StandardTokenIsPrefixed | modifier/Locales.cs:83-86 | A standard pair with an LCID other than `1000` gives exactly `<lcid>:<keyboard id>` |
| Keyboards.TokenIgnoresCatalog | modifier/Locales.cs:56-86 | An IME pair, or a pair whose LCID is not `1000`, gets the same token under any catalog and any image language |
| Keyboards.UnspecifiedTokenFallback | modifier/Locales.cs:60-81 | A standard pair with LCID `1000` takes the LCID of the image language's catalog entry, else of `zh` (zh-CN), else of `zh-Hant` (zh-TW), else gives the literal `1000:<kbid>` |
| Keyboards.SplitJoin | modifier/Locales.cs:44 | Splitting a `;`-joined non-empty list of `;`-free tokens at `;` gives back exactly that list |
| Keyboards.JoinEnds | modifier/Locales.cs:44 | The joined text starts with the first token and ends with the last one, with no separator before or after |
| Keyboards.JoinSeparatorCount | modifier/Locales.cs:44 | The joined text of `;`-free tokens holds exactly one `;` per gap between tokens |
| Keyboards.EncodeKeyboardsOrder | modifier/Locales.cs:44-88 | InputLocale, split at `;`, is the primary token, then the secondary and tertiary tokens when present; absent pairs add nothing. It holds one `;` per present optional pair |
| Keyboards.EncodeKeyboardsEnds | modifier/Locales.cs:44-49 | InputLocale starts with the primary pair's token and ends with the token of the last present pair |
| Keyboards.PrimaryOnly | modifier/Locales.cs:44-59 | With only the primary pair given, InputLocale is that pair's single token |
| Keyboards.UsAndPinyinExample | modifier/Locales.cs:44-88 | A US standard layout followed by a Pinyin IME encodes as `0409:00000409;IME_PINYIN` |
| LocalesModifier.WrittenFields | modifier/Locales.cs:91-98 | The written fields include `SetupUILanguage/UILanguage` exactly for the setup-phase section |
| LocalesModifier.ProjectedFields | modifier/Locales.cs:90-98 | After projection: InputLocale is the encoded keyboard list; SystemLocale and UserLocale are the primary locale's id; UILanguage is the image language id; in the setup section, SetupUILanguage/UILanguage is the image language id; every other field is unchanged |
| LocalesModifier.SectionsAgree | modifier/Locales.cs:90-94 | Both sections end with the same InputLocale, SystemLocale, UserLocale and UILanguage, and SystemLocale equals UserLocale |
| LocalesModifier.SetupLanguageOnlyInSetup | modifier/Locales.cs:95-98 | Only the setup section gets SetupUILanguage/UILanguage set to the image language; the other section keeps whatever it had there |
| LocalesModifier.ProjectionIdempotent | modifier/Locales.cs:90-98 | Projecting a section that was already projected with the same settings changes nothing |
| LocalesModifier.GeoCommandOnce | modifier/Locales.cs:101-104 | At most one command is appended. It is the home-location command exactly when the locale has no default or its default id differs from the chosen one. Nothing is appended exactly when the ids match |
| LocalesModifier.HomeLocationCommandShape | modifier/Locales.cs:103 | The command is the literal `Set-WinHomeLocation -GeoId `, then the id, then `;` |
| LocalesModifier.Section.SetText | modifier/Locales.cs:91-97 | Setting an existing field's text changes that field only, and the section stays present |
| LocalesModifier.Section.RemoveSelf | modifier/Locales.cs:110 | Removing a section marks it absent and leaves its fields alone |
| LocalesModifier.UserOnceScript.Append | modifier/Locales.cs:103 | Appending adds exactly one line at the end of the script |
| LocalesModifier.Process | modifier/Locales.cs:27-117 | Unattended: both sections stay present; their fields are the projection of their old fields with the WinPE one flagged as setup; the script grows by exactly the geolocation commands. Interactive: both sections removed, no field or script change. Any other variant: `Fail(NotSupported)` and nothing changes. The outcome is `Pass` for the two known variants |

## Left out

- XML plumbing: XPath selection, `NamespaceManager`, `SelectSingleNodeOrThrow` and `RemoveSelf` are library code. A section is a presence flag with a map from field path to text. That both components exist, and that the unattended branch finds every field it writes, are preconditions of `Process`, because the source throws when they are missing.
- The global catalog `Generator.UserLocales` is a parameter, an immutable map. The indexer lookups of `zh` and `zh-Hant` throw when those keys are missing. Their presence is a precondition (`FallbackAvailable`), demanded only for a standard pair with LCID `1000` whose image language has no catalog entry and is zh-CN or zh-TW.
- Because those exceptions are excluded by preconditions, the partial updates a mid-way exception would leave are not modelled.
- `ModifierContext`, the `Modifier` base class and the `Configuration` object are not modelled. `Process` takes the settings, the catalog, both sections and the script as parameters.
- The internals of `UserOnceScript` are not modelled. It is an append-only sequence of lines.
- `UserLocale`, `KeyboardIdentifier`, `InputType`, `ImageLanguage` and `GeoLocation` are defined outside the modelled file. They keep only the fields used here.
- String interpolation is plain sequence concatenation.
- The order of the append relative to the section writes (the append comes last) cannot be seen in the final state, so it is not stated.
- Keyboards.EncodeKeyboardsOrder: stated only for keyboard ids and LCIDs that hold no `;`, because a `;` inside a token makes the joined text split into more pieces.
- Keyboards.SplitJoin: stated only for tokens that hold no `;`, for the same reason.
- Keyboards.JoinSeparatorCount: stated only for tokens that hold no `;`, for the same reason.
