/**
 * The language-settings records of the answer-file generator: which display
 * language the installer uses, which user locales and keyboard layouts are
 * installed, and which home location is chosen.
 *
 * UserLocale, KeyboardIdentifier, InputType, ImageLanguage and GeoLocation are
 * defined elsewhere in the generator; here they hold only the fields that the
 * locale projection reads.
 */
module Locales {
  import opened Wrappers

  /** A home location, identified by its GeoId. */
  datatype GeoLocation = GeoLocation(id: string)

  /** The language of the installation image, e.g. "en-US" or "zh-CN". */
  datatype ImageLanguage = ImageLanguage(id: string)

  /**
   * A user locale: its name ("en-US"), its legacy locale code as a decimal
   * string ("0409"), and the home location it implies, if any.
   */
  datatype UserLocale = UserLocale(id: string, lcid: string, geoLocation: Option<GeoLocation>)

  /** A keyboard layout is either a plain layout or an input method editor. */
  datatype InputType = Standard | IME

  datatype KeyboardIdentifier = KeyboardIdentifier(id: string, kind: InputType)

  datatype LocaleAndKeyboard = LocaleAndKeyboard(locale: UserLocale, keyboard: KeyboardIdentifier)

  /** The payload of fully specified language settings. */
  datatype UnattendedSettings = UnattendedSettings(
    imageLanguage: ImageLanguage,
    localeAndKeyboard: LocaleAndKeyboard,
    localeAndKeyboard2: Option<LocaleAndKeyboard>,
    localeAndKeyboard3: Option<LocaleAndKeyboard>,
    geoLocation: GeoLocation)

  /**
   * The language settings of a configuration. Besides the two variants the
   * generator knows, the settings value may be something else (null, or
   * another implementation of the interface), which the projection refuses.
   */
  datatype LanguageSettings =
    | Interactive
    | Unattended(settings: UnattendedSettings)
    | OtherSettings

  /** The catalog of user locales, keyed by language id. */
  type Catalog = map<string, UserLocale>

  /** The legacy locale code of the neutral, "unspecified" locale. */
  const UnspecifiedLcid: string := "1000"
}
