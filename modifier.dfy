/**
 * The locales modifier: projects the language settings onto the two
 * International-Core components of the answer file (the WinPE one, used while
 * Windows Setup runs, and the one of the installed system) and, when the chosen
 * home location is not the one the primary locale implies, appends a command
 * to the script that runs once at the first user logon.
 */
module LocalesModifier {
  import opened Wrappers
  import opened Locales
  import opened Keyboards

  // Child fields of an International-Core component, by their relative path.
  const InputLocaleField: string := "InputLocale"
  const SystemLocaleField: string := "SystemLocale"
  const UserLocaleField: string := "UserLocale"
  const UILanguageField: string := "UILanguage"
  const SetupUILanguageField: string := "SetupUILanguage/UILanguage"

  /** A component section of the answer file: whether it is still in the document, and the text of its fields. */
  class Section {
    var present: bool
    var fields: map<string, string>

    constructor (fields: map<string, string>)
      ensures present && this.fields == fields
    {
      present := true;
      this.fields := fields;
    }

    /** Sets the text of an existing child field. */
    method SetText(path: string, text: string)
      requires path in fields
      modifies this
      ensures fields == old(fields)[path := text] && present == old(present)
    {
      fields := fields[path := text];
    }

    /** Removes the section from its document; its fields are left as they were. */
    method RemoveSelf()
      modifies this
      ensures !present && fields == old(fields)
    {
      present := false;
    }
  }

  /** The script run once per user at first logon; lines are only ever appended. */
  class UserOnceScript {
    var lines: seq<string>

    constructor ()
      ensures lines == []
    {
      lines := [];
    }

    method Append(line: string)
      modifies this
      ensures lines == old(lines) + [line]
    {
      lines := lines + [line];
    }
  }

  /** The fields the projection writes into a section. */
  function WrittenFields(setup: bool): (r: set<string>)
    ensures SetupUILanguageField in r <==> setup
  {
    {InputLocaleField, SystemLocaleField, UserLocaleField, UILanguageField}
      + (if setup then {SetupUILanguageField} else {})
  }

  /** The section has every field the projection writes (looking one up would otherwise throw). */
  predicate FieldsPresent(fields: map<string, string>, setup: bool)
  {
    WrittenFields(setup) <= fields.Keys
  }

  /** The fields of a section after the unattended projection. */
  function ProjectedFields(fields: map<string, string>, catalog: Catalog, s: UnattendedSettings, setup: bool): (r: map<string, string>)
    requires Resolvable(catalog, s)
    ensures r.Keys == fields.Keys + WrittenFields(setup)
    ensures r[InputLocaleField] == EncodeKeyboards(catalog, s)
    ensures r[SystemLocaleField] == s.localeAndKeyboard.locale.id
    ensures r[UserLocaleField] == s.localeAndKeyboard.locale.id
    ensures r[UILanguageField] == s.imageLanguage.id
    ensures setup ==> r[SetupUILanguageField] == s.imageLanguage.id
    ensures forall path :: path in fields && path !in WrittenFields(setup) ==> r[path] == fields[path]
  {
    var written := fields[InputLocaleField := EncodeKeyboards(catalog, s)]
      [SystemLocaleField := s.localeAndKeyboard.locale.id]
      [UserLocaleField := s.localeAndKeyboard.locale.id]
      [UILanguageField := s.imageLanguage.id];
    if setup then written[SetupUILanguageField := s.imageLanguage.id] else written
  }

  /**
   * C#'s null-conditional `locale.GeoLocation?.Id` in `LocalesModifier.Process`:
   * the id of the home location a locale implies, or nothing when it implies none.
   */
  function DefaultGeoId(locale: UserLocale): Option<string>
  {
    match locale.geoLocation
    case None => None
    case Some(g) => Some(g.id)
  }

  /** The chosen home location differs from the primary locale's default; a missing default always differs. */
  predicate GeoLocationDiffers(s: UnattendedSettings)
  {
    Some(s.geoLocation.id) != DefaultGeoId(s.localeAndKeyboard.locale)
  }

  function HomeLocationCommand(geo: GeoLocation): string
  {
    "Set-WinHomeLocation -GeoId " + geo.id + ";"
  }

  /** The commands the unattended projection appends to the logon script. */
  function GeoCommands(s: UnattendedSettings): seq<string>
  {
    if GeoLocationDiffers(s) then [HomeLocationCommand(s.geoLocation)] else []
  }

  /**
   * Both sections end with the same InputLocale, SystemLocale, UserLocale and
   * UILanguage, whatever they held before; SystemLocale and UserLocale agree.
   */
  lemma SectionsAgree(winPEFields: map<string, string>, coreFields: map<string, string>, catalog: Catalog, s: UnattendedSettings)
    requires Resolvable(catalog, s)
    ensures var p, c := ProjectedFields(winPEFields, catalog, s, true), ProjectedFields(coreFields, catalog, s, false);
      && (forall path :: path in WrittenFields(false) ==> p[path] == c[path])
      && p[SystemLocaleField] == p[UserLocaleField]
  {
  }

  /** Only the setup-phase section gets SetupUILanguage/UILanguage written; the other keeps what it had, if anything. */
  lemma SetupLanguageOnlyInSetup(fields: map<string, string>, catalog: Catalog, s: UnattendedSettings)
    requires Resolvable(catalog, s)
    ensures var c := ProjectedFields(fields, catalog, s, false);
      && (SetupUILanguageField in c <==> SetupUILanguageField in fields)
      && (SetupUILanguageField in fields ==> c[SetupUILanguageField] == fields[SetupUILanguageField])
    ensures ProjectedFields(fields, catalog, s, true)[SetupUILanguageField] == s.imageLanguage.id
  {
  }

  /** Projecting an already projected section changes nothing. */
  lemma ProjectionIdempotent(fields: map<string, string>, catalog: Catalog, s: UnattendedSettings, setup: bool)
    requires Resolvable(catalog, s)
    ensures var once := ProjectedFields(fields, catalog, s, setup);
      ProjectedFields(once, catalog, s, setup) == once
  {
  }

  /**
   * At most one command is appended, the one setting the chosen home
   * location, and exactly when it differs from the primary locale's default.
   */
  lemma GeoCommandOnce(s: UnattendedSettings)
    ensures |GeoCommands(s)| <= 1
    ensures var default := s.localeAndKeyboard.locale.geoLocation;
      GeoCommands(s) == [HomeLocationCommand(s.geoLocation)] <==> (default.None? || default.value.id != s.geoLocation.id)
    ensures var default := s.localeAndKeyboard.locale.geoLocation;
      GeoCommands(s) == [] <==> (default.Some? && default.value.id == s.geoLocation.id)
  {
  }

  /** The command is the literal "Set-WinHomeLocation -GeoId <id>;". */
  lemma HomeLocationCommandShape(geo: GeoLocation)
    ensures var c := HomeLocationCommand(geo);
      && |c| == 28 + |geo.id|
      && c[..27] == "Set-WinHomeLocation -GeoId "
      && c[27..|c| - 1] == geo.id
      && c[|c| - 1] == ';'
  {
  }

  /** The signal that the settings value is of a kind the projection does not know. */
  datatype ProcessError = NotSupported

  datatype Element = Element(node: Section, setup: bool)

  /**
   * Projects the language settings onto the WinPE section `winPE` (the
   * setup-phase one) and the installed-system section `core`, appending the
   * home-location command to `script` when it is needed.
   */
  method Process(settings: LanguageSettings, catalog: Catalog, winPE: Section, core: Section, script: UserOnceScript)
    returns (outcome: Outcome<ProcessError>)
    requires winPE != core
    requires winPE.present && core.present
    requires settings.Unattended? ==>
      && Resolvable(catalog, settings.settings)
      && FieldsPresent(winPE.fields, true)
      && FieldsPresent(core.fields, false)
    modifies winPE, core, script
    ensures outcome == if settings.OtherSettings? then Fail(NotSupported) else Pass
    ensures settings.Unattended? ==>
      && winPE.present && core.present
      && winPE.fields == ProjectedFields(old(winPE.fields), catalog, settings.settings, true)
      && core.fields == ProjectedFields(old(core.fields), catalog, settings.settings, false)
      && script.lines == old(script.lines) + GeoCommands(settings.settings)
    ensures settings.Interactive? ==>
      && !winPE.present && !core.present
      && winPE.fields == old(winPE.fields) && core.fields == old(core.fields)
      && script.lines == old(script.lines)
    ensures settings.OtherSettings? ==>
      && winPE.present && core.present
      && winPE.fields == old(winPE.fields) && core.fields == old(core.fields)
      && script.lines == old(script.lines)
  {
    var elements := [Element(winPE, true), Element(core, false)];
    match settings {
      case Unattended(s) =>
        var i := 0;
        while i < |elements|
          invariant 0 <= i <= |elements|
          invariant winPE.present && core.present
          invariant winPE.fields == if i >= 1 then ProjectedFields(old(winPE.fields), catalog, s, true) else old(winPE.fields)
          invariant core.fields == if i >= 2 then ProjectedFields(old(core.fields), catalog, s, false) else old(core.fields)
          invariant script.lines == old(script.lines)
        {
          var element := elements[i];
          var keyboards := EncodeKeyboards(catalog, s);
          var node := element.node;
          node.SetText(InputLocaleField, keyboards);
          node.SetText(SystemLocaleField, s.localeAndKeyboard.locale.id);
          node.SetText(UserLocaleField, s.localeAndKeyboard.locale.id);
          node.SetText(UILanguageField, s.imageLanguage.id);
          if element.setup {
            node.SetText(SetupUILanguageField, s.imageLanguage.id);
          }
          i := i + 1;
        }
        if GeoLocationDiffers(s) {
          script.Append(HomeLocationCommand(s.geoLocation));
        }
        outcome := Pass;
      case Interactive =>
        var i := 0;
        while i < |elements|
          invariant 0 <= i <= |elements|
          invariant winPE.present == (i < 1) && core.present == (i < 2)
          invariant winPE.fields == old(winPE.fields) && core.fields == old(core.fields)
          invariant script.lines == old(script.lines)
        {
          elements[i].node.RemoveSelf();
          i := i + 1;
        }
        outcome := Pass;
      case OtherSettings =>
        outcome := Fail(NotSupported);
    }
  }
}
