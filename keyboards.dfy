/**
 * The InputLocale encoding: up to three (locale, keyboard) pairs become one
 * ';'-separated list of keyboard tokens. An IME is written as its bare id; a
 * standard layout as "<lcid>:<keyboard id>", where the neutral LCID "1000" is
 * first replaced by a concrete locale found through the catalog.
 */
module Keyboards {
  import opened Wrappers
  import opened Locales

  // ---------------------------------------------------------------------------
  // Joining and splitting
  // ---------------------------------------------------------------------------

  /** string.Join: the tokens in order, with `sep` between neighbours only. */
  function Join(tokens: seq<string>, sep: char): string
  {
    if |tokens| == 0 then ""
    else if |tokens| == 1 then tokens[0]
    else tokens[0] + [sep] + Join(tokens[1..], sep)
  }

  /**
   * The reference decoder for Join: the pieces of `s` between separators.
   * It is not part of the generator; it is the inverse Join is proved against.
   */
  function Split(s: string, sep: char): (r: seq<string>)
    ensures |r| > 0
  {
    if s == [] then [""]
    else
      var rest := Split(s[1..], sep);
      if s[0] == sep then [""] + rest
      else [[s[0]] + rest[0]] + rest[1..]
  }

  /** True when no token holds the separator. */
  predicate SeparatorFree(tokens: seq<string>, sep: char)
  {
    forall k :: 0 <= k < |tokens| ==> sep !in tokens[k]
  }

  /** A piece without separators splits into itself. */
  lemma {:induction false} SplitPiece(t: string, sep: char)
    requires sep !in t
    ensures Split(t, sep) == [t]
  {
    if t != [] {
      SplitPiece(t[1..], sep);
      assert [t[0]] + t[1..] == t;
    }
  }

  /** A separator-free piece followed by a separator splits off as the first piece. */
  lemma {:induction false} SplitFirst(t: string, u: string, sep: char)
    requires sep !in t
    ensures Split(t + [sep] + u, sep) == [t] + Split(u, sep)
  {
    if t == [] {
      assert t + [sep] + u == [sep] + u;
    } else {
      var s := t + [sep] + u;
      assert s[0] == t[0] && s[1..] == t[1..] + [sep] + u;
      SplitFirst(t[1..], u, sep);
      assert [t[0]] + t[1..] == t;
    }
  }

  /** Splitting undoes joining when no token contains the separator. */
  lemma {:induction false} SplitJoin(tokens: seq<string>, sep: char)
    requires |tokens| > 0
    requires SeparatorFree(tokens, sep)
    ensures Split(Join(tokens, sep), sep) == tokens
  {
    if |tokens| == 1 {
      SplitPiece(tokens[0], sep);
    } else {
      assert sep !in tokens[0];
      SplitJoin(tokens[1..], sep);
      SplitFirst(tokens[0], Join(tokens[1..], sep), sep);
      assert [tokens[0]] + tokens[1..] == tokens;
    }
  }

  /**
   * The joined text starts with the first token and ends with the last one,
   * so a list whose end tokens are non-empty and separator-free has no
   * leading or trailing separator.
   */
  lemma {:induction false} JoinEnds(tokens: seq<string>, sep: char)
    requires |tokens| > 0
    ensures tokens[0] <= Join(tokens, sep)
    ensures var j := Join(tokens, sep);
      |tokens[|tokens| - 1]| <= |j| && j[|j| - |tokens[|tokens| - 1]|..] == tokens[|tokens| - 1]
  {
    if |tokens| > 1 {
      JoinEnds(tokens[1..], sep);
      var rest := Join(tokens[1..], sep);
      var last := tokens[|tokens| - 1];
      assert tokens[1..][|tokens[1..]| - 1] == last;
      var j := tokens[0] + [sep] + rest;
      assert j[|j| - |last|..] == rest[|rest| - |last|..];
    }
  }

  /** The joined text holds exactly one separator per gap between tokens. */
  lemma {:induction false} JoinSeparatorCount(tokens: seq<string>, sep: char)
    requires |tokens| > 0
    requires SeparatorFree(tokens, sep)
    ensures multiset(Join(tokens, sep))[sep] == |tokens| - 1
  {
    if |tokens| > 1 {
      assert sep !in tokens[0];
      JoinSeparatorCount(tokens[1..], sep);
      var rest := Join(tokens[1..], sep);
      assert multiset(tokens[0] + [sep] + rest) == multiset(tokens[0]) + multiset([sep]) + multiset(rest);
    } else {
      assert sep !in tokens[0];
    }
  }

  // ---------------------------------------------------------------------------
  // Resolving the unspecified locale
  // ---------------------------------------------------------------------------

  /**
   * The catalog lookups of the fallback chain succeed: when the image language
   * has no catalog entry of its own, zh-CN needs the entry "zh" and zh-TW the
   * entry "zh-Hant" (looking them up would otherwise throw).
   */
  predicate FallbackAvailable(catalog: Catalog, languageId: string)
  {
    languageId !in catalog ==>
      (languageId == "zh-CN" ==> "zh" in catalog) &&
      (languageId == "zh-TW" ==> "zh-Hant" in catalog)
  }

  /**
   * GetReplacementForUnspecifiedLocale: the locale used in place of a
   * neutral one, chosen in priority order from the catalog entry of the image
   * language, "zh" for zh-CN, "zh-Hant" for zh-TW, or else the original.
   */
  function Replacement(catalog: Catalog, languageId: string, original: UserLocale): (r: UserLocale)
    requires FallbackAvailable(catalog, languageId)
    ensures languageId in catalog ==> r == catalog[languageId]
    ensures languageId !in catalog && languageId == "zh-CN" ==> r == catalog["zh"]
    ensures languageId !in catalog && languageId == "zh-TW" ==> r == catalog["zh-Hant"]
    ensures languageId !in catalog && languageId != "zh-CN" && languageId != "zh-TW" ==> r == original
    ensures r == original || r in catalog.Values
  {
    if languageId in catalog then catalog[languageId]
    else if languageId == "zh-CN" then catalog["zh"]
    else if languageId == "zh-TW" then catalog["zh-Hant"]
    else original
  }

  // ---------------------------------------------------------------------------
  // Tokens
  // ---------------------------------------------------------------------------

  /** The token of a pair can be computed without a failing catalog lookup. */
  predicate TokenDefined(catalog: Catalog, languageId: string, pair: LocaleAndKeyboard)
  {
    pair.keyboard.kind == IME || pair.locale.lcid != UnspecifiedLcid || FallbackAvailable(catalog, languageId)
  }

  /** The token of one present pair: the body of the SelectMany lambda. */
  function KeyboardToken(catalog: Catalog, languageId: string, pair: LocaleAndKeyboard): (r: string)
    requires TokenDefined(catalog, languageId, pair)
  {
    if pair.keyboard.kind == IME then pair.keyboard.id
    else if pair.locale.lcid == UnspecifiedLcid then
      Replacement(catalog, languageId, pair.locale).lcid + ":" + pair.keyboard.id
    else pair.locale.lcid + ":" + pair.keyboard.id
  }

  /**
   * The SelectMany lambda: an absent pair yields no token, a present one
   * exactly its own token.
   */
  function PairTokens(catalog: Catalog, languageId: string, pair: Option<LocaleAndKeyboard>): (r: seq<string>)
    requires pair.Some? ==> TokenDefined(catalog, languageId, pair.value)
    ensures |r| <= 1 && (r != [] <==> pair.Some?)
  {
    match pair
    case None => []
    case Some(p) => [KeyboardToken(catalog, languageId, p)]
  }

  /** The present entries of a list of optional values, in their order. */
  function Present<T>(xs: seq<Option<T>>): (r: seq<T>)
    ensures |r| <= |xs|
  {
    if xs == [] then []
    else (if xs[0].Some? then [xs[0].value] else []) + Present(xs[1..])
  }

  /** Every present pair of the list has a computable token. */
  predicate TokensDefined(catalog: Catalog, languageId: string, pairs: seq<Option<LocaleAndKeyboard>>)
  {
    var present := Present(pairs);
    forall k :: 0 <= k < |present| ==> TokenDefined(catalog, languageId, present[k])
  }

  /**
   * The SelectMany over the optional pairs: one token per present pair, the
   * k-th token being that of the k-th present pair.
   */
  function Tokens(catalog: Catalog, languageId: string, pairs: seq<Option<LocaleAndKeyboard>>): (r: seq<string>)
    requires TokensDefined(catalog, languageId, pairs)
    ensures |r| == |Present(pairs)|
    ensures forall k :: 0 <= k < |r| ==> r[k] == KeyboardToken(catalog, languageId, Present(pairs)[k])
  {
    if pairs == [] then []
    else
      var head := if pairs[0].Some? then [pairs[0].value] else [];
      assert Present(pairs) == head + Present(pairs[1..]);
      assert TokensDefined(catalog, languageId, pairs[1..]) by {
        forall k | 0 <= k < |Present(pairs[1..])|
          ensures TokenDefined(catalog, languageId, Present(pairs[1..])[k])
        {
          assert Present(pairs[1..])[k] == Present(pairs)[k + |head|];
        }
      }
      assert pairs[0].Some? ==> Present(pairs)[0] == pairs[0].value;
      PairTokens(catalog, languageId, pairs[0]) + Tokens(catalog, languageId, pairs[1..])
  }

  // ---------------------------------------------------------------------------
  // The whole InputLocale value
  // ---------------------------------------------------------------------------

  /** The pairs in priority order: primary, secondary, tertiary. */
  function KeyboardList(s: UnattendedSettings): seq<Option<LocaleAndKeyboard>>
  {
    [Some(s.localeAndKeyboard), s.localeAndKeyboard2, s.localeAndKeyboard3]
  }

  /** The catalog lets every present pair of the settings be encoded. */
  predicate Resolvable(catalog: Catalog, s: UnattendedSettings)
  {
    var lang := s.imageLanguage.id;
    && TokenDefined(catalog, lang, s.localeAndKeyboard)
    && (s.localeAndKeyboard2.Some? ==> TokenDefined(catalog, lang, s.localeAndKeyboard2.value))
    && (s.localeAndKeyboard3.Some? ==> TokenDefined(catalog, lang, s.localeAndKeyboard3.value))
  }

  /** The list of an optional value: what one slot contributes to Present. */
  function Slot<T>(x: Option<T>): seq<T>
  {
    if x.Some? then [x.value] else []
  }

  /** The present pairs of the settings are the primary one, then the others that are given. */
  lemma PresentPairs(s: UnattendedSettings)
    ensures Present(KeyboardList(s))
      == [s.localeAndKeyboard] + Slot(s.localeAndKeyboard2) + Slot(s.localeAndKeyboard3)
  {
    var xs := KeyboardList(s);
    assert xs[1..][1..][1..] == [];
    assert Present(xs[1..][1..]) == Slot(s.localeAndKeyboard3);
  }

  lemma ResolvableTokensDefined(catalog: Catalog, s: UnattendedSettings)
    requires Resolvable(catalog, s)
    ensures TokensDefined(catalog, s.imageLanguage.id, KeyboardList(s))
  {
    PresentPairs(s);
  }

  /** The InputLocale text written into both sections. */
  function EncodeKeyboards(catalog: Catalog, s: UnattendedSettings): string
    requires Resolvable(catalog, s)
  {
    ResolvableTokensDefined(catalog, s);
    Join(Tokens(catalog, s.imageLanguage.id, KeyboardList(s)), ';')
  }

  /** The tokens of the settings, slot by slot. */
  lemma TokensBySlot(catalog: Catalog, s: UnattendedSettings)
    requires Resolvable(catalog, s)
    ensures (ResolvableTokensDefined(catalog, s);
      Tokens(catalog, s.imageLanguage.id, KeyboardList(s))
      == [KeyboardToken(catalog, s.imageLanguage.id, s.localeAndKeyboard)]
         + PairTokens(catalog, s.imageLanguage.id, s.localeAndKeyboard2)
         + PairTokens(catalog, s.imageLanguage.id, s.localeAndKeyboard3))
  {
  }

  // ---------------------------------------------------------------------------
  // Properties of single tokens
  // ---------------------------------------------------------------------------

  /** An IME is written as its bare id, whatever its locale's LCID, even "1000". */
  lemma ImeTokenIsKeyboardId(catalog: Catalog, languageId: string, pair: LocaleAndKeyboard)
    requires pair.keyboard.kind == IME
    ensures TokenDefined(catalog, languageId, pair)
    ensures KeyboardToken(catalog, languageId, pair) == pair.keyboard.id
  {
  }

  /** A standard layout with a concrete LCID is written as "<lcid>:<id>". */
  lemma StandardTokenIsPrefixed(catalog: Catalog, languageId: string, pair: LocaleAndKeyboard)
    requires pair.keyboard.kind == Standard && pair.locale.lcid != UnspecifiedLcid
    ensures TokenDefined(catalog, languageId, pair)
    ensures KeyboardToken(catalog, languageId, pair) == pair.locale.lcid + ":" + pair.keyboard.id
  {
  }

  /**
   * Only a standard layout with the neutral LCID consults the catalog and the
   * image language: every other token is the same for any catalog and language.
   */
  lemma TokenIgnoresCatalog(catalog: Catalog, languageId: string, catalog': Catalog, languageId': string, pair: LocaleAndKeyboard)
    requires pair.keyboard.kind == IME || pair.locale.lcid != UnspecifiedLcid
    ensures TokenDefined(catalog, languageId, pair) && TokenDefined(catalog', languageId', pair)
    ensures KeyboardToken(catalog, languageId, pair) == KeyboardToken(catalog', languageId', pair)
  {
  }

  /**
   * A standard layout with the neutral LCID takes the LCID of, in order: the
   * catalog entry of the image language, "zh" for zh-CN, "zh-Hant" for zh-TW;
   * failing all three it keeps the literal "1000".
   */
  lemma UnspecifiedTokenFallback(catalog: Catalog, languageId: string, pair: LocaleAndKeyboard)
    requires pair.keyboard.kind == Standard && pair.locale.lcid == UnspecifiedLcid
    requires FallbackAvailable(catalog, languageId)
    ensures var t := KeyboardToken(catalog, languageId, pair);
      && (languageId in catalog ==> t == catalog[languageId].lcid + ":" + pair.keyboard.id)
      && (languageId !in catalog && languageId == "zh-CN" ==> t == catalog["zh"].lcid + ":" + pair.keyboard.id)
      && (languageId !in catalog && languageId == "zh-TW" ==> t == catalog["zh-Hant"].lcid + ":" + pair.keyboard.id)
      && (languageId !in catalog && languageId != "zh-CN" && languageId != "zh-TW" ==> t == "1000:" + pair.keyboard.id)
  {
  }

  /** The texts a token is built from hold no ';'. */
  predicate SeparatorFreeInputs(catalog: Catalog, pair: LocaleAndKeyboard)
  {
    && ';' !in pair.keyboard.id
    && ';' !in pair.locale.lcid
    && forall key :: key in catalog ==> ';' !in catalog[key].lcid
  }

  /** A token built from separator-free texts is separator-free. */
  lemma TokenSeparatorFree(catalog: Catalog, languageId: string, pair: LocaleAndKeyboard)
    requires TokenDefined(catalog, languageId, pair)
    requires SeparatorFreeInputs(catalog, pair)
    ensures ';' !in KeyboardToken(catalog, languageId, pair)
  {
  }

  // ---------------------------------------------------------------------------
  // Properties of the whole InputLocale value
  // ---------------------------------------------------------------------------

  /** The texts of every present pair hold no ';'. */
  predicate SettingsSeparatorFree(catalog: Catalog, s: UnattendedSettings)
  {
    && SeparatorFreeInputs(catalog, s.localeAndKeyboard)
    && (s.localeAndKeyboard2.Some? ==> SeparatorFreeInputs(catalog, s.localeAndKeyboard2.value))
    && (s.localeAndKeyboard3.Some? ==> SeparatorFreeInputs(catalog, s.localeAndKeyboard3.value))
  }

  /**
   * The InputLocale value reads back, split at ';', as one token per present
   * pair in the order primary, secondary, tertiary, absent pairs contributing
   * nothing; it holds one ';' per gap between tokens.
   */
  lemma {:induction false} EncodeKeyboardsOrder(catalog: Catalog, s: UnattendedSettings)
    requires Resolvable(catalog, s)
    requires SettingsSeparatorFree(catalog, s)
    ensures Split(EncodeKeyboards(catalog, s), ';')
      == [KeyboardToken(catalog, s.imageLanguage.id, s.localeAndKeyboard)]
         + PairTokens(catalog, s.imageLanguage.id, s.localeAndKeyboard2)
         + PairTokens(catalog, s.imageLanguage.id, s.localeAndKeyboard3)
    ensures multiset(EncodeKeyboards(catalog, s))[';']
      == |Slot(s.localeAndKeyboard2)| + |Slot(s.localeAndKeyboard3)|
  {
    var lang := s.imageLanguage.id;
    ResolvableTokensDefined(catalog, s);
    TokensBySlot(catalog, s);
    var ts := Tokens(catalog, lang, KeyboardList(s));
    TokenSeparatorFree(catalog, lang, s.localeAndKeyboard);
    if s.localeAndKeyboard2.Some? { TokenSeparatorFree(catalog, lang, s.localeAndKeyboard2.value); }
    if s.localeAndKeyboard3.Some? { TokenSeparatorFree(catalog, lang, s.localeAndKeyboard3.value); }
    assert SeparatorFree(ts, ';');
    SplitJoin(ts, ';');
    JoinSeparatorCount(ts, ';');
  }

  /**
   * The InputLocale value starts with the primary pair's token and ends with
   * the token of the last present pair.
   */
  lemma {:induction false} EncodeKeyboardsEnds(catalog: Catalog, s: UnattendedSettings)
    requires Resolvable(catalog, s)
    ensures var e := EncodeKeyboards(catalog, s);
      var lang := s.imageLanguage.id;
      var last := if s.localeAndKeyboard3.Some? then s.localeAndKeyboard3.value
        else if s.localeAndKeyboard2.Some? then s.localeAndKeyboard2.value
        else s.localeAndKeyboard;
      var first := KeyboardToken(catalog, lang, s.localeAndKeyboard);
      var final := KeyboardToken(catalog, lang, last);
      && first <= e
      && |final| <= |e| && e[|e| - |final|..] == final
  {
    var lang := s.imageLanguage.id;
    ResolvableTokensDefined(catalog, s);
    TokensBySlot(catalog, s);
    var ts := Tokens(catalog, lang, KeyboardList(s));
    var last := if s.localeAndKeyboard3.Some? then s.localeAndKeyboard3.value
      else if s.localeAndKeyboard2.Some? then s.localeAndKeyboard2.value
      else s.localeAndKeyboard;
    assert ts[0] == KeyboardToken(catalog, lang, s.localeAndKeyboard);
    assert ts[|ts| - 1] == KeyboardToken(catalog, lang, last);
    JoinEnds(ts, ';');
  }

  /** With only the primary pair given, the InputLocale value is its single token. */
  lemma PrimaryOnly(catalog: Catalog, s: UnattendedSettings)
    requires Resolvable(catalog, s)
    requires s.localeAndKeyboard2.None? && s.localeAndKeyboard3.None?
    ensures EncodeKeyboards(catalog, s) == KeyboardToken(catalog, s.imageLanguage.id, s.localeAndKeyboard)
  {
    TokensBySlot(catalog, s);
  }

  /** Settings with a US standard layout first and a Pinyin IME second. */
  function UsAndPinyin(): UnattendedSettings
  {
    UnattendedSettings(
      ImageLanguage("en-US"),
      LocaleAndKeyboard(UserLocale("en-US", "0409", None), KeyboardIdentifier("00000409", Standard)),
      Some(LocaleAndKeyboard(UserLocale("zh-CN", "0804", None), KeyboardIdentifier("IME_PINYIN", IME))),
      None,
      GeoLocation("244"))
  }

  /** A US layout followed by a Pinyin IME encodes as "0409:00000409;IME_PINYIN". */
  lemma UsAndPinyinExample(catalog: Catalog)
    ensures Resolvable(catalog, UsAndPinyin())
    ensures EncodeKeyboards(catalog, UsAndPinyin()) == "0409:00000409;IME_PINYIN"
  {
    var s := UsAndPinyin();
    var ts := Tokens(catalog, "en-US", KeyboardList(s));
    assert ts == ["0409:00000409", "IME_PINYIN"] by {
      TokensBySlot(catalog, s);
      assert KeyboardToken(catalog, "en-US", s.localeAndKeyboard) == "0409:00000409" by {
        assert "0409" + ":" + "00000409" == "0409:00000409";
      }
      assert PairTokens(catalog, "en-US", s.localeAndKeyboard2) == ["IME_PINYIN"];
    }
    assert Join(ts, ';') == "0409:00000409;IME_PINYIN" by {
      assert ts[1..] == ["IME_PINYIN"];
      assert "0409:00000409" + [';'] + "IME_PINYIN" == "0409:00000409;IME_PINYIN";
    }
  }
}
