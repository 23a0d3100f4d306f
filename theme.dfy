/**
 * The client's theme state: the colour configuration in force, the theme
 * name, and the copy kept in local storage. A custom theme is merged over
 * the default field by field; a custom primary colour given without its RGB
 * form gets one computed from the colour.
 */
module Theme {
  import opened Common
  import opened Text

  datatype ThemeName = DefaultName | CustomName

  datatype ThemeConfig = ThemeConfig(
    primaryColor: string,
    primaryLight: string,
    primaryDark: string,
    primaryRgb: string,
    secondaryColor: string,
    accentColor: string)

  /** A partial configuration: `None` is a key the object does not have. */
  datatype PartialTheme = PartialTheme(
    primaryColor: Option<string>,
    primaryLight: Option<string>,
    primaryDark: Option<string>,
    primaryRgb: Option<string>,
    secondaryColor: Option<string>,
    accentColor: Option<string>)

  const DefaultRgb := "43, 92, 230"

  const DefaultTheme := ThemeConfig("#2B5CE6", "#5B7FED", "#1E3FA8", DefaultRgb, "#F39C12", "#27AE60")

  // ---------------------------------------------------------------------
  // hexToRgb
  // ---------------------------------------------------------------------

  /** The colour without its optional leading `#`. */
  function HexBody(hex: string): (b: string)
    ensures |b| <= |hex|
  {
    if |hex| > 0 && hex[0] == '#' then hex[1..] else hex
  }

  /** `/^#?([a-f\d]{2})([a-f\d]{2})([a-f\d]{2})$/i`: six hex digits, either case, after an optional `#`. */
  predicate IsHexColor(hex: string)
  {
    var b := HexBody(hex);
    |b| == 6 && forall i :: 0 <= i < 6 ==> IsHexDigit(b[i])
  }

  /** The text `"r, g, b"` in decimal. */
  function RgbString(r: nat, g: nat, b: nat): string
  {
    NatToString(r) + ", " + NatToString(g) + ", " + NatToString(b)
  }

  /** `hexToRgb(hex)`: the three two-digit components in decimal, or the default RGB for anything else. */
  function HexToRgb(hex: string): (s: string)
    ensures !IsHexColor(hex) ==> s == DefaultRgb
    ensures s != ""
  {
    if IsHexColor(hex) then
      var b := HexBody(hex);
      RgbString(HexValue(b[0..2]), HexValue(b[2..4]), HexValue(b[4..6]))
    else DefaultRgb
  }

  const HexDigits := "0123456789ABCDEF"

  /** Two upper-case hex digits for a byte. */
  function HexByte(n: nat): (s: string)
    requires n < 256
    ensures |s| == 2 && IsHexDigit(s[0]) && IsHexDigit(s[1])
  {
    [HexDigits[n / 16], HexDigits[n % 16]]
  }

  /** The colour `#RRGGBB` of three components: the inverse direction of `HexToRgb`. */
  function RgbToHex(r: nat, g: nat, b: nat): (hex: string)
    requires r < 256 && g < 256 && b < 256
    ensures |hex| == 7 && hex[0] == '#'
  {
    "#" + HexByte(r) + HexByte(g) + HexByte(b)
  }

  lemma HexByteValue(n: nat)
    requires n < 256
    ensures HexValue(HexByte(n)) == n
  {
    var s := HexByte(n);
    assert s[..1] == [s[0]];
    assert HexValue([s[0]]) == HexDigitValue(s[0]) by {
      assert [s[0]][..0] == [];
    }
    assert HexDigitValue(HexDigits[n / 16]) == n / 16;
    assert HexDigitValue(HexDigits[n % 16]) == n % 16;
  }

  /** Every byte triple written as `#RRGGBB` reads back as its components. */
  lemma HexRoundTrip(r: nat, g: nat, b: nat)
    requires r < 256 && g < 256 && b < 256
    ensures IsHexColor(RgbToHex(r, g, b))
    ensures HexToRgb(RgbToHex(r, g, b)) == RgbString(r, g, b)
  {
    var hex := RgbToHex(r, g, b);
    var body := HexBody(hex);
    assert body == HexByte(r) + HexByte(g) + HexByte(b);
    assert body[0..2] == HexByte(r);
    assert body[2..4] == HexByte(g);
    assert body[4..6] == HexByte(b);
    HexByteValue(r);
    HexByteValue(g);
    HexByteValue(b);
  }

  const LowerHexDigits := "0123456789abcdef"

  /** Two lower-case hex digits for a byte. */
  function LowerHexByte(n: nat): (s: string)
    requires n < 256
    ensures |s| == 2 && IsHexDigit(s[0]) && IsHexDigit(s[1])
  {
    [LowerHexDigits[n / 16], LowerHexDigits[n % 16]]
  }

  lemma LowerHexByteValue(n: nat)
    requires n < 256
    ensures HexValue(LowerHexByte(n)) == n
  {
    var s := LowerHexByte(n);
    assert s[..1] == [s[0]];
    assert HexValue([s[0]]) == HexDigitValue(s[0]) by {
      assert [s[0]][..0] == [];
    }
    assert HexDigitValue(LowerHexDigits[n / 16]) == n / 16;
    assert HexDigitValue(LowerHexDigits[n % 16]) == n % 16;
  }

  /**
   * The match ignores case and the `#` is optional: six lower-case digits,
   * with or without the `#`, read back as the same components.
   */
  lemma LowerHexRoundTrip(r: nat, g: nat, b: nat, hash: bool)
    requires r < 256 && g < 256 && b < 256
    ensures var hex := (if hash then "#" else "") + LowerHexByte(r) + LowerHexByte(g) + LowerHexByte(b);
      IsHexColor(hex) && HexToRgb(hex) == RgbString(r, g, b)
  {
    var body := LowerHexByte(r) + LowerHexByte(g) + LowerHexByte(b);
    var hex := (if hash then "#" else "") + LowerHexByte(r) + LowerHexByte(g) + LowerHexByte(b);
    assert HexBody(hex) == body by {
      if hash {
        assert hex[1..] == body;
      } else {
        assert hex == body && IsHexDigit(body[0]);
      }
    }
    assert forall i :: 0 <= i < 6 ==> IsHexDigit(body[i]) by {
      assert body[0..2] == LowerHexByte(r);
      assert body[2..4] == LowerHexByte(g);
      assert body[4..6] == LowerHexByte(b);
    }
    assert body[0..2] == LowerHexByte(r);
    assert body[2..4] == LowerHexByte(g);
    assert body[4..6] == LowerHexByte(b);
    LowerHexByteValue(r);
    LowerHexByteValue(g);
    LowerHexByteValue(b);
  }

  /** Each component of a converted colour is a byte. */
  lemma HexToRgbComponents(hex: string)
    requires IsHexColor(hex)
    ensures exists r: nat, g: nat, b: nat :: r < 256 && g < 256 && b < 256 && HexToRgb(hex) == RgbString(r, g, b)
  {
    var body := HexBody(hex);
    TwoHexDigitsByte(body[0..2]);
    TwoHexDigitsByte(body[2..4]);
    TwoHexDigitsByte(body[4..6]);
    var r, g, b := HexValue(body[0..2]), HexValue(body[2..4]), HexValue(body[4..6]);
    assert HexToRgb(hex) == RgbString(r, g, b);
  }

  lemma TwoHexDigitsByte(s: string)
    requires |s| == 2 && IsHexDigit(s[0]) && IsHexDigit(s[1])
    ensures HexValue(s) < 256
  {
    assert s[..|s| - 1] == [s[0]];
    assert [s[0]][..0] == [];
    assert HexValue([s[0]]) == HexDigitValue(s[0]);
    assert HexValue(s) == 16 * HexDigitValue(s[0]) + HexDigitValue(s[1]);
  }

  /** The leading `#` is optional. */
  lemma HashIsOptional(hex: string)
    requires |hex| > 0 && hex[0] != '#'
    ensures HexToRgb("#" + hex) == HexToRgb(hex)
  {
    assert HexBody("#" + hex) == hex;
  }

  /** The same character, or the same hex letter in the other case. */
  predicate SameIgnoringCase(c: char, d: char)
  {
    || c == d
    || ('a' <= c <= 'f' && d as int == c as int - 32)
    || ('A' <= c <= 'F' && d as int == c as int + 32)
  }

  lemma {:induction false} HexValueIgnoresCase(s: string, t: string)
    requires |s| == |t| && forall i :: 0 <= i < |s| ==> IsHexDigit(s[i]) && SameIgnoringCase(s[i], t[i])
    ensures forall i :: 0 <= i < |t| ==> IsHexDigit(t[i])
    ensures HexValue(s) == HexValue(t)
    decreases |s|
  {
    if |s| > 0 {
      HexValueIgnoresCase(s[..|s| - 1], t[..|t| - 1]);
    }
  }

  /**
   * The `/i` flag: changing the case of any hex letters, in any mix, leaves
   * the match and the converted components unchanged.
   */
  lemma HexToRgbIgnoresCase(hex: string, other: string)
    requires IsHexColor(hex) && |other| == |hex|
    requires forall i :: 0 <= i < |hex| ==> SameIgnoringCase(hex[i], other[i])
    ensures IsHexColor(other) && HexToRgb(other) == HexToRgb(hex)
  {
    var b, b' := HexBody(hex), HexBody(other);
    assert |b'| == 6 && forall i :: 0 <= i < 6 ==> IsHexDigit(b[i]) && SameIgnoringCase(b[i], b'[i]) by {
      if |hex| > 0 && hex[0] == '#' {
        assert other[0] == '#';
        assert forall i :: 0 <= i < 6 ==> b[i] == hex[i + 1] && b'[i] == other[i + 1];
      } else {
        assert |hex| > 0 && IsHexDigit(hex[0]);
        assert other[0] != '#';
      }
    }
    HexValueIgnoresCase(b[0..2], b'[0..2]);
    HexValueIgnoresCase(b[2..4], b'[2..4]);
    HexValueIgnoresCase(b[4..6], b'[4..6]);
  }

  lemma DefaultPrimaryIsHex()
    ensures RgbToHex(43, 92, 230) == DefaultTheme.primaryColor
  {
    assert HexByte(43) == "2B" by { assert HexDigits[2] == '2' && HexDigits[11] == 'B'; }
    assert HexByte(92) == "5C" by { assert HexDigits[5] == '5' && HexDigits[12] == 'C'; }
    assert HexByte(230) == "E6" by { assert HexDigits[14] == 'E' && HexDigits[6] == '6'; }
  }

  lemma DefaultRgbIsDecimal()
    ensures RgbString(43, 92, 230) == DefaultRgb
  {
    assert NatToString(43) == "43" by { assert NatToString(4) == "4"; }
    assert NatToString(92) == "92" by { assert NatToString(9) == "9"; }
    assert NatToString(230) == "230" by {
      assert NatToString(23) == "23" by { assert NatToString(2) == "2"; }
    }
  }

  /** The default theme's RGB form is that of its primary colour. */
  lemma DefaultRgbMatchesPrimary()
    ensures HexToRgb(DefaultTheme.primaryColor) == DefaultTheme.primaryRgb
  {
    DefaultPrimaryIsHex();
    HexRoundTrip(43, 92, 230);
    DefaultRgbIsDecimal();
  }

  // ---------------------------------------------------------------------
  // setTheme's configuration
  // ---------------------------------------------------------------------

  function Or(v: Option<string>, fallback: string): string
  {
    if v.Some? then v.value else fallback
  }

  /** `x` is the custom value when the key is present and the default otherwise. */
  predicate Overrides(v: Option<string>, default: string, x: string)
  {
    (v.Some? ==> x == v.value) && (v.None? ==> x == default)
  }

  /** `{...defaultTheme, ...custom}`: each key the custom object has wins. */
  function Merge(custom: PartialTheme): (c: ThemeConfig)
    ensures Overrides(custom.primaryColor, DefaultTheme.primaryColor, c.primaryColor)
    ensures Overrides(custom.primaryLight, DefaultTheme.primaryLight, c.primaryLight)
    ensures Overrides(custom.primaryDark, DefaultTheme.primaryDark, c.primaryDark)
    ensures Overrides(custom.primaryRgb, DefaultTheme.primaryRgb, c.primaryRgb)
    ensures Overrides(custom.secondaryColor, DefaultTheme.secondaryColor, c.secondaryColor)
    ensures Overrides(custom.accentColor, DefaultTheme.accentColor, c.accentColor)
  {
    ThemeConfig(
      Or(custom.primaryColor, DefaultTheme.primaryColor),
      Or(custom.primaryLight, DefaultTheme.primaryLight),
      Or(custom.primaryDark, DefaultTheme.primaryDark),
      Or(custom.primaryRgb, DefaultTheme.primaryRgb),
      Or(custom.secondaryColor, DefaultTheme.secondaryColor),
      Or(custom.accentColor, DefaultTheme.accentColor))
  }

  /** A primary colour given (truthy) without a truthy RGB form. */
  predicate DerivesRgb(custom: PartialTheme)
  {
    custom.primaryColor.Some? && custom.primaryColor.value != ""
    && (custom.primaryRgb.None? || custom.primaryRgb.value == "")
  }

  /**
   * The configuration `setTheme(name, custom)` applies: the default unless
   * the name is custom and a custom object was given; then the merge, with
   * the RGB form computed from the custom primary colour when it lacks one.
   */
  function ThemeFor(name: ThemeName, custom: Option<PartialTheme>): (c: ThemeConfig)
    ensures (name == DefaultName || custom.None?) ==> c == DefaultTheme
    ensures name == CustomName && custom.Some? ==>
      c == Merge(custom.value).(primaryRgb := if DerivesRgb(custom.value) then HexToRgb(custom.value.primaryColor.value)
                                               else Merge(custom.value).primaryRgb)
  {
    if name == CustomName && custom.Some? then
      var merged := Merge(custom.value);
      if DerivesRgb(custom.value) then merged.(primaryRgb := HexToRgb(custom.value.primaryColor.value)) else merged
    else DefaultTheme
  }

  /** Every key of a complete configuration, as a partial one. */
  function AsPartial(c: ThemeConfig): (p: PartialTheme)
    ensures Merge(p) == c
  {
    PartialTheme(Some(c.primaryColor), Some(c.primaryLight), Some(c.primaryDark), Some(c.primaryRgb),
                 Some(c.secondaryColor), Some(c.accentColor))
  }

  /** A custom theme with only a primary colour keeps the default's other colours and derives its RGB form. */
  lemma PrimaryOnlyTheme(color: string)
    requires color != ""
    ensures var c := ThemeFor(CustomName, Some(PartialTheme(Some(color), None, None, None, None, None)));
      c == DefaultTheme.(primaryColor := color, primaryRgb := HexToRgb(color))
  {
  }

  /**
   * Applying a saved complete configuration as a custom theme gives it back,
   * unless it has a primary colour but an empty RGB form, which is then
   * recomputed.
   */
  lemma SavedConfigRestores(c: ThemeConfig)
    ensures c.primaryColor == "" || c.primaryRgb != "" ==> ThemeFor(CustomName, Some(AsPartial(c))) == c
    ensures c.primaryColor != "" && c.primaryRgb == "" ==>
      ThemeFor(CustomName, Some(AsPartial(c))) == c.(primaryRgb := HexToRgb(c.primaryColor))
  {
  }

  /**
   * A configuration `setTheme` produces never has a primary colour with an
   * empty RGB form unless the custom object set the RGB form to `""`
   * without giving a primary colour.
   */
  lemma AppliedConfigHasRgb(name: ThemeName, custom: Option<PartialTheme>)
    requires !(custom.Some? && custom.value.primaryRgb == Some("") && custom.value.primaryColor.None?)
    ensures var c := ThemeFor(name, custom);
      c.primaryColor == "" || c.primaryRgb != ""
  {
  }

  // ---------------------------------------------------------------------
  // The theme state
  // ---------------------------------------------------------------------

  /** The six CSS variables `getThemeStyles` returns. */
  const StyleKeys: set<string> :=
    {"--primary-color", "--primary-light", "--primary-dark", "--primary-rgb", "--secondary-color", "--accent-color"}

  /**
   * The theme state of the client: the name and configuration in force,
   * whether initialisation ran, and the theme name and configuration kept
   * in local storage (`alumnet_theme`, `alumnet_theme_config`).
   */
  class ThemeState {
    var current: ThemeName
    var config: ThemeConfig
    var initialized: bool
    var storedName: Option<ThemeName>
    var storedConfig: Option<ThemeConfig>

    /** The state at launch: the default theme, not yet initialised, with what storage holds. */
    constructor (storedName: Option<ThemeName>, storedConfig: Option<ThemeConfig>)
      ensures current == DefaultName && config == DefaultTheme && !initialized
      ensures this.storedName == storedName && this.storedConfig == storedConfig
    {
      current := DefaultName;
      config := DefaultTheme;
      initialized := false;
      this.storedName := storedName;
      this.storedConfig := storedConfig;
    }

    /** `setTheme(name, custom)`: applies the configuration and saves the name, and the configuration of a custom theme. */
    method SetTheme(name: ThemeName, custom: Option<PartialTheme>)
      modifies this
      ensures current == name && config == ThemeFor(name, custom)
      ensures storedName == Some(name)
      ensures storedConfig == (if name == CustomName then Some(ThemeFor(name, custom)) else old(storedConfig))
      ensures initialized == old(initialized)
    {
      var c := ThemeFor(name, custom);
      current := name;
      config := c;
      storedName := Some(name);
      if name == CustomName {
        storedConfig := Some(c);
      }
    }

    /** `resetTheme()`: back to the default theme, with both storage keys removed. */
    method ResetTheme()
      modifies this
      ensures current == DefaultName && config == DefaultTheme
      ensures storedName.None? && storedConfig.None?
      ensures initialized == old(initialized)
    {
      SetTheme(DefaultName, None);
      storedName := None;
      storedConfig := None;
    }

    /**
     * `loadSchoolTheme()`: applies the school's theme as a custom theme when
     * the school configuration has one. `schoolTheme` is the theme object
     * the cloud or the local configuration file yields, if any.
     */
    method LoadSchoolTheme(schoolTheme: Option<PartialTheme>) returns (loaded: bool)
      modifies this
      ensures loaded <==> schoolTheme.Some?
      ensures loaded ==> current == CustomName && config == ThemeFor(CustomName, schoolTheme)
      ensures loaded ==> storedName == Some(CustomName) && storedConfig == Some(config)
      ensures !loaded ==> current == old(current) && config == old(config)
      ensures !loaded ==> storedName == old(storedName) && storedConfig == old(storedConfig)
      ensures initialized == old(initialized)
    {
      if schoolTheme.Some? {
        SetTheme(CustomName, schoolTheme);
        return true;
      }
      return false;
    }

    /**
     * `initTheme()`: runs once; restores a saved custom theme, otherwise
     * loads the school's theme.
     */
    method InitTheme(schoolTheme: Option<PartialTheme>)
      modifies this
      ensures initialized
      ensures old(initialized) ==> current == old(current) && config == old(config)
      ensures !old(initialized) && old(storedName) == Some(CustomName) && old(storedConfig).Some? ==>
        current == CustomName && config == ThemeFor(CustomName, Some(AsPartial(old(storedConfig).value)))
      ensures !old(initialized) && !(old(storedName) == Some(CustomName) && old(storedConfig).Some?) && schoolTheme.Some? ==>
        current == CustomName && config == ThemeFor(CustomName, schoolTheme)
      ensures !old(initialized) && !(old(storedName) == Some(CustomName) && old(storedConfig).Some?) && schoolTheme.None? ==>
        current == old(current) && config == old(config)
      // storage is rewritten exactly when a theme is applied
      ensures !old(initialized) && ((old(storedName) == Some(CustomName) && old(storedConfig).Some?) || schoolTheme.Some?) ==>
        storedName == Some(CustomName) && storedConfig == Some(config)
      ensures old(initialized) || !((old(storedName) == Some(CustomName) && old(storedConfig).Some?) || schoolTheme.Some?) ==>
        storedName == old(storedName) && storedConfig == old(storedConfig)
    {
      if initialized {
        return;
      }
      if storedName == Some(CustomName) && storedConfig.Some? {
        SetTheme(CustomName, Some(AsPartial(storedConfig.value)));
        initialized := true;
        return;
      }
      var _ := LoadSchoolTheme(schoolTheme);
      initialized := true;
    }

    /** `getThemeStyles()`: the six CSS variables, each the matching colour of the configuration in force. */
    function ThemeStyles(): (m: map<string, string>)
      reads this
      ensures m.Keys == StyleKeys
      ensures m["--primary-color"] == config.primaryColor && m["--primary-light"] == config.primaryLight
      ensures m["--primary-dark"] == config.primaryDark && m["--primary-rgb"] == config.primaryRgb
      ensures m["--secondary-color"] == config.secondaryColor && m["--accent-color"] == config.accentColor
    {
      map["--primary-color" := config.primaryColor, "--primary-light" := config.primaryLight,
          "--primary-dark" := config.primaryDark, "--primary-rgb" := config.primaryRgb,
          "--secondary-color" := config.secondaryColor, "--accent-color" := config.accentColor]
    }
  }

  /**
   * A custom theme survives a relaunch: after `setTheme` saved it, a fresh
   * state over that storage restores the same configuration on
   * initialisation, whatever the school's theme.
   */
  method RelaunchRestoresCustomTheme(custom: Option<PartialTheme>, schoolTheme: Option<PartialTheme>)
    returns (before: ThemeConfig, after: ThemeConfig)
    requires !(custom.Some? && custom.value.primaryRgb == Some("") && custom.value.primaryColor.None?)
    ensures before == ThemeFor(CustomName, custom) && after == before
  {
    var t := new ThemeState(None, None);
    t.SetTheme(CustomName, custom);
    before := t.config;
    AppliedConfigHasRgb(CustomName, custom);
    SavedConfigRestores(before);
    var relaunched := new ThemeState(t.storedName, t.storedConfig);
    relaunched.InitTheme(schoolTheme);
    after := relaunched.config;
  }
}
